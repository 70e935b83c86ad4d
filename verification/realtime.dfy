/**
 * The realtime channel (src/ws/server.ts): the cookie-header parser, the upgrade gate, message
 * dispatch, the registry of open connections and the per-community broadcast.
 */
module Realtime {
  import opened Wrappers
  import Json
  import Text
  import opened Library
  import opened Store
  import opened AuthMiddleware
  import Cors
  import Log

  // ---------------------------------------------------------------- cookies

  /**
   * `h.split(";").map(trim).filter(Boolean)`: the pieces of a cookie header, each trimmed and
   * non-empty, so that each starts and ends with a non-space character.
   */
  function CookiePieces(header: string): (pieces: seq<string>)
    ensures forall k :: 0 <= k < |pieces| ==> Trimmed(pieces[k])
  {
    var trims := TrimAll(Text.Split(header, ';'));
    var pieces := Filter(trims, NonEmpty);
    forall k | 0 <= k < |pieces| ensures Trimmed(pieces[k]) {
      assert pieces[k] in pieces;
      assert pieces[k] in trims;
      var j :| 0 <= j < |trims| && trims[j] == pieces[k];
      TrimAllTrimmed(Text.Split(header, ';'), j);
    }
    pieces
  }

  /** `map(s => s.trim())`. */
  function TrimAll(parts: seq<string>): seq<string>
  {
    MapAll(parts, Text.Trim)
  }

  /** An array's `map(f)`. */
  function MapAll<T, U>(xs: seq<T>, f: T -> U): seq<U>
  {
    seq(|xs|, k requires 0 <= k < |xs| => f(xs[k]))
  }

  /** Mapping distributes over concatenation. */
  lemma MapAllAppend<T, U>(a: seq<T>, b: seq<T>, f: T -> U)
    ensures MapAll(a + b, f) == MapAll(a, f) + MapAll(b, f)
  {
    var l, r := MapAll(a + b, f), MapAll(a, f) + MapAll(b, f);
    forall k | 0 <= k < |l| ensures l[k] == r[k] {
      if k < |a| {
        assert (a + b)[k] == a[k];
      } else {
        assert (a + b)[k] == b[k - |a|];
      }
    }
  }

  /** `filter(Boolean)` on strings: the empty string is the only falsy one. */
  predicate NonEmpty(s: string)
  {
    s != ""
  }

  lemma TrimAllTrimmed(parts: seq<string>, j: nat)
    requires j < |parts|
    ensures TrimAll(parts)[j] != "" ==> Trimmed(TrimAll(parts)[j])
  {
    TrimmedTrim(parts[j]);
  }

  /** A string is a piece exactly when it is the non-empty trim of some `;`-part of the header. */
  lemma CookiePiecesMembers(header: string, parts: seq<string>)
    requires parts == Text.Split(header, ';')
    ensures forall p :: p in CookiePieces(header) ==> p != "" && exists k :: 0 <= k < |parts| && Text.Trim(parts[k]) == p
    ensures forall k :: 0 <= k < |parts| && Text.Trim(parts[k]) != "" ==> Text.Trim(parts[k]) in CookiePieces(header)
  {
    var trims := TrimAll(parts);
    forall p | p in CookiePieces(header) ensures p != "" && exists k :: 0 <= k < |parts| && Text.Trim(parts[k]) == p {
      var k :| 0 <= k < |trims| && trims[k] == p;
    }
    forall k | 0 <= k < |parts| && Text.Trim(parts[k]) != "" ensures Text.Trim(parts[k]) in CookiePieces(header) {
      assert NonEmpty(trims[k]);
    }
  }

  /** The pieces of two headers joined by `;` are those of the first followed by those of the second. */
  lemma CookiePiecesJoin(h1: string, h2: string)
    ensures CookiePieces(h1 + ";" + h2) == CookiePieces(h1) + CookiePieces(h2)
  {
    Text.SplitAppend(h1, h2, ';');
    MapAllAppend(Text.Split(h1, ';'), Text.Split(h2, ';'), Text.Trim);
    FilterAppend(TrimAll(Text.Split(h1, ';')), TrimAll(Text.Split(h2, ';')), NonEmpty);
  }

  /**
   * A header without `;` is one piece, its trim, or none when it is blank. With `CookiePiecesJoin`
   * this fixes the pieces of every header, in order.
   */
  lemma CookiePiecesSingle(h: string)
    requires ';' !in h
    ensures CookiePieces(h) == if Text.Trim(h) == "" then [] else [Text.Trim(h)]
  {
    var t := Text.Trim(h);
    assert Text.IndexOf(h, ';') == -1;
    assert Text.Split(h, ';') == [h];
    assert TrimAll([h]) == [t];
    assert Filter([t], NonEmpty) == (if NonEmpty(t) then [t] else []) + Filter([t][1..], NonEmpty);
    assert [t][1..] == [];
  }

  /** A non-empty result of `trim` is `Trimmed`. */
  lemma TrimmedTrim(s: string)
    ensures Text.Trim(s) != "" ==> Trimmed(Text.Trim(s))
  {
  }

  /** A non-empty string with no whitespace at either end. */
  predicate Trimmed(p: string)
  {
    p != "" && !Text.IsSpace(p[0]) && !Text.IsSpace(p[|p| - 1])
  }

  /** Trimming an already trimmed string changes nothing. */
  lemma TrimTwice(s: string)
    ensures Text.Trim(Text.Trim(s)) == Text.Trim(s)
  {
    var t := Text.Trim(s);
    if t != [] {
      assert Text.TrimStart(t) == t;
      assert Text.TrimEnd(t) == t;
    }
  }

  /** A piece whose first `=` is past index 0 splits into a key and a raw (still encoded) value. */
  function PieceKey(p: string): Option<(string, string)>
  {
    var i := Text.IndexOf(p, '=');
    if i > 0 then Some((p[..i], p[i + 1..])) else None
  }

  /**
   * A piece has a key exactly when it contains `=` and does not start with one; the key is
   * non-empty and `=`-free, and the piece is the key, `=`, and the value.
   */
  lemma PieceKeyShape(p: string)
    ensures PieceKey(p).Some? <==> '=' in p && p[0] != '='
    ensures PieceKey(p).Some? ==>
              var kv := PieceKey(p).value;
              0 < |kv.0| < |p| && p == kv.0 + "=" + kv.1 && '=' !in kv.0
  {
    var i := Text.IndexOf(p, '=');
    if i > 0 {
      assert p == p[..i] + "=" + p[i + 1..];
    }
  }

  /**
   * The cookie jar the `forEach` builds from `pieces`, in order: each keyed piece stores its
   * decoded value under its key, overwriting earlier ones. A value `decodeURIComponent` rejects
   * makes the whole parse throw (None).
   */
  function Jar(pieces: seq<string>, decode: string -> Option<string>): Option<map<string, string>>
  {
    if pieces == [] then Some(map[])
    else Step(Jar(pieces[..|pieces| - 1], decode), pieces[|pieces| - 1], decode)
  }

  /** One turn of the `forEach`: store the piece's decoded value under its key, if it has one. */
  function Step(jar: Option<map<string, string>>, p: string, decode: string -> Option<string>): Option<map<string, string>>
  {
    var kv := PieceKey(p);
    if jar.None? then None
    else if kv.None? then jar
    else
      var v := decode(kv.value.1);
      if v.None? then None else Some(jar.value[kv.value.0 := v.value])
  }

  /** Piece `j` names cookie `key`. */
  predicate Names(pieces: seq<string>, j: int, key: string)
  {
    0 <= j < |pieces| && PieceKey(pieces[j]).Some? && PieceKey(pieces[j]).value.0 == key
  }

  /** Piece `j` is keyed and its value does not decode. */
  predicate Undecodable(pieces: seq<string>, j: int, decode: string -> Option<string>)
  {
    0 <= j < |pieces| && PieceKey(pieces[j]).Some? && decode(PieceKey(pieces[j]).value.1).None?
  }

  /** The parse fails exactly when some keyed piece does not decode. */
  lemma {:induction false} JarFails(pieces: seq<string>, decode: string -> Option<string>)
    ensures Jar(pieces, decode).None? <==> exists j :: Undecodable(pieces, j, decode)
  {
    if pieces != [] {
      var n := |pieces| - 1;
      var init := pieces[..n];
      JarFails(init, decode);
      if Jar(init, decode).None? {
        var j :| Undecodable(init, j, decode);
        assert Undecodable(pieces, j, decode);
      } else if Undecodable(pieces, n, decode) {
      } else {
        assert forall j :: Undecodable(pieces, j, decode) ==> j < n && Undecodable(init, j, decode);
      }
    }
  }

  /** A successful parse holds exactly the keys some piece names. */
  lemma {:induction false} JarKeys(pieces: seq<string>, decode: string -> Option<string>)
    requires Jar(pieces, decode).Some?
    ensures forall key :: key in Jar(pieces, decode).value <==> exists j :: Names(pieces, j, key)
  {
    if pieces != [] {
      JarKeys(pieces[..|pieces| - 1], decode);
      forall key ensures key in Jar(pieces, decode).value <==> exists j :: Names(pieces, j, key) {
        JarKeysStep(pieces, pieces[..|pieces| - 1], decode, key);
      }
    }
  }

  /** One `Step` adds the piece's key, if it has one, and keeps every other key. */
  lemma StepKeys(jar: Option<map<string, string>>, p: string, decode: string -> Option<string>, key: string)
    requires Step(jar, p, decode).Some?
    ensures jar.Some?
    ensures key in Step(jar, p, decode).value <==> key in jar.value || (PieceKey(p).Some? && key == PieceKey(p).value.0)
  {
  }

  /** The inductive step of `JarKeys` for one key: the last piece adds its own key, if any. */
  lemma JarKeysStep(pieces: seq<string>, init: seq<string>, decode: string -> Option<string>, key: string)
    requires pieces != [] && init == pieces[..|pieces| - 1]
    requires Jar(pieces, decode).Some? && Jar(init, decode).Some?
    requires key in Jar(init, decode).value <==> exists j :: Names(init, j, key)
    ensures key in Jar(pieces, decode).value <==> exists j :: Names(pieces, j, key)
  {
    var n := |init|;
    assert Jar(pieces, decode) == Step(Jar(init, decode), pieces[n], decode);
    StepKeys(Jar(init, decode), pieces[n], decode, key);
    NamesSnoc(pieces, init, key);
  }

  /** Some piece names `key` exactly when an earlier piece or the last one does. */
  lemma NamesSnoc(pieces: seq<string>, init: seq<string>, key: string)
    requires pieces != [] && init == pieces[..|pieces| - 1]
    ensures (exists j :: Names(pieces, j, key)) <==> (exists j :: Names(init, j, key)) || Names(pieces, |init|, key)
  {
    var n := |init|;
    if exists j :: Names(pieces, j, key) {
      var j :| Names(pieces, j, key);
      if j < n {
        assert Names(init, j, key);
      }
    }
    if exists j :: Names(init, j, key) {
      var j :| Names(init, j, key);
      assert Names(pieces, j, key);
    }
  }

  /** In a successful parse each key holds the decoded value of the last piece that names it. */
  lemma {:induction false} JarLastWins(pieces: seq<string>, decode: string -> Option<string>, j: int, key: string)
    requires Jar(pieces, decode).Some?
    requires Names(pieces, j, key) && forall l :: j < l < |pieces| ==> !Names(pieces, l, key)
    ensures key in Jar(pieces, decode).value
    ensures Some(Jar(pieces, decode).value[key]) == decode(PieceKey(pieces[j]).value.1)
  {
    var n := |pieces| - 1;
    var init := pieces[..n];
    if j < n {
      assert Names(init, j, key);
      forall l | j < l < n ensures !Names(init, l, key) {
        assert !Names(pieces, l, key);
      }
      JarLastWins(init, decode, j, key);
      assert init[j] == pieces[j];
      assert !Names(pieces, n, key);
      var kv := PieceKey(pieces[n]);
      if kv.Some? {
        assert kv.value.0 != key;
        assert Jar(pieces, decode).value == Jar(init, decode).value[kv.value.0 := decode(kv.value.1).value];
      }
    }
  }

  /** Once a prefix of the pieces fails to parse, the whole header fails. */
  lemma {:induction false} JarFailureSticks(pieces: seq<string>, i: int, decode: string -> Option<string>)
    requires 0 <= i <= |pieces| && Jar(pieces[..i], decode).None?
    ensures Jar(pieces, decode).None?
    decreases |pieces| - i
  {
    if i == |pieces| {
      assert pieces[..i] == pieces;
    } else {
      JarSnoc(pieces, i, decode);
      JarFailureSticks(pieces, i + 1, decode);
    }
  }

  lemma JarSnoc(pieces: seq<string>, i: int, decode: string -> Option<string>)
    requires 0 <= i < |pieces|
    ensures Jar(pieces[..i + 1], decode) == Step(Jar(pieces[..i], decode), pieces[i], decode)
  {
    assert pieces[..i + 1][..i] == pieces[..i];
  }

  /** The three outcomes of one `Step` on a successful jar. */
  lemma StepCases(jar: map<string, string>, p: string, decode: string -> Option<string>)
    ensures PieceKey(p).None? ==> Step(Some(jar), p, decode) == Some(jar)
    ensures PieceKey(p).Some? && decode(PieceKey(p).value.1).None? ==> Step(Some(jar), p, decode).None?
    ensures PieceKey(p).Some? && decode(PieceKey(p).value.1).Some? ==>
              Step(Some(jar), p, decode) == Some(jar[PieceKey(p).value.0 := decode(PieceKey(p).value.1).value])
  {
  }

  /** `parseCookies(req)`: `header` is the `cookie` header, None when missing. */
  method ParseCookies(header: Option<string>, decode: string -> Option<string>) returns (out: Option<map<string, string>>)
    ensures out == Jar(CookiePieces(header.GetOr("")), decode)
  {
    out := ForEachPiece(CookiePieces(header.GetOr("")), decode);
  }

  /** The `forEach` over the pieces: stops at the first piece whose value fails to decode. */
  method ForEachPiece(pieces: seq<string>, decode: string -> Option<string>) returns (out: Option<map<string, string>>)
    ensures out == Jar(pieces, decode)
  {
    var jar: map<string, string> := map[];
    for i := 0 to |pieces|
      invariant Jar(pieces[..i], decode) == Some(jar)
    {
      JarSnoc(pieces, i, decode);
      StepCases(jar, pieces[i], decode);
      var kv := PieceKey(pieces[i]);
      if kv.Some? {
        var v := decode(kv.value.1);
        if v.None? {
          JarFailureSticks(pieces, i + 1, decode);
          return None;
        }
        jar := jar[kv.value.0 := v.value];
      }
    }
    assert pieces[..|pieces|] == pieces;
    out := Some(jar);
  }

  // ---------------------------------------------------------------- upgrade gate

  /** How an upgrade request ends: 403, 401, or an upgraded connection for this user. */
  datatype Upgrade = Forbidden403 | Unauthorized401 | Accept(user: SessionUser)

  /**
   * The `upgrade` handler: the origin is checked before anything else is read; then the cookies,
   * the token, the session and the user, any failure of which is the same 401.
   */
  function UpgradeGate(origin: Cors.OriginHeader, cookieHeader: Option<string>, sessions: seq<Session>, users: seq<User>,
                       lib: Primitives, cfg: Config, now: int): (r: Upgrade)
    ensures !Cors.WsOriginAllowed(origin) ==> r == Forbidden403
    ensures Cors.WsOriginAllowed(origin) && Jar(CookiePieces(cookieHeader.GetOr("")), lib.decodeUriComponent).None?
            ==> r == Unauthorized401
    ensures r.Accept? <==>
              && Cors.WsOriginAllowed(origin)
              && Jar(CookiePieces(cookieHeader.GetOr("")), lib.decodeUriComponent).Some?
              && Authenticate(sessions, users, Token(Jar(CookiePieces(cookieHeader.GetOr("")), lib.decodeUriComponent).value, cfg),
                              lib, cfg, now).Success?
    ensures r.Accept? ==>
              Authenticate(sessions, users, Token(Jar(CookiePieces(cookieHeader.GetOr("")), lib.decodeUriComponent).value, cfg),
                           lib, cfg, now) == Success(r.user)
  {
    if !Cors.WsOriginAllowed(origin) then Forbidden403
    else
      var jar := Jar(CookiePieces(cookieHeader.GetOr("")), lib.decodeUriComponent);
      if jar.None? then Unauthorized401
      else
        match Authenticate(sessions, users, Token(jar.value, cfg), lib, cfg, now)
        case Success(u) => Accept(u)
        case Failure(_) => Unauthorized401
  }

  /** The upgrade gate and `authRequired` admit the same session cookie. */
  lemma UpgradeMatchesHttpGate(origin: Cors.OriginHeader, cookieHeader: Option<string>, sessions: seq<Session>,
                               users: seq<User>, lib: Primitives, cfg: Config, now: int)
    requires Cors.WsOriginAllowed(origin)
    requires Jar(CookiePieces(cookieHeader.GetOr("")), lib.decodeUriComponent).Some?
    ensures var jar := Jar(CookiePieces(cookieHeader.GetOr("")), lib.decodeUriComponent).value;
            match Authenticate(sessions, users, Token(jar, cfg), lib, cfg, now)
            case Success(u) => UpgradeGate(origin, cookieHeader, sessions, users, lib, cfg, now) == Accept(u)
            case Failure(_) => UpgradeGate(origin, cookieHeader, sessions, users, lib, cfg, now) == Unauthorized401
  {
  }

  // ---------------------------------------------------------------- messages

  /** A registered connection; `socket` stands for the `ws` object's identity. */
  datatype Conn = Conn(socket: nat, communityId: string, role: string, perms: seq<string>, userId: string)

  function ConnOf(socket: nat, u: SessionUser): (c: Conn)
    ensures c.socket == socket && c.communityId == u.communityId && c.perms == u.perms && c.userId == u.userId
  {
    Conn(socket, u.communityId, u.role, u.perms, u.userId)
  }

  function Hello(c: Conn): Json.Value
  {
    Json.Obj([("type", Json.Str("hello")), ("communityId", Json.Str(c.communityId))])
  }

  const Subscribed: Json.Value := Json.Obj([("type", Json.Str("subscribed")), ("channel", Json.Str("community"))])
  const ForbiddenFrame: Json.Value := Json.Obj([("type", Json.Str("error")), ("error", Json.Str("Forbidden"))])

  function Pong(now: int): Json.Value
  {
    Json.Obj([("type", Json.Str("pong")), ("ts", Json.Num(now))])
  }

  /** `msg?.type` of a parsed message: only an object has one. */
  function MessageType(msg: Json.Value): (t: Option<Json.Value>)
    ensures !msg.Obj? ==> t.None?
  {
    if msg.Obj? then Json.Get(msg.fields, "type") else None
  }

  /**
   * The reply to one message; `msg` is None when `JSON.parse` threw. Unparseable and unknown
   * messages get no reply; `subscribe` needs the wildcard or `ws:subscribe`.
   */
  function Dispatch(msg: Option<Json.Value>, perms: seq<string>, now: int): (reply: Option<Json.Value>)
    ensures msg.None? ==> reply.None?
    ensures msg.Some? && MessageType(msg.value) == Some(Json.Str("ping")) ==> reply == Some(Pong(now))
    ensures msg.Some? && MessageType(msg.value) == Some(Json.Str("subscribe")) ==>
              (reply == Some(Subscribed) <==> HasPerm(perms, "ws:subscribe"))
              && (reply == Some(ForbiddenFrame) <==> !HasPerm(perms, "ws:subscribe"))
    ensures reply.Some? <==> msg.Some? && MessageType(msg.value) in {Some(Json.Str("ping")), Some(Json.Str("subscribe"))}
  {
    if msg.None? then None
    else
      var t := MessageType(msg.value);
      if t == Some(Json.Str("ping")) then Some(Pong(now))
      else if t == Some(Json.Str("subscribe")) then
        if HasPerm(perms, "ws:subscribe") then Some(Subscribed) else Some(ForbiddenFrame)
      else None
  }

  // ---------------------------------------------------------------- registry and broadcast

  /** Connection `c` receives a broadcast to `communityId` gated by `permGate` ("" for no gate). */
  predicate Recipient(c: Conn, communityId: string, permGate: string)
  {
    c.communityId == communityId && (permGate == "" || HasPerm(c.perms, permGate))
  }

  /** `conns`: the open connections, each once, in the order they were added. */
  class Registry {
    var conns: seq<Conn>

    ghost predicate Valid()
      reads this
    {
      Distinct(conns)
    }

    function Members(): set<Conn>
      reads this
    {
      set c | c in conns
    }

    constructor ()
      ensures Valid() && conns == []
    {
      conns := [];
    }

    /** `conns.add(c)` */
    method Add(c: Conn)
      requires Valid()
      modifies this
      ensures Valid() && Members() == old(Members()) + {c}
      ensures c !in old(conns) ==> conns == old(conns) + [c]
      ensures c in old(conns) ==> conns == old(conns)
    {
      if c !in conns {
        conns := conns + [c];
      }
    }

    /** `conns.delete(c)` */
    method Delete(c: Conn)
      requires Valid()
      modifies this
      ensures Valid() && Members() == old(Members()) - {c}
      ensures conns == Filter(old(conns), (x: Conn) => x != c)
    {
      var kept := Filter(conns, (x: Conn) => x != c);
      FilterKeepsDistinct(conns, (x: Conn) => x != c);
      forall x ensures x in kept <==> x in conns && x != c {
        if x in conns && x != c {
          var i :| 0 <= i < |conns| && conns[i] == x;
        }
      }
      conns := kept;
    }

    /**
     * `wsBroadcastCommunity(communityId, evt, permGate)`: try to send to every recipient, in
     * registry order; `sends(c)` is false when `c.ws.send` throws, which is swallowed. The
     * registry is not touched.
     */
    method Broadcast(communityId: string, permGate: string, sends: Conn -> bool)
      returns (attempted: seq<Conn>, delivered: seq<Conn>)
      ensures attempted == Filter(conns, (c: Conn) => Recipient(c, communityId, permGate))
      ensures delivered == Filter(attempted, sends)
    {
      attempted, delivered := [], [];
      for i := 0 to |conns|
        invariant attempted == Filter(conns[..i], (c: Conn) => Recipient(c, communityId, permGate))
        invariant delivered == Filter(attempted, sends)
      {
        var c := conns[i];
        assert conns[..i + 1] == conns[..i] + [c];
        FilterSnoc(conns[..i], c, (c: Conn) => Recipient(c, communityId, permGate));
        if c.communityId != communityId {
          continue;
        }
        if permGate != "" && !HasPerm(c.perms, permGate) {
          continue;
        }
        FilterSnoc(attempted, c, sends);
        attempted := attempted + [c];
        if sends(c) {
          delivered := delivered + [c];
        }
      }
      assert conns[..|conns|] == conns;
    }
  }

  /** Removing elements from a sequence without duplicates leaves one without duplicates. */
  lemma {:induction false} FilterKeepsDistinct<T>(s: seq<T>, keep: T -> bool)
    requires Distinct(s)
    ensures Distinct(Filter(s, keep))
  {
    if s != [] {
      var tail := Filter(s[1..], keep);
      assert Distinct(s[1..]) by {
        forall i, j | 0 <= i < j < |s| - 1 ensures s[1..][i] != s[1..][j] {
          assert s[1..][i] == s[i + 1] && s[1..][j] == s[j + 1];
        }
      }
      FilterKeepsDistinct(s[1..], keep);
      var r := Filter(s, keep);
      if keep(s[0]) {
        assert r == [s[0]] + tail;
        assert s[0] !in s[1..] by {
          forall k | 0 <= k < |s| - 1 ensures s[1..][k] != s[0] {
            assert s[1..][k] == s[k + 1];
          }
        }
        assert s[0] !in tail;
        forall i, j | 0 <= i < j < |r| ensures r[i] != r[j] {
          if i == 0 {
            assert r[j] == tail[j - 1];
            assert tail[j - 1] in tail;
          } else {
            assert r[i] == tail[i - 1] && r[j] == tail[j - 1];
          }
        }
      } else {
        assert r == tail;
      }
    }
  }

  /** A broadcast reaches exactly the recipients, and a failed send drops no other recipient. */
  lemma BroadcastAudience(conns: seq<Conn>, communityId: string, permGate: string, sends: Conn -> bool, c: Conn)
    ensures c in Filter(conns, (x: Conn) => Recipient(x, communityId, permGate))
            <==> c in conns && c.communityId == communityId && (permGate == "" || HasPerm(c.perms, permGate))
    ensures c in Filter(Filter(conns, (x: Conn) => Recipient(x, communityId, permGate)), sends)
            <==> c in conns && Recipient(c, communityId, permGate) && sends(c)
  {
  }

  /** The `connection` handler: register the connection, count it, greet it. */
  method OnConnect(registry: Registry, metrics: Log.Metrics, socket: nat, u: SessionUser, now: int) returns (c: Conn, hello: Json.Value)
    requires registry.Valid()
    modifies registry, metrics
    ensures c == ConnOf(socket, u) && hello == Hello(c)
    ensures registry.Valid() && registry.Members() == old(registry.Members()) + {c}
    ensures Log.Bumped(metrics, "ws_connect")
  {
    c := ConnOf(socket, u);
    registry.Add(c);
    metrics.MetricInc(now, "ws_connect");
    hello := Hello(c);
  }

  /** The `message` handler: count the message and answer it. */
  method OnMessage(metrics: Log.Metrics, c: Conn, msg: Option<Json.Value>, now: int) returns (reply: Option<Json.Value>)
    modifies metrics
    ensures reply == Dispatch(msg, c.perms, now)
    ensures Log.Bumped(metrics, "ws_in")
  {
    metrics.MetricInc(now, "ws_in");
    reply := Dispatch(msg, c.perms, now);
  }

  /** The `close` handler: unregister the connection and count it. */
  method OnClose(registry: Registry, metrics: Log.Metrics, c: Conn, now: int)
    requires registry.Valid()
    modifies registry, metrics
    ensures registry.Valid() && registry.Members() == old(registry.Members()) - {c}
    ensures Log.Bumped(metrics, "ws_close")
  {
    registry.Delete(c);
    metrics.MetricInc(now, "ws_close");
  }
}
