/**
 * The MongoDB collections the core reads and writes, as in-memory sequences in insertion order,
 * and the three query shapes it uses on them: `findOne` (first match), `countDocuments`, and
 * `deleteMany`/`find` (filter).
 */
module Store {
  import opened Wrappers
  import Audit

  /**
   * A document `_id`: a string the code chose, or the ObjectId MongoDB generates when an insert
   * names none, identified by its hexadecimal text. Query equality is type-strict: no string
   * equals an ObjectId.
   */
  datatype DocId = StrId(text: string) | ObjectId(hex: string)
  {
    /** `String(_id)` */
    function AsString(): string
    {
      if StrId? then text else hex
    }
  }

  datatype Community = Community(id: DocId, name: string, status: string, createdAt: int, updatedAt: int)
  datatype Role = Role(communityId: string, name: string, perms: Option<seq<string>>, createdAt: int)
  datatype Perm = Perm(key: string, createdAt: int)

  /** `perms` is None when the stored value is not an array. */
  datatype User = User(
    id: string, communityId: string, email: string, username: string, passwordHash: string,
    role: string, perms: Option<seq<string>>, status: string, createdAt: int, updatedAt: int)

  /** `revokedAt` None is the stored `null`. */
  datatype Session = Session(
    id: string, communityId: string, userId: string, deviceId: string, deviceName: string,
    ip: string, ua: string, createdAt: int, expiresAt: int, revokedAt: Option<int>)

  datatype Device = Device(communityId: string, userId: string, deviceId: string, deviceName: string, lastSeenAt: int)

  datatype RefreshToken = RefreshToken(
    id: string, communityId: string, userId: string, tokenHash: string,
    createdAt: int, expiresAt: int, revokedAt: Option<int>)

  datatype MfaSecret = MfaSecret(communityId: string, userId: string, secret: string, enabled: bool)

  datatype AuthAttempt = AuthAttempt(id: string, communityId: string, email: string, ip: string, ok: bool, ts: int)

  datatype FeatureFlag = FeatureFlag(communityId: string, key: string, enabled: bool, updatedAt: int)

  /** Only the fields the sweep reads; `None` stands for a missing field or `null`. */
  datatype Notification = Notification(id: string, communityId: string, userId: string,
                                       scheduledFor: Option<int>, sentAt: Option<int>)

  /** No element occurs twice. */
  predicate Distinct<T(==)>(s: seq<T>)
  {
    forall i, j :: 0 <= i < j < |s| ==> s[i] != s[j]
  }

  /** Document `i` is the first one in collection order that matches. */
  predicate FirstAt<T>(docs: seq<T>, matches: T -> bool, i: int)
  {
    0 <= i < |docs| && matches(docs[i]) && forall j :: 0 <= j < i ==> !matches(docs[j])
  }

  /** The position of the first matching document, if any. */
  function FirstIndex<T>(docs: seq<T>, matches: T -> bool): (r: Option<nat>)
    ensures r.None? <==> forall i :: 0 <= i < |docs| ==> !matches(docs[i])
    ensures r.Some? ==> FirstAt(docs, matches, r.value)
  {
    if docs == [] then None
    else if matches(docs[0]) then Some(0)
    else
      var r := FirstIndex(docs[1..], matches);
      if r.Some? then Some(r.value + 1) else None
  }

  /** `findOne(filter)`: the first matching document, if any. */
  function First<T>(docs: seq<T>, matches: T -> bool): (r: Option<T>)
    ensures r.None? <==> forall i :: 0 <= i < |docs| ==> !matches(docs[i])
    ensures r.Some? ==> exists i :: FirstAt(docs, matches, i) && docs[i] == r.value
  {
    var i := FirstIndex(docs, matches);
    if i.Some? then Some(docs[i.value]) else None
  }

  /** The documents that satisfy `keep`, in their original order. */
  function Filter<T>(docs: seq<T>, keep: T -> bool): (r: seq<T>)
    ensures |r| <= |docs|
    ensures forall x :: x in r ==> keep(x) && x in docs
    ensures forall i :: 0 <= i < |docs| && keep(docs[i]) ==> docs[i] in r
  {
    if docs == [] then []
    else (if keep(docs[0]) then [docs[0]] else []) + Filter(docs[1..], keep)
  }

  /** Filtering is idempotent, and the identity when every document is kept. */
  lemma {:induction false} FilterAllKept<T>(docs: seq<T>, keep: T -> bool)
    requires forall i :: 0 <= i < |docs| ==> keep(docs[i])
    ensures Filter(docs, keep) == docs
  {
    if docs != [] {
      FilterAllKept(docs[1..], keep);
      assert docs == [docs[0]] + docs[1..];
    }
  }

  lemma FilterIdempotent<T>(docs: seq<T>, keep: T -> bool)
    ensures Filter(Filter(docs, keep), keep) == Filter(docs, keep)
  {
    var r := Filter(docs, keep);
    assert forall i :: 0 <= i < |r| ==> r[i] in r;
    FilterAllKept(r, keep);
  }

  /** Filtering distributes over appending one document at the end. */
  lemma {:induction false} FilterSnoc<T>(docs: seq<T>, x: T, keep: T -> bool)
    ensures Filter(docs + [x], keep) == Filter(docs, keep) + (if keep(x) then [x] else [])
  {
    if docs == [] {
      assert docs + [x] == [x];
    } else {
      assert (docs + [x])[1..] == docs[1..] + [x];
      FilterSnoc(docs[1..], x, keep);
    }
  }

  /** Filtering distributes over concatenation. */
  lemma {:induction false} FilterAppend<T>(a: seq<T>, b: seq<T>, keep: T -> bool)
    ensures Filter(a + b, keep) == Filter(a, keep) + Filter(b, keep)
  {
    if a == [] {
      assert a + b == b;
    } else {
      assert (a + b)[0] == a[0];
      assert (a + b)[1..] == a[1..] + b;
      FilterAppend(a[1..], b, keep);
    }
  }

  /** `countDocuments(filter)`. */
  function Count<T>(docs: seq<T>, matches: T -> bool): nat
  {
    |Filter(docs, matches)|
  }

  /** Counting after an insert: the new document counts exactly when it matches. */
  lemma CountSnoc<T>(docs: seq<T>, x: T, matches: T -> bool)
    ensures Count(docs + [x], matches) == Count(docs, matches) + (if matches(x) then 1 else 0)
  {
    FilterSnoc(docs, x, matches);
  }

  /** The database: one field per collection the core touches. */
  class Db {
    var communities: seq<Community>
    var roles: seq<Role>
    var perms: seq<Perm>
    var users: seq<User>
    var sessions: seq<Session>
    var devices: seq<Device>
    var refreshTokens: seq<RefreshToken>
    var mfaSecrets: seq<MfaSecret>
    var authAttempts: seq<AuthAttempt>
    var featureFlags: seq<FeatureFlag>
    var notifications: seq<Notification>
    const auditEvents: Audit.AuditLog
    const evidenceChain: Audit.EvidenceChain

    constructor (auditEvents: Audit.AuditLog, evidenceChain: Audit.EvidenceChain)
      ensures this.auditEvents == auditEvents && this.evidenceChain == evidenceChain
      ensures communities == [] && roles == [] && perms == [] && users == []
      ensures sessions == [] && devices == [] && refreshTokens == [] && mfaSecrets == []
      ensures authAttempts == [] && featureFlags == [] && notifications == []
    {
      this.auditEvents := auditEvents;
      this.evidenceChain := evidenceChain;
      communities, roles, perms, users := [], [], [], [];
      sessions, devices, refreshTokens, mfaSecrets := [], [], [], [];
      authAttempts, featureFlags, notifications := [], [], [];
    }
  }
}
