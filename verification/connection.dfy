/** The process-wide database connection (src/lib/db.ts): URI validation and connect-once caching. */
module Connection {
  import opened Wrappers
  import Text
  import opened Errors
  import opened Store

  const UriMissing: string := "ATLAS_URI missing"
  const UriRejected: string := "ATLAS_URI must include tls=true, retryWrites=true, w=majority"

  /** The three options the connection string must carry. */
  const TlsOption: string := "tls=true"
  const RetryOption: string := "retryWrites=true"
  const MajorityOption: string := "w=majority"

  /** The connection string carries all three required options, anywhere in the string. */
  function UriAcceptable(uri: string): (ok: bool)
    ensures ok <==> && (exists i :: Text.OccursAt(uri, TlsOption, i))
                    && (exists i :: Text.OccursAt(uri, RetryOption, i))
                    && (exists i :: Text.OccursAt(uri, MajorityOption, i))
  {
    Text.ContainsIff(uri, TlsOption);
    Text.ContainsIff(uri, RetryOption);
    Text.ContainsIff(uri, MajorityOption);
    Text.Contains(uri, TlsOption) && Text.Contains(uri, RetryOption) && Text.Contains(uri, MajorityOption)
  }

  /**
   * The module state: `client` stands for the `MongoClient` (by an identifying number), `db` for
   * the handle `client.db()` returns, which is always `server`, the database the URI names.
   */
  class Connection {
    var client: Option<nat>
    var db: Option<Db>
    const server: Db

    ghost predicate Valid()
      reads this
    {
      db.None? || db.value == server
    }

    constructor (server: Db)
      ensures Valid() && client.None? && db.None? && this.server == server
    {
      client := None;
      db := None;
      this.server := server;
    }

    /** `getDb()` */
    function GetDb(): (r: Result<Db, Err>)
      reads this
      ensures r.Failure? <==> db.None?
      ensures r.Failure? ==> r.error == PlainError("DB not connected")
      ensures r.Success? ==> r.value == db.value
    {
      if db.None? then Failure(PlainError("DB not connected")) else Success(db.value)
    }

    /**
     * `connectDb()` with `ATLAS_URI = uri`. `clientId` names the client it would create and
     * `connectError` is the error `client.connect()` throws, if any.
     */
    method ConnectDb(uri: Option<string>, clientId: nat, connectError: Option<Err>) returns (r: Result<Db, Err>)
      requires Valid()
      modifies this
      ensures Valid()
      ensures old(db.Some? && client.Some?) ==> r == Success(server) && db == old(db) && client == old(client)
      ensures !old(db.Some? && client.Some?) && (uri.None? || uri.value == "") ==>
                r == Failure(PlainError(UriMissing)) && db == old(db) && client == old(client)
      ensures !old(db.Some? && client.Some?) && uri.Some? && uri.value != "" && !UriAcceptable(uri.value) ==>
                r == Failure(PlainError(UriRejected)) && db == old(db) && client == old(client)
      ensures !old(db.Some? && client.Some?) && uri.Some? && uri.value != "" && UriAcceptable(uri.value) ==>
                && client == Some(clientId)
                && (connectError.Some? ==> r == Failure(connectError.value) && db == old(db))
                && (connectError.None? ==> r == Success(server) && db == Some(server))
      ensures r.Success? ==> GetDb() == Success(server)
    {
      if db.Some? && client.Some? {
        return Success(db.value);
      }
      if uri.None? || uri.value == "" {
        return Failure(PlainError(UriMissing));
      }
      if !UriAcceptable(uri.value) {
        return Failure(PlainError(UriRejected));
      }
      client := Some(clientId);
      if connectError.Some? {
        return Failure(connectError.value);
      }
      db := Some(server);
      r := Success(server);
    }
  }

  /** Any URI that carries the three options, joined by `&` after some prefix, is accepted. */
  lemma OptionsSuffice(prefix: string)
    ensures UriAcceptable(prefix + TlsOption + "&" + RetryOption + "&" + MajorityOption)
  {
    var u := prefix + TlsOption + "&" + RetryOption + "&" + MajorityOption;
    var r := |prefix| + |TlsOption| + 1;
    assert u[|prefix|..|prefix| + |TlsOption|] == TlsOption;
    assert Text.OccursAt(u, TlsOption, |prefix|);
    assert u[r..r + |RetryOption|] == RetryOption;
    assert Text.OccursAt(u, RetryOption, r);
    assert u[|u| - |MajorityOption|..] == MajorityOption;
    assert Text.OccursAt(u, MajorityOption, |u| - |MajorityOption|);
  }
}
