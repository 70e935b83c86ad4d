/**
 * Start-up migrations (src/migrations/run.ts): the permission catalogue, the role templates, the
 * idempotent `$setOnInsert` upserts that seed them, and the bootstrap community.
 */
module Migrations {
  import opened Wrappers
  import opened Errors
  import opened Store
  import Conn = Connection
  import Auth

  // ---------------------------------------------------------------- tables

  /** `globalPerms`: every capability key the system knows. */
  const GlobalPerms: seq<string> := [
    "ws:subscribe",
    "auth:read", "auth:write",
    "community:read", "community:write",
    "cad:read", "cad:write",
    "rms:read", "rms:write",
    "fireems:read", "fireems:write",
    "records:read", "records:write",
    "evidence:read", "evidence:write",
    "jail:read", "jail:write",
    "civilian:read", "civilian:write",
    "reports:read", "reports:write",
    "ops:read", "ops:write"
  ]

  /** `roleTemplates`, in the object's key order: each role name with its permissions. */
  const RoleTemplates: seq<(string, seq<string>)> := [
    ("Community Owner", ["*"]),
    ("Community Admin", GlobalPerms),
    ("Dispatcher", ["cad:read", "cad:write", "ws:subscribe", "reports:read"]),
    ("Officer", ["cad:read", "cad:write", "rms:read", "rms:write", "records:read", "evidence:read", "ws:subscribe"]),
    ("Records", ["records:read", "records:write", "reports:read", "reports:write"]),
    ("Fire", ["fireems:read", "fireems:write", "cad:read", "ws:subscribe"]),
    ("EMS", ["fireems:read", "fireems:write", "cad:read", "ws:subscribe"]),
    ("Civilian", ["civilian:read", "civilian:write"])
  ]

  /** The catalogue holds 23 distinct permissions. */
  lemma CatalogueDistinct()
    ensures |GlobalPerms| == 23 && Distinct(GlobalPerms)
  {
  }

  /**
   * Eight templates with distinct names: the owner holds the wildcard alone, the admin the whole
   * catalogue, and "Civilian", the default role of registration, is one of them.
   */
  lemma TemplatesNamed()
    ensures |RoleTemplates| == 8
    ensures forall i, j :: 0 <= i < j < |RoleTemplates| ==> RoleTemplates[i].0 != RoleTemplates[j].0
    ensures RoleTemplates[0] == ("Community Owner", ["*"]) && RoleTemplates[1] == ("Community Admin", GlobalPerms)
    ensures exists j :: 0 <= j < |RoleTemplates| && RoleTemplates[j].0 == "Civilian"
  {
    assert RoleTemplates[7].0 == "Civilian";
  }

  /** Every permission a template names, apart from the wildcard, is in the catalogue. */
  lemma TemplatePermsInCatalogue()
    ensures forall j, p :: 0 <= j < |RoleTemplates| && p in RoleTemplates[j].1 && p != "*" ==> p in GlobalPerms
  {
  }

  // ---------------------------------------------------------------- upserts

  /** Some document has key `k`. */
  predicate Covered<T, K(==)>(docs: seq<T>, key: T -> K, k: K)
  {
    exists i :: 0 <= i < |docs| && key(docs[i]) == k
  }

  /** No two documents share a key: what a unique index on the key enforces. */
  predicate KeysDistinct<T, K(==)>(docs: seq<T>, key: T -> K)
  {
    forall i, j :: 0 <= i < j < |docs| ==> key(docs[i]) != key(docs[j])
  }

  /**
   * `updateOne({ key }, { $setOnInsert: item }, { upsert: true })`: insert `item` when no document
   * has its key; otherwise change nothing.
   */
  function Upsert<T, K(==)>(docs: seq<T>, item: T, key: T -> K): (r: seq<T>)
    ensures Covered(docs, key, key(item)) ==> r == docs
    ensures !Covered(docs, key, key(item)) ==> r == docs + [item]
  {
    if Covered(docs, key, key(item)) then docs else docs + [item]
  }

  /** A sequence of upserts, in order. */
  function SeedAll<T, K(==)>(docs: seq<T>, items: seq<T>, key: T -> K): seq<T>
  {
    if items == [] then docs
    else Upsert(SeedAll(docs, items[..|items| - 1], key), items[|items| - 1], key)
  }

  /** Seeding only appends, and only items: documents already present are never changed. */
  lemma {:induction false} SeedAllKeepsExisting<T, K>(docs: seq<T>, items: seq<T>, key: T -> K)
    ensures docs <= SeedAll(docs, items, key)
    ensures forall i :: |docs| <= i < |SeedAll(docs, items, key)| ==> SeedAll(docs, items, key)[i] in items
  {
    if items != [] {
      var init := items[..|items| - 1];
      SeedAllKeepsExisting(docs, init, key);
      var s := SeedAll(docs, init, key);
      forall i | |docs| <= i < |SeedAll(docs, items, key)| ensures SeedAll(docs, items, key)[i] in items {
        if i < |s| {
          assert SeedAll(docs, items, key)[i] == s[i] && s[i] in init;
        }
      }
    }
  }

  /** After seeding, every item's key is present. */
  lemma {:induction false} SeedAllCovers<T, K>(docs: seq<T>, items: seq<T>, key: T -> K)
    ensures forall j :: 0 <= j < |items| ==> Covered(SeedAll(docs, items, key), key, key(items[j]))
  {
    if items != [] {
      var n := |items| - 1;
      SeedAllCovers(docs, items[..n], key);
      var s := SeedAll(docs, items[..n], key);
      var r := SeedAll(docs, items, key);
      assert s <= r;
      forall j | 0 <= j < |items| ensures Covered(r, key, key(items[j])) {
        if j < n {
          assert items[..n][j] == items[j];
          var i :| 0 <= i < |s| && key(s[i]) == key(items[j]);
          assert r[i] == s[i];
        } else if !Covered(s, key, key(items[n])) {
          assert r[|s|] == items[n];
        }
      }
    }
  }

  /** Seeding items whose keys are all present already changes nothing. */
  lemma {:induction false} SeedAllNoop<T, K>(docs: seq<T>, items: seq<T>, key: T -> K)
    requires forall j :: 0 <= j < |items| ==> Covered(docs, key, key(items[j]))
    ensures SeedAll(docs, items, key) == docs
  {
    if items != [] {
      var n := |items| - 1;
      assert forall j :: 0 <= j < n ==> items[..n][j] == items[j];
      SeedAllNoop(docs, items[..n], key);
    }
  }

  /**
   * Seeding is idempotent: a second run with the same keys (say, with a later `createdAt`) leaves
   * what the first run left.
   */
  lemma SeedAllTwice<T, K>(docs: seq<T>, items: seq<T>, again: seq<T>, key: T -> K)
    requires forall j :: 0 <= j < |again| ==> exists i :: 0 <= i < |items| && key(items[i]) == key(again[j])
    ensures SeedAll(SeedAll(docs, items, key), again, key) == SeedAll(docs, items, key)
  {
    var s := SeedAll(docs, items, key);
    SeedAllCovers(docs, items, key);
    forall j | 0 <= j < |again| ensures Covered(s, key, key(again[j])) {
      var i :| 0 <= i < |items| && key(items[i]) == key(again[j]);
      assert Covered(s, key, key(items[i]));
    }
    SeedAllNoop(s, again, key);
  }

  /** Seeding `a` then `b` is seeding `a + b`. */
  lemma {:induction false} SeedAllAppend<T, K>(docs: seq<T>, a: seq<T>, b: seq<T>, key: T -> K)
    ensures SeedAll(docs, a + b, key) == SeedAll(SeedAll(docs, a, key), b, key)
  {
    if b == [] {
      assert a + b == a;
    } else {
      var n := |b| - 1;
      assert (a + b)[..|a + b| - 1] == a + b[..n];
      SeedAllAppend(docs, a, b[..n], key);
    }
  }

  /** Upserts never create a second document with a key already present. */
  lemma {:induction false} SeedAllKeepsKeysDistinct<T, K>(docs: seq<T>, items: seq<T>, key: T -> K)
    requires KeysDistinct(docs, key)
    ensures KeysDistinct(SeedAll(docs, items, key), key)
  {
    if items != [] {
      SeedAllKeepsKeysDistinct(docs, items[..|items| - 1], key);
    }
  }

  // ---------------------------------------------------------------- ensurePerms

  function PermKey(p: Perm): string
  {
    p.key
  }

  /** The documents `ensurePerms` would insert for `keys` at time `now`. */
  function PermDocs(keys: seq<string>, now: int): (r: seq<Perm>)
    ensures |r| == |keys| && forall i :: 0 <= i < |keys| ==> r[i] == Perm(keys[i], now)
  {
    seq(|keys|, i requires 0 <= i < |keys| => Perm(keys[i], now))
  }

  /** `ensurePerms`: upsert every catalogue key in order. */
  method EnsurePerms(db: Db, now: int)
    modifies db`perms
    ensures db.perms == SeedAll(old(db.perms), PermDocs(GlobalPerms, now), PermKey)
  {
    UpsertPerms(db, GlobalPerms, now);
  }

  /** The loop of `ensurePerms`, over any list of keys. */
  method UpsertPerms(db: Db, keys: seq<string>, now: int)
    modifies db`perms
    ensures db.perms == SeedAll(old(db.perms), PermDocs(keys, now), PermKey)
  {
    for i := 0 to |keys|
      invariant db.perms == SeedAll(old(db.perms), PermDocs(keys[..i], now), PermKey)
    {
      PermDocsSnoc(keys, i, now);
      db.perms := Upsert(db.perms, Perm(keys[i], now), PermKey);
    }
    assert keys[..|keys|] == keys;
  }

  lemma PermDocsSnoc(keys: seq<string>, i: nat, now: int)
    requires i < |keys|
    ensures PermDocs(keys[..i + 1], now) == PermDocs(keys[..i], now) + [Perm(keys[i], now)]
  {
    assert PermDocs(keys[..i + 1], now)[..i] == PermDocs(keys[..i], now);
  }

  /** After `ensurePerms` every catalogue key is present; existing permission documents are kept. */
  lemma EnsurePermsEffect(perms: seq<Perm>, now: int)
    ensures perms <= SeedAll(perms, PermDocs(GlobalPerms, now), PermKey)
    ensures forall k :: k in GlobalPerms ==> Covered(SeedAll(perms, PermDocs(GlobalPerms, now), PermKey), PermKey, k)
  {
    SeedAllKeepsExisting(perms, PermDocs(GlobalPerms, now), PermKey);
    SeedAllCovers(perms, PermDocs(GlobalPerms, now), PermKey);
    forall k | k in GlobalPerms ensures Covered(SeedAll(perms, PermDocs(GlobalPerms, now), PermKey), PermKey, k) {
      var j :| 0 <= j < |GlobalPerms| && GlobalPerms[j] == k;
      assert PermKey(PermDocs(GlobalPerms, now)[j]) == k;
    }
  }

  // ---------------------------------------------------------------- ensureRoles

  function RoleKey(r: Role): (string, string)
  {
    (r.communityId, r.name)
  }

  /** The role documents of every template for community `cid`. */
  function TemplateRoles(cid: string, now: int): (r: seq<Role>)
    ensures |r| == |RoleTemplates|
    ensures forall j :: 0 <= j < |RoleTemplates| ==> r[j] == Role(cid, RoleTemplates[j].0, Some(RoleTemplates[j].1), now)
  {
    seq(|RoleTemplates|, j requires 0 <= j < |RoleTemplates| => Role(cid, RoleTemplates[j].0, Some(RoleTemplates[j].1), now))
  }

  /** The role documents `ensureRoles` would insert, community by community. */
  function RoleDocs(cids: seq<string>, now: int): seq<Role>
  {
    if cids == [] then [] else RoleDocs(cids[..|cids| - 1], now) + TemplateRoles(cids[|cids| - 1], now)
  }

  /** Every (community, template) pair has its document among the role documents. */
  lemma {:induction false} RoleDocsComplete(cids: seq<string>, now: int, i: nat, j: nat)
    requires i < |cids| && j < |RoleTemplates|
    ensures exists k :: 0 <= k < |RoleDocs(cids, now)| && RoleKey(RoleDocs(cids, now)[k]) == (cids[i], RoleTemplates[j].0)
  {
    var n := |cids| - 1;
    var prev := RoleDocs(cids[..n], now);
    var r := RoleDocs(cids, now);
    assert r == prev + TemplateRoles(cids[n], now);
    if i < n {
      RoleDocsComplete(cids[..n], now, i, j);
      assert cids[..n][i] == cids[i];
      var k :| 0 <= k < |prev| && RoleKey(prev[k]) == (cids[i], RoleTemplates[j].0);
      assert r[k] == prev[k];
    } else {
      assert r[|prev| + j] == TemplateRoles(cids[n], now)[j];
      assert RoleKey(r[|prev| + j]) == (cids[i], RoleTemplates[j].0);
    }
  }

  /** `String(c._id)` of each community, as `find({}).project({ _id: 1 })` lists them. */
  function Ids(communities: seq<Community>): (ids: seq<string>)
    ensures |ids| == |communities| && forall i :: 0 <= i < |communities| ==> ids[i] == communities[i].id.AsString()
  {
    seq(|communities|, i requires 0 <= i < |communities| => communities[i].id.AsString())
  }

  /** `ensureRoles`: for every community, upsert every template by (community, name). */
  method EnsureRoles(db: Db, now: int)
    modifies db`roles
    ensures db.roles == SeedAll(old(db.roles), RoleDocs(Ids(db.communities), now), RoleKey)
  {
    var ids := Ids(db.communities);
    for i := 0 to |ids|
      invariant db.roles == SeedAll(old(db.roles), RoleDocs(ids[..i], now), RoleKey)
    {
      ghost var before := db.roles;
      for j := 0 to |RoleTemplates|
        invariant db.roles == SeedAll(before, TemplateRoles(ids[i], now)[..j], RoleKey)
      {
        assert TemplateRoles(ids[i], now)[..j + 1][..j] == TemplateRoles(ids[i], now)[..j];
        db.roles := Upsert(db.roles, Role(ids[i], RoleTemplates[j].0, Some(RoleTemplates[j].1), now), RoleKey);
      }
      assert TemplateRoles(ids[i], now)[..|RoleTemplates|] == TemplateRoles(ids[i], now);
      assert ids[..i + 1][..i] == ids[..i];
      SeedAllAppend(old(db.roles), RoleDocs(ids[..i], now), TemplateRoles(ids[i], now), RoleKey);
    }
    assert ids[..|ids|] == ids;
  }

  /** After `ensureRoles` every community has a role of every template name, and existing roles are kept. */
  lemma EnsureRolesEffect(roles: seq<Role>, communities: seq<Community>, now: int)
    ensures roles <= SeedAll(roles, RoleDocs(Ids(communities), now), RoleKey)
    ensures forall i, j :: 0 <= i < |communities| && 0 <= j < |RoleTemplates| ==>
              Covered(SeedAll(roles, RoleDocs(Ids(communities), now), RoleKey), RoleKey, (communities[i].id.AsString(), RoleTemplates[j].0))
    ensures KeysDistinct(roles, RoleKey) ==> KeysDistinct(SeedAll(roles, RoleDocs(Ids(communities), now), RoleKey), RoleKey)
  {
    var docs := RoleDocs(Ids(communities), now);
    SeedAllKeepsExisting(roles, docs, RoleKey);
    SeedAllCovers(roles, docs, RoleKey);
    forall i, j | 0 <= i < |communities| && 0 <= j < |RoleTemplates|
      ensures Covered(SeedAll(roles, docs, RoleKey), RoleKey, (communities[i].id.AsString(), RoleTemplates[j].0))
    {
      RoleDocsComplete(Ids(communities), now, i, j);
      var k :| 0 <= k < |docs| && RoleKey(docs[k]) == (Ids(communities)[i], RoleTemplates[j].0);
      assert Covered(SeedAll(roles, docs, RoleKey), RoleKey, RoleKey(docs[k]));
    }
    if KeysDistinct(roles, RoleKey) {
      SeedAllKeepsKeysDistinct(roles, docs, RoleKey);
    }
  }

  // ---------------------------------------------------------------- bootstrap community

  const BootstrapName: string := "OpsLink CAD Community"

  /** The two feature flags a bootstrap community starts with, both enabled. */
  function BootstrapFlags(cid: string, now: int): seq<FeatureFlag>
  {
    [FeatureFlag(cid, "civilianServices", true, now), FeatureFlag(cid, "webhooks", true, now)]
  }

  /**
   * `ensureBootstrapCommunity`. The insert names no `_id`, so MongoDB generates an ObjectId; `oid`
   * is its hexadecimal text, which is what `String(r.insertedId)` gives the feature flags.
   */
  method EnsureBootstrapCommunity(db: Db, now: int, oid: string)
    modifies db`communities, db`featureFlags
    ensures (exists i :: 0 <= i < |old(db.communities)| && old(db.communities)[i].name == BootstrapName) ==>
              db.communities == old(db.communities) && db.featureFlags == old(db.featureFlags)
    ensures (forall i :: 0 <= i < |old(db.communities)| ==> old(db.communities)[i].name != BootstrapName) ==>
              && db.communities == old(db.communities) + [Community(ObjectId(oid), BootstrapName, "active", now, now)]
              && db.featureFlags == old(db.featureFlags) + BootstrapFlags(oid, now)
    ensures exists i :: 0 <= i < |db.communities| && db.communities[i].name == BootstrapName
  {
    var existing := First(db.communities, (c: Community) => c.name == BootstrapName);
    if existing.Some? {
      return;
    }
    db.communities := db.communities + [Community(ObjectId(oid), BootstrapName, "active", now, now)];
    db.featureFlags := db.featureFlags + BootstrapFlags(oid, now);
    assert db.communities[|db.communities| - 1].name == BootstrapName;
  }

  // ---------------------------------------------------------------- bootstrap community and `/register`

  /**
   * As written, `/register` cannot find the bootstrap community: its `_id` is an ObjectId, and the
   * handler queries `_id` with the string from the body, which no ObjectId equals. On a store
   * holding only the bootstrap community and its seeded roles, registering into
   * `String(insertedId)` with the default role is refused with "Community not found", although
   * that community has the role.
   */
  lemma BootstrapRegistrationRefused(oid: string, now: int, input: Auth.RegisterInput)
    requires input.communityId == oid && input.role == "Civilian" && Auth.PasswordPolicy(input.password)
    ensures var communities := [Community(ObjectId(oid), BootstrapName, "active", now, now)];
            var roles := SeedAll([], RoleDocs(Ids(communities), now), RoleKey);
            && Covered(roles, RoleKey, (oid, "Civilian"))
            && Auth.RegisterDecision(communities, roles, input) == Failure(HttpError(400, "Community not found"))
  {
    var communities := [Community(ObjectId(oid), BootstrapName, "active", now, now)];
    EnsureRolesEffect([], communities, now);
    TemplatesNamed();
    assert RoleTemplates[7].0 == "Civilian";
    assert !Auth.ActiveCommunity(communities[0], oid);
  }

  /**
   * The evidently intended insert: a string `_id`, as every other insert of the code chooses, so
   * that the id the feature flags and roles carry is the one `/register` queries.
   */
  method EnsureBootstrapCommunityWithId(db: Db, now: int, newId: string)
    modifies db`communities, db`featureFlags
    ensures (exists i :: 0 <= i < |old(db.communities)| && old(db.communities)[i].name == BootstrapName) ==>
              db.communities == old(db.communities) && db.featureFlags == old(db.featureFlags)
    ensures (forall i :: 0 <= i < |old(db.communities)| ==> old(db.communities)[i].name != BootstrapName) ==>
              && db.communities == old(db.communities) + [Community(StrId(newId), BootstrapName, "active", now, now)]
              && db.featureFlags == old(db.featureFlags) + BootstrapFlags(newId, now)
    ensures exists i :: 0 <= i < |db.communities| && db.communities[i].name == BootstrapName
  {
    var existing := First(db.communities, (c: Community) => c.name == BootstrapName);
    if existing.Some? {
      return;
    }
    db.communities := db.communities + [Community(StrId(newId), BootstrapName, "active", now, now)];
    db.featureFlags := db.featureFlags + BootstrapFlags(newId, now);
    assert db.communities[|db.communities| - 1].name == BootstrapName;
  }

  /**
   * With string ids, registration works as intended after a migration: any active community whose
   * `_id` is the string the body names accepts a new member with the default role and a password
   * that meets the policy.
   */
  lemma StringIdCommunityRegistrable(perms: seq<Perm>, communities: seq<Community>, roles: seq<Role>,
                                     k: nat, input: Auth.RegisterInput)
    requires Migrated(perms, communities, roles)
    requires k < |communities| && communities[k].id == StrId(input.communityId) && communities[k].status == "active"
    requires input.role == "Civilian" && Auth.PasswordPolicy(input.password)
    ensures Auth.RegisterDecision(communities, roles, input).Success?
  {
    TemplatesNamed();
    assert Covered(roles, RoleKey, (communities[k].id.AsString(), RoleTemplates[7].0));
    var i :| 0 <= i < |roles| && RoleKey(roles[i]) == (input.communityId, "Civilian");
    assert Auth.RoleOf(roles[i], input.communityId, input.role);
    assert Auth.ActiveCommunity(communities[k], input.communityId);
  }

  // ---------------------------------------------------------------- runMigrations

  /**
   * What a completed migration leaves behind: every permission, the bootstrap community, and
   * every template role for every community.
   */
  predicate Migrated(perms: seq<Perm>, communities: seq<Community>, roles: seq<Role>)
  {
    && (forall k :: k in GlobalPerms ==> Covered(perms, PermKey, k))
    && (exists i :: 0 <= i < |communities| && communities[i].name == BootstrapName)
    && (forall i, j :: 0 <= i < |communities| && 0 <= j < |RoleTemplates| ==>
          Covered(roles, RoleKey, (communities[i].id.AsString(), RoleTemplates[j].0)))
  }

  /**
   * The seeding steps of `runMigrations`, in their order: the roles come last, so that the
   * bootstrap community receives every template too. Nothing already present is lost.
   */
  method Seed(db: Db, now: int, bootstrapId: string)
    modifies db`perms, db`communities, db`featureFlags, db`roles
    ensures Migrated(db.perms, db.communities, db.roles)
    ensures old(db.perms) <= db.perms && old(db.communities) <= db.communities && old(db.roles) <= db.roles
  {
    ghost var perms0 := db.perms;
    EnsurePerms(db, now);
    EnsurePermsEffect(perms0, now);
    ghost var perms1 := db.perms;
    EnsureBootstrapCommunity(db, now, bootstrapId);
    ghost var roles0 := db.roles;
    EnsureRoles(db, now);
    EnsureRolesEffect(roles0, db.communities, now);
    assert db.perms == perms1;
  }

  /** `runMigrations`: connect, then (index creation aside) seed. */
  method RunMigrations(conn: Conn.Connection, uri: Option<string>, clientId: nat, connectError: Option<Err>,
                       now: int, bootstrapId: string) returns (r: Result<Db, Err>)
    requires conn.Valid()
    modifies conn, conn.server`perms, conn.server`communities, conn.server`featureFlags, conn.server`roles
    ensures conn.Valid()
    ensures r.Failure? ==> unchanged(conn.server)
    ensures r.Success? ==> r.value == conn.server && Migrated(r.value.perms, r.value.communities, r.value.roles)
  {
    var connected := conn.ConnectDb(uri, clientId, connectError);
    if connected.Failure? {
      return Failure(connected.error);
    }
    var d := conn.GetDb().value;
    Seed(d, now, bootstrapId);
    r := Success(d);
  }
}
