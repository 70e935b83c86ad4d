/**
 * The hash-chaining algorithm shared by the audit log and the evidence custody chain
 * (src/lib/audit.ts). A collection holds records of several partitions; each append looks up
 * the latest record of its own partition, copies that record's hash into `prevHash`, and stores
 * `hash = digest(payload)` where the payload includes `prevHash`.
 */
module HashChain {
  import opened Wrappers

  /**
   * Everything a record stores except its own hash: the partition key, the insertion time, the
   * random suffix of its `_id` (the `_id` is built from key, time and this suffix), the
   * normalised fields, and the previous hash.
   */
  datatype Payload<K, B> = Payload(key: K, ts: int, nonce: string, body: B, prevHash: string)

  /** A stored record: `{ ...payload, hash }`. */
  datatype Entry<K, B> = Entry(payload: Payload<K, B>, hash: string)

  /** Record `k` has the greatest `ts` of partition `key`: what `sort({ ts: -1 }).limit(1)` finds. */
  predicate IsLatest<K(==), B>(events: seq<Entry<K, B>>, key: K, k: int)
  {
    && 0 <= k < |events|
    && events[k].payload.key == key
    && forall j :: 0 <= j < |events| && events[j].payload.key == key ==> events[j].payload.ts <= events[k].payload.ts
  }

  /** Record `k` is the last record of partition `key` in insertion order. */
  predicate IsLastOf<K(==), B>(events: seq<Entry<K, B>>, key: K, k: int)
  {
    && 0 <= k < |events|
    && events[k].payload.key == key
    && forall j :: k < j < |events| ==> events[j].payload.key != key
  }

  /** No record belongs to partition `key`. */
  predicate Empty<K(==), B>(events: seq<Entry<K, B>>, key: K)
  {
    forall j :: 0 <= j < |events| ==> events[j].payload.key != key
  }

  /** The latest-record query of an append. Among records with equal `ts` it settles on the last one inserted. */
  method FindLatest<K(==), B>(events: seq<Entry<K, B>>, key: K) returns (latest: Option<nat>)
    ensures latest.None? <==> Empty(events, key)
    ensures latest.Some? ==> IsLatest(events, key, latest.value)
  {
    latest := None;
    for i := 0 to |events|
      invariant latest.None? <==> Empty(events[..i], key)
      invariant latest.Some? ==> latest.value < i && IsLatest(events[..i], key, latest.value)
    {
      if events[i].payload.key == key && (latest.None? || events[latest.value].payload.ts <= events[i].payload.ts) {
        latest := Some(i);
      }
    }
    assert events[..|events|] == events;
  }

  /** The hash of the last record of partition `key`, or "" when the partition is empty. */
  function LastHash<K(==), B>(events: seq<Entry<K, B>>, key: K): string
  {
    if events == [] then ""
    else if events[|events| - 1].payload.key == key then events[|events| - 1].hash
    else LastHash(events[..|events| - 1], key)
  }

  /** `LastHash` is "" on an empty partition and otherwise the hash of the partition's last record. */
  lemma {:induction false} LastHashOfLast<K, B>(events: seq<Entry<K, B>>, key: K)
    ensures Empty(events, key) ==> LastHash(events, key) == ""
    ensures forall k :: IsLastOf(events, key, k) ==> LastHash(events, key) == events[k].hash
  {
    if events != [] {
      var n := |events| - 1;
      var init := events[..n];
      LastHashOfLast(init, key);
      if events[n].payload.key != key {
        assert Empty(events, key) ==> Empty(init, key);
        forall k | IsLastOf(events, key, k) ensures LastHash(events, key) == events[k].hash {
          assert k < n && IsLastOf(init, key, k);
        }
      }
    }
  }

  /** Record times strictly increase in insertion order. */
  predicate TsIncreasing<K, B>(events: seq<Entry<K, B>>)
  {
    forall i, j :: 0 <= i < j < |events| ==> events[i].payload.ts < events[j].payload.ts
  }

  /** `ts` is later than every stored record's time. */
  predicate AllBefore<K, B>(events: seq<Entry<K, B>>, ts: int)
  {
    forall j :: 0 <= j < |events| ==> events[j].payload.ts < ts
  }

  /** When times increase, the latest record of a partition is its last one. */
  lemma LatestIsLast<K, B>(events: seq<Entry<K, B>>, key: K, k: int)
    requires TsIncreasing(events) && IsLatest(events, key, k)
    ensures IsLastOf(events, key, k)
  {
  }

  /** Every record's prevHash is the hash of the record before it in its partition, or "". */
  predicate Linked<K(==), B>(events: seq<Entry<K, B>>)
  {
    forall i :: 0 <= i < |events| ==> events[i].payload.prevHash == LastHash(events[..i], events[i].payload.key)
  }

  /** Every record's hash is the digest of its payload. */
  predicate Hashed<K, B>(events: seq<Entry<K, B>>, digest: Payload<K, B> -> string)
  {
    forall i :: 0 <= i < |events| ==> events[i].hash == digest(events[i].payload)
  }

  /** The chain invariant of a collection. */
  predicate Chained<K(==), B>(events: seq<Entry<K, B>>, digest: Payload<K, B> -> string)
  {
    TsIncreasing(events) && Linked(events) && Hashed(events, digest)
  }

  /** The reference append: one record whose prevHash is the partition's last hash. */
  function Appended<K(==), B>(events: seq<Entry<K, B>>, key: K, ts: int, nonce: string, body: B,
                              digest: Payload<K, B> -> string): seq<Entry<K, B>>
  {
    var p := Payload(key, ts, nonce, body, LastHash(events, key));
    events + [Entry(p, digest(p))]
  }

  /** Appending with a later time keeps the chain invariant. */
  lemma AppendedKeepsChain<K, B>(events: seq<Entry<K, B>>, key: K, ts: int, nonce: string, body: B,
                                 digest: Payload<K, B> -> string)
    requires Chained(events, digest) && AllBefore(events, ts)
    ensures Chained(Appended(events, key, ts, nonce, body, digest), digest)
  {
    var r := Appended(events, key, ts, nonce, body, digest);
    forall i | 0 <= i < |r| ensures r[i].payload.prevHash == LastHash(r[..i], r[i].payload.key) {
      if i < |events| {
        assert r[..i] == events[..i];
      } else {
        assert r[..i] == events;
      }
    }
  }

  /** An append never changes another partition's head: other partitions never feed its prevHash. */
  lemma AppendLeavesOtherPartitions<K, B>(events: seq<Entry<K, B>>, key: K, ts: int, nonce: string, body: B,
                                          digest: Payload<K, B> -> string, other: K)
    requires other != key
    ensures LastHash(Appended(events, key, ts, nonce, body, digest), other) == LastHash(events, other)
  {
    var r := Appended(events, key, ts, nonce, body, digest);
    assert r[..|r| - 1] == events;
  }

  /**
   * In a chained collection, taken in time order, each record's prevHash is the hash of the
   * previous record of its partition, and the first record of a partition has prevHash "".
   */
  lemma ChainedLinksPredecessor<K, B>(events: seq<Entry<K, B>>, digest: Payload<K, B> -> string, i: int, j: int)
    requires Chained(events, digest)
    requires 0 <= i < j < |events| && events[i].payload.key == events[j].payload.key
    requires forall k :: i < k < j ==> events[k].payload.key != events[j].payload.key
    ensures events[i].payload.ts < events[j].payload.ts
    ensures events[j].payload.prevHash == events[i].hash
  {
    LastHashOfLast(events[..j], events[j].payload.key);
    assert IsLastOf(events[..j], events[j].payload.key, i);
  }

  lemma ChainedFirstHasEmptyPrev<K, B>(events: seq<Entry<K, B>>, digest: Payload<K, B> -> string, j: int)
    requires Chained(events, digest)
    requires 0 <= j < |events| && forall k :: 0 <= k < j ==> events[k].payload.key != events[j].payload.key
    ensures events[j].payload.prevHash == ""
  {
    LastHashOfLast(events[..j], events[j].payload.key);
  }

  /**
   * What one append did to a collection: `after` is `before` plus one record of partition `key`
   * with the given time, suffix and body; its prevHash is the hash of a latest record of the
   * partition before the append, or "" if there was none; its hash is the digest of its payload.
   */
  ghost predicate AppendedOne<K, B>(before: seq<Entry<K, B>>, after: seq<Entry<K, B>>, key: K, ts: int,
                                  nonce: string, body: B, digest: Payload<K, B> -> string)
  {
    && |after| == |before| + 1
    && after[..|before|] == before
    && var e := after[|before|];
    && e.payload.key == key && e.payload.ts == ts && e.payload.nonce == nonce && e.payload.body == body
    && e.hash == digest(e.payload)
    && ((Empty(before, key) && e.payload.prevHash == "")
        || exists k :: IsLatest(before, key, k) && e.payload.prevHash == before[k].hash)
  }

  /** A collection of hash-chained records (`audit_events` or `evidence_chain`). */
  class Chain<K(==), B> {
    var events: seq<Entry<K, B>>
    /** `sha256Hex(JSON.stringify(payload))` */
    const digest: Payload<K, B> -> string

    constructor (digest: Payload<K, B> -> string)
      ensures this.digest == digest && events == []
    {
      this.digest := digest;
      events := [];
    }

    /** Look up the partition's latest record, link to it, hash, insert one record, return its hash. */
    method Append(key: K, ts: int, nonce: string, body: B) returns (hash: string)
      modifies this`events
      ensures AppendedOne(old(events), events, key, ts, nonce, body, digest)
      ensures hash == events[|events| - 1].hash
      ensures TsIncreasing(old(events)) && AllBefore(old(events), ts)
              ==> events == Appended(old(events), key, ts, nonce, body, digest)
      ensures Chained(old(events), digest) && AllBefore(old(events), ts) ==> Chained(events, digest)
    {
      ghost var before := events;
      var latest := FindLatest(events, key);
      var prevHash := if latest.Some? then events[latest.value].hash else "";
      var p := Payload(key, ts, nonce, body, prevHash);
      hash := digest(p);
      events := events + [Entry(p, hash)];
      if TsIncreasing(before) && AllBefore(before, ts) {
        LastHashOfLast(before, key);
        if latest.Some? {
          LatestIsLast(before, key, latest.value);
        }
        assert events == Appended(before, key, ts, nonce, body, digest);
        if Chained(before, digest) {
          AppendedKeepsChain(before, key, ts, nonce, body, digest);
        }
      }
    }
  }
}
