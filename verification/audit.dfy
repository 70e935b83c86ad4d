/**
 * `auditAppend` and `evidenceChainAppend` (src/lib/audit.ts): normalise the event's optional
 * fields to null, then append it to its hash chain. The audit log is partitioned by community,
 * the evidence custody chain by (community, evidence item).
 */
module Audit {
  import opened Wrappers
  import Json
  import opened HashChain

  /** The argument of `auditAppend`; optional fields are None when absent. */
  datatype AuditInput = AuditInput(
    communityId: string, actorUserId: Option<string>, actorRole: Option<string>,
    action: string, entity: string, entityId: Option<string>,
    before: Option<Json.Value>, after: Option<Json.Value>, meta: Option<Json.Value>)

  /** The stored fields of an audit event besides `_id`, `ts`, `communityId`, `prevHash` and `hash`. */
  datatype AuditBody = AuditBody(
    actorUserId: Option<string>, actorRole: Option<string>, action: string, entity: string,
    entityId: Option<string>, before: Json.Value, after: Json.Value, meta: Json.Value)

  /** The partition of an evidence custody event. */
  datatype EvidenceKey = EvidenceKey(communityId: string, evidenceId: string)

  /** The argument of `evidenceChainAppend`. */
  datatype EvidenceInput = EvidenceInput(
    communityId: string, evidenceId: string, actorUserId: Option<string>, action: string,
    from: Option<Json.Value>, to: Option<Json.Value>, note: Option<string>)

  /** The stored fields of a custody event besides `_id`, `ts`, the key, `prevHash` and `hash`. */
  datatype EvidenceBody = EvidenceBody(
    actorUserId: Option<string>, action: string, from: Json.Value, to: Json.Value, note: Option<string>)

  type AuditLog = Chain<string, AuditBody>
  type EvidenceChain = Chain<EvidenceKey, EvidenceBody>

  /** The payload fields of an audit event: absent or falsy optional fields are stored as null. */
  function NormalizeAudit(evt: AuditInput): (b: AuditBody)
    ensures b.action == evt.action && b.entity == evt.entity
    ensures b.actorUserId.None? <==> evt.actorUserId.None? || evt.actorUserId.value == ""
    ensures b.actorRole.None? <==> evt.actorRole.None? || evt.actorRole.value == ""
    ensures b.entityId.None? <==> evt.entityId.None? || evt.entityId.value == ""
    ensures b.actorUserId.Some? ==> b.actorUserId == evt.actorUserId
    ensures b.actorRole.Some? ==> b.actorRole == evt.actorRole
    ensures b.entityId.Some? ==> b.entityId == evt.entityId
    ensures b.before == Json.Null <==> evt.before.None? || Json.Falsy(evt.before.value)
    ensures evt.before.Some? && !Json.Falsy(evt.before.value) ==> b.before == evt.before.value
    ensures b.after == Json.Null <==> evt.after.None? || Json.Falsy(evt.after.value)
    ensures evt.after.Some? && !Json.Falsy(evt.after.value) ==> b.after == evt.after.value
    ensures b.meta == Json.Null <==> evt.meta.None? || Json.Falsy(evt.meta.value)
    ensures evt.meta.Some? && !Json.Falsy(evt.meta.value) ==> b.meta == evt.meta.value
  {
    AuditBody(
      Json.StringOrNull(evt.actorUserId), Json.StringOrNull(evt.actorRole), evt.action, evt.entity,
      Json.StringOrNull(evt.entityId), Json.OrNull(evt.before), Json.OrNull(evt.after), Json.OrNull(evt.meta))
  }

  /** The payload fields of a custody event: absent or falsy optional fields are stored as null. */
  function NormalizeEvidence(evt: EvidenceInput): (b: EvidenceBody)
    ensures b.action == evt.action
    ensures b.actorUserId.None? <==> evt.actorUserId.None? || evt.actorUserId.value == ""
    ensures b.note.None? <==> evt.note.None? || evt.note.value == ""
    ensures b.actorUserId.Some? ==> b.actorUserId == evt.actorUserId
    ensures b.note.Some? ==> b.note == evt.note
    ensures b.from == Json.Null <==> evt.from.None? || Json.Falsy(evt.from.value)
    ensures evt.from.Some? && !Json.Falsy(evt.from.value) ==> b.from == evt.from.value
    ensures b.to == Json.Null <==> evt.to.None? || Json.Falsy(evt.to.value)
    ensures evt.to.Some? && !Json.Falsy(evt.to.value) ==> b.to == evt.to.value
  {
    EvidenceBody(
      Json.StringOrNull(evt.actorUserId), evt.action, Json.OrNull(evt.from), Json.OrNull(evt.to),
      Json.StringOrNull(evt.note))
  }

  /**
   * `auditAppend(evt)` at time `now`; `nonce` is the random suffix of the new `_id`.
   * Exactly one event is added, in the event's community partition, and its hash is returned.
   */
  method AuditAppend(log: AuditLog, evt: AuditInput, now: int, nonce: string) returns (hash: string)
    modifies log`events
    ensures AppendedOne(old(log.events), log.events, evt.communityId, now, nonce, NormalizeAudit(evt), log.digest)
    ensures hash == log.events[|log.events| - 1].hash
    ensures Chained(old(log.events), log.digest) && AllBefore(old(log.events), now) ==> Chained(log.events, log.digest)
  {
    hash := log.Append(evt.communityId, now, nonce, NormalizeAudit(evt));
  }

  /**
   * `evidenceChainAppend(evt)` at time `now`: one custody event is added, linked only within the
   * (community, evidence item) partition, and its hash is returned.
   */
  method EvidenceChainAppend(chain: EvidenceChain, evt: EvidenceInput, now: int, nonce: string) returns (hash: string)
    modifies chain`events
    ensures AppendedOne(old(chain.events), chain.events, EvidenceKey(evt.communityId, evt.evidenceId), now, nonce,
                        NormalizeEvidence(evt), chain.digest)
    ensures hash == chain.events[|chain.events| - 1].hash
    ensures Chained(old(chain.events), chain.digest) && AllBefore(old(chain.events), now)
            ==> Chained(chain.events, chain.digest)
  {
    hash := chain.Append(EvidenceKey(evt.communityId, evt.evidenceId), now, nonce, NormalizeEvidence(evt));
  }
}
