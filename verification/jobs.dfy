/** The housekeeping sweep the job runner performs every two minutes (src/jobs/runner.ts). */
module Jobs {
  import opened Wrappers
  import opened Store
  import Log

  const AttemptRetentionMs: int := 14 * 24 * 3600 * 1000

  /** `deleteMany({ expiresAt: { $lt: now } })` keeps the sessions that have not expired. */
  predicate SessionKept(s: Session, now: int)
  {
    s.expiresAt >= now
  }

  /** `deleteMany({ ts: { $lt: now - 14 days } })` keeps the attempts of the last 14 days. */
  predicate AttemptKept(a: AuthAttempt, now: int)
  {
    a.ts >= now - AttemptRetentionMs
  }

  /** `{ scheduledFor: { $lte: now }, sentAt: null }`: a missing `scheduledFor` never matches. */
  predicate Due(n: Notification, now: int)
  {
    n.scheduledFor.Some? && n.scheduledFor.value <= now && n.sentAt.None?
  }

  /** `updateMany(due, { $set: { sentAt: now } })` */
  function MarkSent(ns: seq<Notification>, now: int): (r: seq<Notification>)
    ensures |r| == |ns|
    ensures forall i :: 0 <= i < |ns| && Due(ns[i], now) ==> r[i] == ns[i].(sentAt := Some(now))
    ensures forall i :: 0 <= i < |ns| && !Due(ns[i], now) ==> r[i] == ns[i]
    ensures forall i :: 0 <= i < |r| ==> !Due(r[i], now)
  {
    seq(|ns|, i requires 0 <= i < |ns| => if Due(ns[i], now) then ns[i].(sentAt := Some(now)) else ns[i])
  }

  /** Marking is idempotent: a second pass at the same time finds nothing due. */
  lemma MarkSentIdempotent(ns: seq<Notification>, now: int)
    ensures MarkSent(MarkSent(ns, now), now) == MarkSent(ns, now)
  {
  }

  /** The sweep `run` at time `now`. */
  method Run(db: Db, metrics: Log.Metrics, now: int)
    modifies db`sessions, db`authAttempts, db`notifications, metrics
    ensures Log.Bumped(metrics, "jobs_tick")
    ensures db.sessions == Filter(old(db.sessions), (s: Session) => SessionKept(s, now))
    ensures db.authAttempts == Filter(old(db.authAttempts), (a: AuthAttempt) => AttemptKept(a, now))
    ensures db.notifications == MarkSent(old(db.notifications), now)
  {
    metrics.MetricInc(now, "jobs_tick");
    db.sessions := Filter(db.sessions, (s: Session) => SessionKept(s, now));
    db.authAttempts := Filter(db.authAttempts, (a: AuthAttempt) => AttemptKept(a, now));
    db.notifications := MarkSent(db.notifications, now);
  }

  /**
   * After a sweep no expired session and no attempt older than 14 days is left, and every
   * session and attempt that was not due for deletion is still there.
   */
  lemma SweepRemovesExactlyTheStale(sessions: seq<Session>, attempts: seq<AuthAttempt>, now: int)
    ensures forall s :: s in Filter(sessions, (s: Session) => SessionKept(s, now)) <==> s in sessions && s.expiresAt >= now
    ensures forall a :: a in Filter(attempts, (a: AuthAttempt) => AttemptKept(a, now)) <==> a in attempts && a.ts >= now - AttemptRetentionMs
  {
    forall s | s in sessions && s.expiresAt >= now
      ensures s in Filter(sessions, (s: Session) => SessionKept(s, now))
    {
      var i :| 0 <= i < |sessions| && sessions[i] == s;
    }
    forall a | a in attempts && a.ts >= now - AttemptRetentionMs
      ensures a in Filter(attempts, (a: AuthAttempt) => AttemptKept(a, now))
    {
      var i :| 0 <= i < |attempts| && attempts[i] == a;
    }
  }

  /** Running the sweep twice at the same time leaves what running it once leaves. */
  lemma SweepIdempotent(sessions: seq<Session>, attempts: seq<AuthAttempt>, ns: seq<Notification>, now: int)
    ensures var s1 := Filter(sessions, (s: Session) => SessionKept(s, now));
            Filter(s1, (s: Session) => SessionKept(s, now)) == s1
    ensures var a1 := Filter(attempts, (a: AuthAttempt) => AttemptKept(a, now));
            Filter(a1, (a: AuthAttempt) => AttemptKept(a, now)) == a1
    ensures MarkSent(MarkSent(ns, now), now) == MarkSent(ns, now)
  {
    FilterIdempotent(sessions, (s: Session) => SessionKept(s, now));
    FilterIdempotent(attempts, (a: AuthAttempt) => AttemptKept(a, now));
    MarkSentIdempotent(ns, now);
  }
}
