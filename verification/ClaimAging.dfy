/** What the claim order does for waiting jobs. */
module ClaimAging {
  import opened Basics
  import opened Jobs

  const HOUR := 3_600_000_000_000

  /** Every hour of waiting earns one priority, up to five. */
  lemma BoostIsCapped(job: Job, now: Instant)
    ensures job.priority as real <= EffectivePriority(job.priority, job.notBefore, now) <= job.priority as real + 5.0
    ensures now - job.notBefore >= 5 * HOUR ==>
            EffectivePriority(job.priority, job.notBefore, now) == job.priority as real + 5.0
    ensures 0 <= now - job.notBefore <= 5 * HOUR ==>
            EffectivePriority(job.priority, job.notBefore, now)
            == job.priority as real + (now - job.notBefore) as real / HOUR as real
    ensures now <= job.notBefore ==> EffectivePriority(job.priority, job.notBefore, now) == job.priority as real
  {
  }

  lemma WaitingLongerRanksHigher(priority: int, early: Instant, late: Instant, now: Instant)
    requires early <= late
    ensures EffectivePriority(priority, early, now) >= EffectivePriority(priority, late, now)
  {
  }

  /** First in, first out inside a priority. */
  lemma FifoWithinPriority(a: Job, b: Job, now: Instant)
    requires a.priority == b.priority && a.notBefore <= b.notBefore && a.createdAt < b.createdAt
    ensures ClaimBefore(a, b, now)
  {
    WaitingLongerRanksHigher(a.priority, a.notBefore, b.notBefore, now);
  }

  /** From `since` on, the job goes before every younger job of this priority that has
      just become runnable. */
  ghost predicate StaysAhead(a: Job, priority: int, since: Instant) {
    forall b: Job, now: Instant | now >= since && b.priority == priority && b.notBefore == now
        && b.createdAt > a.createdAt :: ClaimBefore(a, b, now)
  }

  /** Aging protects a waiting job from fresh work of at most five priorities more, and
      from no other: above that a steady stream of fresh jobs keeps going first, however
      long the job has waited. */
  lemma AgingProtectsUpToFive(a: Job, priority: int)
    ensures (exists since :: StaysAhead(a, priority, since)) <==> priority <= a.priority + 5
  {
    if priority <= a.priority + 5 {
      var since := a.notBefore + 5 * HOUR;
      forall b: Job, now: Instant | now >= since && b.priority == priority && b.notBefore == now
          && b.createdAt > a.createdAt
        ensures ClaimBefore(a, b, now)
      {
        BoostIsCapped(a, now);
        BoostIsCapped(b, now);
      }
      assert StaysAhead(a, priority, since);
    } else {
      forall since ensures !StaysAhead(a, priority, since) {
        var b := a.(priority := priority, notBefore := since, createdAt := a.createdAt + 1);
        BoostIsCapped(a, since);
        BoostIsCapped(b, since);
        assert !ClaimBefore(a, b, since);
      }
    }
  }
}
