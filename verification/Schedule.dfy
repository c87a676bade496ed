/** When the recurring media clean first runs (internal/cleaner/cleaner.go, ScheduleJobs). */
module Schedule {

  /** The first time of the form start + k * period, k >= 0, that is not before now. */
  method FirstCleanup(start: int, now: int, period: int) returns (at: int, ghost k: nat)
    requires period > 0
    ensures at == start + k * period && at >= now
    ensures forall j: nat :: start + j * period >= now ==> at <= start + j * period
  {
    at, k := start, 0;
    while at < now
      invariant at == start + k * period
      invariant forall j: nat :: j < k ==> start + j * period < now
      decreases now - at
    {
      at, k := at + period, k + 1;
    }
    forall j: nat | start + j * period >= now
      ensures at <= start + j * period
    {
      Monotone(k, j, period);
    }
  }

  lemma Monotone(k: nat, j: nat, period: int)
    requires period > 0
    ensures k <= j ==> k * period <= j * period
  {
    if k <= j {
      assert (j - k) * period >= 0;
    }
  }
}
