/**
 A rolling rate meter: a ring of sixteen half-second buckets against the full log
 of everything ever added.
 */
module RateMeters {
  import opened Wrappers

  const BUCKETS: nat := 16
  const BUCKET_MS: nat := 500

  // One sample, with the bucket the head was on when it was added.
  datatype Sample = Sample(bucket: nat, amount: nat)

  // What was logged under one absolute bucket, and how often.
  function Logged(log: seq<Sample>, bucket: int): (nat, nat) {
    if log == [] then (0, 0)
    else
      var (amount, count) := Logged(log[..|log| - 1], bucket);
      var last := log[|log| - 1];
      if last.bucket == bucket then (amount + last.amount, count + 1) else (amount, count)
  }

  // What was logged over the meter's whole life.
  function Lifetime(log: seq<Sample>): nat {
    if log == [] then 0 else Lifetime(log[..|log| - 1]) + log[|log| - 1].amount
  }

  // What was logged in the last sixteen buckets up to `head`.
  function Recent(log: seq<Sample>, head: nat): (nat, nat) {
    if log == [] then (0, 0)
    else
      var (amount, count) := Recent(log[..|log| - 1], head);
      var last := log[|log| - 1];
      if last.bucket + BUCKETS > head then (amount + last.amount, count + 1) else (amount, count)
  }

  // The one bucket in the window that `slot` stands for.
  function LiveBucket(head: nat, slot: nat): int {
    head - (head - slot) % 16
  }

  ghost predicate UpTo(log: seq<Sample>, head: nat) {
    forall i | 0 <= i < |log| :: log[i].bucket <= head
  }

  lemma Residue(n: int, q: int, r: int)
    requires n == 16 * q + r && 0 <= r < 16
    ensures n % 16 == r
  {}

  lemma SameResidue(a: int, b: int)
    requires a % 16 == b % 16 && -16 < a - b < 16
    ensures a == b
  {
    assert a - b == 16 * (a / 16 - b / 16);
  }

  // Each slot stands for one bucket of the window, the one it is the residue
  // of.
  lemma LiveBucketIsInWindow(head: nat, slot: nat)
    requires slot < BUCKETS
    ensures head - 16 < LiveBucket(head, slot) <= head
    ensures LiveBucket(head, slot) % 16 == slot
  {
    Residue(LiveBucket(head, slot), (head - slot) / 16, slot);
  }

  // Rolling the head on by one hands exactly one slot to the new bucket.
  lemma HeadRolls(head: nat, slot: nat)
    requires slot < BUCKETS
    ensures LiveBucket(head + 1, slot) == if slot == (head + 1) % 16 then head + 1 else LiveBucket(head, slot)
  {
    LiveBucketIsInWindow(head, slot);
    LiveBucketIsInWindow(head + 1, slot);
    if slot == (head + 1) % 16 {
      SameResidue(LiveBucket(head + 1, slot), head + 1);
    } else {
      SameResidue(LiveBucket(head + 1, slot), LiveBucket(head, slot));
    }
  }

  lemma {:induction false} NothingLoggedAhead(log: seq<Sample>, head: nat, bucket: int)
    requires UpTo(log, head) && (head < bucket || bucket < 0)
    ensures Logged(log, bucket) == (0, 0)
  {
    if log != [] {
      NothingLoggedAhead(log[..|log| - 1], head, bucket);
    }
  }

  // The sums of the first `n` slots, each holding its live bucket.
  function SlotSums(log: seq<Sample>, head: nat, n: nat): (nat, nat) {
    if n == 0 then (0, 0)
    else
      var (amount, count) := SlotSums(log, head, n - 1);
      var (a, c) := Logged(log, LiveBucket(head, n - 1));
      (amount + a, count + c)
  }

  lemma LiveInOneSlot(bucket: nat, head: nat, slot: nat)
    requires bucket <= head && slot < BUCKETS
    ensures bucket == LiveBucket(head, slot) <==> bucket + BUCKETS > head && bucket % 16 == slot
  {
    LiveBucketIsInWindow(head, slot);
    if bucket + BUCKETS > head && bucket % 16 == slot {
      SameResidue(bucket, LiveBucket(head, slot));
    }
  }

  // One slot's two counters are its live bucket's.
  ghost predicate SlotHolds(log: seq<Sample>, head: nat, slot: nat, amount: nat, count: nat) {
    (amount, count) == Logged(log, LiveBucket(head, slot))
  }

  lemma AddKeepsSlot(log: seq<Sample>, head: nat, slot: nat, amount: nat, count: nat, added: nat)
    requires slot < BUCKETS && SlotHolds(log, head, slot, amount, count)
    ensures if slot == head % 16 then SlotHolds(log + [Sample(head, added)], head, slot, amount + added, count + 1)
            else SlotHolds(log + [Sample(head, added)], head, slot, amount, count)
  {
    LiveInOneSlot(head, head, slot);
    LoggedGrows(log, Sample(head, added), LiveBucket(head, slot));
  }

  lemma RollKeepsSlot(log: seq<Sample>, last: nat, head: nat, slot: nat, amount: nat, count: nat)
    requires slot < BUCKETS && UpTo(log, last) && last <= head && SlotHolds(log, head, slot, amount, count)
    ensures if slot == (head + 1) % 16 then SlotHolds(log, head + 1, slot, 0, 0)
            else SlotHolds(log, head + 1, slot, amount, count)
  {
    HeadRolls(head, slot);
    NothingLoggedAhead(log, last, head + 1);
  }

  lemma RolledPast(log: seq<Sample>, last: nat, head: nat, slot: nat)
    requires slot < BUCKETS && UpTo(log, last) && last + BUCKETS <= head
    ensures Logged(log, LiveBucket(head, slot)) == (0, 0)
  {
    LiveBucketIsInWindow(head, slot);
    NothingLoggedAhead(log, last, LiveBucket(head, slot));
  }

  lemma LoggedGrows(log: seq<Sample>, last: Sample, bucket: int)
    ensures var (amount, count) := Logged(log, bucket);
            Logged(log + [last], bucket) == if last.bucket == bucket then (amount + last.amount, count + 1) else (amount, count)
  {
    assert (log + [last])[..|log|] == log;
  }

  // One more sample reaches one slot, if its bucket is still live.
  lemma {:induction false} SampleReachesOneSlot(log: seq<Sample>, last: Sample, head: nat, n: nat)
    requires n <= BUCKETS && last.bucket <= head
    ensures var (amount, count) := SlotSums(log, head, n);
            SlotSums(log + [last], head, n) ==
            if last.bucket + BUCKETS > head && last.bucket % 16 < n then (amount + last.amount, count + 1) else (amount, count)
  {
    if n != 0 {
      SampleReachesOneSlot(log, last, head, n - 1);
      LiveInOneSlot(last.bucket, head, n - 1);
      LoggedGrows(log, last, LiveBucket(head, n - 1));
    }
  }

  // The ring forgets nothing recent and remembers nothing old: its slots sum
  // to exactly what was logged in the last sixteen buckets.
  lemma {:induction false} SlotsSumToRecent(log: seq<Sample>, head: nat)
    requires UpTo(log, head)
    ensures SlotSums(log, head, BUCKETS) == Recent(log, head)
  {
    if log == [] {
      EmptySlots(head, BUCKETS);
    } else {
      var front, last := log[..|log| - 1], log[|log| - 1];
      SlotsSumToRecent(front, head);
      SampleReachesOneSlot(front, last, head, BUCKETS);
      assert log == front + [last];
    }
  }

  lemma {:induction false} EmptySlots(head: nat, n: nat)
    ensures SlotSums([], head, n) == (0, 0)
  {
    if n != 0 {
      EmptySlots(head, n - 1);
    }
  }

  // Sixteen buckets of silence read as nothing.
  lemma {:induction false} SilenceIsZero(log: seq<Sample>, last: nat, head: nat)
    requires UpTo(log, last) && last + BUCKETS <= head
    ensures Recent(log, head) == (0, 0)
  {
    if log != [] {
      SilenceIsZero(log[..|log| - 1], last, head);
    }
  }

  function WindowSpanMs(head: nat, elapsedMs: nat): nat {
    var oldestStart := (if head + 1 < BUCKETS then 0 else head + 1 - BUCKETS) * BUCKET_MS;
    if elapsedMs < oldestStart then 0 else elapsedMs - oldestStart
  }

  // The time since the oldest bucket of the window began: all of it while the
  // first sixteen fill, then fifteen whole buckets and the filled part of the
  // newest, less for a clock that has gone back.
  lemma WindowSpanIsTheTimeCovered(head: nat, elapsedMs: nat)
    ensures head < BUCKETS ==> WindowSpanMs(head, elapsedMs) == elapsedMs
    ensures BUCKETS <= head + 1 && elapsedMs / BUCKET_MS == head ==>
              WindowSpanMs(head, elapsedMs) == 7500 + elapsedMs % BUCKET_MS
    ensures BUCKETS <= head + 1 && elapsedMs <= (head + 1) * BUCKET_MS ==>
              WindowSpanMs(head, elapsedMs) == if elapsedMs + 8000 <= (head + 1) * BUCKET_MS then 0
              else 8000 - ((head + 1) * BUCKET_MS - elapsedMs)
  {}

  class RateMeter {
    var total: nat
    var samples: nat
    var elapsedMs: nat
    const bucketTotal: array<nat>
    const bucketSamples: array<nat>
    var head: nat
    var startedMs: Option<nat>
    ghost var log: seq<Sample>

    ghost predicate Valid()
      reads this, bucketTotal, bucketSamples
    {
      && bucketTotal.Length == bucketSamples.Length == BUCKETS
      && bucketTotal != bucketSamples
      && UpTo(log, head)
      && samples == |log| && total == Lifetime(log)
      && elapsedMs / BUCKET_MS <= head
      && HoldsLive(head)
    }

    // Each slot holds its own live bucket and no other.
    ghost predicate HoldsLive(at: nat)
      requires bucketTotal.Length == bucketSamples.Length == BUCKETS
      reads this, bucketTotal, bucketSamples
    {
      forall s | 0 <= s < BUCKETS :: SlotHolds(log, at, s, bucketTotal[s], bucketSamples[s])
    }

    constructor ()
      ensures Valid() && fresh(bucketTotal) && fresh(bucketSamples)
      ensures log == [] && head == 0 && total == 0 && elapsedMs == 0 && startedMs == None
    {
      total, samples, elapsedMs, head, startedMs, log := 0, 0, 0, 0, None, [];
      bucketTotal := new nat[16](_ => 0);
      bucketSamples := new nat[16](_ => 0);
    }

    method Add(amount: nat)
      requires Valid()
      modifies this`total, this`samples, this`log, bucketTotal, bucketSamples
      ensures Valid() && log == old(log) + [Sample(head, amount)] && total == old(total) + amount
    {
      ghost var before := log;
      total := total + amount;
      samples := samples + 1;
      var slot := head % BUCKETS;
      bucketTotal[slot] := bucketTotal[slot] + amount;
      bucketSamples[slot] := bucketSamples[slot] + 1;
      log := log + [Sample(head, amount)];
      assert log[..|log| - 1] == before;
      forall s | 0 <= s < BUCKETS
        ensures SlotHolds(log, head, s, bucketTotal[s], bucketSamples[s])
      {
        AddKeepsSlot(before, head, s, old(bucketTotal[s]), old(bucketSamples[s]), amount);
      }
    }

    // Moves the head to the clock's bucket; every slot it takes over starts empty.
    method Elapsed(now: nat)
      requires Valid() && (startedMs.Some? ==> startedMs.value <= now)
      modifies this`elapsedMs, this`head, this`startedMs, bucketTotal, bucketSamples
      ensures Valid() && elapsedMs == now
      ensures head == if now / BUCKET_MS < old(head) then old(head) else now / BUCKET_MS
      ensures startedMs == if old(startedMs).Some? then old(startedMs) else Some(now)
    {
      if startedMs.None? {
        startedMs := Some(now);
      }
      var want := now / BUCKET_MS;
      if want > head {
        var advance := if want - head < BUCKETS then want - head else BUCKETS;
        for step := 0 to advance
          modifies bucketTotal, bucketSamples
          invariant HoldsLive(head + step)
        {
          HandOver(head + step);
        }
        forall s | 0 <= s < BUCKETS
          ensures SlotHolds(log, want, s, bucketTotal[s], bucketSamples[s])
        {
          if advance == BUCKETS {
            RolledPast(log, head, want, s);
            RolledPast(log, head, head + advance, s);
          }
        }
        head := want;
      }
      elapsedMs := now;
    }

    // Empties the slot the bucket after `at` takes over.
    method HandOver(at: nat)
      requires bucketTotal.Length == bucketSamples.Length == BUCKETS && bucketTotal != bucketSamples
      requires UpTo(log, head) && head <= at && HoldsLive(at)
      modifies bucketTotal, bucketSamples
      ensures HoldsLive(at + 1)
    {
      var slot := (at + 1) % BUCKETS;
      forall s | 0 <= s < BUCKETS
        ensures if s == slot then SlotHolds(log, at + 1, s, 0, 0)
                else SlotHolds(log, at + 1, s, bucketTotal[s], bucketSamples[s])
      {
        RollKeepsSlot(log, head, at, s, bucketTotal[s], bucketSamples[s]);
      }
      bucketTotal[slot] := 0;
      bucketSamples[slot] := 0;
    }

    // The sums over the ring are exactly the recent log.
    method RecentSums() returns (amount: nat, count: nat)
      requires Valid()
      ensures (amount, count) == Recent(log, head)
    {
      amount, count := 0, 0;
      for s := 0 to BUCKETS
        invariant (amount, count) == SlotSums(log, head, s)
      {
        amount := amount + bucketTotal[s];
        count := count + bucketSamples[s];
      }
      SlotsSumToRecent(log, head);
    }

    method PerSec() returns (rate: real)
      requires Valid()
      ensures var span := WindowSpanMs(head, elapsedMs);
              rate == if span == 0 then 0.0 else Recent(log, head).0 as real / (span as real / 1000.0)
    {
      var span := WindowSpanMs(head, elapsedMs);
      if span == 0 {
        return 0.0;
      }
      var recent, _ := RecentSums();
      rate := recent as real / (span as real / 1000.0);
    }

    method Mean() returns (mean: real)
      requires Valid()
      ensures var (amount, count) := Recent(log, head);
              mean == if count == 0 then 0.0 else amount as real / count as real
    {
      var recent, count := RecentSums();
      if count == 0 {
        return 0.0;
      }
      mean := recent as real / count as real;
    }

    method Reset()
      requires Valid()
      modifies this, bucketTotal, bucketSamples
      ensures Valid() && log == [] && head == 0 && total == 0 && elapsedMs == 0 && startedMs == None
    {
      total, samples, elapsedMs, head, startedMs, log := 0, 0, 0, 0, None, [];
      forall s | 0 <= s < BUCKETS { bucketTotal[s] := 0; }
      forall s | 0 <= s < BUCKETS { bucketSamples[s] := 0; }
    }
  }
}
