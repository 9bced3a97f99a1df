/**
 Fixed steps from uneven frames: every nanosecond fed in is accounted for, and how
 it was cut into frames does not matter.
 */
module Timesteps {
  import opened Wrappers

  const U64_MAX: nat := 0xFFFF_FFFF_FFFF_FFFF

  // Milliseconds to nanoseconds, saturating at 64 bits.
  function Nanos(ms: nat): nat {
    if ms * 1_000_000 < U64_MAX then ms * 1_000_000 else U64_MAX
  }

  // Exact up to the last whole millisecond 64 bits of nanoseconds hold.
  lemma NanosAreExactUpTo(ms: nat)
    ensures ms <= 18_446_744_073_709 <==> Nanos(ms) == ms * 1_000_000
    ensures 18_446_744_073_709 < ms ==> Nanos(ms) == U64_MAX
  {}

  // Steps and remainder after feeding these amounts one by one, no cap firing.
  function Spend(frames: seq<nat>, step: nat, acc: nat): (nat, nat)
    requires 0 < step
  {
    if frames == [] then (0, acc)
    else
      var (steps, rest) := Spend(frames[..|frames| - 1], step, acc);
      var owed := rest + frames[|frames| - 1];
      (steps + owed / step, owed % step)
  }

  function Sum(frames: seq<nat>): nat {
    if frames == [] then 0 else Sum(frames[..|frames| - 1]) + frames[|frames| - 1]
  }

  // Cutting the same time differently pays for the same steps and leaves the
  // same remainder as spending it in one go.
  lemma {:induction false} FramingDoesNotMatter(frames: seq<nat>, step: nat, acc: nat)
    requires 0 < step && acc < step
    ensures Spend(frames, step, acc) == ((acc + Sum(frames)) / step, (acc + Sum(frames)) % step)
  {
    if frames == [] {
      Quotient(acc, step, 0, acc);
    } else {
      var front, last := frames[..|frames| - 1], frames[|frames| - 1];
      FramingDoesNotMatter(front, step, acc);
      OneMoreFrame(acc + Sum(front), last, step);
    }
  }

  lemma OneMoreFrame(before: nat, last: nat, step: nat)
    requires 0 < step
    ensures (before + last) / step == before / step + (before % step + last) / step
    ensures (before + last) % step == (before % step + last) % step
  {
    var owed := before % step + last;
    Divides(before, step);
    Divides(owed, step);
    Distributes(before / step, owed / step, step);
    Quotient(before + last, step, before / step + owed / step, owed % step);
  }

  lemma Divides(n: nat, m: nat)
    requires 0 < m
    ensures n == n / m * m + n % m && n % m < m
  {}

  lemma Distributes(a: nat, b: nat, m: nat)
    ensures (a + b) * m == a * m + b * m
  {}

  // The quotient and remainder are the only ones there are.
  lemma Quotient(n: nat, m: nat, q: nat, r: nat)
    requires 0 < m && n == q * m + r && r < m
    ensures n / m == q && n % m == r
  {
    var (p, s) := (n / m, n % m);
    Divides(n, m);
    if p < q { Distributes(p, q - p, m); AtLeastOnce(q - p, m); }
    if q < p { Distributes(q, p - q, m); AtLeastOnce(p - q, m); }
  }

  lemma AtLeastOnce(d: nat, m: nat)
    requires 1 <= d
    ensures m <= d * m
  {}

  // The steps one advance paid for, each of the same duration.
  datatype Steps = Steps(remaining: nat, step: nat)

  // The steps this much accumulated time pays for, what it carries over and
  // what a step cap drops.
  function Charge(owed: nat, step: nat, maxSteps: Option<nat>): (nat, nat, nat)
    requires 0 < step
  {
    Divides(owed, step);
    var count := owed / step;
    if maxSteps.Some? && maxSteps.value < count then
      (maxSteps.value, 0, (count - maxSteps.value) * step + owed % step)
    else
      (count, owed % step, 0)
  }

  lemma ChargeConserves(owed: nat, step: nat, maxSteps: Option<nat>)
    requires 0 < step
    ensures var (count, rest, dropped) := Charge(owed, step, maxSteps);
            owed == count * step + rest + dropped && rest < step
  {}

  // The most whole steps the time covers and the cap allows. What is left is
  // carried, unless a whole step had to be refused: then all of it is dropped.
  lemma ChargeIsTheMost(owed: nat, step: nat, maxSteps: Option<nat>)
    requires 0 < step
    ensures var (count, rest, dropped) := Charge(owed, step, maxSteps);
            && count * step <= owed && (maxSteps.Some? ==> count <= maxSteps.value)
            && ((count + 1) * step <= owed ==> maxSteps == Some(count))
            && (dropped == 0 <==> owed < (count + 1) * step)
            && (dropped != 0 ==> rest == 0)
  {
    var (count, rest, dropped) := Charge(owed, step, maxSteps);
    ChargeConserves(owed, step, maxSteps);
    Distributes(count, 1, step);
    if dropped != 0 {
      Distributes(count, owed / step - count, step);
      AtLeastOnce(owed / step - count, step);
    }
  }

  lemma ChargeCases(owed: nat, step: nat, maxSteps: Option<nat>)
    requires 0 < step
    ensures Charge(owed, step, maxSteps).0 <= owed / step
    ensures maxSteps.Some? ==> Charge(owed, step, maxSteps).0 <= maxSteps.value
    ensures maxSteps.None? || owed / step <= maxSteps.value ==> Charge(owed, step, maxSteps) == (owed / step, owed % step, 0)
  {}

  // Casting a count to 32 bits splits the time it stands for.
  lemma CastAccounts(count: nat, step: nat)
    ensures var kept := count % 0x1_0000_0000;
            && kept <= count && 0 <= (count - kept) * step && kept * step + (count - kept) * step == count * step
            && (count < 0x1_0000_0000 ==> kept == count && (count - kept) * step == 0)
  {}

  lemma SpendOne(amount: nat, step: nat, acc: nat)
    requires 0 < step
    ensures Spend([amount], step, acc) == ((acc + amount) / step, (acc + amount) % step)
  {}

  // No cap firing, one advance spends its time like one frame of a run.
  lemma UncappedChargeSpends(amount: nat, step: nat, acc: nat, maxSteps: Option<nat>)
    requires 0 < step
    ensures var (whole, rest) := Spend([amount], step, acc);
            (maxSteps.Some? ==> whole <= maxSteps.value) ==> Charge(acc + amount, step, maxSteps) == (whole, rest, 0)
  {
    SpendOne(amount, step, acc);
  }

  class FixedTimestep {
    var stepNanos: nat
    var accumulatedNanos: nat
    var maxFrameNanos: nat
    var maxSteps: Option<nat>
    var droppedNanos: nat
    // All time fed in; all time handed out as steps; steps cut off by the cast
    // of the count to 32 bits; remainders discarded by a reset.
    ghost var fed: nat
    ghost var yielded: nat
    ghost var cut: nat
    ghost var discarded: nat

    // No nanosecond is lost or invented.
    ghost predicate Valid()
      reads this
    {
      && 0 < stepNanos
      && fed == yielded + accumulatedNanos + droppedNanos + cut + discarded
    }

    constructor (step: nat, maxFrame: nat, maxSteps: Option<nat>)
      requires 0 < step
      ensures Valid() && stepNanos == step && maxFrameNanos == maxFrame && this.maxSteps == maxSteps
      ensures fed == yielded == cut == discarded == 0 && accumulatedNanos == droppedNanos == 0
    {
      stepNanos, accumulatedNanos, maxFrameNanos, this.maxSteps, droppedNanos := step, 0, maxFrame, maxSteps, 0;
      fed, yielded, cut, discarded := 0, 0, 0, 0;
    }

    method Advance(elapsedMs: nat) returns (steps: Steps)
      requires Valid()
      modifies this`accumulatedNanos, this`droppedNanos, this`fed, this`yielded, this`cut
      ensures Valid() && steps.step == stepNanos
      ensures fed == old(fed) + Nanos(elapsedMs)
      ensures yielded == old(yielded) + steps.remaining * steps.step
      ensures accumulatedNanos < stepNanos
      ensures maxSteps.Some? ==> steps.remaining <= maxSteps.value
      ensures var taken := if Nanos(elapsedMs) < maxFrameNanos then Nanos(elapsedMs) else maxFrameNanos;
              var (count, rest, dropped) := Charge(old(accumulatedNanos) + taken, stepNanos, maxSteps);
              && steps.remaining == count % 0x1_0000_0000 && accumulatedNanos == rest
              && droppedNanos == old(droppedNanos) + (Nanos(elapsedMs) - taken) + dropped
              && (count < 0x1_0000_0000 ==> cut == old(cut))
      ensures var (whole, rest) := Spend([Nanos(elapsedMs)], stepNanos, old(accumulatedNanos));
              Nanos(elapsedMs) <= maxFrameNanos && whole < 0x1_0000_0000 && (maxSteps.Some? ==> whole <= maxSteps.value) ==>
                steps.remaining == whole && accumulatedNanos == rest && droppedNanos == old(droppedNanos) && cut == old(cut)
    {
      var elapsedNanos := Nanos(elapsedMs);
      UncappedChargeSpends(elapsedNanos, stepNanos, accumulatedNanos, maxSteps);
      Feed(elapsedNanos);
      ChargeCases(accumulatedNanos, stepNanos, maxSteps);
      var count := DrainSteps();
      var kept := count % 0x1_0000_0000;
      Hand(count, kept);
      steps := Steps(kept, stepNanos);
    }

    // Accounts for `kept` steps handed out of `count` drained.
    ghost method Hand(count: nat, kept: nat)
      requires 0 < stepNanos && kept == count % 0x1_0000_0000
      requires fed == yielded + accumulatedNanos + droppedNanos + cut + discarded + count * stepNanos
      modifies this`cut, this`yielded
      ensures Valid() && yielded == old(yielded) + kept * stepNanos
      ensures count < 0x1_0000_0000 ==> kept == count && cut == old(cut)
      ensures kept <= count
    {
      CastAccounts(count, stepNanos);
      cut := cut + (count - kept) * stepNanos;
      yielded := yielded + kept * stepNanos;
    }

    // Accumulates elapsed time, dropping what one frame may not hand over.
    method Feed(elapsedNanos: nat)
      requires Valid()
      modifies this`accumulatedNanos, this`droppedNanos, this`fed
      ensures Valid() && fed == old(fed) + elapsedNanos
      ensures accumulatedNanos == old(accumulatedNanos) + if elapsedNanos < maxFrameNanos then elapsedNanos else maxFrameNanos
      ensures droppedNanos == old(droppedNanos) + if elapsedNanos < maxFrameNanos then 0 else elapsedNanos - maxFrameNanos
    {
      fed := fed + elapsedNanos;
      if elapsedNanos > maxFrameNanos {
        droppedNanos := droppedNanos + (elapsedNanos - maxFrameNanos);
      }
      accumulatedNanos := accumulatedNanos + if elapsedNanos < maxFrameNanos then elapsedNanos else maxFrameNanos;
    }

    // Drains the whole steps out of the accumulator, dropping what a step cap
    // refuses.
    method DrainSteps() returns (count: nat)
      requires 0 < stepNanos
      modifies this`accumulatedNanos, this`droppedNanos
      ensures (count, accumulatedNanos, droppedNanos - old(droppedNanos)) == Charge(old(accumulatedNanos), stepNanos, maxSteps)
      ensures old(accumulatedNanos) == count * stepNanos + accumulatedNanos + droppedNanos - old(droppedNanos)
      ensures accumulatedNanos < stepNanos
    {
      ChargeConserves(accumulatedNanos, stepNanos, maxSteps);
      Divides(accumulatedNanos, stepNanos);
      count := accumulatedNanos / stepNanos;
      accumulatedNanos := accumulatedNanos - count * stepNanos;
      if maxSteps.Some? && count > maxSteps.value {
        var cap := maxSteps.value;
        droppedNanos := droppedNanos + ((count - cap) * stepNanos + accumulatedNanos);
        accumulatedNanos := 0;
        count := cap;
      }
    }

    // The one call that can leave a whole step or more carried over.
    method SetStep(step: nat)
      requires Valid() && 0 < step
      modifies this`stepNanos
      ensures Valid() && stepNanos == step
      ensures accumulatedNanos < stepNanos <==> old(accumulatedNanos) < step
    {
      stepNanos := step;
    }

    method Reset()
      requires Valid()
      modifies this`accumulatedNanos, this`discarded
      ensures Valid() && accumulatedNanos == 0 && discarded == old(discarded) + old(accumulatedNanos)
    {
      discarded := discarded + accumulatedNanos;
      accumulatedNanos := 0;
    }
  }

  // Fifty milliseconds carried under a step of a hundred are five whole steps
  // of ten, which the next advance pays for though no time has passed.
  method SmallerStepOwesSteps() returns (timestep: FixedTimestep, owed: nat, steps: Steps)
    ensures fresh(timestep) && timestep.Valid() && timestep.stepNanos == 10_000_000
    ensures owed == 5 * timestep.stepNanos && steps == Steps(5, timestep.stepNanos) && timestep.accumulatedNanos == 0
  {
    timestep := new FixedTimestep(100_000_000, 250_000_000, None);
    var _ := timestep.Advance(50);
    timestep.SetStep(10_000_000);
    owed := timestep.accumulatedNanos;
    steps := timestep.Advance(0);
  }

  class Periodic {
    var intervalNanos: nat
    var accumulatedNanos: nat
    ghost var fed: nat
    // The time of every period reported or cut off by the 32-bit count.
    ghost var spent: nat

    ghost predicate Valid()
      reads this
    {
      0 < intervalNanos && fed == spent + accumulatedNanos
    }

    constructor (interval: nat)
      requires 0 < interval
      ensures Valid() && intervalNanos == interval && accumulatedNanos == 0 && fed == 0
    {
      intervalNanos, accumulatedNanos, fed, spent := interval, 0, 0, 0;
    }

    method SetInterval(interval: nat)
      requires Valid() && 0 < interval
      modifies this`intervalNanos
      ensures Valid() && intervalNanos == interval
      ensures accumulatedNanos < intervalNanos <==> old(accumulatedNanos) < interval
    {
      intervalNanos := interval;
    }

    // At most one period, with the rest kept for later.
    method Due(elapsedMs: nat) returns (due: bool)
      requires Valid()
      modifies this`accumulatedNanos, this`fed, this`spent
      ensures Valid() && fed == old(fed) + Nanos(elapsedMs)
      ensures due <==> intervalNanos <= old(accumulatedNanos) + Nanos(elapsedMs)
      ensures spent == old(spent) + if due then intervalNanos else 0
      ensures DueRun([Nanos(elapsedMs)], intervalNanos, old(accumulatedNanos)) == (if due then 1 else 0, accumulatedNanos)
    {
      fed := fed + Nanos(elapsedMs);
      accumulatedNanos := accumulatedNanos + Nanos(elapsedMs);
      if accumulatedNanos >= intervalNanos {
        accumulatedNanos := accumulatedNanos - intervalNanos;
        spent := spent + intervalNanos;
        return true;
      }
      return false;
    }

    // Every whole period the time covers.
    method Advance(elapsedMs: nat) returns (periods: nat)
      requires Valid()
      modifies this`accumulatedNanos, this`fed, this`spent
      ensures Valid() && fed == old(fed) + Nanos(elapsedMs)
      ensures accumulatedNanos < intervalNanos
      ensures var (whole, rest) := Spend([Nanos(elapsedMs)], intervalNanos, old(accumulatedNanos));
              accumulatedNanos == rest && periods == whole % 0x1_0000_0000
    {
      fed := fed + Nanos(elapsedMs);
      accumulatedNanos := accumulatedNanos + Nanos(elapsedMs);
      var count := accumulatedNanos / intervalNanos;
      Divides(accumulatedNanos, intervalNanos);
      accumulatedNanos := accumulatedNanos - count * intervalNanos;
      spent := spent + count * intervalNanos;
      periods := count % 0x1_0000_0000;
    }
  }

  // How many times `due` fires over a run of frames, and what is left.
  function DueRun(frames: seq<nat>, interval: nat, acc: nat): (nat, nat) {
    if frames == [] then (0, acc)
    else
      var (fired, rest) := DueRun(frames[..|frames| - 1], interval, acc);
      var owed := rest + frames[|frames| - 1];
      if interval <= owed then (fired + 1, owed - interval) else (fired, owed)
  }

  // A period asked once per frame never fires early and forgets nothing: it
  // has fired for exactly the time it no longer carries, and once the carry is
  // below one interval it has fired exactly as often as counting every
  // period would have.
  lemma {:induction false} DueRepaysLongFrames(frames: seq<nat>, interval: nat, acc: nat)
    requires 0 < interval && acc < interval
    ensures var (fired, rest) := DueRun(frames, interval, acc);
            && fired * interval + rest == acc + Sum(frames)
            && fired <= Spend(frames, interval, acc).0
            && (rest < interval <==> (fired, rest) == Spend(frames, interval, acc))
  {
    DueConserves(frames, interval, acc);
    FramingDoesNotMatter(frames, interval, acc);
    var (fired, rest) := DueRun(frames, interval, acc);
    var (whole, left) := Spend(frames, interval, acc);
    Divides(acc + Sum(frames), interval);
    if rest < interval {
      Quotient(acc + Sum(frames), interval, fired, rest);
    }
    if whole < fired {
      Distributes(whole, fired - whole, interval);
      AtLeastOnce(fired - whole, interval);
    }
  }

  lemma {:induction false} DueConserves(frames: seq<nat>, interval: nat, acc: nat)
    requires 0 < interval
    ensures var (fired, rest) := DueRun(frames, interval, acc);
            fired * interval + rest == acc + Sum(frames)
  {
    if frames != [] {
      DueConserves(frames[..|frames| - 1], interval, acc);
      var (fired, _) := DueRun(frames[..|frames| - 1], interval, acc);
      Distributes(fired, 1, interval);
    }
  }
}
