/**
 Sliding-window acknowledgement: the newest sequence number and one bit for each
 of the 64 before it, kept as an exact picture of everything ever observed.

 The 64-bit mask is held as its bits, lowest first.
 */
module Ack {
  import opened Wrappers

  const WINDOW: nat := 64

  function Zeros(n: nat): (bits: seq<bool>)
    ensures |bits| == n && forall i | 0 <= i < n :: !bits[i]
  {
    if n == 0 then [] else Zeros(n - 1) + [false]
  }

  type Mask = m: seq<bool> | |m| == 64 witness Zeros(64)

  const NO_BITS: Mask := Zeros(64)

  function ShiftLeft(m: Mask, count: nat): Mask {
    seq(WINDOW, i requires 0 <= i < WINDOW => i >= count && m[i - count])
  }

  datatype Acks = Acks(newest: nat, mask: Mask, started: bool) {
    // Whether `s` is recorded as arrived; outside the window it is not.
    predicate Contains(s: nat) {
      started && s <= newest && (s == newest || (newest - s <= WINDOW && mask[newest - s - 1]))
    }

    function BaseFrom(base: nat): nat
      decreases newest - base
    {
      if base < newest && Contains(base + 1) then BaseFrom(base + 1) else base
    }

    // The end of the unbroken run of arrivals from `first`, if there is one.
    function ContiguousBase(first: nat): Option<nat> {
      if Contains(first) then Some(BaseFrom(first)) else None
    }

    function Encode(): Option<(nat, Mask)> {
      if started then Some((newest, mask)) else None
    }

    // How many of the `n` numbers before newest are recorded.
    function Ones(n: nat): nat
      requires n <= WINDOW
    {
      if n == 0 then 0 else Ones(n - 1) + if mask[n - 1] then 1 else 0
    }
  }

  // The window that `seen` alone determines.
  ghost predicate Describes(a: Acks, seen: set<nat>) {
    && (a.started <==> seen != {})
    && (!a.started ==> a.newest == 0 && a.mask == NO_BITS)
    && (a.started ==> a.newest in seen && forall s | s in seen :: s <= a.newest)
    && (a.started ==> forall i | 0 <= i < WINDOW :: a.mask[i] <==> a.newest - 1 - i in seen)
  }

  // Duplicates, reordering and repetition leave no trace: windows that
  // observed the same set are the same window.
  lemma SameArrivalsSameWindow(a: Acks, b: Acks, seen: set<nat>)
    requires Describes(a, seen) && Describes(b, seen)
    ensures a == b
  {}

  lemma ContainsMeansArrived(a: Acks, seen: set<nat>, s: nat)
    requires Describes(a, seen)
    ensures a.Contains(s) <==> s in seen && a.newest <= s + WINDOW
  {}

  // The greatest b with every number first..b observed; none exactly when
  // `first` is not in the window.
  lemma {:induction false} ContiguousBaseIsGreatest(a: Acks, seen: set<nat>, first: nat)
    requires Describes(a, seen)
    ensures a.ContiguousBase(first).None? <==> first !in seen || first + WINDOW < a.newest
    ensures a.ContiguousBase(first).Some? ==>
              var b := a.ContiguousBase(first).value;
              && first <= b <= a.newest
              && (forall s | first <= s <= b :: s in seen)
              && b + 1 !in seen
    decreases a.newest - first
  {
    ContainsMeansArrived(a, seen, first);
    if a.Contains(first) && first < a.newest {
      ContainsMeansArrived(a, seen, first + 1);
      if a.Contains(first + 1) {
        ContiguousBaseIsGreatest(a, seen, first + 1);
      }
    }
  }

  // A sender walking its frontier over the acknowledgements it receives.
  function Frontier(first: nat, acks: seq<Acks>): nat
    decreases |acks|
  {
    if acks == [] then first
    else
      match acks[0].ContiguousBase(first)
      case Some(b) => Frontier(b + 1, acks[1..])
      case None => Frontier(first, acks[1..])
  }

  // Whatever acknowledgements arrive, late, repeated or out of order, a
  // frontier never moves back and only ever passes numbers that all arrived,
  // and it stops at one the last acknowledgement lacks or is too new to hold.
  lemma {:induction false} FrontierOnlyPassesArrivals(first: nat, acks: seq<Acks>, views: seq<set<nat>>, seen: set<nat>)
    requires |acks| == |views|
    requires forall k | 0 <= k < |acks| :: Describes(acks[k], views[k]) && views[k] <= seen
    ensures first <= Frontier(first, acks)
    ensures forall s | first <= s < Frontier(first, acks) :: s in seen
    ensures acks != [] ==>
              var (last, stop) := (|acks| - 1, Frontier(first, acks));
              stop !in views[last] || stop + WINDOW < acks[last].newest
    decreases |acks|
  {
    if acks != [] {
      ContiguousBaseIsGreatest(acks[0], views[0], first);
      var next := match acks[0].ContiguousBase(first) case Some(b) => b + 1 case None => first;
      FrontierOnlyPassesArrivals(next, acks[1..], views[1..], seen);
    }
  }

  lemma {:induction false} OnesCountsArrivals(a: Acks, seen: set<nat>, n: nat)
    requires Describes(a, seen) && a.started && n <= WINDOW
    ensures |set s | s in seen && a.newest <= s + n| == 1 + a.Ones(n)
  {
    var upTo := set s | s in seen && a.newest <= s + n;
    if n == 0 {
      assert upTo == {a.newest};
    } else {
      OnesCountsArrivals(a, seen, n - 1);
      var fewer := set s | s in seen && a.newest <= s + (n - 1);
      assert a.mask[n - 1] <==> a.newest - 1 - (n - 1) in seen;
      if a.mask[n - 1] {
        assert upTo == fewer + {a.newest - n};
      } else {
        assert upTo == fewer;
      }
    }
  }

  // What a received pair says arrived.
  ghost function Arrivals(newest: nat, mask: Mask): set<nat> {
    set s: nat | s <= newest && Acks(newest, mask, true).Contains(s)
  }

  // Sixteen bytes lose only what the window had already forgotten: the peer
  // rebuilds the same window, over the arrivals still inside it.
  lemma EncodeRoundTrips(a: Acks, seen: set<nat>)
    requires Describes(a, seen)
    ensures a.Encode().Some? <==> seen != {}
    ensures seen != {} ==>
              var (newest, mask) := a.Encode().value;
              && Acks(newest, mask, true) == a
              && Arrivals(newest, mask) == (set s | s in seen && a.newest <= s + WINDOW)
              && Describes(a, Arrivals(newest, mask))
  {
    if a.started {
      var kept := set s | s in seen && a.newest <= s + WINDOW;
      forall s: nat
        ensures s in Arrivals(a.newest, a.mask) <==> s in kept
      {
        ContainsMeansArrived(a, seen, s);
      }
      assert a.newest in kept;
    }
  }

  // The window after a number newer than any before. A jump of exactly
  // WINDOW still keeps the old newest, in the last slot.
  function Advanced(a: Acks, s: nat): Acks
    requires a.started && a.newest < s
  {
    var shift := s - a.newest;
    var shifted := if shift >= 64 then NO_BITS else ShiftLeft(a.mask, shift);
    Acks(s, if shift <= WINDOW then shifted[shift - 1 := true] else NO_BITS, true)
  }

  lemma AdvancedDescribes(a: Acks, seen: set<nat>, s: nat)
    requires Describes(a, seen) && a.started && a.newest < s
    ensures Describes(Advanced(a, s), seen + {s})
  {
    forall i | 0 <= i < 64
      ensures Advanced(a, s).mask[i] <==> s - 1 - i in seen
    {
      AdvancedBit(a, s, i);
      assert a.newest in seen;
    }
  }

  // Each bit after a forward shift: the old newest, an old bit, or nothing.
  lemma AdvancedBit(a: Acks, s: nat, i: nat)
    requires a.started && a.newest < s && i < 64
    ensures Advanced(a, s).mask[i] <==>
            s - 1 - i == a.newest || (s - 1 - i < a.newest && a.newest <= s - 1 - i + 64 && a.mask[a.newest - (s - 1 - i) - 1])
  {}

  lemma StragglerDescribes(a: Acks, seen: set<nat>, s: nat)
    requires Describes(a, seen) && a.started && s < a.newest <= s + WINDOW
    ensures Describes(a.(mask := a.mask[a.newest - s - 1 := true]), seen + {s})
    ensures a.mask[a.newest - s - 1] <==> s in seen
  {}

  class AckWindow {
    var newest: nat
    var mask: Mask
    var started: bool
    // Everything ever passed to Observe.
    ghost var seen: set<nat>

    function View(): Acks
      reads this
    {
      Acks(newest, mask, started)
    }

    ghost predicate Valid()
      reads this
    {
      Describes(View(), seen)
    }

    constructor ()
      ensures Valid() && seen == {}
    {
      newest, mask, started, seen := 0, NO_BITS, false, {};
    }

    constructor FromEncoded(newest: nat, mask: Mask)
      ensures View() == Acks(newest, mask, true) && seen == Arrivals(newest, mask)
      ensures Valid() <==> forall i | newest <= i < WINDOW :: !mask[i]
    {
      this.newest, this.mask, started, seen := newest, mask, true, Arrivals(newest, mask);
      new;
      assert newest in seen;
      forall i | 0 <= i < newest && i < WINDOW
        ensures mask[i] <==> newest - 1 - i in seen
      {
        assert newest - (newest - 1 - i) - 1 == i;
      }
    }

    // Records an arrival. New means not seen before and not already out of
    // the window.
    method Observe(s: nat) returns (isNew: bool)
      requires Valid()
      modifies this
      ensures Valid() && seen == old(seen) + {s}
      ensures isNew <==> old(seen) == {} || (s !in old(seen) && old(newest) <= s + WINDOW)
    {
      ghost var before := View();
      seen := seen + {s};
      if !started {
        started, newest, mask := true, s, NO_BITS;
        return true;
      }
      if s > newest {
        AdvancedDescribes(before, old(seen), s);
        var shift := s - newest;
        var shifted := if shift >= 64 then NO_BITS else ShiftLeft(mask, shift);
        mask := if shift <= WINDOW then shifted[shift - 1 := true] else NO_BITS;
        newest := s;
        return true;
      } else if s == newest {
        assert seen == old(seen);
        return false;
      } else {
        var back := newest - s;
        if back > WINDOW {
          return false;
        }
        StragglerDescribes(before, old(seen), s);
        var wasSet := mask[back - 1];
        mask := mask[back - 1 := true];
        return !wasSet;
      }
    }

    method Contains(s: nat) returns (arrived: bool)
      requires Valid()
      ensures arrived <==> s in seen && newest <= s + WINDOW
    {
      ContainsMeansArrived(View(), seen, s);
      if !started || s > newest {
        return false;
      }
      if s == newest {
        return true;
      }
      var back := newest - s;
      arrived := back <= WINDOW && mask[back - 1];
    }

    // The gaps from `oldest` to newest, ascending, at most a window of them.
    method MissingSince(oldest: nat) returns (gaps: seq<nat>)
      requires Valid()
      ensures forall s: nat :: s in gaps <==> s !in seen && oldest <= s < newest <= s + WINDOW
      ensures forall i, j | 0 <= i < j < |gaps| :: gaps[i] < gaps[j]
      ensures |gaps| <= WINDOW
    {
      var lowest := if newest < WINDOW then 0 else newest - WINDOW;
      var floor := if lowest < oldest then oldest else lowest;
      var end := if started then newest else 0;
      gaps := [];
      var s := floor;
      while s < end
        invariant floor <= s && (s <= end || s == floor)
        invariant forall g: nat :: g in gaps <==> g !in seen && floor <= g < s && g < end
        invariant forall i, j | 0 <= i < j < |gaps| :: gaps[i] < gaps[j]
        invariant forall i | 0 <= i < |gaps| :: gaps[i] < s
        invariant |gaps| <= s - floor
      {
        var arrived := Contains(s);
        if started && !arrived {
          gaps := gaps + [s];
        }
        s := s + 1;
      }
    }

    method ContiguousBase(first: nat) returns (base: Option<nat>)
      requires Valid()
      ensures base == View().ContiguousBase(first)
      ensures base.None? <==> first !in seen || first + WINDOW < newest
      ensures base.Some? ==> first <= base.value <= newest && base.value + 1 !in seen &&
                             forall s | first <= s <= base.value :: s in seen
    {
      ContiguousBaseIsGreatest(View(), seen, first);
      ContainsMeansArrived(View(), seen, first);
      var found := Contains(first);
      if !found {
        return None;
      }
      var b := first;
      while b < newest
        invariant first <= b && View().BaseFrom(first) == View().BaseFrom(b)
        decreases newest - b
      {
        ContainsMeansArrived(View(), seen, b + 1);
        var next := Contains(b + 1);
        if !next {
          break;
        }
        b := b + 1;
      }
      base := Some(b);
    }

    method ReceivedInWindow() returns (n: nat)
      requires Valid()
      ensures n == |set s | s in seen && newest <= s + WINDOW|
    {
      if !started {
        return 0;
      }
      OnesCountsArrivals(View(), seen, WINDOW);
      n := 1;
      for i := 0 to WINDOW
        invariant n == 1 + View().Ones(i)
      {
        n := n + if mask[i] then 1 else 0;
      }
    }

    method Reset()
      modifies this
      ensures Valid() && seen == {}
    {
      newest, mask, started, seen := 0, NO_BITS, false, {};
    }
  }
}
