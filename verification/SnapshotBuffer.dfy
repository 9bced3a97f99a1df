/**
 The buffer of server snapshots behind interpolation: bounded, kept in time order
 whatever order they arrive in, and searched for the pair around a target time.
 */
module SnapshotBuffers {
  import opened Wrappers

  datatype Snapshot<+S> = Snapshot(time: int, state: S)

  function Times<S>(s: seq<Snapshot<S>>): (t: seq<int>)
    ensures |t| == |s| && forall i | 0 <= i < |s| :: t[i] == s[i].time
  {
    seq(|s|, i requires 0 <= i < |s| => s[i].time)
  }

  ghost predicate Sorted(times: seq<int>) {
    forall i, j | 0 <= i < j < |times| :: times[i] <= times[j]
  }

  // The `k` largest of everything added: no more than `k`, all of them added,
  // and nothing left out that is larger than something kept.
  ghost predicate Top(kept: multiset<int>, added: multiset<int>, k: nat) {
    && |kept| == (if |added| < k then |added| else k)
    && kept <= added
    && forall x, y | x in added - kept && y in kept :: x <= y
  }

  ghost predicate TopK(times: seq<int>, added: multiset<int>, k: nat) {
    Sorted(times) && Top(multiset(times), added, k)
  }

  // Arrival order is forgotten: what was added decides the times held.
  lemma TopKIsUnique(a: seq<int>, b: seq<int>, added: multiset<int>, k: nat)
    requires TopK(a, added, k) && TopK(b, added, k)
    ensures a == b
  {
    var (ma, mb) := (multiset(a), multiset(b));
    forall x
      ensures ma[x] == mb[x]
    {
      NoneMissing(ma, mb, added, k, x);
      NoneMissing(mb, ma, added, k, x);
    }
    assert ma == mb;
    SortedIsUnique(a, b);
  }

  lemma NoneMissing(a: multiset<int>, b: multiset<int>, added: multiset<int>, k: nat, x: int)
    requires Top(a, added, k) && Top(b, added, k)
    ensures a[x] <= b[x]
  {
    if y :| b[y] > a[y] {
      if a[x] > b[x] {
        MoreMeansExcluded(a, b, added, x);
        MoreMeansExcluded(b, a, added, y);
      }
    } else {
      assert forall y :: b[y] <= a[y];
      SameSizeIsSame(b, a);
    }
  }

  lemma MoreMeansExcluded(a: multiset<int>, b: multiset<int>, added: multiset<int>, x: int)
    requires a <= added && b[x] < a[x]
    ensures x in added - b && x in a
  {}

  lemma SameSizeIsSame(part: multiset<int>, whole: multiset<int>)
    requires part <= whole && |part| == |whole|
    ensures part == whole
  {
    assert whole == part + (whole - part);
    assert |whole - part| == 0;
  }

  lemma LastIsLargest(a: seq<int>)
    requires Sorted(a) && a != []
    ensures forall x | x in multiset(a) :: x <= a[|a| - 1]
    ensures multiset(a) == multiset(a[..|a| - 1]) + multiset{a[|a| - 1]}
  {
    assert a == a[..|a| - 1] + [a[|a| - 1]];
  }

  lemma FirstIsSmallest(a: seq<int>)
    requires Sorted(a) && a != []
    ensures forall x | x in multiset(a) :: a[0] <= x
    ensures multiset(a[1..]) == multiset(a) - multiset{a[0]}
  {
    assert a == [a[0]] + a[1..];
  }

  lemma {:induction false} SortedIsUnique(a: seq<int>, b: seq<int>)
    requires Sorted(a) && Sorted(b) && multiset(a) == multiset(b)
    ensures a == b
  {
    SameSize(a, b);
    if a != [] {
      SameLast(a, b);
      SortedIsUnique(a[..|a| - 1], b[..|b| - 1]);
      assert a == a[..|a| - 1] + [a[|a| - 1]] && b == b[..|b| - 1] + [b[|b| - 1]];
    }
  }

  lemma SameSize(a: seq<int>, b: seq<int>)
    requires multiset(a) == multiset(b)
    ensures |a| == |b|
  {
    assert |a| == |multiset(a)| && |b| == |multiset(b)|;
  }

  lemma SameLast(a: seq<int>, b: seq<int>)
    requires Sorted(a) && Sorted(b) && multiset(a) == multiset(b) && a != [] && b != []
    ensures a[|a| - 1] == b[|b| - 1]
    ensures multiset(a[..|a| - 1]) == multiset(b[..|b| - 1])
  {
    LastIsLargest(a);
    LastIsLargest(b);
    assert a[|a| - 1] in multiset(a) && b[|b| - 1] in multiset(b);
    SameWithoutOne(multiset(a[..|a| - 1]), multiset(b[..|b| - 1]), a[|a| - 1]);
  }

  lemma SameWithoutOne(a: multiset<int>, b: multiset<int>, x: int)
    requires a + multiset{x} == b + multiset{x}
    ensures a == b
  {
    assert a == (a + multiset{x}) - multiset{x};
    assert b == (b + multiset{x}) - multiset{x};
  }

  // One more, below the cap.
  lemma TopGrows(kept: multiset<int>, added: multiset<int>, k: nat, t: int)
    requires Top(kept, added, k) && |kept| < k
    ensures Top(kept + multiset{t}, added + multiset{t}, k)
  {
    SameSizeIsSame(kept, added);
  }

  // One more, at the cap: the smallest goes.
  lemma TopTurnsOver(kept: multiset<int>, added: multiset<int>, k: nat, t: int, least: int)
    requires Top(kept, added, k) && |kept| == k
    requires least in kept + multiset{t} && forall x | x in kept + multiset{t} :: least <= x
    ensures Top(kept + multiset{t} - multiset{least}, added + multiset{t}, k)
  {
    var (kept', added') := (kept + multiset{t} - multiset{least}, added + multiset{t});
    OneLess(kept + multiset{t}, least);
    forall x, y | x in added' - kept' && y in kept'
      ensures x <= y
    {
      assert y in kept + multiset{t};
      if x != least {
        assert x in added - kept;
        if y !in kept {
          assert least in kept;
        }
      }
    }
  }

  lemma OneLess(all: multiset<int>, x: int)
    requires x in all
    ensures |all - multiset{x}| == |all| - 1
  {
    assert all == (all - multiset{x}) + multiset{x};
  }

  ghost predicate FitsAt(times: seq<int>, p: nat, t: int) {
    && p <= |times|
    && (forall i | 0 <= i < p :: times[i] <= t)
    && (forall i | p <= i < |times| :: t <= times[i])
  }

  // Inserting in order and dropping the oldest past the cap keeps the K
  // largest.
  lemma InsertKeepsTopK(times: seq<int>, added: multiset<int>, k: nat, p: nat, t: int)
    requires TopK(times, added, k) && 0 < k && FitsAt(times, p, t)
    ensures var wide := Inserted(times, p, t);
            TopK(if |wide| <= k then wide else wide[1..], added + multiset{t}, k)
  {
    var wide := Inserted(times, p, t);
    assert |times| == |multiset(times)|;
    WidenedIsSorted(times, p, t);
    if |wide| <= k {
      TopGrows(multiset(times), added, k, t);
    } else {
      AtTheCap(times, added, k, wide, t);
    }
  }

  lemma AtTheCap(times: seq<int>, added: multiset<int>, k: nat, wide: seq<int>, t: int)
    requires Top(multiset(times), added, k) && |multiset(times)| == k && wide != []
    requires Sorted(wide) && multiset(wide) == multiset(times) + multiset{t}
    ensures TopK(wide[1..], added + multiset{t}, k)
  {
    FirstIsSmallest(wide);
    assert wide[0] in multiset(wide);
    TopTurnsOver(multiset(times), added, k, t, wide[0]);
  }

  lemma WidenedIsSorted(times: seq<int>, p: nat, t: int)
    requires Sorted(times) && FitsAt(times, p, t)
    ensures var wide := Inserted(times, p, t);
            Sorted(wide) && multiset(wide) == multiset(times) + multiset{t}
  {
    assert times == times[..p] + times[p..];
  }

  function Inserted<T>(s: seq<T>, p: nat, x: T): seq<T>
    requires p <= |s|
  {
    s[..p] + [x] + s[p..]
  }

  lemma TimesOfInserted<S>(s: seq<Snapshot<S>>, k: nat, p: nat, x: Snapshot<S>)
    requires p <= |s| <= k
    ensures var wide := Inserted(Times(s), p, x.time);
            Times(LastN(Inserted(s, p, x), k)) == if |wide| <= k then wide else wide[1..]
  {}

  lemma TopKFits(times: seq<int>, added: multiset<int>, k: nat)
    requires TopK(times, added, k)
    ensures |times| <= k
  {}

  lemma InsertSnapshotKeepsTopK<S>(s: seq<Snapshot<S>>, added: multiset<int>, k: nat, p: nat, x: Snapshot<S>)
    requires TopK(Times(s), added, k) && 0 < k && FitsAt(Times(s), p, x.time)
    ensures TopK(Times(LastN(Inserted(s, p, x), k)), added + multiset{x.time}, k)
  {
    TopKFits(Times(s), added, k);
    TimesOfInserted(s, k, p, x);
    InsertKeepsTopK(Times(s), added, k, p, x.time);
  }

  lemma OneFewer<T>(all: seq<T>, n: nat)
    requires 0 < n <= |all|
    ensures all[|all| - n..][1..] == all[|all| - (n - 1)..]
  {}

  ghost predicate AllOffered<S>(s: seq<Snapshot<S>>, offered: set<Snapshot<S>>) {
    forall i | 0 <= i < |s| :: s[i] in offered
  }

  lemma InsertedWasOffered<S>(s: seq<Snapshot<S>>, offered: set<Snapshot<S>>, k: nat, p: nat, x: Snapshot<S>)
    requires AllOffered(s, offered) && p <= |s|
    ensures AllOffered(LastN(Inserted(s, p, x), k), offered + {x})
  {}

  // At the end, after any of its own time; or, when it is late, before them.
  ghost predicate GoesAt<S>(s: seq<Snapshot<S>>, p: nat, time: int) {
    && p <= |s|
    && (p == |s| ==> s == [] || s[|s| - 1].time <= time)
    && (p < |s| ==> time < s[|s| - 1].time && time <= s[p].time && forall i | 0 <= i < p :: s[i].time < time)
  }

  class SnapshotBuffer<S> {
    var snapshots: seq<Snapshot<S>>
    const maxSize: nat
    const interpolate: (S, S, real, int, int) -> S
    // Everything ever added.
    ghost var offered: set<Snapshot<S>>
    ghost var added: multiset<int>

    ghost predicate Valid()
      reads this
    {
      && 2 <= maxSize
      && TopK(Times(snapshots), added, maxSize)
      && AllOffered(snapshots, offered)
    }

    constructor (maxSize: nat, interpolate: (S, S, real, int, int) -> S)
      requires 2 <= maxSize
      ensures Valid() && snapshots == [] && added == multiset{} && offered == {}
      ensures this.maxSize == maxSize && this.interpolate == interpolate
    {
      snapshots, this.maxSize, this.interpolate, offered, added := [], maxSize, interpolate, {}, multiset{};
    }

    // The first snapshot not before `time`.
    method PartitionPoint(time: int) returns (idx: nat)
      requires Sorted(Times(snapshots))
      ensures idx <= |snapshots|
      ensures forall i | 0 <= i < idx :: snapshots[i].time < time
      ensures forall i | idx <= i < |snapshots| :: time <= snapshots[i].time
    {
      idx := 0;
      while idx < |snapshots| && snapshots[idx].time < time
        invariant idx <= |snapshots|
        invariant forall i | 0 <= i < idx :: snapshots[i].time < time
      {
        idx := idx + 1;
      }
      if idx < |snapshots| {
        assert forall i | idx <= i < |snapshots| :: Times(snapshots)[idx] <= Times(snapshots)[i];
      }
    }

    method AddSnapshot(time: int, state: S)
      requires Valid()
      modifies this
      ensures Valid()
      ensures added == old(added) + multiset{time} && offered == old(offered) + {Snapshot(time, state)}
      ensures exists p :: GoesAt(old(snapshots), p, time) &&
                          snapshots == LastN(Inserted(old(snapshots), p, Snapshot(time, state)), maxSize)
    {
      var p := InsertionPoint(time);
      var snapshot := Snapshot(time, state);
      InsertSnapshotKeepsTopK(snapshots, added, maxSize, p, snapshot);
      var kept := DropOldest(Inserted(snapshots, p, snapshot), maxSize);
      InsertedWasOffered(snapshots, offered, maxSize, p, snapshot);
      snapshots, added, offered := kept, added + multiset{time}, offered + {snapshot};
    }

    // At the end, unless the snapshot is late.
    method InsertionPoint(time: int) returns (p: nat)
      requires Sorted(Times(snapshots))
      ensures FitsAt(Times(snapshots), p, time) && GoesAt(snapshots, p, time)
    {
      p := |snapshots|;
      if snapshots == [] {
        return;
      }
      if time < snapshots[|snapshots| - 1].time {
        p := PartitionPoint(time);
      } else {
        assert forall i | 0 <= i < |snapshots| :: Times(snapshots)[i] <= Times(snapshots)[|snapshots| - 1];
      }
    }

    // Pops from the front until the buffer fits.
    static method DropOldest(all: seq<Snapshot<S>>, fits: nat) returns (kept: seq<Snapshot<S>>)
      ensures kept == LastN(all, fits)
    {
      kept := all;
      while |kept| > fits
        invariant |kept| <= |all| && kept == all[|all| - |kept|..]
        invariant fits <= |kept| || |kept| == |all|
      {
        OneFewer(all, |kept|);
        kept := kept[1..];
      }
    }

    // At the ends the buffer clamps; strictly inside, it blends the one
    // adjacent pair around the target, by how far between the two it lies.
    method GetInterpolatedState(target: int) returns (state: Option<S>)
      requires Valid()
      ensures state.None? <==> snapshots == []
      ensures |snapshots| == 1 ==> state == Some(snapshots[0].state)
      ensures |snapshots| > 1 && target <= snapshots[0].time ==> state == Some(snapshots[0].state)
      ensures |snapshots| > 1 && snapshots[0].time < target && snapshots[|snapshots| - 1].time <= target ==>
                state == Some(snapshots[|snapshots| - 1].state)
      ensures |snapshots| > 1 && snapshots[0].time < target < snapshots[|snapshots| - 1].time ==>
                exists i, t :: PartWay(i, t, target) &&
                               state == Some(interpolate(snapshots[i - 1].state, snapshots[i].state, t,
                                                         snapshots[i - 1].time, snapshots[i].time))
    {
      var n := |snapshots|;
      if n == 0 {
        return None;
      }
      if n == 1 {
        return Some(snapshots[0].state);
      }
      if target <= snapshots[0].time {
        return Some(snapshots[0].state);
      }
      if target >= snapshots[n - 1].time {
        return Some(snapshots[n - 1].state);
      }
      var idxAfter := PartitionPoint(target);
      // The fallback for an index off either end never acts.
      if idxAfter == 0 || idxAfter >= n {
        assert false;
      }
      var before, after := snapshots[idxAfter - 1], snapshots[idxAfter];
      var gap := (after.time - before.time) as real;
      // Nor does the guard against a zero gap, nor the clamp.
      if gap < 0.000000001 {
        assert false;
      }
      var t := (target - before.time) as real / gap;
      assert Surrounds(idxAfter, target);
      assert PartWay(idxAfter, t, target);
      PartWayMovesWithTheTarget(idxAfter, target, target, t, t);
      var clamped := if t < 0.0 then 0.0 else if t > 1.0 then 1.0 else t;
      assert clamped == t;
      state := Some(interpolate(before.state, after.state, clamped, before.time, after.time));
    }

    predicate Surrounds(i: int, target: int)
      reads this
    {
      0 < i < |snapshots| && snapshots[i - 1].time < target <= snapshots[i].time
    }

    // Target `target` lies between snapshots i - 1 and i, and `t` times the gap
    // is how far into it.
    predicate PartWay(i: int, t: real, target: int)
      reads this
    {
      && Surrounds(i, target)
      && t * (snapshots[i].time - snapshots[i - 1].time) as real == (target - snapshots[i - 1].time) as real
    }

    // Only one pair of neighbours surrounds a target.
    lemma SurroundingPairIsUnique(i: int, j: int, target: int)
      requires Valid() && Surrounds(i, target) && Surrounds(j, target)
      ensures i == j
    {}

    // The fraction runs with the target: above zero, one only at the later
    // snapshot itself, a half half-way, and larger for a later target.
    lemma PartWayMovesWithTheTarget(i: int, target: int, later: int, t: real, u: real)
      requires PartWay(i, t, target) && PartWay(i, u, later)
      ensures 0.0 < t <= 1.0
      ensures t == 1.0 <==> target == snapshots[i].time
      ensures t == 0.5 <==> target - snapshots[i - 1].time == snapshots[i].time - target
      ensures t < u <==> target < later
    {
      var (before, after) := (snapshots[i - 1].time, snapshots[i].time);
      FractionsCompare(0.0, t, after - before, 0, 2 * (target - before));
      FractionsCompare(t, 1.0, after - before, 2 * (target - before), 2 * (after - before));
      FractionsCompare(t, 0.5, after - before, 2 * (target - before), after - before);
      FractionsCompare(t, u, after - before, 2 * (target - before), 2 * (later - before));
    }
  }

  // Fractions of one gap compare as their lengths do, here counted in halves.
  lemma FractionsCompare(t: real, u: real, gap: int, a: int, b: int)
    requires 0 < gap && t * (2 * gap) as real == a as real && u * (2 * gap) as real == b as real
    ensures t < u <==> a < b
    ensures t == u <==> a == b
  {
    var g := (2 * gap) as real;
    if t < u {
      assert 0.0 < (u - t) * g;
    } else if u < t {
      assert 0.0 < (t - u) * g;
    }
  }
}
