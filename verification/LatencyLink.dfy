/**
 A simulated wire: what it accepts it delivers once, and on an ordered link in the
 order it was sent. Latency, jitter and loss are inputs.
 */
module LatencyLinks {
  datatype Ordering = Ordered | Unordered

  datatype Packet<+T> = Packet(at: nat, payload: T)

  ghost predicate ByTime<T>(q: seq<Packet<T>>) {
    forall i, j | 0 <= i < j < |q| :: q[i].at <= q[j].at
  }

  function Payloads<T>(q: seq<Packet<T>>): (payloads: seq<T>)
    ensures |payloads| == |q| && forall i | 0 <= i < |q| :: payloads[i] == q[i].payload
  {
    seq(|q|, i requires 0 <= i < |q| => q[i].payload)
  }

  function Due<T>(q: seq<Packet<T>>, now: nat): seq<Packet<T>> {
    if q == [] then []
    else Due(q[..|q| - 1], now) + if q[|q| - 1].at <= now then [q[|q| - 1]] else []
  }

  function Kept<T>(q: seq<Packet<T>>, now: nat): seq<Packet<T>> {
    if q == [] then []
    else Kept(q[..|q| - 1], now) + if q[|q| - 1].at <= now then [] else [q[|q| - 1]]
  }

  // Puts a packet after every packet not due later: a stable sort's step.
  function Place<T>(sorted: seq<Packet<T>>, p: Packet<T>): seq<Packet<T>> {
    if sorted == [] || sorted[|sorted| - 1].at <= p.at then sorted + [p]
    else Place(sorted[..|sorted| - 1], p) + [sorted[|sorted| - 1]]
  }

  function StableSort<T>(q: seq<Packet<T>>): seq<Packet<T>> {
    if q == [] then [] else Place(StableSort(q[..|q| - 1]), q[|q| - 1])
  }

  lemma AppendByTime<T>(q: seq<Packet<T>>, p: Packet<T>)
    requires ByTime(q) && (q == [] || q[|q| - 1].at <= p.at)
    ensures ByTime(q + [p])
  {}

  // A queue is its front and its last packet.
  lemma Split<T>(q: seq<Packet<T>>) returns (front: seq<Packet<T>>, last: Packet<T>)
    requires q != []
    ensures front == q[..|q| - 1] && last == q[|q| - 1] && q == front + [last]
    ensures multiset(q) == multiset(front) + multiset{last}
  {
    front, last := q[..|q| - 1], q[|q| - 1];
    assert q == front + [last];
  }

  lemma FrontByTime<T>(q: seq<Packet<T>>)
    requires ByTime(q) && q != []
    ensures var front := q[..|q| - 1];
            ByTime(front) && (front == [] || front[|front| - 1].at <= q[|q| - 1].at)
  {}

  lemma {:induction false} PlaceIsPermutation<T>(sorted: seq<Packet<T>>, p: Packet<T>)
    ensures multiset(Place(sorted, p)) == multiset(sorted) + multiset{p}
  {
    if sorted != [] && p.at < sorted[|sorted| - 1].at {
      var front, last := Split(sorted);
      PlaceIsPermutation(front, p);
      assert Place(sorted, p) == Place(front, p) + [last];
    } else {
      assert Place(sorted, p) == sorted + [p];
    }
  }

  lemma {:induction false} PlaceSorts<T>(sorted: seq<Packet<T>>, p: Packet<T>)
    requires ByTime(sorted)
    ensures ByTime(Place(sorted, p))
    ensures var placed := Place(sorted, p);
            |placed| == |sorted| + 1 &&
            (placed[|sorted|] == p || (sorted != [] && placed[|sorted|] == sorted[|sorted| - 1]))
  {
    if sorted != [] && p.at < sorted[|sorted| - 1].at {
      var front, last := sorted[..|sorted| - 1], sorted[|sorted| - 1];
      FrontByTime(sorted);
      PlaceSorts(front, p);
      AppendByTime(Place(front, p), last);
    } else {
      AppendByTime(sorted, p);
    }
  }

  // Sorting orders by time, loses and invents nothing, and leaves a sequence
  // already in order alone.
  lemma {:induction false} StableSortSorts<T>(q: seq<Packet<T>>)
    ensures ByTime(StableSort(q)) && multiset(StableSort(q)) == multiset(q)
  {
    if q != [] {
      var front, last := Split(q);
      StableSortSorts(front);
      PlaceSorts(StableSort(front), last);
      PlaceIsPermutation(StableSort(front), last);
    }
  }

  lemma {:induction false} SortedIsLeftAlone<T>(q: seq<Packet<T>>)
    requires ByTime(q)
    ensures StableSort(q) == q
  {
    if q != [] {
      var front, last := q[..|q| - 1], q[|q| - 1];
      FrontByTime(q);
      SortedIsLeftAlone(front);
      assert Place(front, last) == front + [last];
    }
  }

  lemma SameMembers<T>(a: seq<T>, b: seq<T>)
    requires multiset(a) == multiset(b)
    ensures forall x | x in a :: x in b
  {
    assert forall x | x in a :: x in multiset(a);
  }

  lemma {:induction false} DueIsWhatIsDue<T>(q: seq<Packet<T>>, now: nat)
    ensures forall p | p in Due(q, now) :: p.at <= now
    ensures forall p | p in Kept(q, now) :: now < p.at
  {
    if q != [] {
      DueIsWhatIsDue(q[..|q| - 1], now);
    }
  }

  lemma DrainsWhatIsDue<T>(q: seq<Packet<T>>, now: nat)
    ensures forall p | p in StableSort(Due(q, now)) :: p.at <= now
    ensures forall p | p in Kept(q, now) :: now < p.at
  {
    DueIsWhatIsDue(q, now);
    StableSortSorts(Due(q, now));
    SameMembers(StableSort(Due(q, now)), Due(q, now));
  }

  lemma {:induction false} DueAndKeptArePermutation<T>(q: seq<Packet<T>>, now: nat)
    ensures multiset(Due(q, now)) + multiset(Kept(q, now)) == multiset(q)
  {
    if q != [] {
      var front, last := Split(q);
      DueAndKeptArePermutation(front, now);
      LastIsDueOrKept(q, now);
      OneMoreEitherSide(multiset(Due(front, now)), multiset(Kept(front, now)), last);
    }
  }

  // The last packet goes to one side or the other.
  lemma LastIsDueOrKept<T>(q: seq<Packet<T>>, now: nat)
    requires q != []
    ensures var (front, last) := (q[..|q| - 1], q[|q| - 1]);
            if last.at <= now then Due(q, now) == Due(front, now) + [last] && Kept(q, now) == Kept(front, now)
            else Due(q, now) == Due(front, now) && Kept(q, now) == Kept(front, now) + [last]
  {}

  lemma OneMoreEitherSide<T>(a: multiset<T>, b: multiset<T>, x: T)
    ensures (a + multiset{x}) + b == (a + b) + multiset{x} == a + (b + multiset{x})
  {}

  lemma EndsWith<T>(q: seq<T>, a: seq<T>, b: seq<T>)
    requires q != [] && q[..|q| - 1] == a + b
    ensures q == a + (b + [q[|q| - 1]])
    ensures b == [] ==> q == (a + [q[|q| - 1]]) + b
  {
    assert q == (a + b) + [q[|q| - 1]];
  }

  // In time order, what is due is a prefix.
  lemma {:induction false} DueIsPrefix<T>(q: seq<Packet<T>>, now: nat)
    requires ByTime(q)
    ensures q == Due(q, now) + Kept(q, now)
    ensures AllDue(q, now) ==> Kept(q, now) == []
  {
    if q != [] {
      var front := q[..|q| - 1];
      FrontByTime(q);
      DueIsPrefix(front, now);
      LastIsDueOrKept(q, now);
      EndsWith(q, Due(front, now), Kept(front, now));
    }
  }

  // By its last packet, which is the latest one in time order.
  ghost predicate AllDue<T>(q: seq<Packet<T>>, now: nat) {
    q == [] || q[|q| - 1].at <= now
  }

  class LatencyLink<T> {
    var queue: seq<Packet<T>>
    const ordering: Ordering
    var lastDeliver: nat
    // Every packet not lost, in send order, and everything drained so far.
    ghost var accepted: seq<Packet<T>>
    ghost var drained: seq<Packet<T>>

    // Drained and in flight together are what was accepted: in order on an
    // ordered link, as a multiset on any.
    ghost predicate Valid()
      reads this
    {
      Streams(ordering, accepted, drained, queue, lastDeliver)
    }

    constructor (ordering: Ordering)
      ensures Valid() && this.ordering == ordering && queue == [] && lastDeliver == 0 && accepted == drained == []
    {
      queue, this.ordering, lastDeliver, accepted, drained := [], ordering, 0, [], [];
    }

    // Lost, or queued for its delivery time.
    method Send(now: nat, payload: T, latency: nat, jitter: nat, lost: bool)
      requires Valid()
      modifies this`queue, this`lastDeliver, this`accepted
      ensures Valid()
      ensures lost ==> queue == old(queue) && accepted == old(accepted)
      ensures !lost ==>
                var due := now + latency + jitter;
                var sent := Packet(if ordering.Ordered? && due < old(lastDeliver) then old(lastDeliver) else due, payload);
                queue == old(queue) + [sent] && accepted == old(accepted) + [sent] && lastDeliver == sent.at
    {
      if lost {
        return;
      }
      var at := now + latency + jitter;
      if ordering.Ordered? {
        at := if at < lastDeliver then lastDeliver else at;
      }
      SendKeepsStream(ordering, accepted, drained, queue, lastDeliver, Packet(at, payload));
      lastDeliver := at;
      queue := queue + [Packet(at, payload)];
      accepted := accepted + [Packet(at, payload)];
    }

    // Everything due by this clock, oldest delivery first. The clock may go
    // backwards from one call to the next.
    method DrainDue(now: nat) returns (out: seq<T>)
      requires Valid()
      modifies this`queue, this`drained
      ensures Valid() && queue == Kept(old(queue), now)
      ensures drained == old(drained) + StableSort(Due(old(queue), now))
      ensures out == Payloads(StableSort(Due(old(queue), now)))
      ensures forall p | p in queue :: now < p.at
      ensures forall p | p in drained[|old(drained)|..] :: p.at <= now
    {
      var all := queue;
      var due, kept := Partition(all, now);
      queue := kept;
      var sorted := SortByTime(due);
      out := Payloads(sorted);
      DrainsWhatIsDue(all, now);
      DrainKeepsStream(ordering, accepted, drained, all, lastDeliver, now);
      assert (drained + sorted)[|drained|..] == sorted;
      drained := drained + sorted;
    }

    // What was handed out and what is in flight is what was accepted, each
    // packet as often; and on an ordered link the payloads handed out so far,
    // followed by those in flight, are the accepted payloads in send order.
    lemma StreamIsWhatWasSent()
      requires Valid()
      ensures multiset(drained) + multiset(queue) == multiset(accepted)
      ensures ordering.Ordered? ==> Payloads(drained) + Payloads(queue) == Payloads(accepted)
    {}
  }

  ghost predicate Conserved<T>(accepted: seq<Packet<T>>, drained: seq<Packet<T>>, queue: seq<Packet<T>>) {
    multiset(drained) + multiset(queue) == multiset(accepted)
  }

  lemma SendConserves<T>(accepted: seq<Packet<T>>, drained: seq<Packet<T>>, queue: seq<Packet<T>>, p: Packet<T>)
    requires Conserved(accepted, drained, queue)
    ensures Conserved(accepted + [p], drained, queue + [p])
  {
    OneMoreEitherSide(multiset(drained), multiset(queue), p);
  }

  lemma DrainConserves<T>(accepted: seq<Packet<T>>, drained: seq<Packet<T>>, queue: seq<Packet<T>>, now: nat)
    requires Conserved(accepted, drained, queue)
    ensures Conserved(accepted, drained + StableSort(Due(queue, now)), Kept(queue, now))
  {
    DueAndKeptArePermutation(queue, now);
    StableSortSorts(Due(queue, now));
  }

  ghost predicate Streams<T>(
    ordering: Ordering, accepted: seq<Packet<T>>, drained: seq<Packet<T>>, queue: seq<Packet<T>>, last: nat)
  {
    && Conserved(accepted, drained, queue)
    && (ordering.Ordered? ==> InOrder(accepted, drained, queue, last))
  }

  lemma SendKeepsStream<T>(
    ordering: Ordering, accepted: seq<Packet<T>>, drained: seq<Packet<T>>, queue: seq<Packet<T>>, last: nat, p: Packet<T>)
    requires Streams(ordering, accepted, drained, queue, last) && (ordering.Ordered? ==> last <= p.at)
    ensures Streams(ordering, accepted + [p], drained, queue + [p], p.at)
  {
    SendConserves(accepted, drained, queue, p);
    if ordering.Ordered? {
      SendKeepsOrder(accepted, drained, queue, last, p);
    }
  }

  lemma DrainKeepsStream<T>(
    ordering: Ordering, accepted: seq<Packet<T>>, drained: seq<Packet<T>>, queue: seq<Packet<T>>, last: nat, now: nat)
    requires Streams(ordering, accepted, drained, queue, last)
    ensures Streams(ordering, accepted, drained + StableSort(Due(queue, now)), Kept(queue, now), last)
  {
    DrainConserves(accepted, drained, queue, now);
    if ordering.Ordered? {
      DrainKeepsOrder(accepted, drained, queue, last, now);
    }
  }

  ghost predicate InOrder<T>(accepted: seq<Packet<T>>, drained: seq<Packet<T>>, queue: seq<Packet<T>>, last: nat) {
    && drained + queue == accepted
    && ByTime(queue)
    && (queue != [] ==> queue[|queue| - 1].at <= last)
  }

  lemma SendKeepsOrder<T>(
    accepted: seq<Packet<T>>, drained: seq<Packet<T>>, queue: seq<Packet<T>>, last: nat, p: Packet<T>)
    requires InOrder(accepted, drained, queue, last) && last <= p.at
    ensures InOrder(accepted + [p], drained, queue + [p], p.at)
  {}

  lemma DrainKeepsOrder<T>(
    accepted: seq<Packet<T>>, drained: seq<Packet<T>>, queue: seq<Packet<T>>, last: nat, now: nat)
    requires InOrder(accepted, drained, queue, last)
    ensures InOrder(accepted, drained + StableSort(Due(queue, now)), Kept(queue, now), last)
  {
    DueIsPrefix(queue, now);
    PrefixKeepsOrder(accepted, drained, Due(queue, now), Kept(queue, now), last);
    SortedIsLeftAlone(Due(queue, now));
  }

  lemma PrefixKeepsOrder<T>(
    accepted: seq<Packet<T>>, drained: seq<Packet<T>>, due: seq<Packet<T>>, kept: seq<Packet<T>>, last: nat)
    requires InOrder(accepted, drained, due + kept, last)
    ensures ByTime(due) && InOrder(accepted, drained + due, kept, last)
  {
    PartsByTime(due, kept);
    assert (drained + due) + kept == drained + (due + kept);
  }

  lemma PartsByTime<T>(a: seq<Packet<T>>, b: seq<Packet<T>>)
    requires ByTime(a + b)
    ensures ByTime(a) && ByTime(b)
    ensures b != [] ==> b[|b| - 1] == (a + b)[|a + b| - 1]
  {
    assert forall i | 0 <= i < |a| :: a[i] == (a + b)[i];
    assert forall i | 0 <= i < |b| :: b[i] == (a + b)[|a| + i];
  }

  // Splits a queue by what is due.
  method Partition<T>(all: seq<Packet<T>>, now: nat) returns (due: seq<Packet<T>>, kept: seq<Packet<T>>)
    ensures due == Due(all, now) && kept == Kept(all, now)
  {
    due, kept := [], [];
    for i := 0 to |all|
      invariant due == Due(all[..i], now) && kept == Kept(all[..i], now)
    {
      assert all[..i + 1][..i] == all[..i];
      if all[i].at <= now {
        due := due + [all[i]];
      } else {
        kept := kept + [all[i]];
      }
    }
    assert all[..|all|] == all;
  }

  // A stable sort by delivery time.
  method SortByTime<T>(due: seq<Packet<T>>) returns (sorted: seq<Packet<T>>)
    ensures sorted == StableSort(due)
  {
    sorted := [];
    for i := 0 to |due|
      invariant sorted == StableSort(due[..i])
    {
      assert due[..i + 1][..i] == due[..i];
      sorted := Place(sorted, due[i]);
    }
    assert due[..|due|] == due;
  }
}
