/**
 Prediction and reconciliation: replaying what the server has not seen yet over
 what it says, and why, done in step, it changes nothing.
 */
module Predictions {
  import opened Wrappers
  import opened InputBuffers

  // The game rule folded over a list of inputs.
  function Replay<S, I>(rule: (S, I) -> S, state: S, inputs: seq<I>): S {
    if inputs == [] then state else rule(Replay(rule, state, inputs[..|inputs| - 1]), inputs[|inputs| - 1])
  }

  // An input and its number, whatever state it was predicted from.
  datatype Press<+I> = Press(number: nat, op: I)

  function Pressed<I, Snap>(buffered: seq<BufferedInput<I, Snap>>): seq<Press<I>> {
    seq(|buffered|, i requires 0 <= i < |buffered| => Press(buffered[i].number, buffered[i].op))
  }

  function OpsOf<I>(presses: seq<Press<I>>): seq<I> {
    seq(|presses|, i requires 0 <= i < |presses| => presses[i].op)
  }

  class PredictedEntity<S, Op> {
    var current: S
    var authoritative: S
    var ackedSeq: nat

    constructor (initial: S)
      ensures current == authoritative == initial && ackedSeq == 0
    {
      current, authoritative, ackedSeq := initial, initial, 0;
    }

    method ApplyLocalInputAndPredict(op: Op, number: nat, buffer: ClientInputBuffer<Op, S>, rule: (S, Op) -> S)
      requires buffer.Valid()
      modifies this`current, buffer
      ensures buffer.Valid() && current == rule(old(current), op)
      ensures buffer.inputs == Pushed(old(buffer.inputs), BufferedInput(number, op, old(current)), buffer.maxSize)
      ensures buffer.overflowed == old(buffer.overflowed) + if |old(buffer.inputs)| == buffer.maxSize then 1 else 0
      ensures buffer.orderly == (old(buffer.orderly) && old(buffer.recorded) < number)
      ensures buffer.recorded == if old(buffer.recorded) < number then number else old(buffer.recorded)
      ensures buffer.handed == old(buffer.handed) && buffer.passAck == old(buffer.passAck)
      ensures buffer.predictedThrough == old(buffer.predictedThrough)
    {
      var before := current;
      buffer.RecordInput(number, op, before);
      current := rule(current, op);
    }

    // Whatever was predicted before, the state is now the server's with every
    // buffered input newer than the acknowledgement replayed on it.
    method ReconcileWithServerState(server: S, ack: nat, buffer: ClientInputBuffer<Op, S>, rule: (S, Op) -> S)
      requires buffer.Valid()
      modifies this, buffer`inputs
      ensures buffer.Valid() && buffer.inputs == After(old(buffer.inputs), ack)
      ensures authoritative == server && ackedSeq == ack
      ensures current == Replay(rule, server, OpsOf(Pressed(After(old(buffer.inputs), ack))))
    {
      authoritative := server;
      ackedSeq := ack;
      buffer.AcknowledgeInputsUpTo(ack);
      current := authoritative;
      AfterTwice(old(buffer.inputs), ack);
      var unacked := buffer.GetUnacknowledgedInputs(ack);
      ghost var ops := OpsOf(Pressed(unacked));
      for i := 0 to |unacked|
        invariant authoritative == server && ackedSeq == ack
        invariant buffer.Valid() && buffer.inputs == After(old(buffer.inputs), ack)
        invariant current == Replay(rule, server, ops[..i])
      {
        assert ops[..i + 1][..i] == ops[..i];
        current := rule(current, unacked[i].op);
      }
      assert ops[..|unacked|] == ops;
    }
  }

  lemma {:induction false} AfterTwice<Op, Snap>(s: seq<BufferedInput<Op, Snap>>, ack: nat)
    ensures After(After(s, ack), ack) == After(s, ack)
  {
    if s != [] && s[0].number <= ack {
      AfterTwice(s[1..], ack);
    }
  }

  // ------------------------------------------------------------------ in step

  // Inputs by sequence number, 1 first. None is an input numbered while the
  // entity was frozen, which neither end applies.
  type Presses<+I> = seq<Option<I>>

  // The state once every press after number `base` has been applied to what
  // stood there.
  function StateFrom<S, I>(rule: (S, I) -> S, origin: S, presses: Presses<I>, base: nat): S {
    if |presses| <= base then origin
    else
      var before := StateFrom(rule, origin, presses[..|presses| - 1], base);
      match presses[|presses| - 1]
      case Some(i) => rule(before, i)
      case None => before
  }

  // The presses newer than `floor`: what a buffer should hold once everything
  // up to it is gone.
  function Pending<I>(presses: Presses<I>, floor: nat): seq<Press<I>> {
    if |presses| <= floor then []
    else
      Pending(presses[..|presses| - 1], floor) +
      match presses[|presses| - 1]
      case Some(i) => [Press(|presses|, i)]
      case None => []
  }

  // Replaying the presses newer than an acknowledgement over a state is
  // applying them from there.
  lemma {:induction false} ReplayIsStateFrom<S, I>(rule: (S, I) -> S, server: S, presses: Presses<I>, ack: nat)
    ensures Replay(rule, server, OpsOf(Pending(presses, ack))) == StateFrom(rule, server, presses, ack)
  {
    if ack < |presses| {
      var before := presses[..|presses| - 1];
      ReplayIsStateFrom(rule, server, before, ack);
      var ops := OpsOf(Pending(presses, ack));
      if presses[|presses| - 1].Some? {
        assert ops[..|ops| - 1] == OpsOf(Pending(before, ack));
      } else {
        assert ops == OpsOf(Pending(before, ack));
      }
    }
  }

  // And if the state is what the server would have by that acknowledgement,
  // it lands where the client already was.
  lemma ReplayCatchesUp<S, I>(rule: (S, I) -> S, origin: S, presses: Presses<I>, base: nat, ack: nat)
    requires base <= ack <= |presses|
    ensures Replay(rule, StateFrom(rule, origin, presses[..ack], base), OpsOf(Pending(presses, ack)))
         == StateFrom(rule, origin, presses, base)
  {
    var server := StateFrom(rule, origin, presses[..ack], base);
    ReplayIsStateFrom(rule, server, presses, ack);
    StateFromResumes(rule, origin, presses, base, ack);
  }

  lemma {:induction false} StateFromResumes<S, I>(rule: (S, I) -> S, origin: S, presses: Presses<I>, base: nat, ack: nat)
    requires base <= ack <= |presses|
    ensures StateFrom(rule, StateFrom(rule, origin, presses[..ack], base), presses, ack)
         == StateFrom(rule, origin, presses, base)
  {
    if |presses| == ack {
      assert presses[..ack] == presses;
    } else {
      var before := presses[..|presses| - 1];
      StateFromResumes(rule, origin, before, base, ack);
      assert before[..ack] == presses[..ack];
    }
  }

  // The oldest pending press is newer than the floor, and the ones behind it
  // are what is newer than it.
  lemma {:induction false} OldestPending<I>(presses: Presses<I>, floor: nat)
    requires Pending(presses, floor) != []
    ensures var pending := Pending(presses, floor);
            floor < pending[0].number <= |presses| && pending[1..] == Pending(presses, pending[0].number)
  {
    var before := presses[..|presses| - 1];
    var older := Pending(before, floor);
    if older == [] {
      assert Pending(presses, |presses|) == [];
    } else {
      OldestPending(before, floor);
      var last := Pending(presses, floor)[|older|..];
      assert (older + last)[1..] == older[1..] + last;
    }
  }

  // Raising the floor without passing a pending press drops nothing.
  lemma {:induction false} NothingDropped<I>(presses: Presses<I>, floor: nat, ack: nat)
    requires floor <= ack
    requires Pending(presses, floor) == [] || ack < Pending(presses, floor)[0].number
    ensures Pending(presses, ack) == Pending(presses, floor)
  {
    if floor < |presses| {
      var before := presses[..|presses| - 1];
      var older := Pending(before, floor);
      assert older != [] ==> Pending(presses, floor)[0] == older[0];
      NothingDropped(before, floor, ack);
      if ack >= |presses| && Pending(presses, floor) != [] {
        OldestPending(presses, floor);
        assert false;
      }
    }
  }

  // Pruning a buffer that holds exactly what is pending leaves exactly what
  // is pending after the acknowledgement too, or, if that is stale, what was.
  lemma {:induction false} PruningIsPending<I, Snap>(
    s: seq<BufferedInput<I, Snap>>, presses: Presses<I>, floor: nat, ack: nat)
    requires Pressed(s) == Pending(presses, floor)
    ensures Pressed(After(s, ack)) == Pending(presses, if floor < ack then ack else floor)
    decreases |s|
  {
    if s != [] && s[0].number <= ack {
      assert Pressed(s)[0] == Press(s[0].number, s[0].op);
      OldestPending(presses, floor);
      assert Pressed(s[1..]) == Pressed(s)[1..];
      PruningIsPending(s[1..], presses, s[0].number, ack);
    } else {
      assert s != [] ==> Pressed(s)[0].number == s[0].number;
      if floor < ack { NothingDropped(presses, floor, ack); }
    }
  }

  // A stale acknowledgement cannot bring back what was pruned: it replays the
  // right inputs exactly when nothing was pressed between it and the newest.
  lemma StaleAckIsHarmlessIffNothingWasPruned<I, Snap>(
    s: seq<BufferedInput<I, Snap>>, presses: Presses<I>, floor: nat, ack: nat)
    requires Pressed(s) == Pending(presses, floor) && ack <= floor <= |presses|
    ensures Pressed(After(s, ack)) == Pending(presses, ack) <==> forall n | ack <= n < floor :: presses[n].None?
  {
    PruningIsPending(s, presses, floor, ack);
    PendingSplits(presses, ack, floor);
    PendingIsEmpty(presses[..floor], ack);
    SuffixOnly(Pending(presses[..floor], ack), Pending(presses, floor));
  }

  lemma SuffixOnly<T>(older: seq<T>, kept: seq<T>)
    ensures older + kept == kept <==> older == []
  {
    assert |older + kept| == |older| + |kept|;
    assert older == [] ==> older + kept == kept;
  }

  lemma {:induction false} PendingSplits<I>(presses: Presses<I>, ack: nat, floor: nat)
    requires ack <= floor <= |presses|
    ensures Pending(presses, ack) == Pending(presses[..floor], ack) + Pending(presses, floor)
  {
    if |presses| == floor {
      assert presses[..floor] == presses;
    } else {
      var before := presses[..|presses| - 1];
      PendingSplits(before, ack, floor);
      assert before[..floor] == presses[..floor];
    }
  }

  lemma {:induction false} PendingIsEmpty<I>(presses: Presses<I>, ack: nat)
    ensures Pending(presses, ack) == [] <==> forall n | ack <= n < |presses| :: presses[n].None?
  {
    if ack < |presses| {
      PendingIsEmpty(presses[..|presses| - 1], ack);
    }
  }
}
