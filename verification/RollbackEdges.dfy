/**
 Runs one step outside the window, as callers could make them.
 */
module RollbackEdges {
  import opened Wrappers
  import opened FrameRings
  import opened RollbackModel
  import opened RollbackTheorems
  import opened RollbackWindow

  lemma ThreeCalls<S, I>(rules: Rules<S, I>, init: S, a: Op<I>, b: Op<I>, c: Op<I>)
    requires 0 < rules.capacity && OpOk(rules, a) && OpOk(rules, b) && OpOk(rules, c)
    ensures RunOk(rules, [a, b, c]) && RunOk(rules, [a, b]) && RunOk(rules, [a])
    ensures Run(rules, init, [a]) == Step(rules, Start(rules, init), a)
    ensures Run(rules, init, [a, b]) == Step(rules, Run(rules, init, [a]), b)
    ensures Run(rules, init, [a, b, c]) == Step(rules, Run(rules, init, [a, b]), c)
  {
    FirstCall(rules, init, a);
    NextCall(rules, init, [a], b, [a, b]);
    NextCall(rules, init, [a, b], c, [a, b, c]);
  }

  lemma FirstCall<S, I>(rules: Rules<S, I>, init: S, a: Op<I>)
    requires 0 < rules.capacity && OpOk(rules, a)
    ensures RunOk(rules, [a]) && Run(rules, init, [a]) == Step(rules, Start(rules, init), a)
  {
    RunStep(rules, init, [], a);
    assert [] + [a] == [a];
  }

  // ------------------------------------------------------------------ full depth

  // A two-player world that adds up its inputs.
  function Adding(capacity: nat): Rules<int, int> {
    Rules([0, 0], (s: int, inputs: seq<int>) => if |inputs| == 2 then s + inputs[0] + inputs[1] else s,
          (last: int, frame: Frame) => last, capacity)
  }

  // Player 0 alone, holding 5 for `frames` frames.
  function Holding(frames: nat): seq<Op<int>> {
    if frames == 0 then [] else Holding(frames - 1) + [QueueLocal(0, 5)] + [Advance]
  }

  // Player 0 has told 5 for frames 0..told, player 1 nothing.
  ghost predicate Alone(t: Trace<int, int>, capacity: nat, told: nat) {
    && Shaped(Adding(capacity), t) && t.now.enabled
    && (forall f: Frame :: f in t.known[0] <==> f < told)
    && (forall f: Frame | f < told :: t.known[0][f] == 5)
    && (0 < told ==> t.first[0] == Some(0))
    && t.known[1] == map[]
  }

  ghost predicate RanAlone(t: Trace<int, int>, capacity: nat, frames: nat) {
    && Alone(t, capacity, frames) && t.now.head == frames && t.now.pending.None?
    && forall f: Frame | f < frames :: t.log[f] == [5, 0]
  }

  lemma QueueAlone(capacity: nat, t: Trace<int, int>)
    requires Consistent(Adding(capacity), 0, t) && RanAlone(t, capacity, t.now.head)
    ensures var t' := Step(Adding(capacity), t, QueueLocal(0, 5));
            && Alone(t', capacity, t.now.head + 1)
            && t'.now == t.now.(timelines := t'.now.timelines) && t'.log == t.log
  {
    NothingToldYet(Adding(capacity), 0, t, 0);
  }

  lemma FedAlone(capacity: nat, t: Trace<int, int>)
    requires Consistent(Adding(capacity), 0, t) && Alone(t, capacity, t.now.head + 1)
    ensures InputsFor(Adding(capacity), t.now.timelines, t.now.head) == [5, 0]
  {
    var head := t.now.head;
    FedInput(Adding(capacity), 0, t, 0, head);
    FedInput(Adding(capacity), 0, t, 1, head);
    NewestTold(capacity, t, head + 1);
    assert Spans(t.now.timelines[0], t.first[0], head);
    assert Recalls(t, 0, head);
  }

  lemma NewestTold(capacity: nat, t: Trace<int, int>, told: nat)
    requires Consistent(Adding(capacity), 0, t) && Alone(t, capacity, told) && 0 < told
    ensures t.now.timelines[0].lastConfirmed == Some(told - 1)
  {
    var tl := t.now.timelines[0];
    assert Mirrors(tl, t.known[0]) && told - 1 in t.known[0];
    assert tl.ConfirmedAt(tl.End() - 1) == tl.slots[|tl.slots| - 1];
  }

  lemma {:induction false} HoldingRuns(capacity: nat, frames: nat)
    requires 0 < capacity
    ensures RunOk(Adding(capacity), Holding(frames))
    ensures RanAlone(Run(Adding(capacity), 0, Holding(frames)), capacity, frames)
  {
    if frames != 0 {
      HoldingRuns(capacity, frames - 1);
      HoldsOneMore(capacity, Holding(frames - 1), frames - 1);
    }
  }

  lemma HoldsOneMore(capacity: nat, ops: seq<Op<int>>, frames: nat)
    requires RunOk(Adding(capacity), ops) && RanAlone(Run(Adding(capacity), 0, ops), capacity, frames)
    ensures var longer := ops + [QueueLocal(0, 5)] + [Advance];
            RunOk(Adding(capacity), longer) && RanAlone(Run(Adding(capacity), 0, longer), capacity, frames + 1)
  {
    var t := Run(Adding(capacity), 0, ops);
    EveryRunIsAFold(Adding(capacity), 0, ops);
    QueueAlone(capacity, t);
    RunStep(Adding(capacity), 0, ops, QueueLocal(0, 5));
    RunStep(Adding(capacity), 0, ops + [QueueLocal(0, 5)], Advance);
    EveryRunIsAFold(Adding(capacity), 0, ops + [QueueLocal(0, 5)]);
    AdvanceIsAlone(capacity, Step(Adding(capacity), t, QueueLocal(0, 5)));
  }

  lemma AdvanceIsAlone(capacity: nat, t: Trace<int, int>)
    requires Consistent(Adding(capacity), 0, t) && Alone(t, capacity, t.now.head + 1) && t.now.pending.None?
    requires forall f: Frame | f < t.now.head :: t.log[f] == [5, 0]
    ensures RanAlone(Step(Adding(capacity), t, Advance), capacity, t.now.head + 1)
  {
    RunFrames(Adding(capacity), 0, t, Advance);
    AdvanceAlone(capacity, t, Step(Adding(capacity), t, Advance));
  }

  lemma AdvanceAlone(capacity: nat, t: Trace<int, int>, t': Trace<int, int>)
    requires Consistent(Adding(capacity), 0, t) && Alone(t, capacity, t.now.head + 1) && t.now.pending.None?
    requires forall f: Frame | f < t.now.head :: t.log[f] == [5, 0]
    requires RanFrames(Adding(capacity), t, t') && t'.now.head == t.now.head + 1
    ensures RanAlone(t', capacity, t'.now.head)
  {
    FedAlone(capacity, t);
  }

  // Both players told, player 0 up to head, and the correction of frame 0
  // pending at the full depth.
  ghost predicate AtFullDepth(t: Trace<int, int>, capacity: nat) {
    && Shaped(Adding(capacity), t) && t.now.enabled && t.now.head == capacity && t.now.pending == Some(0)
    && (forall f: Frame :: f in t.known[0] <==> f <= capacity)
    && (forall f: Frame | f <= capacity :: t.known[0][f] == 5)
    && t.known[1] == Learn(map[], 0, 9)
    && t.now.timelines[0].lastConfirmed == Some(capacity)
  }

  // Player 1's correction of frame 0, with player 0 told up to head.
  lemma CorrectionPends(capacity: nat, t: Trace<int, int>)
    requires Consistent(Adding(capacity), 0, t) && Alone(t, capacity, capacity + 1)
    requires t.now.head == capacity && t.log[0] == [5, 0]
    ensures AtFullDepth(Step(Adding(capacity), t, ConfirmRemote(1, 0, 9)), capacity)
  {
    NewestTold(capacity, t, capacity + 1);
    ConfirmEffect(Adding(capacity), 0, t, 1, 0, 9);
    StepShaped(Adding(capacity), t, ConfirmRemote(1, 0, 9));
  }

  lemma BestIsBoth(capacity: nat, t: Trace<int, int>, f: Frame)
    requires AtFullDepth(t, capacity) && f <= capacity
    ensures BestKnown(Adding(capacity), t.known[0], 0, f) == 5
    ensures BestKnown(Adding(capacity), t.known[1], 1, f) == 9
  {
    LastKnownIsNewest(t.known[1], f);
    assert 0 in t.known[1];
  }

  // What the re-simulation feeds: never more than the best, and nothing of
  // player 0 for frame 0.
  lemma FedAtFullDepth(capacity: nat, t: Trace<int, int>, f: Frame)
    requires Consistent(Adding(capacity), 0, t) && AtFullDepth(t, capacity) && f <= capacity
    ensures var row := InputsFor(Adding(capacity), t.now.timelines, f);
            |row| == 2 && row[0] <= 5 && row[1] <= 9 && (f == 0 ==> row[0] == 0)
  {
    FedInput(Adding(capacity), 0, t, 0, f);
    FedInput(Adding(capacity), 0, t, 1, f);
    BestIsBoth(capacity, t, f);
  }

  ghost predicate Below(row: seq<int>, best: seq<int>) {
    |row| == |best| == 2 && row[0] <= best[0] && row[1] <= best[1]
  }

  lemma {:induction false} LessFolds(capacity: nat, log: seq<seq<int>>, best: seq<seq<int>>)
    requires |log| == |best| && forall f: Frame | f < |log| :: Below(log[f], best[f])
    requires log != [] ==> Below(log[0], best[0]) && log[0][0] < best[0][0]
    ensures var advance := Adding(capacity).advance;
            if log == [] then Fold(advance, 0, log) == Fold(advance, 0, best) else Fold(advance, 0, log) < Fold(advance, 0, best)
  {
    if log != [] {
      LessFolds(capacity, log[..|log| - 1], best[..|best| - 1]);
      assert Below(log[|log| - 1], best[|best| - 1]);
    }
  }

  lemma RefedRows(capacity: nat, t: Trace<int, int>)
    requires Consistent(Adding(capacity), 0, t) && AtFullDepth(t, capacity)
    ensures var best := BestLog(Adding(capacity), t.known, capacity + 1);
            forall f: Frame | f <= capacity ::
              var row := InputsFor(Adding(capacity), t.now.timelines, f);
              Below(row, best[f]) && best[f] == [5, 9] && (f == 0 ==> row[0] == 0)
  {
    forall f: Frame | f <= capacity
      ensures var row := InputsFor(Adding(capacity), t.now.timelines, f);
              Below(row, [5, 9]) && (f == 0 ==> row[0] == 0)
      ensures BestLog(Adding(capacity), t.known, capacity + 1)[f] == [5, 9]
    {
      FedAtFullDepth(capacity, t, f);
      BestIsBoth(capacity, t, f);
    }
  }

  lemma CorrectedAtFullDepth(capacity: nat, t: Trace<int, int>, t': Trace<int, int>)
    requires Consistent(Adding(capacity), 0, t) && AtFullDepth(t, capacity)
    requires Consistent(Adding(capacity), 0, t') && RanFrames(Adding(capacity), t, t') && t'.now.head == capacity + 1
    ensures WronglyCorrected(t', capacity)
  {
    RefedRows(capacity, t);
    LessFolds(capacity, t'.log, BestLog(Adding(capacity), t.known, capacity + 1));
  }

  // Nothing pends, the first frame is past changing, and it ran without
  // player 0's input.
  ghost predicate WronglyCorrected(t: Trace<int, int>, capacity: nat) {
    && Shaped(Adding(capacity), t)
    && t.now.head == capacity + 1 && t.now.pending.None? && !t.now.history.Holds(0)
    && |t.log[0]| == 2 && t.log[0][0] == 0 && BestLog(Adding(capacity), t.known, t.now.head)[0] == [5, 9]
    && t.now.current < Fold(Adding(capacity).advance, 0, BestLog(Adding(capacity), t.known, t.now.head))
  }

  lemma ToldUpToHead(capacity: nat)
    requires 0 < capacity
    ensures var ops := Holding(capacity) + [QueueLocal(0, 5)];
            && RunOk(Adding(capacity), ops)
            && var t := Run(Adding(capacity), 0, ops);
            Alone(t, capacity, capacity + 1) && t.now.head == capacity && t.log[0] == [5, 0]
  {
    var ops := Holding(capacity);
    HoldingRuns(capacity, capacity);
    EveryRunIsAFold(Adding(capacity), 0, ops);
    QueueAlone(capacity, Run(Adding(capacity), 0, ops));
    RunStep(Adding(capacity), 0, ops, QueueLocal(0, 5));
  }

  lemma CorrectionArrives(capacity: nat)
    requires 0 < capacity
    ensures var ops := Holding(capacity) + [QueueLocal(0, 5)] + [ConfirmRemote(1, 0, 9)];
            RunOk(Adding(capacity), ops) && AtFullDepth(Run(Adding(capacity), 0, ops), capacity)
  {
    var ops := Holding(capacity) + [QueueLocal(0, 5)];
    ToldUpToHead(capacity);
    EveryRunIsAFold(Adding(capacity), 0, ops);
    CorrectionPends(capacity, Run(Adding(capacity), 0, ops));
    RunStep(Adding(capacity), 0, ops, ConfirmRemote(1, 0, 9));
  }

  // For every history depth: player 0 queues its input every frame, a
  // correction arrives exactly that many frames late, and the next advance
  // re-simulates without an input player 0 had told.
  lemma CorrectionAtFullDepthIsWrong(capacity: nat)
    requires 0 < capacity
    ensures var ops := Holding(capacity) + [QueueLocal(0, 5)] + [ConfirmRemote(1, 0, 9)] + [Advance];
            && RepeatsLast(Adding(capacity))
            && RunOk(Adding(capacity), ops) && WronglyCorrected(Run(Adding(capacity), 0, ops), capacity)
  {
    var ops := Holding(capacity) + [QueueLocal(0, 5)] + [ConfirmRemote(1, 0, 9)];
    CorrectionArrives(capacity);
    EveryRunIsAFold(Adding(capacity), 0, ops);
    var t := Run(Adding(capacity), 0, ops);
    RunFrames(Adding(capacity), 0, t, Advance);
    CorrectedAtFullDepth(capacity, t, Step(Adding(capacity), t, Advance));
    RunStep(Adding(capacity), 0, ops, Advance);
  }

  // ------------------------------------------------------------------ gaps

  // Every player's newest confirmation is ahead, the horizon reads zero, and
  // the one frame simulated ran on no input at all.
  lemma ZeroHorizonMayMissInputs<S, I>(rules: Rules<S, I>, init: S, mine: I, theirs: I)
    requires 0 < rules.capacity && rules.Players() == 2
    ensures var ops := [QueueLocal(0, mine), ConfirmRemote(1, 1, theirs), Advance];
            && RunOk(rules, ops)
            && var t := Run(rules, init, ops);
            && PredictionHorizon(t.now) == 0 && t.now.head == 1 && 0 !in t.known[1]
            && |t.log| == 1 && t.log[0] == [mine, rules.predictor(rules.neutral[1], 0)]
  {
    var (a, b) := (QueueLocal(0, mine), ConfirmRemote(1, 1, theirs));
    ThreeCalls(rules, init, a, b, Advance);
    EveryRunIsAFold(rules, init, [a, b]);
    TwoTold(rules, init, Start(rules, init), mine, theirs);
    var t := Run(rules, init, [a, b]);
    RunFrames(rules, init, t, Advance);
    AdvanceWithoutTheirs(rules, init, t, Step(rules, t, Advance), mine, theirs);
  }

  lemma TwoTold<S, I>(rules: Rules<S, I>, init: S, t: Trace<S, I>, mine: I, theirs: I)
    requires rules.Players() == 2 && t == Start(rules, init)
    ensures var t1 := Step(rules, t, QueueLocal(0, mine));
            var t2 := Step(rules, t1, ConfirmRemote(1, 1, theirs));
            NoneOfTheirs(rules, t2, mine, theirs)
  {
    assert Step(rules, t, QueueLocal(0, mine)).now.timelines[1] == t.now.timelines[1];
  }

  // Nothing has run; player 0 has told its first input and player 1 its second.
  ghost predicate NoneOfTheirs<S, I>(rules: Rules<S, I>, t: Trace<S, I>, mine: I, theirs: I) {
    && Shaped(rules, t) && rules.Players() == 2
    && t.now.head == 0 && t.now.pending.None? && t.now.enabled && 0 !in t.known[1]
    && t.now.timelines[0] == Timeline([Some(mine)], 0, Some(0), rules.capacity)
    && t.now.timelines[1] == Timeline([Some(theirs)], 1, Some(1), rules.capacity)
  }

  lemma AdvanceWithoutTheirs<S, I>(
    rules: Rules<S, I>, init: S, t: Trace<S, I>, t': Trace<S, I>, mine: I, theirs: I)
    requires Consistent(rules, init, t') && NoneOfTheirs(rules, t, mine, theirs)
    requires RanFrames(rules, t, t') && t'.now.head == 1
    ensures PredictionHorizon(t'.now) == 0 && 0 !in t'.known[1]
    ensures t'.log[0] == [mine, rules.predictor(rules.neutral[1], 0)]
  {
    HorizonIsZeroWhenCaughtUp(rules, init, t');
    assert InputsFor(rules, t.now.timelines, 0) == [mine, rules.predictor(rules.neutral[1], 0)];
  }

  // A later frame confirmed first: the earlier one, though nothing has run
  // yet, is dropped, and frame 0 runs on the guess from neutral.
  lemma ConfirmationBelowTheFirstIsLost<S, I>(rules: Rules<S, I>, init: S, later: I, earlier: I)
    requires 0 < rules.capacity && rules.Players() == 2
    ensures var ops := [ConfirmRemote(1, 1, later), ConfirmRemote(1, 0, earlier), Advance];
            && RunOk(rules, ops)
            && var t := Run(rules, init, ops);
            && t.now.pending.None? && 0 in t.known[1] && t.known[1][0] == earlier
            && |t.log| == 1 && |t.log[0]| == 2 && t.log[0][1] == rules.predictor(rules.neutral[1], 0)
  {
    var (a, b) := (ConfirmRemote(1, 1, later), ConfirmRemote(1, 0, earlier));
    ThreeCalls(rules, init, a, b, Advance);
    EveryRunIsAFold(rules, init, [a, b]);
    LaterFirst(rules, init, Start(rules, init), later, earlier);
    AdvanceOnDropped(rules, init, Run(rules, init, [a, b]), later, earlier);
  }

  lemma LaterFirst<S, I>(rules: Rules<S, I>, init: S, t: Trace<S, I>, later: I, earlier: I)
    requires rules.Players() == 2 && t == Start(rules, init)
    ensures var t1 := Step(rules, t, ConfirmRemote(1, 1, later));
            var t2 := Step(rules, t1, ConfirmRemote(1, 0, earlier));
            Dropped(rules, t2, later, earlier)
  {
    assert 0 in Learn(Learn(map[], 1, later), 0, earlier);
  }

  ghost predicate Dropped<S, I>(rules: Rules<S, I>, t: Trace<S, I>, later: I, earlier: I) {
    && Shaped(rules, t) && rules.Players() == 2
    && t.now.head == 0 && t.now.pending.None? && t.now.enabled
    && 0 in t.known[1] && t.known[1][0] == earlier
    && t.now.timelines[1] == Timeline([Some(later)], 1, Some(1), rules.capacity)
  }

  lemma AdvanceOnDropped<S, I>(rules: Rules<S, I>, init: S, t: Trace<S, I>, later: I, earlier: I)
    requires Consistent(rules, init, t) && Dropped(rules, t, later, earlier)
    ensures var t' := Step(rules, t, Advance);
            && t'.now.pending.None? && 0 in t'.known[1] && t'.known[1][0] == earlier
            && |t'.log| == 1 && |t'.log[0]| == 2 && t'.log[0][1] == rules.predictor(rules.neutral[1], 0)
  {
    RunFrames(rules, init, t, Advance);
  }

  // A gap and an eviction: a timeline can hold no basis for a frame at its own
  // base, so being at or above the base is not being in window.
  lemma BaseFrameMayHaveNoBasis(input: int, later: int)
    ensures var t := Timeline([], 0, None, 2).Confirm(0, input).Confirm(2, later);
            && t.base == 1 && t.Basis(1).None?
            && Mirrors(t, Learn(Learn(map[], 0, input), 2, later))
            && LastKnown(Learn(Learn(map[], 0, input), 2, later), 1) == Some(0)
  {
    var empty: Timeline<int> := Timeline([], 0, None, 2);
    ConfirmMirrors(empty, map[], 0, input);
    ConfirmMirrors(empty.Confirm(0, input), Learn(map[], 0, input), 2, later);
    assert empty.Confirm(0, input).Confirm(2, later).slots == [None, Some(later)];
  }
}
