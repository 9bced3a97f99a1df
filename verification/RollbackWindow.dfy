/**
 How a caller keeps every call exact, and what happens one step outside.
 */
module RollbackWindow {
  import opened Wrappers
  import opened FrameRings
  import opened RollbackModel
  import opened RollbackTheorems
  import opened RollbackPeers

  // ------------------------------------------------------------------ the window

  // The window still spans something told at or before `from`, or the very
  // first frame told.
  ghost predicate Anchored<I>(tl: Timeline<I>, known: Known<I>, first: Option<Frame>, from: Frame) {
    first.None? || exists g :: g in known && Spans(tl, first, g) && (g == first.value || g <= from)
  }

  ghost predicate FirstIsLowest<I>(known: Known<I>, first: Option<Frame>) {
    first.Some? ==> first.value in known && forall g | g in known :: first.value <= g
  }

  // With nothing told before the first, being anchored is exactly being
  // recalled at every frame from there on that has anything to recall.
  lemma AnchoredIsRecalled<S, I>(rules: Rules<S, I>, init: S, t: Trace<S, I>, p: nat, from: Frame)
    requires Consistent(rules, init, t) && p < rules.Players() && FirstIsLowest(t.known[p], t.first[p])
    ensures Anchored(t.now.timelines[p], t.known[p], t.first[p], from) <==>
            forall f: Frame | from <= f :: Recalls(t, p, f) || LastKnown(t.known[p], f).None?
  {
    var (tl, known, first) := (t.now.timelines[p], t.known[p], t.first[p]);
    if Anchored(tl, known, first, from) {
      forall f: Frame | from <= f && LastKnown(known, f).Some?
        ensures Recalls(t, p, f)
      {
        assert first.Some? && first.value <= LastKnown(known, f).value <= f by { NothingToldYet(rules, init, t, p); }
      }
    } else {
      var f := if from < first.value then first.value else from;
      LastKnownIsNewest(known, f);
      assert LastKnown(known, f).Some? && !Recalls(t, p, f);
    }
  }

  lemma NothingToldYet<S, I>(rules: Rules<S, I>, init: S, t: Trace<S, I>, p: nat)
    requires Consistent(rules, init, t) && p < rules.Players()
    ensures t.first[p].None? <==> t.known[p] == map[]
  {
    assert Mirrors(t.now.timelines[p], t.known[p]);
  }

  // What a caller who leaves rollback on can check before a call, from the
  // frames told so far: that no player tells a frame before its first, that a
  // confirmation is not older than the snapshots, and that with it told every
  // player is still anchored at the frame that could have to run again. Frames
  // may come out of order, with gaps, and from ahead of head.
  ghost predicate Orderly<S, I>(rules: Rules<S, I>, t: Trace<S, I>, op: Op<I>)
    requires Shaped(rules, t) && OpOk(rules, op)
  {
    match op
    case QueueLocal(p, input) => TellsInReach(t, p, t.now.head, input, Bound(t))
    case ConfirmRemote(p, c, input) =>
      var from := if c < Bound(t) then c else Bound(t);
      && t.now.head <= c + rules.capacity
      && TellsInReach(t, p, c, input, from)
      && forall q | 0 <= q < rules.Players() && q != p :: Anchored(t.now.timelines[q], t.known[q], t.first[q], from)
    case SetEnabled(on) => on
    case _ => true
  }

  ghost predicate TellsInReach<S, I>(t: Trace<S, I>, p: nat, c: Frame, input: I, from: Frame)
    requires p < |t.now.timelines| == |t.known| == |t.first|
  {
    && (t.first[p].Some? ==> t.first[p].value <= c)
    && Anchored(t.now.timelines[p].Confirm(c, input), Learn(t.known[p], c, input), FirstTold(t.first[p], c), from)
  }

  ghost predicate OrderlyRun<S, I>(rules: Rules<S, I>, init: S, ops: seq<Op<I>>)
    requires RunOk(rules, ops)
  {
    ops != [] ==>
      var before := ops[..|ops| - 1];
      OrderlyRun(rules, init, before) && Orderly(rules, Run(rules, init, before), ops[|ops| - 1])
  }

  // What orderly calls keep.
  ghost predicate InReach<S, I>(rules: Rules<S, I>, t: Trace<S, I>)
    requires Shaped(rules, t)
  {
    && t.now.enabled
    && forall p | 0 <= p < rules.Players() :: PlayerInReach(t, p, Bound(t))
  }

  ghost predicate PlayerInReach<S, I>(t: Trace<S, I>, p: nat, from: Frame)
    requires p < |t.now.timelines| == |t.known| == |t.first|
  {
    FirstIsLowest(t.known[p], t.first[p]) && Anchored(t.now.timelines[p], t.known[p], t.first[p], from)
  }

  lemma OrderlyIsExact<S, I>(rules: Rules<S, I>, init: S, t: Trace<S, I>, op: Op<I>)
    requires Consistent(rules, init, t) && InReach(rules, t) && OpOk(rules, op) && Orderly(rules, t, op)
    ensures Exact(rules, t, op) && KeepsConfirmed(rules, t, op)
  {
    forall p, f: Frame | 0 <= p < rules.Players() && Bound(t) <= f
      ensures FeedsBest(rules, t, p, f) && FeedsConfirmed(rules, t, p, f)
    {
      assert PlayerInReach(t, p, Bound(t));
      AnchoredIsRecalled(rules, init, t, p, Bound(t));
      assert f in t.known[p] ==> LastKnown(t.known[p], f).Some?;
    }
  }

  lemma StepInReach<S, I>(rules: Rules<S, I>, init: S, t: Trace<S, I>, op: Op<I>)
    requires Consistent(rules, init, t) && InReach(rules, t) && OpOk(rules, op) && Orderly(rules, t, op)
    ensures Shaped(rules, Step(rules, t, op)) && InReach(rules, Step(rules, t, op))
  {
    StepShaped(rules, t, op);
    match op
    case QueueLocal(p, input) => QueueInReach(rules, init, t, p, input);
    case ConfirmRemote(p, c, input) => ConfirmInReach(rules, init, t, p, c, input);
    case Advance => RunFrames(rules, init, t, op); RunFramesInReach(rules, t, Step(rules, t, op));
    case ResolveNow => RunFrames(rules, init, t, op); RunFramesInReach(rules, t, Step(rules, t, op));
    case SetEnabled(_) => SwitchInReach(rules, t, op);
  }

  lemma SwitchInReach<S, I>(rules: Rules<S, I>, t: Trace<S, I>, op: Op<I>)
    requires Shaped(rules, t) && InReach(rules, t) && op == SetEnabled(true)
    ensures InReach(rules, Step(rules, t, op))
  {
    forall p | 0 <= p < rules.Players()
      ensures PlayerInReach(Step(rules, t, op), p, Bound(t))
    {
      assert PlayerInReach(t, p, Bound(t));
    }
  }

  lemma LearningKeepsLowest<I>(known: Known<I>, first: Option<Frame>, c: Frame, input: I)
    requires FirstIsLowest(known, first) && if first.Some? then first.value <= c else known == map[]
    ensures FirstIsLowest(Learn(known, c, input), FirstTold(first, c))
  {}

  lemma QueueInReach<S, I>(rules: Rules<S, I>, init: S, t: Trace<S, I>, p: nat, input: I)
    requires Consistent(rules, init, t) && InReach(rules, t) && p < rules.Players() && Orderly(rules, t, QueueLocal(p, input))
    ensures InReach(rules, Step(rules, t, QueueLocal(p, input)))
  {
    assert PlayerInReach(t, p, Bound(t));
    NothingToldYet(rules, init, t, p);
    LearningKeepsLowest(t.known[p], t.first[p], t.now.head, input);
    forall q | 0 <= q < rules.Players()
      ensures PlayerInReach(Step(rules, t, QueueLocal(p, input)), q, Bound(t))
    {
      assert PlayerInReach(t, q, Bound(t));
    }
  }

  lemma ConfirmInReach<S, I>(rules: Rules<S, I>, init: S, t: Trace<S, I>, p: nat, c: Frame, input: I)
    requires Consistent(rules, init, t) && InReach(rules, t) && p < rules.Players()
    requires Orderly(rules, t, ConfirmRemote(p, c, input))
    ensures Shaped(rules, Step(rules, t, ConfirmRemote(p, c, input)))
    ensures InReach(rules, Step(rules, t, ConfirmRemote(p, c, input)))
  {
    var t' := Step(rules, t, ConfirmRemote(p, c, input));
    ConfirmEffect(rules, init, t, p, c, input);
    assert PlayerInReach(t, p, Bound(t));
    NothingToldYet(rules, init, t, p);
    LearningKeepsLowest(t.known[p], t.first[p], c, input);
    forall q | 0 <= q < rules.Players()
      ensures PlayerInReach(t', q, Bound(t'))
    {
      assert PlayerInReach(t, q, Bound(t));
      assert q != p ==> Anchored(t.now.timelines[q], t.known[q], t.first[q], Bound(t'));
    }
  }

  lemma RunFramesInReach<S, I>(rules: Rules<S, I>, t: Trace<S, I>, t': Trace<S, I>)
    requires RanFrames(rules, t, t') && InReach(rules, t)
    ensures InReach(rules, t')
  {
    forall p | 0 <= p < rules.Players()
      ensures PlayerInReach(t', p, Bound(t'))
    {
      assert PlayerInReach(t, p, Bound(t));
    }
  }

  // Orderly calls are always exact, so both main theorems apply to every run
  // of them.
  lemma {:induction false} OrderlyRunsAreExact<S, I>(rules: Rules<S, I>, init: S, ops: seq<Op<I>>)
    requires RunOk(rules, ops) && OrderlyRun(rules, init, ops)
    ensures InReach(rules, Run(rules, init, ops))
    ensures ExactRun(rules, init, ops) && KeepsConfirmedRun(rules, init, ops)
  {
    if ops != [] {
      var before := ops[..|ops| - 1];
      OrderlyRunsAreExact(rules, init, before);
      EveryRunIsAFold(rules, init, before);
      OrderlyIsExact(rules, init, Run(rules, init, before), ops[|ops| - 1]);
      StepInReach(rules, init, Run(rules, init, before), ops[|ops| - 1]);
    }
  }

  // ------------------------------------------------------------------ streams

  // Told frames 0..Next without a gap.
  ghost predicate Gapless<I>(t: Timeline<I>, known: Known<I>) {
    forall g: Frame :: g in known <==> g < Next(t)
  }

  ghost predicate InOrder<S, I>(rules: Rules<S, I>, t: Trace<S, I>)
    requires Shaped(rules, t)
  {
    forall p | 0 <= p < rules.Players() :: Gapless(t.now.timelines[p], t.known[p])
  }

  // How far back a gapless stream answers: `lead` frames past head, it answers
  // for a frame `depth` back exactly when the two together fit the history.
  lemma LeadShortensReach<S, I>(rules: Rules<S, I>, init: S, t: Trace<S, I>, p: nat, depth: nat, lead: int)
    requires Consistent(rules, init, t) && p < rules.Players() && FirstIsLowest(t.known[p], t.first[p])
    requires Gapless(t.now.timelines[p], t.known[p]) && 0 < Next(t.now.timelines[p]) == t.now.head + lead
    requires depth <= t.now.head
    ensures Recalls(t, p, t.now.head - depth) <==> depth + lead <= rules.capacity
    ensures Anchored(t.now.timelines[p], t.known[p], t.first[p], t.now.head - depth) <==> depth + lead <= rules.capacity
  {
    GaplessAnchors(t.now.timelines[p], t.known[p], t.first[p], rules.capacity, t.now.head - depth);
  }

  lemma GaplessAnchors<I>(tl: Timeline<I>, known: Known<I>, first: Option<Frame>, cap: nat, f: Frame)
    requires Mirrors(tl, known) && Opened(tl, first, cap) && Gapless(tl, known) && FirstIsLowest(known, first)
    ensures Anchored(tl, known, first, f) <==> Next(tl) <= f + cap
    ensures (exists g :: g in known && Spans(tl, first, g) && g <= f) <==> 0 < Next(tl) <= f + cap
  {
    if first.Some? {
      assert 0 in known && first == Some(0);
      var g := if f < Next(tl) then f else Next(tl) - 1;
      assert g in known;
    }
  }

  // Calls that stream: no player leaves a gap (repeats are fine) or runs a
  // full history past the frame that could have to run again, and no
  // confirmation is later than that for any player.
  ghost predicate Streams<S, I>(rules: Rules<S, I>, t: Trace<S, I>, op: Op<I>)
    requires Shaped(rules, t) && OpOk(rules, op)
  {
    match op
    case QueueLocal(p, _) => t.now.head <= Next(t.now.timelines[p]) && t.now.head < Bound(t) + rules.capacity
    case ConfirmRemote(p, c, _) =>
      && c <= Next(t.now.timelines[p]) && c < Bound(t) + rules.capacity
      && t.now.head <= c + rules.capacity
      && forall q | 0 <= q < rules.Players() :: Next(t.now.timelines[q]) <= c + rules.capacity
    case SetEnabled(on) => on
    case _ => true
  }

  ghost predicate StreamingRun<S, I>(rules: Rules<S, I>, init: S, ops: seq<Op<I>>)
    requires RunOk(rules, ops)
  {
    ops != [] ==>
      var before := ops[..|ops| - 1];
      StreamingRun(rules, init, before) && Streams(rules, Run(rules, init, before), ops[|ops| - 1])
  }

  // One more frame of a gapless stream.
  lemma TellingKeepsGapless<I>(t: Timeline<I>, known: Known<I>, c: Frame, input: I)
    requires Mirrors(t, known) && Gapless(t, known) && c <= Next(t)
    ensures Gapless(t.Confirm(c, input), Learn(known, c, input))
    ensures Next(t.Confirm(c, input)) == if c == Next(t) then c + 1 else Next(t)
  {
    assert known == map[] ==> 0 !in known;
  }

  lemma StreamIsOrderly<S, I>(rules: Rules<S, I>, init: S, t: Trace<S, I>, op: Op<I>)
    requires Consistent(rules, init, t) && InReach(rules, t) && InOrder(rules, t)
    requires OpOk(rules, op) && Streams(rules, t, op)
    ensures Orderly(rules, t, op)
  {
    forall q | 0 <= q < rules.Players()
      ensures Next(t.now.timelines[q]) <= Bound(t) + rules.capacity
    {
      assert PlayerInReach(t, q, Bound(t));
      StreamIsAnchored(rules, init, t, q, Bound(t));
    }
    match op
    case QueueLocal(p, input) => StreamTellsInReach(rules, init, t, p, t.now.head, input, Bound(t));
    case ConfirmRemote(p, c, input) =>
      var from := if c < Bound(t) then c else Bound(t);
      StreamTellsInReach(rules, init, t, p, c, input, from);
      forall q | 0 <= q < rules.Players()
        ensures Anchored(t.now.timelines[q], t.known[q], t.first[q], from)
      {
        StreamIsAnchored(rules, init, t, q, from);
      }
    case _ =>
  }

  lemma StreamIsAnchored<S, I>(rules: Rules<S, I>, init: S, t: Trace<S, I>, p: nat, from: Frame)
    requires Consistent(rules, init, t) && InReach(rules, t) && InOrder(rules, t) && p < rules.Players()
    ensures Anchored(t.now.timelines[p], t.known[p], t.first[p], from) <==>
            Next(t.now.timelines[p]) <= from + rules.capacity
  {
    assert PlayerInReach(t, p, Bound(t));
    GaplessAnchors(t.now.timelines[p], t.known[p], t.first[p], rules.capacity, from);
  }

  lemma StreamTellsInReach<S, I>(
    rules: Rules<S, I>, init: S, t: Trace<S, I>, p: nat, c: Frame, input: I, from: Frame)
    requires Consistent(rules, init, t) && InReach(rules, t) && InOrder(rules, t) && p < rules.Players()
    requires c <= Next(t.now.timelines[p]) <= from + rules.capacity && c < from + rules.capacity
    ensures TellsInReach(t, p, c, input, from)
  {
    var (tl, known, first) := (t.now.timelines[p], t.known[p], t.first[p]);
    assert PlayerInReach(t, p, Bound(t)) && Gapless(tl, known);
    NothingToldYet(rules, init, t, p);
    if first.Some? { assert 0 in known; }
    LearningKeepsLowest(known, first, c, input);
    TellingKeepsGapless(tl, known, c, input);
    ConfirmMirrors(tl, known, c, input);
    ConfirmOpens(tl, first, rules.capacity, c, input);
    GaplessAnchors(tl.Confirm(c, input), Learn(known, c, input), FirstTold(first, c), rules.capacity, from);
  }

  lemma StepInOrder<S, I>(rules: Rules<S, I>, init: S, t: Trace<S, I>, op: Op<I>)
    requires Consistent(rules, init, t) && InOrder(rules, t) && OpOk(rules, op) && Streams(rules, t, op)
    ensures Shaped(rules, Step(rules, t, op)) && InOrder(rules, Step(rules, t, op))
  {
    StepShaped(rules, t, op);
    match op
    case QueueLocal(p, input) => TellingKeepsGapless(t.now.timelines[p], t.known[p], t.now.head, input);
    case ConfirmRemote(p, c, input) => TellingKeepsGapless(t.now.timelines[p], t.known[p], c, input);
    case Advance => AdvanceShape(rules, t.now);
    case ResolveNow => ResolveShape(rules, t.now);
    case SetEnabled(_) =>
  }

  // Streaming runs are orderly, so exact, with peers ahead of head and inputs
  // up to the whole history late.
  lemma {:induction false} StreamingRunsAreOrderly<S, I>(rules: Rules<S, I>, init: S, ops: seq<Op<I>>)
    requires RunOk(rules, ops) && StreamingRun(rules, init, ops)
    ensures OrderlyRun(rules, init, ops)
    ensures InOrder(rules, Run(rules, init, ops)) && InReach(rules, Run(rules, init, ops))
  {
    if ops != [] {
      var before := ops[..|ops| - 1];
      StreamingRunsAreOrderly(rules, init, before);
      EveryRunIsAFold(rules, init, before);
      StreamIsOrderly(rules, init, Run(rules, init, before), ops[|ops| - 1]);
      StepInOrder(rules, init, Run(rules, init, before), ops[|ops| - 1]);
    }
    OrderlyRunsAreExact(rules, init, ops);
  }

  // ------------------------------------------------------------------ the horizon

  // The horizon is the least number of frames that, added to what every player
  // has told up to, reaches head: none before the first frame, and all of
  // them if some player has told nothing.
  lemma HorizonIsTheGap<S, I>(rules: Rules<S, I>, init: S, t: Trace<S, I>, frames: nat)
    requires Consistent(rules, init, t)
    ensures PredictionHorizon(t.now) <= frames <==>
            forall p | 0 <= p < rules.Players() :: t.now.head <= Next(t.now.timelines[p]) + frames
  {
    MaxLagIsLargest(t.now, |t.now.timelines|);
  }

  // So it is zero exactly when every player's newest confirmation has reached
  // the last simulated frame. With confirmations in order that is every input
  // below head; with gaps it is not.
  lemma HorizonIsZeroWhenCaughtUp<S, I>(rules: Rules<S, I>, init: S, t: Trace<S, I>)
    requires Consistent(rules, init, t)
    ensures PredictionHorizon(t.now) == 0 <==>
            forall p | 0 <= p < rules.Players() :: t.now.head <= Next(t.now.timelines[p])
    ensures InOrder(rules, t) ==>
              (PredictionHorizon(t.now) == 0 <==>
               forall p, f: Frame | 0 <= p < rules.Players() && f < t.now.head :: f in t.known[p])
  {
    HorizonIsTheGap(rules, init, t, 0);
    if InOrder(rules, t) {
      if forall p, f: Frame | 0 <= p < rules.Players() && f < t.now.head :: f in t.known[p] {
        forall p | 0 <= p < rules.Players()
          ensures t.now.head <= Next(t.now.timelines[p])
        {
          assert Gapless(t.now.timelines[p], t.known[p]);
          if 0 < t.now.head { assert t.now.head - 1 in t.known[p]; }
        }
      }
    }
  }

  // ------------------------------------------------------------------ outside the window

  // Once a player's input for head is queued, the frame `capacity` back is
  // still in the snapshots but that player's input for it is gone, and a
  // re-simulation would feed the neutral guess instead.
  lemma QueueingForgetsTheOldestSnapshotsInput<S, I>(rules: Rules<S, I>, init: S, t: Trace<S, I>, p: nat, input: I)
    requires Consistent(rules, init, t) && InReach(rules, t) && InOrder(rules, t) && p < rules.Players()
    requires rules.capacity <= t.now.head == Next(t.now.timelines[p])
    ensures var t' := Step(rules, t, QueueLocal(p, input));
            var oldest := t.now.head - rules.capacity;
            && t'.now.history.Holds(oldest) && oldest in t'.known[p]
            && !Recalls(t', p, oldest)
            && InputFor(rules, t'.now.timelines, p, oldest) == rules.predictor(rules.neutral[p], oldest)
  {
    var t' := Step(rules, t, QueueLocal(p, input));
    TellingKeepsGapless(t.now.timelines[p], t.known[p], t.now.head, input);
    QueueConsistent(rules, init, t, p, input);
    FedInput(rules, init, t', p, t.now.head - rules.capacity);
  }

  // A confirmation older than the snapshots is not acted on: the frame stays
  // as it ran, which is right exactly when it happened to run on that input.
  lemma TooLateIsRightOnlyIfItAgrees<S, I>(rules: Rules<S, I>, init: S, t: Trace<S, I>, p: nat, c: Frame, input: I)
    requires Consistent(rules, init, t) && p < rules.Players()
    requires c < t.now.head && !t.now.history.Holds(c)
    ensures var t' := Step(rules, t, ConfirmRemote(p, c, input));
            && t'.log == t.log && t'.now.pending == t.now.pending && |t'.log[c]| == rules.Players()
            && (t'.log[c][p] == BestKnown(rules, t'.known[p], p, c) <==> t.log[c][p] == input)
  {
    assert !t.now.used[p].Holds(c);
    assert c in Learn(t.known[p], c, input);
  }

  // This frame has run, and its snapshot is gone.
  ghost predicate Evicted<S, I>(t: Trace<S, I>, c: Frame) {
    c < t.now.head == |t.log| && !t.now.history.Holds(c)
  }

  // And nothing called afterwards changes the inputs it ran on.
  lemma {:induction false} EvictedRowsAreFinal<S, I>(
    rules: Rules<S, I>, init: S, ops: seq<Op<I>>, more: seq<Op<I>>, c: Frame)
    requires RunOk(rules, ops) && RunOk(rules, more) && Evicted(Run(rules, init, ops), c)
    ensures RunOk(rules, ops + more)
    ensures var (t, t') := (Run(rules, init, ops), Run(rules, init, ops + more));
            Evicted(t', c) && t'.log[c] == t.log[c]
  {
    if more == [] {
      assert ops + more == ops;
    } else {
      var (before, op) := (more[..|more| - 1], more[|more| - 1]);
      EvictedRowsAreFinal(rules, init, ops, before, c);
      EveryRunIsAFold(rules, init, ops + before);
      EvictedRowsSurviveAStep(rules, init, Run(rules, init, ops + before), op, c);
      LastOfMore(rules, init, ops, more);
    }
  }

  lemma LastOfMore<S, I>(rules: Rules<S, I>, init: S, ops: seq<Op<I>>, more: seq<Op<I>>)
    requires RunOk(rules, ops) && RunOk(rules, more) && more != [] && RunOk(rules, ops + more[..|more| - 1])
    ensures RunOk(rules, ops + more)
    ensures Run(rules, init, ops + more) == Step(rules, Run(rules, init, ops + more[..|more| - 1]), more[|more| - 1])
  {
    EndsWith(ops, more);
    NextCall(rules, init, ops + more[..|more| - 1], more[|more| - 1], ops + more);
  }

  lemma EndsWith<T>(s: seq<T>, t: seq<T>)
    requires t != []
    ensures s + t == s + t[..|t| - 1] + [t[|t| - 1]]
  {}

  lemma EvictedRowsSurviveAStep<S, I>(rules: Rules<S, I>, init: S, t: Trace<S, I>, op: Op<I>, c: Frame)
    requires Consistent(rules, init, t) && OpOk(rules, op) && Evicted(t, c)
    ensures var t' := Step(rules, t, op); Evicted(t', c) && t'.log[c] == t.log[c]
  {
    if op.Advance? || op.ResolveNow? {
      RunFrames(rules, init, t, op);
      RunFramesKeepsEvicted(rules, init, t, Step(rules, t, op), c);
    }
  }

  lemma RunFramesKeepsEvicted<S, I>(rules: Rules<S, I>, init: S, t: Trace<S, I>, t': Trace<S, I>, c: Frame)
    requires Consistent(rules, init, t) && Consistent(rules, init, t') && RanFrames(rules, t, t') && Evicted(t, c)
    ensures Evicted(t', c) && t'.log[c] == t.log[c]
  {}
}
