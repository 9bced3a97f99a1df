/**
 What rollback is for: the session that guesses, restores and re-simulates ends
 up where a session that knew every input from the start would have been.

 For the repeat-last predictor this says exactly when: which call, of any run,
 keeps every frame on the best-known inputs, as a condition on what has been told
 and run so far. RollbackPeers has the theorem for any predictor, and RollbackWindow says
 how a caller meets the condition and what happens when it does not.
 */
module RollbackTheorems {
  import opened Wrappers
  import opened FrameRings
  import opened RollbackModel

  // The guess a session with unlimited memory would make.
  function BestKnown<S, I>(rules: Rules<S, I>, known: Known<I>, p: nat, frame: Frame): I
    requires p < rules.Players()
  {
    match LastKnown(known, frame)
    case Some(g) => if g == frame then known[g] else rules.predictor(known[g], frame)
    case None => rules.predictor(rules.neutral[p], frame)
  }

  // The inputs of frames 0..head by that guess. It sees no arrival order.
  function BestLog<S, I>(rules: Rules<S, I>, known: seq<Known<I>>, head: Frame): seq<seq<I>>
    requires |known| == rules.Players()
  {
    seq(head, f requires 0 <= f < head =>
      seq(|known|, p requires 0 <= p < |known| => BestKnown(rules, known[p], p, f)))
  }

  ghost predicate RepeatsLast<S, I(!new)>(rules: Rules<S, I>) {
    forall i, f :: rules.predictor(i, f) == i
  }

  // Player `p` told something for this frame or before it that its window
  // still spans: not before the first frame it told, and less than the
  // history depth behind the newest.
  ghost predicate Recalls<S, I>(t: Trace<S, I>, p: nat, frame: Frame)
    requires p < |t.known| == |t.first| == |t.now.timelines|
  {
    exists g :: g in t.known[p] && Spans(t.now.timelines[p], t.first[p], g) && g <= frame
  }

  // What any timeline feeds any frame, for any predictor: what a session with
  // unlimited memory would, while the player is recalled, and the guess from
  // neutral after that.
  lemma FedInput<S, I>(rules: Rules<S, I>, init: S, t: Trace<S, I>, p: nat, frame: Frame)
    requires Consistent(rules, init, t) && p < rules.Players()
    ensures InputFor(rules, t.now.timelines, p, frame) ==
            if Recalls(t, p, frame) then BestKnown(rules, t.known[p], p, frame)
            else rules.predictor(rules.neutral[p], frame)
  {
    var (tl, known) := (t.now.timelines[p], t.known[p]);
    BasisIsExact(tl, known, t.first[p], rules.capacity, frame);
    if tl.slots != [] && tl.base <= frame {
      assert tl.ConfirmedAt(frame) == if frame in known then Some(known[frame]) else None;
      if tl.Basis(frame).Some? {
        assert Spans(tl, t.first[p], tl.Basis(frame).value) by { BasisInWindow(tl, frame); }
      }
    }
  }

  lemma BasisInWindow<I>(tl: Timeline<I>, frame: Frame)
    requires tl.Basis(frame).Some?
    ensures tl.slots != [] && tl.base <= tl.Basis(frame).value <= frame
  {
    NewestFromInWindow(tl, if frame < tl.End() then frame else tl.End() - 1);
  }

  // When the input fed under repeat-last is the best-known one.
  ghost predicate FeedsBest<S, I>(rules: Rules<S, I>, t: Trace<S, I>, p: nat, frame: Frame)
    requires Shaped(rules, t) && p < rules.Players()
  {
    || Recalls(t, p, frame)
    || LastKnown(t.known[p], frame).None?
    || t.known[p][LastKnown(t.known[p], frame).value] == rules.neutral[p]
  }

  lemma FedInputIsBest<S, I(!new)>(rules: Rules<S, I>, init: S, t: Trace<S, I>, p: nat, frame: Frame)
    requires Consistent(rules, init, t) && p < rules.Players() && RepeatsLast(rules)
    ensures InputFor(rules, t.now.timelines, p, frame) == BestKnown(rules, t.known[p], p, frame) <==>
            FeedsBest(rules, t, p, frame)
  {
    FedInput(rules, init, t, p, frame);
  }

  ghost predicate FeedsBestOver<S, I>(rules: Rules<S, I>, t: Trace<S, I>, from: Frame, to: Frame)
    requires Shaped(rules, t)
  {
    forall p, f: Frame | 0 <= p < rules.Players() && from <= f < to :: FeedsBest(rules, t, p, f)
  }

  // With rollback off, the frames from the pending one on stay as they ran;
  // they had better be best already.
  ghost predicate StayBest<S, I>(rules: Rules<S, I>, t: Trace<S, I>)
    requires Shaped(rules, t)
  {
    forall f: Frame | Bound(t) <= f < Refed(t) :: BestRow(rules, t.known, t.log[f], f)
  }

  // The calls a session folds in exactly. A confirmation must not be older
  // than the snapshots, unless its frame had run on that very input; and
  // before frames run, every one of them must be fed the best-known inputs.
  ghost predicate Exact<S, I>(rules: Rules<S, I>, t: Trace<S, I>, op: Op<I>)
    requires Shaped(rules, t)
  {
    match op
    case QueueLocal(_, _) => true
    case ConfirmRemote(p, frame, input) => t.now.head <= frame || t.now.history.Holds(frame) || RanOn(t, p, frame, input)
    case Advance => StayBest(rules, t) && FeedsBestOver(rules, t, Refed(t), t.now.head + 1)
    case ResolveNow => StayBest(rules, t) && FeedsBestOver(rules, t, Refed(t), t.now.head)
    case SetEnabled(_) => true
  }

  ghost predicate ExactRun<S, I>(rules: Rules<S, I>, init: S, ops: seq<Op<I>>)
    requires RunOk(rules, ops)
  {
    ops != [] ==>
      var before := ops[..|ops| - 1];
      ExactRun(rules, init, before) && Exact(rules, Run(rules, init, before), ops[|ops| - 1])
  }

  // ------------------------------------------------------------------ repeat-last

  ghost predicate Settled<S, I>(rules: Rules<S, I>, t: Trace<S, I>)
    requires Shaped(rules, t)
  {
    Bound(t) <= t.now.head && forall f: Frame | f < Bound(t) :: BestRow(rules, t.known, t.log[f], f)
  }

  ghost predicate BestRow<S, I>(rules: Rules<S, I>, known: seq<Known<I>>, row: seq<I>, f: Frame)
    requires |known| == rules.Players()
  {
    |row| == |known| && forall p | 0 <= p < |known| :: row[p] == BestKnown(rules, known[p], p, f)
  }

  // Settled, the inputs used before the pending frame are the best-known log.
  lemma SettledIsBestLog<S, I>(rules: Rules<S, I>, t: Trace<S, I>)
    requires Shaped(rules, t) && Bound(t) <= t.now.head
    ensures Settled(rules, t) <==> t.log[..Bound(t)] == BestLog(rules, t.known, Bound(t))
  {
    var (cut, best) := (t.log[..Bound(t)], BestLog(rules, t.known, Bound(t)));
    if cut == best {
      forall f: Frame | f < Bound(t)
        ensures BestRow(rules, t.known, t.log[f], f)
      {
        assert t.log[f] == cut[f] == best[f];
      }
    }
    if Settled(rules, t) {
      BestLogIs(rules, t.known, Bound(t), cut);
    }
  }

  // A confirmation changes no guess before its frame, and under repeat-last a
  // confirmation that matches the guess changes no guess at all.
  lemma LearningChangesGuesses<S, I(!new)>(rules: Rules<S, I>, known: Known<I>, p: nat, c: Frame, input: I, f: Frame)
    requires p < rules.Players()
    ensures f < c ==> BestKnown(rules, Learn(known, c, input), p, f) == BestKnown(rules, known, p, f)
    ensures RepeatsLast(rules) && input == BestKnown(rules, known, p, c) ==>
              BestKnown(rules, Learn(known, c, input), p, f) == BestKnown(rules, known, p, f)
  {
    var known' := Learn(known, c, input);
    LastKnownIsNewest(known, f);
    LastKnownIsNewest(known, c);
    LastKnownIsNewest(known', f);
    assert c in known';
    assert forall g | g in known :: g in known';
    if f < c {
      assert LastKnown(known', f) == LastKnown(known, f);
    } else if LastKnown(known, f).None? || LastKnown(known, f).value <= c {
      assert LastKnown(known', f) == Some(c);
      assert LastKnown(known, c) == LastKnown(known, f);
    } else {
      assert LastKnown(known', f) == LastKnown(known, f);
    }
  }

  // One call, both ways: it leaves every frame before the pending one on the
  // best-known inputs exactly when it is one of the exact calls.
  lemma StepSettled<S, I(!new)>(rules: Rules<S, I>, init: S, t: Trace<S, I>, op: Op<I>)
    requires Consistent(rules, init, t) && OpOk(rules, op) && RepeatsLast(rules) && Settled(rules, t)
    ensures Shaped(rules, Step(rules, t, op))
    ensures Settled(rules, Step(rules, t, op)) <==> Exact(rules, t, op)
  {
    StepShaped(rules, t, op);
    match op
    case QueueLocal(p, input) => QueueSettled(rules, t, p, input);
    case ConfirmRemote(p, c, input) => ConfirmSettled(rules, init, t, p, c, input);
    case Advance => RunFrames(rules, init, t, op); RunFramesSettled(rules, init, t, Step(rules, t, op));
    case ResolveNow => RunFrames(rules, init, t, op); RunFramesSettled(rules, init, t, Step(rules, t, op));
    case SetEnabled(on) =>
  }

  lemma QueueSettled<S, I(!new)>(rules: Rules<S, I>, t: Trace<S, I>, p: nat, input: I)
    requires Shaped(rules, t) && p < rules.Players() && Settled(rules, t)
    ensures Settled(rules, Step(rules, t, QueueLocal(p, input)))
  {
    LearningKeepsRows(rules, t, p, t.now.head, input, Bound(t));
  }

  // Learning an input keeps the rows before its frame, and all rows when its
  // frame had run on it.
  lemma LearningKeepsRows<S, I(!new)>(rules: Rules<S, I>, t: Trace<S, I>, p: nat, c: Frame, input: I, bound: Frame)
    requires Shaped(rules, t) && p < rules.Players() && bound <= |t.log|
    requires forall f: Frame | f < bound :: BestRow(rules, t.known, t.log[f], f)
    requires bound <= c || (RepeatsLast(rules) && RanOn(t, p, c, input))
    ensures forall f: Frame | f < bound :: BestRow(rules, Note(t, p, c, input).known, t.log[f], f)
  {
    if c < bound {
      assert BestRow(rules, t.known, t.log[c], c);
    }
    forall f: Frame | f < bound
      ensures BestRow(rules, Note(t, p, c, input).known, t.log[f], f)
    {
      assert BestRow(rules, t.known, t.log[f], f);
      LearningChangesGuesses(rules, t.known[p], p, c, input, f);
    }
  }

  // A confirmation that agrees with what its frame ran on changes no guess; one
  // that disagrees lowers the bound to its frame, if its frame is retained.
  lemma ConfirmSettled<S, I(!new)>(rules: Rules<S, I>, init: S, t: Trace<S, I>, p: nat, c: Frame, input: I)
    requires Consistent(rules, init, t) && p < rules.Players() && RepeatsLast(rules) && Settled(rules, t)
    ensures var op := ConfirmRemote(p, c, input); Settled(rules, Step(rules, t, op)) <==> Exact(rules, t, op)
  {
    ConfirmEffect(rules, init, t, p, c, input);
    if Exact(rules, t, ConfirmRemote(p, c, input)) {
      LearningKeepsRows(rules, t, p, c, input, Bound(Step(rules, t, ConfirmRemote(p, c, input))));
    }
  }

  lemma RunFramesSettled<S, I(!new)>(rules: Rules<S, I>, init: S, t: Trace<S, I>, t': Trace<S, I>)
    requires Consistent(rules, init, t) && Settled(rules, t) && RanFrames(rules, t, t') && RepeatsLast(rules)
    ensures Settled(rules, t') <==> StayBest(rules, t) && FeedsBestOver(rules, t, Refed(t), |t'.log|)
  {
    forall f: Frame | Refed(t) <= f < |t'.log|
      ensures BestRow(rules, t.known, t'.log[f], f) <==> FeedsBestOver(rules, t, f, f + 1)
    {
      FreshRowIsBest(rules, init, t, f);
    }
    if Settled(rules, t') {
      forall p, f: Frame | 0 <= p < rules.Players() && Refed(t) <= f < |t'.log|
        ensures FeedsBest(rules, t, p, f)
      {
        assert BestRow(rules, t.known, t'.log[f], f);
      }
      forall f: Frame | Bound(t) <= f < Refed(t)
        ensures BestRow(rules, t.known, t.log[f], f)
      {
        assert BestRow(rules, t.known, t'.log[f], f);
      }
    }
  }

  lemma FreshRowIsBest<S, I(!new)>(rules: Rules<S, I>, init: S, t: Trace<S, I>, f: Frame)
    requires Consistent(rules, init, t) && RepeatsLast(rules)
    ensures BestRow(rules, t.known, InputsFor(rules, t.now.timelines, f), f) <==> FeedsBestOver(rules, t, f, f + 1)
  {
    forall p | 0 <= p < |t.known|
      ensures InputFor(rules, t.now.timelines, p, f) == BestKnown(rules, t.known[p], p, f) <==> FeedsBest(rules, t, p, f)
    {
      FedInputIsBest(rules, init, t, p, f);
    }
  }

  // The main theorem, both ways: under repeat-last, frames stay on the
  // best-known inputs all through a run exactly when every call of it is
  // exact; and then, whenever nothing is pending, the present and every
  // retained state are the plain fold over those inputs.
  lemma {:induction false} RepeatLastIsExact<S, I(!new)>(rules: Rules<S, I>, init: S, ops: seq<Op<I>>)
    requires RunOk(rules, ops) && RepeatsLast(rules)
    ensures ExactRun(rules, init, ops) <==> SettledThroughout(rules, init, ops)
    ensures ExactRun(rules, init, ops) ==> OnBestLog(rules, init, Run(rules, init, ops))
  {
    EveryRunIsAFold(rules, init, ops);
    if ops != [] {
      var before := ops[..|ops| - 1];
      RepeatLastIsExact(rules, init, before);
      EveryRunIsAFold(rules, init, before);
      if ExactRun(rules, init, before) {
        StepSettled(rules, init, Run(rules, init, before), ops[|ops| - 1]);
      }
    }
    if ExactRun(rules, init, ops) {
      SettledIsOnBestLog(rules, init, Run(rules, init, ops));
    }
  }

  // At the start and after every call.
  ghost predicate SettledThroughout<S, I>(rules: Rules<S, I>, init: S, ops: seq<Op<I>>)
    requires RunOk(rules, ops)
  {
    && Settled(rules, Run(rules, init, ops))
    && (ops != [] ==> SettledThroughout(rules, init, ops[..|ops| - 1]))
  }

  ghost predicate OnBestLog<S, I>(rules: Rules<S, I>, init: S, t: Trace<S, I>)
    requires Shaped(rules, t)
  {
    t.now.pending.None? ==>
      && t.log == BestLog(rules, t.known, t.now.head)
      && t.now.current == Fold(rules.advance, init, BestLog(rules, t.known, t.now.head))
      && forall f: Frame | f <= t.now.head <= f + rules.capacity ::
           StateAt(t.now, f) == Some(Fold(rules.advance, init, BestLog(rules, t.known, f)))
  }

  lemma SettledIsOnBestLog<S, I>(rules: Rules<S, I>, init: S, t: Trace<S, I>)
    requires Consistent(rules, init, t) && Settled(rules, t)
    ensures OnBestLog(rules, init, t)
  {
    if t.now.pending.None? {
      forall f: Frame | f <= t.now.head
        ensures t.log[..f] == BestLog(rules, t.known, f)
        ensures t.now.head <= f + rules.capacity ==> StateAt(t.now, f) == Some(Fold(rules.advance, init, t.log[..f]))
      {
        BestLogIs(rules, t.known, f, t.log[..f]);
        StatesShown(rules, init, t, f);
      }
      assert t.log[..t.now.head] == t.log;
    }
  }

  lemma BestLogIs<S, I>(rules: Rules<S, I>, known: seq<Known<I>>, head: Frame, log: seq<seq<I>>)
    requires |known| == rules.Players() && |log| == head
    requires forall f: Frame | f < head :: BestRow(rules, known, log[f], f)
    ensures log == BestLog(rules, known, head)
  {
    var best := BestLog(rules, known, head);
    forall f: Frame | f < head
      ensures log[f] == best[f]
    {
      assert BestRow(rules, known, log[f], f);
    }
  }

  // Two exact runs of one game that were told the same inputs and stand at
  // the same frame hold the same states, whatever order the inputs came in and
  // however often either rolled back.
  lemma ArrivalOrderIsForgotten<S, I(!new)>(rules: Rules<S, I>, init: S, ops1: seq<Op<I>>, ops2: seq<Op<I>>)
    requires RunOk(rules, ops1) && ExactRun(rules, init, ops1)
    requires RunOk(rules, ops2) && ExactRun(rules, init, ops2)
    requires RepeatsLast(rules)
    requires var (t1, t2) := (Run(rules, init, ops1), Run(rules, init, ops2));
             && t1.known == t2.known && t1.now.head == t2.now.head
             && t1.now.pending.None? && t2.now.pending.None?
    ensures var (t1, t2) := (Run(rules, init, ops1), Run(rules, init, ops2));
            && t1.log == t2.log && t1.now.current == t2.now.current
            && t1.now.used == t2.now.used && t1.now.history == t2.now.history
  {
    RepeatLastIsExact(rules, init, ops1);
    RepeatLastIsExact(rules, init, ops2);
    EveryRunIsAFold(rules, init, ops1);
    EveryRunIsAFold(rules, init, ops2);
    SameLogSameRings(rules, init, Run(rules, init, ops1), Run(rules, init, ops2));
  }

  lemma SameLogSameRings<S, I>(rules: Rules<S, I>, init: S, t1: Trace<S, I>, t2: Trace<S, I>)
    requires Consistent(rules, init, t1) && Consistent(rules, init, t2) && t1.log == t2.log
    ensures t1.now.used == t2.now.used && t1.now.history == t2.now.history
  {
    forall p | 0 <= p < rules.Players()
      ensures t1.now.used[p] == t2.now.used[p]
    {
      var a, b := t1.now.used[p], t2.now.used[p];
      forall f: Frame | a.Holds(f) && b.Holds(f)
        ensures a.At(f) == b.At(f)
      {
        assert a.At(f) == t1.log[f][p];
      }
      SameRing(t1.now.used[p], t2.now.used[p], t1.now.head, rules.capacity);
    }
    SameRing(t1.now.history, t2.now.history, t1.now.head, rules.capacity);
  }

  lemma SameRing<T>(a: Ring<T>, b: Ring<T>, head: Frame, cap: nat)
    requires a.Covers(head, cap) && b.Covers(head, cap)
    requires forall f: Frame | a.Holds(f) && b.Holds(f) :: a.At(f) == b.At(f)
    ensures a == b
  {
    forall k | 0 <= k < |a.items|
      ensures a.items[k] == b.items[k]
    {
      assert a.Holds(a.base + k) && b.Holds(a.base + k);
      assert a.At(a.base + k) == b.At(a.base + k);
    }
  }
}
