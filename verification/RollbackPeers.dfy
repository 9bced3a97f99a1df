/**
 What peers are promised: whatever each one guessed, and by whatever rule, once
 every input has been confirmed in window they stand on the same world.
 */
module RollbackPeers {
  import opened Wrappers
  import opened FrameRings
  import opened RollbackModel
  import opened RollbackTheorems

  // A confirmed input is fed to its frame while the window spans it, or if
  // the guess from neutral happens to be that input.
  ghost predicate FeedsConfirmed<S, I>(rules: Rules<S, I>, t: Trace<S, I>, p: nat, f: Frame)
    requires Shaped(rules, t) && p < rules.Players()
  {
    f in t.known[p] ==>
      Spans(t.now.timelines[p], t.first[p], f) || rules.predictor(rules.neutral[p], f) == t.known[p][f]
  }

  ghost predicate FeedsConfirmedOver<S, I>(rules: Rules<S, I>, t: Trace<S, I>, from: Frame, to: Frame)
    requires Shaped(rules, t)
  {
    forall p, f: Frame | 0 <= p < rules.Players() && from <= f < to :: FeedsConfirmed(rules, t, p, f)
  }

  lemma FedInputIsConfirmed<S, I>(rules: Rules<S, I>, init: S, t: Trace<S, I>, p: nat, f: Frame)
    requires Consistent(rules, init, t) && p < rules.Players()
    ensures (f in t.known[p] ==> InputFor(rules, t.now.timelines, p, f) == t.known[p][f]) <==>
            FeedsConfirmed(rules, t, p, f)
  {
    FedInput(rules, init, t, p, f);
  }

  // With rollback off, the frames from the pending one on stay as they ran.
  ghost predicate StayHonoured<S, I>(rules: Rules<S, I>, t: Trace<S, I>)
    requires Shaped(rules, t)
  {
    forall f: Frame | Bound(t) <= f < Refed(t) :: HonouredRow(t.known, t.log[f], f)
  }

  // The weaker condition that confirmed frames need, for any predictor.
  ghost predicate KeepsConfirmed<S, I>(rules: Rules<S, I>, t: Trace<S, I>, op: Op<I>)
    requires Shaped(rules, t)
  {
    match op
    case QueueLocal(_, _) => true
    case ConfirmRemote(p, frame, input) => t.now.head <= frame || t.now.history.Holds(frame) || RanOn(t, p, frame, input)
    case Advance => StayHonoured(rules, t) && FeedsConfirmedOver(rules, t, Refed(t), t.now.head + 1)
    case ResolveNow => StayHonoured(rules, t) && FeedsConfirmedOver(rules, t, Refed(t), t.now.head)
    case SetEnabled(_) => true
  }

  ghost predicate KeepsConfirmedRun<S, I>(rules: Rules<S, I>, init: S, ops: seq<Op<I>>)
    requires RunOk(rules, ops)
  {
    ops != [] ==>
      var before := ops[..|ops| - 1];
      KeepsConfirmedRun(rules, init, before) && KeepsConfirmed(rules, Run(rules, init, before), ops[|ops| - 1])
  }

  // Below the bound, every frame ran on the confirmed input of every player
  // that has confirmed it.
  ghost predicate Honoured<S, I>(rules: Rules<S, I>, t: Trace<S, I>)
    requires Shaped(rules, t)
  {
    Bound(t) <= t.now.head && forall f: Frame | f < Bound(t) :: HonouredRow(t.known, t.log[f], f)
  }

  ghost predicate HonouredRow<I>(known: seq<Known<I>>, row: seq<I>, f: Frame) {
    |row| == |known| && forall p | 0 <= p < |known| && f in known[p] :: row[p] == known[p][f]
  }

  // One call, both ways.
  lemma StepHonoured<S, I>(rules: Rules<S, I>, init: S, t: Trace<S, I>, op: Op<I>)
    requires Consistent(rules, init, t) && OpOk(rules, op) && Honoured(rules, t)
    ensures Shaped(rules, Step(rules, t, op))
    ensures Honoured(rules, Step(rules, t, op)) <==> KeepsConfirmed(rules, t, op)
  {
    StepShaped(rules, t, op);
    match op
    case QueueLocal(p, input) => QueueHonoured(rules, t, p, input);
    case ConfirmRemote(p, c, input) => ConfirmHonoured(rules, init, t, p, c, input);
    case Advance => RunFrames(rules, init, t, op); RunFramesHonoured(rules, init, t, Step(rules, t, op));
    case ResolveNow => RunFrames(rules, init, t, op); RunFramesHonoured(rules, init, t, Step(rules, t, op));
    case SetEnabled(on) =>
  }

  lemma QueueHonoured<S, I>(rules: Rules<S, I>, t: Trace<S, I>, p: nat, input: I)
    requires Shaped(rules, t) && p < rules.Players() && Honoured(rules, t)
    ensures Honoured(rules, Step(rules, t, QueueLocal(p, input)))
  {
    LearningKeepsHonour(rules, t, p, t.now.head, input, Bound(t));
  }

  lemma LearningKeepsHonour<S, I>(rules: Rules<S, I>, t: Trace<S, I>, p: nat, c: Frame, input: I, bound: Frame)
    requires Shaped(rules, t) && p < rules.Players() && bound <= |t.log|
    requires forall f: Frame | f < bound :: HonouredRow(t.known, t.log[f], f)
    requires bound <= c || RanOn(t, p, c, input)
    ensures forall f: Frame | f < bound :: HonouredRow(Note(t, p, c, input).known, t.log[f], f)
  {
    forall f: Frame | f < bound
      ensures HonouredRow(Note(t, p, c, input).known, t.log[f], f)
    {
      assert HonouredRow(t.known, t.log[f], f);
    }
  }

  lemma ConfirmHonoured<S, I>(rules: Rules<S, I>, init: S, t: Trace<S, I>, p: nat, c: Frame, input: I)
    requires Consistent(rules, init, t) && p < rules.Players() && Honoured(rules, t)
    ensures var op := ConfirmRemote(p, c, input); Honoured(rules, Step(rules, t, op)) <==> KeepsConfirmed(rules, t, op)
  {
    ConfirmEffect(rules, init, t, p, c, input);
    if KeepsConfirmed(rules, t, ConfirmRemote(p, c, input)) {
      LearningKeepsHonour(rules, t, p, c, input, Bound(Step(rules, t, ConfirmRemote(p, c, input))));
    }
  }

  lemma RunFramesHonoured<S, I>(rules: Rules<S, I>, init: S, t: Trace<S, I>, t': Trace<S, I>)
    requires Consistent(rules, init, t) && Honoured(rules, t) && RanFrames(rules, t, t')
    ensures Honoured(rules, t') <==> StayHonoured(rules, t) && FeedsConfirmedOver(rules, t, Refed(t), |t'.log|)
  {
    forall f: Frame | Refed(t) <= f < |t'.log|
      ensures HonouredRow(t.known, t'.log[f], f) <==> FeedsConfirmedOver(rules, t, f, f + 1)
    {
      FreshRowHonours(rules, init, t, f);
    }
    if Honoured(rules, t') {
      forall p, f: Frame | 0 <= p < rules.Players() && Refed(t) <= f < |t'.log|
        ensures FeedsConfirmed(rules, t, p, f)
      {
        assert HonouredRow(t.known, t'.log[f], f);
      }
      forall f: Frame | Bound(t) <= f < Refed(t)
        ensures HonouredRow(t.known, t.log[f], f)
      {
        assert HonouredRow(t.known, t'.log[f], f);
      }
    }
  }

  lemma FreshRowHonours<S, I>(rules: Rules<S, I>, init: S, t: Trace<S, I>, f: Frame)
    requires Consistent(rules, init, t)
    ensures HonouredRow(t.known, InputsFor(rules, t.now.timelines, f), f) <==> FeedsConfirmedOver(rules, t, f, f + 1)
  {
    forall p | 0 <= p < |t.known|
      ensures (f in t.known[p] ==> InputFor(rules, t.now.timelines, p, f) == t.known[p][f]) <==>
              FeedsConfirmed(rules, t, p, f)
    {
      FedInputIsConfirmed(rules, init, t, p, f);
    }
  }

  // For any predictor, both ways: all through a run, the frames before the
  // pending one have run on every confirmed input exactly when every call
  // kept them.
  lemma {:induction false} EveryRunHonours<S, I>(rules: Rules<S, I>, init: S, ops: seq<Op<I>>)
    requires RunOk(rules, ops)
    ensures KeepsConfirmedRun(rules, init, ops) <==> HonouredThroughout(rules, init, ops)
  {
    EveryRunIsAFold(rules, init, ops);
    if ops != [] {
      var before := ops[..|ops| - 1];
      EveryRunHonours(rules, init, before);
      EveryRunIsAFold(rules, init, before);
      if KeepsConfirmedRun(rules, init, before) {
        StepHonoured(rules, init, Run(rules, init, before), ops[|ops| - 1]);
      }
    }
  }

  // At the start and after every call.
  ghost predicate HonouredThroughout<S, I>(rules: Rules<S, I>, init: S, ops: seq<Op<I>>)
    requires RunOk(rules, ops)
  {
    && Honoured(rules, Run(rules, init, ops))
    && (ops != [] ==> HonouredThroughout(rules, init, ops[..|ops| - 1]))
  }

  // This session has been told exactly `truth` for frames 0..|truth|, by every
  // player. It may know more.
  ghost predicate Told<S, I>(t: Trace<S, I>, truth: seq<seq<I>>) {
    forall f: Frame | f < |truth| ::
      |truth[f]| == |t.known| && forall p | 0 <= p < |t.known| :: f in t.known[p] && t.known[p][f] == truth[f][p]
  }

  // Every frame told in full, not behind a pending correction and at most
  // `capacity` before head is shown, as the ground-truth fold.
  ghost predicate ShowsTruth<S, I>(rules: Rules<S, I>, init: S, t: Trace<S, I>, truth: seq<seq<I>>) {
    forall f: Frame | f <= |truth| && f <= Bound(t) && t.now.head <= f + rules.capacity ::
      StateAt(t.now, f) == Some(Fold(rules.advance, init, truth[..f]))
  }

  lemma HonouredIsTheTruth<S, I>(rules: Rules<S, I>, init: S, t: Trace<S, I>, truth: seq<seq<I>>, f: Frame)
    requires Consistent(rules, init, t) && Honoured(rules, t) && Told(t, truth)
    requires f <= |truth| && f <= Bound(t) && t.now.head <= f + rules.capacity
    ensures StateAt(t.now, f) == Some(Fold(rules.advance, init, truth[..f]))
  {
    StatesShown(rules, init, t, f);
    forall g: Frame | g < f
      ensures t.log[g] == truth[g]
    {
      assert HonouredRow(t.known, t.log[g], g);
    }
    assert t.log[..f] == truth[..f];
  }

  // For any predictor: such a frame is the ground-truth fold.
  lemma ConfirmedFramesAreTheTruth<S, I>(rules: Rules<S, I>, init: S, ops: seq<Op<I>>, truth: seq<seq<I>>)
    requires RunOk(rules, ops) && KeepsConfirmedRun(rules, init, ops)
    requires Told(Run(rules, init, ops), truth)
    ensures ShowsTruth(rules, init, Run(rules, init, ops), truth)
  {
    EveryRunIsAFold(rules, init, ops);
    EveryRunHonours(rules, init, ops);
    var t := Run(rules, init, ops);
    forall f: Frame | f <= |truth| && f <= Bound(t) && t.now.head <= f + rules.capacity
      ensures StateAt(t.now, f) == Some(Fold(rules.advance, init, truth[..f]))
    {
      HonouredIsTheTruth(rules, init, t, truth, f);
    }
  }

  // Both show the same state at every frame told in full, not behind a pending
  // correction of either and within both depths; and they stand on the same
  // present, the ground truth, when that is where both have got to.
  ghost predicate Agree<S, I>(mine: Rules<S, I>, yours: Rules<S, I>, init: S,
                              a: Trace<S, I>, b: Trace<S, I>, truth: seq<seq<I>>) {
    && (forall f: Frame | f <= |truth| && f <= Bound(a) && f <= Bound(b) &&
                          a.now.head <= f + mine.capacity && b.now.head <= f + yours.capacity ::
          StateAt(a.now, f) == StateAt(b.now, f) == Some(Fold(mine.advance, init, truth[..f])))
    && (a.now.head == b.now.head == |truth| && a.now.pending.None? && b.now.pending.None? ==>
          a.now.current == b.now.current == Fold(mine.advance, init, truth))
  }

  // Two peers with their own local player, delays, predictor, neutral inputs
  // and history depth: every frame within both depths that both have confirmed
  // is the same world, the present included.
  lemma PeersAgree<S, I>(mine: Rules<S, I>, yours: Rules<S, I>, init: S,
                         myOps: seq<Op<I>>, yourOps: seq<Op<I>>, truth: seq<seq<I>>)
    requires mine.advance == yours.advance
    requires RunOk(mine, myOps) && KeepsConfirmedRun(mine, init, myOps)
    requires RunOk(yours, yourOps) && KeepsConfirmedRun(yours, init, yourOps)
    requires Told(Run(mine, init, myOps), truth) && Told(Run(yours, init, yourOps), truth)
    ensures Agree(mine, yours, init, Run(mine, init, myOps), Run(yours, init, yourOps), truth)
  {
    ConfirmedFramesAreTheTruth(mine, init, myOps, truth);
    ConfirmedFramesAreTheTruth(yours, init, yourOps, truth);
    TruthIsShared(mine, yours, init, Run(mine, init, myOps), Run(yours, init, yourOps), truth);
  }

  lemma TruthIsShared<S, I>(mine: Rules<S, I>, yours: Rules<S, I>, init: S,
                            a: Trace<S, I>, b: Trace<S, I>, truth: seq<seq<I>>)
    requires mine.advance == yours.advance
    requires ShowsTruth(mine, init, a, truth) && ShowsTruth(yours, init, b, truth)
    ensures Agree(mine, yours, init, a, b, truth)
  {
    assert truth[..|truth|] == truth;
    assert StateAt(a.now, a.now.head) == Some(a.now.current);
    assert StateAt(b.now, b.now.head) == Some(b.now.current);
  }

  // ------------------------------------------------------------------ detection

  // An input that ran on a guess its confirmation disproves is not before the
  // pending correction.
  ghost predicate GuessPends<S, I>(t: Trace<S, I>, p: nat, f: Frame)
    requires p < |t.now.timelines| == |t.now.used|
  {
    var (confirmed, used) := (t.now.timelines[p].ConfirmedAt(f), t.now.used[p]);
    used.Holds(f) && confirmed.Some? && confirmed.value != used.At(f) ==>
      t.now.pending.Some? && t.now.pending.value <= f
  }

  ghost predicate WrongGuessesPend<S, I>(t: Trace<S, I>)
    requires |t.now.timelines| == |t.now.used|
  {
    forall p, f: Frame | 0 <= p < |t.now.used| :: GuessPends(t, p, f)
  }

  // While rollback stays on.
  lemma {:induction false} NoWrongGuessIsMissed<S, I>(rules: Rules<S, I>, init: S, ops: seq<Op<I>>)
    requires RunOk(rules, ops) && SetEnabled(false) !in ops
    ensures var t := Run(rules, init, ops); t.now.enabled && WrongGuessesPend(t)
  {
    if ops != [] {
      var before := ops[..|ops| - 1];
      assert ops == before + [ops[|ops| - 1]];
      NoWrongGuessIsMissed(rules, init, before);
      EveryRunIsAFold(rules, init, before);
      StepKeepsGuessesPending(rules, init, Run(rules, init, before), ops[|ops| - 1]);
    }
  }

  lemma StepKeepsGuessesPending<S, I>(rules: Rules<S, I>, init: S, t: Trace<S, I>, op: Op<I>)
    requires Consistent(rules, init, t) && OpOk(rules, op) && op != SetEnabled(false)
    requires t.now.enabled && WrongGuessesPend(t)
    ensures var t' := Step(rules, t, op); Shaped(rules, t') && t'.now.enabled && WrongGuessesPend(t')
  {
    StepShaped(rules, t, op);
    match op
    case QueueLocal(q, input) => QueueKeepsGuessesPending(rules, init, t, q, input);
    case ConfirmRemote(q, c, input) => ConfirmKeepsGuessesPending(rules, init, t, q, c, input);
    case SetEnabled(_) => assert forall p, f: Frame | 0 <= p < |t.now.used| :: GuessPends(t, p, f);
    case Advance => RunFrames(rules, init, t, op); RunFramesOnConfirmed(rules, init, t, Step(rules, t, op));
    case ResolveNow => RunFrames(rules, init, t, op); RunFramesOnConfirmed(rules, init, t, Step(rules, t, op));
  }

  lemma QueueKeepsGuessesPending<S, I>(rules: Rules<S, I>, init: S, t: Trace<S, I>, q: nat, input: I)
    requires Consistent(rules, init, t) && q < rules.Players() && WrongGuessesPend(t)
    ensures WrongGuessesPend(Step(rules, t, QueueLocal(q, input)))
  {
    var t' := Step(rules, t, QueueLocal(q, input));
    forall p, f: Frame | 0 <= p < |t'.now.used|
      ensures GuessPends(t', p, f)
    {
      assert GuessPends(t, p, f);
      ConfirmTouchesOneFrame(t.now.timelines[q], t.now.head, input, f);
    }
  }

  lemma ConfirmKeepsGuessesPending<S, I>(rules: Rules<S, I>, init: S, t: Trace<S, I>, q: nat, c: Frame, input: I)
    requires Consistent(rules, init, t) && q < rules.Players() && WrongGuessesPend(t)
    ensures WrongGuessesPend(Step(rules, t, ConfirmRemote(q, c, input)))
  {
    var t' := Step(rules, t, ConfirmRemote(q, c, input));
    ConfirmEffect(rules, init, t, q, c, input);
    forall p, f: Frame | 0 <= p < |t'.now.used|
      ensures GuessPends(t', p, f)
    {
      assert GuessPends(t, p, f);
      ConfirmTouchesOneFrame(t.now.timelines[q], c, input, f);
    }
  }

  // Frames that ran again, or for the first time, ran on what is confirmed
  // now; the others were right already.
  lemma RunFramesOnConfirmed<S, I>(rules: Rules<S, I>, init: S, t: Trace<S, I>, t': Trace<S, I>)
    requires Consistent(rules, init, t) && Consistent(rules, init, t') && RanFrames(rules, t, t')
    requires t.now.enabled && WrongGuessesPend(t)
    ensures WrongGuessesPend(t')
  {
    forall p, f: Frame | 0 <= p < |t'.now.used|
      ensures GuessPends(t', p, f)
    {
      assert GuessPends(t, p, f);
      assert t'.now.used[p].Holds(f) ==> t'.now.used[p].At(f) == t'.log[f][p];
      if t'.now.used[p].Holds(f) && f < Bound(t) {
        assert t.now.used[p].Holds(f) && t.now.used[p].At(f) == t.log[f][p];
      }
    }
  }

  lemma ConfirmTouchesOneFrame<I>(t: Timeline<I>, c: Frame, input: I, f: Frame)
    requires t.Ok()
    ensures var t' := t.Confirm(c, input);
            t'.ConfirmedAt(f).Some? ==> t'.ConfirmedAt(f) == if f == c then Some(input) else t.ConfirmedAt(f)
  {
    if t.slots != [] && t.base <= c && t.Confirm(c, input).base <= f {
      ConfirmChangesOneFrame(t, c, input, f);
    }
  }
}
