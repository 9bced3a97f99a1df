/**
 A rollback session as a value: what each call does to it, and what a whole run
 of calls has made of it.

 `Session` mirrors the fields of the session class, `Trace` adds what the real
 rings forget: every input ever confirmed, the frame each player told first, and
 the inputs each frame was last simulated with.
 */
module RollbackModel {
  import opened Wrappers
  import opened FrameRings

  // What the application supplies: the neutral inputs, the deterministic step,
  // the predictor and the history depth.
  datatype Rules<!S, !I> = Rules(neutral: seq<I>, advance: (S, seq<I>) -> S, predictor: (I, Frame) -> I, capacity: nat)
  {
    function Players(): nat {
      |neutral|
    }
  }

  // A configured depth of zero means one.
  function Configured<S, I>(game: Rules<S, I>): (rules: Rules<S, I>)
    ensures 0 < game.capacity ==> rules == game
    ensures game.capacity == 0 ==> rules == game.(capacity := 1)
  {
    game.(capacity := if game.capacity < 1 then 1 else game.capacity)
  }

  datatype Session<S, I> = Session(
    history: Ring<S>,
    used: seq<Ring<I>>,
    timelines: seq<Timeline<I>>,
    current: S,
    head: Frame,
    enabled: bool,
    pending: Option<Frame>,
    lastRollback: nat,
    maxRollback: nat,
    rollbacks: nat)

  function NewSession<S, I>(rules: Rules<S, I>, init: S): Session<S, I> {
    Session(
      Ring([], 0, rules.capacity, 0),
      seq(rules.Players(), _ => Ring([], 0, rules.capacity, 0)),
      seq(rules.Players(), _ => Timeline([], 0, None, rules.capacity)),
      init, 0, true, None, 0, 0, 0)
  }

  predicate HasPlayers<S, I>(rules: Rules<S, I>, s: Session<S, I>) {
    |s.used| == |s.timelines| == rules.Players()
  }

  // The session's input for a player and frame: confirmed, else predicted from
  // the last confirmed input it still holds, else from neutral.
  function InputFor<S, I>(rules: Rules<S, I>, timelines: seq<Timeline<I>>, p: nat, frame: Frame): I
    requires p < |timelines| == rules.Players()
  {
    match timelines[p].ConfirmedAt(frame)
    case Some(input) => input
    case None =>
      match timelines[p].LastConfirmedAtOrBefore(frame)
      case Some(basis) => rules.predictor(basis, frame)
      case None => rules.predictor(rules.neutral[p], frame)
  }

  function InputsFor<S, I>(rules: Rules<S, I>, timelines: seq<Timeline<I>>, frame: Frame): seq<I>
    requires |timelines| == rules.Players()
  {
    seq(|timelines|, p requires 0 <= p < |timelines| => InputFor(rules, timelines, p, frame))
  }

  function Simulate<S, I>(rules: Rules<S, I>, s: Session<S, I>, frame: Frame): Session<S, I>
    requires HasPlayers(rules, s)
  {
    var inputs := InputsFor(rules, s.timelines, frame);
    var used := seq(|s.used|, p requires 0 <= p < |s.used| => s.used[p].Save(frame, inputs[p]));
    s.(history := s.history.Save(frame, s.current), used := used, current := rules.advance(s.current, inputs))
  }

  function Resimulate<S, I>(rules: Rules<S, I>, s: Session<S, I>, frame: Frame, target: Frame): Session<S, I>
    requires HasPlayers(rules, s)
    decreases target - frame
  {
    if frame >= target then s else Resimulate(rules, Simulate(rules, s, frame), frame + 1, target)
  }

  // The frame a resolve would restore, if it would restore any.
  function RollbackTo<S, I>(s: Session<S, I>): Option<Frame> {
    if s.pending.None? || !s.enabled || s.head <= s.pending.value || s.history.Oldest().None? then None
    else
      var oldest := s.history.Oldest().value;
      var earliest := if s.pending.value < oldest then oldest else s.pending.value;
      if s.history.Holds(earliest) then Some(earliest) else None
  }

  // Restores `earliest` and runs every frame from there to head again.
  function RollBack<S, I>(rules: Rules<S, I>, s: Session<S, I>, earliest: Frame): Session<S, I>
    requires HasPlayers(rules, s) && s.history.Holds(earliest)
  {
    var depth := if earliest < s.head then s.head - earliest else 0;
    var deepest := if s.maxRollback < depth then depth else s.maxRollback;
    var s' := Resimulate(rules, s.(current := s.history.At(earliest)), earliest, s.head);
    s'.(lastRollback := depth, maxRollback := deepest, rollbacks := s.rollbacks + 1)
  }

  function Resolve<S, I>(rules: Rules<S, I>, s: Session<S, I>): Session<S, I>
    requires HasPlayers(rules, s)
  {
    var cleared := s.(pending := None, lastRollback := 0);
    match RollbackTo(s)
    case None => cleared
    case Some(earliest) => RollBack(rules, cleared, earliest)
  }

  function AdvanceFrame<S, I>(rules: Rules<S, I>, s: Session<S, I>): Session<S, I>
    requires HasPlayers(rules, s)
  {
    ResolveShape(rules, s);
    var s' := Resolve(rules, s);
    Simulate(rules, s', s'.head).(head := s'.head + 1)
  }

  function QueueLocalInput<S, I>(s: Session<S, I>, p: nat, input: I): Session<S, I>
    requires p < |s.timelines|
  {
    s.(timelines := s.timelines[p := s.timelines[p].Confirm(s.head, input)])
  }

  function ConfirmRemoteInput<S, I(==)>(s: Session<S, I>, p: nat, frame: Frame, input: I): Session<S, I>
    requires p < |s.timelines| == |s.used|
  {
    var s' := s.(timelines := s.timelines[p := s.timelines[p].Confirm(frame, input)]);
    if frame < s.head && s.used[p].Holds(frame) && s.used[p].At(frame) != input then
      s'.(pending := Some(if s.pending.Some? && s.pending.value < frame then s.pending.value else frame))
    else
      s'
  }

  function StateAt<S, I>(s: Session<S, I>, frame: Frame): Option<S> {
    if frame == s.head then Some(s.current) else s.history.Restore(frame)
  }

  // How many simulated frames player `p` is behind.
  function Lag<S, I>(s: Session<S, I>, p: nat): nat
    requires p < |s.timelines|
  {
    match s.timelines[p].lastConfirmed
    case None => s.head
    case Some(c) => if s.head <= c + 1 then 0 else s.head - 1 - c
  }

  // The largest lag among the first `n` players.
  function MaxLag<S, I>(s: Session<S, I>, n: nat): nat
    requires n <= |s.timelines|
  {
    if n == 0 then 0
    else
      var rest := MaxLag(s, n - 1);
      if Lag(s, n - 1) < rest then rest else Lag(s, n - 1)
  }

  function PredictionHorizon<S, I>(s: Session<S, I>): nat {
    if s.head == 0 then 0 else MaxLag(s, |s.timelines|)
  }

  // ------------------------------------------------------------------ runs

  // The calls a run is made of. `ResolveNow` is the first half of `Advance`,
  // which no caller reaches alone; runs include it so that what they keep is
  // kept half way through as well.
  datatype Op<I> =
    | QueueLocal(player: nat, input: I)
    | ConfirmRemote(player: nat, frame: Frame, input: I)
    | Advance
    | ResolveNow
    | SetEnabled(on: bool)

  // A session, everything each player ever told it, the frame each told it
  // first, and the inputs each frame below head was last simulated with.
  datatype Trace<S, I> = Trace(now: Session<S, I>, known: seq<Known<I>>, first: seq<Option<Frame>>, log: seq<seq<I>>)

  predicate OpOk<S, I>(rules: Rules<S, I>, op: Op<I>) {
    op.QueueLocal? || op.ConfirmRemote? ==> op.player < rules.Players()
  }

  predicate Shaped<S, I>(rules: Rules<S, I>, t: Trace<S, I>) {
    HasPlayers(rules, t.now) && |t.known| == |t.first| == rules.Players() && |t.log| == t.now.head
  }

  function Rows<S, I>(rules: Rules<S, I>, timelines: seq<Timeline<I>>, from: Frame, to: Frame): seq<seq<I>>
    requires |timelines| == rules.Players()
  {
    if to <= from then []
    else seq(to - from, k requires 0 <= k < to - from => InputsFor(rules, timelines, from + k))
  }

  function ResolvedLog<S, I>(rules: Rules<S, I>, t: Trace<S, I>): seq<seq<I>>
    requires Shaped(rules, t)
  {
    match RollbackTo(t.now)
    case None => t.log
    case Some(e) =>
      if e < t.now.head then t.log[..e] + Rows(rules, t.now.timelines, e, t.now.head) else t.log
  }

  function Note<S, I>(t: Trace<S, I>, p: nat, frame: Frame, input: I): Trace<S, I>
    requires p < |t.known| == |t.first|
  {
    t.(known := t.known[p := Learn(t.known[p], frame, input)], first := t.first[p := FirstTold(t.first[p], frame)])
  }

  function Step<S, I(==)>(rules: Rules<S, I>, t: Trace<S, I>, op: Op<I>): Trace<S, I>
    requires Shaped(rules, t) && OpOk(rules, op)
  {
    match op
    case QueueLocal(p, input) =>
      Note(t, p, t.now.head, input).(now := QueueLocalInput(t.now, p, input))
    case ConfirmRemote(p, frame, input) =>
      Note(t, p, frame, input).(now := ConfirmRemoteInput(t.now, p, frame, input))
    case Advance =>
      t.(now := AdvanceFrame(rules, t.now), log := ResolvedLog(rules, t) + [InputsFor(rules, t.now.timelines, t.now.head)])
    case ResolveNow =>
      t.(now := Resolve(rules, t.now), log := ResolvedLog(rules, t))
    case SetEnabled(on) =>
      t.(now := t.now.(enabled := on))
  }

  function Start<S, I>(rules: Rules<S, I>, init: S): Trace<S, I> {
    Trace(NewSession(rules, init), seq(rules.Players(), _ => map[]), seq(rules.Players(), _ => None), [])
  }

  // A run is any sequence of calls naming players that exist.
  predicate RunOk<S, I>(rules: Rules<S, I>, ops: seq<Op<I>>) {
    0 < rules.capacity && forall k | 0 <= k < |ops| :: OpOk(rules, ops[k])
  }

  function Run<S, I(==)>(rules: Rules<S, I>, init: S, ops: seq<Op<I>>): (t: Trace<S, I>)
    requires RunOk(rules, ops)
    ensures Shaped(rules, t)
  {
    if ops == [] then Start(rules, init)
    else
      var t := Run(rules, init, ops[..|ops| - 1]);
      var op := ops[|ops| - 1];
      StepShaped(rules, t, op);
      Step(rules, t, op)
  }

  lemma {:induction false} ResimulateShape<S, I>(rules: Rules<S, I>, s: Session<S, I>, frame: Frame, target: Frame)
    requires HasPlayers(rules, s)
    ensures var s' := Resimulate(rules, s, frame, target);
            && HasPlayers(rules, s') && s'.timelines == s.timelines
            && s'.head == s.head && s'.pending == s.pending && s'.enabled == s.enabled
            && s'.maxRollback == s.maxRollback && s'.rollbacks == s.rollbacks
    decreases target - frame
  {
    if frame < target {
      ResimulateShape(rules, Simulate(rules, s, frame), frame + 1, target);
    }
  }

  lemma ResolveShape<S, I>(rules: Rules<S, I>, s: Session<S, I>)
    requires HasPlayers(rules, s)
    ensures var s' := Resolve(rules, s);
            && HasPlayers(rules, s') && s'.timelines == s.timelines
            && s'.head == s.head && s'.pending == None && s'.enabled == s.enabled
  {
    if RollbackTo(s).Some? {
      var e := RollbackTo(s).value;
      ResimulateShape(rules, s.(pending := None, lastRollback := 0, current := s.history.At(e)), e, s.head);
    }
  }

  lemma StepShaped<S, I>(rules: Rules<S, I>, t: Trace<S, I>, op: Op<I>)
    requires Shaped(rules, t) && OpOk(rules, op)
    ensures Shaped(rules, Step(rules, t, op))
  {
    ResolveShape(rules, t.now);
  }

  // One more call on a run.
  lemma RunStep<S, I>(rules: Rules<S, I>, init: S, ops: seq<Op<I>>, op: Op<I>)
    requires RunOk(rules, ops) && OpOk(rules, op)
    ensures RunOk(rules, ops + [op]) && Run(rules, init, ops + [op]) == Step(rules, Run(rules, init, ops), op)
  {
    assert (ops + [op])[..|ops|] == ops;
  }

  lemma NextCall<S, I>(rules: Rules<S, I>, init: S, ops: seq<Op<I>>, op: Op<I>, longer: seq<Op<I>>)
    requires RunOk(rules, ops) && OpOk(rules, op) && longer == ops + [op]
    ensures RunOk(rules, longer) && Run(rules, init, longer) == Step(rules, Run(rules, init, ops), op)
  {
    RunStep(rules, init, ops, op);
  }

  // ------------------------------------------------------------------ every run

  // The plain left fold: no rings, no rollback.
  function Fold<S, I>(advance: (S, seq<I>) -> S, init: S, log: seq<seq<I>>): S {
    if log == [] then init
    else advance(Fold(advance, init, log[..|log| - 1]), log[|log| - 1])
  }

  // The rings cover `head`, and agree with `log` on every frame below |log|.
  // Mid-re-simulation |log| is the frame about to run; otherwise it is head.
  ghost predicate Tracks<S, I>(rules: Rules<S, I>, init: S, s: Session<S, I>, log: seq<seq<I>>, head: Frame) {
    && HasPlayers(rules, s)
    && s.history.Covers(head, rules.capacity)
    && (forall p | 0 <= p < rules.Players() :: s.used[p].Covers(head, rules.capacity))
    && s.history.base <= |log| <= head
    && (forall f | 0 <= f < |log| :: |log[f]| == rules.Players())
    && (forall f: Frame | s.history.Holds(f) && f < |log| :: s.history.At(f) == Fold(rules.advance, init, log[..f]))
    && (forall p, f: Frame | 0 <= p < rules.Players() && s.used[p].Holds(f) && f < |log| :: s.used[p].At(f) == log[f][p])
    && s.current == Fold(rules.advance, init, log)
  }

  // Every timeline agrees with what its player told, from its base on, and its
  // base is where that player's telling puts it.
  ghost predicate Informed<I>(timelines: seq<Timeline<I>>, known: seq<Known<I>>, first: seq<Option<Frame>>, cap: nat) {
    && |timelines| == |known| == |first|
    && forall p | 0 <= p < |timelines| :: Mirrors(timelines[p], known[p]) && Opened(timelines[p], first[p], cap)
  }

  lemma ConfirmInforms<I>(timelines: seq<Timeline<I>>, known: seq<Known<I>>, first: seq<Option<Frame>>, cap: nat,
                          p: nat, frame: Frame, input: I)
    requires Informed(timelines, known, first, cap) && p < |timelines|
    ensures Informed(timelines[p := timelines[p].Confirm(frame, input)], known[p := Learn(known[p], frame, input)],
                     first[p := FirstTold(first[p], frame)], cap)
  {
    ConfirmMirrors(timelines[p], known[p], frame, input);
    ConfirmOpens(timelines[p], first[p], cap, frame, input);
  }

  // What every reachable trace satisfies.
  ghost predicate Consistent<S, I>(rules: Rules<S, I>, init: S, t: Trace<S, I>) {
    && Shaped(rules, t)
    && Tracks(rules, init, t.now, t.log, t.now.head)
    && Informed(t.now.timelines, t.known, t.first, rules.capacity)
    && (t.now.pending.Some? ==> t.now.history.Holds(t.now.pending.value))
  }

  lemma HistoryTracks<S, I>(advance: (S, seq<I>) -> S, init: S, history: Ring<S>, log: seq<seq<I>>, row: seq<I>,
                            head: Frame, cap: nat)
    requires history.Covers(head, cap) && history.base <= |log| <= head
    requires forall f: Frame | history.Holds(f) && f < |log| :: history.At(f) == Fold(advance, init, log[..f])
    ensures var history' := history.Save(|log|, Fold(advance, init, log));
            && history'.Covers(if |log| == head then head + 1 else head, cap) && history'.base <= |log| + 1
            && forall f: Frame | history'.Holds(f) && f <= |log| :: history'.At(f) == Fold(advance, init, (log + [row])[..f])
  {
    SaveKeepsCover(history, head, cap, |log|, Fold(advance, init, log));
    forall f: Frame | f <= |log| ensures (log + [row])[..f] == log[..f] {}
    assert log[..|log|] == log;
  }

  lemma SimulateTracks<S, I>(rules: Rules<S, I>, init: S, s: Session<S, I>, log: seq<seq<I>>, head: Frame)
    requires Tracks(rules, init, s, log, head)
    ensures Tracks(rules, init, Simulate(rules, s, |log|), log + [InputsFor(rules, s.timelines, |log|)],
                   if |log| == head then head + 1 else head)
  {
    var f := |log|;
    var row := InputsFor(rules, s.timelines, f);
    var log' := log + [row];
    var s' := Simulate(rules, s, f);
    HistoryTracks(rules.advance, init, s.history, log, row, head, rules.capacity);
    forall p | 0 <= p < rules.Players()
      ensures s'.used[p].Covers(if f == head then head + 1 else head, rules.capacity)
      ensures forall g: Frame | s'.used[p].Holds(g) && g < |log'| :: s'.used[p].At(g) == log'[g][p]
    {
      SaveKeepsCover(s.used[p], head, rules.capacity, f, row[p]);
    }
    assert log'[..|log'| - 1] == log;
  }

  lemma {:induction false} ResimulateTracks<S, I>(
    rules: Rules<S, I>, init: S, s: Session<S, I>, log: seq<seq<I>>, head: Frame)
    requires Tracks(rules, init, s, log, head)
    ensures Tracks(rules, init, Resimulate(rules, s, |log|, head), log + Rows(rules, s.timelines, |log|, head), head)
    decreases head - |log|
  {
    var f := |log|;
    if f < head {
      SimulateTracks(rules, init, s, log, head);
      var row := InputsFor(rules, s.timelines, f);
      ResimulateTracks(rules, init, Simulate(rules, s, f), log + [row], head);
      assert (log + [row]) + Rows(rules, s.timelines, f + 1, head) == log + Rows(rules, s.timelines, f, head);
    } else {
      assert log + Rows(rules, s.timelines, f, head) == log;
    }
  }

  lemma ResolveConsistent<S, I>(rules: Rules<S, I>, init: S, t: Trace<S, I>)
    requires Consistent(rules, init, t)
    ensures Consistent(rules, init, Step(rules, t, ResolveNow))
    ensures RollbackTo(t.now) == if t.now.enabled then t.now.pending else None
  {
    ResolveShape(rules, t.now);
    if RollbackTo(t.now).Some? {
      var e := RollbackTo(t.now).value;
      var cut := t.log[..e];
      var s := t.now.(pending := None, lastRollback := 0, current := t.now.history.At(e));
      CutTracks(rules, init, t.now, t.log, s, e);
      ResimulateTracks(rules, init, s, cut, t.now.head);
    }
  }

  // Restoring a retained frame leaves the rings tracking the log up to it.
  lemma CutTracks<S, I>(rules: Rules<S, I>, init: S, s: Session<S, I>, log: seq<seq<I>>, restored: Session<S, I>, e: Frame)
    requires Tracks(rules, init, s, log, s.head) && s.history.Holds(e) && e < |log|
    requires restored == s.(pending := None, lastRollback := 0, current := s.history.At(e))
    ensures Tracks(rules, init, restored, log[..e], s.head)
  {
    var cut := log[..e];
    forall f | 0 <= f <= e ensures cut[..f] == log[..f] {}
    assert cut[..e] == cut;
  }

  lemma AdvanceConsistent<S, I>(rules: Rules<S, I>, init: S, t: Trace<S, I>)
    requires Consistent(rules, init, t)
    ensures Consistent(rules, init, Step(rules, t, Advance))
  {
    ResolveConsistent(rules, init, t);
    ResolveShape(rules, t.now);
    var t' := Step(rules, t, ResolveNow);
    SimulateTracks(rules, init, t'.now, t'.log, t'.now.head);
  }

  lemma ConfirmConsistent<S, I>(rules: Rules<S, I>, init: S, t: Trace<S, I>, p: nat, frame: Frame, input: I)
    requires Consistent(rules, init, t) && p < rules.Players()
    ensures Consistent(rules, init, Step(rules, t, ConfirmRemote(p, frame, input)))
  {
    ConfirmInforms(t.now.timelines, t.known, t.first, rules.capacity, p, frame, input);
  }

  lemma QueueConsistent<S, I>(rules: Rules<S, I>, init: S, t: Trace<S, I>, p: nat, input: I)
    requires Consistent(rules, init, t) && p < rules.Players()
    ensures Consistent(rules, init, Step(rules, t, QueueLocal(p, input)))
  {
    ConfirmInforms(t.now.timelines, t.known, t.first, rules.capacity, p, t.now.head, input);
  }

  lemma StepConsistent<S, I>(rules: Rules<S, I>, init: S, t: Trace<S, I>, op: Op<I>)
    requires Consistent(rules, init, t) && OpOk(rules, op)
    ensures Consistent(rules, init, Step(rules, t, op))
  {
    match op
    case QueueLocal(p, input) => QueueConsistent(rules, init, t, p, input);
    case ConfirmRemote(p, frame, input) => ConfirmConsistent(rules, init, t, p, frame, input);
    case Advance => AdvanceConsistent(rules, init, t);
    case ResolveNow => ResolveConsistent(rules, init, t);
    case SetEnabled(on) =>
  }

  // Everything below this frame has run on settled inputs; a pending
  // correction is what lowers it below head.
  function Bound<S, I>(t: Trace<S, I>): Frame {
    if t.now.pending.Some? then t.now.pending.value else t.now.head
  }

  ghost predicate RanOn<S, I>(t: Trace<S, I>, p: nat, frame: Frame, input: I) {
    frame < |t.log| && p < |t.log[frame]| && t.log[frame][p] == input
  }

  // What a confirmation does to a trace: it pends exactly when its frame is
  // retained and had run on something else.
  lemma ConfirmEffect<S, I>(rules: Rules<S, I>, init: S, t: Trace<S, I>, p: nat, c: Frame, input: I)
    requires Consistent(rules, init, t) && p < rules.Players()
    ensures var t' := Step(rules, t, ConfirmRemote(p, c, input));
            var wrong := c < t.now.head && t.now.history.Holds(c) && !RanOn(t, p, c, input);
            && t' == Note(t, p, c, input).(now := t'.now)
            && t'.now == t.now.(timelines := t'.now.timelines, pending := t'.now.pending)
            && t'.now.timelines == t.now.timelines[p := t.now.timelines[p].Confirm(c, input)]
            && t'.now.pending == (if wrong then Some(if Bound(t) < c then Bound(t) else c) else t.now.pending)
            && (c < t.now.head && !wrong && Bound(t) <= c ==> t.now.history.Holds(c))
  {
    if c < t.now.head {
      assert t.now.used[p].Holds(c) <==> t.now.history.Holds(c);
      assert t.now.used[p].Holds(c) ==> t.now.used[p].At(c) == t.log[c][p];
    }
  }

  // Where running frames starts feeding anew: at the bound, unless rollback is
  // off and the guesses stay.
  function Refed<S, I>(t: Trace<S, I>): Frame {
    if t.now.enabled then Bound(t) else t.now.head
  }

  // What running frames does to a trace: every row from there on is fed anew
  // from the timelines as they are, and no row below changes.
  ghost predicate RanFrames<S, I>(rules: Rules<S, I>, t: Trace<S, I>, t': Trace<S, I>) {
    && Shaped(rules, t) && Shaped(rules, t')
    && t'.known == t.known && t'.first == t.first && t'.now.timelines == t.now.timelines
    && t'.now.enabled == t.now.enabled && t'.now.pending.None?
    && t.now.head <= t'.now.head && Bound(t) <= t.now.head
    && (forall f: Frame | f < Refed(t) :: t'.log[f] == t.log[f])
    && (forall f: Frame | Refed(t) <= f < |t'.log| :: t'.log[f] == InputsFor(rules, t.now.timelines, f))
  }

  lemma RunFrames<S, I>(rules: Rules<S, I>, init: S, t: Trace<S, I>, op: Op<I>)
    requires Consistent(rules, init, t) && (op.Advance? || op.ResolveNow?)
    ensures var t' := Step(rules, t, op);
            && RanFrames(rules, t, t') && Consistent(rules, init, t')
            && |t'.log| == if op.Advance? then t.now.head + 1 else t.now.head
  {
    StepConsistent(rules, init, t, op);
    ResolveConsistent(rules, init, t);
    StepRanFrames(rules, t, op);
  }

  lemma StepRanFrames<S, I>(rules: Rules<S, I>, t: Trace<S, I>, op: Op<I>)
    requires Shaped(rules, t) && Bound(t) <= t.now.head && (op.Advance? || op.ResolveNow?)
    requires RollbackTo(t.now) == if t.now.enabled then t.now.pending else None
    ensures var t' := Step(rules, t, op);
            RanFrames(rules, t, t') && |t'.log| == if op.Advance? then t.now.head + 1 else t.now.head
  {
    ResolveShape(rules, t.now);
    ResolvedLogIs(rules, t);
    AdvanceShape(rules, t.now);
    StepShaped(rules, t, op);
  }

  lemma AdvanceShape<S, I>(rules: Rules<S, I>, s: Session<S, I>)
    requires HasPlayers(rules, s)
    ensures var s' := AdvanceFrame(rules, s);
            && s'.timelines == s.timelines && s'.head == s.head + 1 && s'.pending == None && s'.enabled == s.enabled
  {
    ResolveShape(rules, s);
  }

  lemma ResolvedLogIs<S, I>(rules: Rules<S, I>, t: Trace<S, I>)
    requires Shaped(rules, t) && Bound(t) <= t.now.head
    requires RollbackTo(t.now) == if t.now.enabled then t.now.pending else None
    ensures var log := ResolvedLog(rules, t);
            && |log| == t.now.head
            && (forall f: Frame | f < Refed(t) :: log[f] == t.log[f])
            && (forall f: Frame | Refed(t) <= f < |log| :: log[f] == InputsFor(rules, t.now.timelines, f))
  {}

  // Every run, whatever arrives in whatever order and whatever is switched on
  // or off: the rings cover exactly the frames they should and the window is
  // never thrown away; every saved state and the present are the plain fold
  // over the inputs used; and a pending correction is always still retained,
  // so the clamp to the oldest frame never acts.
  lemma {:induction false} EveryRunIsAFold<S, I>(rules: Rules<S, I>, init: S, ops: seq<Op<I>>)
    requires RunOk(rules, ops)
    ensures Consistent(rules, init, Run(rules, init, ops))
    ensures var s := Run(rules, init, ops).now;
            RollbackTo(s) == if s.enabled then s.pending else None
  {
    if ops != [] {
      var before := ops[..|ops| - 1];
      EveryRunIsAFold(rules, init, before);
      StepConsistent(rules, init, Run(rules, init, before), ops[|ops| - 1]);
    }
    ResolveConsistent(rules, init, Run(rules, init, ops));
  }

  // What a session shows: exactly the present and the `capacity` frames before
  // it, each as the fold over the inputs its past ran on.
  lemma StatesShown<S, I>(rules: Rules<S, I>, init: S, t: Trace<S, I>, f: Frame)
    requires Consistent(rules, init, t)
    ensures StateAt(t.now, f) ==
            if f <= t.now.head <= f + rules.capacity then Some(Fold(rules.advance, init, t.log[..f])) else None
  {
    assert t.log[..t.now.head] == t.log;
  }

  // The horizon is how far the most behind player's newest telling is from
  // the last simulated frame; a player that told nothing is behind by all of
  // them.
  lemma {:induction false} MaxLagIsLargest<S, I>(s: Session<S, I>, n: nat)
    requires n <= |s.timelines|
    ensures forall p | 0 <= p < n :: s.head <= Next(s.timelines[p]) + MaxLag(s, n)
    ensures MaxLag(s, n) == 0 || exists p | 0 <= p < n :: s.head == Next(s.timelines[p]) + MaxLag(s, n)
  {
    if n != 0 {
      MaxLagIsLargest(s, n - 1);
    }
  }

  // The next frame this timeline has not been told.
  function Next<I>(t: Timeline<I>): Frame {
    match t.lastConfirmed
    case None => 0
    case Some(c) => c + 1
  }
}
