/**
 The session itself: rings updated in place, a re-simulation loop, and the
 counters. Every method is proved to follow the value model, which is what the
 theorems about runs are about.
 */
module RollbackSessions {
  import opened Wrappers
  import opened FrameRings
  import opened RollbackModel

  class RollbackSession<State, Input(==)> {
    const rules: Rules<State, Input>
    const history: StateHistory<State>
    const used: seq<StateHistory<Input>>
    const timelines: seq<InputTimeline<Input>>
    var currentState: State
    var headFrame: Frame
    var rollbackEnabled: bool
    var earliestIncorrect: Option<Frame>
    var lastRollbackLen: nat
    var maxRollbackLen: nat
    var rollbackCount: nat

    // The windows are separate objects, and within their capacity.
    ghost predicate Valid()
      reads this, history, used, timelines
    {
      && |used| == |timelines| == rules.Players()
      && (forall i, j | 0 <= i < j < |used| :: used[i] != used[j])
      && (forall i, j | 0 <= i < j < |timelines| :: timelines[i] != timelines[j])
      && (forall i | 0 <= i < |used| :: used[i] as object != history)
      && history.View().Ok()
      && (forall i | 0 <= i < |used| :: used[i].View().Ok())
      && (forall i | 0 <= i < |timelines| :: timelines[i].View().Ok())
    }

    ghost function Timelines(): (v: seq<Timeline<Input>>)
      reads timelines
      ensures |v| == |timelines|
    {
      seq(|timelines|, p requires 0 <= p < |timelines| reads timelines => timelines[p].View())
    }

    ghost function Used(): (v: seq<Ring<Input>>)
      reads used
      ensures |v| == |used|
    {
      seq(|used|, p requires 0 <= p < |used| reads used => used[p].View())
    }

    ghost function View(): Session<State, Input>
      reads this, history, used, timelines
    {
      Session(history.View(), Used(), Timelines(), currentState, headFrame, rollbackEnabled,
              earliestIncorrect, lastRollbackLen, maxRollbackLen, rollbackCount)
    }

    constructor (initial: State, game: Rules<State, Input>)
      ensures Valid() && (if game.capacity == 0 then rules == game.(capacity := 1) else rules == game)
      ensures View() == NewSession(rules, initial)
      ensures fresh(history) && (forall i | 0 <= i < |used| :: fresh(used[i])) && forall i | 0 <= i < |timelines| :: fresh(timelines[i])
    {
      var rules := Configured(game);
      var h := new StateHistory<State>(rules.capacity);
      var u, t := NewWindows(|rules.neutral|, rules.capacity);
      this.rules, history, used, timelines := rules, h, u, t;
      currentState, headFrame, rollbackEnabled, earliestIncorrect := initial, 0, true, None;
      lastRollbackLen, maxRollbackLen, rollbackCount := 0, 0, 0;
      new;
      assert Used() == NewSession(rules, initial).used;
      assert Timelines() == NewSession(rules, initial).timelines;
    }

    // One ring and one timeline per player, each its own object.
    static method NewWindows(players: nat, capacity: nat) returns (u: seq<StateHistory<Input>>, t: seq<InputTimeline<Input>>)
      requires 0 < capacity
      ensures |u| == |t| == players
      ensures forall i | 0 <= i < players :: fresh(u[i]) && u[i].View() == Ring([], 0, capacity, 0)
      ensures forall i | 0 <= i < players :: fresh(t[i]) && t[i].View() == Timeline([], 0, None, capacity)
      ensures forall i, j | 0 <= i < j < players :: u[i] != u[j] && t[i] != t[j]
    {
      u, t := [], [];
      while |u| < players
        invariant |u| == |t| <= players
        invariant forall i | 0 <= i < |u| :: fresh(u[i]) && u[i].View() == Ring([], 0, capacity, 0)
        invariant forall i | 0 <= i < |t| :: fresh(t[i]) && t[i].View() == Timeline([], 0, None, capacity)
        invariant forall i, j | 0 <= i < j < |u| :: u[i] != u[j] && t[i] != t[j]
      {
        var ring := new StateHistory<Input>(capacity);
        var timeline := new InputTimeline<Input>(capacity);
        u, t := u + [ring], t + [timeline];
      }
    }

    method SetRollbackEnabled(enabled: bool)
      requires Valid()
      modifies this`rollbackEnabled
      ensures Valid() && View() == old(View()).(enabled := enabled)
    {
      rollbackEnabled := enabled;
    }

    method QueueLocalInput(player: nat, input: Input)
      requires Valid() && player < |timelines|
      modifies timelines
      ensures Valid() && View() == RollbackModel.QueueLocalInput(old(View()), player, input)
    {
      timelines[player].Confirm(headFrame, input);
      assert Timelines() == old(Timelines())[player := timelines[player].View()];
    }

    method ConfirmRemoteInput(player: nat, frame: Frame, input: Input)
      requires Valid() && player < |timelines|
      modifies timelines, this`earliestIncorrect
      ensures Valid() && View() == RollbackModel.ConfirmRemoteInput(old(View()), player, frame, input)
    {
      ConfirmTimeline(player, frame, input);
      if frame < headFrame {
        var usedInput := used[player].Restore(frame);
        if usedInput.Some? && usedInput.value != input {
          MarkIncorrect(frame);
        }
      }
    }

    method ConfirmTimeline(player: nat, frame: Frame, input: Input)
      requires Valid() && player < |timelines|
      modifies timelines
      ensures Valid()
      ensures View() == old(View()).(timelines := old(Timelines())[player := old(Timelines())[player].Confirm(frame, input)])
    {
      timelines[player].Confirm(frame, input);
      assert Timelines() == old(Timelines())[player := timelines[player].View()];
    }

    method MarkIncorrect(frame: Frame)
      requires Valid()
      modifies this`earliestIncorrect
      ensures Valid()
      ensures var s := old(View());
              View() == s.(pending := Some(if s.pending.Some? && s.pending.value < frame then s.pending.value else frame))
    {
      earliestIncorrect := Some(match earliestIncorrect
                                case None => frame
                                case Some(cur) => if cur < frame then cur else frame);
    }

    method InputFor(p: nat, frame: Frame) returns (input: Input)
      requires Valid() && p < |timelines|
      ensures input == RollbackModel.InputFor(rules, Timelines(), p, frame)
    {
      var confirmed := timelines[p].ConfirmedAt(frame);
      if confirmed.Some? {
        return confirmed.value;
      }
      var last := timelines[p].LastConfirmedAtOrBefore(frame);
      var basis := match last case Some(i) => i case None => rules.neutral[p];
      input := rules.predictor(basis, frame);
    }

    // Notes what one player was fed.
    method RecordInput(p: nat, frame: Frame, input: Input)
      requires Valid() && p < |used|
      modifies used[p]
      ensures Valid() && View() == old(View()).(used := old(Used())[p := old(Used())[p].Save(frame, input)])
    {
      used[p].Save(frame, input);
      assert forall q | 0 <= q < |timelines| :: timelines[q].View() == old(timelines[q].View());
      assert forall q | 0 <= q < |used| && q != p :: used[q] != used[p];
      assert Timelines() == old(Timelines()) && Used() == old(Used())[p := used[p].View()];
    }

    // Gathers each player's input for `frame` and records what was fed.
    method RecordInputs(frame: Frame) returns (inputs: seq<Input>)
      requires Valid()
      modifies used
      ensures Valid() && inputs == InputsFor(rules, Timelines(), frame)
      ensures View() == old(View()).(used := Recorded(old(Used()), frame, inputs, |inputs|))
    {
      inputs := [];
      ghost var (want, before) := (InputsFor(rules, Timelines(), frame), Used());
      for p := 0 to |timelines|
        invariant Valid() && inputs == want[..p]
        invariant View() == old(View()).(used := Recorded(before, frame, want, p))
      {
        var input := InputFor(p, frame);
        assert Timelines() == View().timelines && Used() == View().used && input == want[p];
        RecordInput(p, frame, input);
        inputs := inputs + [input];
        OneMoreRecorded(before, frame, want, p);
      }
    }

    method SaveState(frame: Frame)
      requires Valid()
      modifies history
      ensures Valid() && View() == old(View()).(history := old(history.View()).Save(frame, currentState))
    {
      history.Save(frame, currentState);
      assert Timelines() == old(Timelines()) && Used() == old(Used());
    }

    method SimulateFrame(frame: Frame)
      requires Valid()
      modifies history, used, this`currentState
      ensures Valid() && View() == Simulate(rules, old(View()), frame)
    {
      AllRecorded(rules, View(), frame);
      SaveState(frame);
      var inputs := RecordInputs(frame);
      currentState := rules.advance(currentState, inputs);
    }

    // Re-simulates [from, target) from the state already restored.
    method Replay(from: Frame, target: Frame)
      requires Valid()
      modifies history, used, this`currentState
      ensures Valid() && View() == Resimulate(rules, old(View()), from, target)
    {
      var f := from;
      while f < target
        invariant Valid()
        invariant Resimulate(rules, View(), f, target) == Resimulate(rules, old(View()), from, target)
        decreases target - f
      {
        SimulateFrame(f);
        f := f + 1;
      }
    }

    // The frame to restore for a correction at `taken`, clamped to what is
    // still retained.
    method RestorePoint(taken: Frame) returns (earliest: Option<Frame>)
      requires Valid()
      ensures earliest == RollbackTo(View().(pending := Some(taken)))
    {
      if !rollbackEnabled || taken >= headFrame {
        return None;
      }
      var oldest := history.OldestFrame();
      if oldest.None? {
        return None;
      }
      var frame := if taken < oldest.value then oldest.value else taken;
      var restored := history.Restore(frame);
      earliest := if restored.None? then None else Some(frame);
    }

    // Restores `earliest` and runs every frame from there again.
    method RollBackTo(earliest: Frame)
      requires Valid() && history.View().Holds(earliest)
      modifies history, used, this
      ensures Valid() && View() == RollBack(rules, old(View()), earliest)
    {
      ghost var s := View();
      ResimulateShape(rules, s.(current := s.history.At(earliest)), earliest, s.head);
      RestoreState(earliest);
      var target := headFrame;
      Replay(earliest, target);
      NoteRollback(if earliest < target then target - earliest else 0);
    }

    method RestoreState(earliest: Frame)
      requires Valid() && history.View().Holds(earliest)
      modifies this`currentState
      ensures Valid() && View() == old(View()).(current := history.View().At(earliest))
    {
      var restored := history.Restore(earliest);
      currentState := restored.value;
    }

    method NoteRollback(len: nat)
      requires Valid()
      modifies this`lastRollbackLen, this`maxRollbackLen, this`rollbackCount
      ensures Valid()
      ensures var s := old(View());
              var deepest := if s.maxRollback < len then len else s.maxRollback;
              View() == s.(lastRollback := len, maxRollback := deepest, rollbacks := s.rollbacks + 1)
    {
      lastRollbackLen := len;
      maxRollbackLen := if maxRollbackLen < len then len else maxRollbackLen;
      rollbackCount := rollbackCount + 1;
    }

    // Takes the pending correction, leaving none.
    method TakeIncorrect() returns (taken: Option<Frame>)
      requires Valid()
      modifies this`lastRollbackLen, this`earliestIncorrect
      ensures Valid() && taken == old(View()).pending
      ensures View() == old(View()).(pending := None, lastRollback := 0)
    {
      lastRollbackLen := 0;
      taken := earliestIncorrect;
      earliestIncorrect := None;
    }

    method ResolveRollback()
      requires Valid()
      modifies history, used, this
      ensures Valid() && View() == Resolve(rules, old(View()))
    {
      var taken := TakeIncorrect();
      if taken.None? {
        return;
      }
      var earliest := RestorePoint(taken.value);
      if earliest.None? {
        return;
      }
      RollBackTo(earliest.value);
    }

    // Simulates head and moves it on.
    method StepHead()
      requires Valid()
      modifies history, used, this`currentState, this`headFrame
      ensures Valid()
      ensures View() == Simulate(rules, old(View()), old(headFrame)).(head := old(headFrame) + 1)
    {
      var f := headFrame;
      SimulateFrame(f);
      headFrame := headFrame + 1;
    }

    method AdvanceFrame()
      requires Valid()
      modifies history, used, this
      ensures Valid() && View() == RollbackModel.AdvanceFrame(rules, old(View()))
    {
      ResolveShape(rules, View());
      ResolveRollback();
      StepHead();
    }

    method GetStateAt(frame: Frame) returns (state: Option<State>)
      requires Valid()
      ensures state == StateAt(View(), frame)
    {
      if frame == headFrame {
        return Some(currentState);
      }
      state := history.Restore(frame);
    }

    method GetPredictionHorizon() returns (frames: nat)
      requires Valid()
      ensures frames == PredictionHorizon(View())
    {
      if headFrame == 0 {
        return 0;
      }
      var lastSimulated := headFrame - 1;
      frames := 0;
      for p := 0 to |timelines|
        invariant frames == MaxLag(View(), p)
      {
        var lag := match timelines[p].lastConfirmed
          case Some(c) => if c >= lastSimulated then 0 else lastSimulated - c
          case None => headFrame;
        assert lag == Lag(View(), p);
        frames := if lag < frames then frames else lag;
      }
    }
  }

  // The rings with the first `n` players' inputs noted.
  ghost function Recorded<I>(used: seq<Ring<I>>, frame: Frame, inputs: seq<I>, n: nat): seq<Ring<I>>
    requires n <= |inputs| == |used|
  {
    seq(|used|, q requires 0 <= q < |used| => if q < n then used[q].Save(frame, inputs[q]) else used[q])
  }

  lemma OneMoreRecorded<I>(used: seq<Ring<I>>, frame: Frame, inputs: seq<I>, p: nat)
    requires p < |inputs| == |used|
    ensures Recorded(used, frame, inputs, p + 1) ==
            Recorded(used, frame, inputs, p)[p := Recorded(used, frame, inputs, p)[p].Save(frame, inputs[p])]
  {}

  lemma AllRecorded<S, I>(rules: Rules<S, I>, s: Session<S, I>, frame: Frame)
    requires HasPlayers(rules, s)
    ensures var inputs := InputsFor(rules, s.timelines, frame);
            var used := Recorded(s.used, frame, inputs, |inputs|);
            Simulate(rules, s, frame) ==
            s.(history := s.history.Save(frame, s.current), used := used, current := rules.advance(s.current, inputs))
  {
    var inputs := InputsFor(rules, s.timelines, frame);
    assert Simulate(rules, s, frame).used == Recorded(s.used, frame, inputs, |inputs|);
  }

  // A session driven by any run of calls is what the model says that run
  // makes, so everything proved of runs is true of it.
  method Play<State, Input(==)>(initial: State, game: Rules<State, Input>, ops: seq<Op<Input>>)
    returns (session: RollbackSession<State, Input>)
    requires RunOk(Configured(game), ops)
    ensures session.Valid() && (if game.capacity == 0 then session.rules == game.(capacity := 1) else session.rules == game)
    ensures session.View() == Run(session.rules, initial, ops).now
    ensures var depth := if game.capacity == 0 then 1 else game.capacity;
            forall f: Frame :: StateAt(session.View(), f).Some? <==> f <= session.headFrame <= f + depth
  {
    session := new RollbackSession(initial, game);
    PlayOn(session, initial, ops);
    EveryRunIsAFold(session.rules, initial, ops);
    forall f: Frame
      ensures StateAt(session.View(), f).Some? <==> f <= session.headFrame <= f + session.rules.capacity
    {
      StatesShown(session.rules, initial, Run(session.rules, initial, ops), f);
    }
  }

  method PlayOn<State, Input(==)>(session: RollbackSession<State, Input>, ghost initial: State, ops: seq<Op<Input>>)
    requires session.Valid() && RunOk(session.rules, ops) && session.View() == NewSession(session.rules, initial)
    modifies session, session.history, session.used, session.timelines
    ensures session.Valid() && session.View() == Run(session.rules, initial, ops).now
  {
    ghost var t := Run(session.rules, initial, []);
    for k := 0 to |ops|
      invariant session.Valid() && session.View() == t.now && Shaped(session.rules, t)
      invariant ReachedBy(session.rules, initial, ops[..k], t)
    {
      ReachedByOneMore(session.rules, initial, ops, k, t);
      Call(session, ops[k], t);
      t := Step(session.rules, t, ops[k]);
    }
    assert ops[..|ops|] == ops;
  }

  ghost predicate ReachedBy<S, I>(rules: Rules<S, I>, init: S, ops: seq<Op<I>>, t: Trace<S, I>) {
    RunOk(rules, ops) && t == Run(rules, init, ops)
  }

  lemma ReachedByOneMore<S, I>(rules: Rules<S, I>, init: S, ops: seq<Op<I>>, k: nat, t: Trace<S, I>)
    requires k < |ops| && OpOk(rules, ops[k]) && ReachedBy(rules, init, ops[..k], t)
    ensures Shaped(rules, t) && Shaped(rules, Step(rules, t, ops[k]))
    ensures ReachedBy(rules, init, ops[..k + 1], Step(rules, t, ops[k]))
  {
    RunStep(rules, init, ops[..k], ops[k]);
    assert ops[..k + 1] == ops[..k] + [ops[k]];
  }

  method Call<State, Input(==)>(session: RollbackSession<State, Input>, op: Op<Input>, ghost t: Trace<State, Input>)
    requires session.Valid() && OpOk(session.rules, op) && Shaped(session.rules, t) && t.now == session.View()
    modifies session, session.history, session.used, session.timelines
    ensures session.Valid() && session.View() == Step(session.rules, t, op).now
  {
    match op {
      case QueueLocal(player, input) => session.QueueLocalInput(player, input);
      case ConfirmRemote(player, frame, input) => session.ConfirmRemoteInput(player, frame, input);
      case Advance => session.AdvanceFrame();
      case ResolveNow => session.ResolveRollback();
      case SetEnabled(on) => session.SetRollbackEnabled(on);
    }
  }
}
