/**
 The wired local player: numbering, freezing, teleports and reconciliation over
 the predicted entity and its buffer.
 */
module PredictedPlayers {
  import opened Wrappers
  import opened InputBuffers
  import opened Predictions

  // What a player's history comes to: every input numbered so far; the newest
  // number acknowledged, cleared or pushed out of the buffer; the state last
  // taken from outside, with how many inputs are in it; and where the run
  // began, which is construction, a teleport, or the last packet that was not
  // what applying the presses since then gives. In step, the world has not
  // changed since the last state taken from outside.
  datatype Journey<S, I> = Journey(
    presses: Presses<I>, floor: nat, origin: S, base: nat, start: S, startBase: nat, inStep: bool)
  {
    function Count(): nat {
      |presses|
    }

    // Where all the presses since the run began lead.
    function Here(rule: (S, I) -> S): S {
      StateFrom(rule, start, presses, startBase)
    }

    // What a server has that has applied every input up to `ack` since the
    // run began, by the same rule.
    function ServerAt(rule: (S, I) -> S, ack: nat): S
      requires ack <= Count()
    {
      StateFrom(rule, start, presses[..ack], startBase)
    }

    // A packet from such a server, acknowledging no less than before and
    // nothing not yet pressed.
    ghost predicate Faithful(rule: (S, I) -> S, server: S, ack: nat) {
      inStep && startBase <= ack && floor <= ack <= Count() && server == ServerAt(rule, ack)
    }

    function Restarted(state: S, number: nat): Journey<S, I> {
      Journey(presses, number, state, number, state, number, true)
    }

    ghost function Reconciled(rule: (S, I) -> S, server: S, ack: nat): Journey<S, I> {
      var number := Raised(floor, ack, Count());
      if Faithful(rule, server, ack) then this.(floor := number, origin := server, base := number)
      else Restarted(server, number)
    }

    // Frozen, the run goes on if the server says what the player stands on.
    ghost function Tracked(rule: (S, I) -> S, server: S): Journey<S, I> {
      if inStep && server == Here(rule) then this.(floor := Count(), origin := server, base := Count())
      else Restarted(server, Count())
    }
  }

  // Where an acknowledgement leaves the floor, among `n` presses.
  function Raised(floor: nat, ack: nat, n: nat): nat {
    if n < ack then n else if floor < ack then ack else floor
  }

  // The buffer holds exactly the presses above the floor. In step, the player
  // stands where all the presses since the run began lead, however many
  // packets have come in between, and so did the last of those.
  ghost predicate Follows<S, I>(
    j: Journey<S, I>, rule: (S, I) -> S, buffered: seq<BufferedInput<I, S>>, current: S)
  {
    && j.startBase <= j.base <= j.floor <= j.Count()
    && Pressed(buffered) == Pending(j.presses, j.floor)
    && (j.inStep ==> current == j.Here(rule) && j.origin == j.ServerAt(rule, j.base))
  }

  lemma OneMorePress<S, I>(rule: (S, I) -> S, start: S, presses: Presses<I>, startBase: nat, x: Option<I>, base: nat)
    requires startBase <= |presses| && base <= |presses|
    ensures (presses + [x])[..base] == presses[..base]
    ensures var before := StateFrom(rule, start, presses, startBase);
            StateFrom(rule, start, presses + [x], startBase) == match x case Some(i) => rule(before, i) case None => before
  {
    assert (presses + [x])[..|presses|] == presses;
  }

  lemma FrozenPressFollows<S, I>(j: Journey<S, I>, rule: (S, I) -> S, buffered: seq<BufferedInput<I, S>>, current: S)
    requires Follows(j, rule, buffered, current)
    ensures Follows(j.(presses := j.presses + [None]), rule, buffered, current)
  {
    OneMorePress(rule, j.start, j.presses, j.startBase, None, j.base);
    assert (j.presses + [None])[..|j.presses|] == j.presses;
  }

  lemma PressFollows<S, I>(
    j: Journey<S, I>, rule: (S, I) -> S, buffered: seq<BufferedInput<I, S>>, current: S, b: BufferedInput<I, S>, room: nat)
    requires Follows(j, rule, buffered, current) && 0 < room && b.number == j.Count() + 1
    ensures var floor := if |buffered| == room then buffered[0].number else j.floor;
            Follows(j.(presses := j.presses + [Some(b.op)], floor := floor), rule, Pushed(buffered, b, room), rule(current, b.op))
  {
    OneMorePress(rule, j.start, j.presses, j.startBase, Some(b.op), j.base);
    if |buffered| == room {
      DroppingKeepsPending(buffered, j.presses, j.floor);
      AppendingKeepsPending(buffered[1..], j.presses, buffered[0].number, b);
    } else {
      AppendingKeepsPending(buffered, j.presses, j.floor, b);
    }
  }

  lemma DroppingKeepsPending<I, Snap>(s: seq<BufferedInput<I, Snap>>, presses: Presses<I>, floor: nat)
    requires Pressed(s) == Pending(presses, floor) && s != []
    ensures floor < s[0].number <= |presses| && Pressed(s[1..]) == Pending(presses, s[0].number)
  {
    assert Pressed(s)[0] == Press(s[0].number, s[0].op);
    OldestPending(presses, floor);
    assert Pressed(s[1..]) == Pressed(s)[1..];
  }

  lemma AppendingKeepsPending<I, Snap>(
    s: seq<BufferedInput<I, Snap>>, presses: Presses<I>, floor: nat, b: BufferedInput<I, Snap>)
    requires Pressed(s) == Pending(presses, floor) && floor <= |presses| && b.number == |presses| + 1
    ensures Pressed(s + [b]) == Pending(presses + [Some(b.op)], floor)
  {
    assert (presses + [Some(b.op)])[..|presses|] == presses;
    assert Pressed(s + [b]) == Pressed(s) + [Press(b.number, b.op)];
  }

  // Whatever a packet says, replaying what it leaves buffered over its state
  // is applying every press above the floor to it; and a faithful packet
  // moves nothing.
  lemma PacketFollows<S, I>(
    j: Journey<S, I>, rule: (S, I) -> S, buffered: seq<BufferedInput<I, S>>, current: S, server: S, ack: nat)
    requires Follows(j, rule, buffered, current)
    ensures var (j', kept) := (j.Reconciled(rule, server, ack), After(buffered, ack));
            var landed := Replay(rule, server, OpsOf(Pressed(kept)));
            && Follows(j', rule, kept, landed) && landed == StateFrom(rule, server, j.presses, j'.floor)
            && (j.Faithful(rule, server, ack) ==> landed == current)
  {
    PruningIsPending(buffered, j.presses, j.floor, ack);
    ReplayIsStateFrom(rule, server, j.presses, if j.floor < ack then ack else j.floor);
    if j.Faithful(rule, server, ack) {
      ReplayCatchesUp(rule, j.start, j.presses, j.startBase, ack);
    }
  }

  lemma TrackingFollows<S, I>(j: Journey<S, I>, rule: (S, I) -> S, buffered: seq<BufferedInput<I, S>>, current: S, server: S)
    requires Follows(j, rule, buffered, current)
    ensures Follows(j.Tracked(rule, server), rule, [], server)
  {
    assert j.presses[..j.Count()] == j.presses;
  }

  lemma RestartFollows<S, I>(j: Journey<S, I>, rule: (S, I) -> S, state: S)
    ensures Follows(j.Restarted(state, j.Count()), rule, [], state)
  {}

  // A packet may as well be judged by the one before it.
  lemma FaithfulSinceTheLastPacket<S, I>(
    j: Journey<S, I>, rule: (S, I) -> S, buffered: seq<BufferedInput<I, S>>, current: S, server: S, ack: nat)
    requires Follows(j, rule, buffered, current) && j.inStep && j.floor <= ack <= j.Count()
    ensures j.Faithful(rule, server, ack) <==> server == StateFrom(rule, j.origin, j.presses[..ack], j.base)
  {
    StateFromResumes(rule, j.start, j.presses[..ack], j.startBase, j.base);
    assert j.presses[..ack][..j.base] == j.presses[..j.base];
  }

  class PredictedPlayer<S, I, Ctx> {
    const predicted: PredictedEntity<S, I>
    const inputs: ClientInputBuffer<I, S>
    var nextSeq: nat
    const apply: (S, I, Ctx) -> S
    var ctx: Ctx
    var active: bool
    ghost var journey: Journey<S, I>

    function Rule(): (S, I) -> S
      reads this`ctx
    {
      var c := ctx;
      (s, i) => apply(s, i, c)
    }

    ghost predicate Valid()
      reads this, predicted, inputs
    {
      inputs.Valid() && journey.Count() == nextSeq && Follows(journey, Rule(), inputs.inputs, predicted.current)
    }

    constructor (initial: S, bufferSize: nat, apply: (S, I, Ctx) -> S, ctx: Ctx)
      requires 0 < bufferSize
      ensures Valid() && fresh(predicted) && fresh(inputs) && inputs.maxSize == bufferSize && inputs.inputs == []
      ensures predicted.current == initial && journey == Journey([], 0, initial, 0, initial, 0, true)
      ensures active && this.ctx == ctx && this.apply == apply
    {
      predicted := new PredictedEntity(initial);
      inputs := new ClientInputBuffer(bufferSize);
      nextSeq, this.apply, this.ctx, active := 0, apply, ctx, true;
      journey := Journey([], 0, initial, 0, initial, 0, true);
    }

    method SetActive(on: bool)
      requires Valid()
      modifies this`active
      ensures Valid() && active == on
    {
      active := on;
    }

    method SetContext(c: Ctx)
      requires Valid()
      modifies this`ctx, this`journey
      ensures Valid() && ctx == c && journey == old(journey).(inStep := old(journey).inStep && c == old(ctx))
    {
      journey := journey.(inStep := journey.inStep && c == ctx);
      ctx := c;
    }

    // Numbers every input, and predicts it unless the player is frozen. A full
    // buffer pushes its oldest out, which only raises the floor.
    method Input(input: I) returns (number: nat)
      requires Valid()
      modifies this`nextSeq, this`journey, predicted, inputs
      ensures Valid() && number == nextSeq == old(nextSeq) + 1
      ensures var pressed := old(journey).presses + [if active then Some(input) else None];
              var full := active && |old(inputs.inputs)| == inputs.maxSize;
              var floor := if full then old(inputs.inputs)[0].number else old(journey).floor;
              journey == old(journey).(presses := pressed, floor := floor)
      ensures inputs.inputs == if !active then old(inputs.inputs) else
                               Pushed(old(inputs.inputs), BufferedInput(number, input, old(predicted.current)), inputs.maxSize)
      ensures predicted.current == if active then Rule()(old(predicted.current), input) else old(predicted.current)
    {
      nextSeq := nextSeq + 1;
      number := nextSeq;
      if !active {
        FrozenPressFollows(journey, Rule(), inputs.inputs, predicted.current);
        journey := journey.(presses := journey.presses + [None]);
        return;
      }
      PressFollows(journey, Rule(), inputs.inputs, predicted.current,
                   BufferedInput(number, input, predicted.current), inputs.maxSize);
      ghost var floor := if |inputs.inputs| == inputs.maxSize then inputs.inputs[0].number else journey.floor;
      journey := journey.(presses := journey.presses + [Some(input)], floor := floor);
      predicted.ApplyLocalInputAndPredict(input, number, inputs, Rule());
    }

    // Moves the player outright: nothing pressed before belongs to the journey
    // any more.
    method Teleport(state: S)
      requires Valid()
      modifies this`journey, predicted, inputs`inputs
      ensures Valid() && predicted.current == predicted.authoritative == state && inputs.inputs == []
      ensures journey == old(journey).Restarted(state, nextSeq)
    {
      predicted.current := state;
      predicted.authoritative := state;
      inputs.Clear();
      RestartFollows(journey, Rule(), state);
      journey := journey.Restarted(state, nextSeq);
    }

    // Active, whatever the packet says, the player is in step from it: it
    // stands where the server's state and every press above the floor lead,
    // and a packet no older than the floor raises that to its own number. A
    // faithful one moves nothing, and the run goes on from where it began.
    // Frozen, the player tracks the server and forgets what was in flight.
    method Reconcile(server: S, ack: nat)
      requires Valid()
      modifies this`journey, predicted, inputs`inputs
      ensures Valid() && predicted.authoritative == server && predicted.ackedSeq == ack
      ensures journey == if active then old(journey).Reconciled(Rule(), server, ack) else old(journey).Tracked(Rule(), server)
      ensures predicted.current == StateFrom(Rule(), server, journey.presses, journey.floor)
      ensures inputs.inputs == if active then After(old(inputs.inputs), ack) else []
      ensures active && old(journey).Faithful(Rule(), server, ack) ==> predicted.current == old(predicted.current)
    {
      if active {
        PacketFollows(journey, Rule(), inputs.inputs, predicted.current, server, ack);
        predicted.ReconcileWithServerState(server, ack, inputs, Rule());
        journey := journey.Reconciled(Rule(), server, ack);
      } else {
        TrackingFollows(journey, Rule(), inputs.inputs, predicted.current, server);
        predicted.current := server;
        predicted.authoritative := server;
        predicted.ackedSeq := ack;
        inputs.Clear();
        journey := journey.Tracked(Rule(), server);
      }
    }
  }

  // ------------------------------------------------------------------ a whole run

  // What reaches an unfrozen player: its own inputs, and packets.
  datatype Event<+I> = Pressing(input: I) | Hearing(ack: nat)

  function AllPresses<I>(events: seq<Event<I>>): Presses<I> {
    if events == [] then []
    else
      AllPresses(events[..|events| - 1]) +
      match events[|events| - 1]
      case Pressing(input) => [Some(input)]
      case Hearing(_) => []
  }

  function NewestAck<I>(events: seq<Event<I>>): nat {
    if events == [] then 0
    else
      match events[|events| - 1]
      case Pressing(_) => NewestAck(events[..|events| - 1])
      case Hearing(ack) => ack
  }

  // Acknowledgements do not go back or ahead of what was pressed, and the
  // buffer has room for everything in flight.
  ghost predicate InFlightFits<I>(events: seq<Event<I>>, room: nat) {
    forall k | 0 <= k < |events| :: Fits(events[k], |AllPresses(events[..k])|, NewestAck(events[..k]), room)
  }

  ghost predicate Fits<I>(event: Event<I>, pressed: nat, acked: nat, room: nat) {
    match event
    case Pressing(_) => pressed < acked + room
    case Hearing(ack) => acked <= ack <= pressed
  }

  lemma OneMoreEvent<I>(events: seq<Event<I>>, k: nat)
    requires k < |events|
    ensures var (before, after) := (events[..k], events[..k + 1]);
            && AllPresses(after) == AllPresses(before) + (match events[k] case Pressing(input) => [Some(input)] case Hearing(_) => [])
            && NewestAck(after) == match events[k] case Pressing(_) => NewestAck(before) case Hearing(ack) => ack
  {
    assert events[..k + 1][..k] == events[..k];
  }

  lemma {:induction false} PendingFits<I>(presses: Presses<I>, floor: nat)
    requires floor <= |presses|
    ensures |Pending(presses, floor)| <= |presses| - floor
  {
    if floor < |presses| {
      PendingFits(presses[..|presses| - 1], floor);
    }
  }

  // Any run against a server that applies the same inputs by the same rule:
  // however inputs and packets interleave, the player stands where every
  // input ever pressed leads, so no packet ever corrected it.
  method FaithfulRun<S, I, Ctx>(initial: S, room: nat, apply: (S, I, Ctx) -> S, ctx: Ctx, events: seq<Event<I>>)
    returns (player: PredictedPlayer<S, I, Ctx>)
    requires 0 < room && InFlightFits(events, room)
    ensures player.Valid() && player.apply == apply && player.ctx == ctx
    ensures player.journey.presses == AllPresses(events)
    ensures player.predicted.current == StateFrom(player.Rule(), initial, AllPresses(events), 0)
  {
    player := new PredictedPlayer(initial, room, apply, ctx);
    var pressed: Presses<I> := [];
    for k := 0 to |events|
      invariant fresh(player) && fresh(player.predicted) && fresh(player.inputs) && player.Valid()
      invariant player.apply == apply && player.ctx == ctx && player.active && player.inputs.maxSize == room
      invariant pressed == player.journey.presses == AllPresses(events[..k])
      invariant FromTheStart(player.journey, initial, NewestAck(events[..k]))
    {
      OneMoreEvent(events, k);
      assert Fits(events[k], |AllPresses(events[..k])|, NewestAck(events[..k]), room);
      match events[k] {
        case Pressing(input) =>
          PressInTheRun(player, initial, input, NewestAck(events[..k]));
          pressed := pressed + [Some(input)];
        case Hearing(ack) =>
          HearInTheRun(player, initial, StateFrom(player.Rule(), initial, pressed[..ack], 0), ack);
      }
    }
    assert events[..|events|] == events;
  }

  ghost predicate FromTheStart<S, I>(j: Journey<S, I>, initial: S, ack: nat) {
    j.inStep && j.start == initial && j.startBase == 0 && j.floor == ack
  }

  method PressInTheRun<S, I, Ctx>(player: PredictedPlayer<S, I, Ctx>, ghost initial: S, input: I, ghost acked: nat)
    requires player.Valid() && player.active && FromTheStart(player.journey, initial, acked)
    requires player.journey.Count() < acked + player.inputs.maxSize
    modifies player`nextSeq, player`journey, player.predicted, player.inputs
    ensures player.Valid() && FromTheStart(player.journey, initial, acked)
    ensures player.journey.presses == old(player.journey).presses + [Some(input)]
  {
    PendingFits(player.journey.presses, acked);
    assert |player.inputs.inputs| == |Pressed(player.inputs.inputs)|;
    var _ := player.Input(input);
  }

  method HearInTheRun<S, I, Ctx>(player: PredictedPlayer<S, I, Ctx>, ghost initial: S, server: S, ack: nat)
    requires player.Valid() && player.active && FromTheStart(player.journey, initial, player.journey.floor)
    requires player.journey.floor <= ack <= player.journey.Count()
    requires server == StateFrom(player.Rule(), initial, player.journey.presses[..ack], 0)
    modifies player`journey, player.predicted, player.inputs`inputs
    ensures player.Valid() && FromTheStart(player.journey, initial, ack)
    ensures player.journey.presses == old(player.journey).presses && player.predicted.current == old(player.predicted.current)
  {
    player.Reconcile(server, ack);
  }
}
