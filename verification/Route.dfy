/**
 Prediction by shared rule: a body walks the route it expanded itself, and what
 the server reports is spent on that route. Drawn positions are reals.
 */
module Routes {
  import opened Wrappers

  datatype Heard = OnRoute | OffRoute | Unchecked

  type Point = (real, real)

  // The checking half of a predictor: what the server's reports are spent on.
  datatype Check<P> = Check(confirmed: P, expected: seq<P>, checking: bool, confirmations: nat, diverged: nat)

  // The first of the next `slack` expected squares that is `at`.
  function FirstMatch<P(==)>(expected: seq<P>, at: P, slack: nat): Option<nat> {
    if slack == 0 || expected == [] then None
    else if expected[0] == at then Some(0)
    else
      match FirstMatch(expected[1..], at, slack - 1)
      case Some(i) => Some(i + 1)
      case None => None
  }

  lemma {:induction false} FirstMatchIsFirst<P>(expected: seq<P>, at: P, slack: nat)
    ensures match FirstMatch(expected, at, slack)
            case Some(i) => i < slack && i < |expected| && expected[i] == at && forall j | 0 <= j < i :: expected[j] != at
            case None => forall j | 0 <= j < slack && j < |expected| :: expected[j] != at
  {
    if slack != 0 && expected != [] && expected[0] != at {
      FirstMatchIsFirst(expected[1..], at, slack - 1);
    }
  }

  // Spending up to `reach` squares on one report: on the route if it is among
  // them, off it if they all differ, unchecked if the route runs out.
  function Spend<P(==)>(expected: seq<P>, at: P, reach: nat): (Heard, seq<P>) {
    FirstMatchIsFirst(expected, at, reach);
    match FirstMatch(expected, at, reach)
    case Some(i) => (OnRoute, expected[i + 1..])
    case None => if |expected| < reach then (Unchecked, []) else (OffRoute, expected[reach..])
  }

  // One report, of at most `slack` squares (at least one).
  function Hear<P(==)>(c: Check<P>, at: P, slack: nat): (Check<P>, Heard) {
    if at == c.confirmed then (c, Unchecked)
    else if !c.checking then (c.(confirmed := at), Unchecked)
    else
      var (heard, rest) := Spend(c.expected, at, if slack == 0 then 1 else slack);
      var missed := if heard == OffRoute then 1 else 0;
      (Check(at, rest, heard == OnRoute, c.confirmations + 1, c.diverged + missed), heard)
  }

  // The square `position` steps along the route: 0 is the start.
  function SquareAt<P>(start: P, route: seq<P>, position: nat): P
    requires position <= |route|
  {
    if position == 0 then start else route[position - 1]
  }

  // The server stands at `position`, and the check expects exactly the rest.
  ghost predicate AtPosition<P>(c: Check<P>, start: P, route: seq<P>, position: nat) {
    && position <= |route|
    && c.checking
    && c.confirmed == SquareAt(start, route, position)
    && c.expected == route[position..]
  }

  // A report of the server's own position says nothing; one further along,
  // within slack, is on the route and leaves exactly the rest expected.
  lemma HonestReportIsOnRoute<P>(c: Check<P>, start: P, route: seq<P>, position: nat, next: nat, slack: nat)
    requires Distinct(route) && start !in route && AtPosition(c, start, route, position)
    requires position <= next <= |route| && next - position <= (if slack == 0 then 1 else slack)
    ensures var (c', heard) := Hear(c, SquareAt(start, route, next), slack);
            && heard == (if next == position then Unchecked else OnRoute)
            && AtPosition(c', start, route, next) && c'.diverged == c.diverged
  {
    if position < next {
      FirstMatchIsFirst(c.expected, route[next - 1], if slack == 0 then 1 else slack);
      assert c.expected[next - 1 - position] == route[next - 1];
      assert route[next - 1] in route;
    }
  }

  // The last position reported, the start before any.
  function Reached(positions: seq<nat>): nat {
    if positions == [] then 0 else positions[|positions| - 1]
  }

  // Every report of a journey, in turn: where the server has got to.
  function HearAll<P(==)>(c: Check<P>, start: P, route: seq<P>, positions: seq<nat>, slack: nat): (Check<P>, seq<Heard>)
    requires forall k | 0 <= k < |positions| :: positions[k] <= |route|
  {
    if positions == [] then (c, [])
    else
      var (c', heard) := HearAll(c, start, route, positions[..|positions| - 1], slack);
      var (c'', last) := Hear(c', SquareAt(start, route, positions[|positions| - 1]), slack);
      (c'', heard + [last])
  }

  // A checked journey over a simple path not through its start: as long as the
  // server walks the same route, at most `slack` squares a report, every
  // report of a new square is on the route, every repeat says nothing, and
  // what stays expected is exactly the squares not yet reached.
  lemma {:induction false} HonestJourneyNeverDiverges<P>(
    c: Check<P>, start: P, route: seq<P>, positions: seq<nat>, slack: nat)
    requires Distinct(route) && start !in route && AtPosition(c, start, route, 0)
    requires forall k | 0 <= k < |positions| :: positions[k] <= |route|
    requires forall k | 0 <= k < |positions| ::
               0 <= positions[k] - Reached(positions[..k]) <= (if slack == 0 then 1 else slack)
    ensures var (c', heard) := HearAll(c, start, route, positions, slack);
            && |heard| == |positions|
            && (forall k | 0 <= k < |heard| ::
                  heard[k] == if positions[k] == Reached(positions[..k]) then Unchecked else OnRoute)
            && AtPosition(c', start, route, Reached(positions))
            && c'.diverged == c.diverged
  {
    if positions != [] {
      var before := positions[..|positions| - 1];
      forall k | 0 <= k <= |before| ensures before[..k] == positions[..k] {}
      HonestJourneyNeverDiverges(c, start, route, before, slack);
      var (c', earlier) := HearAll(c, start, route, before, slack);
      HonestReportIsOnRoute(c', start, route, Reached(before), positions[|positions| - 1], slack);
      var heard := HearAll(c, start, route, positions, slack).1;
      forall k | 0 <= k < |heard|
        ensures heard[k] == if positions[k] == Reached(positions[..k]) then Unchecked else OnRoute
      {
        if k < |before| {
          assert heard[k] == earlier[k] && before[k] == positions[k] && before[..k] == positions[..k];
        } else {
          assert positions[..k] == before;
        }
      }
    }
  }

  // A verdict of divergence means the server really was on none of the next
  // squares; one of agreement that it was on one, and is expected past the
  // first of those from then on.
  lemma VerdictsAreEarned<P>(c: Check<P>, at: P, slack: nat)
    requires c.checking && at != c.confirmed
    ensures var reach := if slack == 0 then 1 else slack;
            var heard := Hear(c, at, slack).1;
            && (heard == OnRoute <==> exists j :: 0 <= j < reach && j < |c.expected| && c.expected[j] == at)
            && (heard == OffRoute <==> reach <= |c.expected| && at !in c.expected[..reach])
            && (heard == OnRoute ==>
                  exists i | 0 <= i < |c.expected| && c.expected[i] == at && at !in c.expected[..i] ::
                    Hear(c, at, slack).0.expected == c.expected[i + 1..])
            && (heard == OffRoute ==> Hear(c, at, slack).0.expected == c.expected[reach..])
            && (heard == Unchecked ==> Hear(c, at, slack).0.expected == [])
  {
    var reach := if slack == 0 then 1 else slack;
    FirstMatchIsFirst(c.expected, at, reach);
    if reach <= |c.expected| {
      assert forall j | 0 <= j < reach :: c.expected[..reach][j] == c.expected[j];
    }
  }

  // Every report says where the server is; one of another square while checking
  // is counted, and counted as a divergence exactly when it is one.
  lemma ReportsAreCounted<P>(c: Check<P>, at: P, slack: nat)
    ensures var (c', heard) := Hear(c, at, slack);
            && c'.confirmed == at
            && c'.confirmations == c.confirmations + (if c.checking && at != c.confirmed then 1 else 0)
            && c'.diverged == c.diverged + (if heard == OffRoute then 1 else 0)
            && (heard == OnRoute || heard == OffRoute ==> c.checking && at != c.confirmed)
            && (!c.checking || at == c.confirmed ==> c'.expected == c.expected && c'.checking == c.checking)
  {}

  // Setting out: checked only with nothing owed on either side and the two
  // ends on one square.
  function Depart<P(==)>(c: Check<P>, predicted: P, planDone: bool, route: seq<P>, checkable: bool): Check<P> {
    c.(expected := route, checking := checkable && planDone && c.expected == [] && c.confirmed == predicted)
  }

  datatype Event<P> =
    | Departs(predicted: P, planDone: bool, route: seq<P>, checkable: bool)
    | Reports(at: P, slack: nat)
    | Jumps(at: P)
    | Abandons
    | Settles

  function Happen<P(==)>(c: Check<P>, event: Event<P>): Check<P> {
    match event
    case Departs(predicted, planDone, route, checkable) => Depart(c, predicted, planDone, route, checkable)
    case Reports(at, slack) => Hear(c, at, slack).0
    case Jumps(at) => c.(confirmed := at, expected := [], checking := false)
    case Abandons => c.(expected := [], checking := false)
    case Settles => c.(expected := [])
  }

  function After<P(==)>(c: Check<P>, events: seq<Event<P>>): Check<P> {
    if events == [] then c else Happen(After(c, events[..|events| - 1]), events[|events| - 1])
  }

  // A run is nothing but one event after another, each what one call does.
  lemma AfterOneMore<P>(c: Check<P>, events: seq<Event<P>>, event: Event<P>)
    ensures After(c, []) == c && After(c, events + [event]) == Happen(After(c, events), event)
  {
    assert (events + [event])[..|events|] == events;
  }

  // What strikes off every square owed.
  predicate Clears<P(==)>(event: Event<P>) {
    match event
    case Departs(_, _, route, _) => route == []
    case Reports(_, _) => false
    case Jumps(_) => true
    case Abandons => true
    case Settles => true
  }

  // An unchecked journey leaves squares owed that no report spends, so every
  // later journey goes unchecked too, even one from rest with both ends on one
  // square, until one sets out on an empty route or the body is stood
  // somewhere, its route abandoned or the server's square taken.
  lemma {:induction false} UncheckedJourneysStayUnchecked<P>(c: Check<P>, events: seq<Event<P>>)
    requires !c.checking && c.expected != []
    ensures var c' := After(c, events);
            || (exists k :: 0 <= k < |events| && Clears(events[k]))
            || (!c'.checking && c'.expected != [] && c'.confirmations == c.confirmations && c'.diverged == c.diverged)
  {
    if events != [] {
      UncheckedJourneysStayUnchecked(c, events[..|events| - 1]);
    }
  }

  // And an empty route does clear it: of two journeys after an unchecked one,
  // whatever is reported before and between them, the second, made from rest,
  // is checked exactly when the first had no squares and both ends then stand
  // on one.
  lemma OnlyAnEmptyRouteClears<P>(
    c: Check<P>, before: seq<Event<P>>, first: Event<P>, between: seq<Event<P>>, predicted: P, route: seq<P>)
    requires !c.checking && c.expected != [] && first.Departs? && OnlyReports(before) && OnlyReports(between)
    ensures var c' := After(Happen(After(c, before), first), between);
            Depart(c', predicted, true, route, true).checking <==> first.route == [] && c'.confirmed == predicted
  {
    ReportsChangeNothingOwed(c, before);
    ReportsChangeNothingOwed(Happen(After(c, before), first), between);
  }

  ghost predicate OnlyReports<P>(events: seq<Event<P>>) {
    forall k | 0 <= k < |events| :: events[k].Reports?
  }

  lemma {:induction false} ReportsChangeNothingOwed<P>(c: Check<P>, reports: seq<Event<P>>)
    requires OnlyReports(reports) && !c.checking
    ensures !After(c, reports).checking && After(c, reports).expected == c.expected
  {
    if reports != [] {
      ReportsChangeNothingOwed(c, reports[..|reports| - 1]);
    }
  }

  // How a checked journey stops being checked: a report none of the next
  // squares match. It leaves squares owed, and so blocks later checks, exactly
  // when that report was a divergence and the route went on further.
  lemma EndOfCheckingOwes<P>(c: Check<P>, at: P, slack: nat)
    requires c.checking
    ensures var (c', heard) := Hear(c, at, slack);
            var reach := if slack == 0 then 1 else slack;
            && (c'.checking <==> at == c.confirmed || heard == OnRoute)
            && (!c'.checking && c'.expected != [] <==> heard == OffRoute && reach < |c.expected|)
  {
    FirstMatchIsFirst(c.expected, at, if slack == 0 then 1 else slack);
  }

  // How much of a step has gone by, clamped to one.
  function Fraction(gone: nat, stepMs: nat): real
    requires 0 < stepMs
  {
    if stepMs <= gone then 1.0 else gone as real / stepMs as real
  }

  function Part(from: real, to: real, t: real): real {
    from + (to - from) * t
  }

  // Part way across, by the time gone out of a step.
  function Blend(from: Point, to: Point, gone: nat, stepMs: nat): Point
    requires 0 < stepMs
  {
    var t := Fraction(gone, stepMs);
    (Part(from.0, to.0, t), Part(from.1, to.1, t))
  }

  lemma BlendStartsAtFrom(from: Point, to: Point, stepMs: nat)
    requires 0 < stepMs
    ensures Blend(from, to, 0, stepMs) == from
  {}

  lemma BlendStandsStill(at: Point, gone: nat, stepMs: nat)
    requires 0 < stepMs
    ensures Blend(at, at, gone, stepMs) == at
  {}

  lemma PartIsInProportion(from: real, to: real, gone: nat, stepMs: nat)
    requires 0 < stepMs
    ensures var part := Part(from, to, Fraction(gone, stepMs));
            && (gone <= stepMs ==> (part - from) * stepMs as real == (to - from) * gone as real)
            && (stepMs <= gone ==> part == to)
  {
    var t := Fraction(gone, stepMs);
    if gone <= stepMs {
      assert t * stepMs as real == gone as real;
      assert ((to - from) * t) * stepMs as real == (to - from) * (t * stepMs as real);
    }
  }

  // Whether a point is further from another than a hundredth.
  predicate Away(from: Point, to: Point) {
    var (dx, dy) := (to.0 - from.0, to.1 - from.1);
    dx * dx + dy * dy > 0.0001
  }

  // What is left of the way shrinks with the time, and nothing is left only
  // after a whole step or with nowhere to go.
  lemma WhatIsLeft(from: Point, to: Point, gone: nat, stepMs: nat)
    requires 0 < stepMs
    ensures var at := Blend(from, to, gone, stepMs);
            if Away(from, to) && gone < stepMs then at != to
            else (to.0 - at.0) * (to.0 - at.0) + (to.1 - at.1) * (to.1 - at.1) <= 0.0001
  {
    var t := Fraction(gone, stepMs);
    LeftOver(from.0, to.0, t);
    LeftOver(from.1, to.1, t);
  }

  lemma LeftOver(from: real, to: real, t: real)
    requires 0.0 <= t <= 1.0
    ensures var (way, left) := (to - from, to - Part(from, to, t));
            && left * left <= way * way
            && (t < 1.0 && from != to ==> left != 0.0)
            && (t == 1.0 ==> left * left == 0.0)
  {
    SquareShrinks(to - from, 1.0 - t, to - Part(from, to, t));
  }

  lemma SquareShrinks(way: real, part: real, left: real)
    requires 0.0 <= part <= 1.0 && left == way * part
    ensures left * left <= way * way
    ensures part != 0.0 && way != 0.0 ==> left != 0.0
  {
    var square := way * way;
    assert 0.0 <= square;
    Shrinks(square, part);
    Shrinks(square * part, part);
    assert left * left == (square * part) * part;
  }

  lemma Shrinks(x: real, part: real)
    requires 0.0 <= x && 0.0 <= part <= 1.0
    ensures 0.0 <= x * part <= x
  {
    assert 0.0 <= x * (1.0 - part);
  }

  // A plan and its body after up to `steps` squares of it.
  function Taken<P>(plan: seq<P>, at: P, steps: nat): (seq<P>, P) {
    var taken := if |plan| < steps then |plan| else steps;
    (plan[taken..], if taken == 0 then at else plan[taken - 1])
  }

  // Two helpings of squares are one of their sum, and enough of them end the
  // walk on the last square of the plan.
  lemma TakenAdds<P>(plan: seq<P>, at: P, m: nat, n: nat)
    ensures var (rest, reached) := Taken(plan, at, m);
            Taken(rest, reached, n) == Taken(plan, at, m + n)
    ensures |plan| <= m ==> Taken(plan, at, m) == ([], if plan == [] then at else plan[|plan| - 1])
    ensures 0 < m && plan != [] ==> Taken(plan, at, 1) == (plan[1..], plan[0])
  {}

  class RoutePredictor<P(==)> {
    const point: P -> Point
    var predicted: P
    var confirmed: P
    var plan: seq<P>
    var expected: seq<P>
    var checking: bool
    var from: Point
    var stepMs: nat
    var steppedMs: nat
    var nextStepMs: nat
    var seeded: bool
    var confirmations: nat
    var diverged: nat
    // How many divergences there had been when this journey set out.
    ghost var divergedBefore: nat

    // One journey reports at most one divergence, and its check is then over.
    ghost predicate Valid()
      reads this
    {
      && 0 < stepMs
      && divergedBefore <= diverged <= divergedBefore + 1
      && (diverged == divergedBefore + 1 ==> !checking)
    }

    function View(): Check<P>
      reads this`confirmed, this`expected, this`checking, this`confirmations, this`diverged
    {
      Check(confirmed, expected, checking, confirmations, diverged)
    }

    // Part of the way from where the crossing began to the predicted square.
    function Drawn(now: nat): Point
      requires 0 < stepMs
      reads this`from, this`predicted, this`stepMs, this`steppedMs
    {
      Blend(from, point(predicted), if now < steppedMs then 0 else now - steppedMs, stepMs)
    }

    predicate Crossing(now: nat)
      reads this`from, this`predicted, this`stepMs, this`steppedMs
    {
      Away(from, point(predicted)) && (if now < steppedMs then 0 else now - steppedMs) < stepMs
    }

    // The picture crosses at an even pace: as much of the way as of the step has
    // gone by, and all of it from one step on.
    lemma DrawnInProportion(now: nat)
      requires 0 < stepMs
      ensures var gone := if now < steppedMs then 0 else now - steppedMs;
              var (at, to) := (Drawn(now), point(predicted));
              && (gone <= stepMs ==>
                    && (at.0 - from.0) * stepMs as real == (to.0 - from.0) * gone as real
                    && (at.1 - from.1) * stepMs as real == (to.1 - from.1) * gone as real)
              && (stepMs <= gone ==> at == to)
    {
      var gone := if now < steppedMs then 0 else now - steppedMs;
      PartIsInProportion(from.0, point(predicted).0, gone, stepMs);
      PartIsInProportion(from.1, point(predicted).1, gone, stepMs);
    }

    // A body that is crossing is not drawn where it is going; one that is not is
    // drawn no further than a hundredth from it.
    lemma CrossingIsSeen(now: nat)
      requires 0 < stepMs
      ensures var (at, to) := (Drawn(now), point(predicted));
              if Crossing(now) then at != to
              else (to.0 - at.0) * (to.0 - at.0) + (to.1 - at.1) * (to.1 - at.1) <= 0.0001
    {
      WhatIsLeft(from, point(predicted), if now < steppedMs then 0 else now - steppedMs, stepMs);
    }

    // Drawn on its own square from one step on.
    lemma Arrives()
      requires 0 < stepMs
      ensures forall later: nat | steppedMs + stepMs <= later :: Drawn(later) == point(predicted)
    {
      forall later: nat | steppedMs + stepMs <= later
        ensures Drawn(later) == point(predicted)
      {
        DrawnInProportion(later);
      }
    }

    constructor (initial: P, point: P -> Point, stepMs: nat)
      ensures Valid() && View() == Check(initial, [], false, 0, 0)
      ensures predicted == initial && plan == [] && !seeded && this.point == point
      ensures this.stepMs == if stepMs == 0 then 1 else stepMs
    {
      this.point, predicted, confirmed, plan, expected, checking := point, initial, initial, [], [], false;
      from, this.stepMs, steppedMs, nextStepMs, seeded := point(initial), if stepMs == 0 then 1 else stepMs, 0, 0, false;
      confirmations, diverged, divergedBefore := 0, 0, 0;
    }

    method SetStepMs(ms: nat)
      requires Valid()
      modifies this`stepMs
      ensures Valid() && stepMs == if ms == 0 then 1 else ms
    {
      stepMs := if ms == 0 then 1 else ms;
    }

    // Stands the body on a square at once; no other move changes the picture.
    method JumpTo(at: P, now: nat)
      requires Valid()
      modifies this
      ensures Valid() && View() == Happen(old(View()), Jumps(at))
      ensures predicted == at && plan == [] && seeded && stepMs == old(stepMs)
      ensures steppedMs == now && nextStepMs == now + stepMs
      ensures forall later: nat :: Drawn(later) == point(at)
    {
      PutDown(at, now);
      StandsStill();
    }

    method PutDown(at: P, now: nat)
      requires Valid()
      modifies this
      ensures Valid() && stepMs == old(stepMs) && confirmations == old(confirmations) && diverged == old(diverged)
      ensures predicted == confirmed == at && from == point(at) && plan == expected == [] && seeded && !checking
      ensures steppedMs == now && nextStepMs == now + stepMs
    {
      from := point(at);
      predicted, confirmed := at, at;
      plan, expected, checking := [], [], false;
      steppedMs, nextStepMs, seeded := now, now + stepMs, true;
    }

    // Drawn there whatever the clock says.
    lemma StandsStill()
      requires 0 < stepMs && from == point(predicted)
      ensures forall later: nat :: Drawn(later) == point(predicted)
    {
      forall later: nat
        ensures Drawn(later) == point(predicted)
      {
        BlendStandsStill(from, if later < steppedMs then 0 else later - steppedMs, stepMs);
      }
    }

    // Takes a route without changing where the body is.
    method SetOut(route: seq<P>, checkable: bool, now: nat)
      requires Valid()
      modifies this`plan, this`expected, this`checking, this`nextStepMs, this`divergedBefore
      ensures Valid() && Drawn(now) == old(Drawn(now)) && divergedBefore == diverged
      ensures plan == route
      ensures View() == Happen(old(View()), Departs(predicted, old(plan) == [], route, checkable))
      ensures checking == (checkable && old(plan) == [] && old(expected) == [] && confirmed == predicted)
      ensures expected == route && confirmations == old(confirmations) && diverged == old(diverged)
      ensures checking ==> AtPosition(View(), predicted, route, 0)
      ensures nextStepMs == if old(plan) == [] && !old(Crossing(now)) then now else old(nextStepMs)
    {
      var wasWalking := plan != [] || Crossing(now);
      checking := checkable && plan == [] && expected == [] && confirmed == predicted;
      TakeRoute(route);
      if !wasWalking {
        nextStepMs := now;
      }
      divergedBefore := diverged;
    }

    method TakeRoute(route: seq<P>)
      modifies this`plan, this`expected
      ensures plan == expected == route
    {
      plan, expected := [], [];
      for i := 0 to |route|
        invariant plan == route[..i] && expected == route[..i]
      {
        plan := plan + [route[i]];
        expected := expected + [route[i]];
      }
    }

    // Walks the local clock forward: at most one step, of at most
    // `stepsPerTick` squares. The picture does not jump, and has come to the
    // new square one step later.
    method Advance(now: nat, stepsPerTick: nat)
      requires Valid()
      modifies this`predicted, this`plan, this`from, this`steppedMs, this`nextStepMs
      ensures Valid() && Drawn(now) == old(Drawn(now))
      ensures forall later: nat | steppedMs + stepMs <= later :: Drawn(later) == point(predicted)
      ensures var steps := if stepsPerTick == 0 then 1 else stepsPerTick;
              var moves := seeded && old(nextStepMs) <= now && old(plan) != [];
              var taken := if !moves then 0 else if |old(plan)| < steps then |old(plan)| else steps;
              && plan == old(plan)[taken..]
              && predicted == (if taken == 0 then old(predicted) else old(plan)[taken - 1])
              && nextStepMs == (if moves then now + stepMs else old(nextStepMs))
              && steppedMs == (if moves then now else old(steppedMs))
              && from == (if moves then old(Drawn(now)) else old(from))
    {
      if !seeded || plan == [] {
        Arrives();
        return;
      }
      var steps := if stepsPerTick == 0 then 1 else stepsPerTick;
      var stepped := false;
      while now >= nextStepMs && plan != []
        invariant Drawn(now) == old(Drawn(now))
        invariant from == (if stepped then old(Drawn(now)) else old(from))
        invariant steppedMs == if stepped then now else old(steppedMs)
        invariant !stepped ==> plan == old(plan) && predicted == old(predicted) && nextStepMs == old(nextStepMs)
        invariant stepped ==>
                    && now >= old(nextStepMs) && nextStepMs == now + stepMs
                    && (plan, predicted) == Taken(old(plan), old(predicted), steps)
        decreases !stepped
      {
        from := Drawn(now);
        TakeSteps(steps);
        steppedMs := now;
        nextStepMs := now + stepMs;
        stepped := true;
        BlendStartsAtFrom(from, point(predicted), stepMs);
      }
      Arrives();
    }

    method TakeSteps(steps: nat)
      modifies this`predicted, this`plan
      ensures (plan, predicted) == Taken(old(plan), old(predicted), steps)
    {
      for k := 0 to steps
        invariant (plan, predicted) == Taken(old(plan), old(predicted), k)
      {
        if plan != [] {
          predicted := plan[0];
          plan := plan[1..];
        }
      }
    }

    method Confirm(at: P, slack: nat) returns (heard: Heard)
      requires Valid()
      modifies this`confirmed, this`expected, this`checking, this`confirmations, this`diverged
      ensures Valid() && (View(), heard) == Hear(old(View()), at, slack)
      ensures View() == Happen(old(View()), Reports(at, slack))
    {
      if at == confirmed {
        return Unchecked;
      }
      confirmed := at;
      if !checking {
        return Unchecked;
      }
      confirmations := confirmations + 1;
      var reach := if slack == 0 then 1 else slack;
      heard := SpendExpected(at, reach);
      match heard {
        case OnRoute =>
        case Unchecked =>
          checking := false;
        case OffRoute =>
          diverged := diverged + 1;
          checking := false;
      }
    }

    // Takes squares off the route until one is `at`, it runs out, or `reach`
    // of them are gone.
    method SpendExpected(at: P, reach: nat) returns (heard: Heard)
      modifies this`expected
      ensures (heard, expected) == Spend(old(expected), at, reach)
    {
      var k := 0;
      while k < reach
        invariant 0 <= k <= reach && k <= |old(expected)| && expected == old(expected)[k..]
        invariant FirstMatch(old(expected), at, reach) == match FirstMatch(expected, at, reach - k)
                                                          case Some(i) => Some(i + k) case None => None
      {
        if expected == [] {
          return Unchecked;
        }
        var next := expected[0];
        expected := expected[1..];
        if next == at {
          return OnRoute;
        }
        k := k + 1;
      }
      return OffRoute;
    }

    // Sets the body across to a square from wherever it is drawn.
    method StartCrossing(at: P, now: nat)
      requires 0 < stepMs
      modifies this`from, this`predicted, this`steppedMs, this`nextStepMs
      ensures Drawn(now) == old(Drawn(now)) && predicted == at
      ensures forall later: nat | now + stepMs <= later :: Drawn(later) == point(at)
      ensures steppedMs == now && nextStepMs == now + stepMs
    {
      from := Drawn(now);
      predicted := at;
      steppedMs, nextStepMs := now, now + stepMs;
      BlendStartsAtFrom(from, point(predicted), stepMs);
      Arrives();
    }

    // Gives the route up where the body stands, without moving the picture.
    method Abandon(at: P, now: nat)
      requires Valid()
      modifies this`from, this`predicted, this`plan, this`expected, this`checking, this`steppedMs, this`nextStepMs
      ensures Valid() && Drawn(now) == old(Drawn(now))
      ensures forall later: nat | now + stepMs <= later :: Drawn(later) == point(at)
      ensures predicted == at && plan == [] && View() == Happen(old(View()), Abandons)
      ensures steppedMs == now && nextStepMs == now + stepMs
    {
      StartCrossing(at, now);
      plan, expected, checking := [], [], false;
    }

    predicate Walking(now: nat)
      reads this
    {
      plan != [] || Crossing(now)
    }

    // Takes the server's square, only at rest, without moving the picture.
    method Settle(now: nat) returns (moved: bool)
      requires Valid()
      modifies this`from, this`predicted, this`plan, this`expected, this`steppedMs, this`nextStepMs
      ensures Valid() && Drawn(now) == old(Drawn(now))
      ensures moved == (seeded && old(plan) == [] && !old(Crossing(now)) && confirmed != old(predicted))
      ensures moved ==> predicted == confirmed && plan == [] && View() == Happen(old(View()), Settles)
      ensures moved ==> steppedMs == now && nextStepMs == now + stepMs
      ensures moved ==> forall later: nat | now + stepMs <= later :: Drawn(later) == point(confirmed)
      ensures !moved ==> unchanged(this)
    {
      if !seeded || Walking(now) || confirmed == predicted {
        return false;
      }
      StartCrossing(confirmed, now);
      plan, expected := [], [];
      return true;
    }
  }
}
