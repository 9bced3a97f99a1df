/**
 What a session counts about its rollbacks, over any run of calls.
 */
module RollbackCounts {
  import opened Wrappers
  import opened FrameRings
  import opened RollbackModel

  // How many frames this call runs again, if it rolls back at all.
  ghost function Depth<S, I>(t: Trace<S, I>, op: Op<I>): Option<nat>
    requires Bound(t) <= t.now.head
  {
    if (op.Advance? || op.ResolveNow?) && t.now.enabled && t.now.pending.Some? then Some(t.now.head - Bound(t)) else None
  }

  // The depth of every rollback so far.
  ghost function Depths<S, I>(rules: Rules<S, I>, init: S, ops: seq<Op<I>>): seq<nat>
    requires RunOk(rules, ops)
  {
    if ops == [] then []
    else
      var before := ops[..|ops| - 1];
      EveryRunIsAFold(rules, init, before);
      Noted(Depths(rules, init, before), Depth(Run(rules, init, before), ops[|ops| - 1]))
  }

  function Noted(depths: seq<nat>, depth: Option<nat>): seq<nat> {
    match depth
    case Some(d) => depths + [d]
    case None => depths
  }

  // The counters hold how many there were and the deepest of them.
  ghost predicate Counts<S, I>(s: Session<S, I>, depths: seq<nat>) {
    && s.rollbacks == |depths|
    && (forall d | d in depths :: d <= s.maxRollback)
    && (s.maxRollback != 0 ==> s.maxRollback in depths)
  }

  // What one resolve does to them.
  ghost predicate CountedOn<S, I>(s: Session<S, I>, s': Session<S, I>, depth: Option<nat>) {
    match depth
    case Some(d) =>
      && s'.lastRollback == d && s'.rollbacks == s.rollbacks + 1
      && s'.maxRollback == if s.maxRollback < d then d else s.maxRollback
    case None =>
      s'.lastRollback == 0 && s'.rollbacks == s.rollbacks && s'.maxRollback == s.maxRollback
  }

  lemma CountsAfter<S, I>(s: Session<S, I>, s': Session<S, I>, depths: seq<nat>, depth: Option<nat>)
    requires Counts(s, depths) && CountedOn(s, s', depth)
    ensures Counts(s', Noted(depths, depth))
  {
    if depth.Some? {
      assert Noted(depths, depth)[|depths|] == depth.value;
    }
  }

  // A resolve counts the frames from the pending one to head, never more than
  // the history holds.
  lemma ResolveCounts<S, I>(rules: Rules<S, I>, init: S, t: Trace<S, I>)
    requires Consistent(rules, init, t)
    ensures CountedOn(t.now, Resolve(rules, t.now), Depth(t, ResolveNow))
    ensures Depth(t, ResolveNow).Some? ==> 1 <= Depth(t, ResolveNow).value <= rules.capacity
  {
    ResolveConsistent(rules, init, t);
    if RollbackTo(t.now).Some? {
      var e := RollbackTo(t.now).value;
      ResimulateShape(rules, t.now.(pending := None, lastRollback := 0, current := t.now.history.At(e)), e, t.now.head);
    }
  }

  lemma StepCounts<S, I>(rules: Rules<S, I>, init: S, t: Trace<S, I>, op: Op<I>)
    requires Consistent(rules, init, t) && OpOk(rules, op)
    ensures var s' := Step(rules, t, op).now;
            if op.Advance? || op.ResolveNow? then CountedOn(t.now, s', Depth(t, op))
            else s'.lastRollback == t.now.lastRollback && s'.rollbacks == t.now.rollbacks && s'.maxRollback == t.now.maxRollback
    ensures Depth(t, op).Some? ==> 1 <= Depth(t, op).value <= rules.capacity
  {
    ResolveCounts(rules, init, t);
    ResolveShape(rules, t.now);
  }

  lemma {:induction false} EveryRunCounts<S, I>(rules: Rules<S, I>, init: S, ops: seq<Op<I>>)
    requires RunOk(rules, ops)
    ensures Counts(Run(rules, init, ops).now, Depths(rules, init, ops))
    ensures forall d | d in Depths(rules, init, ops) :: 1 <= d <= rules.capacity
  {
    if ops != [] {
      var before := ops[..|ops| - 1];
      EveryRunCounts(rules, init, before);
      EveryRunIsAFold(rules, init, before);
      var t := Run(rules, init, before);
      var op := ops[|ops| - 1];
      StepCounts(rules, init, t, op);
      if op.Advance? || op.ResolveNow? {
        CountsAfter(t.now, Step(rules, t, op).now, Depths(rules, init, before), Depth(t, op));
      }
    }
  }

  // Over any run: the count is the number of rollbacks made, the maximum is the
  // deepest of them, and none is deeper than the history. A rollback is made
  // by exactly those calls that run frames with a correction pending and
  // rollback on, from the pending frame on.
  lemma EveryRollbackIsCounted<S, I>(rules: Rules<S, I>, init: S, ops: seq<Op<I>>)
    requires RunOk(rules, ops)
    ensures var (s, depths) := (Run(rules, init, ops).now, Depths(rules, init, ops));
            && s.rollbacks == |depths|
            && (forall d | d in depths :: 1 <= d <= s.maxRollback <= rules.capacity)
            && (s.maxRollback != 0 ==> s.maxRollback in depths)
  {
    EveryRunCounts(rules, init, ops);
  }
}
