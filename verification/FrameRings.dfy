/**
 The two frame-indexed windows under a rollback session: the ring of snapshots
 and the window of confirmed inputs.

 `Ring` and `Timeline` are the values; `StateHistory` and `InputTimeline` are the
 classes that update them in place and are proved to follow them step by step.
 */
module FrameRings {
  import opened Wrappers

  type Frame = nat

  datatype Ring<T> = Ring(items: seq<T>, base: Frame, capacity: nat, resets: nat) {
    predicate Ok() {
      0 < capacity && |items| <= capacity
    }

    function End(): Frame {
      base + |items|
    }

    predicate Holds(frame: Frame) {
      base <= frame < End()
    }

    function At(frame: Frame): T
      requires Holds(frame)
    {
      items[frame - base]
    }

    function Save(frame: Frame, item: T): Ring<T> {
      if items == [] then
        Ring([item], frame, capacity, resets)
      else if frame == End() then
        var kept := LastN(items + [item], capacity);
        Ring(kept, frame + 1 - |kept|, capacity, resets)
      else if Holds(frame) then
        this.(items := items[frame - base := item])
      else
        Ring([item], frame, capacity, resets + 1)
    }

    function Restore(frame: Frame): Option<T> {
      if Holds(frame) then Some(At(frame)) else None
    }

    function Oldest(): Option<Frame> {
      if items == [] then None else Some(base)
    }

    // The ring holds exactly the last `min(head, capacity)` frames before
    // `head`, and never had to throw its window away.
    predicate Covers(head: Frame, cap: nat) {
      && 0 < cap == capacity
      && resets == 0
      && |items| == (if head < cap then head else cap)
      && base == head - |items|
    }
  }

  datatype Timeline<I> = Timeline(slots: seq<Option<I>>, base: Frame, lastConfirmed: Option<Frame>, capacity: nat) {
    predicate Ok() {
      0 < capacity && |slots| <= capacity
    }

    function End(): Frame {
      base + |slots|
    }

    function Confirm(frame: Frame, input: I): Timeline<I> {
      if slots != [] && frame < base then
        this
      else
        var newest := Some(if lastConfirmed.Some? && frame < lastConfirmed.value then lastConfirmed.value else frame);
        if slots == [] then
          Timeline([Some(input)], frame, newest, capacity)
        else if frame < End() then
          Timeline(slots[frame - base := Some(input)], base, newest, capacity)
        else
          var kept := LastN(Widened(frame) + [Some(input)], capacity);
          Timeline(kept, frame + 1 - |kept|, newest, capacity)
    }

    // The window with unconfirmed gaps appended up to, not including, `frame`.
    function Widened(frame: Frame): seq<Option<I>>
      requires End() <= frame
    {
      slots + seq(frame - End(), _ => None)
    }

    function ConfirmedAt(frame: Frame): Option<I> {
      if base <= frame < End() then slots[frame - base] else None
    }

    // The newest confirmed frame at or before `frame` that is still held.
    function Basis(frame: Frame): Option<Frame>
    {
      if slots == [] || frame < base then None
      else NewestFrom(if frame < End() then frame else End() - 1)
    }

    function NewestFrom(frame: Frame): Option<Frame>
      requires base <= frame < End()
    {
      if slots[frame - base].Some? then Some(frame)
      else if frame == base then None
      else NewestFrom(frame - 1)
    }

    function LastConfirmedAtOrBefore(frame: Frame): Option<I> {
      match Basis(frame)
      case Some(g) => ConfirmedAt(g)
      case None => None
    }
  }

  // ------------------------------------------------------------------ known inputs

  // Every input a source was ever said to have produced, the last word per
  // frame. The real timeline forgets; this does not.
  type Known<I> = map<Frame, I>

  function Learn<I>(known: Known<I>, frame: Frame, input: I): Known<I> {
    known[frame := input]
  }

  // The newest known frame at or before `frame`.
  function LastKnown<I>(known: Known<I>, frame: Frame): (r: Option<Frame>)
    ensures r.Some? ==> r.value in known && r.value <= frame
  {
    if frame in known then Some(frame)
    else if frame == 0 then None
    else LastKnown(known, frame - 1)
  }

  // The timeline agrees with everything known from its base on, and holds
  // nothing else.
  ghost predicate Mirrors<I>(t: Timeline<I>, known: Known<I>) {
    && t.Ok()
    && (t.slots == [] <==> known == map[])
    && (t.slots == [] ==> t.lastConfirmed == None)
    && (t.slots != [] ==> t.slots[|t.slots| - 1].Some? && t.lastConfirmed == Some(t.End() - 1))
    && (forall f | f in known :: f < t.End())
    && (forall f | t.base <= f :: t.ConfirmedAt(f) == if f in known then Some(known[f]) else None)
  }

  // A confirmation inside or past the window changes one frame's answer; what
  // it pushes out is below the new base.
  lemma ConfirmChangesOneFrame<I>(t: Timeline<I>, frame: Frame, input: I, f: Frame)
    requires t.Ok() && t.slots != [] && t.base <= frame
    requires t.Confirm(frame, input).base <= f
    ensures t.Confirm(frame, input).ConfirmedAt(f) == if f == frame then Some(input) else t.ConfirmedAt(f)
  {
    if t.End() <= frame {
      var t' := t.Confirm(frame, input);
      var wide := t.Widened(frame) + [Some(input)];
      assert t'.slots == LastN(wide, t.capacity);
      if f < t'.End() {
        assert t'.slots[f - t'.base] == wide[f - t.base];
      }
    }
  }

  lemma ConfirmShape<I>(t: Timeline<I>, frame: Frame, input: I)
    requires t.Ok() && t.slots != [] && t.base <= frame
    ensures var t' := t.Confirm(frame, input);
            && t'.Ok() && t'.slots != [] && t.base <= t'.base <= frame
            && t'.End() == if frame < t.End() then t.End() else frame + 1
  {}

  lemma ConfirmMirrors<I>(t: Timeline<I>, known: Known<I>, frame: Frame, input: I)
    requires Mirrors(t, known)
    ensures Mirrors(t.Confirm(frame, input), Learn(known, frame, input))
  {
    var (t', known') := (t.Confirm(frame, input), Learn(known, frame, input));
    assert frame in known';
    if t.slots != [] && t.base <= frame {
      ConfirmShape(t, frame, input);
      forall f | t'.base <= f
        ensures t'.ConfirmedAt(f) == if f in known' then Some(known'[f]) else None
      {
        ConfirmChangesOneFrame(t, frame, input, f);
      }
      assert t'.ConfirmedAt(t'.End() - 1) == t'.slots[|t'.slots| - 1];
      assert t.ConfirmedAt(t.End() - 1) == t.slots[|t.slots| - 1];
    }
  }

  // Where a window begins: at the first frame it was ever told, until newer
  // ones push that out.
  function WindowStart(first: Frame, newest: Frame, cap: nat): Frame {
    if first + cap <= newest then newest + 1 - cap else first
  }

  ghost predicate Opened<I>(t: Timeline<I>, first: Option<Frame>, cap: nat) {
    && 0 < cap == t.capacity
    && (t.slots == [] <==> first.None?)
    && (first.Some? ==> t.base == WindowStart(first.value, t.End() - 1, cap))
  }

  // The first frame told, once this one has been too.
  function FirstTold(first: Option<Frame>, frame: Frame): Option<Frame> {
    if first.None? then Some(frame) else first
  }

  lemma ConfirmOpens<I>(t: Timeline<I>, first: Option<Frame>, cap: nat, frame: Frame, input: I)
    requires Opened(t, first, cap)
    ensures Opened(t.Confirm(frame, input), FirstTold(first, frame), cap)
  {}

  // What the timeline still has to predict `frame` from is what a memory that
  // never forgets would have, if anything it was told in its window is old
  // enough; otherwise it finds nothing.
  lemma BasisIsExact<I>(t: Timeline<I>, known: Known<I>, first: Option<Frame>, cap: nat, frame: Frame)
    requires Mirrors(t, known) && Opened(t, first, cap)
    ensures t.Basis(frame) ==
            if exists g :: g in known && Spans(t, first, g) && g <= frame then LastKnown(known, frame) else None
    ensures forall g :: Spans(t, first, g) <==> t.slots != [] && t.base <= g
  {
    if t.slots != [] && t.base <= frame {
      var top := if frame < t.End() then frame else t.End() - 1;
      NewestFromIsLastKnown(t, known, top);
      if t.Basis(frame).Some? {
        NewestFromInWindow(t, top);
        NothingKnownBetween(known, top, frame);
      }
    }
  }

  // Not before the first frame this timeline was told, and less than its
  // capacity behind the newest.
  predicate Spans<I>(t: Timeline<I>, first: Option<Frame>, frame: Frame) {
    && first.Some? && first.value <= frame
    && t.lastConfirmed.Some? && t.lastConfirmed.value < frame + t.capacity
  }

  lemma {:induction false} NothingKnownBetween<I>(known: Known<I>, older: Frame, frame: Frame)
    requires older <= frame && forall g | g in known :: !(older < g <= frame)
    ensures LastKnown(known, frame) == LastKnown(known, older)
  {
    if older < frame {
      NothingKnownBetween(known, older, frame - 1);
    }
  }

  lemma {:induction false} NewestFromInWindow<I>(t: Timeline<I>, frame: Frame)
    requires t.base <= frame < t.End()
    ensures t.NewestFrom(frame).Some? ==> t.base <= t.NewestFrom(frame).value <= frame
    decreases frame
  {
    if t.slots[frame - t.base].None? && frame != t.base {
      NewestFromInWindow(t, frame - 1);
    }
  }

  lemma {:induction false} NewestFromIsLastKnown<I>(t: Timeline<I>, known: Known<I>, frame: Frame)
    requires Mirrors(t, known) && t.base <= frame < t.End()
    ensures t.NewestFrom(frame).Some? ==> t.NewestFrom(frame) == LastKnown(known, frame)
    ensures t.NewestFrom(frame).None? ==> forall g | g in known :: !(t.base <= g <= frame)
    decreases frame
  {
    assert t.ConfirmedAt(frame) == t.slots[frame - t.base];
    if frame !in known && t.base < frame {
      NewestFromIsLastKnown(t, known, frame - 1);
    }
  }

  lemma {:induction false} LastKnownIsNewest<I>(known: Known<I>, frame: Frame)
    ensures LastKnown(known, frame).Some? ==>
              forall g | g in known :: g <= frame ==> g <= LastKnown(known, frame).value
    ensures LastKnown(known, frame).None? ==> forall g | g in known :: frame < g
  {
    if frame !in known && frame != 0 {
      LastKnownIsNewest(known, frame - 1);
    }
  }

  // Any save at all: the frame is held as given, and no other frame changes. A
  // frame inside the window or next after it keeps the rest, but for the oldest
  // of a full window; one anywhere else throws the window away, and is counted.
  lemma SaveKeepsTheRest<T>(r: Ring<T>, frame: Frame, item: T)
    requires r.Ok()
    ensures var r' := r.Save(frame, item);
            && r'.Ok() && r'.Holds(frame) && r'.At(frame) == item
            && (forall f: Frame | r.Holds(f) && r'.Holds(f) && f != frame :: r'.At(f) == r.At(f))
            && (forall f: Frame :: r'.Holds(f) <==>
                                   f == frame || (r.base <= frame <= r.End() && r.Holds(f) && frame < f + r.capacity))
            && r'.resets == r.resets + if r.items == [] || r.base <= frame <= r.End() then 0 else 1
  {}

  // Saving the frames in order slides the window; saving a frame it holds
  // changes that frame and nothing else.
  lemma SaveKeepsCover<T>(r: Ring<T>, head: Frame, cap: nat, frame: Frame, item: T)
    requires r.Covers(head, cap)
    requires frame == head || r.Holds(frame)
    ensures var r' := r.Save(frame, item);
            && r'.Covers(if frame == head then head + 1 else head, cap)
            && r'.Holds(frame) && r'.At(frame) == item
            && forall f: Frame | r'.Holds(f) && f != frame :: r.Holds(f) && r'.At(f) == r.At(f)
  {}

  // ------------------------------------------------------------------ the classes

  class StateHistory<T> {
    var ring: seq<T>
    var baseFrame: Frame
    const capacity: nat
    var resets: nat

    function View(): Ring<T>
      reads this
    {
      Ring(ring, baseFrame, capacity, resets)
    }

    constructor (capacity: nat)
      requires 0 < capacity
      ensures View() == Ring([], 0, capacity, 0)
    {
      ring, baseFrame, this.capacity, resets := [], 0, capacity, 0;
    }

    method Save(frame: Frame, state: T)
      requires View().Ok()
      modifies this
      ensures View() == old(View()).Save(frame, state)
      ensures View().Ok()
    {
      if ring == [] {
        baseFrame := frame;
        ring := ring + [state];
        return;
      }
      var end := baseFrame + |ring|;
      if frame == end {
        ring := ring + [state];
        while |ring| > capacity
          modifies `ring, `baseFrame
          invariant |ring| + baseFrame == end + 1
          invariant ring == LastN(old(ring) + [state], |ring|)
          invariant |old(ring)| < capacity ==> |ring| == |old(ring)| + 1
          invariant |old(ring)| == capacity ==> capacity <= |ring| <= capacity + 1
        {
          ring := ring[1..];
          baseFrame := baseFrame + 1;
        }
        assert ring == LastN(old(ring) + [state], capacity);
      } else if baseFrame <= frame && frame < end {
        ring := ring[frame - baseFrame := state];
      } else {
        resets := resets + 1;
        baseFrame := frame;
        ring := [state];
      }
    }

    method Restore(frame: Frame) returns (state: Option<T>)
      ensures state == View().Restore(frame)
      ensures state == if baseFrame <= frame < baseFrame + |ring| then Some(ring[frame - baseFrame]) else None
    {
      if |ring| == 0 || frame < baseFrame {
        return None;
      }
      var idx := frame - baseFrame;
      state := if idx < |ring| then Some(ring[idx]) else None;
    }

    method OldestFrame() returns (frame: Option<Frame>)
      ensures frame == View().Oldest()
      ensures frame.None? ==> forall f: Frame :: !View().Holds(f)
      ensures frame.Some? ==> View().Holds(frame.value) && forall f: Frame | View().Holds(f) :: frame.value <= f
    {
      frame := if |ring| == 0 then None else Some(baseFrame);
    }
  }

  class InputTimeline<I> {
    var slots: seq<Option<I>>
    var baseFrame: Frame
    var lastConfirmed: Option<Frame>
    const capacity: nat

    function View(): Timeline<I>
      reads this
    {
      Timeline(slots, baseFrame, lastConfirmed, capacity)
    }

    constructor (capacity: nat)
      requires 0 < capacity
      ensures View() == Timeline([], 0, None, capacity)
    {
      slots, baseFrame, lastConfirmed, this.capacity := [], 0, None, capacity;
    }

    method Confirm(frame: Frame, input: I)
      requires View().Ok()
      modifies this
      ensures View() == old(View()).Confirm(frame, input)
      ensures View().Ok()
    {
      if slots == [] {
        baseFrame := frame;
        slots := [Some(input)];
      } else if frame < baseFrame {
        return;
      } else {
        var end := baseFrame + |slots|;
        if frame < end {
          slots := slots[frame - baseFrame := Some(input)];
        } else {
          FillGap(frame);
          slots := slots + [Some(input)];
        }
        Trim();
      }
      lastConfirmed := Some(match lastConfirmed
                            case None => frame
                            case Some(c) => if c < frame then frame else c);
    }

    // Widens the window with empty slots up to `frame`.
    method FillGap(frame: Frame)
      requires View().End() <= frame
      modifies this`slots
      ensures slots == old(View()).Widened(frame)
    {
      while baseFrame + |slots| < frame
        invariant baseFrame + |slots| <= frame
        invariant |old(slots)| <= |slots| && slots[..|old(slots)|] == old(slots)
        invariant forall k | |old(slots)| <= k < |slots| :: slots[k] == None
      {
        slots := slots + [None];
      }
    }

    // Pops the oldest frames until the window fits.
    method Trim()
      modifies this`slots, this`baseFrame
      ensures slots == LastN(old(slots), capacity) && View().End() == old(View()).End()
    {
      while |slots| > capacity
        invariant |slots| + baseFrame == |old(slots)| + old(baseFrame)
        invariant |slots| <= |old(slots)| && slots == old(slots)[|old(slots)| - |slots|..]
        invariant |slots| < |old(slots)| ==> capacity <= |slots|
      {
        slots := slots[1..];
        baseFrame := baseFrame + 1;
      }
    }

    method ConfirmedAt(frame: Frame) returns (input: Option<I>)
      ensures input == View().ConfirmedAt(frame)
    {
      if |slots| == 0 || frame < baseFrame {
        return None;
      }
      var idx := frame - baseFrame;
      input := if idx < |slots| then slots[idx] else None;
    }

    method LastConfirmedAtOrBefore(frame: Frame) returns (input: Option<I>)
      ensures input == View().LastConfirmedAtOrBefore(frame)
    {
      if |slots| == 0 || frame < baseFrame {
        return None;
      }
      var end := baseFrame + |slots|;
      var f := if frame < end - 1 then frame else end - 1;
      while true
        invariant baseFrame <= f < end
        invariant View().Basis(frame) == View().NewestFrom(f)
        decreases f
      {
        var idx := f - baseFrame;
        if slots[idx].Some? {
          return slots[idx];
        }
        if f == baseFrame {
          return None;
        }
        f := f - 1;
      }
    }
  }
}
