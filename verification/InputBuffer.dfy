/**
 The client's buffer of sent inputs: bounded, pruned by acknowledgements, and the
 mark that says which of them are being handed out for the first time.
 */
module InputBuffers {
  import opened Wrappers

  datatype BufferedInput<+Op, +Snap> = BufferedInput(number: nat, op: Op, stateBefore: Snap)

  // What is left once the leading entries up to `ack` are gone.
  function After<Op, Snap>(s: seq<BufferedInput<Op, Snap>>, ack: nat): seq<BufferedInput<Op, Snap>> {
    if s != [] && s[0].number <= ack then After(s[1..], ack) else s
  }

  ghost predicate Increasing<Op, Snap>(s: seq<BufferedInput<Op, Snap>>) {
    forall i, j | 0 <= i < j < |s| :: s[i].number < s[j].number
  }

  // With increasing numbers, dropping a prefix is filtering by number.
  lemma {:induction false} AfterIsFilter<Op, Snap>(s: seq<BufferedInput<Op, Snap>>, ack: nat)
    requires Increasing(s)
    ensures forall b | b in After(s, ack) :: b in s && ack < b.number
    ensures forall b | b in s && ack < b.number :: b in After(s, ack)
    ensures Increasing(After(s, ack))
  {
    if s != [] && s[0].number <= ack {
      AfterIsFilter(s[1..], ack);
      assert forall b | b in s :: b == s[0] || b in s[1..];
      assert forall b | b in s[1..] :: b in s;
    } else {
      assert forall i | 0 <= i < |s| :: s[0].number <= s[i].number;
    }
  }

  // Everything handed out is at or below the mark, and everything buffered at
  // or below the mark and not acknowledged was handed out.
  ghost predicate MarksPresses<Op, Snap>(
    inputs: seq<BufferedInput<Op, Snap>>, through: nat, handed: set<nat>, passAck: nat)
  {
    && Increasing(inputs)
    && (forall n | n in handed :: n <= through)
    && (forall b | b in inputs :: passAck < b.number <= through ==> b.number in handed)
  }

  ghost predicate InBounds<Op, Snap>(inputs: seq<BufferedInput<Op, Snap>>, recorded: nat, through: nat) {
    (forall i | 0 <= i < |inputs| :: 0 < inputs[i].number <= recorded) && through <= recorded
  }

  function Mark<Op, Snap>(inputs: seq<BufferedInput<Op, Snap>>, through: nat): nat {
    if inputs != [] && through < inputs[|inputs| - 1].number then inputs[|inputs| - 1].number else through
  }

  ghost function Numbers<Op, Snap>(s: seq<BufferedInput<Op, Snap>>): set<nat> {
    set b | b in s :: b.number
  }

  lemma LastIsNewest<Op, Snap>(s: seq<BufferedInput<Op, Snap>>)
    requires Increasing(s)
    ensures forall b | b in s :: b.number <= s[|s| - 1].number
  {
    forall b | b in s
      ensures b.number <= s[|s| - 1].number
    {
      var i :| 0 <= i < |s| && s[i] == b;
    }
  }

  // Handing out everything newer than a non-decreasing acknowledgement: the
  // mark is right about each, and stays right.
  lemma PassMarksPresses<Op, Snap>(
    inputs: seq<BufferedInput<Op, Snap>>, through: nat, handed: set<nat>, passAck: nat, ack: nat)
    requires MarksPresses(inputs, through, handed, passAck) && passAck <= ack
    ensures forall b | b in After(inputs, ack) :: through < b.number <==> b.number !in handed
    ensures MarksPresses(inputs, Mark(inputs, through), handed + Numbers(After(inputs, ack)), ack)
  {
    var unacked := After(inputs, ack);
    AfterIsFilter(inputs, ack);
    forall b | b in unacked
      ensures through < b.number <==> b.number !in handed
    {
      assert b in inputs && passAck < b.number;
    }
    LastIsNewest(inputs);
    forall n | n in Numbers(unacked)
      ensures n <= Mark(inputs, through)
    {
      var b :| b in unacked && b.number == n;
      assert b in inputs;
    }
    forall b | b in inputs && ack < b.number
      ensures b.number in Numbers(unacked)
    {
      assert b in unacked;
    }
  }

  // Both, which is what an orderly run keeps.
  ghost predicate MarkIsRight<Op, Snap>(
    inputs: seq<BufferedInput<Op, Snap>>, recorded: nat, through: nat, handed: set<nat>, passAck: nat)
  {
    InBounds(inputs, recorded, through) && MarksPresses(inputs, through, handed, passAck)
  }

  lemma PassKeepsMarkRight<Op, Snap>(
    inputs: seq<BufferedInput<Op, Snap>>, recorded: nat, through: nat, handed: set<nat>, passAck: nat, ack: nat)
    requires MarkIsRight(inputs, recorded, through, handed, passAck) && passAck <= ack
    ensures MarkIsRight(inputs, recorded, Mark(inputs, through), handed + Numbers(After(inputs, ack)), ack)
  {
    PassMarksPresses(inputs, through, handed, passAck, ack);
  }

  function WithFlags<Op, Snap>(s: seq<BufferedInput<Op, Snap>>, through: nat): (passes: seq<(BufferedInput<Op, Snap>, bool)>)
    ensures |passes| == |s|
    ensures forall i | 0 <= i < |s| :: passes[i] == (s[i], through < s[i].number)
  {
    seq(|s|, i requires 0 <= i < |s| => (s[i], s[i].number > through))
  }

  lemma FlagsAreRight<Op, Snap>(unacked: seq<BufferedInput<Op, Snap>>, through: nat, handed: set<nat>)
    requires forall b | b in unacked :: through < b.number <==> b.number !in handed
    ensures forall i | 0 <= i < |unacked| :: through < unacked[i].number <==> unacked[i].number !in handed
  {}

  lemma DroppingKeepsMarkRight<Op, Snap>(
    inputs: seq<BufferedInput<Op, Snap>>, recorded: nat, through: nat, handed: set<nat>, passAck: nat)
    requires MarkIsRight(inputs, recorded, through, handed, passAck) && inputs != []
    ensures MarkIsRight(inputs[1..], recorded, through, handed, passAck)
  {
    assert forall i | 0 <= i < |inputs[1..]| :: inputs[1..][i] == inputs[i + 1];
    assert forall b | b in inputs[1..] :: b in inputs;
  }

  lemma AppendingKeepsMarkRight<Op, Snap>(
    inputs: seq<BufferedInput<Op, Snap>>, recorded: nat, through: nat, handed: set<nat>, passAck: nat,
    b: BufferedInput<Op, Snap>)
    requires MarkIsRight(inputs, recorded, through, handed, passAck) && recorded < b.number
    ensures MarkIsRight(inputs + [b], b.number, through, handed, passAck)
  {
    assert forall e | e in inputs + [b] :: e in inputs || e == b;
  }

  // Appended, with the oldest pushed out when there is no room.
  function Pushed<T>(s: seq<T>, x: T, room: nat): seq<T>
    requires 0 < room
  {
    (if |s| == room then s[1..] else s) + [x]
  }

  class ClientInputBuffer<Op, Snap> {
    var inputs: seq<BufferedInput<Op, Snap>>
    const maxSize: nat
    var overflowed: nat
    var predictedThrough: nat
    // The newest number recorded, the numbers handed out with a pass flag, and
    // the newest acknowledgement a pass was asked for.
    ghost var recorded: nat
    ghost var handed: set<nat>
    ghost var passAck: nat
    // So far numbers have increased from 1 and pass acknowledgements have not
    // decreased.
    ghost var orderly: bool

    ghost predicate Valid()
      reads this
    {
      && 0 < maxSize && |inputs| <= maxSize
      && (orderly ==> MarkIsRight(inputs, recorded, predictedThrough, handed, passAck))
    }

    constructor (maxSize: nat)
      requires 0 < maxSize
      ensures Valid() && inputs == [] && this.maxSize == maxSize && overflowed == 0
      ensures orderly && handed == {} && recorded == passAck == predictedThrough == 0
    {
      inputs, this.maxSize, overflowed, predictedThrough := [], maxSize, 0, 0;
      recorded, handed, passAck, orderly := 0, {}, 0, true;
    }

    // Appends, discarding the oldest when full.
    method RecordInput(number: nat, op: Op, stateBefore: Snap)
      requires Valid()
      modifies this
      ensures Valid() && handed == old(handed) && passAck == old(passAck) && predictedThrough == old(predictedThrough)
      ensures orderly == (old(orderly) && old(recorded) < number)
      ensures recorded == if old(recorded) < number then number else old(recorded)
      ensures inputs == Pushed(old(inputs), BufferedInput(number, op, stateBefore), maxSize)
      ensures overflowed == old(overflowed) + if |old(inputs)| == maxSize then 1 else 0
    {
      if |inputs| == maxSize {
        if orderly { DroppingKeepsMarkRight(inputs, recorded, predictedThrough, handed, passAck); }
        inputs := inputs[1..];
        overflowed := overflowed + 1;
      }
      orderly := orderly && recorded < number;
      if orderly {
        AppendingKeepsMarkRight(inputs, recorded, predictedThrough, handed, passAck, BufferedInput(number, op, stateBefore));
      }
      recorded := if recorded < number then number else recorded;
      inputs := inputs + [BufferedInput(number, op, stateBefore)];
    }

    method AcknowledgeInputsUpTo(ack: nat)
      requires Valid()
      modifies this`inputs
      ensures Valid() && inputs == After(old(inputs), ack)
    {
      while |inputs| > 0 && inputs[0].number <= ack
        invariant Valid() && After(inputs, ack) == After(old(inputs), ack)
        decreases |inputs|
      {
        inputs := inputs[1..];
      }
    }

    method GetUnacknowledgedInputs(ack: nat) returns (unacked: seq<BufferedInput<Op, Snap>>)
      ensures unacked == After(inputs, ack)
    {
      var idx := 0;
      while idx < |inputs| && inputs[idx].number <= ack
        invariant 0 <= idx <= |inputs|
        invariant After(inputs[idx..], ack) == After(inputs, ack)
      {
        assert inputs[idx..][1..] == inputs[idx + 1..];
        idx := idx + 1;
      }
      unacked := inputs[idx..];
    }

    // Hands out the unacknowledged inputs, each with a flag. In an orderly run
    // the flag is right: set exactly on an input no earlier call handed out.
    method UnacknowledgedWithPass(ack: nat) returns (passes: seq<(BufferedInput<Op, Snap>, bool)>)
      requires Valid()
      modifies this`predictedThrough, this`handed, this`passAck, this`orderly
      ensures Valid()
      ensures |passes| == |After(inputs, ack)|
      ensures forall i | 0 <= i < |passes| :: passes[i].0 == After(inputs, ack)[i]
      ensures forall i | 0 <= i < |passes| :: passes[i].1 <==> old(predictedThrough) < passes[i].0.number
      ensures predictedThrough == Mark(inputs, old(predictedThrough))
      ensures orderly == (old(orderly) && old(passAck) <= ack) && passAck == ack
      ensures orderly ==> forall i | 0 <= i < |passes| :: passes[i].1 <==> passes[i].0.number !in old(handed)
      ensures handed == old(handed) + Numbers(After(inputs, ack))
    {
      var through := predictedThrough;
      var unacked := GetUnacknowledgedInputs(ack);
      if orderly && passAck <= ack {
        PassMarksPresses(inputs, through, handed, passAck, ack);
        FlagsAreRight(unacked, through, handed);
      }
      MoveMark(ack);
      passes := WithFlags(unacked, through);
    }

    // Moves the mark past everything buffered.
    method MoveMark(ack: nat)
      requires Valid()
      modifies this`predictedThrough, this`handed, this`passAck, this`orderly
      ensures Valid() && predictedThrough == Mark(inputs, old(predictedThrough))
      ensures orderly == (old(orderly) && old(passAck) <= ack) && passAck == ack
      ensures handed == old(handed) + Numbers(After(inputs, ack))
    {
      NotePass(ack);
      if |inputs| > 0 {
        var newest := inputs[|inputs| - 1].number;
        predictedThrough := if predictedThrough < newest then newest else predictedThrough;
      }
    }

    // Notes what a pass hands out, before the mark moves.
    ghost method NotePass(ack: nat)
      requires Valid()
      modifies this`handed, this`passAck, this`orderly
      ensures orderly == (old(orderly) && old(passAck) <= ack) && passAck == ack
      ensures handed == old(handed) + Numbers(After(inputs, ack))
      ensures orderly ==> MarkIsRight(inputs, recorded, Mark(inputs, predictedThrough), handed, passAck)
    {
      if orderly && passAck <= ack {
        PassKeepsMarkRight(inputs, recorded, predictedThrough, handed, passAck, ack);
      }
      orderly, passAck, handed := orderly && passAck <= ack, ack, handed + Numbers(After(inputs, ack));
    }

    method Clear()
      requires Valid()
      modifies this`inputs
      ensures Valid() && inputs == []
    {
      inputs := [];
    }
  }
}
