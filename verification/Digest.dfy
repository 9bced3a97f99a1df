/**
 Folding a key set into one number that no order of insertion shows in.

 The mixing function is a parameter: nothing here depends on which keys it sends
 where. Which sets it makes agree is stated for all of them.
 */
module Digests {
  import opened Slots

  type Mixer = u64 -> u64

  // Addition and subtraction that wrap around.
  function Plus(a: u64, b: u64): u64 {
    if a + b < 0x1_0000_0000_0000_0000 then a + b else a + b - 0x1_0000_0000_0000_0000
  }

  function Minus(a: u64, b: u64): u64 {
    if b <= a then a - b else a - b + 0x1_0000_0000_0000_0000
  }

  lemma WrappingLaws(a: u64, b: u64, c: u64)
    ensures Plus(Plus(a, b), c) == Plus(Plus(a, c), b) == Plus(a, Plus(b, c))
    ensures Minus(Plus(a, b), c) == Plus(Minus(a, c), b)
    ensures Minus(Minus(a, b), c) == Minus(a, Plus(b, c))
    ensures Minus(Plus(a, b), b) == a
  {}

  lemma WrapsAround(a: u64, b: u64)
    ensures Plus(a, b) == (a + b) % 0x1_0000_0000_0000_0000
    ensures Minus(a, b) == (a - b) % 0x1_0000_0000_0000_0000
  {}

  // The wrapping sum of the mixed keys, taken out in some order.
  ghost function MixSum(mix: Mixer, keys: multiset<u64>): u64 {
    if keys == multiset{} then 0
    else
      var k :| k in keys;
      Plus(MixSum(mix, keys - multiset{k}), mix(k))
  }

  lemma TakingAnother(keys: multiset<u64>, key: u64, k: u64)
    requires k in keys + multiset{key} && k != key
    ensures keys == (keys - multiset{k}) + multiset{k} && |keys - multiset{k}| < |keys|
    ensures (keys + multiset{key}) - multiset{k} == (keys - multiset{k}) + multiset{key}
  {
    assert k in keys;
    assert keys == (keys - multiset{k}) + multiset{k};
  }

  // Whatever that order was.
  lemma {:induction false} MixSumInsert(mix: Mixer, keys: multiset<u64>, key: u64)
    ensures MixSum(mix, keys + multiset{key}) == Plus(MixSum(mix, keys), mix(key))
    decreases |keys|
  {
    var all := keys + multiset{key};
    var k :| k in all && MixSum(mix, all) == Plus(MixSum(mix, all - multiset{k}), mix(k));
    if k == key {
      assert all - multiset{k} == keys;
    } else {
      var fewer := keys - multiset{k};
      TakingAnother(keys, key, k);
      MixSumInsert(mix, fewer, key);
      MixSumInsert(mix, fewer, k);
      WrappingLaws(MixSum(mix, fewer), mix(key), mix(k));
    }
  }

  lemma {:induction false} MixSumSplits(mix: Mixer, part: multiset<u64>, rest: multiset<u64>)
    ensures MixSum(mix, part + rest) == Plus(MixSum(mix, part), MixSum(mix, rest))
    decreases |rest|
  {
    if rest == multiset{} {
      assert part + rest == part;
    } else {
      var k :| k in rest;
      var fewer := rest - multiset{k};
      assert rest == fewer + multiset{k} && part + rest == (part + fewer) + multiset{k};
      MixSumSplits(mix, part, fewer);
      MixSumInsert(mix, fewer, k);
      MixSumInsert(mix, part + fewer, k);
      WrappingLaws(MixSum(mix, part), MixSum(mix, fewer), mix(k));
    }
  }

  // The sum that does not wrap.
  function Total(mix: Mixer, keys: seq<u64>): nat
    decreases |keys|
  {
    if keys == [] then 0 else mix(keys[0]) + Total(mix, keys[1..])
  }

  lemma ListingOneMore(mix: Mixer, key: u64, keys: seq<u64>)
    ensures MixSum(mix, multiset([key] + keys)) == Plus(MixSum(mix, multiset(keys)), mix(key))
  {
    assert multiset([key] + keys) == multiset(keys) + multiset{key};
    MixSumInsert(mix, multiset(keys), key);
  }

  // Listed in any order, each as often as it occurs, short of whole laps.
  lemma {:induction false} MixSumIsTheTotal(mix: Mixer, keys: seq<u64>) returns (laps: nat)
    ensures Total(mix, keys) == MixSum(mix, multiset(keys)) + laps * 0x1_0000_0000_0000_0000
    decreases |keys|
  {
    if keys == [] {
      laps := 0;
    } else {
      laps := MixSumIsTheTotal(mix, keys[1..]);
      ListingOneMore(mix, keys[0], keys[1..]);
      assert keys == [keys[0]] + keys[1..];
      if 0x1_0000_0000_0000_0000 <= MixSum(mix, multiset(keys[1..])) + mix(keys[0]) {
        laps := laps + 1;
      }
    }
  }

  // ------------------------------------------------------------------ the value

  // Exclusive or, bit by bit from the lowest.
  function Xor(a: nat, b: nat): nat {
    if a == 0 && b == 0 then 0
    else 2 * Xor(a / 2, b / 2) + if a % 2 == b % 2 then 0 else 1
  }

  predicate Bit(n: nat, i: nat) {
    if i == 0 then n % 2 == 1 else Bit(n / 2, i - 1)
  }

  lemma {:induction false} XorBit(a: nat, b: nat, i: nat)
    ensures Bit(Xor(a, b), i) <==> Bit(a, i) != Bit(b, i)
  {
    if i != 0 {
      XorBit(a / 2, b / 2, i - 1);
      assert Xor(a, b) / 2 == Xor(a / 2, b / 2);
    }
  }

  // Two numbers that differ do so in some bit.
  lemma {:induction false} BitsTellApart(a: nat, b: nat) returns (i: nat)
    requires a != b
    ensures Bit(a, i) != Bit(b, i)
    decreases a + b
  {
    if a % 2 != b % 2 {
      i := 0;
    } else {
      var j := BitsTellApart(a / 2, b / 2);
      i := j + 1;
    }
  }

  lemma XorBits(a: nat, b: nat)
    ensures forall i :: Bit(Xor(a, b), i) <==> Bit(a, i) != Bit(b, i)
  {
    forall i: nat
      ensures Bit(Xor(a, b), i) <==> Bit(a, i) != Bit(b, i)
    {
      XorBit(a, b, i);
    }
  }

  // a and b differ in just the bits in which c and d do.
  ghost predicate DifferAlike(a: nat, b: nat, c: nat, d: nat) {
    forall i :: Bit(a, i) != Bit(b, i) <==> Bit(c, i) != Bit(d, i)
  }

  lemma EqualXors(a: nat, b: nat, c: nat, d: nat)
    ensures Xor(a, c) == Xor(b, d) <==> DifferAlike(a, b, c, d)
    ensures c == d ==> (Xor(a, c) == Xor(b, d) <==> a == b)
  {
    XorBits(a, c);
    XorBits(b, d);
    if Xor(a, c) != Xor(b, d) {
      var i := BitsTellApart(Xor(a, c), Xor(b, d));
      assert Bit(a, i) != Bit(b, i) <==> Bit(c, i) == Bit(d, i);
    }
    if a != b {
      var i := BitsTellApart(a, b);
      assert Bit(a, i) != Bit(b, i);
    }
  }

  lemma {:induction false} XorFits(a: nat, b: nat, bits: nat)
    requires a < Power(bits) && b < Power(bits)
    ensures Xor(a, b) < Power(bits)
  {
    if bits != 0 {
      XorFits(a / 2, b / 2, bits - 1);
    }
  }

  function Power(bits: nat): nat {
    if bits == 0 then 1 else 2 * Power(bits - 1)
  }

  lemma {:induction false} PowerAdds(m: nat, n: nat)
    ensures Power(m + n) == Power(m) * Power(n)
  {
    if n != 0 {
      PowerAdds(m, n - 1);
    }
  }

  lemma PowerOf64()
    ensures Power(64) == 0x1_0000_0000_0000_0000
  {
    assert Power(2) == 4;
    PowerAdds(2, 2);
    PowerAdds(4, 4);
    PowerAdds(8, 8);
    PowerAdds(16, 16);
    PowerAdds(32, 32);
  }

  // The value compared across the wire.
  function Combine(mix: Mixer, acc: u64, count: u32): u64 {
    PowerOf64();
    XorFits(acc, mix(count), 64);
    Xor(acc, mix(count))
  }

  // The digest a key multiset has, however it came about.
  ghost function DigestOf(mix: Mixer, keys: multiset<u64>): u64 {
    Combine(mix, MixSum(mix, keys), Wrap32(|keys|))
  }

  function Wrap32(n: int): u32 {
    n % 0x1_0000_0000
  }

  // Keys of one number have one digest exactly when what they mix to adds up
  // alike; with the numbers apart, only if the sums differ in just the bits in
  // which the mixed numbers do.
  lemma EqualDigests(mix: Mixer, mine: multiset<u64>, theirs: multiset<u64>)
    ensures DigestOf(mix, mine) == DigestOf(mix, theirs) <==>
            DifferAlike(MixSum(mix, mine), MixSum(mix, theirs), mix(Wrap32(|mine|)), mix(Wrap32(|theirs|)))
    ensures |mine| == |theirs| ==>
              (DigestOf(mix, mine) == DigestOf(mix, theirs) <==> MixSum(mix, mine) == MixSum(mix, theirs))
  {
    EqualXors(MixSum(mix, mine), MixSum(mix, theirs), mix(Wrap32(|mine|)), mix(Wrap32(|theirs|)));
  }

  // One key in another's place shows exactly when the two mix apart.
  lemma OneKeyReplaced(mix: Mixer, keys: multiset<u64>, mine: u64, theirs: u64)
    ensures DigestOf(mix, keys + multiset{mine}) == DigestOf(mix, keys + multiset{theirs}) <==>
            mix(mine) == mix(theirs)
  {
    EqualDigests(mix, keys + multiset{mine}, keys + multiset{theirs});
    MixSumInsert(mix, keys, mine);
    MixSumInsert(mix, keys, theirs);
  }

  // One key too few, as after a lost announcement, goes unseen exactly when its
  // mixed value moves the sum in just the bits in which the mixed numbers differ.
  lemma OneKeyMissing(mix: Mixer, keys: multiset<u64>, key: u64)
    ensures DigestOf(mix, keys) == DigestOf(mix, keys + multiset{key}) <==>
            DifferAlike(MixSum(mix, keys), Plus(MixSum(mix, keys), mix(key)), mix(Wrap32(|keys|)), mix(Wrap32(|keys| + 1)))
  {
    EqualDigests(mix, keys, keys + multiset{key});
    MixSumInsert(mix, keys, key);
  }

  // The accumulator after these insertions and removals.
  ghost function AccOf(mix: Mixer, added: multiset<u64>, removed: multiset<u64>): u64 {
    Minus(MixSum(mix, added), MixSum(mix, removed))
  }

  ghost function CountOf(added: multiset<u64>, removed: multiset<u64>): u32 {
    Wrap32(|added| - |removed|)
  }

  lemma Wrap32Later(x: int, y: int)
    ensures Wrap32(Wrap32(x) + y) == Wrap32(x + y)
    ensures 0 <= x < 0x1_0000_0000 ==> Wrap32(x) == x
  {
    var q := x / 0x1_0000_0000;
    assert x + y == 0x1_0000_0000 * q + (Wrap32(x) + y);
  }

  lemma WrapsOnAndBack(x: int)
    ensures Wrap32(x + 1) == if Wrap32(x) == 0xFFFF_FFFF then 0 else Wrap32(x) + 1
    ensures Wrap32(x - 1) == if Wrap32(x) == 0 then 0xFFFF_FFFF else Wrap32(x) - 1
  {
    Wrap32Later(x, 1);
    Wrap32Later(x, -1);
  }

  lemma CountSteps(added: multiset<u64>, removed: multiset<u64>, key: u64)
    ensures var count := CountOf(added, removed);
            && CountOf(added + multiset{key}, removed) == (if count == 0xFFFF_FFFF then 0 else count + 1)
            && CountOf(added, removed + multiset{key}) == (if count == 0 then 0xFFFF_FFFF else count - 1)
  {
    WrapsOnAndBack(|added| - |removed|);
  }

  lemma InsertAcc(mix: Mixer, added: multiset<u64>, removed: multiset<u64>, key: u64)
    ensures AccOf(mix, added + multiset{key}, removed) == Plus(AccOf(mix, added, removed), mix(key))
  {
    MixSumInsert(mix, added, key);
    WrappingLaws(MixSum(mix, added), mix(key), MixSum(mix, removed));
  }

  lemma RemoveAcc(mix: Mixer, added: multiset<u64>, removed: multiset<u64>, key: u64)
    ensures AccOf(mix, added, removed + multiset{key}) == Minus(AccOf(mix, added, removed), mix(key))
  {
    MixSumInsert(mix, removed, key);
    WrappingLaws(MixSum(mix, added), MixSum(mix, removed), mix(key));
  }

  class SetDigest {
    const mix: Mixer
    var acc: u64
    var count: u32
    // Every insertion and every removal so far, by multiplicity.
    ghost var added: multiset<u64>
    ghost var removed: multiset<u64>

    ghost predicate Valid()
      reads this
    {
      acc == AccOf(mix, added, removed) && count == CountOf(added, removed)
    }

    constructor (mix: Mixer)
      ensures Valid() && this.mix == mix && added == removed == multiset{}
      ensures acc == 0 && count == 0
    {
      this.mix, acc, count, added, removed := mix, 0, 0, multiset{}, multiset{};
    }

    method Insert(key: u64)
      requires Valid()
      modifies this
      ensures Valid() && added == old(added) + multiset{key} && removed == old(removed)
      ensures acc == Plus(old(acc), mix(key))
      ensures count == if old(count) == 0xFFFF_FFFF then 0 else old(count) + 1
    {
      InsertAcc(mix, added, removed, key);
      CountSteps(added, removed, key);
      ghost var after := added + multiset{key};
      acc := Plus(acc, mix(key));
      assert acc == AccOf(mix, after, removed);
      count := if count == 0xFFFF_FFFF then 0 else count + 1;
      added := after;
    }

    // A removal may come before the insertion it undoes.
    method Remove(key: u64)
      requires Valid()
      modifies this
      ensures Valid() && removed == old(removed) + multiset{key} && added == old(added)
      ensures acc == Minus(old(acc), mix(key))
      ensures count == if old(count) == 0 then 0xFFFF_FFFF else old(count) - 1
    {
      RemoveAcc(mix, added, removed, key);
      CountSteps(added, removed, key);
      acc := Minus(acc, mix(key));
      count := if count == 0 then 0xFFFF_FFFF else count - 1;
      removed := removed + multiset{key};
    }

    static method FromKeys(mix: Mixer, keys: seq<u64>) returns (d: SetDigest)
      ensures fresh(d) && d.Valid() && d.mix == mix
      ensures d.added == multiset(keys) && d.removed == multiset{}
    {
      d := new SetDigest(mix);
      for i := 0 to |keys|
        invariant fresh(d) && d.Valid() && d.mix == mix
        invariant d.added == multiset(keys[..i]) && d.removed == multiset{}
      {
        assert keys[..i + 1] == keys[..i] + [keys[i]];
        d.Insert(keys[i]);
      }
      assert keys[..|keys|] == keys;
    }

    // Once every removal has met its insertion, the digest is that of the keys
    // that remain: order and history are gone.
    method Digest() returns (value: u64)
      requires Valid()
      ensures forall i :: Bit(value, i) <==> Bit(acc, i) != Bit(mix(count), i)
      ensures removed <= added ==> value == DigestOf(mix, added - removed)
    {
      if removed <= added {
        ForgetsItsHistory(mix, added, removed);
      }
      value := Combine(mix, acc, count);
      XorBits(acc, mix(count));
    }
  }

  // Any run of insertions and removals leaves the accumulator and count that
  // inserting only the remaining keys would have.
  lemma ForgetsItsHistory(mix: Mixer, added: multiset<u64>, removed: multiset<u64>)
    requires removed <= added
    ensures AccOf(mix, added, removed) == MixSum(mix, added - removed)
    ensures CountOf(added, removed) == Wrap32(|added - removed|)
  {
    assert added == (added - removed) + removed;
    MixSumSplits(mix, added - removed, removed);
    WrappingLaws(MixSum(mix, added - removed), MixSum(mix, removed), 0);
  }
}
