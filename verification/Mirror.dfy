/**
 What a client holds of the entities sent to it: applying packets in any order,
 settling whether both ends hold the same keys, and what generations protect.
 */
module Mirrors {
  import opened Wrappers
  import opened Slots
  import opened Ack
  import opened Digests

  datatype Held<+E> = Held(generation: u16, entity: E)

  type Holding<+E> = map<u32, Held<E>>

  // An entity announced in full under its key.
  datatype Entry<+E> = Entry(key: SlotKey, entity: E)

  datatype Agreement = Agreed | Diverged(held: u64, expected: u64)

  predicate Holds<E>(held: Holding<E>, key: SlotKey) {
    key.index in held && held[key.index].generation == key.generation
  }

  function Insert<E>(held: Holding<E>, key: SlotKey, entity: E): Holding<E> {
    held[key.index := Held(key.generation, entity)]
  }

  // Removes the occupant the key names; whoever else is in the slot stays.
  function Remove<E>(held: Holding<E>, key: SlotKey): Holding<E> {
    if Holds(held, key) then held - {key.index} else held
  }

  // Applies a sample to the occupant the key names, and to nobody else.
  function Sample<E>(held: Holding<E>, key: SlotKey, entity: E): Holding<E> {
    if Holds(held, key) then Insert(held, key, entity) else held
  }

  function InsertAll<E>(held: Holding<E>, entered: seq<Entry<E>>): Holding<E>
    decreases |entered|
  {
    if entered == [] then held
    else InsertAll(Insert(held, entered[0].key, entered[0].entity), entered[1..])
  }

  function RemoveAll<E>(held: Holding<E>, left: seq<SlotKey>): Holding<E>
    decreases |left|
  {
    if left == [] then held else RemoveAll(Remove(held, left[0]), left[1..])
  }

  function Apply<E>(held: Holding<E>, entered: seq<Entry<E>>, left: seq<SlotKey>): Holding<E> {
    InsertAll(RemoveAll(held, left), entered)
  }

  ghost predicate Disjoint<E>(entered: seq<Entry<E>>, left: seq<SlotKey>) {
    forall e | e in entered :: e.key !in left
  }

  // ------------------------------------------------------------------ packets

  // Entered entries override, whatever was there.
  lemma {:induction false} InsertAllOverrides<E>(held: Holding<E>, entered: seq<Entry<E>>)
    ensures InsertAll(held, entered) == held + InsertAll(map[], entered)
    decreases |entered|
  {
    if entered == [] {
      assert held + map[] == held;
    } else {
      var e := entered[0];
      var one: Holding<E> := Insert(map[], e.key, e.entity);
      InsertAllOverrides(Insert(held, e.key, e.entity), entered[1..]);
      InsertAllOverrides(one, entered[1..]);
      var rest: Holding<E> := InsertAll(map[], entered[1..]);
      assert Insert(held, e.key, e.entity) + rest == held + (one + rest);
    }
  }

  // What the entries leave under an index is one of the entries.
  lemma {:induction false} TableHasEntries<E>(entered: seq<Entry<E>>, i: u32)
    ensures var table := InsertAll(map[], entered);
            && (i in table ==>
                  exists e :: e in entered && e.key == SlotKey(i, table[i].generation) && e.entity == table[i].entity)
            && ((exists e :: e in entered && e.key.index == i) ==> i in table)
    decreases |entered|
  {
    if entered != [] {
      var e0, rest := entered[0], entered[1..];
      var one: Holding<E> := Insert(map[], e0.key, e0.entity);
      InsertAllOverrides(one, rest);
      TableHasEntries(rest, i);
      assert entered == [e0] + rest;
      var table: Holding<E> := InsertAll(map[], entered);
      var restTable: Holding<E> := InsertAll(map[], rest);
      if i in restTable {
        var e :| e in rest && e.key == SlotKey(i, restTable[i].generation) && e.entity == restTable[i].entity;
        assert e in entered;
      } else if i in table {
        assert e0 in entered && e0.key == SlotKey(i, table[i].generation);
      }
    }
  }

  // Removals keep exactly the occupants nobody named.
  lemma {:induction false} RemoveAllKeepsTheUnnamed<E>(held: Holding<E>, left: seq<SlotKey>)
    ensures RemoveAll(held, left) == map i | i in held && SlotKey(i, held[i].generation) !in left :: held[i]
    decreases |left|
  {
    if left != [] {
      RemoveAllKeepsTheUnnamed(Remove(held, left[0]), left[1..]);
      assert left == [left[0]] + left[1..];
    }
  }

  // With the two lists naming different occupants, it does not matter which is
  // applied first, though the second may name a slot's former tenant.
  lemma PacketOrderDoesNotMatter<E>(held: Holding<E>, entered: seq<Entry<E>>, left: seq<SlotKey>)
    requires Disjoint(entered, left)
    ensures RemoveAll(InsertAll(held, entered), left) == InsertAll(RemoveAll(held, left), entered)
  {
    var table: Holding<E> := InsertAll(map[], entered);
    InsertAllOverrides(held, entered);
    InsertAllOverrides(RemoveAll(held, left), entered);
    RemoveAllKeepsTheUnnamed(held, left);
    RemoveAllKeepsTheUnnamed(held + table, left);
    forall i | i in table
      ensures SlotKey(i, table[i].generation) !in left
    {
      TableHasEntries(entered, i);
    }
  }

  // Replaying a packet changes nothing.
  lemma ReplayDoesNotMatter<E>(held: Holding<E>, entered: seq<Entry<E>>, left: seq<SlotKey>)
    requires Disjoint(entered, left)
    ensures Apply(Apply(held, entered, left), entered, left) == Apply(held, entered, left)
  {
    var kept := RemoveAll(held, left);
    var table: Holding<E> := InsertAll(map[], entered);
    PacketOrderDoesNotMatter(kept, entered, left);
    RemoveAllKeepsTheUnnamed(held, left);
    RemoveAllKeepsTheUnnamed(kept, left);
    assert RemoveAll(kept, left) == kept;
    InsertAllOverrides(kept, entered);
    InsertAllOverrides(InsertAll(kept, entered), entered);
    assert (kept + table) + table == kept + table;
  }

  function Replay<E>(held: Holding<E>, entered: seq<Entry<E>>, left: seq<SlotKey>, times: nat): Holding<E> {
    if times == 0 then held else Apply(Replay(held, entered, left, times - 1), entered, left)
  }

  lemma {:induction false} AnyNumberOfReplays<E>(held: Holding<E>, entered: seq<Entry<E>>, left: seq<SlotKey>, times: nat)
    requires Disjoint(entered, left) && 0 < times
    ensures Replay(held, entered, left, times) == Apply(held, entered, left)
  {
    if times != 1 {
      AnyNumberOfReplays(held, entered, left, times - 1);
      ReplayDoesNotMatter(held, entered, left);
    } else {
      assert Replay(held, entered, left, 0) == held;
    }
  }

  // ------------------------------------------------------------------ agreement

  ghost function Keys<E>(held: Holding<E>): set<SlotKey> {
    set i | i in held :: SlotKey(i, held[i].generation)
  }

  ghost function WireKeys<E>(held: Holding<E>): set<u64> {
    set k | k in Keys(held) :: k.Encode()
  }

  ghost function DigestOfKeys<E>(mix: Mixer, held: Holding<E>): u64 {
    DigestOf(mix, multiset(WireKeys(held)))
  }

  // What the keys held add up to once mixed.
  ghost function KeySum<E>(mix: Mixer, held: Holding<E>): u64 {
    MixSum(mix, multiset(WireKeys(held)))
  }

  lemma OneMoreWireKey<E>(done: Holding<E>, i: u32, h: Held<E>)
    requires i !in done
    ensures var key := SlotKey(i, h.generation);
            && WireKeys(done[i := h]) == WireKeys(done) + {key.Encode()}
            && key.Encode() !in WireKeys(done)
            && multiset(WireKeys(done[i := h])) == multiset(WireKeys(done)) + multiset{key.Encode()}
  {
    var key := SlotKey(i, h.generation);
    var after := done[i := h];
    forall k: SlotKey
      ensures k in Keys(after) <==> k in Keys(done) || k == key
    {
      assert k in Keys(after) <==> Holds(after, k);
      assert k in Keys(done) <==> Holds(done, k);
    }
    assert WireKeys(after) == WireKeys(done) + {key.Encode()};
    if key.Encode() in WireKeys(done) {
      var k :| k in Keys(done) && k.Encode() == key.Encode();
      EncodeIsInjective(k, key);
      assert false;
    }
  }

  lemma {:induction false} AsManyWireKeys<E>(held: Holding<E>)
    ensures |multiset(WireKeys(held))| == |held|
    decreases |held|
  {
    if held != map[] {
      var i :| i in held;
      var fewer := held - {i};
      AsManyWireKeys(fewer);
      OneMoreWireKey(fewer, i, held[i]);
      assert fewer[i := held[i]] == held;
    }
  }

  // Two mirrors of one size agree exactly when what their keys mix to adds up
  // alike; of any sizes, only if the sums differ in just the bits in which the
  // mixed sizes do.
  lemma AgreementIsInTheSums<E>(mix: Mixer, mine: Holding<E>, theirs: Holding<E>)
    ensures DigestOfKeys(mix, mine) == DigestOfKeys(mix, theirs) <==>
            DifferAlike(KeySum(mix, mine), KeySum(mix, theirs), mix(Wrap32(|mine|)), mix(Wrap32(|theirs|)))
    ensures |mine| == |theirs| ==>
              (DigestOfKeys(mix, mine) == DigestOfKeys(mix, theirs) <==> KeySum(mix, mine) == KeySum(mix, theirs))
  {
    AsManyWireKeys(mine);
    AsManyWireKeys(theirs);
    EqualDigests(mix, multiset(WireKeys(mine)), multiset(WireKeys(theirs)));
  }

  // A slot whose new occupant was missed shows exactly when the two keys mix
  // apart, and an occupant missed altogether unless mixing its key in moves the
  // sum in just the bits in which the mixed sizes differ.
  lemma OneMissedKeyShows<E>(mix: Mixer, rest: Holding<E>, i: u32, j: u32, mine: Held<E>, theirs: Held<E>)
    requires i !in rest && j !in rest
    ensures DigestOfKeys(mix, rest[i := mine]) == DigestOfKeys(mix, rest[j := theirs]) <==>
            mix(SlotKey(i, mine.generation).Encode()) == mix(SlotKey(j, theirs.generation).Encode())
    ensures DigestOfKeys(mix, rest) == DigestOfKeys(mix, rest[j := theirs]) <==>
            DifferAlike(KeySum(mix, rest), Plus(KeySum(mix, rest), mix(SlotKey(j, theirs.generation).Encode())),
                        mix(Wrap32(|rest|)), mix(Wrap32(|rest| + 1)))
  {
    var keys := multiset(WireKeys(rest));
    OneMoreWireKey(rest, i, mine);
    OneMoreWireKey(rest, j, theirs);
    AsManyWireKeys(rest);
    OneKeyReplaced(mix, keys, SlotKey(i, mine.generation).Encode(), SlotKey(j, theirs.generation).Encode());
    OneKeyMissing(mix, keys, SlotKey(j, theirs.generation).Encode());
  }

  // A packet that says nothing untrue of `to`: it announces only what `to`
  // holds and names only what it does not.
  ghost predicate TrueOf<E>(to: Holding<E>, entered: seq<Entry<E>>, left: seq<SlotKey>) {
    && (forall e | e in entered :: Holds(to, e.key) && to[e.key.index].entity == e.entity)
    && (forall k | k in left :: !Holds(to, k))
  }

  ghost predicate Announces<E>(entered: seq<Entry<E>>, i: u32) {
    exists e :: e in entered && e.key.index == i
  }

  // Every key of `to` is held or announced, and every other key held is named
  // or has its slot taken over.
  ghost predicate Reaches<E>(mirror: Holding<E>, to: Holding<E>, entered: seq<Entry<E>>, left: seq<SlotKey>) {
    && (forall k | Holds(to, k) :: Holds(mirror, k) || Announces(entered, k.index))
    && (forall k | Holds(mirror, k) && !Holds(to, k) :: k in left || Announces(entered, k.index))
  }

  // One slot after such a packet: what it announces is right, and the rest is
  // what the mirror held and the packet did not name.
  ghost predicate SlotAfter<E>(
    mirror: Holding<E>, to: Holding<E>, entered: seq<Entry<E>>, left: seq<SlotKey>, result: Holding<E>, i: u32)
  {
    if Announces(entered, i) then i in to && i in result && result[i] == to[i]
    else
      && (i in result <==> i in mirror && SlotKey(i, mirror[i].generation) !in left)
      && (i in result ==> result[i] == mirror[i])
  }

  lemma PacketSlots<E>(mirror: Holding<E>, to: Holding<E>, entered: seq<Entry<E>>, left: seq<SlotKey>, i: u32)
    requires TrueOf(to, entered, left)
    ensures SlotAfter(mirror, to, entered, left, Apply(mirror, entered, left), i)
  {
    var kept := RemoveAll(mirror, left);
    RemoveAllKeepsTheUnnamed(mirror, left);
    InsertAllOverrides(kept, entered);
    TableHasEntries(entered, i);
    var table: Holding<E> := InsertAll(map[], entered);
    if i in table {
      assert Announces(entered, i);
      assert Holds(to, SlotKey(i, table[i].generation));
    }
  }

  // Any packet over any mirror, whatever it was built against: the mirror ends
  // up with the keys of `to`, and so its digest, exactly when the packet
  // reaches that far; and with `to` itself exactly when the entities it did
  // not announce were right as well.
  lemma PacketReachesTheTarget<E>(
    mix: Mixer, mirror: Holding<E>, to: Holding<E>, entered: seq<Entry<E>>, left: seq<SlotKey>)
    requires TrueOf(to, entered, left)
    ensures Keys(Apply(mirror, entered, left)) == Keys(to) <==> Reaches(mirror, to, entered, left)
    ensures Reaches(mirror, to, entered, left) ==>
              DigestOfKeys(mix, Apply(mirror, entered, left)) == DigestOfKeys(mix, to)
    ensures Apply(mirror, entered, left) == to <==>
            Reaches(mirror, to, entered, left) &&
            forall i | i in to && i in mirror && !Announces(entered, i) :: mirror[i] == to[i]
  {
    var result := Apply(mirror, entered, left);
    forall i: u32
      ensures SlotAfter(mirror, to, entered, left, result, i)
    {
      PacketSlots(mirror, to, entered, left, i);
    }
    if Reaches(mirror, to, entered, left) {
      ReachedKeys(mirror, to, entered, left, result);
    }
    if Keys(result) == Keys(to) {
      OnlyIfReached(mirror, to, entered, left, result);
      SameEntities(mirror, to, entered, left, result);
    }
  }

  lemma SameEntities<E>(mirror: Holding<E>, to: Holding<E>, entered: seq<Entry<E>>, left: seq<SlotKey>, result: Holding<E>)
    requires Keys(result) == Keys(to) && forall i: u32 :: SlotAfter(mirror, to, entered, left, result, i)
    ensures result == to <==> forall i | i in to && i in mirror && !Announces(entered, i) :: mirror[i] == to[i]
  {
    SameKeysSameHolders(result, to);
    forall i | i in to
      ensures if Announces(entered, i) then result[i] == to[i] else i in mirror && result[i] == mirror[i]
    {
      assert SlotAfter(mirror, to, entered, left, result, i);
    }
    if forall i | i in to && i in mirror && !Announces(entered, i) :: mirror[i] == to[i] {
      assert forall i | i in to :: result[i] == to[i];
      assert result == to;
    }
  }

  lemma ReachedKeys<E>(mirror: Holding<E>, to: Holding<E>, entered: seq<Entry<E>>, left: seq<SlotKey>, result: Holding<E>)
    requires TrueOf(to, entered, left) && Reaches(mirror, to, entered, left)
    requires forall i: u32 :: SlotAfter(mirror, to, entered, left, result, i)
    ensures Keys(result) == Keys(to)
  {
    forall i: u32
      ensures i in result <==> i in to
      ensures i in result ==> result[i].generation == to[i].generation
    {
      assert SlotAfter(mirror, to, entered, left, result, i);
      if i in to { assert Holds(to, SlotKey(i, to[i].generation)); }
      if i in mirror { assert Holds(mirror, SlotKey(i, mirror[i].generation)); }
    }
    SameHoldersSameKeys(result, to);
  }

  lemma OnlyIfReached<E>(mirror: Holding<E>, to: Holding<E>, entered: seq<Entry<E>>, left: seq<SlotKey>, result: Holding<E>)
    requires TrueOf(to, entered, left) && Keys(result) == Keys(to)
    requires forall i: u32 :: SlotAfter(mirror, to, entered, left, result, i)
    ensures Reaches(mirror, to, entered, left)
  {
    SameKeysSameHolders(result, to);
    forall k: SlotKey
      ensures Holds(to, k) ==> Holds(mirror, k) || Announces(entered, k.index)
      ensures Holds(mirror, k) && !Holds(to, k) ==> k in left || Announces(entered, k.index)
    {
      assert SlotAfter(mirror, to, entered, left, result, k.index);
      assert Holds(result, k) <==> Holds(to, k);
    }
  }

  // The packet that takes a holder of `from` to `to`: every key of `to` not in
  // `from` is announced in full, every key of `from` not in `to` is named.
  ghost predicate IsDifference<E>(from: Holding<E>, to: Holding<E>, entered: seq<Entry<E>>, left: seq<SlotKey>) {
    && (forall k :: k in left <==> Holds(from, k) && !Holds(to, k))
    && (forall e | e in entered :: Holds(to, e.key) && to[e.key.index].entity == e.entity && !Holds(from, e.key))
    && (forall i | i in to && !Holds(from, SlotKey(i, to[i].generation)) ::
          Entry(SlotKey(i, to[i].generation), to[i].entity) in entered)
  }

  lemma {:induction false} Listed<T>(all: set<T>) returns (list: seq<T>)
    ensures forall x :: x in list <==> x in all
    decreases all
  {
    list := [];
    if x :| x in all {
      var rest := Listed(all - {x});
      list := rest + [x];
    }
  }

  // There is one between any two holdings, and its lists name different keys.
  lemma DifferenceExists<E>(from: Holding<E>, to: Holding<E>) returns (entered: seq<Entry<E>>, left: seq<SlotKey>)
    ensures IsDifference(from, to, entered, left)
    ensures forall e | e in entered :: e.key !in left
  {
    left := Listed(set k | k in Keys(from) && !Holds(to, k));
    forall k: SlotKey
      ensures k in Keys(from) <==> Holds(from, k)
    {}
    var indices := Listed(set i | i in to && !Holds(from, SlotKey(i, to[i].generation)));
    entered := seq(|indices|, n requires 0 <= n < |indices| =>
      assert indices[n] in indices;
      Entry(SlotKey(indices[n], to[indices[n]].generation), to[indices[n]].entity));
    forall e | e in entered
      ensures Holds(to, e.key) && to[e.key.index].entity == e.entity && !Holds(from, e.key)
    {
      var n :| 0 <= n < |entered| && entered[n] == e;
      assert indices[n] in indices;
    }
    forall i | i in to && !Holds(from, SlotKey(i, to[i].generation))
      ensures Entry(SlotKey(i, to[i].generation), to[i].entity) in entered
    {
      assert i in indices;
      var n :| 0 <= n < |indices| && indices[n] == i;
      assert entered[n] == Entry(SlotKey(i, to[i].generation), to[i].entity);
    }
  }

  // So a mirror holding exactly the keys of `from` that applies the difference
  // holds exactly the keys of `to`, so its digest is the server's; where it
  // already had the entities right, it holds `to` itself.
  lemma DifferenceReachesTheTarget<E>(
    mix: Mixer, mirror: Holding<E>, from: Holding<E>, to: Holding<E>, entered: seq<Entry<E>>, left: seq<SlotKey>)
    requires IsDifference(from, to, entered, left)
    requires Keys(mirror) == Keys(from)
    ensures Keys(Apply(mirror, entered, left)) == Keys(to)
    ensures DigestOfKeys(mix, Apply(mirror, entered, left)) == DigestOfKeys(mix, to)
    ensures (forall i | i in from && i in to && from[i].generation == to[i].generation :: i in mirror && mirror[i] == to[i]) ==>
              Apply(mirror, entered, left) == to
  {
    SameKeysSameHolders(mirror, from);
    forall k: SlotKey
      ensures Holds(to, k) && !Holds(from, k) ==> Announces(entered, k.index)
    {
      if Holds(to, k) && !Holds(from, k) {
        assert k == SlotKey(k.index, to[k.index].generation);
        assert Entry(k, to[k.index].entity).key.index == k.index;
      }
    }
    forall i | i in to && i in mirror && !Announces(entered, i)
      ensures i in from && from[i].generation == to[i].generation
    {
      assert Holds(to, SlotKey(i, to[i].generation));
    }
    PacketReachesTheTarget(mix, mirror, to, entered, left);
  }

  lemma SameKeysSameHolders<E>(a: Holding<E>, b: Holding<E>)
    requires Keys(a) == Keys(b)
    ensures forall k :: Holds(a, k) <==> Holds(b, k)
    ensures forall i :: i in a <==> i in b
  {
    forall k: SlotKey
      ensures Holds(a, k) <==> k in Keys(a)
      ensures Holds(b, k) <==> k in Keys(b)
    {}
    forall i
      ensures i in a <==> i in b
    {
      if i in a { assert Holds(a, SlotKey(i, a[i].generation)); }
      if i in b { assert Holds(b, SlotKey(i, b[i].generation)); }
    }
  }

  lemma SameHoldersSameKeys<E>(a: Holding<E>, b: Holding<E>)
    requires a.Keys == b.Keys && forall i | i in a :: a[i].generation == b[i].generation
    ensures Keys(a) == Keys(b)
  {}

  // ------------------------------------------------------------------ generations

  // A message naming a dead occupant of a slot, met by a mirror that holds a
  // later one. It touches the replacement exactly when the slot was freed a
  // multiple of 65536 times in between; so never within the ceiling.
  lemma DeadKeysMissTheirReplacement<E>(
    alloc: SlotAllocator, dead: Issue, current: Issue, held: Holding<E>, sample: E)
    requires alloc.Valid() && dead in alloc.issued && current in alloc.issued
    requires dead.key.index == current.key.index && dead.stamp < current.stamp
    requires Holds(held, current.key)
    ensures Holds(held, dead.key) <==> (current.stamp - dead.stamp) % GENERATIONS == 0
    ensures current.stamp - dead.stamp < GENERATIONS ==>
              Remove(held, dead.key) == held && Sample(held, dead.key, sample) == held
  {
    SameGeneration(dead.stamp, current.stamp);
  }

  // ------------------------------------------------------------------ the mirror

  class DeltaMirror<E> {
    const mix: Mixer
    const acks: AckWindow
    var held: Holding<E>
    var appliedSeq: Option<nat>
    var generational: bool
    var digest: u64
    var framesLost: nat
    var staleRefs: nat
    var divergences: nat
    // The first sequence number, and how many packets moved the newest on.
    ghost var firstSeq: nat
    ghost var advances: nat

    // Every number from the first to the newest was either reached in order
    // or counted as lost.
    ghost predicate Valid()
      reads this, acks
    {
      && acks.Valid()
      && (appliedSeq.None? ==> acks.seen == {} && framesLost == 0 && advances == 0)
      && (appliedSeq.Some? ==>
            && acks.seen != {} && appliedSeq.value == acks.newest
            && framesLost + advances == appliedSeq.value - firstSeq + 1)
    }

    constructor (mix: Mixer)
      ensures Valid() && fresh(acks) && this.mix == mix && held == map[] && generational && acks.seen == {}
      ensures framesLost == staleRefs == divergences == 0 && appliedSeq == None
    {
      this.mix := mix;
      acks := new AckWindow();
      held, appliedSeq, generational, digest := map[], None, true, 0;
      framesLost, staleRefs, divergences, firstSeq, advances := 0, 0, 0, 0, 0;
    }

    function Normalise(key: SlotKey): SlotKey
      reads this
    {
      if generational then key else key.Ungenerational()
    }

    // Switching the key scheme drops everything filed under the old one.
    method SetGenerations(on: bool)
      requires Valid()
      modifies this`generational, this`held
      ensures Valid() && generational == on
      ensures held == if on == old(generational) then old(held) else map[]
    {
      if generational != on {
        generational := on;
        held := map[];
      }
    }

    method Begin(number: nat, fullBaseline: bool)
      requires Valid()
      modifies this`framesLost, this`appliedSeq, this`held, this`firstSeq, this`advances, acks
      ensures Valid()
      ensures acks.seen == old(acks.seen) + {number}
      ensures appliedSeq == if old(appliedSeq).Some? && number <= old(appliedSeq).value then old(appliedSeq) else Some(number)
      ensures old(appliedSeq).Some? && old(appliedSeq).value < number ==>
                framesLost == old(framesLost) + (number - old(appliedSeq).value - 1)
      ensures old(appliedSeq).None? || number <= old(appliedSeq).value ==> framesLost == old(framesLost)
      ensures firstSeq == if old(appliedSeq).None? then number else old(firstSeq)
      ensures advances == old(advances) + if old(appliedSeq).Some? && number <= old(appliedSeq).value then 0 else 1
      ensures held == if fullBaseline then map[] else old(held)
    {
      if appliedSeq.None? {
        firstSeq := number;
      }
      if appliedSeq.Some? && number > appliedSeq.value + 1 {
        framesLost := framesLost + (number - appliedSeq.value - 1);
      }
      if appliedSeq.None? || number > appliedSeq.value {
        appliedSeq := Some(number);
        advances := advances + 1;
      }
      var _ := acks.Observe(number);
      if fullBaseline {
        held := map[];
      }
    }

    method InsertEntity(key: SlotKey, entity: E)
      requires Valid()
      modifies this`held
      ensures Valid() && held == old(held)[key.index := Held(if generational then key.generation else 0, entity)]
    {
      var k := Normalise(key);
      held := held[k.index := Held(k.generation, entity)];
    }

    method RemoveEntity(key: SlotKey) returns (removed: Option<E>)
      requires Valid()
      modifies this`held, this`staleRefs
      ensures Valid() && held == Remove(old(held), Normalise(key))
      ensures Holds(old(held), Normalise(key)) <==>
              key.index in old(held) && old(held)[key.index].generation == if generational then key.generation else 0
      ensures removed == if Holds(old(held), Normalise(key)) then Some(old(held)[key.index].entity) else None
      ensures held == if removed.Some? then old(held) - {key.index} else old(held)
      ensures staleRefs == old(staleRefs) + if key.index in old(held) && removed.None? then 1 else 0
    {
      var k := Normalise(key);
      if k.index in held {
        if held[k.index].generation != k.generation {
          staleRefs := staleRefs + 1;
          return None;
        }
        removed := Some(held[k.index].entity);
        held := held - {k.index};
      } else {
        return None;
      }
    }

    // A write through the handle the mirror gives out for this key.
    method SampleEntity(key: SlotKey, entity: E) returns (found: bool)
      requires Valid()
      modifies this`held, this`staleRefs
      ensures Valid() && held == Sample(old(held), Normalise(key), entity)
      ensures found <==>
              key.index in old(held) && old(held)[key.index].generation == if generational then key.generation else 0
      ensures held == if found then old(held)[key.index := Held(old(held)[key.index].generation, entity)] else old(held)
      ensures staleRefs == old(staleRefs) + if key.index in old(held) && !found then 1 else 0
    {
      var k := Normalise(key);
      if k.index in held {
        if held[k.index].generation == k.generation {
          held := held[k.index := Held(k.generation, entity)];
          return true;
        }
        staleRefs := staleRefs + 1;
      }
      return false;
    }

    // Every key held, in its wire form. The order is left open: the digest
    // cannot see it.
    method WireKeyList() returns (keys: seq<u64>)
      ensures multiset(keys) == multiset(WireKeys(held))
    {
      keys := [];
      var rest := held.Keys;
      ghost var done: Holding<E> := map[];
      while rest != {}
        invariant rest <= held.Keys
        invariant done.Keys == held.Keys - rest && forall i | i in done :: done[i] == held[i]
        invariant multiset(keys) == multiset(WireKeys(done))
        decreases |rest|
      {
        var i :| i in rest;
        var key := SlotKey(i, held[i].generation).Encode();
        OneMoreListed(keys, done, i, held[i]);
        keys := keys + [key];
        rest := rest - {i};
        done := done[i := held[i]];
      }
      assert done == held;
    }

    method ComputeDigest() returns (value: u64)
      ensures value == DigestOfKeys(mix, held)
    {
      var keys := WireKeyList();
      var d := SetDigest.FromKeys(mix, keys);
      value := d.Digest();
      assert d.added - d.removed == d.added;
    }

    // The verdict once a packet has been applied in full.
    method Settle(expected: u64) returns (agreement: Agreement)
      requires Valid()
      modifies this`digest, this`divergences
      ensures Valid() && digest == DigestOfKeys(mix, held)
      ensures agreement == if digest == expected then Agreed else Diverged(digest, expected)
      ensures forall theirs: Holding<E> | |theirs| == |held| && expected == DigestOfKeys(mix, theirs) ::
                agreement.Agreed? <==> KeySum(mix, held) == KeySum(mix, theirs)
      ensures divergences == old(divergences) + if agreement.Agreed? then 0 else 1
    {
      digest := ComputeDigest();
      if digest == expected {
        agreement := Agreed;
      } else {
        divergences := divergences + 1;
        agreement := Diverged(digest, expected);
      }
      forall theirs: Holding<E> | |theirs| == |held| && expected == DigestOfKeys(mix, theirs)
        ensures agreement.Agreed? <==> KeySum(mix, held) == KeySum(mix, theirs)
      {
        AgreementIsInTheSums(mix, held, theirs);
      }
    }

    // Which occupants only the mirror holds, and which only the server does,
    // in key order.
    method DivergenceFrom(serverKeys: seq<u64>) returns (extra: seq<SlotKey>, missing: seq<SlotKey>)
      ensures forall k :: k in extra <==> k in Keys(held) && k.Encode() !in serverKeys
      ensures (forall key | key in serverKeys :: key < 0x1_0000_0000_0000) ==>
                forall k :: k in missing <==> k.Encode() in serverKeys && k !in Keys(held)
      ensures forall i, j | 0 <= i < j < |extra| :: extra[i].Encode() < extra[j].Encode()
      ensures (forall key | key in serverKeys :: key < 0x1_0000_0000_0000) ==>
                forall i, j | 0 <= i < j < |missing| :: missing[i].Encode() < missing[j].Encode()
    {
      var theirs := set k | k in serverKeys;
      var mine := set i | i in held :: SlotKey(i, held[i].generation).Encode();
      var onlyMine := Ascending(mine - theirs);
      var onlyTheirs := Ascending(theirs - mine);
      extra := seq(|onlyMine|, i requires 0 <= i < |onlyMine| => SlotKey.Decode(onlyMine[i]));
      missing := seq(|onlyTheirs|, i requires 0 <= i < |onlyTheirs| => SlotKey.Decode(onlyTheirs[i]));
      forall k: SlotKey
        ensures k.Encode() in mine <==> k in Keys(held)
      {
        if k.Encode() in mine {
          var i :| i in held && SlotKey(i, held[i].generation).Encode() == k.Encode();
          EncodeIsInjective(SlotKey(i, held[i].generation), k);
        }
      }
      forall key: u64 | key in mine
        ensures SlotKey.Decode(key).Encode() == key
      {
        EncodeUndoesDecode(key);
      }
      DecodedKeys(onlyMine, extra);
      if forall key | key in serverKeys :: key < 0x1_0000_0000_0000 {
        forall key | key in onlyTheirs
          ensures SlotKey.Decode(key).Encode() == key
        {
          EncodeUndoesDecode(key);
        }
        DecodedKeys(onlyTheirs, missing);
      }
    }
  }

  lemma DecodedKeys(wire: seq<u64>, keys: seq<SlotKey>)
    requires |keys| == |wire| && forall i | 0 <= i < |wire| :: keys[i] == SlotKey.Decode(wire[i])
    requires forall w | w in wire :: SlotKey.Decode(w).Encode() == w
    ensures forall k :: k in keys <==> k.Encode() in wire
    ensures forall i | 0 <= i < |keys| :: keys[i].Encode() == wire[i]
  {}

  lemma OneMoreListed<E>(keys: seq<u64>, done: Holding<E>, i: u32, h: Held<E>)
    requires i !in done && multiset(keys) == multiset(WireKeys(done))
    ensures multiset(keys + [SlotKey(i, h.generation).Encode()]) == multiset(WireKeys(done[i := h]))
  {
    OneMoreWireKey(done, i, h);
  }

  // The elements of a set, in order.
  method Ascending(s: set<u64>) returns (sorted: seq<u64>)
    ensures forall k :: k in sorted <==> k in s
    ensures forall i, j | 0 <= i < j < |sorted| :: sorted[i] < sorted[j]
  {
    sorted := [];
    var rest := s;
    while rest != {}
      invariant rest <= s
      invariant forall k :: k in sorted <==> k in s && k !in rest
      invariant forall i, j | 0 <= i < j < |sorted| :: sorted[i] < sorted[j]
      invariant forall k, r | k in sorted && r in rest :: k < r
      decreases |rest|
    {
      var least := Least(rest);
      assert forall i | 0 <= i < |sorted| :: sorted[i] in sorted;
      sorted := sorted + [least];
      rest := rest - {least};
    }
  }

  method Least(s: set<u64>) returns (least: u64)
    requires s != {}
    ensures least in s && forall k | k in s :: least <= k
  {
    var k :| k in s;
    least := k;
    var rest := s - {k};
    while rest != {}
      invariant least in s && rest <= s
      invariant forall k | k in s && k !in rest :: least <= k
      decreases |rest|
    {
      var next :| next in rest;
      rest := rest - {next};
      if next < least {
        least := next;
      }
    }
  }
}
