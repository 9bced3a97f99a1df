/**
 Recycled storage slots with a generation: the wire form of a key, and the
 allocator that hands keys out.
 */
module Slots {
  import opened Wrappers

  type u16 = n: nat | n < 0x1_0000
  type u32 = n: nat | n < 0x1_0000_0000
  type u64 = n: nat | n < 0x1_0000_0000_0000_0000

  const GENERATIONS := 0x1_0000

  datatype SlotKey = SlotKey(index: u32, generation: u16) {
    // `(index << 16) | generation`: the generation fills exactly the bits the
    // shift cleared.
    function Encode(): u64 {
      index * 0x1_0000 + generation
    }

    // `(key >> 16) as u32` drops everything from bit 48 up.
    static function Decode(key: u64): SlotKey {
      SlotKey((key / 0x1_0000) % 0x1_0000_0000, key % 0x1_0000)
    }

    function Ungenerational(): SlotKey {
      SlotKey(index, 0)
    }
  }

  // The index stands above the generation, so wire keys run slot by slot.
  lemma IndexStandsAboveGeneration(k: SlotKey, l: SlotKey)
    ensures k.Encode() / 0x1_0000 == k.index && k.Encode() % 0x1_0000 == k.generation
    ensures k.Encode() < l.Encode() <==> k.index < l.index || (k.index == l.index && k.generation < l.generation)
  {}

  // Only the low 48 bits of a wire key are read.
  lemma DecodeReads48Bits(key: u64)
    ensures SlotKey.Decode(key) == SlotKey.Decode(key % 0x1_0000_0000_0000)
    ensures SlotKey.Decode(key).generation == key % 0x1_0000
  {
    var high := key / 0x1_0000_0000_0000;
    var low := key % 0x1_0000_0000_0000;
    assert key / 0x1_0000 == high * 0x1_0000_0000 + low / 0x1_0000;
  }

  lemma DecodeUndoesEncode(k: SlotKey)
    ensures SlotKey.Decode(k.Encode()) == k
  {}

  // Two keys share a wire form only if they are the same key.
  lemma EncodeIsInjective(k: SlotKey, l: SlotKey)
    ensures k.Encode() == l.Encode() <==> k == l
  {}

  // A wire key survives decoding exactly when it fits the 48 bits in use.
  lemma EncodeUndoesDecode(key: u64)
    ensures SlotKey.Decode(key).Encode() == key <==> key < 0x1_0000_0000_0000
  {}

  datatype ReusePolicy = Lifo | Fifo

  datatype Slot = Slot(generation: u16, occupied: bool)

  // A key handed out, and how often its slot had been freed by then.
  datatype Issue = Issue(key: SlotKey, stamp: nat)

  lemma {:induction false} DistinctCount<T>(s: seq<T>)
    requires Distinct(s)
    ensures |set x | x in s| == |s|
  {
    if s != [] {
      var front := s[..|s| - 1];
      DistinctCount(front);
      assert (set x | x in s) == (set x | x in front) + {s[|s| - 1]};
    }
  }

  // Counts give the same generation exactly when they are whole turns apart.
  lemma SameGeneration(a: nat, b: nat)
    requires a <= b
    ensures a % 0x1_0000 == b % 0x1_0000 <==> (b - a) % 0x1_0000 == 0
    ensures 0 < b - a < 0x1_0000 ==> a % 0x1_0000 != b % 0x1_0000
  {
    var (p, q, d) := (a / 0x1_0000, b / 0x1_0000, (b - a) / 0x1_0000);
    assert b - a == 0x1_0000 * (q - p) + (b % 0x1_0000 - a % 0x1_0000);
    assert b - a == 0x1_0000 * d + (b - a) % 0x1_0000;
  }

  ghost function Indices(n: nat): (r: set<nat>)
    ensures |r| == n && forall i :: i in r <==> 0 <= i < n
  {
    if n == 0 then {} else Indices(n - 1) + {n - 1}
  }

  ghost function OccupiedIn(slots: seq<Slot>): set<nat> {
    set i | 0 <= i < |slots| && slots[i].occupied
  }

  lemma SettingOneSlot(slots: seq<Slot>, i: nat, slot: Slot)
    requires i < |slots|
    ensures OccupiedIn(slots[i := slot]) == if slot.occupied then OccupiedIn(slots) + {i} else OccupiedIn(slots) - {i}
  {}

  lemma AddingOneSlot(slots: seq<Slot>)
    ensures OccupiedIn(slots + [Slot(0, true)]) == OccupiedIn(slots) + {|slots|}
  {}

  // The free list is a duplicate-free permutation of the unoccupied indices.
  ghost predicate ListsTheIdle(slots: seq<Slot>, freeList: seq<nat>) {
    Distinct(freeList) && forall i :: i in freeList <==> 0 <= i < |slots| && !slots[i].occupied
  }

  // Each issue was stamped with its slot's free count, and successive issues
  // of a slot have larger stamps.
  ghost predicate AccountsFor(slots: seq<Slot>, frees: seq<nat>, issued: seq<Issue>)
    requires |frees| == |slots|
  {
    && (forall e | e in issued ::
          && e.key.index < |slots| && e.key.generation == e.stamp % GENERATIONS
          && e.stamp <= frees[e.key.index]
          && (!slots[e.key.index].occupied ==> e.stamp < frees[e.key.index]))
    && (forall a, b | 0 <= a < b < |issued| ::
          issued[a].key.index == issued[b].key.index ==> issued[a].stamp < issued[b].stamp)
  }

  lemma TakingKeepsTheList(slots: seq<Slot>, freeList: seq<nat>, rest: seq<nat>, i: nat)
    requires ListsTheIdle(slots, freeList) && (freeList == rest + [i] || freeList == [i] + rest)
    ensures i < |slots| && !slots[i].occupied
    ensures ListsTheIdle(slots[i := slots[i].(occupied := true)], rest)
  {
    assert i in freeList;
    var shift := if freeList == rest + [i] then 0 else 1;
    assert forall k | 0 <= k < |rest| :: rest[k] == freeList[k + shift];
    assert freeList[if shift == 0 then |rest| else 0] == i;
    assert forall j :: j in freeList <==> j in rest || j == i;
  }

  lemma IssuingKeepsAccount(slots: seq<Slot>, frees: seq<nat>, issued: seq<Issue>, i: nat, key: SlotKey)
    requires |frees| == |slots| && AccountsFor(slots, frees, issued)
    requires i < |slots| && !slots[i].occupied && key.index == i && key.generation == frees[i] % GENERATIONS
    ensures AccountsFor(slots[i := slots[i].(occupied := true)], frees, issued + [Issue(key, frees[i])])
  {}

  lemma GrowingKeepsBoth(slots: seq<Slot>, frees: seq<nat>, issued: seq<Issue>, key: SlotKey)
    requires |frees| == |slots| && AccountsFor(slots, frees, issued) && ListsTheIdle(slots, [])
    requires key.index == |slots| && key.generation == 0
    ensures AccountsFor(slots + [Slot(0, true)], frees + [0], issued + [Issue(key, 0)])
    ensures ListsTheIdle(slots + [Slot(0, true)], [])
  {}

  // The free list, the counts and the account of keys all describe these
  // slots.
  ghost predicate Sound(
    slots: seq<Slot>, freeList: seq<nat>, live: nat, frees: seq<nat>, peak: nat, issued: seq<Issue>)
  {
    && |frees| == |slots| == peak == live + |freeList|
    && (forall i | 0 <= i < |slots| :: slots[i].generation == frees[i] % 0x1_0000)
    && ListsTheIdle(slots, freeList)
    && AccountsFor(slots, frees, issued)
  }

  lemma ReusingKeepsSound(slots: seq<Slot>, freeList: seq<nat>, rest: seq<nat>, live: nat, frees: seq<nat>, peak: nat,
                          issued: seq<Issue>, key: SlotKey)
    requires Sound(slots, freeList, live, frees, peak, issued)
    requires freeList == rest + [key.index as nat] || freeList == [key.index as nat] + rest
    requires key.index < |slots| && key.generation == slots[key.index].generation
    ensures var slots' := slots[key.index := Slot(key.generation, true)];
            && Sound(slots', rest, live + 1, frees, peak, issued + [Issue(key, frees[key.index])])
            && OccupiedIn(slots') == OccupiedIn(slots) + {key.index as nat} && key.index !in OccupiedIn(slots)
  {
    TakingKeepsTheList(slots, freeList, rest, key.index);
    IssuingKeepsAccount(slots, frees, issued, key.index, key);
    SettingOneSlot(slots, key.index, Slot(key.generation, true));
    assert slots[key.index].(occupied := true) == Slot(key.generation, true);
  }

  lemma GrowingKeepsSound(slots: seq<Slot>, live: nat, frees: seq<nat>, peak: nat, issued: seq<Issue>, key: SlotKey)
    requires Sound(slots, [], live, frees, peak, issued)
    requires key.index == |slots| && key.generation == 0
    ensures var slots' := slots + [Slot(0, true)];
            && Sound(slots', [], live + 1, frees + [0], live + 1, issued + [Issue(key, 0)])
            && OccupiedIn(slots') == OccupiedIn(slots) + {key.index as nat} && key.index !in OccupiedIn(slots)
  {
    GrowingKeepsBoth(slots, frees, issued, key);
    AddingOneSlot(slots);
  }

  lemma FreeingKeepsSound(slots: seq<Slot>, freeList: seq<nat>, live: nat, frees: seq<nat>, peak: nat,
                          issued: seq<Issue>, i: nat)
    requires Sound(slots, freeList, live, frees, peak, issued) && i < |slots| && slots[i].occupied
    ensures var slots' := slots[i := Slot((slots[i].generation + 1) % 0x1_0000, false)];
            && 0 < live && Sound(slots', freeList + [i], live - 1, frees[i := frees[i] + 1], peak, issued)
            && OccupiedIn(slots') == OccupiedIn(slots) - {i}
  {
    var slots' := slots[i := Slot((slots[i].generation + 1) % 0x1_0000, false)];
    LiveIsOccupied(slots, freeList, live, frees, peak, issued);
    assert i in OccupiedIn(slots);
    SettingOneSlot(slots, i, slots'[i]);
    IdleGrows(slots, freeList, i, slots'[i].generation);
    FreeingKeepsAccount(slots, frees, issued, i, slots'[i].generation);
  }

  lemma IdleGrows(slots: seq<Slot>, freeList: seq<nat>, i: nat, generation: u16)
    requires ListsTheIdle(slots, freeList) && i < |slots| && slots[i].occupied
    ensures ListsTheIdle(slots[i := Slot(generation, false)], freeList + [i])
  {
    assert i !in freeList;
    assert forall j :: j in freeList + [i] <==> j in freeList || j == i;
  }

  lemma FreeingKeepsAccount(slots: seq<Slot>, frees: seq<nat>, issued: seq<Issue>, i: nat, generation: u16)
    requires |frees| == |slots| && AccountsFor(slots, frees, issued) && i < |slots|
    ensures AccountsFor(slots[i := Slot(generation, false)], frees[i := frees[i] + 1], issued)
  {}

  // The live count is the number of occupied slots.
  lemma LiveIsOccupied(slots: seq<Slot>, freeList: seq<nat>, live: nat, frees: seq<nat>, peak: nat, issued: seq<Issue>)
    requires Sound(slots, freeList, live, frees, peak, issued)
    ensures live == |OccupiedIn(slots)|
  {
    var all := Indices(|slots|);
    var idle := set i | i in freeList;
    DistinctCount(freeList);
    assert OccupiedIn(slots) == all - idle;
    assert idle <= all;
  }

  // One slot emptied, its generation bumped if it was occupied.
  ghost predicate Freed(slot: Slot, frees: nat, slot': Slot, frees': nat) {
    && !slot'.occupied && slot'.generation == (if slot.occupied then (slot.generation + 1) % 0x1_0000 else slot.generation)
    && frees' == if slot.occupied then frees + 1 else frees
  }

  lemma ClearingKeepsAccount(slots: seq<Slot>, frees: seq<nat>, issued: seq<Issue>, slots': seq<Slot>, frees': seq<nat>)
    requires |slots'| == |frees'| == |slots| == |frees| && AccountsFor(slots, frees, issued)
    requires forall i | 0 <= i < |slots| :: !slots'[i].occupied && frees'[i] == frees[i] + if slots[i].occupied then 1 else 0
    ensures AccountsFor(slots', frees', issued)
  {}

  lemma FreedGeneration(slot: Slot, frees: nat, slot': Slot, frees': nat)
    requires Freed(slot, frees, slot', frees') && slot.generation == frees % 0x1_0000
    ensures slot'.generation == frees' % 0x1_0000
  {}

  lemma ClearingKeepsSound(slots: seq<Slot>, freeList: seq<nat>, live: nat, frees: seq<nat>, peak: nat,
                           issued: seq<Issue>, slots': seq<Slot>, frees': seq<nat>)
    requires Sound(slots, freeList, live, frees, peak, issued)
    requires |slots'| == |frees'| == |slots|
    requires forall i | 0 <= i < |slots| :: Freed(slots[i], frees[i], slots'[i], frees'[i])
    ensures Sound(slots', seq(|slots|, i => i), 0, frees', peak, issued)
    ensures OccupiedIn(slots') == {}
  {
    ClearingKeepsAccount(slots, frees, issued, slots', frees');
    forall i | 0 <= i < |slots|
      ensures slots'[i].generation == frees'[i] % 0x1_0000
    {
      FreedGeneration(slots[i], frees[i], slots'[i], frees'[i]);
    }
    AllIdle(slots');
  }

  lemma AllIdle(slots: seq<Slot>)
    requires forall i | 0 <= i < |slots| :: !slots[i].occupied
    ensures ListsTheIdle(slots, seq(|slots|, i => i))
  {
    var all := seq(|slots|, i => i);
    forall i | 0 <= i < |slots|
      ensures i in all
    {
      assert all[i] == i;
    }
  }

  class SlotAllocator {
    var slots: seq<Slot>
    var freeList: seq<nat>
    var policy: ReusePolicy
    var live: nat
    // How often each slot has been freed.
    ghost var frees: seq<nat>
    // The most slots ever live at once.
    ghost var peak: nat
    // Every key ever handed out.
    ghost var issued: seq<Issue>

    ghost predicate Valid()
      reads this
    {
      Sound(slots, freeList, live, frees, peak, issued)
    }

    // Whether this key names its slot's current occupant.
    predicate IsLive(key: SlotKey)
      reads this
    {
      key.index < |slots| && slots[key.index].occupied && slots[key.index].generation == key.generation
    }

    ghost function Occupied(): set<nat>
      reads this
    {
      OccupiedIn(slots)
    }

    constructor (policy: ReusePolicy)
      ensures Valid() && slots == [] && issued == [] && this.policy == policy
    {
      slots, freeList, this.policy, live := [], [], policy, 0;
      frees, peak, issued := [], 0, [];
    }

    // The count kept is the number of occupied slots, and the index space is
    // the most that were ever live at once.
    lemma LiveCountIsExact()
      requires Valid()
      ensures live == |Occupied()| && |slots| == peak
    {
      LiveIsOccupied(slots, freeList, live, frees, peak, issued);
    }

    // A key that was handed out names the occupant now exactly when the slot
    // is occupied and has been freed a multiple of 65536 times since; so a
    // freed key comes back to life only by a full wrap.
    lemma FreedKeysStayDeadUntilAWrap(e: Issue)
      requires Valid() && e in issued
      ensures var freedSince := frees[e.key.index] - e.stamp;
              && (IsLive(e.key) <==> slots[e.key.index].occupied && freedSince % GENERATIONS == 0)
              && (0 < freedSince < GENERATIONS ==> !IsLive(e.key))
    {
      SameGeneration(e.stamp, frees[e.key.index]);
    }

    method Alloc() returns (key: SlotKey)
      requires Valid() && |slots| < 0x1_0000_0000
      modifies this
      ensures Valid() && policy == old(policy)
      ensures IsLive(key) && key.index !in old(Occupied()) && Occupied() == old(Occupied()) + {key.index as nat}
      ensures if old(freeList) == [] then key == SlotKey(|old(slots)|, 0) && freeList == [] else
              && (policy.Lifo? ==> old(freeList) == freeList + [key.index])
              && (policy.Fifo? ==> old(freeList) == [key.index] + freeList)
      ensures |slots| == if old(freeList) == [] then |old(slots)| + 1 else |old(slots)|
      ensures forall i | 0 <= i < |old(slots)| && i != key.index :: slots[i] == old(slots)[i]
      ensures old(frees) <= frees
      ensures issued == old(issued) + [Issue(key, frees[key.index])]
    {
      ghost var before := freeList;
      var index := PopFree();
      match index {
        case Some(i) =>
          key := SlotKey(i, slots[i].generation);
          ReusingKeepsSound(slots, before, freeList, live, frees, peak, issued, key);
          slots := slots[i := slots[i].(occupied := true)];
        case None =>
          key := SlotKey(|slots|, 0);
          GrowingKeepsSound(slots, live, frees, peak, issued, key);
          slots := slots + [Slot(0, true)];
          frees := frees + [0];
      }
      live := live + 1;
      peak := if peak < live then live else peak;
      issued := issued + [Issue(key, frees[key.index])];
    }

    // The next index to reuse, in the policy's order.
    method PopFree() returns (index: Option<nat>)
      requires Valid()
      modifies this`freeList
      ensures index.None? <==> old(freeList) == []
      ensures index.None? ==> freeList == []
      ensures index.Some? ==>
                && (policy.Lifo? ==> old(freeList) == freeList + [index.value])
                && (policy.Fifo? ==> old(freeList) == [index.value] + freeList)
                && index.value < |slots|
    {
      if |freeList| == 0 {
        return None;
      }
      match policy {
        case Lifo =>
          index := Some(freeList[|freeList| - 1]);
          freeList := freeList[..|freeList| - 1];
        case Fifo =>
          index := Some(freeList[0]);
          freeList := freeList[1..];
      }
      assert index.value in old(freeList);
    }

    // Refuses a key whose occupant is already gone. Freeing is what bumps the
    // generation.
    method Free(key: SlotKey) returns (freed: bool)
      requires Valid()
      modifies this
      ensures Valid() && policy == old(policy) && issued == old(issued)
      ensures freed == old(IsLive(key))
      ensures !freed ==> slots == old(slots) && freeList == old(freeList) && frees == old(frees)
      ensures freed ==>
                && !IsLive(key)
                && Occupied() == old(Occupied()) - {key.index as nat}
                && freeList == old(freeList) + [key.index]
                && frees == old(frees)[key.index := old(frees)[key.index] + 1]
                && |slots| == |old(slots)|
                && forall i | 0 <= i < |slots| && i != key.index :: slots[i] == old(slots)[i]
    {
      if |slots| <= key.index {
        return false;
      }
      var slot := slots[key.index];
      if !slot.occupied || slot.generation != key.generation {
        return false;
      }
      FreeingKeepsSound(slots, freeList, live, frees, peak, issued, key.index);
      slots := slots[key.index := Slot((slot.generation + 1) % 0x1_0000, false)];
      frees := frees[key.index := frees[key.index] + 1];
      freeList := freeList + [key.index];
      live := live - 1;
      return true;
    }

    // Frees every slot, bumping only the occupied ones, and keeps the index
    // space.
    method Clear()
      requires Valid()
      modifies this
      ensures Valid() && policy == old(policy) && issued == old(issued)
      ensures Occupied() == {} && |slots| == |old(slots)|
      ensures freeList == seq(|slots|, i => i)
      ensures forall i | 0 <= i < |slots| :: frees[i] == old(frees)[i] + if old(slots)[i].occupied then 1 else 0
    {
      ghost var (slots0, free0, frees0) := (slots, freeList, frees);
      freeList := [];
      var index := 0;
      while index < |slots|
        modifies `slots, `freeList, `frees
        invariant 0 <= index <= |slots| == |frees| == |slots0| == |frees0|
        invariant freeList == seq(index, i => i)
        invariant forall i | 0 <= i < index :: Freed(slots0[i], frees0[i], slots[i], frees[i])
        invariant forall i | index <= i < |slots| :: slots[i] == slots0[i] && frees[i] == frees0[i]
      {
        if slots[index].occupied {
          slots := slots[index := Slot((slots[index].generation + 1) % 0x1_0000, false)];
          frees := frees[index := frees[index] + 1];
        }
        freeList := freeList + [index];
        index := index + 1;
      }
      ClearingKeepsSound(slots0, free0, live, frees0, peak, issued, slots, frees);
      live := 0;
    }
  }
}
