/** A generational slot map of transform components with room for 100.
    Components live densely at the front of the data array; each slot of the
    index array either points at a component (its data index and the
    generation it was handed out with) or is free, marked with the largest
    generation and linked to the next free slot. A key names a slot and a
    generation, so a key outlives neither the removal of its component nor
    the reuse of its slot. */
module Slotmaps {
  import V = Vectors

  /** The fixed capacity of every array. */
  const Capacity: nat := 100

  /** The largest 32-bit unsigned value: the generation of a free slot. */
  const MaxGen: nat := 0xFFFF_FFFF

  datatype Component = Component(name: string, position: V.Vec3)

  /** A slot-map key, and also an entry of the index array: for a live slot
      `id` is the data index, for a free slot the next free slot. */
  datatype Key = Key(id: nat, gen: nat)

  datatype SlotMap = SlotMap(
    count: nat,
    generation: nat,
    freeList: nat,
    indices: seq<Key>,
    data: seq<Component>,
    erase: seq<nat>)

  /** `free` lists the free slots in list order, from the head `head`, with
      no slot twice; the last one links to `Capacity`, which ends the list. */
  predicate FreeChain(indices: seq<Key>, head: nat, free: seq<nat>)
    requires |indices| == Capacity
  {
    && (forall k :: 0 <= k < |free| ==> free[k] < Capacity)
    && (|free| == 0 ==> head == Capacity)
    && (|free| > 0 ==> head == free[0] && indices[free[|free| - 1]].id == Capacity)
    && (forall k :: 0 <= k < |free| - 1 ==> indices[free[k]].id == free[k + 1])
    && (forall j, k :: 0 <= j < k < |free| ==> free[j] != free[k])
  }

  /** The slot map's invariant, with the free list spelt out. Free slots are
      exactly those marked with `MaxGen` and they form the free list; every
      other slot holds a generation below the next one to hand out and the
      index of its component, whose back-pointer in `erase` leads back to
      it; and the first `count` components are exactly those of the live
      slots. */
  predicate ValidWith(sm: SlotMap, free: seq<nat>)
  {
    && |sm.indices| == Capacity && |sm.data| == Capacity && |sm.erase| == Capacity
    && sm.count <= Capacity && sm.generation <= MaxGen
    && |free| == Capacity - sm.count
    && FreeChain(sm.indices, sm.freeList, free)
    && (forall s :: 0 <= s < Capacity ==> (sm.indices[s].gen == MaxGen <==> s in free))
    && (forall s :: 0 <= s < Capacity && sm.indices[s].gen != MaxGen ==>
          sm.indices[s].gen < sm.generation && sm.indices[s].id < sm.count && sm.erase[sm.indices[s].id] == s)
    && (forall d :: 0 <= d < sm.count ==>
          sm.erase[d] < Capacity && sm.indices[sm.erase[d]].gen != MaxGen && sm.indices[sm.erase[d]].id == d)
  }

  ghost predicate Valid(sm: SlotMap)
  {
    exists free :: ValidWith(sm, free)
  }

  /** The key names a slot whose generation it carries. */
  predicate Matches(sm: SlotMap, key: Key)
  {
    key.id < |sm.indices| && sm.indices[key.id].gen == key.gen
  }

  /** The key names a component currently in the map. */
  predicate Live(sm: SlotMap, key: Key)
  {
    Matches(sm, key) && key.gen != MaxGen
  }

  /** `Initialize`: empty, generation 0, and every slot free and linked to
      the next, the last to `Capacity`. The component and back-pointer
      arrays keep whatever they held. */
  function Initialize(data: seq<Component>, erase: seq<nat>): (r: SlotMap)
    requires |data| == Capacity && |erase| == Capacity
    ensures r.count == 0 && r.generation == 0 && r.freeList == 0
    ensures |r.indices| == Capacity
    ensures forall i :: 0 <= i < Capacity ==> r.indices[i] == Key(i + 1, MaxGen)
  {
    SlotMap(0, 0, 0, seq(Capacity, i requires 0 <= i => Key(i + 1, MaxGen)), data, erase)
  }

  /** A freshly initialised slot map satisfies the invariant and no key is
      live in it. */
  lemma InitializeValid(data: seq<Component>, erase: seq<nat>)
    requires |data| == Capacity && |erase| == Capacity
    ensures Valid(Initialize(data, erase))
    ensures forall key :: !Live(Initialize(data, erase), key)
  {
    var sm := Initialize(data, erase);
    var free := AllSlots();
    AllSlotsCover();
    assert ValidWith(sm, free);
  }

  /** Every slot in order: the free list of a fresh slot map. */
  function AllSlots(): (r: seq<nat>)
    ensures |r| == Capacity
    ensures forall s :: 0 <= s < Capacity ==> r[s] == s
  {
    seq(Capacity, i => i)
  }

  lemma AllSlotsCover()
    ensures forall s :: 0 <= s < Capacity ==> s in AllSlots()
  {
    var r := AllSlots();
    forall s | 0 <= s < Capacity
      ensures s in r
    {
      assert r[s] == s;
    }
  }

  /** `AddComponent`: the head of the free list becomes the new component's
      slot, with the next data index and the current generation; the key
      returned is that slot and generation. Count and generation both grow
      by one. `AddComponent` asserts room, an unexhausted generation and a
      non-empty free list. */
  function Add(sm: SlotMap, c: Component): (r: (SlotMap, Key))
    requires Valid(sm)
    requires sm.count < Capacity && sm.generation < MaxGen && sm.freeList < Capacity
    ensures r.1 == Key(sm.freeList, sm.generation)
    ensures r.0.count == sm.count + 1 && r.0.generation == sm.generation + 1
    ensures r.0.freeList == sm.indices[sm.freeList].id
  {
    var index := sm.freeList;
    var indices := sm.indices[index := Key(sm.count, sm.generation)];
    var data := sm.data[sm.count := c];
    var erase := sm.erase[sm.count := index];
    (SlotMap(sm.count + 1, sm.generation + 1, sm.indices[index].id, indices, data, erase),
     Key(index, sm.generation))
  }

  /** `GetComponent`: the component of a live key's slot. A key whose
      generation does not match only trips an assertion in `GetComponent`, so
      matching is required here. */
  function Get(sm: SlotMap, key: Key): (c: Component)
    requires Valid(sm) && Live(sm, key)
    ensures exists d :: 0 <= d < sm.count && sm.erase[d] == key.id && c == sm.data[d]
  {
    LiveFacts(sm, key);
    sm.data[sm.indices[key.id].id]
  }

  /** `RemoveComponent`: the slot goes to the head of the free list marked
      free, and the last component moves into the hole, its slot's data
      index following it, unless the hole is the last place already. */
  function Remove(sm: SlotMap, key: Key): (r: SlotMap)
    requires Valid(sm) && Live(sm, key)
    ensures r.count == sm.count - 1 && r.generation == sm.generation && r.freeList == key.id
    ensures |r.indices| == Capacity && r.indices[key.id] == Key(sm.freeList, MaxGen)
  {
    LiveFacts(sm, key);
    var internal := sm.indices[key.id];
    var indices := sm.indices[key.id := Key(sm.freeList, MaxGen)];
    var dataIndex := internal.id;
    var last := sm.count - 1;
    if dataIndex != last then
      var moved := sm.erase[last];
      SlotMap(last, sm.generation, key.id,
              indices[moved := indices[moved].(id := dataIndex)],
              sm.data[dataIndex := sm.data[last]],
              sm.erase[dataIndex := moved])
    else
      SlotMap(last, sm.generation, key.id, indices, sm.data, sm.erase)
  }

  /** What the invariant says about a live key's slot. */
  lemma LiveFacts(sm: SlotMap, key: Key)
    requires Valid(sm) && Live(sm, key)
    ensures |sm.indices| == Capacity && |sm.data| == Capacity && |sm.erase| == Capacity
    ensures sm.indices[key.id].id < sm.count <= Capacity
    ensures sm.erase[sm.indices[key.id].id] == key.id
    ensures sm.erase[sm.count - 1] < Capacity && sm.indices[sm.erase[sm.count - 1]].id == sm.count - 1
  {
    var free :| ValidWith(sm, free);
  }

  // ---------------------------------------------------------------------
  // The invariant is preserved
  // ---------------------------------------------------------------------

  /** With room left, the free list is not empty, so `AddComponent`'s third
      assertion follows from the first. */
  lemma RoomMeansFreeSlot(sm: SlotMap)
    requires Valid(sm) && sm.count < Capacity
    ensures sm.freeList < Capacity && sm.indices[sm.freeList].gen == MaxGen
  {
    var free :| ValidWith(sm, free);
  }

  lemma AddValid(sm: SlotMap, c: Component)
    requires Valid(sm)
    requires sm.count < Capacity && sm.generation < MaxGen && sm.freeList < Capacity
    ensures Valid(Add(sm, c).0)
  {
    var free :| ValidWith(sm, free);
    AddLinks(sm, c, free);
    AddMarks(sm, c, free);
    assert ValidWith(Add(sm, c).0, free[1..]);
  }

  /** The used slot leaves the head of the free list. */
  lemma AddLinks(sm: SlotMap, c: Component, free: seq<nat>)
    requires ValidWith(sm, free)
    requires sm.count < Capacity && sm.generation < MaxGen && sm.freeList < Capacity
    ensures |free| > 0 && |Add(sm, c).0.indices| == Capacity
    ensures FreeChain(Add(sm, c).0.indices, Add(sm, c).0.freeList, free[1..])
  {
    var r := Add(sm, c).0;
    var free' := free[1..];
    var index := sm.freeList;
    assert index == free[0];
    assert forall k :: 0 <= k < |free'| ==> free'[k] != index;
  }

  lemma AddMarks(sm: SlotMap, c: Component, free: seq<nat>)
    requires ValidWith(sm, free)
    requires sm.count < Capacity && sm.generation < MaxGen && sm.freeList < Capacity
    ensures |free| > 0 && |Add(sm, c).0.indices| == Capacity
    ensures forall s :: 0 <= s < Capacity ==> (Add(sm, c).0.indices[s].gen == MaxGen <==> s in free[1..])
  {
    var r := Add(sm, c).0;
    var free' := free[1..];
    var index := sm.freeList;
    assert index == free[0];
    forall s | 0 <= s < Capacity
      ensures r.indices[s].gen == MaxGen <==> s in free'
    {
      if s != index {
        assert s in free <==> s in free';
      } else {
        assert forall k :: 0 <= k < |free'| ==> free'[k] != index;
      }
    }
  }

  lemma RemoveValid(sm: SlotMap, key: Key)
    requires Valid(sm) && Live(sm, key)
    ensures Valid(Remove(sm, key))
  {
    var free :| ValidWith(sm, free);
    RemoveChain(sm, key, free);
    if sm.indices[key.id].id != sm.count - 1 {
      RemoveMovedLinks(sm, key, free);
    } else {
      RemoveLastLinks(sm, key, free);
    }
    assert ValidWith(Remove(sm, key), [key.id] + free);
  }

  /** The removed slot heads the free list. */
  lemma RemoveChain(sm: SlotMap, key: Key, free: seq<nat>)
    requires ValidWith(sm, free) && Live(sm, key)
    ensures var r := Remove(sm, key);
            && |r.indices| == Capacity
            && FreeChain(r.indices, r.freeList, [key.id] + free)
            && forall s :: 0 <= s < Capacity ==> (r.indices[s].gen == MaxGen <==> s in [key.id] + free)
  {
    RemoveLinks(sm, key, free);
    RemoveMarks(sm, key, free);
  }

  lemma RemoveLinks(sm: SlotMap, key: Key, free: seq<nat>)
    requires ValidWith(sm, free) && Live(sm, key)
    ensures |Remove(sm, key).indices| == Capacity
    ensures FreeChain(Remove(sm, key).indices, Remove(sm, key).freeList, [key.id] + free)
  {
    var r := Remove(sm, key);
    var free' := [key.id] + free;
    RemoveKeepsFree(sm, key, free);
    forall k | 0 <= k < |free'| - 1
      ensures r.indices[free'[k]].id == free'[k + 1]
    {
      if k > 0 {
        assert free'[k] == free[k - 1];
      }
    }
  }

  /** Removal touches only live slots, so every free slot keeps its link. */
  lemma RemoveKeepsFree(sm: SlotMap, key: Key, free: seq<nat>)
    requires ValidWith(sm, free) && Live(sm, key)
    ensures key.id !in free
    ensures forall k :: 0 <= k < |free| ==> Remove(sm, key).indices[free[k]] == sm.indices[free[k]]
  {
    LiveFacts(sm, key);
  }

  lemma RemoveMarks(sm: SlotMap, key: Key, free: seq<nat>)
    requires ValidWith(sm, free) && Live(sm, key)
    ensures |Remove(sm, key).indices| == Capacity
    ensures forall s :: 0 <= s < Capacity ==> (Remove(sm, key).indices[s].gen == MaxGen <==> s in [key.id] + free)
  {
    var r := Remove(sm, key);
    var free' := [key.id] + free;
    forall s | 0 <= s < Capacity
      ensures r.indices[s].gen == MaxGen <==> s in free'
    {
      assert s in free' <==> s == key.id || s in free;
    }
  }

  /** When the last component moves into the hole, its slot follows it and
      every back-pointer still leads to its slot. */
  lemma RemoveMovedLinks(sm: SlotMap, key: Key, free: seq<nat>)
    requires ValidWith(sm, free) && Live(sm, key) && sm.indices[key.id].id != sm.count - 1
    ensures var r := Remove(sm, key);
            && |r.indices| == Capacity && |r.data| == Capacity && |r.erase| == Capacity
            && (forall s :: 0 <= s < Capacity && r.indices[s].gen != MaxGen ==>
                  r.indices[s].gen < r.generation && r.indices[s].id < r.count && r.erase[r.indices[s].id] == s)
            && (forall d :: 0 <= d < r.count ==>
                  r.erase[d] < Capacity && r.indices[r.erase[d]].gen != MaxGen && r.indices[r.erase[d]].id == d)
  {
    var r := Remove(sm, key);
    var dataIndex := sm.indices[key.id].id;
    var last := sm.count - 1;
    var moved := sm.erase[last];
    assert moved != key.id;
    forall s | 0 <= s < Capacity && r.indices[s].gen != MaxGen
      ensures r.indices[s].gen < r.generation && r.indices[s].id < r.count && r.erase[r.indices[s].id] == s
    {
      if s != moved {
        assert sm.indices[s].id != last;
        assert sm.indices[s].id != dataIndex;
      }
    }
    forall d | 0 <= d < r.count
      ensures r.erase[d] < Capacity && r.indices[r.erase[d]].gen != MaxGen && r.indices[r.erase[d]].id == d
    {
      if d != dataIndex {
        assert sm.erase[d] != key.id;
        assert sm.erase[d] != moved;
      }
    }
  }

  /** When the hole is the last place, nothing moves. */
  lemma RemoveLastLinks(sm: SlotMap, key: Key, free: seq<nat>)
    requires ValidWith(sm, free) && Live(sm, key) && sm.indices[key.id].id == sm.count - 1
    ensures var r := Remove(sm, key);
            && |r.indices| == Capacity && |r.data| == Capacity && |r.erase| == Capacity
            && (forall s :: 0 <= s < Capacity && r.indices[s].gen != MaxGen ==>
                  r.indices[s].gen < r.generation && r.indices[s].id < r.count && r.erase[r.indices[s].id] == s)
            && (forall d :: 0 <= d < r.count ==>
                  r.erase[d] < Capacity && r.indices[r.erase[d]].gen != MaxGen && r.indices[r.erase[d]].id == d)
  {
    var r := Remove(sm, key);
    var last := sm.count - 1;
    forall s | 0 <= s < Capacity && r.indices[s].gen != MaxGen
      ensures r.indices[s].id < r.count
    {
      assert sm.indices[s].id != last;
    }
    forall d | 0 <= d < r.count
      ensures r.indices[r.erase[d]].gen != MaxGen
    {
      assert sm.erase[d] != key.id;
    }
  }

  // ---------------------------------------------------------------------
  // Keys
  // ---------------------------------------------------------------------

  /** The key `Add` returns is live and reads back the added component. */
  lemma GetAfterAdd(sm: SlotMap, c: Component)
    requires Valid(sm)
    requires sm.count < Capacity && sm.generation < MaxGen && sm.freeList < Capacity
    ensures Valid(Add(sm, c).0) && Live(Add(sm, c).0, Add(sm, c).1)
    ensures Get(Add(sm, c).0, Add(sm, c).1) == c
  {
    AddValid(sm, c);
  }

  /** Adding leaves every live key live and reading the same component. */
  lemma AddKeepsOthers(sm: SlotMap, c: Component, other: Key)
    requires Valid(sm) && Live(sm, other)
    requires sm.count < Capacity && sm.generation < MaxGen && sm.freeList < Capacity
    ensures Valid(Add(sm, c).0) && Live(Add(sm, c).0, other)
    ensures Get(Add(sm, c).0, other) == Get(sm, other)
  {
    AddValid(sm, c);
    var free :| ValidWith(sm, free);
    assert other.id != sm.freeList;
  }

  /** Removing one key leaves every other live key live and reading the same
      component, even the one that moved to fill the hole. */
  lemma RemoveKeepsOthers(sm: SlotMap, key: Key, other: Key)
    requires Valid(sm) && Live(sm, key) && Live(sm, other) && other.id != key.id
    ensures Valid(Remove(sm, key)) && Live(Remove(sm, key), other)
    ensures Get(Remove(sm, key), other) == Get(sm, other)
  {
    RemoveValid(sm, key);
    var free :| ValidWith(sm, free);
    var dataIndex := sm.indices[key.id].id;
    var last := sm.count - 1;
    if dataIndex != last && sm.erase[last] != other.id {
      assert sm.indices[other.id].id != last;
      assert sm.indices[other.id].id != dataIndex;
    }
  }

  /** A key is retired once its slot holds another generation for good:
      generations handed out from now on are all newer than the key's, and
      the slot is free or carries a newer one. */
  predicate Retired(sm: SlotMap, key: Key)
  {
    && key.gen < sm.generation
    && key.id < |sm.indices|
    && (sm.indices[key.id].gen == MaxGen || sm.indices[key.id].gen > key.gen)
  }

  /** A retired key matches nothing. */
  lemma RetiredDoesNotMatch(sm: SlotMap, key: Key)
    requires Retired(sm, key) && sm.generation <= MaxGen
    ensures !Matches(sm, key)
  {
  }

  /** Removing a key retires it. */
  lemma RemoveRetires(sm: SlotMap, key: Key)
    requires Valid(sm) && Live(sm, key)
    ensures Retired(Remove(sm, key), key) && !Matches(Remove(sm, key), key)
  {
    var free :| ValidWith(sm, free);
  }

  /** A retired key stays retired whatever is added. */
  lemma AddKeepsRetired(sm: SlotMap, c: Component, key: Key)
    requires Valid(sm) && Retired(sm, key)
    requires sm.count < Capacity && sm.generation < MaxGen && sm.freeList < Capacity
    ensures Retired(Add(sm, c).0, key)
  {
  }

  /** A retired key stays retired whatever else is removed. */
  lemma RemoveKeepsRetired(sm: SlotMap, other: Key, key: Key)
    requires Valid(sm) && Live(sm, other) && Retired(sm, key)
    ensures Retired(Remove(sm, other), key)
  {
    var free :| ValidWith(sm, free);
  }
}
