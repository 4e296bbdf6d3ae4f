/** Capacity limits and the ledger of occupied slots of the generation worker
    (lib/generation_worker.py). */
module SlotTable {
  import opened Wrappers

  // ---------------------------------------------------------------- limits

  datatype Limits = Limits(lanes: map<string, map<string, int>>, defaults: map<string, int>) {
    /** `CapacityTable.get`: a known provider without the lane has none of it, an unknown provider
        gets the lane's default. */
    function Get(provider: string, media: string): int {
      if provider !in lanes then (if media in defaults then defaults[media] else 0)
      else if media in lanes[provider] then lanes[provider][media]
      else 0
    }
  }

  class CapacityTable {
    var limits: Limits

    constructor (limits: Limits)
      ensures this.limits == limits
    {
      this.limits := limits;
    }

    /** A reload: listed providers get exactly the lanes listed for them, all others the defaults
        they had. */
    method Replace(lanes: map<string, map<string, int>>)
      modifies this
      ensures limits == old(limits).(lanes := lanes)
      ensures forall provider, media :: provider in lanes ==>
        limits.Get(provider, media) == if media in lanes[provider] then lanes[provider][media] else 0
      ensures forall provider, media :: provider !in lanes ==>
        limits.Get(provider, media) == Limits(map[], old(limits).defaults).Get(provider, media)
    {
      limits := limits.(lanes := lanes);
    }
  }

  // ---------------------------------------------------------------- slots as a value

  /** A lane of a provider. */
  datatype Key = Key(provider: string, media: string)

  /** The asyncio task that occupies a slot, by identity; pending while it waits for its turn. */
  datatype Occupant = Occupant(task: nat, pending: bool)

  type Slots = map<Key, map<string, Occupant>>

  ghost predicate NoEmptyBucket(slots: Slots) {
    forall key <- slots :: slots[key] != map[]
  }

  function Bucket(slots: Slots, key: Key): map<string, Occupant> {
    if key in slots then slots[key] else map[]
  }

  function Occupied(slots: Slots, provider: string, media: string): nat {
    |Bucket(slots, Key(provider, media))|
  }

  predicate Holds(slots: Slots, key: Key, id: string) {
    id in Bucket(slots, key)
  }

  /** The table with this bucket, which is dropped when it is empty. */
  function WithBucket(slots: Slots, key: Key, bucket: map<string, Occupant>): Slots {
    if bucket == map[] then slots - {key} else slots[key := bucket]
  }

  function Registered(slots: Slots, key: Key, id: string, o: Occupant): Slots {
    slots[key := Bucket(slots, key)[id := o]]
  }

  function Promoted(slots: Slots, key: Key, id: string): Slots {
    if Holds(slots, key, id) then
      slots[key := slots[key][id := slots[key][id].(pending := false)]]
    else slots
  }

  function Released(slots: Slots, key: Key, id: string): Slots {
    if key in slots then WithBucket(slots, key, slots[key] - {id}) else slots
  }

  predicate Finishable(o: Occupant, done: set<nat>) {
    !o.pending && o.task in done
  }

  function StillHeld(bucket: map<string, Occupant>, done: set<nat>): map<string, Occupant> {
    map id | id in bucket && !Finishable(bucket[id], done) :: bucket[id]
  }

  function Drained(slots: Slots, done: set<nat>): Slots {
    map key | key in slots && StillHeld(slots[key], done) != map[] :: StillHeld(slots[key], done)
  }

  predicate HasRoom(slots: Slots, provider: string, media: string, capacity: int) {
    capacity > 0 && Occupied(slots, provider, media) < capacity
  }

  predicate IsFull(slots: Slots, limits: Limits, provider: string, media: string) {
    limits.Get(provider, media) > 0 && !HasRoom(slots, provider, media, limits.Get(provider, media))
  }

  /** The blacklist of a lane: providers with a positive limit and no room left, looked for only
      among those that occupy something. */
  function PoolFull(slots: Slots, limits: Limits, media: string): set<string> {
    set key | key in slots && key.media == media && slots[key] != map[] && IsFull(slots, limits, key.provider, media)
    :: key.provider
  }

  // ---------------------------------------------------------------- laws

  /** Looking only at occupied providers misses none: the blacklist is what scanning every
      provider there could be would find. */
  lemma BlacklistIsComplete(slots: Slots, limits: Limits, media: string, provider: string)
    ensures provider in PoolFull(slots, limits, media) <==>
      limits.Get(provider, media) > 0 && Occupied(slots, provider, media) >= limits.Get(provider, media)
  {
    var key := Key(provider, media);
    if Occupied(slots, provider, media) > 0 { assert key in slots && key.media == media; }
  }

  /** Every operation keeps the table free of empty buckets. */
  lemma NoEmptyBucketKept(slots: Slots, key: Key, id: string, o: Occupant, done: set<nat>)
    requires NoEmptyBucket(slots)
    ensures NoEmptyBucket(Registered(slots, key, id, o))
    ensures NoEmptyBucket(Promoted(slots, key, id))
    ensures NoEmptyBucket(Released(slots, key, id))
    ensures NoEmptyBucket(Drained(slots, done))
  {
    assert id in Bucket(slots, key)[id := o];
    if Holds(slots, key, id) {
      assert id in slots[key][id := slots[key][id].(pending := false)];
    }
  }

  /** What each operation does to who holds which slot. */
  lemma WhoHolds(slots: Slots, key: Key, id: string, o: Occupant, done: set<nat>, k: Key, i: string)
    ensures Holds(Registered(slots, key, id, o), k, i) <==> (k == key && i == id) || Holds(slots, k, i)
    ensures Holds(Promoted(slots, key, id), k, i) <==> Holds(slots, k, i)
    ensures Holds(Released(slots, key, id), k, i) <==> Holds(slots, k, i) && !(k == key && i == id)
    ensures Holds(Drained(slots, done), k, i) <==>
      Holds(slots, k, i) && !Finishable(Bucket(slots, k)[i], done)
  {
    if Holds(slots, k, i) && !Finishable(Bucket(slots, k)[i], done) {
      assert i in StillHeld(slots[k], done);
    }
  }

  /** Registering takes one slot of its own lane, or none when the task had one there; releasing
      gives it back: registering a newcomer and releasing it restores the table. */
  lemma RegisterThenRelease(slots: Slots, key: Key, id: string, o: Occupant)
    requires NoEmptyBucket(slots)
    ensures Occupied(Registered(slots, key, id, o), key.provider, key.media)
      == Occupied(slots, key.provider, key.media) + if Holds(slots, key, id) then 0 else 1
    ensures !Holds(slots, key, id) ==> Released(Registered(slots, key, id, o), key, id) == slots
  {
    var bucket := Bucket(slots, key);
    AddThenRemove(bucket, id, o);
    if !Holds(slots, key, id) {
      PutBack(slots, key, bucket[id := o], bucket);
    }
  }

  lemma AddThenRemove(bucket: map<string, Occupant>, id: string, o: Occupant)
    ensures |bucket[id := o]| == |bucket| + if id in bucket then 0 else 1
    ensures id !in bucket ==> bucket[id := o] - {id} == bucket
  {
    assert bucket[id := o].Keys == bucket.Keys + {id};
  }

  lemma PutBack(slots: Slots, key: Key, other: map<string, Occupant>, bucket: map<string, Occupant>)
    requires NoEmptyBucket(slots) && bucket == Bucket(slots, key)
    ensures WithBucket(slots[key := other], key, bucket) == slots
  {
    var out := WithBucket(slots[key := other], key, bucket);
    assert forall k :: k in out <==> k in slots;
  }

  /** Registering elsewhere takes nothing from a lane. */
  lemma RegisterElsewhere(slots: Slots, key: Key, id: string, o: Occupant, provider: string, media: string)
    requires key != Key(provider, media)
    ensures Occupied(Registered(slots, key, id, o), provider, media) == Occupied(slots, provider, media)
  {
  }

  /** Promoting takes and frees no slot; releasing and draining never take one. */
  lemma PromotedOccupies(slots: Slots, key: Key, id: string, provider: string, media: string)
    ensures Occupied(Promoted(slots, key, id), provider, media) == Occupied(slots, provider, media)
  {
    if Holds(slots, key, id) { AddThenRemove(slots[key], id, slots[key][id].(pending := false)); }
  }

  lemma ReleasedOccupies(slots: Slots, key: Key, id: string, provider: string, media: string)
    ensures Occupied(Released(slots, key, id), provider, media) <= Occupied(slots, provider, media)
  {
    var bucket := Bucket(slots, key);
    FewerKeys(bucket - {id}, bucket);
  }

  lemma DrainedOccupies(slots: Slots, done: set<nat>, provider: string, media: string)
    ensures Occupied(Drained(slots, done), provider, media) <= Occupied(slots, provider, media)
  {
    var bucket := Bucket(slots, Key(provider, media));
    FewerKeys(StillHeld(bucket, done), bucket);
    hide Finishable;
  }

  lemma FewerKeys(a: map<string, Occupant>, b: map<string, Occupant>)
    requires a.Keys <= b.Keys
    ensures |a| <= |b|
  {
    SubsetSize(a.Keys, b.Keys);
  }

  lemma {:induction false} SubsetSize(a: set<string>, b: set<string>)
    requires a <= b
    ensures |a| <= |b|
  {
    if x :| x in a {
      SubsetSize(a - {x}, b - {x});
    }
  }

  // ---------------------------------------------------------------- the table

  class Table {
    var slots: Slots

    ghost predicate Valid()
      reads this
    {
      NoEmptyBucket(slots)
    }

    constructor ()
      ensures Valid() && slots == map[]
    {
      slots := map[];
    }

    method Register(provider: string, media: string, id: string, task: nat, pending: bool)
      requires Valid()
      modifies this
      ensures Valid() && slots == Registered(old(slots), Key(provider, media), id, Occupant(task, pending))
    {
      NoEmptyBucketKept(slots, Key(provider, media), id, Occupant(task, pending), {});
      var key := Key(provider, media);
      if key !in slots { slots := slots[key := map[]]; }
      slots := slots[key := slots[key][id := Occupant(task, pending)]];
    }

    method Promote(provider: string, media: string, id: string)
      requires Valid()
      modifies this
      ensures Valid() && slots == Promoted(old(slots), Key(provider, media), id)
    {
      var key := Key(provider, media);
      if key !in slots { return; }
      var bucket := slots[key];
      if id in bucket {
        NoEmptyBucketKept(slots, key, id, bucket[id], {});
        slots := slots[key := bucket[id := bucket[id].(pending := false)]];
      }
    }

    method Release(provider: string, media: string, id: string)
      requires Valid()
      modifies this
      ensures Valid() && slots == Released(old(slots), Key(provider, media), id)
    {
      var key := Key(provider, media);
      if key !in slots { return; }
      var bucket := slots[key] - {id};
      slots := slots[key := bucket];
      if bucket == map[] { slots := slots - {key}; }
      assert slots == Released(old(slots), key, id);
    }

    /** The first occupant found under the id, if any lane has one. */
    method FindByTask(id: string) returns (task: Option<nat>)
      ensures task.None? <==> forall key :: !Holds(slots, key, id)
      ensures task.Some? ==> exists key :: Holds(slots, key, id) && slots[key][id].task == task.value
    {
      var todo := slots.Keys;
      while todo != {}
        invariant todo <= slots.Keys
        invariant forall key :: key in slots && key !in todo ==> !Holds(slots, key, id)
        decreases |todo|
      {
        var key :| key in todo;
        if id in slots[key] {
          assert Holds(slots, key, id);
          return Some(slots[key][id].task);
        }
        todo := todo - {key};
      }
      return None;
    }

    /** `request_cancel`: the asyncio task to cancel, if one is found and not done yet. */
    method RequestCancel(id: string, done: set<nat>) returns (task: Option<nat>)
      ensures task.Some? ==>
        task.value !in done && exists key :: Holds(slots, key, id) && slots[key][id].task == task.value
      ensures task.None? ==> forall key :: Holds(slots, key, id) ==>
        exists other :: Holds(slots, other, id) && slots[other][id].task in done
    {
      task := FindByTask(id);
      if task.Some? && task.value in done { task := None; }
    }

    function OccupiedProviders(media: string): (r: set<string>)
      reads this
      ensures forall p :: p in r <==> Occupied(slots, p, media) > 0
    {
      assert forall p :: Occupied(slots, p, media) > 0 ==> Key(p, media) in slots;
      set key | key in slots && key.media == media && slots[key] != map[] :: key.provider
    }

    /** `_pool_full_providers`. */
    method PoolFullProviders(limits: Limits, media: string) returns (full: set<string>)
      ensures full == PoolFull(slots, limits, media)
    {
      full := {};
      var todo := OccupiedProviders(media);
      var all := todo;
      while todo != {}
        invariant todo <= all
        invariant forall p :: p in full <==> p in all - todo && IsFull(slots, limits, p, media)
        decreases |todo|
      {
        var p :| p in todo;
        var cap := limits.Get(p, media);
        if cap > 0 && !HasRoom(slots, p, media, cap) { full := full + {p}; }
        todo := todo - {p};
      }
      forall p
        ensures p in full <==> p in PoolFull(slots, limits, media)
      {
        BlacklistIsComplete(slots, limits, media, p);
      }
    }

    /** Removes every occupant that runs and is done, with the buckets this empties, and lists
        them: each of them once. */
    method DrainFinished(done: set<nat>) returns (finished: seq<Finished>)
      requires Valid()
      modifies this
      ensures Valid() && slots == Drained(old(slots), done)
      ensures ListsOnce(finished, old(slots), done, old(slots).Keys)
    {
      ghost var before := slots;
      finished := [];
      var todo := slots.Keys;
      hide ListsOnce, DrainedUpTo, WithBucket, StillHeld;
      NothingDrained(before, done);
      assert before.Keys - todo == {};
      while todo != {}
        invariant todo <= before.Keys
        invariant DrainedUpTo(before, slots, done, before.Keys - todo)
        invariant ListsOnce(finished, before, done, before.Keys - todo)
        decreases |todo|
      {
        var key :| key in todo;
        DrainOne(before, slots, done, before.Keys - todo, key);
        var kept, popped := DrainBucket(key, slots[key], done);
        ListMore(finished, popped, before, done, before.Keys - todo, key);
        assert before.Keys - (todo - {key}) == (before.Keys - todo) + {key};
        finished := finished + popped;
        slots := WithBucket(slots, key, kept);
        todo := todo - {key};
      }
      assert before.Keys - todo == before.Keys;
      AllDrained(before, slots, done);
      NoEmptyBucketKept(before, Key("", ""), "", Occupant(0, true), done);
    }

    static method DrainBucket(key: Key, bucket: map<string, Occupant>, done: set<nat>)
      returns (kept: map<string, Occupant>, popped: seq<Finished>)
      ensures kept == StillHeld(bucket, done)
      ensures forall i, j :: 0 <= i < j < |popped| ==> popped[i] != popped[j]
      ensures forall f :: f in popped <==> IsPopped(f, key, bucket, done)
    {
      kept, popped := bucket, [];
      var ids := set id | id in bucket && Finishable(bucket[id], done);
      while ids != {}
        invariant ids <= bucket.Keys && forall id <- ids :: Finishable(bucket[id], done)
        invariant kept == map id | id in bucket && (id in ids || !Finishable(bucket[id], done)) :: bucket[id]
        invariant forall i, j :: 0 <= i < j < |popped| ==> popped[i] != popped[j]
        invariant forall f :: f in popped <==> IsPopped(f, key, bucket, done) && f.id !in ids
        decreases |ids|
      {
        var id :| id in ids;
        popped := popped + [Finished(key, id, kept[id].task)];
        kept := kept - {id};
        ids := ids - {id};
      }
    }
  }

  ghost predicate IsPopped(f: Finished, key: Key, bucket: map<string, Occupant>, done: set<nat>) {
    f.key == key && f.id in bucket && Finishable(bucket[f.id], done) && f.task == bucket[f.id].task
  }

  /** A task whose asyncio task is done, and the lane it was in. */
  datatype Finished = Finished(key: Key, id: string, task: nat)

  /** The list names each finished occupant of these lanes exactly once, and nothing else. */
  ghost predicate ListsOnce(finished: seq<Finished>, slots: Slots, done: set<nat>, keys: set<Key>) {
    && (forall i, j :: 0 <= i < j < |finished| ==> finished[i] != finished[j])
    && forall f :: f in finished <==> f.key in keys && IsFinished(slots, done, f)
  }

  ghost predicate IsFinished(slots: Slots, done: set<nat>, f: Finished) {
    Holds(slots, f.key, f.id) && slots[f.key][f.id].task == f.task && Finishable(slots[f.key][f.id], done)
  }

  ghost predicate DrainedUpTo(before: Slots, now: Slots, done: set<nat>, keys: set<Key>) {
    && keys <= before.Keys
    && (forall key :: Bucket(now, key) == if key in keys then StillHeld(before[key], done) else Bucket(before, key))
    && NoEmptyBucket(now)
  }

  lemma NothingDrained(slots: Slots, done: set<nat>)
    requires NoEmptyBucket(slots)
    ensures DrainedUpTo(slots, slots, done, {}) && ListsOnce([], slots, done, {})
  {
  }

  lemma DrainOne(before: Slots, now: Slots, done: set<nat>, keys: set<Key>, key: Key)
    requires DrainedUpTo(before, now, done, keys) && key in before && key !in keys && NoEmptyBucket(before)
    ensures key in now && now[key] == before[key]
    ensures DrainedUpTo(before, WithBucket(now, key, StillHeld(now[key], done)), done, keys + {key})
  {
    hide StillHeld;
    assert Bucket(now, key) == before[key];
  }

  lemma ListMore(finished: seq<Finished>, popped: seq<Finished>, slots: Slots, done: set<nat>, keys: set<Key>, key: Key)
    requires ListsOnce(finished, slots, done, keys) && key in slots && key !in keys
    requires forall i, j :: 0 <= i < j < |popped| ==> popped[i] != popped[j]
    requires forall f :: f in popped <==> IsPopped(f, key, slots[key], done)
    ensures ListsOnce(finished + popped, slots, done, keys + {key})
  {
    hide Finishable;
    var all := finished + popped;
    forall i, j | 0 <= i < j < |all|
      ensures all[i] != all[j]
    {
      if i < |finished| <= j {
        assert finished[i] in finished && popped[j - |finished|] in popped;
      }
    }
  }

  lemma AllDrained(before: Slots, now: Slots, done: set<nat>)
    requires DrainedUpTo(before, now, done, before.Keys)
    ensures now == Drained(before, done)
  {
    hide StillHeld;
    var out := Drained(before, done);
    forall key
      ensures key in now <==> key in out
      ensures key in now ==> now[key] == out[key]
    {
      assert Bucket(now, key) == if key in before then StillHeld(before[key], done) else map[];
    }
  }
}
