/** The worker's occupancy ledger: which task occupies which lane, and whether it is still waiting for its turn. */
module SlotTable {
  import opened Wrappers

  /** A provider's lane for one media type. */
  datatype Lane = Lane(provider: string, media: string)

  /** An occupied slot: the running body, and whether it still waits for the semaphore. */
  datatype Occupant = Occupant(task: int, pending: bool)

  type Bucket = map<string, Occupant>

  type Slots = map<Lane, Bucket>

  function BucketOf(slots: Slots, lane: Lane): Bucket
  {
    if lane in slots then slots[lane] else map[]
  }

  /** No lane is listed without an occupant. */
  ghost predicate NoEmptyBucket(slots: Slots)
  {
    forall lane | lane in slots :: slots[lane] != map[]
  }

  /** One lane now holds `bucket`; all others are as they were. */
  ghost predicate IsChangedAt(before: Slots, after: Slots, lane: Lane, bucket: Bucket)
  {
    && BucketOf(after, lane) == bucket
    && forall other | other != lane :: BucketOf(after, other) == BucketOf(before, other)
  }

  function Pending(bucket: Bucket): (ids: set<string>)
  {
    set id | id in bucket && bucket[id].pending
  }

  function InFlight(bucket: Bucket): (ids: set<string>)
  {
    set id | id in bucket && !bucket[id].pending
  }

  function Promoted(bucket: Bucket, id: string): Bucket
  {
    if id in bucket then bucket[id := bucket[id].(pending := false)] else bucket
  }

  /** Occupants that drain takes out: in flight and done. */
  predicate IsFinished(bucket: Bucket, done: set<int>, id: string)
  {
    id in bucket && !bucket[id].pending && bucket[id].task in done
  }

  function Undrained(bucket: Bucket, done: set<int>): Bucket
  {
    map id | id in bucket && !IsFinished(bucket, done, id) :: bucket[id]
  }

  class Table {
    var slots: Slots

    ghost predicate Valid()
      reads this
    {
      NoEmptyBucket(slots)
    }

    constructor ()
      ensures Valid() && slots == map[]
    {
      slots := map[];
    }

    method Register(lane: Lane, id: string, task: int, pending: bool)
      requires Valid()
      modifies this
      ensures Valid()
      ensures IsChangedAt(old(slots), slots, lane, BucketOf(old(slots), lane)[id := Occupant(task, pending)])
    {
      if lane !in slots {
        slots := slots[lane := map[]];
      }
      slots := slots[lane := slots[lane][id := Occupant(task, pending)]];
      assert id in slots[lane];
    }

    method Promote(lane: Lane, id: string)
      requires Valid()
      modifies this
      ensures Valid()
      ensures IsChangedAt(old(slots), slots, lane, Promoted(BucketOf(old(slots), lane), id))
    {
      if lane !in slots {
        return;
      }
      if id in slots[lane] {
        slots := slots[lane := slots[lane][id := slots[lane][id].(pending := false)]];
      }
    }

    method Release(lane: Lane, id: string)
      requires Valid()
      modifies this
      ensures Valid()
      ensures IsChangedAt(old(slots), slots, lane, BucketOf(old(slots), lane) - {id})
    {
      if lane !in slots {
        return;
      }
      var bucket := slots[lane] - {id};
      slots := slots[lane := bucket];
      if bucket == map[] {
        slots := slots - {lane};
      }
    }

    method HasRoom(lane: Lane, capacity: int) returns (r: bool)
      ensures r <==> capacity > 0 && |BucketOf(slots, lane)| < capacity
    {
      if capacity <= 0 {
        return false;
      }
      r := |BucketOf(slots, lane)| < capacity;
    }

    /** The providers that could be full: because no bucket is empty, these are the ones with an entry. */
    method OccupiedProviders(media: string) returns (providers: set<string>)
      requires Valid()
      ensures forall p :: p in providers <==> |BucketOf(slots, Lane(p, media))| > 0
    {
      providers := {};
      var rest := slots.Keys;
      while rest != {}
        invariant rest <= slots.Keys
        invariant forall p :: p in providers <==> Lane(p, media) in slots && Lane(p, media) !in rest
      {
        var lane :| lane in rest;
        if lane.media == media && slots[lane] != map[] {
          providers := providers + {lane.provider};
        }
        rest := rest - {lane};
      }
    }

    /** Removes and returns every occupant that is in flight and done, and no other. */
    method DrainFinished(done: set<int>) returns (finished: set<(string, int)>)
      requires Valid()
      modifies this
      ensures Valid()
      ensures forall lane :: BucketOf(slots, lane) == Undrained(BucketOf(old(slots), lane), done)
      ensures forall id, task :: (id, task) in finished <==> IsHarvest(old(slots), done, id, task)
    {
      finished := {};
      ghost var before := slots;
      var rest := slots.Keys;
      while rest != {}
        invariant Valid() && rest <= slots.Keys && slots.Keys <= before.Keys
        invariant forall lane | lane in rest :: BucketOf(slots, lane) == BucketOf(before, lane)
        invariant forall lane | lane !in rest :: BucketOf(slots, lane) == Undrained(BucketOf(before, lane), done)
        invariant forall pair | pair in finished :: IsHarvest(before, done, pair.0, pair.1)
        invariant forall lane | lane !in rest :: IsGathered(BucketOf(before, lane), done, finished)
      {
        var lane :| lane in rest;
        var more := DrainLane(lane, done);
        MoreGathered(before, done, rest, lane, finished, more);
        finished := finished + more;
        rest := rest - {lane};
      }
      AllGathered(before, done, finished);
    }

    method DrainLane(lane: Lane, done: set<int>) returns (finished: set<(string, int)>)
      requires Valid() && lane in slots
      modifies this
      ensures Valid() && slots.Keys <= old(slots.Keys) <= slots.Keys + {lane}
      ensures IsChangedAt(old(slots), slots, lane, Undrained(BucketOf(old(slots), lane), done))
      ensures forall pair | pair in finished ::
                IsFinished(BucketOf(old(slots), lane), done, pair.0)
                    && BucketOf(old(slots), lane)[pair.0].task == pair.1
      ensures IsGathered(BucketOf(old(slots), lane), done, finished)
    {
      var bucket := slots[lane];
      var ids := set id | id in bucket && IsFinished(bucket, done, id);
      finished := set id | id in ids :: (id, bucket[id].task);
      var left := bucket - ids;
      slots := slots[lane := left];
      if left == map[] {
        slots := slots - {lane};
      }
    }

    method FindByTask(id: string) returns (task: Option<int>)
      ensures task.Some? ==> exists lane :: id in BucketOf(slots, lane) && BucketOf(slots, lane)[id].task == task.value
      ensures task.None? ==> forall lane :: id !in BucketOf(slots, lane)
    {
      var rest := slots.Keys;
      while rest != {}
        invariant rest <= slots.Keys
        invariant forall lane | lane in slots && lane !in rest :: id !in slots[lane]
      {
        var lane :| lane in rest;
        if id in slots[lane] {
          assert BucketOf(slots, lane)[id].task == slots[lane][id].task;
          return Some(slots[lane][id].task);
        }
        rest := rest - {lane};
      }
      return None;
    }

    method ActiveTaskIds() returns (ids: set<string>)
      ensures forall id :: id in ids <==> IsActive(slots, id)
    {
      ids := {};
      var rest := slots.Keys;
      while rest != {}
        invariant rest <= slots.Keys
        invariant forall id | id in ids :: IsActive(slots, id)
        invariant forall lane, id | lane in slots && lane !in rest && id in slots[lane] :: id in ids
      {
        var lane :| lane in rest;
        forall id | id in slots[lane] ensures IsActive(slots, id) {
          assert id in BucketOf(slots, lane);
        }
        ids := ids + slots[lane].Keys;
        rest := rest - {lane};
      }
    }
  }

  /** (id, task) was in flight and done somewhere in the table. */
  ghost predicate IsHarvest(slots: Slots, done: set<int>, id: string, task: int)
  {
    exists lane :: IsFinished(BucketOf(slots, lane), done, id) && BucketOf(slots, lane)[id].task == task
  }

  /** All finished occupants of a bucket have been taken out. */
  ghost predicate IsGathered(bucket: Bucket, done: set<int>, finished: set<(string, int)>)
  {
    forall id | IsFinished(bucket, done, id) :: (id, bucket[id].task) in finished
  }

  lemma MoreGathered(
    slots: Slots, done: set<int>, rest: set<Lane>, lane: Lane, finished: set<(string, int)>, more: set<(string, int)>)
    requires forall other | other !in rest :: IsGathered(BucketOf(slots, other), done, finished)
    requires IsGathered(BucketOf(slots, lane), done, more)
    ensures forall other | other !in rest - {lane} :: IsGathered(BucketOf(slots, other), done, finished + more)
  {
    forall other | other !in rest - {lane} ensures IsGathered(BucketOf(slots, other), done, finished + more) {
      assert other != lane ==> IsGathered(BucketOf(slots, other), done, finished);
    }
  }

  lemma AllGathered(slots: Slots, done: set<int>, finished: set<(string, int)>)
    requires forall lane :: IsGathered(BucketOf(slots, lane), done, finished)
    ensures forall id, task | IsHarvest(slots, done, id, task) :: (id, task) in finished
  {
    forall id, task | IsHarvest(slots, done, id, task) ensures (id, task) in finished {
      var lane :| IsFinished(BucketOf(slots, lane), done, id) && BucketOf(slots, lane)[id].task == task;
      assert IsGathered(BucketOf(slots, lane), done, finished);
    }
  }

  /** The task occupies some slot, waiting or running. */
  ghost predicate IsActive(slots: Slots, id: string)
  {
    exists lane :: id in BucketOf(slots, lane)
  }

  /** Tables without empty buckets are determined by what their lanes hold. */
  lemma SameBucketsSameTable(a: Slots, b: Slots)
    requires NoEmptyBucket(a) && NoEmptyBucket(b)
    requires forall lane :: BucketOf(a, lane) == BucketOf(b, lane)
    ensures a == b
  {
    forall lane ensures lane in a <==> lane in b {
      assert BucketOf(a, lane) == BucketOf(b, lane);
    }
    forall lane | lane in a ensures a[lane] == b[lane] {
      assert BucketOf(a, lane) == BucketOf(b, lane);
    }
  }

  lemma Occupancy(bucket: Bucket)
    ensures |InFlight(bucket)| + |Pending(bucket)| == |bucket|
  {
    assert InFlight(bucket) + Pending(bucket) == bucket.Keys;
    assert InFlight(bucket) !! Pending(bucket);
  }
}
