/** The record store: a bounded set of keys that gives up the furthest key for a nearer one. */
module RecordStore {
  import opened Common
  import opened Nearest

  type Key = nat

  datatype Error = MaxRecords

  /** The records after offering a key, or None when the key is refused: a full store refuses a key
      that is not nearer than its furthest one, and drops that one otherwise. */
  function Put(records: set<Key>, k: Key, max: nat, dist: Key -> int): Option<set<Key>>
    requires Injective(dist)
  {
    if |records| < max || records == {} then Some(records + {k})
    else
      var sorted := Sort(records, dist);
      var furthest := sorted[|sorted| - 1];
      if dist(k) < dist(furthest) then Some(records - {furthest} + {k}) else None
  }

  function After(records: set<Key>, k: Key, max: nat, dist: Key -> int): set<Key>
    requires Injective(dist)
  {
    match Put(records, k, max, dist) case Some(next) => next case None => records
  }

  class DiskBackedRecordStore {
    const max: nat
    const dist: Key -> int
    var records: set<Key>
    var distanceRange: Option<int>

    constructor (max: nat, dist: Key -> int)
      ensures this.max == max && this.dist == dist && records == {} && distanceRange == None
    {
      this.max, this.dist, records, distanceRange := max, dist, {}, None;
    }

    /** Makes room for a key if needed; fails when the store is full of nearer records. */
    method PruneStorageIfNeededForRecord(k: Key) returns (r: Result<(), Error>)
      requires Injective(dist)
      modifies this`records
      ensures match Put(old(records), k, max, dist)
        case Some(next) => r == Ok(()) && records + {k} == next
        case None => r == Err(MaxRecords) && records == old(records)
    {
      if |records| < max {
        return Ok(());
      }
      var sorted := Sort(records, dist);
      if sorted != [] {
        var furthest := sorted[|sorted| - 1];
        if dist(k) < dist(furthest) {
          Remove(furthest);
        } else {
          return Err(MaxRecords);
        }
      }
      r := Ok(());
    }

    method PutVerified(k: Key) returns (r: Result<(), Error>)
      requires Injective(dist)
      modifies this`records
      ensures match Put(old(records), k, max, dist)
        case Some(next) => r == Ok(()) && records == next && k in records
        case None => r == Err(MaxRecords) && records == old(records)
    {
      r := PruneStorageIfNeededForRecord(k);
      if r.Ok? {
        records := records + {k};
      }
    }

    method Remove(k: Key)
      modifies this`records
      ensures records == old(records) - {k}
    {
      records := records - {k};
    }

    method SetDistanceRange(d: int)
      modifies this`distanceRange
      ensures distanceRange == Some(d)
    {
      distanceRange := Some(d);
    }
  }

  // ---------- Keeping the nearest ----------

  /** The last of the sorted records is further than all the others. */
  lemma FurthestIsLast(records: set<Key>, dist: Key -> int)
    requires Injective(dist) && records != {}
    ensures var sorted := Sort(records, dist);
      var furthest := sorted[|sorted| - 1];
      furthest in records && |Closer(records, dist, furthest)| == |records| - 1
      && forall x :: x in records && x != furthest ==> dist(x) < dist(furthest)
  {
    var sorted := Sort(records, dist);
    SortMembers(records, dist);
    SortAscending(records, dist);
    RankOfPosition(records, dist, |records| - 1);
  }

  /** A full store ends up without the furthest of the records and the offered key. */
  lemma FullStoreDropsLast(records: set<Key>, k: Key, max: nat, dist: Key -> int) returns (last: Key)
    requires Injective(dist) && |records| == max >= 1 && k !in records
    ensures last in records + {k} && forall x :: x in records + {k} && x != last ==> dist(x) < dist(last)
    ensures After(records, k, max, dist) == records + {k} - {last}
  {
    var sorted := Sort(records, dist);
    var furthest := sorted[|sorted| - 1];
    FurthestIsLast(records, dist);
    DistinctKeys<Key>(dist, k, furthest);
    if dist(k) < dist(furthest) {
      last := furthest;
      assert records - {furthest} + {k} == records + {k} - {furthest};
    } else {
      last := k;
      assert records == records + {k} - {k};
    }
  }

  lemma RoomKeepsAll(all: set<Key>, max: nat, dist: Key -> int)
    requires |all| <= max
    ensures Closest(all, dist, max) == all
  {
    forall x | x in all ensures |Closer(all, dist, x)| < max {
      SubsetSize(Closer(all, dist, x) + {x}, all);
    }
  }

  /** Taking a key into a store that holds at most max keys keeps the max nearest of them all. */
  lemma AfterIsClosest(records: set<Key>, k: Key, max: nat, dist: Key -> int)
    requires Injective(dist) && max >= 1 && |records| <= max && k !in records
    ensures After(records, k, max, dist) == Closest(records + {k}, dist, max)
  {
    if |records| < max {
      RoomKeepsAll(records + {k}, max, dist);
    } else {
      var last := FullStoreDropsLast(records, k, max, dist);
      LastDropped(records + {k}, dist, last);
    }
  }

  /** Without its furthest item a collection is the nearest all-but-one of it. */
  lemma LastDropped(all: set<Key>, dist: Key -> int, last: Key)
    requires last in all && forall x :: x in all && x != last ==> dist(x) < dist(last)
    ensures Closest(all, dist, |all| - 1) == all - {last}
  {
    forall x | x in all && x != last ensures |Closer(all, dist, x)| < |all| - 1 {
      SubsetSize(Closer(all, dist, x) + {x}, all - {last});
    }
    assert Closer(all, dist, last) == all - {last};
  }

  /** Offering a new key to the nearest of what was offered before gives the nearest of everything. */
  lemma OfferOne(offered: set<Key>, k: Key, max: nat, dist: Key -> int)
    requires Injective(dist) && max >= 1 && k !in offered
    ensures After(Closest(offered, dist, max), k, max, dist) == Closest(offered + {k}, dist, max)
  {
    TakeIsClosest(offered, dist, max);
    AfterIsClosest(Closest(offered, dist, max), k, max, dist);
    ClosestInsert(offered, k, dist, max);
  }

  lemma ElementsOfLast(keys: seq<Key>)
    requires keys != []
    ensures Elements(keys) == Elements(keys[..|keys| - 1]) + {keys[|keys| - 1]}
    ensures NoRepeats(keys) ==> NoRepeats(keys[..|keys| - 1]) && keys[|keys| - 1] !in Elements(keys[..|keys| - 1])
  {
  }

  /** The records after offering the keys of a list, one after the other. */
  function PutAll(records: set<Key>, keys: seq<Key>, max: nat, dist: Key -> int): set<Key>
    requires Injective(dist)
  {
    if keys == [] then records
    else After(PutAll(records, keys[..|keys| - 1], max, dist), keys[|keys| - 1], max, dist)
  }

  /** Over every run of puts of distinct keys the store holds exactly the max nearest of all the
      keys ever offered. */
  lemma {:induction false} StoreKeepsNearest(keys: seq<Key>, max: nat, dist: Key -> int)
    requires Injective(dist) && max >= 1 && NoRepeats(keys)
    ensures PutAll({}, keys, max, dist) == Closest(Elements(keys), dist, max)
  {
    if keys != [] {
      var init, last := keys[..|keys| - 1], keys[|keys| - 1];
      ElementsOfLast(keys);
      StoreKeepsNearest(init, max, dist);
      OfferOne(Elements(init), last, max, dist);
    }
  }

  // ---------- The bound ----------

  datatype Op = PutOp(key: Key) | RemoveOp(key: Key)

  /** The records after any mix of puts (of any keys, repeated or not) and removals. */
  function Run(ops: seq<Op>, max: nat, dist: Key -> int): set<Key>
    requires Injective(dist)
  {
    if ops == [] then {}
    else
      var before := Run(ops[..|ops| - 1], max, dist);
      match ops[|ops| - 1]
      case PutOp(k) => After(before, k, max, dist)
      case RemoveOp(k) => before - {k}
  }

  lemma AfterWithinBound(records: set<Key>, k: Key, max: nat, dist: Key -> int)
    requires Injective(dist) && max >= 1 && |records| <= max
    ensures |After(records, k, max, dist)| <= max
  {
    if |records| == max {
      FurthestIsLast(records, dist);
    }
  }

  /** The store never exceeds its limit, however puts, re-puts and removals are mixed. */
  lemma {:induction false} RunWithinBound(ops: seq<Op>, max: nat, dist: Key -> int)
    requires Injective(dist) && max >= 1
    ensures |Run(ops, max, dist)| <= max
  {
    if ops != [] {
      RunWithinBound(ops[..|ops| - 1], max, dist);
      var before := Run(ops[..|ops| - 1], max, dist);
      match ops[|ops| - 1]
      case PutOp(k) => AfterWithinBound(before, k, max, dist);
      case RemoveOp(k) => SubsetSize(before - {k}, before);
    }
  }

  /** Putting a key that is already held is no update in place: it leaves the records alone if and
      only if there is room or the key is the furthest one (and is then refused); any other key
      of a full store drives out the furthest record. */
  lemma RePut(records: set<Key>, k: Key, max: nat, dist: Key -> int)
    requires Injective(dist) && k in records
    ensures After(records, k, max, dist) == records <==>
      |records| < max || forall x :: x in records ==> dist(x) <= dist(k)
    ensures |records| >= max ==> (Put(records, k, max, dist).None? <==> forall x :: x in records ==> dist(x) <= dist(k))
  {
    FurthestIsLast(records, dist);
    var sorted := Sort(records, dist);
    var furthest := sorted[|sorted| - 1];
    if k != furthest {
      assert dist(k) < dist(furthest);
      assert furthest !in records - {furthest} + {k};
    }
    assert |records| < max ==> records + {k} == records;
  }

  /** The limit must be positive: a store for no records still takes in the first key. */
  lemma BoundNeedsRoom(k: Key, max: nat, dist: Key -> int)
    requires Injective(dist)
    ensures |Run([PutOp(k)], max, dist)| <= max <==> max >= 1
  {
  }
}
