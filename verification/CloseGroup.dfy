/** Close groups: the peers nearest to an address, who is told about a record, and who accepts it.

    A view is the set of peers a node knows.  For a fixed target the XOR distance is injective; a
    metric gives, for each target, the distances of all peers to it. */
module CloseGroup {
  import opened Common
  import opened Nearest
  import RecordStore

  const K_VALUE: nat := 20

  type Peer = nat
  type Address = nat
  type Metric = Address -> Peer -> int

  datatype Error = NotEnoughPeers(found: nat)

  ghost predicate IsMetric(dist: Metric) {
    forall a :: Injective(dist(a))
  }

  /** The nearest peers in order, unless there are too few for a close group. */
  function SortPeersByKey(peers: set<Peer>, key: Peer -> int, expected: nat): Result<seq<Peer>, Error>
    requires Injective(key)
  {
    var r := Take(peers, key, expected);
    if CLOSE_GROUP_SIZE > |r| then Err(NotEnoughPeers(|r|)) else Ok(r)
  }

  ghost function GroupOf(peers: set<Peer>, key: Peer -> int): set<Peer> {
    Closest(peers, key, CLOSE_GROUP_SIZE)
  }

  /** Sorting fails exactly when fewer peers than a close group are known; otherwise it lists the nearest
      ones in order. */
  lemma SortedPeers(peers: set<Peer>, key: Peer -> int, expected: nat)
    requires Injective(key) && CLOSE_GROUP_SIZE <= expected
    ensures |peers| < CLOSE_GROUP_SIZE ==> SortPeersByKey(peers, key, expected) == Err(NotEnoughPeers(|peers|))
    ensures |peers| >= CLOSE_GROUP_SIZE ==> SortPeersByKey(peers, key, expected) == Ok(Take(peers, key, expected))
    ensures Ascending(Take(peers, key, expected), key)
    ensures forall p :: p in Take(peers, key, expected) <==> p in Closest(peers, key, expected)
  {
    TakeIsClosest(peers, key, expected);
    forall p ensures p in Take(peers, key, expected) <==> p in Closest(peers, key, expected) {
      assert p in Elements(Take(peers, key, expected)) <==> p in Closest(peers, key, expected);
    }
  }

  // ---------- Ranks ----------

  /** A peer that is nearer has strictly fewer peers before it. */
  lemma NearerHasLowerRank(s: set<Peer>, key: Peer -> int, a: Peer, b: Peer)
    requires a in s && key(a) < key(b)
    ensures |Closer(s, key, a)| < |Closer(s, key, b)|
  {
    SubsetSize(Closer(s, key, a) + {a}, Closer(s, key, b));
  }

  lemma LowerRankIsNearer(s: set<Peer>, key: Peer -> int, a: Peer, b: Peer)
    requires Injective(key) && a in s && b in s
    ensures |Closer(s, key, a)| < |Closer(s, key, b)| <==> key(a) < key(b)
    ensures |Closer(s, key, a)| == |Closer(s, key, b)| <==> a == b
  {
    if a != b {
      DistinctKeys(key, a, b);
      if key(a) < key(b) { NearerHasLowerRank(s, key, a, b); } else { NearerHasLowerRank(s, key, b, a); }
    }
  }

  /** One more peer raises the rank of exactly the peers behind it. */
  lemma RankWith(s: set<Peer>, key: Peer -> int, x: Peer, q: Peer)
    requires x !in s
    ensures |Closer(s + {x}, key, q)| == |Closer(s, key, q)| + if key(x) < key(q) then 1 else 0
  {
    if key(x) < key(q) {
      assert Closer(s + {x}, key, q) == Closer(s, key, q) + {x};
    } else {
      assert Closer(s + {x}, key, q) == Closer(s, key, q);
    }
  }

  // ---------- Accepting keys ----------

  /** Whether a node accepts a key for replication: its view is small, or it is among the nearest
      ten it knows of (a margin of two for a view that lags). */
  predicate IsInCloseRange(me: Peer, key: Peer -> int, view: set<Peer>)
    requires Injective(key)
  {
    if |view| <= CLOSE_GROUP_SIZE + 2 then true
    else match SortPeersByKey(view, key, CLOSE_GROUP_SIZE + 2)
      case Ok(group) => me in group
      case Err(_) => true
  }

  lemma CloseRangeByRank(me: Peer, key: Peer -> int, view: set<Peer>)
    requires Injective(key) && me in view
    ensures IsInCloseRange(me, key, view) <==>
      |view| <= CLOSE_GROUP_SIZE + 2 || |Closer(view, key, me)| < CLOSE_GROUP_SIZE + 2
  {
    if |view| > CLOSE_GROUP_SIZE + 2 {
      SortedPeers(view, key, CLOSE_GROUP_SIZE + 2);
    }
  }

  /** Sender and receiver agree up to the margin: when the sender counts x among the close group of
      a record, and x knows at most two nearer peers that the sender does not, x accepts it. */
  lemma ReceiverAccepts(sender: set<Peer>, receiver: set<Peer>, x: Peer, key: Peer -> int)
    requires Injective(key) && x in GroupOf(sender, key) && x in receiver
    requires |Closer(receiver, key, x) - sender| <= 2
    ensures IsInCloseRange(x, key, receiver)
  {
    var nearer := Closer(receiver, key, x);
    SubsetSize(nearer * sender, Closer(sender, key, x));
    assert nearer == nearer * sender + (nearer - sender);
    CloseRangeByRank(x, key, receiver);
  }

  // ---------- Telling others ----------

  /** Whom to tell about a record when x joined or left, if anyone. */
  function ReplicationTarget(view: set<Peer>, key: Peer -> int, x: Peer, isRemoval: bool): Option<Peer>
    requires Injective(key)
  {
    var peers := if isRemoval then view + {x} else view;
    match SortPeersByKey(peers, key, CLOSE_GROUP_SIZE + 1)
    case Err(_) => None
    case Ok(sorted) =>
      var last := sorted[|sorted| - 1];
      if x !in sorted || last == x then None
      else if isRemoval then Some(last)
      else Some(x)
  }

  /** The last of the nearest nine is the one with exactly eight before it. */
  lemma NinthPeer(peers: set<Peer>, key: Peer -> int)
    requires Injective(key) && |peers| > CLOSE_GROUP_SIZE
    ensures var sorted := Take(peers, key, CLOSE_GROUP_SIZE + 1);
      |sorted| == CLOSE_GROUP_SIZE + 1 && sorted[CLOSE_GROUP_SIZE] in peers
      && |Closer(peers, key, sorted[CLOSE_GROUP_SIZE])| == CLOSE_GROUP_SIZE
  {
    RankOfPosition(peers, key, CLOSE_GROUP_SIZE);
    SortMembers(peers, key);
  }

  /** A peer other than the ninth is among the nearest nine exactly when it is in the close group. */
  lemma InNineNotLast(peers: set<Peer>, key: Peer -> int, x: Peer)
    requires Injective(key) && |peers| > CLOSE_GROUP_SIZE && x in peers
    ensures var sorted := Take(peers, key, CLOSE_GROUP_SIZE + 1);
      |sorted| == CLOSE_GROUP_SIZE + 1 &&
      (x in sorted && x != sorted[CLOSE_GROUP_SIZE] <==> x in GroupOf(peers, key))
  {
    NinthPeer(peers, key);
    SortedPeers(peers, key, CLOSE_GROUP_SIZE + 1);
    LowerRankIsNearer(peers, key, x, Take(peers, key, CLOSE_GROUP_SIZE + 1)[CLOSE_GROUP_SIZE]);
  }

  /** On the arrival of x exactly the records with x in their close group go to x. */
  lemma ArrivalTarget(view: set<Peer>, key: Peer -> int, x: Peer)
    requires Injective(key) && |view| >= K_VALUE && x in view
    ensures ReplicationTarget(view, key, x, false) == if x in GroupOf(view, key) then Some(x) else None
  {
    InNineNotLast(view, key, x);
  }

  /** A peer that was outside the close group leaves it unchanged by departing. */
  lemma OutsiderDeparts(view: set<Peer>, key: Peer -> int, x: Peer)
    requires Injective(key) && x !in view && x !in GroupOf(view + {x}, key)
    ensures GroupOf(view, key) == GroupOf(view + {x}, key)
  {
    var peers := view + {x};
    forall q | q in view ensures q in GroupOf(view, key) <==> q in GroupOf(peers, key) {
      RankWith(view, key, x, q);
      LowerRankIsNearer(peers, key, x, q);
    }
  }

  /** When a member departs, exactly the ninth peer takes its place. */
  lemma MemberDeparts(view: set<Peer>, key: Peer -> int, x: Peer, ninth: Peer)
    requires Injective(key) && x !in view && x in GroupOf(view + {x}, key)
    requires ninth in view + {x} && |Closer(view + {x}, key, ninth)| == CLOSE_GROUP_SIZE
    ensures GroupOf(view, key) == GroupOf(view + {x}, key) - {x} + {ninth}
    ensures ninth !in GroupOf(view + {x}, key)
  {
    var peers := view + {x};
    forall q | q in view ensures q in GroupOf(view, key) <==> q in GroupOf(peers, key) || q == ninth {
      RankWith(view, key, x, q);
      LowerRankIsNearer(peers, key, x, q);
      LowerRankIsNearer(peers, key, q, ninth);
    }
  }

  /** On the departure of x a record is forwarded exactly when its close group changes, to the one
      peer that is in the new group and was not in the old one. */
  lemma DepartureTarget(view: set<Peer>, key: Peer -> int, x: Peer)
    requires Injective(key) && |view| >= K_VALUE && x !in view
    ensures var before, after := GroupOf(view + {x}, key), GroupOf(view, key);
      match ReplicationTarget(view, key, x, true)
      case None => after == before
      case Some(p) => after != before && after - before == {p}
  {
    var peers := view + {x};
    InNineNotLast(peers, key, x);
    NinthPeer(peers, key);
    if x in GroupOf(peers, key) {
      MemberDeparts(view, key, x, Take(peers, key, CLOSE_GROUP_SIZE + 1)[CLOSE_GROUP_SIZE]);
    } else {
      OutsiderDeparts(view, key, x);
    }
  }

  // ---------- The cached close group ----------

  class Driver {
    const me: Peer
    const key: Peer -> int
    const store: RecordStore.DiskBackedRecordStore
    var closeGroup: seq<Peer>

    /** The cache is empty, or an ascending list of a whole close group with this node first, and
        the range of the record store is the distance to its last member. */
    ghost predicate Valid()
      reads this, store
    {
      && Injective(key) && (forall p :: key(me) <= key(p))
      && (closeGroup == [] ==> store.distanceRange == None)
      && (closeGroup != [] ==>
            && |closeGroup| == CLOSE_GROUP_SIZE && closeGroup[0] == me && Ascending(closeGroup, key)
            && store.distanceRange == Some(key(closeGroup[CLOSE_GROUP_SIZE - 1])))
    }

    constructor (me: Peer, key: Peer -> int, store: RecordStore.DiskBackedRecordStore)
      requires Injective(key) && (forall p :: key(me) <= key(p)) && store.distanceRange == None
      ensures Valid() && this.me == me && this.key == key && this.store == store && closeGroup == []
    {
      this.me, this.key, this.store, closeGroup := me, key, store, [];
    }

    /** Recomputes the close group, but rewrites the cache only when it has a new member.  The cache
        agrees with the recomputation all the same, whenever enough peers are known. */
    method CheckForChange(routingTable: set<Peer>) returns (newMembers: Option<seq<Peer>>)
      requires Valid()
      modifies this, store`distanceRange
      ensures Valid()
      ensures |routingTable + {me}| >= CLOSE_GROUP_SIZE ==>
        closeGroup == Take(routingTable + {me}, key, CLOSE_GROUP_SIZE)
      ensures |routingTable + {me}| < CLOSE_GROUP_SIZE ==> unchanged(this) && unchanged(store)
      ensures newMembers.None? <==> closeGroup == old(closeGroup)
      ensures newMembers.Some? ==> forall p :: p in newMembers.value <==> p in closeGroup && p !in old(closeGroup)
    {
      var peers := routingTable + {me};
      var sorted := SortPeersByKey(peers, key, CLOSE_GROUP_SIZE);
      if sorted.Err? {
        return None;
      }
      var group := sorted.value;
      FreshGroup(peers, key, me);
      var news: seq<Peer> := [];
      for i := 0 to |group|
        invariant forall p :: p in news <==> p in group[..i] && p !in closeGroup
      {
        if group[i] !in closeGroup {
          news := news + [group[i]];
        }
      }
      assert group[..|group|] == group;
      if news == [] {
        assert forall p :: p in group ==> p in closeGroup by {
          assert forall p :: p in group && p !in closeGroup ==> p in news;
        }
        SameGroup(group, closeGroup, key);
        return None;
      }
      closeGroup := group;
      store.SetDistanceRange(key(closeGroup[|closeGroup| - 1]));
      assert news[0] in group && news[0] !in old(closeGroup);
      newMembers := Some(news);
    }
  }

  lemma FreshGroup(peers: set<Peer>, key: Peer -> int, me: Peer)
    requires Injective(key) && me in peers && |peers| >= CLOSE_GROUP_SIZE && forall p :: key(me) <= key(p)
    ensures var group := Take(peers, key, CLOSE_GROUP_SIZE);
      |group| == CLOSE_GROUP_SIZE && Ascending(group, key) && group[0] == me
  {
    var group := Take(peers, key, CLOSE_GROUP_SIZE);
    TakeIsClosest(peers, key, CLOSE_GROUP_SIZE);
    assert Closer(peers, key, me) == {};
    RankOfPosition(peers, key, 0);
    SortMembers(peers, key);
    assert group[0] == Sort(peers, key)[0];
    LowerRankIsNearer(peers, key, me, group[0]);
  }

  /** An ascending list contained in an ascending list of the same length is that list. */
  lemma SameGroup(a: seq<Peer>, b: seq<Peer>, key: Peer -> int)
    requires Ascending(a, key) && Ascending(b, key) && |a| >= |b|
    requires forall p :: p in a ==> p in b
    ensures a == b
  {
    var s, t := Elements(a), Elements(b);
    AscendingCount(a, key);
    AscendingCount(b, key);
    assert t == s + (t - s);
    forall p ensures p in a <==> p in b {
      assert p in s <==> p in t;
    }
    AscendingUnique(a, b, key);
  }
}
