/** The replication fetcher: which peer to ask next for which key, and when to fall back to the
    network.

    The program iterates over hash maps in arbitrary (even shuffled) order and reads the clock
    many times in one call.  Here every iteration picks any remaining element, and the clock is a
    function from the number of the reading to the time, required only to be monotone; so the
    results hold for every order and every timing. */
module ReplicationFetcher {
  import opened Common
  import opened Nearest

  const MAX_PARALLEL_FETCH: nat := 8
  const FETCH_TIMEOUT: nat := 15
  const MAX_RETRIES_PER_PEER: nat := 1
  const PEERS_TRIED_BEFORE_NETWORK_FETCH: nat := 3

  type Key = nat
  type Peer = nat
  type Clock = nat -> int

  datatype Status = Pending | OnGoing

  datatype Holder = Holder(sentAt: int, status: Status, failed: nat)

  type Holders = map<Peer, Holder>
  type Queue = map<Key, Holders>

  /** The peers returned for each queued key since it was queued. */
  type History = map<Key, seq<Peer>>

  /** What a call returns: for each key the peer to fetch it from, or None for the network. */
  type Dispatch = map<Key, Option<Peer>>

  ghost predicate Monotone(clock: Clock) {
    forall i, j :: i <= j ==> clock(i) <= clock(j)
  }

  predicate Expired(now: int, h: Holder) {
    now > h.sentAt + FETCH_TIMEOUT
  }

  function Bit(b: bool): nat {
    if b then 1 else 0
  }

  /** One less, but never below zero. */
  function Less(n: nat): nat {
    if n > 0 then n - 1 else 0
  }

  function Active(hs: Holders): set<Peer> {
    set p | p in hs && hs[p].status == OnGoing
  }

  function Failed(hs: Holders): set<Peer> {
    set p | p in hs && hs[p].failed >= MAX_RETRIES_PER_PEER
  }

  /** No fetch of the key is worth waiting for: all holders failed, or enough of them did. */
  predicate GiveUp(hs: Holders) {
    |Failed(hs)| == |hs| || |Failed(hs)| >= PEERS_TRIED_BEFORE_NETWORK_FETCH
  }

  /** The state of one key against its history: `asked` lists the peers returned for the key since
      it was queued.  At most one holder is being asked; a holder has been asked exactly when it is
      being asked or has failed; and no holder was ever asked twice. */
  ghost predicate Tracked(hs: Holders, asked: seq<Peer>) {
    && (forall p, q :: p in Active(hs) && q in Active(hs) ==> p == q)
    && Active(hs) !! Failed(hs)
    && NoRepeats(asked)
    && (forall p :: p in asked <==> p in Active(hs) || p in Failed(hs))
  }

  ghost function TrackedKeys(queue: Queue, asked: History): set<Key> {
    set k | k in queue && k in asked && Tracked(queue[k], asked[k])
  }

  ghost function GivenUp(queue: Queue): set<Key> {
    set k | k in queue && GiveUp(queue[k])
  }

  /** Every queued key fits its history, and none is to be given up. */
  ghost predicate Consistent(queue: Queue, asked: History) {
    asked.Keys == queue.Keys == TrackedKeys(queue, asked) && GivenUp(queue) == {}
  }

  // ---------- One pass over the holders of a key ----------

  /** A pass may start asking one pending, unfailed holder, and may turn a holder that was being
      asked into a failed one; it changes nothing else. */
  ghost predicate PassResult(before: Holders, after: Holders, chosen: Option<Peer>) {
    && after.Keys == before.Keys
    && (chosen.Some? ==> chosen.value in Askable(before))
    && (forall p :: p in Active(after) <==> chosen == Some(p) || (p in Active(before) && p !in Failed(after)))
    && (forall p :: p in Failed(after) ==> p in Failed(before) || p in Active(before))
    && Failed(before) <= Failed(after)
    && (chosen.Some? ==> Active(before) <= Failed(after))
  }

  ghost function Extended(asked: seq<Peer>, chosen: Option<Peer>): seq<Peer> {
    if chosen.Some? then asked + [chosen.value] else asked
  }

  /** What a pass that reads the clock between t0 and t1 does to one holder. */
  ghost predicate HolderStep(before: Holder, after: Holder, isChosen: bool, t0: int, t1: int) {
    if isChosen then
      && before.status == Pending && before.failed < MAX_RETRIES_PER_PEER
      && after.status == OnGoing && after.failed == before.failed && t0 <= after.sentAt <= t1
    else if before.status == Pending then after == before
    else
      || (after == before && !Expired(t0, before))
      || (after == Holder(before.sentAt, Pending, before.failed + 1) && Expired(t1, before))
  }

  ghost function SteppedKeys(before: Holders, after: Holders, chosen: Option<Peer>, t0: int, t1: int): set<Peer> {
    set p | p in before && p in after && HolderStep(before[p], after[p], chosen == Some(p), t0, t1)
  }

  /** A holder being asked fails if its time is over when the pass begins, and only if it is over by
      the time the pass ends; one still being asked is unchanged, and one newly asked is stamped with
      the time of the pass. */
  ghost predicate Timely(before: Holders, after: Holders, t0: int, t1: int) {
    && (forall p :: p in Active(before) ==>
          (Expired(t0, before[p]) ==> p in Failed(after)) && (p in Failed(after) ==> Expired(t1, before[p])))
    && (forall p :: p in Active(after) ==>
          if p in Active(before) then after[p] == before[p] else t0 <= after[p].sentAt <= t1)
  }

  lemma IdlePass(before: Holders, after: Holders, t0: int, t1: int)
    requires after.Keys == before.Keys <= SteppedKeys(before, after, None, t0, t1) && Active(before) == {}
    ensures after == before
  {
    forall p | p in before ensures after[p] == before[p] {
      assert p in SteppedKeys(before, after, None, t0, t1) && p !in Active(before);
    }
  }

  lemma StepsMakePass(before: Holders, after: Holders, chosen: Option<Peer>, t0: int, t1: int)
    requires after.Keys == before.Keys && Active(before) !! Failed(before)
    requires chosen.Some? ==> chosen.value in before && forall p :: p in Active(before) ==> Expired(t0, before[p])
    requires before.Keys <= SteppedKeys(before, after, chosen, t0, t1)
    ensures PassResult(before, after, chosen) && Timely(before, after, t0, t1)
    ensures Active(before) == {} && chosen.None? ==> after == before
  {
    assert Active(before) == {} && chosen.None? ==> after == before by {
      if Active(before) == {} && chosen.None? { IdlePass(before, after, t0, t1); }
    }
    forall p | p in before
      ensures p in Active(after) <==> chosen == Some(p) || (p in Active(before) && p !in Failed(after))
      ensures p in Failed(after) ==> p in Failed(before) || p in Active(before)
      ensures p in Failed(before) ==> p in Failed(after)
      ensures p in Active(before) ==>
        (Expired(t0, before[p]) ==> p in Failed(after)) && (p in Failed(after) ==> Expired(t1, before[p]))
      ensures p in Active(after) ==>
        if p in Active(before) then after[p] == before[p] else t0 <= after[p].sentAt <= t1
    {
      assert p in SteppedKeys(before, after, chosen, t0, t1);
      assert HolderStep(before[p], after[p], chosen == Some(p), t0, t1);
      assert p in Active(before) <==> before[p].status == OnGoing;
      assert p in Failed(before) <==> before[p].failed >= MAX_RETRIES_PER_PEER;
    }
  }

  /** The holders that could be asked now. */
  function Askable(hs: Holders): set<Peer> {
    hs.Keys - Active(hs) - Failed(hs)
  }

  /** In the middle of a pass: the holders of `rest` are untouched, the others have had their visit,
      and nobody who may be asked has been passed over. */
  ghost predicate Passing(before: Holders, hs: Holders, rest: set<Peer>, chosen: Option<Peer>, mayAsk: bool,
                          t0: int, t1: int)
  {
    && rest <= before.Keys == hs.Keys && (forall p :: p in rest ==> hs[p] == before[p])
    && (chosen.Some? ==> chosen.value in before.Keys - rest && mayAsk)
    && (mayAsk && chosen.None? ==> Askable(before) <= rest)
    && before.Keys - rest <= SteppedKeys(before, hs, chosen, t0, t1)
  }

  lemma PassingStep(before: Holders, hs: Holders, rest: set<Peer>, chosen: Option<Peer>, mayAsk: bool, t0: int, t1: int,
                    p: Peer, h: Holder, started: bool, now: int)
    requires Passing(before, hs, rest, chosen, mayAsk, t0, t1) && p in rest && t0 <= now <= t1
    requires started <==>
      mayAsk && chosen.None? && before[p].status == Pending && before[p].failed < MAX_RETRIES_PER_PEER
    requires HolderStep(before[p], h, started, now, now)
    ensures Passing(before, hs[p := h], rest - {p}, if started then Some(p) else chosen, mayAsk, t0, t1)
  {
    var hs', chosen' := hs[p := h], if started then Some(p) else chosen;
    forall q | q in before.Keys - (rest - {p}) ensures q in SteppedKeys(before, hs', chosen', t0, t1) {
      if q != p {
        assert q in SteppedKeys(before, hs, chosen, t0, t1);
        assert (chosen' == Some(q)) == (chosen == Some(q));
      }
    }
    assert p in Askable(before) <==> before[p].status == Pending && before[p].failed < MAX_RETRIES_PER_PEER;
  }

  lemma PassingWider(before: Holders, hs: Holders, chosen: Option<Peer>, mayAsk: bool, t0: int, t1: int, t0': int)
    requires Passing(before, hs, {}, chosen, mayAsk, t0, t1) && t0' <= t0
    ensures Passing(before, hs, {}, chosen, mayAsk, t0', t1)
  {
    forall p | p in before ensures p in SteppedKeys(before, hs, chosen, t0', t1) {
      assert p in SteppedKeys(before, hs, chosen, t0, t1);
    }
  }

  lemma PassKeepsTracked(before: Holders, after: Holders, chosen: Option<Peer>, asked: seq<Peer>)
    requires Tracked(before, asked) && PassResult(before, after, chosen)
    ensures Tracked(after, Extended(asked, chosen))
  {
  }

  lemma {:induction false} DistinctSize(s: seq<Peer>)
    requires NoRepeats(s)
    ensures |Elements(s)| == |s|
  {
    if s != [] {
      var init, last := s[..|s| - 1], s[|s| - 1];
      DistinctSize(init);
      assert Elements(s) == Elements(init) + {last};
    }
  }

  /** A key that is still queued has been asked of at most three peers. */
  lemma AskedBound(hs: Holders, asked: seq<Peer>)
    requires Tracked(hs, asked) && !GiveUp(hs)
    ensures |asked| <= PEERS_TRIED_BEFORE_NETWORK_FETCH
  {
    DistinctSize(asked);
    assert Elements(asked) == Active(hs) + Failed(hs);
    if Active(hs) != {} {
      var p :| p in Active(hs);
      assert Active(hs) == {p};
    }
  }

  /** A queued key always has a holder that has not failed. */
  lemma UnfailedHolderExists(hs: Holders)
    requires !GiveUp(hs)
    ensures exists p :: p in hs && hs[p].failed < MAX_RETRIES_PER_PEER
  {
    assert Failed(hs) != hs.Keys;
    var p :| p in hs.Keys && p !in Failed(hs);
  }

  /** What a pass does to the count of fetches: one more for a fetch started, one less for a holder
      that has failed. */
  ghost predicate Tallied(before: Holders, hs: Holders, rest: set<Peer>, n0: nat, n: nat, started: bool) {
    if Active(before) !! Failed(hs) then n == n0 + Bit(started)
    else Active(before) !! rest && n0 + Bit(started) <= n + 1 && n <= Less(n0) + Bit(started)
  }

  lemma TalliedStep(before: Holders, hs: Holders, rest: set<Peer>, n0: nat, n: nat, n': nat, started: bool,
                    p: Peer, h: Holder, starts: bool)
    requires Tallied(before, hs, rest, n0, n, started) && Passable(before)
    requires p in rest && p in before && p in hs && hs[p] == before[p] && !(started && starts)
    requires before[p].status == Pending ==> h.failed == before[p].failed && n' == n + Bit(starts)
    requires before[p].status == OnGoing ==> !starts && n' == if h == before[p] then n else Less(n)
    requires before[p].status == OnGoing && h != before[p] ==> h.failed > before[p].failed
    ensures Tallied(before, hs[p := h], rest - {p}, n0, n', started || starts)
  {
    var hs' := hs[p := h];
    if p in Active(before) {
      assert Active(before) == {p};
      assert Active(before) !! rest - {p};
    } else {
      assert Failed(hs') * Active(before) == Failed(hs) * Active(before);
    }
  }

  // ---------- The fetcher ----------

  class Fetcher {
    var queue: Queue
    var onGoing: nat
    /** History: the peers returned for each queued key since it was queued. */
    ghost var asked: History

    ghost predicate Valid()
      reads this
    {
      onGoing <= MAX_PARALLEL_FETCH && Consistent(queue, asked)
    }

    ghost predicate Stalled()
      reads this
    {
      StalledAt(queue, onGoing)
    }

    constructor ()
      ensures Valid() && queue == map[] && onGoing == 0
    {
      queue, onGoing, asked := map[], 0, map[];
    }

    /** One holder: a pending one may be asked now, one being asked may have run out of time. */
    method VisitHolder(before: Holder, mayStart: bool, now: int) returns (h: Holder, started: bool)
      modifies this`onGoing
      ensures started <==> mayStart && before.status == Pending && before.failed < MAX_RETRIES_PER_PEER
      ensures HolderStep(before, h, started, now, now)
      ensures onGoing <= old(onGoing) + if started then 1 else 0
      ensures before.status == Pending ==> onGoing == old(onGoing) + if started then 1 else 0
      ensures before.status == OnGoing ==> onGoing == if h == before then old(onGoing) else Less(old(onGoing))
    {
      h, started := before, false;
      if before.status == Pending {
        if mayStart && before.failed < MAX_RETRIES_PER_PEER {
          h, started := Holder(now, OnGoing, before.failed), true;
          onGoing := onGoing + 1;
        }
      } else if Expired(now, before) {
        h := Holder(before.sentAt, Pending, before.failed + 1);
        onGoing := Less(onGoing);
      }
    }

    /** The loop over the holders of one key, with one clock reading before it and one per holder.
        `allowed` says whether a fetch may be started; then one is started exactly when somebody can
        be asked and nobody is still being waited for. */
    method VisitHolders(before: Holders, allowed: bool, clock: Clock, tick: nat)
      returns (hs: Holders, chosen: Option<Peer>, tick': nat)
      requires Monotone(clock) && Passable(before)
      modifies this`onGoing
      ensures tick' == tick + |before| + 1
      ensures PassResult(before, hs, chosen) && Timely(before, hs, clock(tick), clock(tick'))
      ensures chosen.Some? <==>
        allowed && Askable(before) != {} && forall p :: p in Active(before) ==> Expired(clock(tick), before[p])
      ensures Active(before) == {} && chosen.None? ==> hs == before
      ensures Tallied(before, hs, {}, old(onGoing), onGoing, chosen.Some?)
    {
      var ready := true;
      if Active(before) != {} {
        var p :| p in Active(before);
        ready := Expired(clock(tick), before[p]);
      }
      assert ready <==> forall p :: p in Active(before) ==> Expired(clock(tick), before[p]);
      hs, chosen := AskHolders(before, allowed && ready, clock, tick + 1);
      tick' := tick + |before| + 1;
      PassingWider(before, hs, chosen, allowed && ready, clock(tick + 1), clock(tick'), clock(tick));
      StepsMakePass(before, hs, chosen, clock(tick), clock(tick'));
      assert chosen.Some? ==> chosen.value in Askable(before);
    }

    method AskHolders(before: Holders, mayAsk: bool, clock: Clock, tick: nat)
      returns (hs: Holders, chosen: Option<Peer>)
      requires Monotone(clock) && Passable(before)
      modifies this`onGoing
      ensures Passing(before, hs, {}, chosen, mayAsk, clock(tick), clock(tick + |before|))
      ensures Tallied(before, hs, {}, old(onGoing), onGoing, chosen.Some?)
    {
      var reading := tick;
      hs, chosen := before, None;
      var rest := before.Keys;
      ghost var t0, t1 := clock(tick), clock(tick + |before|);
      while rest != {}
        invariant Passing(before, hs, rest, chosen, mayAsk, t0, t1) && reading == tick + |before| - |rest|
        invariant Tallied(before, hs, rest, old(onGoing), onGoing, chosen.Some?)
        decreases |rest|
      {
        var p :| p in rest;
        var now := clock(reading);
        ghost var count := onGoing;
        var h, started := VisitHolder(hs[p], mayAsk && chosen.None?, now);
        PassingStep(before, hs, rest, chosen, mayAsk, t0, t1, p, h, started, now);
        TalliedStep(before, hs, rest, old(onGoing), count, onGoing, chosen.Some?, p, h, started);
        hs, chosen, rest := hs[p := h], if started then Some(p) else chosen, rest - {p};
        reading := reading + 1;
      }
    }

    /** Visits one key: a pass over its holders, then the decision whether to give the key up. */
    method VisitKey(k: Key, allowed: bool, clock: Clock, tick: nat)
      returns (entry: Option<Option<Peer>>, tick': nat)
      requires Monotone(clock) && k in queue && Passable(queue[k])
      modifies this`queue, this`onGoing
      ensures k in queue && queue == old(queue)[k := queue[k]] && tick' >= tick
      ensures KeyVisit(old(queue)[k], queue[k], old(onGoing), onGoing, allowed, entry, clock(tick), clock(tick'))
    {
      var hs, chosen;
      hs, chosen, tick' := VisitHolders(queue[k], allowed, clock, tick);
      VisitEnds(queue[k], hs, chosen, old(onGoing), onGoing, allowed, clock(tick), clock(tick'));
      queue := queue[k := hs];
      entry := if chosen.Some? then Some(chosen) else None;
      if GiveUp(hs) {
        entry := Some(None);
        onGoing := Less(onGoing);
      }
    }

    /** The loop over the keys, in any order. */
    method VisitKeys(clock: Clock) returns (result: Dispatch, readings: nat)
      requires Monotone(clock) && onGoing <= MAX_PARALLEL_FETCH && GivenUp(queue) == {}
      requires forall k :: k in queue ==> Passable(queue[k])
      modifies this`queue, this`onGoing
      ensures Underway(old(queue), old(onGoing), queue, onGoing, {}, result, clock(0), clock(readings))
      ensures onGoing <= MAX_PARALLEL_FETCH
      ensures Rationed(old(queue), result, Allowance(old(onGoing)), clock(0))
    {
      ghost var q0 := queue;
      ghost var order: seq<Key> := [];
      var left := MAX_PARALLEL_FETCH - onGoing;
      var noMore := onGoing >= MAX_PARALLEL_FETCH;
      result, readings := map[], 0;
      var rest := queue.Keys;
      UnderwayStart(queue, onGoing, clock(0));
      while rest != {}
        invariant Looping(q0, old(onGoing), queue, onGoing, rest, order, result, clock(0), clock(readings))
        decreases |rest|
      {
        var k :| k in rest;
        var allowed := !noMore && |result| < left;
        ghost var queue0, count0 := queue, onGoing;
        var entry, next := VisitKey(k, allowed, clock, readings);
        LoopStep(q0, old(onGoing), queue0, count0, rest, order, result, k, queue[k], onGoing, entry,
                 clock(0), clock(readings), clock(next));
        order := order + [k];
        result, readings, rest := WithEntry(result, k, entry), next, rest - {k};
      }
      InOrderDone(q0, order, result, left, clock(0));
    }

    /** Decides what to fetch now: from a peer, or (None) from the network.
        - No peer is returned that was asked before, and exactly the keys handed to the network
          leave the queue; no holder of another key is forgotten.
        - The fetches started fit in what is left of the allowance, and while it is not used up no
          key for which nobody is being asked is left out.
        - A key is handed to the network if, when the call begins, the peer being asked has run out
          of time and was the last one left to try, and only if that is so when the call ends. */
    method NextKeysToFetch(clock: Clock) returns (result: Dispatch, readings: nat)
      requires Valid() && Monotone(clock)
      modifies this
      ensures Valid() && Dispatched(old(asked), asked, result)
      ensures Outcome(old(queue), old(onGoing), queue, onGoing, result)
      ensures Timed(old(queue), old(onGoing), queue, result, clock(0), clock(readings))
    {
      result, readings := VisitAll(clock);
      queue := queue - NetworkKeys(result);
      asked := Histories(asked, result);
    }

    /** Visits the keys of a valid fetcher; the keys to be handed to the network are still queued. */
    method VisitAll(clock: Clock) returns (result: Dispatch, readings: nat)
      requires Valid() && Monotone(clock)
      modifies this`queue, this`onGoing
      ensures onGoing <= MAX_PARALLEL_FETCH
      ensures Consistent(queue - NetworkKeys(result), Histories(asked, result))
      ensures Dispatched(asked, Histories(asked, result), result)
      ensures Outcome(old(queue), old(onGoing), queue - NetworkKeys(result), onGoing, result)
      ensures Timed(old(queue), old(onGoing), queue - NetworkKeys(result), result, clock(0), clock(readings))
    {
      ValidIsPassable();
      ghost var q0 := queue;
      result, readings := VisitKeys(clock);
      PassDone(q0, queue, asked, result, clock(0), clock(readings));
      OutcomeDone(q0, old(onGoing), queue, onGoing, result, clock(0), clock(readings));
    }

    /** Records a holder of a key; a holder already known keeps its state. */
    method AddHolder(k: Key, p: Peer, now: int)
      requires Valid()
      modifies this`queue, this`asked
      ensures Valid() && asked == Requeued(old(asked), {k})
      ensures queue == old(queue)[k := WithHolder(old(queue), k, p, now)]
    {
      HolderRecorded(queue, asked, k, p, now);
      asked := Requeued(asked, {k});
      var hs := if k in queue then queue[k] else map[];
      if p !in hs {
        hs := hs[p := Holder(now, Pending, 0)];
      }
      queue := queue[k := hs];
    }

    /** Records the peer as a holder of every incoming key that is not stored yet. */
    method AddHolders(peer: Peer, incoming: seq<Option<Key>>, stored: set<Key>, now: int)
      requires Valid()
      modifies this`queue, this`asked
      ensures Valid() && asked == Requeued(old(asked), Wanted(incoming, stored))
      ensures queue == WithPeer(old(queue), Wanted(incoming, stored), peer, now)
    {
      ghost var was, q0 := asked, queue;
      ghost var added: set<Key> := {};
      NothingAdded(was, q0, peer, now);
      for i := 0 to |incoming|
        invariant Valid() && added == Wanted(incoming[..i], stored)
        invariant asked == Requeued(was, added) && queue == WithPeer(q0, added, peer, now)
      {
        WantedStep(incoming, stored, i);
        if incoming[i].Some? && incoming[i].value !in stored {
          var k := incoming[i].value;
          RequeuedTwice(was, added, k);
          PeerAddedTwice(q0, added, peer, now, k);
          AddHolder(k, peer, now);
          added := added + {k};
        }
      }
      assert incoming[..|incoming|] == incoming;
    }

    /** Drops the keys that are stored already. */
    method RetainKeys(stored: set<Key>)
      requires Valid()
      modifies this`queue, this`asked
      ensures Valid() && asked == old(asked) - stored && queue == old(queue) - stored
    {
      KeysDropped(queue, asked, stored);
      queue, asked := queue - stored, asked - stored;
    }

    /** Drops the stored keys, adds the peer as a holder of every other incoming key, and returns
        what to fetch now.  The fetcher is stalled afterwards exactly when all fetches were taken and
        every key that was being asked for is among the stored ones.  Relative to the count of fetches
        the number of keys being asked for grows by at most one for each key handed to the network. */
    method AddKeys(peer: Peer, incoming: seq<Option<Key>>, stored: set<Key>, now: int, clock: Clock)
      returns (result: Dispatch, readings: nat)
      requires Valid() && Monotone(clock)
      modifies this
      ensures Valid() && Dispatched(Requeued(old(asked) - stored, Wanted(incoming, stored)), asked, result)
      ensures Outcome(WithPeer(old(queue) - stored, Wanted(incoming, stored), peer, now), old(onGoing),
                      queue, onGoing, result)
      ensures Timed(WithPeer(old(queue) - stored, Wanted(incoming, stored), peer, now), old(onGoing), queue, result,
                    clock(0), clock(readings))
      ensures HolderNames(queue) ==
        Offered(HolderNames(old(queue)) - stored, Wanted(incoming, stored), peer) - NetworkKeys(result)
      ensures old(onGoing) < MAX_PARALLEL_FETCH && !(Wanted(incoming, stored) <= old(queue).Keys) ==> result != map[]
      ensures BusyKeys(old(queue)) <= stored ==>
        onGoing == old(onGoing) + |result| && (onGoing < MAX_PARALLEL_FETCH ==> queue.Keys <= result.Keys)
      ensures Stalled() <==> old(onGoing) == MAX_PARALLEL_FETCH && BusyKeys(old(queue)) <= stored
      ensures Stalled() ==> result == map[]
      ensures |BusyKeys(queue)| + old(onGoing) <= onGoing + |BusyKeys(old(queue))| + |NetworkKeys(result)|
    {
      QueueKeys(peer, incoming, stored, now);
      ghost var q1 := queue;
      result, readings := NextKeysToFetch(clock);
      AfterLearning(old(queue), q1, old(onGoing), queue, onGoing, result, Wanted(incoming, stored), stored);
    }

    /** Drops the stored keys and adds the peer as a holder of the wanted ones. */
    method QueueKeys(peer: Peer, incoming: seq<Option<Key>>, stored: set<Key>, now: int)
      requires Valid()
      modifies this`queue, this`asked
      ensures Valid() && asked == Requeued(old(asked) - stored, Wanted(incoming, stored))
      ensures queue == WithPeer(old(queue) - stored, Wanted(incoming, stored), peer, now)
      ensures HolderNames(queue) == Offered(HolderNames(old(queue)) - stored, Wanted(incoming, stored), peer)
      ensures BusyKeys(queue) == BusyKeys(old(queue)) - stored && Wanted(incoming, stored) <= queue.Keys
    {
      NamesDropped(queue, stored);
      BusyDropped(queue, stored);
      RetainKeys(stored);
      PeerAdded(queue, Wanted(incoming, stored), peer, now);
      AddHolders(peer, incoming, stored, now);
    }

    /** A record was stored: its key leaves the fetcher and gives back its fetch, and what to fetch now
        is returned.  The fetcher is stalled afterwards exactly when it was before, and a stalled one
        returns nothing. */
    method NotifyAboutNewPut(k: Key, clock: Clock) returns (result: Dispatch, readings: nat)
      requires Valid() && Monotone(clock)
      modifies this
      ensures Valid() && Dispatched(old(asked) - {k}, asked, result)
      ensures Outcome(old(queue) - {k}, if k in BusyKeys(old(queue)) then Less(old(onGoing)) else old(onGoing),
                      queue, onGoing, result)
      ensures Timed(old(queue) - {k}, if k in BusyKeys(old(queue)) then Less(old(onGoing)) else old(onGoing),
                    queue, result, clock(0), clock(readings))
      ensures |PeerKeys(result)| <=
        MAX_PARALLEL_FETCH - old(onGoing) + if k in BusyKeys(old(queue)) && old(onGoing) > 0 then 1 else 0
      ensures Stalled() <==> old(Stalled())
      ensures old(Stalled()) ==> result == map[]
      ensures |BusyKeys(queue)| + old(onGoing) <= onGoing + |BusyKeys(old(queue))| + |NetworkKeys(result)|
    {
      DropKey(k);
      ghost var q1, n1 := queue, onGoing;
      result, readings := NextKeysToFetch(clock);
      StallKept(q1, n1, queue, onGoing, result);
      DropPace(old(queue), old(onGoing), k, n1, queue, onGoing, result);
    }

    method DropKey(k: Key)
      requires Valid()
      modifies this
      ensures Valid() && asked == old(asked) - {k} && queue == old(queue) - {k}
      ensures onGoing == if k in BusyKeys(old(queue)) then Less(old(onGoing)) else old(onGoing)
      ensures Stalled() <==> old(Stalled())
    {
      if k in queue && Active(queue[k]) != {} {
        onGoing := Less(onGoing);
      }
      BusyDropped(queue, {k});
      RetainKeys({k});
    }

    /** In every reachable state: at most one holder of a key is being asked, a queued key has a
        holder that has not failed and fewer than three that have, and no more than three different
        peers, none of them twice, have been asked for it. */
    lemma QueuedKey(k: Key)
      requires Valid() && k in queue
      ensures |Active(queue[k])| <= 1
      ensures |Failed(queue[k])| < PEERS_TRIED_BEFORE_NETWORK_FETCH
      ensures exists p :: p in queue[k] && queue[k][p].failed < MAX_RETRIES_PER_PEER
      ensures NoRepeats(asked[k]) && |asked[k]| <= PEERS_TRIED_BEFORE_NETWORK_FETCH
    {
      var hs := queue[k];
      assert k in TrackedKeys(queue, asked) && k !in GivenUp(queue);
      AskedBound(hs, asked[k]);
      UnfailedHolderExists(hs);
      if Active(hs) != {} {
        var p :| p in Active(hs);
        assert Active(hs) == {p};
      }
    }

    lemma ValidIsPassable()
      requires Valid()
      ensures forall k :: k in queue ==> Passable(queue[k])
    {
    }
  }

  // ---------- Stalling ----------

  /** That a wanted key can still come to be asked for is not true of every reachable state: this run
      ends in a stalled one, from which, by the contracts above, no call ever returns anything.  Eight
      keys are being asked for when they all turn up in the store without a notification, as they do
      when a split vote is repaired (sn_networking/src/event.rs:721-727 puts the record into the store
      and does not tell the fetcher); dropping them leaves the count at its limit. */
  method StallFetcher(peer: Peer, keys: seq<Option<Key>>, now: int, clocks: nat -> Clock) returns (f: Fetcher)
    requires (forall i :: Monotone(clocks(i))) && |Wanted(keys, {})| == MAX_PARALLEL_FETCH
    ensures fresh(f) && f.Valid() && f.Stalled()
  {
    f := new Fetcher();
    AskForAll(f, peer, keys, now, clocks(0));
    AskedAreBusy(f.queue, 0, 0);
    var result, readings := f.AddKeys(peer, [], f.queue.Keys, now, clocks(1));
  }

  method AskForAll(f: Fetcher, peer: Peer, keys: seq<Option<Key>>, now: int, clock: Clock)
    requires f.Valid() && f.queue == map[] && f.onGoing == 0
    requires Monotone(clock) && |Wanted(keys, {})| == MAX_PARALLEL_FETCH
    modifies f
    ensures f.Valid() && f.onGoing == MAX_PARALLEL_FETCH
  {
    assert HolderNames(f.queue) - {} == map[] && BusyKeys(f.queue) == {};
    var result, readings := f.AddKeys(peer, keys, {}, now, clock);
    StallCount(f.queue, Wanted(keys, {}), peer, f.onGoing, result);
  }

  lemma StallCount(queue: Queue, wanted: set<Key>, peer: Peer, count: nat, result: Dispatch)
    requires HolderNames(queue) == Offered(map[], wanted, peer) - NetworkKeys(result)
    requires |wanted| == MAX_PARALLEL_FETCH && count == |result| <= MAX_PARALLEL_FETCH
    requires count < MAX_PARALLEL_FETCH ==> queue.Keys <= result.Keys
    ensures count == MAX_PARALLEL_FETCH
  {
    if count < MAX_PARALLEL_FETCH {
      assert wanted <= result.Keys by {
        forall k | k in wanted ensures k in result {
          assert k in Offered(map[], wanted, peer);
          assert k in NetworkKeys(result) || k in HolderNames(queue);
        }
      }
      SubsetSize(wanted, result.Keys);
    }
  }

  /** Whether a queued key can still come to be asked for: for a key for which nobody is being asked,
      storing records of other keys, first all the queued ones and then any other, gets a peer returned
      for it if and only if the fetcher is not stalled.  Every call has a clock of its own. */
  method ServeKey(f: Fetcher, k: Key, other: Key, clocks: nat -> Clock) returns (served: bool)
    requires f.Valid() && k in f.queue && k !in BusyKeys(f.queue) && other != k
    requires forall i :: Monotone(clocks(i))
    modifies f
    ensures f.Valid() && (f.Stalled() <==> old(f.Stalled()))
    ensures served <==> !old(f.Stalled())
  {
    served := false;
    var call := 0;
    while !served && f.queue.Keys != {k}
      invariant f.Valid() && (f.Stalled() <==> old(f.Stalled())) && (served ==> !f.Stalled())
      invariant !served ==> k in f.queue && k !in BusyKeys(f.queue)
      decreases !served, |f.queue.Keys|
    {
      OtherKey(f.queue.Keys, k);
      var j :| j in f.queue.Keys && j != k;
      served := StoreOther(f, k, j, clocks(call));
      call := call + 1;
    }
    if !served {
      OtherKey(f.queue.Keys, k);
      NoneDropped(f.queue, {other});
      served := StoreOther(f, k, other, clocks(call));
    }
  }

  lemma OtherKey(keys: set<Key>, k: Key)
    requires k in keys
    ensures keys != {k} <==> exists j :: j in keys && j != k
  {
  }

  /** Storing another key either gets the key asked for or leaves it idle in a smaller queue; when
      nothing else is queued, it is asked for unless the fetcher is stalled. */
  method StoreOther(f: Fetcher, k: Key, j: Key, clock: Clock) returns (served: bool)
    requires f.Valid() && Monotone(clock) && k in f.queue && k !in BusyKeys(f.queue) && j != k
    modifies f
    ensures f.Valid() && (f.Stalled() <==> old(f.Stalled())) && (served ==> !f.Stalled())
    ensures !served ==> k in f.queue && k !in BusyKeys(f.queue)
    ensures j in old(f.queue) ==> |f.queue.Keys| < |old(f.queue).Keys|
    ensures (old(f.queue) - {j}).Keys == {k} ==> (served <==> !old(f.Stalled()))
  {
    var result, readings := f.NotifyAboutNewPut(j, clock);
    served := k in PeerKeys(result);
    OtherStored(old(f.queue), old(f.onGoing), j, f.queue, f.onGoing, result, k, clock(0), clock(readings));
  }

  lemma OtherStored(q: Queue, n: nat, j: Key, q1: Queue, n1: nat, result: Dispatch, k: Key, t0: int, t1: int)
    requires k in q && k !in BusyKeys(q) && j != k && n <= MAX_PARALLEL_FETCH
    requires Outcome(q - {j}, if j in BusyKeys(q) then Less(n) else n, q1, n1, result)
    requires NetworkExact(q - {j}, result, t0, t1) && result.Keys <= q.Keys - {j}
    ensures k !in PeerKeys(result) ==> k in q1 && k !in BusyKeys(q1)
    ensures j in q ==> |q1.Keys| < |q.Keys|
    ensures (q - {j}).Keys == {k} && !StalledAt(q, n) ==> k in PeerKeys(result)
  {
    var q0, n0 := q - {j}, if j in BusyKeys(q) then Less(n) else n;
    BusyDropped(q, {j});
    NothingLeft(BusyKeys(q), {j});
    IdleKeyAfter(q0, n0, q1, n1, result, k, t0, t1);
    MaybeOneMore(q0.Keys, q.Keys, j);
  }

  /** What a call does to a queued key for which nobody was being asked. */
  lemma IdleKeyAfter(q0: Queue, n0: nat, q1: Queue, n1: nat, result: Dispatch, k: Key, t0: int, t1: int)
    requires Outcome(q0, n0, q1, n1, result) && NetworkExact(q0, result, t0, t1) && result.Keys <= q0.Keys
    requires k in q0 && k !in BusyKeys(q0)
    ensures k !in PeerKeys(result) ==> k in q1 && k !in BusyKeys(q1)
    ensures q0.Keys == {k} && !StalledAt(q0, n0) ==> k in PeerKeys(result)
    ensures |q1.Keys| <= |q0.Keys|
  {
    IdleNotLost(q0, result, k, t0, t1);
    CallKeeps(q0, n0, q1, n1, result);
    SubsetSize(q1.Keys, q0.Keys);
    if q0.Keys == {k} { OnlyKey(q0, n0, q1, n1, result, k); }
  }

  /** Only a key for which somebody is being asked can be handed to the network. */
  lemma IdleNotLost(q0: Queue, result: Dispatch, k: Key, t0: int, t1: int)
    requires NetworkExact(q0, result, t0, t1) && k in q0 && k !in BusyKeys(q0)
    ensures k !in NetworkKeys(result)
  {
  }

  lemma OnlyKey(q0: Queue, n0: nat, q1: Queue, n1: nat, result: Dispatch, k: Key)
    requires Outcome(q0, n0, q1, n1, result) && result.Keys <= q0.Keys == {k} && k !in BusyKeys(q0)
    ensures !StalledAt(q0, n0) ==> k in result
  {
    assert BusyKeys(q0) == {};
    if k !in result {
      assert result.Keys == {};
    }
  }

  /** Whether the fetcher can still return anything: storing a key that is being asked for and learning
      of a new one gets something returned if and only if the fetcher is not stalled. */
  method Revive(f: Fetcher, peer: Peer, k: Key, now: int, clocks: nat -> Clock)
    returns (first: Dispatch, second: Dispatch)
    requires f.Valid() && k !in f.queue && forall i :: Monotone(clocks(i))
    modifies f
    ensures first == map[] && second == map[] <==> old(f.Stalled())
    ensures old(f.Stalled()) ==> f.Stalled()
  {
    first, second := map[], map[];
    if f.onGoing == MAX_PARALLEL_FETCH && BusyKeys(f.queue) != {} {
      first := StoreBusyKey(f, clocks(0));
    }
    second := LearnOfKey(f, peer, k, now, clocks(1));
  }

  method StoreBusyKey(f: Fetcher, clock: Clock) returns (result: Dispatch)
    requires f.Valid() && Monotone(clock) && BusyKeys(f.queue) != {}
    modifies f
    ensures f.Valid() && f.queue.Keys <= old(f.queue).Keys
    ensures result == map[] ==> f.onGoing < MAX_PARALLEL_FETCH
  {
    var busy :| busy in BusyKeys(f.queue);
    ghost var q1, n1 := f.queue - {busy}, Less(f.onGoing);
    var readings;
    result, readings := f.NotifyAboutNewPut(busy, clock);
    CallKeeps(q1, n1, f.queue, f.onGoing, result);
  }

  lemma CallKeeps(q0: Queue, n0: nat, q1: Queue, n1: nat, result: Dispatch)
    requires Outcome(q0, n0, q1, n1, result)
    ensures q1.Keys == q0.Keys - NetworkKeys(result) && (result == map[] ==> n1 <= n0)
  {
    assert q1.Keys == HolderNames(q1).Keys && q0.Keys == HolderNames(q0).Keys;
  }

  method LearnOfKey(f: Fetcher, peer: Peer, k: Key, now: int, clock: Clock) returns (result: Dispatch)
    requires f.Valid() && Monotone(clock) && k !in f.queue
    modifies f
    ensures f.Valid()
    ensures old(f.onGoing) < MAX_PARALLEL_FETCH ==> result != map[]
    ensures old(f.Stalled()) ==> f.Stalled() && result == map[]
  {
    assert k in Wanted([Some(k)], {}) by {
      assert Some(k) in [Some(k)];
    }
    var readings;
    result, readings := f.AddKeys(peer, [Some(k)], {}, now, clock);
  }

  // ---------- Overrunning ----------

  /** That at most eight keys are asked for at once does not hold either: a key given up gives back two
      fetches.  With t keys asked for at time 0 and the others of the eight at time 10, a call at time 16
      gives the t keys up and leaves 2t fetches free, so that 8 + t keys are asked for at time 16. */
  method OverrunFetcher(peer: Peer, early: seq<Option<Key>>, late: seq<Option<Key>>, more: seq<Option<Key>>, other: Key)
    returns (f: Fetcher)
    requires var t := |Wanted(early, {})|;
      && 1 <= t <= 4 && |Wanted(late, {})| == MAX_PARALLEL_FETCH - t && |Wanted(more, {})| == 2 * t
    requires Wanted(early, {}) !! Wanted(late, {}) && Wanted(more, {}) !! Wanted(late, {})
    requires other !in Wanted(early, {}) + Wanted(late, {})
    ensures fresh(f) && f.Valid() && |BusyKeys(f.queue)| == MAX_PARALLEL_FETCH + |Wanted(early, {})|
  {
    f := FillTwice(peer, early, late);
    LoseEarly(f, other, Wanted(early, {}), Wanted(late, {}), At(16), peer);
    Refill(f, peer, more, Wanted(late, {}));
  }

  /** More keys are asked for at time 16. */
  method Refill(f: Fetcher, peer: Peer, more: seq<Option<Key>>, ghost late: set<Key>)
    requires f.Valid() && f.queue.Keys == late <= AskedWithin(f.queue, 10, 10) && Wanted(more, {}) !! late
    requires f.onGoing + |Wanted(more, {})| <= MAX_PARALLEL_FETCH
    modifies f
    ensures f.Valid() && |BusyKeys(f.queue)| == |late| + |Wanted(more, {})|
  {
    FillFetcher(f, peer, more, At(16), 10, 16);
    BusyTotal(f.queue, late, Wanted(more, {}), 10, 16);
  }

  /** Some keys are asked for at time 0, others at time 10. */
  method FillTwice(peer: Peer, early: seq<Option<Key>>, late: seq<Option<Key>>) returns (f: Fetcher)
    requires Wanted(early, {}) !! Wanted(late, {}) && |Wanted(early, {})| + |Wanted(late, {})| <= MAX_PARALLEL_FETCH
    ensures fresh(f) && f.Valid() && f.queue.Keys == Wanted(early, {}) + Wanted(late, {})
    ensures f.onGoing == |Wanted(early, {})| + |Wanted(late, {})| && OnlyHolder(f.queue, Wanted(early, {}), peer)
    ensures Wanted(early, {}) <= AskedWithin(f.queue, 0, 0) && Wanted(late, {}) <= AskedWithin(f.queue, 10, 10)
  {
    f := new Fetcher();
    ghost var none := f.queue.Keys;
    assert none == {};
    WithoutPart(Wanted(early, {}), none);
    FillFetcher(f, peer, early, At(0), 0, 0);
    assert f.queue.Keys == none + Wanted(early, {}) == Wanted(early, {});
    FillFetcher(f, peer, late, At(10), 0, 10);
  }

  /** A clock that stands still. */
  function At(t: int): (clock: Clock)
    ensures Still(clock, t)
  {
    (i: nat) => t
  }

  ghost predicate Still(clock: Clock, t: int) {
    Monotone(clock) && forall i :: clock(i) == t
  }

  /** The peer is the only known holder of the keys. */
  ghost predicate OnlyHolder(queue: Queue, keys: set<Key>, peer: Peer) {
    forall k :: k in keys ==> k in queue && queue[k].Keys == {peer}
  }

  lemma AskedAreBusy(queue: Queue, a: int, b: int)
    ensures AskedWithin(queue, a, b) <= BusyKeys(queue) <= queue.Keys
  {
  }

  lemma BusyTotal(queue: Queue, l: set<Key>, m: set<Key>, a: int, b: int)
    requires queue.Keys == l + m && l !! m && l <= AskedWithin(queue, a, a) && m <= AskedWithin(queue, b, b)
    ensures BusyKeys(queue) == l + m && |BusyKeys(queue)| == |l| + |m|
  {
    AskedAreBusy(queue, a, a);
    AskedAreBusy(queue, b, b);
  }

  /** Learning of new keys while everything queued is being asked for and not overdue: the new keys are
      all asked for, so long as they fit in the allowance. */
  method FillFetcher(f: Fetcher, peer: Peer, keys: seq<Option<Key>>, clock: Clock, ghost a: int, ghost t: int)
    requires f.Valid() && Still(clock, t) && t <= a + FETCH_TIMEOUT
    requires f.queue.Keys <= AskedWithin(f.queue, a, a) && Wanted(keys, {}) !! f.queue.Keys
    requires f.onGoing + |Wanted(keys, {})| <= MAX_PARALLEL_FETCH
    modifies f
    ensures f.Valid() && f.queue.Keys == old(f.queue).Keys + Wanted(keys, {})
    ensures old(f.queue).Keys <= AskedWithin(f.queue, a, a) && Wanted(keys, {}) <= AskedWithin(f.queue, t, t)
    ensures OnlyHolder(f.queue, Wanted(keys, {}), peer)
    ensures OnlyHolder(old(f.queue), old(f.queue).Keys, peer) ==> OnlyHolder(f.queue, old(f.queue).Keys, peer)
    ensures f.onGoing == old(f.onGoing) + |Wanted(keys, {})|
  {
    NoneDropped(f.queue, {});
    var result, readings := f.AddKeys(peer, keys, {}, clock(0), clock);
    Filled(old(f.queue), old(f.onGoing), f.queue, f.onGoing, result, Wanted(keys, {}), peer, a, t);
  }

  lemma Filled(q: Queue, n: nat, q1: Queue, n1: nat, result: Dispatch, wanted: set<Key>, peer: Peer, a: int, t: int)
    requires var q0 := WithPeer(q, wanted, peer, t);
      Outcome(q0, n, q1, n1, result) && NetworkExact(q0, result, t, t) && Clocked(q0, q1, result, t, t)
    requires HolderNames(q1) == Offered(HolderNames(q), wanted, peer) - NetworkKeys(result)
    requires q.Keys <= AskedWithin(q, a, a) && wanted !! q.Keys
    requires t <= a + FETCH_TIMEOUT && n + |wanted| <= MAX_PARALLEL_FETCH
    ensures q1.Keys == q.Keys + wanted && n1 == n + |wanted|
    ensures q.Keys <= AskedWithin(q1, a, a) && wanted <= AskedWithin(q1, t, t)
    ensures OnlyHolder(q1, wanted, peer) && (OnlyHolder(q, q.Keys, peer) ==> OnlyHolder(q1, q.Keys, peer))
  {
    var q0 := WithPeer(q, wanted, peer, t);
    LearnedTimes(q, wanted, peer, t, a);
    AllAsked(q0, n, q1, n1, result, q.Keys, wanted, a, t);
    HoldersFilled(q, q1, result, wanted, peer);
  }

  lemma NoneDropped(q: Queue, dropped: set<Key>)
    requires dropped !! q.Keys
    ensures q - dropped == q && HolderNames(q) - dropped == HolderNames(q)
  {
  }

  lemma WithoutPart(a: set<Key>, b: set<Key>)
    requires a !! b
    ensures a + b - a == b && a - {} == a && {} + a == a
  {
  }

  lemma LearnedTimes(q: Queue, added: set<Key>, peer: Peer, now: int, a: int)
    requires added !! q.Keys && q.Keys <= AskedWithin(q, a, a)
    ensures var q0 := WithPeer(q, added, peer, now);
      q0.Keys == q.Keys + added && BusyKeys(q0) == q.Keys <= AskedWithin(q0, a, a)
  {
    PeerAdded(q, added, peer, now);
    StillAsked(q, added, peer, now, a);
    assert q.Keys <= BusyKeys(q) <= q.Keys by {
      AskedAreBusy(q, a, a);
    }
  }

  lemma StillAsked(q: Queue, added: set<Key>, peer: Peer, now: int, a: int)
    requires added !! q.Keys
    ensures AskedWithin(q, a, a) <= AskedWithin(WithPeer(q, added, peer, now), a, a)
  {
  }

  lemma HoldersFilled(q: Queue, q1: Queue, result: Dispatch, wanted: set<Key>, peer: Peer)
    requires HolderNames(q1) == Offered(HolderNames(q), wanted, peer) - NetworkKeys(result)
    requires NetworkKeys(result) == {} && wanted !! q.Keys
    ensures OnlyHolder(q1, wanted, peer) && (OnlyHolder(q, q.Keys, peer) ==> OnlyHolder(q1, q.Keys, peer))
  {
    forall k | k in q.Keys + wanted
      ensures k in q1 && q1[k].Keys == (if k in q then q[k].Keys else {}) + (if k in wanted then {peer} else {})
    {
      assert k in Offered(HolderNames(q), wanted, peer);
      assert k in HolderNames(q1) && HolderNames(q1)[k] == q1[k].Keys;
    }
  }

  /** A call when all idle keys fit in the allowance and nothing is overdue. */
  lemma AllAsked(q0: Queue, n0: nat, q1: Queue, n1: nat, result: Dispatch, busy: set<Key>, idle: set<Key>,
                 a: int, t: int)
    requires Outcome(q0, n0, q1, n1, result) && NetworkExact(q0, result, t, t) && Clocked(q0, q1, result, t, t)
    requires q0.Keys == busy + idle && busy !! idle && BusyKeys(q0) == busy <= AskedWithin(q0, a, a)
    requires t <= a + FETCH_TIMEOUT && n0 + |idle| <= MAX_PARALLEL_FETCH
    ensures NetworkKeys(result) == {} && q1.Keys == q0.Keys && n1 == n0 + |idle|
    ensures busy <= AskedWithin(q1, a, a) && idle <= AskedWithin(q1, t, t)
  {
    assert AskedWithin(q0, a, a) <= AskedWithin(q1, a, a) - result.Keys;
    NothingLost(q0, result, busy, idle, t);
    CallKeeps(q0, n0, q1, n1, result);
    WithoutPart(q0.Keys, {});
    WithoutPart(busy, idle);
    AllServed(q0, result, idle, MAX_PARALLEL_FETCH - n0);
    FilledCount(q0, n0, q1, n1, result, busy, idle, a, t);
  }

  lemma NothingLost(q0: Queue, result: Dispatch, busy: set<Key>, idle: set<Key>, t: int)
    requires NetworkExact(q0, result, t, t) && result.Keys <= q0.Keys == busy + idle && busy !! result.Keys
    requires idle !! BusyKeys(q0)
    ensures NetworkKeys(result) == {} && result.Keys <= idle
  {
    forall k | k in idle ensures k !in NetworkKeys(result) {
      IdleNotLost(q0, result, k, t, t);
    }
    assert NetworkKeys(result) <= result.Keys <= idle;
  }

  /** When the idle keys fit in the allowance they are all returned. */
  lemma AllServed(q0: Queue, result: Dispatch, idle: set<Key>, left: nat)
    requires IdleServed(q0, {}, result, left) && |idle| <= left && result.Keys <= idle <= q0.Keys - BusyKeys(q0)
    requires NetworkKeys(result) == {}
    ensures PeerKeys(result) == idle
  {
    assert PeerKeys(result) == result.Keys;
    if |result| < left {
      forall k | k in idle ensures k in result {
        assert k in q0 && k !in BusyKeys(q0);
      }
    } else {
      assert idle == result.Keys + (idle - result.Keys);
    }
  }

  lemma FilledCount(q0: Queue, n0: nat, q1: Queue, n1: nat, result: Dispatch, busy: set<Key>, idle: set<Key>,
                    a: int, t: int)
    requires Counted(q0, q1, n0, n1, result) && Paced(q0, n0, q1, n1, result)
    requires NetworkKeys(result) == {} && PeerKeys(result) == idle && q1.Keys == busy + idle && busy !! idle
    requires BusyKeys(q0) == busy <= AskedWithin(q1, a, a) && idle <= AskedWithin(q1, t, t)
    ensures n1 == n0 + |idle|
  {
    BusyTotal(q1, busy, idle, a, t);
    assert BusyKeys(q1) - {} == BusyKeys(q1);
  }

  /** At time 16 the keys asked for since time 0 are given up and those asked for since time 10 stay. */
  method LoseEarly(f: Fetcher, other: Key, ghost early: set<Key>, ghost late: set<Key>, clock: Clock, ghost peer: Peer)
    requires f.Valid() && Still(clock, 16) && f.onGoing == MAX_PARALLEL_FETCH
    requires f.queue.Keys == early + late && early !! late && other !in f.queue
    requires early <= AskedWithin(f.queue, 0, 0) && late <= AskedWithin(f.queue, 10, 10)
    requires OnlyHolder(f.queue, early, peer)
    modifies f
    ensures f.Valid() && f.queue.Keys == late <= AskedWithin(f.queue, 10, 10)
    ensures f.onGoing + 2 * |early| <= MAX_PARALLEL_FETCH || f.onGoing == 0
  {
    f.ValidIsPassable();
    EarlyRunOut(f.queue, early, peer);
    NoneDropped(f.queue, {other});
    var result, readings := f.NotifyAboutNewPut(other, clock);
    EarlyLost(old(f.queue), f.queue, f.onGoing, result, early, late);
  }

  lemma EarlyRunOut(q: Queue, early: set<Key>, peer: Peer)
    requires early <= AskedWithin(q, 0, 0) && OnlyHolder(q, early, peer) && forall k :: k in q ==> Passable(q[k])
    ensures forall k :: k in early ==> k in q && RunsOut(q[k], 16)
  {
    forall k | k in early ensures k in q && RunsOut(q[k], 16) {
      OneHolderRunsOut(q[k], peer);
    }
  }

  lemma EarlyLost(q: Queue, q1: Queue, n1: nat, result: Dispatch, early: set<Key>, late: set<Key>)
    requires q.Keys == early + late && early !! late && late <= AskedWithin(q, 10, 10)
    requires Outcome(q, MAX_PARALLEL_FETCH, q1, n1, result) && NetworkExact(q, result, 16, 16)
    requires Clocked(q, q1, result, 16, 16) && forall k :: k in early ==> RunsOut(q[k], 16)
    ensures q1.Keys == late <= AskedWithin(q1, 10, 10) && (n1 + 2 * |early| <= MAX_PARALLEL_FETCH || n1 == 0)
  {
    assert AskedWithin(q, 10, 10) <= AskedWithin(q1, 10, 10) - result.Keys;
    ExactlyEarly(q, result, early, late);
    CallKeeps(q, MAX_PARALLEL_FETCH, q1, n1, result);
    WithoutPart(early, late);
  }

  lemma ExactlyEarly(q: Queue, result: Dispatch, early: set<Key>, late: set<Key>)
    requires result.Keys <= q.Keys == early + late && NetworkExact(q, result, 16, 16) && late !! result.Keys
    requires forall k :: k in early ==> RunsOut(q[k], 16)
    ensures NetworkKeys(result) == early
  {
    assert NetworkKeys(result) <= result.Keys;
  }

  lemma OneHolderRunsOut(hs: Holders, peer: Peer)
    requires hs.Keys == {peer} && Active(hs) != {} && StampsWithin(hs, 0, 0) && Passable(hs)
    ensures RunsOut(hs, 16)
  {
    assert Active(hs) == {peer};
    assert Failed(hs) == {};
    assert |hs| == |hs.Keys|;
  }

  /** What a pass relies on: at most one holder is being asked, and it has not failed. */
  ghost predicate Passable(hs: Holders) {
    && (forall p, q :: p in Active(hs) && q in Active(hs) ==> p == q)
    && Active(hs) !! Failed(hs)
  }

  /** The entry of a key after its visit: the network if it is given up, else the chosen peer. */
  ghost predicate KeyPass(before: Holders, after: Holders, entry: Option<Option<Peer>>) {
    && after.Keys == before.Keys && Failed(before) <= Failed(after) <= Failed(before) + Active(before)
    && if GiveUp(after) then entry == Some(None)
       else entry != Some(None) && PassResult(before, after, if entry.Some? then entry.value else None)
  }

  ghost predicate Visited(before: Holders, after: Holders, entry: Option<Option<Peer>>, t0: int, t1: int) {
    KeyPass(before, after, entry) && Timely(before, after, t0, t1)
  }

  /** The peer being asked has run out of time, and with it all holders, or enough of them, failed. */
  ghost predicate RunsOut(hs: Holders, now: int) {
    && Active(hs) != {} && (forall p :: p in Active(hs) ==> Expired(now, hs[p]))
    && (|Failed(hs)| + 1 == |hs| || |Failed(hs)| + 1 >= PEERS_TRIED_BEFORE_NETWORK_FETCH)
  }

  /** Nobody is being asked, or the time of whoever is has run out. */
  ghost predicate Overdue(hs: Holders, now: int) {
    forall p :: p in Active(hs) ==> Expired(now, hs[p])
  }

  /** When nobody is left to ask, an overdue key is given up. */
  lemma OverdueKeyMoves(before: Holders, after: Holders, chosen: Option<Peer>, t0: int, t1: int)
    requires PassResult(before, after, chosen) && Timely(before, after, t0, t1)
    ensures Overdue(before, t0) && Askable(before) == {} ==> GiveUp(after)
  {
    if Overdue(before, t0) && Askable(before) == {} {
      forall p | p in before ensures p in Failed(after) {
        assert p !in Askable(before);
      }
      assert Failed(after) == after.Keys;
    }
  }

  /** A key is not given up unless the peer being asked for it fails. */
  lemma UnfailedKeyStays(before: Holders, after: Holders, chosen: Option<Peer>)
    requires PassResult(before, after, chosen) && Active(before) !! Failed(after) && !GiveUp(before)
    ensures !GiveUp(after)
  {
    assert Failed(after) == Failed(before);
    assert after.Keys == before.Keys;
    assert |after| == |before|;
  }

  /** When nobody is being asked for a key any longer, or somebody else is, the one asked has failed. */
  lemma BusyKeyFails(before: Holders, after: Holders, chosen: Option<Peer>)
    requires PassResult(before, after, chosen)
    ensures Active(before) != {} && (Active(after) == {} || chosen.Some?) ==> !(Active(before) !! Failed(after))
  {
    if p: Peer :| p in Active(before) {
      assert Active(after) == {} ==> p in Failed(after);
    }
  }

  /** After the pass over its holders, the decision about a key makes it a visit. */
  lemma VisitEnds(before: Holders, after: Holders, chosen: Option<Peer>, n0: nat, n: nat, allowed: bool,
                  t0: int, t1: int)
    requires PassResult(before, after, chosen) && Timely(before, after, t0, t1) && Passable(before)
    requires Tallied(before, after, {}, n0, n, chosen.Some?)
    requires chosen.Some? ==> allowed
    requires allowed && Overdue(before, t0) && Askable(before) != {} ==> chosen.Some?
    requires Active(before) == {} && chosen.None? ==> after == before
    ensures var entry := if GiveUp(after) then Some(None) else if chosen.Some? then Some(chosen) else None;
      KeyVisit(before, after, n0, if GiveUp(after) then Less(n) else n, allowed, entry, t0, t1)
  {
    var entry := if GiveUp(after) then Some(None) else if chosen.Some? then Some(chosen) else None;
    OverdueKeyMoves(before, after, chosen, t0, t1);
    BusyKeyFails(before, after, chosen);
    PaceKept(before, after, chosen, n0, n, allowed);
    if Active(before) == {} && !GiveUp(before) { UnfailedKeyStays(before, after, chosen); }
  }

  lemma PaceKept(before: Holders, after: Holders, chosen: Option<Peer>, n0: nat, n: nat, allowed: bool)
    requires PassResult(before, after, chosen) && Passable(before)
    requires Tallied(before, after, {}, n0, n, chosen.Some?) && (chosen.Some? ==> allowed)
    ensures var entry := if GiveUp(after) then Some(None) else if chosen.Some? then Some(chosen) else None;
      KeyPace(before, after, n0, if GiveUp(after) then Less(n) else n, allowed, entry)
  {
    if Active(before) !! Failed(after) {
      if !GiveUp(before) { UnfailedKeyStays(before, after, chosen); }
      assert chosen.None? ==> Active(after) == Active(before);
      assert chosen.Some? ==> Active(before) == {};
    } else {
      var p :| p in Active(before) && p in Failed(after);
      assert Active(before) == {p};
      assert chosen.None? ==> Active(after) == {};
    }
  }

  lemma FailedAfter(before: Holders, after: Holders, p: Peer)
    requires Active(before) == {p} && p !in Failed(before) && Failed(before) <= Failed(after) <= Failed(before) + {p}
    ensures |Failed(after)| == |Failed(before)| + if p in Failed(after) then 1 else 0
  {
    if p in Failed(after) {
      assert Failed(after) == Failed(before) + {p};
    } else {
      assert Failed(after) == Failed(before);
    }
  }

  /** Giving up after a pass, in terms of the state before it. */
  lemma GiveUpExact(before: Holders, after: Holders, entry: Option<Option<Peer>>, t0: int, t1: int)
    requires Passable(before) && !GiveUp(before) && Visited(before, after, entry, t0, t1)
    ensures GiveUp(after) ==> RunsOut(before, t1)
    ensures RunsOut(before, t0) ==> GiveUp(after)
  {
    assert |after| == |before| by { assert after.Keys == before.Keys; }
    if p: Peer :| p in Active(before) {
      assert Active(before) == {p};
      FailedAfter(before, after, p);
    } else {
      assert Failed(after) == Failed(before);
    }
  }

  ghost function EntryOf(result: Dispatch, k: Key): Option<Option<Peer>> {
    if k in result then Some(result[k]) else None
  }

  /** The peer returned for a key, if any. */
  ghost function Lookup(result: Dispatch, k: Key): Option<Peer> {
    if k in result then result[k] else None
  }

  function PeerKeys(result: Dispatch): set<Key> {
    set k | k in result && result[k].Some?
  }

  function NetworkKeys(result: Dispatch): set<Key> {
    set k | k in result && result[k].None?
  }

  lemma EntryCount(result: Dispatch, k: Key, e: Option<Peer>)
    requires k !in result
    ensures |result[k := e]| == |result| + 1
    ensures |PeerKeys(result[k := e])| == |PeerKeys(result)| + if e.Some? then 1 else 0
  {
    var after := result[k := e];
    assert |after| == |result| + 1 by {
      assert after.Keys == result.Keys + {k};
    }
    if e.Some? {
      assert PeerKeys(after) == PeerKeys(result) + {k};
    } else {
      assert PeerKeys(after) == PeerKeys(result);
    }
  }

  // ---------- Adding and dropping keys ----------

  /** The histories after queueing some keys: a key queued before keeps its history. */
  ghost function Requeued(was: History, added: set<Key>): History {
    map k | k in was.Keys + added :: if k in was then was[k] else []
  }

  /** The holders of a key with one more, unless it is known already. */
  ghost function WithHolder(queue: Queue, k: Key, p: Peer, now: int): Holders {
    var hs := if k in queue then queue[k] else map[];
    if p in hs then hs else hs[p := Holder(now, Pending, 0)]
  }

  ghost function Wanted(incoming: seq<Option<Key>>, stored: set<Key>): set<Key> {
    set e | e in incoming && e.Some? && e.value !in stored :: e.value
  }

  lemma WantedStep(incoming: seq<Option<Key>>, stored: set<Key>, i: nat)
    requires i < |incoming|
    ensures if incoming[i].Some? && incoming[i].value !in stored
      then Wanted(incoming[..i + 1], stored) == Wanted(incoming[..i], stored) + {incoming[i].value}
      else Wanted(incoming[..i + 1], stored) == Wanted(incoming[..i], stored)
  {
  }

  /** Who is known to hold each queued key. */
  ghost function HolderNames(queue: Queue): map<Key, set<Peer>> {
    map k | k in queue :: queue[k].Keys
  }

  /** The names after learning that the peer holds some keys. */
  ghost function Offered(was: map<Key, set<Peer>>, added: set<Key>, peer: Peer): map<Key, set<Peer>> {
    map k | k in was.Keys + added :: KnownNames(was, k) + if k in added then {peer} else {}
  }

  ghost function KnownNames(was: map<Key, set<Peer>>, k: Key): set<Peer> {
    if k in was then was[k] else {}
  }

  /** The queue after learning that the peer holds some keys. */
  ghost function WithPeer(queue: Queue, added: set<Key>, peer: Peer, now: int): Queue {
    map k | k in queue.Keys + added :: if k in added then WithHolder(queue, k, peer, now) else queue[k]
  }

  lemma PeerAddedTwice(queue: Queue, added: set<Key>, peer: Peer, now: int, k: Key)
    ensures var once := WithPeer(queue, added, peer, now);
      once[k := WithHolder(once, k, peer, now)] == WithPeer(queue, added + {k}, peer, now)
  {
  }

  /** Learning of a holder adds its name where it was not known, and starts or stops no fetch. */
  lemma PeerAdded(queue: Queue, added: set<Key>, peer: Peer, now: int)
    ensures var q := WithPeer(queue, added, peer, now);
      && HolderNames(q) == Offered(HolderNames(queue), added, peer)
      && BusyKeys(q) == BusyKeys(queue) && q.Keys == queue.Keys + added
  {
    var q := WithPeer(queue, added, peer, now);
    assert HolderNames(q).Keys == Offered(HolderNames(queue), added, peer).Keys;
    forall k | k in q
      ensures q[k].Keys == Offered(HolderNames(queue), added, peer)[k]
      ensures k in BusyKeys(q) <==> k in BusyKeys(queue)
    {
      HolderKnown(queue, k, peer, now);
    }
  }

  lemma HolderKnown(queue: Queue, k: Key, p: Peer, now: int)
    ensures var hs := if k in queue then queue[k] else map[];
      WithHolder(queue, k, p, now).Keys == hs.Keys + {p} && Active(WithHolder(queue, k, p, now)) == Active(hs)
  {
  }

  lemma NamesDropped(queue: Queue, dropped: set<Key>)
    ensures HolderNames(queue - dropped) == HolderNames(queue) - dropped
  {
  }

  lemma NothingLeft(a: set<Key>, b: set<Key>)
    ensures a - b == {} <==> a <= b
  {
    forall k | k in a && k !in b ensures k in a - b {
    }
  }

  lemma BusyDropped(queue: Queue, dropped: set<Key>)
    ensures BusyKeys(queue - dropped) == BusyKeys(queue) - dropped
  {
  }

  lemma HolderRecorded(queue: Queue, asked: History, k: Key, p: Peer, now: int)
    requires Consistent(queue, asked)
    ensures Consistent(queue[k := WithHolder(queue, k, p, now)], Requeued(asked, {k}))
  {
    RequeuedOne(asked, k);
    var hs := if k in queue then queue[k] else map[];
    var history := if k in asked then asked[k] else [];
    assert k in queue ==> k in TrackedKeys(queue, asked) && k !in GivenUp(queue);
    if p !in hs {
      HolderAdded(hs, history, p, Holder(now, Pending, 0));
    }
    KeyReplaced(queue, asked, k, WithHolder(queue, k, p, now), history);
  }

  lemma RequeuedOne(was: History, k: Key)
    ensures Requeued(was, {k}) == was[k := if k in was then was[k] else []]
    ensures k in was ==> Requeued(was, {k}) == was
  {
  }

  lemma RequeuedTwice(was: History, added: set<Key>, k: Key)
    ensures Requeued(Requeued(was, added), {k}) == Requeued(was, added + {k})
  {
  }

  lemma NothingAdded(was: History, queue: Queue, peer: Peer, now: int)
    ensures Requeued(was, {}) == was && WithPeer(queue, {}, peer, now) == queue
  {
  }

  lemma HolderAdded(hs: Holders, asked: seq<Peer>, p: Peer, h: Holder)
    requires p !in hs && h.status == Pending && h.failed == 0
    requires Tracked(hs, asked) && |Failed(hs)| < PEERS_TRIED_BEFORE_NETWORK_FETCH
    ensures Tracked(hs[p := h], asked) && !GiveUp(hs[p := h])
  {
    var hs' := hs[p := h];
    assert Active(hs') == Active(hs) && Failed(hs') == Failed(hs);
    assert hs'.Keys == hs.Keys + {p};
    SubsetSize(Failed(hs), hs.Keys);
  }

  lemma KeyReplaced(queue: Queue, asked: History, k: Key, hs: Holders, history: seq<Peer>)
    requires Consistent(queue, asked)
    requires Tracked(hs, history) && !GiveUp(hs)
    ensures Consistent(queue[k := hs], asked[k := history])
  {
  }

  lemma KeysDropped(queue: Queue, asked: History, dropped: set<Key>)
    requires Consistent(queue, asked)
    ensures Consistent(queue - dropped, asked - dropped)
  {
  }

  // ---------- The loop over the keys ----------

  ghost function PassedKeys(q0: Queue, queue: Queue, result: Dispatch, t0: int, t1: int): set<Key> {
    set k | k in q0 && k in queue && Visited(q0[k], queue[k], EntryOf(result, k), t0, t1)
  }

  /** In the middle of a call: the keys of `rest` are untouched, the others have had their visit. */
  ghost predicate Progress(q0: Queue, queue: Queue, rest: set<Key>, result: Dispatch, t0: int, t1: int) {
    && rest <= queue.Keys == q0.Keys && result.Keys !! rest && result.Keys <= queue.Keys
    && (forall k :: k in rest ==> queue[k] == q0[k])
    && queue.Keys - rest <= PassedKeys(q0, queue, result, t0, t1)
  }

  lemma ProgressStep(q0: Queue, queue: Queue, rest: set<Key>, result: Dispatch,
                     k: Key, hs: Holders, entry: Option<Option<Peer>>, t0: int, t1: int, t2: int)
    requires Progress(q0, queue, rest, result, t0, t1) && k in rest && t0 <= t1 <= t2
    requires Visited(q0[k], hs, entry, t1, t2)
    ensures Progress(q0, queue[k := hs], rest - {k}, WithEntry(result, k, entry), t0, t2)
  {
    assert queue[k := hs].Keys == queue.Keys;
    PassedStep(q0, queue, rest, result, k, hs, entry, t0, t1, t2);
  }

  lemma PassedStep(q0: Queue, queue: Queue, rest: set<Key>, result: Dispatch,
                   k: Key, hs: Holders, entry: Option<Option<Peer>>, t0: int, t1: int, t2: int)
    requires queue.Keys - rest <= PassedKeys(q0, queue, result, t0, t1) && t0 <= t1 <= t2
    requires k in q0 && k in queue && k !in result && Visited(q0[k], hs, entry, t1, t2)
    ensures queue.Keys - (rest - {k}) <= PassedKeys(q0, queue[k := hs], WithEntry(result, k, entry), t0, t2)
  {
    var queue', result' := queue[k := hs], WithEntry(result, k, entry);
    forall j | j in queue.Keys - (rest - {k}) ensures j in PassedKeys(q0, queue', result', t0, t2) {
      if j != k {
        assert j in PassedKeys(q0, queue, result, t0, t1);
        StillPassed(q0, queue, queue', result, result', j, t0, t1, t2);
      } else {
        NowPassed(q0, queue', result', k, entry, t0, t1, t2);
      }
    }
  }

  lemma NowPassed(q0: Queue, queue: Queue, result: Dispatch,
                  k: Key, entry: Option<Option<Peer>>, t0: int, t1: int, t2: int)
    requires k in q0 && k in queue && t0 <= t1 && EntryOf(result, k) == entry
    requires Visited(q0[k], queue[k], entry, t1, t2)
    ensures k in PassedKeys(q0, queue, result, t0, t2)
  {
    TimelyWider(q0[k], queue[k], t1, t2, t0, t2);
  }

  lemma TimelyWider(before: Holders, after: Holders, t0: int, t1: int, t0': int, t1': int)
    requires Timely(before, after, t0, t1) && t0' <= t0 && t1 <= t1'
    ensures Timely(before, after, t0', t1')
  {
  }

  lemma StillPassed(q0: Queue, queue: Queue, queue': Queue,
                    result: Dispatch, result': Dispatch, j: Key, t0: int, t1: int, t2: int)
    requires j in PassedKeys(q0, queue, result, t0, t1) && t1 <= t2
    requires j in queue' && queue'[j] == queue[j] && EntryOf(result', j) == EntryOf(result, j)
    ensures j in PassedKeys(q0, queue', result', t0, t2)
  {
    TimelyWider(q0[j], queue[j], t0, t1, t0, t2);
  }

  /** The keys for which somebody is being asked. */
  function BusyKeys(queue: Queue): set<Key> {
    set k | k in queue && Active(queue[k]) != {}
  }

  function WithEntry(result: Dispatch, k: Key, entry: Option<Option<Peer>>): Dispatch {
    if entry.Some? then result[k := entry.value] else result
  }

  predicate IsPeer(entry: Option<Option<Peer>>) {
    entry.Some? && entry.value.Some?
  }

  /** How a call changes the count of fetches: it grows by at most one per key returned with a peer;
      when nobody was being asked, by exactly one per key returned, and a call that returns nothing
      changes nothing. */
  ghost predicate Counted(q0: Queue, queue: Queue, before: nat, after: nat, result: Dispatch) {
    && after <= before + |PeerKeys(result)| && |PeerKeys(result)| <= |result|
    && (BusyKeys(q0) == {} ==> after == before + |result| && (result == map[] ==> queue == q0))
  }

  lemma CountedStep(q0: Queue, queue: Queue, queue': Queue, before: nat,
                    count: nat, count': nat, result: Dispatch, k: Key, entry: Option<Option<Peer>>)
    requires Counted(q0, queue, before, count, result) && k in q0 && k !in result
    requires count' <= count + if IsPeer(entry) then 1 else 0
    requires Active(q0[k]) == {} ==>
      count' == count + (if entry.Some? then 1 else 0) && (entry.None? ==> queue' == queue)
    ensures Counted(q0, queue', before, count', WithEntry(result, k, entry))
    ensures |PeerKeys(WithEntry(result, k, entry))| == |PeerKeys(result)| + if IsPeer(entry) then 1 else 0
  {
    assert BusyKeys(q0) == {} ==> k !in BusyKeys(q0);
    if entry.Some? {
      EntryCount(result, k, entry.value);
    }
  }

  /** Everything a visit of one key does to its holders and to the count of fetches. */
  ghost predicate KeyVisit(before: Holders, after: Holders, n: nat, n': nat, allowed: bool,
                           entry: Option<Option<Peer>>, t0: int, t1: int)
  {
    && Visited(before, after, entry, t0, t1)
    && (IsPeer(entry) ==> allowed) && n' <= n + Bit(IsPeer(entry))
    && (allowed && Overdue(before, t0) && !GiveUp(before) ==> entry.Some?)
    && (Active(before) == {} && !GiveUp(before) ==> n' == n + Bit(entry.Some?) && (entry.None? ==> after == before))
    && (Active(before) != {} && !IsPeer(entry) && (entry.Some? || Active(after) == {}) ==> n' <= Less(n))
    && KeyPace(before, after, n, n', allowed, entry)
  }

  /** The count follows the number of keys asked for, except that a key given up gives back one fetch
      too many: two without a new one. */
  ghost predicate KeyPace(before: Holders, after: Holders, n: nat, n': nat, allowed: bool, entry: Option<Option<Peer>>)
  {
    if entry == Some(None) then
      Active(before) != {} && !GiveUp(before) ==> n <= n' + 2 && (!allowed ==> n' <= Less(Less(n)))
    else
      && n + Bit(Active(after) != {}) <= n' + Bit(Active(before) != {})
      && (Active(before) != {} && (IsPeer(entry) || Active(after) == {}) ==> n' <= Less(n) + Bit(IsPeer(entry)))
  }

  /** In the middle of a call, unless all fetches were taken with nobody being asked: a fetch is free,
      or somebody is being asked for a key that stays. */
  ghost predicate Lively(q0: Queue, n0: nat, queue: Queue, n: nat, result: Dispatch) {
    n0 < MAX_PARALLEL_FETCH || BusyKeys(q0) != {} ==>
      n < MAX_PARALLEL_FETCH || !(BusyKeys(queue) <= NetworkKeys(result))
  }

  lemma LivelyStep(q0: Queue, n0: nat, queue: Queue, n: nat, result: Dispatch, k: Key, hs: Holders, n': nat,
                   entry: Option<Option<Peer>>)
    requires Lively(q0, n0, queue, n, result) && n <= MAX_PARALLEL_FETCH && k in queue && k !in result
    requires IsPeer(entry) ==> Active(hs) != {}
    requires !IsPeer(entry) ==> n' <= n
    requires Active(queue[k]) != {} && !IsPeer(entry) && (entry.Some? || Active(hs) == {}) ==> n' <= Less(n)
    ensures Lively(q0, n0, queue[k := hs], n', WithEntry(result, k, entry))
  {
    var queue', result' := queue[k := hs], WithEntry(result, k, entry);
    if entry != Some(None) && Active(hs) != {} {
      assert k in BusyKeys(queue') && k !in NetworkKeys(result');
    } else if !(BusyKeys(queue) <= NetworkKeys(result)) {
      var b :| b in BusyKeys(queue) && b !in NetworkKeys(result);
      assert b != k ==> b in BusyKeys(queue') && b !in NetworkKeys(result');
    }
  }

  lemma LivelyDone(q0: Queue, n0: nat, queue: Queue, n1: nat, result: Dispatch)
    requires Lively(q0, n0, queue, n1, result) && n0 <= MAX_PARALLEL_FETCH
    ensures StalledAt(queue - NetworkKeys(result), n1) ==> StalledAt(q0, n0)
  {
    BusyDropped(queue, NetworkKeys(result));
    NothingLeft(BusyKeys(queue), NetworkKeys(result));
  }

  lemma CountedDone(q0: Queue, n0: nat, queue: Queue, n1: nat, result: Dispatch)
    requires Counted(q0, queue, n0, n1, result)
    ensures Counted(q0, queue - NetworkKeys(result), n0, n1, result)
  {
    assert result == map[] ==> NetworkKeys(result) == {} && queue - NetworkKeys(result) == queue;
  }

  lemma LostKeyWasBusy(before: Holders, after: Holders, entry: Option<Option<Peer>>, t0: int, t1: int)
    requires Visited(before, after, entry, t0, t1) && entry == Some(None) && !GiveUp(before)
    ensures Active(before) != {}
  {
    assert Active(before) == {} ==> Failed(after) == Failed(before);
    assert |after| == |before| by { assert after.Keys == before.Keys; }
  }

  lemma PeerIsAsked(before: Holders, after: Holders, entry: Option<Option<Peer>>, t0: int, t1: int)
    requires Visited(before, after, entry, t0, t1) && IsPeer(entry)
    ensures Active(after) != {}
  {
    assert entry.value.value in Active(after);
  }

  /** The count falls behind the number of keys asked for by at most one for each key handed to the
      network, and while no fetch may be started each of these gives back two; as long as none is handed
      over, the count follows exactly. */
  ghost predicate Paced(q0: Queue, n0: nat, queue: Queue, n: nat, result: Dispatch) {
    && n0 + |BusyKeys(queue) - NetworkKeys(result)| <= n + |BusyKeys(q0)| + |NetworkKeys(result)|
    && (n0 == MAX_PARALLEL_FETCH ==> n + 2 * |NetworkKeys(result)| <= n0 || n == 0)
    && (|BusyKeys(q0)| <= n0 && NetworkKeys(result) == {} ==> n + |BusyKeys(q0)| == n0 + |BusyKeys(queue)|)
  }

  lemma PacedStep(q0: Queue, n0: nat, queue: Queue, n: nat, result: Dispatch, k: Key, hs: Holders, n': nat,
                  allowed: bool, entry: Option<Option<Peer>>)
    requires Paced(q0, n0, queue, n, result) && k in queue && k !in result && !GiveUp(queue[k])
    requires KeyPace(queue[k], hs, n, n', allowed, entry) && n' <= n + Bit(IsPeer(entry))
    requires (entry == Some(None) ==> Active(queue[k]) != {}) && (IsPeer(entry) ==> Active(hs) != {})
    requires n0 == MAX_PARALLEL_FETCH ==> !allowed && !IsPeer(entry)
    ensures Paced(q0, n0, queue[k := hs], n', WithEntry(result, k, entry))
  {
    BusyCount(queue, result, k, hs, entry);
    LostAfter(result, k, entry);
    if |BusyKeys(q0)| <= n0 && NetworkKeys(WithEntry(result, k, entry)) == {} {
      assert NetworkKeys(result) == {};
      PacedExactly(|BusyKeys(q0)|, n0, queue, n, k, hs, n', allowed, entry);
    }
  }

  lemma PacedExactly(busy: nat, n0: nat, queue: Queue, n: nat, k: Key, hs: Holders, n': nat, allowed: bool,
                     entry: Option<Option<Peer>>)
    requires n + busy == n0 + |BusyKeys(queue)| && busy <= n0 && k in queue && entry != Some(None)
    requires KeyPace(queue[k], hs, n, n', allowed, entry) && n' <= n + Bit(IsPeer(entry))
    requires IsPeer(entry) ==> Active(hs) != {}
    ensures n' + busy == n0 + |BusyKeys(queue[k := hs])|
  {
    BusyAfter(queue, k, hs);
    MaybeOneMore(BusyKeys(queue) - {k}, BusyKeys(queue), k);
    MaybeOneMore(BusyKeys(queue) - {k}, BusyKeys(queue[k := hs]), k);
  }

  /** How a visit changes the keys asked for that stay, and the keys handed over. */
  lemma {:induction false} BusyCount(queue: Queue, result: Dispatch, k: Key, hs: Holders, entry: Option<Option<Peer>>)
    requires k in queue && k !in result
    ensures var q, r, lost := queue[k := hs], WithEntry(result, k, entry), entry == Some(None);
      && |NetworkKeys(r)| == |NetworkKeys(result)| + Bit(lost)
      && |BusyKeys(q) - NetworkKeys(r)| + Bit(Active(queue[k]) != {}) ==
         |BusyKeys(queue) - NetworkKeys(result)| + Bit(!lost && Active(hs) != {})
  {
    BusyAfter(queue, k, hs);
    LostAfter(result, k, entry);
    var r := WithEntry(result, k, entry);
    CountAfter(BusyKeys(queue), BusyKeys(queue[k := hs]), NetworkKeys(result), NetworkKeys(r), k);
  }

  lemma {:induction false} BusyAfter(queue: Queue, k: Key, hs: Holders)
    requires k in queue
    ensures BusyKeys(queue[k := hs]) - {k} == BusyKeys(queue) - {k}
    ensures (k in BusyKeys(queue[k := hs]) <==> Active(hs) != {}) && (k in BusyKeys(queue) <==> Active(queue[k]) != {})
  {
  }

  lemma {:induction false} LostAfter(result: Dispatch, k: Key, entry: Option<Option<Peer>>)
    requires k !in result
    ensures k !in NetworkKeys(result)
    ensures NetworkKeys(WithEntry(result, k, entry)) - {k} == NetworkKeys(result)
    ensures k in NetworkKeys(WithEntry(result, k, entry)) <==> entry == Some(None)
  {
  }

  lemma CountAfter(busy: set<Key>, busy': set<Key>, lost: set<Key>, lost': set<Key>, k: Key)
    requires busy' - {k} == busy - {k} && k !in lost && lost' - {k} == lost
    ensures |lost'| == |lost| + Bit(k in lost')
    ensures |busy' - lost'| + Bit(k in busy) == |busy - lost| + Bit(k !in lost' && k in busy')
  {
    MaybeOneMore(lost, lost', k);
    MaybeOneMore(busy - lost - {k}, busy - lost, k);
    MaybeOneMore(busy' - lost' - {k}, busy' - lost', k);
    assert busy' - lost' - {k} == (busy' - {k}) - (lost' - {k});
    assert busy - lost - {k} == (busy - {k}) - lost;
  }

  lemma MaybeOneMore(a: set<Key>, b: set<Key>, k: Key)
    requires a == b - {k}
    ensures |b| == |a| + Bit(k in b)
  {
    if k in b {
      assert b == a + {k};
    } else {
      assert b == a;
    }
  }

  lemma PacedDone(q0: Queue, n0: nat, queue: Queue, n: nat, result: Dispatch)
    requires Paced(q0, n0, queue, n, result)
    ensures Paced(q0, n0, queue - NetworkKeys(result), n, result)
  {
    var lost := NetworkKeys(result);
    BusyDropped(queue, lost);
    assert BusyKeys(queue) - lost - lost == BusyKeys(queue) - lost;
  }

  /** The state of the loop over the keys. */
  ghost predicate Underway(q0: Queue, n0: nat, queue: Queue, n: nat, rest: set<Key>, result: Dispatch,
                           t0: int, t1: int)
  {
    && n0 + |PeerKeys(result)| <= MAX_PARALLEL_FETCH
    && Progress(q0, queue, rest, result, t0, t1) && IdleServed(q0, rest, result, MAX_PARALLEL_FETCH - n0)
    && Counted(q0, queue, n0, n, result) && Lively(q0, n0, queue, n, result) && Paced(q0, n0, queue, n, result)
  }

  lemma UnderwayStart(q0: Queue, n0: nat, t0: int)
    requires n0 <= MAX_PARALLEL_FETCH
    ensures Underway(q0, n0, q0, n0, q0.Keys, map[], t0, t0)
  {
    assert PeerKeys(map[]) == {} && NetworkKeys(map[]) == {} && BusyKeys(q0) - {} == BusyKeys(q0);
  }

  lemma UnderwayStep(q0: Queue, n0: nat, queue: Queue, n: nat, rest: set<Key>, result: Dispatch, k: Key, hs: Holders,
                     n': nat, entry: Option<Option<Peer>>, t0: int, t1: int, t2: int)
    requires Underway(q0, n0, queue, n, rest, result, t0, t1) && k in rest && t0 <= t1 <= t2 && GivenUp(q0) == {}
    requires KeyVisit(queue[k], hs, n, n', |result| < MAX_PARALLEL_FETCH - n0, entry, t1, t2)
    ensures Underway(q0, n0, queue[k := hs], n', rest - {k}, WithEntry(result, k, entry), t0, t2)
  {
    assert k !in GivenUp(q0);
    ProgressStep(q0, queue, rest, result, k, hs, entry, t0, t1, t2);
    IdleStep(q0, rest, result, MAX_PARALLEL_FETCH - n0, k, entry);
    TallyStep(q0, n0, queue, n, result, k, hs, n', entry, t1, t2);
  }

  lemma TallyStep(q0: Queue, n0: nat, queue: Queue, n: nat, result: Dispatch, k: Key, hs: Holders,
                  n': nat, entry: Option<Option<Peer>>, t0: int, t1: int)
    requires n0 + |PeerKeys(result)| <= MAX_PARALLEL_FETCH && k in q0 && k in queue && queue[k] == q0[k] && k !in result
    requires Counted(q0, queue, n0, n, result) && Lively(q0, n0, queue, n, result) && Paced(q0, n0, queue, n, result)
    requires KeyVisit(queue[k], hs, n, n', |result| < MAX_PARALLEL_FETCH - n0, entry, t0, t1) && !GiveUp(queue[k])
    ensures var q, r := queue[k := hs], WithEntry(result, k, entry);
      && n0 + |PeerKeys(r)| <= MAX_PARALLEL_FETCH
      && Counted(q0, q, n0, n', r) && Lively(q0, n0, q, n', r) && Paced(q0, n0, q, n', r)
  {
    assert hs == queue[k] ==> queue[k := hs] == queue;
    CountedStep(q0, queue, queue[k := hs], n0, n, n', result, k, entry);
    if IsPeer(entry) { PeerIsAsked(queue[k], hs, entry, t0, t1); }
    LivelyStep(q0, n0, queue, n, result, k, hs, n', entry);
    if entry == Some(None) { LostKeyWasBusy(queue[k], hs, entry, t0, t1); }
    PacedStep(q0, n0, queue, n, result, k, hs, n', |result| < MAX_PARALLEL_FETCH - n0, entry);
  }

  /** How the fetches are handed out, in the order in which the keys are visited: a peer is returned
      for a key only if fewer keys than the allowance had been returned before it, and then every
      overdue key is returned. */
  ghost predicate InOrder(q0: Queue, order: seq<Key>, rest: set<Key>, result: Dispatch, left: nat, t0: int) {
    && rest <= q0.Keys && NoRepeats(order) && Elements(order) == q0.Keys - rest && result.Keys <= Elements(order)
    && forall i :: 0 <= i < |order| ==> RationedAt(q0, order[..i], order[i], result, left, t0)
  }

  ghost predicate RationedAt(q0: Queue, before: seq<Key>, k: Key, result: Dispatch, left: nat, t0: int) {
    var taken := |Elements(before) * result.Keys|;
    && (k in PeerKeys(result) ==> taken < left)
    && (taken < left && k in q0 && Overdue(q0[k], t0) ==> k in result)
  }

  /** The orders of visiting that explain what was returned. */
  ghost function Orders(q0: Queue, result: Dispatch, left: nat, t0: int): iset<seq<Key>> {
    iset order: seq<Key> | InOrder(q0, order, {}, result, left, t0)
  }

  ghost predicate Rationed(q0: Queue, result: Dispatch, left: nat, t0: int) {
    Orders(q0, result, left, t0) != iset{}
  }

  lemma InOrderDone(q0: Queue, order: seq<Key>, result: Dispatch, left: nat, t0: int)
    requires InOrder(q0, order, {}, result, left, t0)
    ensures Rationed(q0, result, left, t0)
  {
    assert order in Orders(q0, result, left, t0);
  }

  lemma InOrderStep(q0: Queue, order: seq<Key>, rest: set<Key>, result: Dispatch, left: nat, t0: int, k: Key,
                    entry: Option<Option<Peer>>)
    requires InOrder(q0, order, rest, result, left, t0) && k in rest
    requires (IsPeer(entry) ==> |result| < left) && (|result| < left && Overdue(q0[k], t0) ==> entry.Some?)
    ensures InOrder(q0, order + [k], rest - {k}, WithEntry(result, k, entry), left, t0)
  {
    VisitedNext(q0.Keys, order, rest, k);
    RationedNow(q0, order, result, left, t0, k, entry);
    AllStill(q0, order, result, left, t0, k, entry);
  }

  lemma AllStill(q0: Queue, order: seq<Key>, result: Dispatch, left: nat, t0: int, k: Key, entry: Option<Option<Peer>>)
    requires forall i :: 0 <= i < |order| ==> RationedAt(q0, order[..i], order[i], result, left, t0)
    requires k !in order && RationedAt(q0, order, k, WithEntry(result, k, entry), left, t0)
    ensures var order', result' := order + [k], WithEntry(result, k, entry);
      forall i :: 0 <= i < |order'| ==> RationedAt(q0, order'[..i], order'[i], result', left, t0)
  {
    var order', result' := order + [k], WithEntry(result, k, entry);
    NextPrefixes(order, k);
    forall i | 0 <= i < |order'| ensures RationedAt(q0, order'[..i], order'[i], result', left, t0) {
      if i < |order| {
        assert order'[..i] == order[..i] && order'[i] == order[i];
        RationedStill(q0, order[..i], order[i], result, left, t0, k, entry);
      }
    }
  }

  ghost predicate Looping(q0: Queue, n0: nat, queue: Queue, n: nat, rest: set<Key>, order: seq<Key>, result: Dispatch,
                          t0: int, t1: int)
  {
    && Underway(q0, n0, queue, n, rest, result, t0, t1) && InOrder(q0, order, rest, result, Allowance(n0), t0)
    && GivenUp(q0) == {}
  }

  lemma LoopStep(q0: Queue, n0: nat, queue: Queue, n: nat, rest: set<Key>, order: seq<Key>, result: Dispatch, k: Key,
                 hs: Holders, n': nat, entry: Option<Option<Peer>>, t0: int, t1: int, t2: int)
    requires Looping(q0, n0, queue, n, rest, order, result, t0, t1) && k in rest && t0 <= t1 <= t2
    requires k in queue && KeyVisit(queue[k], hs, n, n', |result| < Allowance(n0), entry, t1, t2)
    ensures Looping(q0, n0, queue[k := hs], n', rest - {k}, order + [k], WithEntry(result, k, entry), t0, t2)
  {
    assert k !in GivenUp(q0);
    VisitRation(q0[k], hs, n, n', |result| < Allowance(n0), entry, t0, t1, t2);
    InOrderStep(q0, order, rest, result, Allowance(n0), t0, k, entry);
    UnderwayStep(q0, n0, queue, n, rest, result, k, hs, n', entry, t0, t1, t2);
  }

  /** A visit that keeps to the ration. */
  lemma VisitRation(before: Holders, after: Holders, n: nat, n': nat, allowed: bool, entry: Option<Option<Peer>>,
                    t0: int, t1: int, t2: int)
    requires KeyVisit(before, after, n, n', allowed, entry, t1, t2) && !GiveUp(before) && t0 <= t1
    ensures (IsPeer(entry) ==> allowed) && (allowed && Overdue(before, t0) ==> entry.Some?)
  {
    assert Overdue(before, t0) ==> Overdue(before, t1);
  }

  lemma VisitedNext(keys: set<Key>, order: seq<Key>, rest: set<Key>, k: Key)
    requires rest <= keys && Elements(order) == keys - rest && k in rest && NoRepeats(order)
    ensures Elements(order + [k]) == keys - (rest - {k}) == Elements(order) + {k} && NoRepeats(order + [k])
  {
    assert k !in Elements(order);
    assert forall j :: j in order <==> j in Elements(order);
  }

  lemma NextPrefixes(order: seq<Key>, k: Key)
    ensures forall i :: 0 <= i < |order| ==> (order + [k])[..i] == order[..i]
    ensures (order + [k])[..|order|] == order
  {
  }

  lemma RationedStill(q0: Queue, before: seq<Key>, j: Key, result: Dispatch, left: nat, t0: int, k: Key,
                      entry: Option<Option<Peer>>)
    requires RationedAt(q0, before, j, result, left, t0) && k !in before && j != k
    ensures RationedAt(q0, before, j, WithEntry(result, k, entry), left, t0)
  {
    TakenBefore(before, k, result, entry);
  }

  lemma RationedNow(q0: Queue, order: seq<Key>, result: Dispatch, left: nat, t0: int, k: Key,
                    entry: Option<Option<Peer>>)
    requires result.Keys <= Elements(order) && k !in order && k !in result && k in q0
    requires (IsPeer(entry) ==> |result| < left) && (|result| < left && Overdue(q0[k], t0) ==> entry.Some?)
    ensures RationedAt(q0, order, k, WithEntry(result, k, entry), left, t0)
  {
    TakenBefore(order, k, result, entry);
    assert Elements(order) * result.Keys == result.Keys;
  }

  lemma TakenBefore(before: seq<Key>, k: Key, result: Dispatch, entry: Option<Option<Peer>>)
    requires k !in before
    ensures Elements(before) * WithEntry(result, k, entry).Keys == Elements(before) * result.Keys
  {
  }

  /** While the allowance is not used up, no overdue key is left out. */
  lemma OverdueServed(q0: Queue, result: Dispatch, left: nat, t0: int, k: Key)
    requires Rationed(q0, result, left, t0) && |result| < left && k in q0 && Overdue(q0[k], t0)
    ensures k in result
  {
    var order: seq<Key> :| order in Orders(q0, result, left, t0);
    assert k in Elements(order);
    var i :| 0 <= i < |order| && order[i] == k;
    assert RationedAt(q0, order[..i], order[i], result, left, t0);
    SubsetSize(Elements(order[..i]) * result.Keys, result.Keys);
  }

  /** As soon as the time of the peer being asked is over, the next one is asked: an overdue key that
      does not go to the network is returned with a peer in the same call. */
  lemma NextHolderAsked(q0: Queue, n0: nat, q1: Queue, result: Dispatch, t0: int, t1: int, k: Key)
    requires Timed(q0, n0, q1, result, t0, t1) && |result| < Allowance(n0)
    requires k in q0 && Overdue(q0[k], t0) && !RunsOut(q0[k], t1)
    ensures k in PeerKeys(result)
  {
    OverdueServed(q0, result, Allowance(n0), t0, k);
    assert k !in NetworkKeys(result);
  }

  /** While the allowance is not used up, no visited key for which nobody was being asked is left
      out of the result. */
  ghost predicate IdleServed(q0: Queue, rest: set<Key>, result: Dispatch, left: nat) {
    |result| < left ==> forall k :: k in q0 && k !in rest && Active(q0[k]) == {} ==> k in result
  }

  lemma IdleStep(q0: Queue, rest: set<Key>, result: Dispatch, left: nat, k: Key, entry: Option<Option<Peer>>)
    requires IdleServed(q0, rest, result, left) && k in q0 && k !in result
    requires |result| < left && Active(q0[k]) == {} ==> entry.Some?
    ensures IdleServed(q0, rest - {k}, WithEntry(result, k, entry), left)
  {
  }

  lemma NamesKept(q0: Queue, queue: Queue, result: Dispatch, t0: int, t1: int)
    requires q0.Keys == queue.Keys <= PassedKeys(q0, queue, result, t0, t1)
    ensures HolderNames(queue) == HolderNames(q0)
  {
    forall k | k in q0 ensures queue[k].Keys == q0[k].Keys {
      assert k in PassedKeys(q0, queue, result, t0, t1);
    }
  }

  /** Whether a key goes to the network, in terms of its holders before the call. */
  lemma NetworkKeyExact(q0: Queue, queue: Queue, result: Dispatch, k: Key, t0: int, t1: int)
    requires k in PassedKeys(q0, queue, result, t0, t1) && Passable(q0[k]) && !GiveUp(q0[k])
    ensures k in NetworkKeys(result) ==> RunsOut(q0[k], t1)
    ensures RunsOut(q0[k], t0) ==> k in NetworkKeys(result)
  {
    GiveUpExact(q0[k], queue[k], EntryOf(result, k), t0, t1);
  }

  /** A key is handed to the network if its peers run out at t0, and only if they do at t1. */
  ghost predicate NetworkExact(q0: Queue, result: Dispatch, t0: int, t1: int) {
    && (forall k :: k in NetworkKeys(result) ==> k in q0 && RunsOut(q0[k], t1))
    && (forall k :: k in q0 && RunsOut(q0[k], t0) ==> k in NetworkKeys(result))
  }

  lemma NetworkKeysExact(q0: Queue, queue: Queue, result: Dispatch, t0: int, t1: int)
    requires q0.Keys == queue.Keys <= PassedKeys(q0, queue, result, t0, t1)
    requires result.Keys <= q0.Keys && GivenUp(q0) == {}
    requires forall k :: k in q0 ==> Passable(q0[k])
    ensures NetworkExact(q0, result, t0, t1)
  {
    forall k | k in q0
      ensures k in NetworkKeys(result) ==> RunsOut(q0[k], t1)
      ensures RunsOut(q0[k], t0) ==> k in NetworkKeys(result)
    {
      assert k in PassedKeys(q0, queue, result, t0, t1) && k !in GivenUp(q0);
      NetworkKeyExact(q0, queue, result, k, t0, t1);
    }
  }

  ghost function Histories(was: History, result: Dispatch): History {
    map k | k in was && k !in NetworkKeys(result) :: Extended(was[k], Lookup(result, k))
  }

  /** What a call returns and leaves: fetches within the allowance; idle keys served while it is not
      used up; exactly the keys handed to the network gone, with no other holder forgotten; and the
      count of fetches. */
  ghost predicate Outcome(q0: Queue, n0: nat, q1: Queue, n1: nat, result: Dispatch) {
    && n0 + |PeerKeys(result)| <= MAX_PARALLEL_FETCH && result.Keys <= q0.Keys
    && IdleServed(q0, {}, result, MAX_PARALLEL_FETCH - n0)
    && HolderNames(q1) == HolderNames(q0) - NetworkKeys(result)
    && Counted(q0, q1, n0, n1, result) && BusyKeys(q1) <= BusyKeys(q0) + PeerKeys(result)
    && (StalledAt(q1, n1) ==> StalledAt(q0, n0)) && Paced(q0, n0, q1, n1, result)
  }

  /** All fetches are taken, yet nobody is being asked for anything. */
  ghost predicate StalledAt(queue: Queue, n: nat) {
    n == MAX_PARALLEL_FETCH && BusyKeys(queue) == {}
  }

  lemma OutcomeDone(q0: Queue, n0: nat, queue: Queue, n1: nat, result: Dispatch, t0: int, t1: int)
    requires Underway(q0, n0, queue, n1, {}, result, t0, t1) && HolderNames(queue) == HolderNames(q0)
    ensures Outcome(q0, n0, queue - NetworkKeys(result), n1, result)
  {
    NamesDropped(queue, NetworkKeys(result));
    BusyBound(q0, queue, result, t0, t1);
    LivelyDone(q0, n0, queue, n1, result);
    CountedDone(q0, n0, queue, n1, result);
    PacedDone(q0, n0, queue, n1, result);
  }

  /** Nobody is asked for a key for which nobody was, unless the key is returned with a peer. */
  lemma BusyBound(q0: Queue, queue: Queue, result: Dispatch, t0: int, t1: int)
    requires Progress(q0, queue, {}, result, t0, t1)
    ensures BusyKeys(queue - NetworkKeys(result)) <= BusyKeys(q0) + PeerKeys(result)
  {
    BusyDropped(queue, NetworkKeys(result));
    forall k | k in BusyKeys(queue) && k !in NetworkKeys(result) && k !in PeerKeys(result) ensures k in BusyKeys(q0) {
      assert k in PassedKeys(q0, queue, result, t0, t1);
      var p :| p in Active(queue[k]);
      assert p in Active(q0[k]);
    }
  }

  /** A call when nobody is being asked counts exactly what it returns, leaves out nothing unless
      the allowance is used up, and without allowance does nothing. */
  lemma IdleOutcome(q0: Queue, n0: nat, q1: Queue, n1: nat, result: Dispatch)
    requires Outcome(q0, n0, q1, n1, result) && BusyKeys(q0) == {}
    ensures n1 == n0 + |result| && (n1 < MAX_PARALLEL_FETCH ==> q1.Keys <= result.Keys)
    ensures n0 == MAX_PARALLEL_FETCH ==> n1 == n0 && q1 == q0 && result == map[]
  {
    assert q1.Keys == HolderNames(q1).Keys && q0.Keys == HolderNames(q0).Keys;
    forall k | k in q1 && n1 < MAX_PARALLEL_FETCH ensures k in result {
      assert k in q0 && k !in BusyKeys(q0);
    }
  }

  /** A call neither stalls nor revives the fetcher, and a stalled one returns nothing. */
  lemma StallKept(q0: Queue, n0: nat, q1: Queue, n1: nat, result: Dispatch)
    requires Outcome(q0, n0, q1, n1, result)
    ensures StalledAt(q1, n1) <==> StalledAt(q0, n0)
    ensures StalledAt(q0, n0) ==> result == map[]
  {
    if StalledAt(q0, n0) { IdleOutcome(q0, n0, q1, n1, result); }
  }

  /** What a call that first drops the stored keys and learns of the wanted ones comes to. */
  lemma AfterLearning(q: Queue, q0: Queue, n0: nat, q1: Queue, n1: nat, result: Dispatch,
                      wanted: set<Key>, stored: set<Key>)
    requires Outcome(q0, n0, q1, n1, result)
    requires BusyKeys(q0) == BusyKeys(q) - stored && wanted <= q0.Keys
    ensures n0 < MAX_PARALLEL_FETCH && !(wanted <= q.Keys) ==> result != map[]
    ensures BusyKeys(q) <= stored ==> n1 == n0 + |result| && (n1 < MAX_PARALLEL_FETCH ==> q1.Keys <= result.Keys)
    ensures StalledAt(q1, n1) <==> n0 == MAX_PARALLEL_FETCH && BusyKeys(q) <= stored
    ensures StalledAt(q1, n1) ==> result == map[]
    ensures |BusyKeys(q1)| + n0 <= n1 + |BusyKeys(q)| + |NetworkKeys(result)|
  {
    StallKept(q0, n0, q1, n1, result);
    CallPace(q0, n0, q1, n1, result);
    SubsetSize(BusyKeys(q0), BusyKeys(q));
    NothingLeft(BusyKeys(q), stored);
    NothingLeft(wanted, q.Keys);
    if BusyKeys(q0) == {} { IdleOutcome(q0, n0, q1, n1, result); }
    NewKeysServed(q0, n0, q1, n1, result, wanted - q.Keys);
  }

  lemma CallPace(q0: Queue, n0: nat, q1: Queue, n1: nat, result: Dispatch)
    requires Outcome(q0, n0, q1, n1, result)
    ensures |BusyKeys(q1)| + n0 <= n1 + |BusyKeys(q0)| + |NetworkKeys(result)|
  {
    CallKeeps(q0, n0, q1, n1, result);
    LostAreNotBusy(q1, NetworkKeys(result));
  }

  lemma LostAreNotBusy(queue: Queue, lost: set<Key>)
    requires queue.Keys !! lost
    ensures BusyKeys(queue) - lost == BusyKeys(queue)
  {
  }

  lemma DropPace(q: Queue, n: nat, k: Key, n0: nat, q1: Queue, n1: nat, result: Dispatch)
    requires Outcome(q - {k}, n0, q1, n1, result) && n0 == if k in BusyKeys(q) then Less(n) else n
    ensures |BusyKeys(q1)| + n <= n1 + |BusyKeys(q)| + |NetworkKeys(result)|
  {
    CallPace(q - {k}, n0, q1, n1, result);
    BusyDropped(q, {k});
    MaybeOneMore(BusyKeys(q) - {k}, BusyKeys(q), k);
  }

  lemma NewKeysServed(q0: Queue, n0: nat, q1: Queue, n1: nat, result: Dispatch, news: set<Key>)
    requires Outcome(q0, n0, q1, n1, result) && news <= q0.Keys - BusyKeys(q0)
    ensures n0 < MAX_PARALLEL_FETCH && news != {} ==> result != map[]
  {
    if n0 < MAX_PARALLEL_FETCH && news != {} {
      var k :| k in news;
      assert k in q0 && k !in BusyKeys(q0);
    }
  }

  function Allowance(n: nat): nat {
    if n < MAX_PARALLEL_FETCH then MAX_PARALLEL_FETCH - n else 0
  }

  /** Everything a call between t0 and t1 promises in terms of times: who goes to the network, who stays
      asked for, and who is returned. */
  ghost predicate Timed(q0: Queue, n0: nat, q1: Queue, result: Dispatch, t0: int, t1: int) {
    && NetworkExact(q0, result, t0, t1) && Clocked(q0, q1, result, t0, t1)
    && Rationed(q0, result, Allowance(n0), t0)
  }

  /** The keys for which somebody is being asked since a time between a and b. */
  ghost function AskedWithin(queue: Queue, a: int, b: int): set<Key> {
    set k | k in queue && Active(queue[k]) != {} && StampsWithin(queue[k], a, b)
  }

  ghost predicate StampsWithin(hs: Holders, a: int, b: int) {
    forall p :: p in Active(hs) ==> a <= hs[p].sentAt <= b
  }

  /** What a call between t0 and t1 does to the times: a key returned with a peer is asked for since
      then, and a key whose time is not over stays asked for as it was and is not returned. */
  ghost predicate Clocked(q0: Queue, q1: Queue, result: Dispatch, t0: int, t1: int) {
    && PeerKeys(result) <= AskedWithin(q1, t0, t1)
    && forall a, b :: t1 <= a + FETCH_TIMEOUT ==> AskedWithin(q0, a, b) <= AskedWithin(q1, a, b) - result.Keys
  }

  lemma KeyKept(before: Holders, after: Holders, entry: Option<Option<Peer>>, t0: int, t1: int, a: int, b: int)
    requires Visited(before, after, entry, t0, t1) && Passable(before) && !GiveUp(before)
    requires Active(before) != {} && StampsWithin(before, a, b) && t1 <= a + FETCH_TIMEOUT
    ensures entry.None? && Active(after) != {} && StampsWithin(after, a, b)
  {
    var p :| p in Active(before);
    assert Active(before) == {p} && p !in Failed(after);
    assert Failed(after) == Failed(before);
    assert |after| == |before| by { assert after.Keys == before.Keys; }
    assert p in Active(after);
  }

  lemma StampedKey(q0: Queue, queue: Queue, result: Dispatch, k: Key, t0: int, t1: int)
    requires k in PassedKeys(q0, queue, result, t0, t1) && k in PeerKeys(result)
    ensures k in AskedWithin(queue, t0, t1)
  {
    PeerIsAsked(q0[k], queue[k], EntryOf(result, k), t0, t1);
  }

  lemma KeptKey(q0: Queue, queue: Queue, result: Dispatch, k: Key, t0: int, t1: int, a: int, b: int)
    requires k in PassedKeys(q0, queue, result, t0, t1) && Passable(q0[k]) && !GiveUp(q0[k])
    requires k in AskedWithin(q0, a, b) && t1 <= a + FETCH_TIMEOUT
    ensures k in AskedWithin(queue, a, b) && k !in result
  {
    KeyKept(q0[k], queue[k], EntryOf(result, k), t0, t1, a, b);
  }

  lemma AskedDropped(queue: Queue, dropped: set<Key>, a: int, b: int)
    ensures AskedWithin(queue - dropped, a, b) == AskedWithin(queue, a, b) - dropped
  {
  }

  lemma KeptKeys(q0: Queue, queue: Queue, result: Dispatch, t0: int, t1: int, a: int, b: int)
    requires Progress(q0, queue, {}, result, t0, t1) && GivenUp(q0) == {} && forall k :: k in q0 ==> Passable(q0[k])
    requires t1 <= a + FETCH_TIMEOUT
    ensures AskedWithin(q0, a, b) <= AskedWithin(queue - NetworkKeys(result), a, b) - result.Keys
  {
    AskedDropped(queue, NetworkKeys(result), a, b);
    forall k | k in AskedWithin(q0, a, b) ensures k in AskedWithin(queue, a, b) && k !in result {
      assert k in PassedKeys(q0, queue, result, t0, t1) && k !in GivenUp(q0);
      KeptKey(q0, queue, result, k, t0, t1, a, b);
    }
  }

  lemma ClockedDone(q0: Queue, queue: Queue, result: Dispatch, t0: int, t1: int)
    requires Progress(q0, queue, {}, result, t0, t1) && GivenUp(q0) == {} && forall k :: k in q0 ==> Passable(q0[k])
    ensures Clocked(q0, queue - NetworkKeys(result), result, t0, t1)
  {
    AskedDropped(queue, NetworkKeys(result), t0, t1);
    forall k | k in PeerKeys(result) ensures k in AskedWithin(queue, t0, t1) {
      assert k in PassedKeys(q0, queue, result, t0, t1);
      StampedKey(q0, queue, result, k, t0, t1);
    }
    forall a, b | t1 <= a + FETCH_TIMEOUT
      ensures AskedWithin(q0, a, b) <= AskedWithin(queue - NetworkKeys(result), a, b) - result.Keys
    {
      KeptKeys(q0, queue, result, t0, t1, a, b);
    }
  }

  /** After the loop: what dropping the keys handed to the network leaves. */
  lemma PassDone(q0: Queue, queue: Queue, was: History, result: Dispatch, t0: int, t1: int)
    requires Progress(q0, queue, {}, result, t0, t1)
    requires Consistent(q0, was) && forall k :: k in q0 ==> Passable(q0[k])
    ensures Consistent(queue - NetworkKeys(result), Histories(was, result))
    ensures Dispatched(was, Histories(was, result), result)
    ensures HolderNames(queue) == HolderNames(q0) && Clocked(q0, queue - NetworkKeys(result), result, t0, t1)
    ensures NetworkExact(q0, result, t0, t1)
  {
    assert queue.Keys - {} == queue.Keys;
    ClockedDone(q0, queue, result, t0, t1);
    Settle(q0, queue, was, result, t0, t1);
    SettleHistories(q0, queue, was, result, t0, t1);
    NetworkKeysExact(q0, queue, result, t0, t1);
    NamesKept(q0, queue, result, t0, t1);
  }

  /** After the loop, dropping the keys handed to the network leaves a valid state. */
  lemma Settle(q0: Queue, queue: Queue, was: History, result: Dispatch, t0: int, t1: int)
    requires q0.Keys == queue.Keys <= PassedKeys(q0, queue, result, t0, t1)
    requires q0.Keys == was.Keys == TrackedKeys(q0, was)
    ensures Consistent(queue - NetworkKeys(result), Histories(was, result))
  {
    var q, now := queue - NetworkKeys(result), Histories(was, result);
    assert now.Keys == q.Keys;
    forall k | k in q ensures k in TrackedKeys(q, now) && k !in GivenUp(q) {
      SettleKey(q0, queue, was, result, k, t0, t1);
    }
  }

  lemma SettleHistories(q0: Queue, queue: Queue, was: History, result: Dispatch, t0: int, t1: int)
    requires result.Keys <= was.Keys == TrackedKeys(q0, was) && was.Keys <= PassedKeys(q0, queue, result, t0, t1)
    ensures Dispatched(was, Histories(was, result), result)
  {
    var now := Histories(was, result);
    assert now.Keys == was.Keys - NetworkKeys(result);
    forall k | k in now ensures k in DispatchedKeys(was, now, result) {
      SettleHistory(q0, queue, was, result, k, t0, t1);
    }
  }

  lemma SettleHistory(q0: Queue, queue: Queue, was: History, result: Dispatch,
                      k: Key, t0: int, t1: int)
    requires k in PassedKeys(q0, queue, result, t0, t1) && k in TrackedKeys(q0, was) && k !in NetworkKeys(result)
    ensures k in DispatchedKeys(was, Histories(was, result), result)
  {
    SettleKey(q0, queue, was, result, k, t0, t1);
  }

  lemma SettleKey(q0: Queue, queue: Queue, was: History, result: Dispatch,
                  k: Key, t0: int, t1: int)
    requires k in PassedKeys(q0, queue, result, t0, t1) && k in TrackedKeys(q0, was) && k !in NetworkKeys(result)
    ensures Tracked(queue[k], Extended(was[k], Lookup(result, k))) && !GiveUp(queue[k])
    ensures KeyDispatched(was[k], Extended(was[k], Lookup(result, k)), result, k)
  {
    PassKeepsTracked(q0[k], queue[k], Lookup(result, k), was[k]);
  }

  /** What a call did to the history of one key that is still queued. */
  ghost predicate KeyDispatched(was: seq<Peer>, now: seq<Peer>, result: Dispatch, k: Key) {
    if k in result then result[k].Some? && result[k].value !in was && now == was + [result[k].value] else now == was
  }

  ghost function DispatchedKeys(was: History, now: History, result: Dispatch): set<Key> {
    set k | k in was && k in now && KeyDispatched(was[k], now[k], result, k)
  }

  /** What a call did to the history of all keys: a key returned without a peer is no longer queued;
      a key returned with a peer is still queued and that peer is new; nothing else changed. */
  ghost predicate Dispatched(was: History, now: History, result: Dispatch) {
    && result.Keys <= was.Keys
    && now.Keys == was.Keys - NetworkKeys(result)
    && now.Keys <= DispatchedKeys(was, now, result)
  }
}
