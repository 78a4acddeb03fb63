/** Replication triggered by a peer joining or leaving: the plan of who is told about which record,
    and the requests that carry it. */
module Replication {
  import opened Common
  import opened Nearest
  import opened CloseGroup

  /** The records to tell each peer about. */
  type Plan = map<Peer, seq<Address>>

  const MAX_REPLICATION_KEYS_PER_REQUEST: nat := 500

  ghost predicate Planned(plan: Plan, p: Peer, a: Address) {
    p in plan && a in plan[p]
  }

  function Targets(view: set<Peer>, records: set<Address>, dist: Metric, x: Peer, isRemoval: bool)
    : map<Address, Option<Peer>>
    requires IsMetric(dist)
  {
    map a | a in records :: ReplicationTarget(view, dist(a), x, isRemoval)
  }

  /** Each of the given records is planned for its target, once, and for nobody else. */
  ghost predicate PlanFor(plan: Plan, records: set<Address>, targets: map<Address, Option<Peer>>) {
    && (forall p: Peer, a: Address :: Planned(plan, p, a) <==> a in records && a in targets && targets[a] == Some(p))
    && (forall p :: p in plan ==> plan[p] != [] && NoRepeats(plan[p]))
  }

  /** The loop over the records, in any order. */
  method SortByTarget(records: set<Address>, targets: map<Address, Option<Peer>>) returns (plan: Plan)
    requires targets.Keys == records
    ensures PlanFor(plan, records, targets)
  {
    plan := map[];
    var rest := records;
    while rest != {}
      invariant rest <= records
      invariant PlanFor(plan, records - rest, targets)
      decreases |rest|
    {
      var a :| a in rest;
      AddToPlan(plan, records - rest, targets, a);
      if targets[a].Some? {
        plan := plan[targets[a].value := Keys(plan, targets[a].value) + [a]];
      }
      assert records - (rest - {a}) == (records - rest) + {a};
      rest := rest - {a};
    }
    assert records - rest == records;
  }

  /** Plans every record for its target; a small view plans nothing. */
  method PlanReplication(view: set<Peer>, records: set<Address>, dist: Metric, x: Peer, isRemoval: bool)
    returns (plan: Plan)
    requires IsMetric(dist)
    ensures |view| < K_VALUE ==> plan == map[]
    ensures |view| >= K_VALUE ==> PlanFor(plan, records, Targets(view, records, dist, x, isRemoval))
  {
    plan := map[];
    if |view| >= K_VALUE {
      plan := SortByTarget(records, Targets(view, records, dist, x, isRemoval));
    }
  }

  function Keys(plan: Plan, p: Peer): seq<Address> {
    if p in plan then plan[p] else []
  }

  lemma AddToPlan(plan: Plan, done: set<Address>, targets: map<Address, Option<Peer>>, a: Address)
    requires a !in done && a in targets && PlanFor(plan, done, targets)
    ensures match targets[a]
      case None => PlanFor(plan, done + {a}, targets)
      case Some(p) => PlanFor(plan[p := Keys(plan, p) + [a]], done + {a}, targets)
  {
    if targets[a].Some? {
      var p := targets[a].value;
      var plan' := plan[p := Keys(plan, p) + [a]];
      assert !Planned(plan, p, a);
      forall q: Peer, b: Address ensures Planned(plan', q, b) <==> Planned(plan, q, b) || (q == p && b == a) {
      }
      forall q | q in plan' ensures plan'[q] != [] && NoRepeats(plan'[q]) {
        if q == p && p in plan {
          assert a !in plan[p] && NoRepeats(plan[p]);
        }
      }
    }
  }

  /** On a departure exactly the records whose close group changes are planned, each for the one
      peer that is new in its group. */
  lemma DeparturePlan(plan: Plan, records: set<Address>, view: set<Peer>, dist: Metric, x: Peer, a: Address)
    requires IsMetric(dist) && |view| >= K_VALUE && x !in view && a in records
    requires PlanFor(plan, records, Targets(view, records, dist, x, true))
    ensures var before, after := GroupOf(view + {x}, dist(a)), GroupOf(view, dist(a));
      && ((exists p: Peer :: Planned(plan, p, a)) <==> after != before)
      && forall p: Peer :: Planned(plan, p, a) ==> after - before == {p}
  {
    DepartureTarget(view, dist(a), x);
    var target := ReplicationTarget(view, dist(a), x, true);
    if target.Some? {
      assert Planned(plan, target.value, a);
    }
  }

  /** On an arrival exactly the records with x in their close group are planned, all for x. */
  lemma ArrivalPlan(plan: Plan, records: set<Address>, view: set<Peer>, dist: Metric, x: Peer, a: Address)
    requires IsMetric(dist) && |view| >= K_VALUE && x in view && a in records
    requires PlanFor(plan, records, Targets(view, records, dist, x, false))
    ensures forall p: Peer :: Planned(plan, p, a) <==> p == x && x in GroupOf(view, dist(a))
  {
    ArrivalTarget(view, dist(a), x);
  }

  /** Whoever the sender plans to tell accepts the record, so long as its own view has at most two
      nearer peers that the sender's lacks. */
  lemma PlannedPeerAccepts(plan: Plan, records: set<Address>, view: set<Peer>, dist: Metric, x: Peer,
                           isRemoval: bool, a: Address, p: Peer, receiver: set<Peer>)
    requires IsMetric(dist) && |view| >= K_VALUE && (x in view <==> !isRemoval)
    requires PlanFor(plan, records, Targets(view, records, dist, x, isRemoval)) && Planned(plan, p, a)
    requires p in receiver && |Closer(receiver, dist(a), p) - view| <= 2
    ensures IsInCloseRange(p, dist(a), receiver)
  {
    assert a in records;
    if isRemoval {
      DeparturePlan(plan, records, view, dist, x, a);
      var before, after := GroupOf(view + {x}, dist(a)), GroupOf(view, dist(a));
      assert p in after - before;
    } else {
      ArrivalPlan(plan, records, view, dist, x, a);
    }
    ReceiverAccepts(view, receiver, p, dist(a));
  }

  // ---------- Requests ----------

  function Concat(batches: seq<seq<Address>>): seq<Address> {
    if batches == [] then [] else Concat(batches[..|batches| - 1]) + batches[|batches| - 1]
  }

  lemma ConcatAppend(batches: seq<seq<Address>>, b: seq<Address>)
    ensures Concat(batches + [b]) == Concat(batches) + b
  {
  }

  /** Cuts the keys for one peer into requests: nothing lost, repeated or reordered, none empty or
      over the limit, and every request but the last is full. */
  method CutIntoRequests(keys: seq<Address>) returns (batches: seq<seq<Address>>)
    requires keys != []
    ensures Concat(batches) == keys
    ensures forall i :: 0 <= i < |batches| ==> 1 <= |batches[i]| <= MAX_REPLICATION_KEYS_PER_REQUEST
    ensures forall i :: 0 <= i < |batches| - 1 ==> |batches[i]| == MAX_REPLICATION_KEYS_PER_REQUEST
  {
    batches := [];
    var remaining := keys;
    while |remaining| > MAX_REPLICATION_KEYS_PER_REQUEST
      invariant remaining != [] && Concat(batches) + remaining == keys
      invariant forall i :: 0 <= i < |batches| ==> |batches[i]| == MAX_REPLICATION_KEYS_PER_REQUEST
    {
      var left, right := remaining[..MAX_REPLICATION_KEYS_PER_REQUEST], remaining[MAX_REPLICATION_KEYS_PER_REQUEST..];
      ConcatAppend(batches, left);
      assert remaining == left + right;
      batches := batches + [left];
      remaining := right;
    }
    ConcatAppend(batches, remaining);
    batches := batches + [remaining];
  }
}
