/** Spend records: aggregation of signed spends and the node's validate-and-store step. */
module Spends {
  import opened Common
  import opened Nearest

  type DbcId = nat

  datatype SignedSpend = SignedSpend(dbcId: DbcId, body: nat)

  /** The derived order of signed spends and the outcome of verifying a signature. */
  datatype Rules = Rules(order: SignedSpend -> int, verifies: SignedSpend -> bool)

  function Authentic(spends: set<SignedSpend>, id: DbcId, rules: Rules): set<SignedSpend> {
    set s | s in spends && s.dbcId == id && rules.verifies(s)
  }

  /** Collects the spends into a set, keeps the valid ones of the given dbc, sorts, takes two. */
  function AggregateSpends(spends: seq<SignedSpend>, id: DbcId, rules: Rules): seq<SignedSpend>
    requires Injective(rules.order)
  {
    Take(Authentic(Elements(spends), id, rules), rules.order, 2)
  }

  /** The record is the ascending list of the two least of those spends of the dbc that verify, whatever
      list they came in. */
  lemma AggregateMembers(spends: seq<SignedSpend>, id: DbcId, rules: Rules)
    requires Injective(rules.order)
    ensures var agg := AggregateSpends(spends, id, rules);
      var valid := set s | s in spends && s.dbcId == id && rules.verifies(s);
      && valid == Authentic(Elements(spends), id, rules) && Elements(agg) == Closest(valid, rules.order, 2)
      && Ascending(agg, rules.order)
  {
    TakeIsClosest(Authentic(Elements(spends), id, rules), rules.order, 2);
  }

  /** The aggregate depends only on which spends were seen. */
  lemma AggregateOfSameMembers(s: seq<SignedSpend>, t: seq<SignedSpend>, id: DbcId, rules: Rules)
    requires Injective(rules.order) && Elements(s) == Elements(t)
    ensures AggregateSpends(s, id, rules) == AggregateSpends(t, id, rules)
  {
  }

  /** Aggregation is a join: aggregating two aggregates equals aggregating all the spends. */
  lemma AggregateIsJoin(s: seq<SignedSpend>, t: seq<SignedSpend>, id: DbcId, rules: Rules)
    requires Injective(rules.order)
    ensures AggregateSpends(s + t, id, rules) ==
            AggregateSpends(AggregateSpends(s, id, rules) + AggregateSpends(t, id, rules), id, rules)
  {
    var a, b := AggregateSpends(s, id, rules), AggregateSpends(t, id, rules);
    var u, v := Authentic(Elements(s), id, rules), Authentic(Elements(t), id, rules);
    AggregateMembers(s, id, rules);
    AggregateMembers(t, id, rules);
    AggregateMembers(s + t, id, rules);
    AggregateMembers(a + b, id, rules);
    assert Authentic(Elements(s + t), id, rules) == u + v;
    assert Authentic(Elements(a + b), id, rules) == Closest(u, rules.order, 2) + Closest(v, rules.order, 2);
    ClosestJoin(u, v, rules.order, 2);
    SameAscending(AggregateSpends(s + t, id, rules), AggregateSpends(a + b, id, rules), rules);
  }

  lemma SameAscending(a: seq<SignedSpend>, b: seq<SignedSpend>, rules: Rules)
    requires Ascending(a, rules.order) && Ascending(b, rules.order) && Elements(a) == Elements(b)
    ensures a == b
  {
    forall x ensures x in a <==> x in b {
      assert x in Elements(a) <==> x in Elements(b);
    }
    AscendingUnique(a, b, rules.order);
  }

  /** Aggregating an aggregate changes nothing. */
  lemma AggregateIdempotent(s: seq<SignedSpend>, id: DbcId, rules: Rules)
    requires Injective(rules.order)
    ensures AggregateSpends(AggregateSpends(s, id, rules), id, rules) == AggregateSpends(s, id, rules)
  {
    var a, u := AggregateSpends(s, id, rules), Authentic(Elements(s), id, rules);
    AggregateMembers(s, id, rules);
    AggregateMembers(a, id, rules);
    assert Authentic(Elements(a), id, rules) == Closest(u, rules.order, 2);
    ClosestIdempotent(u, rules.order, 2);
    SameAscending(AggregateSpends(a, id, rules), a, rules);
  }

  // ---------- Validate and store ----------

  /** What the node learns from others while validating a first, single spend. */
  datatype Lookups = Lookups(feeIdValid: bool, parentsValid: bool, fromNetwork: Option<SignedSpend>)

  /** A list of spends, with what the node learns while validating it. */
  type Arrival = (seq<SignedSpend>, Lookups)

  datatype Failure =
    | SpendNotStored
    | SpendSignatureInvalid
    | FeeOutputInvalid
    | SpendParentTxInvalid
    | DoubleSpendAttempt(one: SignedSpend, two: SignedSpend)

  function NewlySeen(incoming: seq<SignedSpend>, local: seq<SignedSpend>): set<SignedSpend> {
    set s | s in incoming && s !in local
  }

  /** The spend that the network already has, if any. */
  function Found(lookups: Lookups): seq<SignedSpend> {
    if lookups.fromNetwork.Some? then [lookups.fromNetwork.value] else []
  }

  /** The spends to validate: those held and the new ones, or all that came in. */
  function Candidates(incoming: seq<SignedSpend>, local: Option<seq<SignedSpend>>, rules: Rules): seq<SignedSpend>
    requires Injective(rules.order)
  {
    if local.Some? then local.value + Sort(NewlySeen(incoming, local.value), rules.order) else incoming
  }

  /** Some(spends) when a record has to be stored, None when nothing new was received. */
  function SignedSpendValidation(incoming: seq<SignedSpend>, id: DbcId, local: Option<seq<SignedSpend>>,
                                 lookups: Lookups, rules: Rules): Result<Option<seq<SignedSpend>>, Failure>
    requires Injective(rules.order)
  {
    if local.Some? && NewlySeen(incoming, local.value) == {} then Ok(None)
    else
      var spends := Candidates(incoming, local, rules);
      if |spends| == 0 then Err(SpendNotStored)
      else if |spends| == 1 then
        if !rules.verifies(spends[0]) then Err(SpendSignatureInvalid)
        else if !lookups.feeIdValid then Err(FeeOutputInvalid)
        else if !lookups.parentsValid then Err(SpendParentTxInvalid)
        else
          Ok(Some(AggregateSpends(Found(lookups) + spends, id, rules)))
      else Ok(Some(AggregateSpends(spends, id, rules)))
  }

  predicate SameDbc(incoming: seq<SignedSpend>, id: DbcId) {
    incoming != [] && forall s :: s in incoming ==> s.dbcId == id
  }

  method AllOfOneDbc(incoming: seq<SignedSpend>) returns (same: bool)
    requires incoming != []
    ensures same <==> SameDbc(incoming, incoming[0].dbcId)
  {
    for i := 1 to |incoming|
      invariant forall j :: 0 <= j < i ==> incoming[j].dbcId == incoming[0].dbcId
    {
      if incoming[i].dbcId != incoming[0].dbcId {
        assert incoming[i] in incoming;
        return false;
      }
    }
    same := true;
  }

  function Held(records: map<DbcId, seq<SignedSpend>>, id: DbcId): Option<seq<SignedSpend>> {
    if id in records then Some(records[id]) else None
  }

  class SpendNode {
    var records: map<DbcId, seq<SignedSpend>>

    /** Checks the ids, validates against the local copy and overwrites the record.  A stored
        double spend is still reported to the sender. */
    method ValidateAndStoreSpends(incoming: seq<SignedSpend>, lookups: Lookups, rules: Rules)
      returns (r: Result<bool, Failure>)
      requires Injective(rules.order)
      modifies this
      ensures incoming == [] || !SameDbc(incoming, incoming[0].dbcId) ==> r == Err(SpendNotStored) && unchanged(this)
      ensures incoming != [] && SameDbc(incoming, incoming[0].dbcId) ==>
        var id := incoming[0].dbcId;
        match SignedSpendValidation(incoming, id, Held(old(records), id), lookups, rules)
        case Err(e) => r == Err(e) && unchanged(this)
        case Ok(None) => r == Ok(false) && unchanged(this)
        case Ok(Some(spends)) =>
          && records == old(records)[id := spends]
          && r == if |spends| > 1 then Err(DoubleSpendAttempt(spends[0], spends[1])) else Ok(true)
      ensures forall id :: Held(records, id) == StepFrom(Held(old(records), id), incoming, id, lookups, rules)
    {
      if incoming == [] {
        return Err(SpendNotStored);
      }
      var id := incoming[0].dbcId;
      var same := AllOfOneDbc(incoming);
      if !same {
        return Err(SpendNotStored);
      }
      var validated := SignedSpendValidation(incoming, id, Held(records, id), lookups, rules);
      if validated.Err? {
        return Err(validated.error);
      }
      if validated.value.None? {
        return Ok(false);
      }
      var spends := validated.value.value;
      records := records[id := spends];
      if |spends| > 1 {
        return Err(DoubleSpendAttempt(spends[0], spends[1]));
      }
      r := Ok(true);
    }
  }

  // ---------- Runs ----------

  /** What is held of one dbc after one more list has arrived. */
  function StepFrom(record: Option<seq<SignedSpend>>, incoming: seq<SignedSpend>, id: DbcId, lookups: Lookups,
                    rules: Rules)
    : Option<seq<SignedSpend>>
    requires Injective(rules.order)
  {
    if !SameDbc(incoming, id) then record
    else
      match SignedSpendValidation(incoming, id, record, lookups, rules)
      case Ok(Some(spends)) => Some(spends)
      case _ => record
  }

  /** The record of one dbc after one more list has arrived. */
  function Step(record: seq<SignedSpend>, incoming: seq<SignedSpend>, id: DbcId, lookups: Lookups, rules: Rules)
    : seq<SignedSpend>
    requires Injective(rules.order)
  {
    StepFrom(Some(record), incoming, id, lookups, rules).value
  }

  function Run(record: seq<SignedSpend>, arrivals: seq<Arrival>, id: DbcId, rules: Rules): seq<SignedSpend>
    requires Injective(rules.order)
    decreases |arrivals|
  {
    if arrivals == [] then record
    else Run(Step(record, arrivals[0].0, id, arrivals[0].1, rules), arrivals[1..], id, rules)
  }

  /** What a list adds to the evidence about a dbc: nothing, unless it is a list of that dbc. */
  function Contribution(incoming: seq<SignedSpend>, id: DbcId): seq<SignedSpend> {
    if SameDbc(incoming, id) then incoming else []
  }

  /** All the spends of the arrivals that are lists of this dbc. */
  function Received(arrivals: seq<Arrival>, id: DbcId): seq<SignedSpend> {
    if arrivals == [] then []
    else Contribution(arrivals[0].0, id) + Received(arrivals[1..], id)
  }

  lemma ListingOfJoined(record: seq<SignedSpend>, incoming: seq<SignedSpend>, rules: Rules)
    requires Injective(rules.order)
    ensures Elements(record + Sort(NewlySeen(incoming, record), rules.order)) == Elements(record + incoming)
  {
    SortMembers(NewlySeen(incoming, record), rules.order);
  }

  lemma AggregateAbsorbs(seen: seq<SignedSpend>, incoming: seq<SignedSpend>, id: DbcId, rules: Rules)
    requires Injective(rules.order)
    ensures AggregateSpends(AggregateSpends(seen, id, rules) + incoming, id, rules) ==
            AggregateSpends(seen + incoming, id, rules)
  {
    AggregateIsJoin(AggregateSpends(seen, id, rules), incoming, id, rules);
    AggregateIdempotent(seen, id, rules);
    AggregateIsJoin(seen, incoming, id, rules);
  }

  /** What a store step does to a non-empty record: it aggregates the record with the arrival. */
  lemma StepAggregates(record: seq<SignedSpend>, incoming: seq<SignedSpend>, id: DbcId, lookups: Lookups, rules: Rules)
    requires Injective(rules.order) && SameDbc(incoming, id)
    requires record != [] && record == AggregateSpends(record, id, rules)
    ensures Step(record, incoming, id, lookups, rules) == AggregateSpends(record + incoming, id, rules)
  {
    var news := NewlySeen(incoming, record);
    var joined := record + Sort(news, rules.order);
    ListingOfJoined(record, incoming, rules);
    AggregateOfSameMembers(joined, record + incoming, id, rules);
    if news == {} {
      assert joined == record;
    } else {
      assert |joined| >= 2;
    }
  }

  /** What the node answers when it holds a record: that nothing is new exactly when every spend of the
      arrival is held, and otherwise the record with everything aggregated. */
  lemma HeldVerdict(record: seq<SignedSpend>, incoming: seq<SignedSpend>, id: DbcId, lookups: Lookups, rules: Rules)
    requires Injective(rules.order) && SameDbc(incoming, id)
    requires record != [] && record == AggregateSpends(record, id, rules)
    ensures SignedSpendValidation(incoming, id, Some(record), lookups, rules) ==
      if forall s :: s in incoming ==> s in record then Ok(None)
      else Ok(Some(AggregateSpends(record + incoming, id, rules)))
  {
    StepAggregates(record, incoming, id, lookups, rules);
    var news := NewlySeen(incoming, record);
    if s :| s in incoming && s !in record {
      assert s in news;
      assert |Candidates(incoming, Some(record), rules)| >= 2;
    } else {
      assert news == {};
    }
  }

  /** One store step on a non-empty aggregate is one join. */
  lemma StepIsJoin(seen: seq<SignedSpend>, incoming: seq<SignedSpend>, id: DbcId, lookups: Lookups, rules: Rules)
    requires Injective(rules.order) && AggregateSpends(seen, id, rules) != []
    ensures Step(AggregateSpends(seen, id, rules), incoming, id, lookups, rules) ==
            AggregateSpends(seen + Contribution(incoming, id), id, rules)
  {
    if SameDbc(incoming, id) {
      AggregateIdempotent(seen, id, rules);
      StepAggregates(AggregateSpends(seen, id, rules), incoming, id, lookups, rules);
      AggregateAbsorbs(seen, incoming, id, rules);
    } else {
      assert seen + [] == seen;
    }
  }

  /** Evidence only grows: seeing more never shortens the record. */
  lemma AggregateGrows(s: seq<SignedSpend>, t: seq<SignedSpend>, id: DbcId, rules: Rules)
    requires Injective(rules.order)
    ensures |AggregateSpends(s, id, rules)| <= |AggregateSpends(s + t, id, rules)|
  {
  }

  /** Over every run from a non-empty record, the node stores exactly the aggregate of everything
      it has ever received for the dbc. */
  lemma {:induction false} RunStoresAggregate(record: seq<SignedSpend>, seen: seq<SignedSpend>,
                                              arrivals: seq<Arrival>, id: DbcId, rules: Rules)
    requires Injective(rules.order)
    requires record == AggregateSpends(seen, id, rules) != []
    ensures Run(record, arrivals, id, rules) == AggregateSpends(seen + Received(arrivals, id), id, rules)
    decreases |arrivals|
  {
    if arrivals == [] {
      assert seen + [] == seen;
    } else {
      var next, seen' := AfterFirst(record, seen, arrivals, id, rules);
      RunStoresAggregate(next, seen', arrivals[1..], id, rules);
    }
  }

  lemma AfterFirst(record: seq<SignedSpend>, seen: seq<SignedSpend>, arrivals: seq<Arrival>, id: DbcId, rules: Rules)
    returns (next: seq<SignedSpend>, seen': seq<SignedSpend>)
    requires Injective(rules.order) && arrivals != []
    requires record == AggregateSpends(seen, id, rules) != []
    ensures next == AggregateSpends(seen', id, rules) != []
    ensures Run(record, arrivals, id, rules) == Run(next, arrivals[1..], id, rules)
    ensures seen' + Received(arrivals[1..], id) == seen + Received(arrivals, id)
  {
    var first := arrivals[0];
    next := Step(record, first.0, id, first.1, rules);
    seen' := seen + Contribution(first.0, id);
    assert next == AggregateSpends(seen', id, rules) != [] by {
      StepKeepsAggregate(record, seen, first.0, id, first.1, rules);
    }
    assert Run(record, arrivals, id, rules) == Run(next, arrivals[1..], id, rules);
    ReceivedFirst(seen, arrivals, id);
  }

  lemma StepKeepsAggregate(record: seq<SignedSpend>, seen: seq<SignedSpend>, incoming: seq<SignedSpend>, id: DbcId,
                           lookups: Lookups, rules: Rules)
    requires Injective(rules.order)
    requires record == AggregateSpends(seen, id, rules) != []
    ensures Step(record, incoming, id, lookups, rules) ==
            AggregateSpends(seen + Contribution(incoming, id), id, rules) != []
  {
    StepIsJoin(seen, incoming, id, lookups, rules);
    AggregateGrows(seen, Contribution(incoming, id), id, rules);
  }

  lemma {:induction false} ReceivedFirst(seen: seq<SignedSpend>, arrivals: seq<Arrival>, id: DbcId)
    requires arrivals != []
    ensures seen + Contribution(arrivals[0].0, id) + Received(arrivals[1..], id) == seen + Received(arrivals, id)
  {
    Associative(seen, Contribution(arrivals[0].0, id), Received(arrivals[1..], id));
  }

  /** Two nodes that start from the same evidence and receive the same spends, in any order and any
      grouping, end with identical records. */
  lemma RunsConverge(seen: seq<SignedSpend>, one: seq<Arrival>, two: seq<Arrival>,
                     id: DbcId, rules: Rules)
    requires Injective(rules.order) && AggregateSpends(seen, id, rules) != []
    requires Elements(Received(one, id)) == Elements(Received(two, id))
    ensures var first := AggregateSpends(seen, id, rules);
      Run(first, one, id, rules) == Run(first, two, id, rules)
  {
    RunStoresAggregate(AggregateSpends(seen, id, rules), seen, one, id, rules);
    RunStoresAggregate(AggregateSpends(seen, id, rules), seen, two, id, rules);
    var s, t := seen + Received(one, id), seen + Received(two, id);
    forall x ensures x in s <==> x in t {
      assert x in Elements(Received(one, id)) <==> x in Elements(Received(two, id));
    }
    assert Elements(s) == Elements(t);
    AggregateOfSameMembers(s, t, id, rules);
  }

  /** Once two different authentic spends of the dbc have been received, every later record shows
      two of them. */
  lemma DoubleSpendNeverLost(seen: seq<SignedSpend>, arrivals: seq<Arrival>, id: DbcId, rules: Rules,
                             a: SignedSpend, b: SignedSpend)
    requires Injective(rules.order) && AggregateSpends(seen, id, rules) != []
    requires a != b && {a, b} <= Authentic(Elements(seen + Received(arrivals, id)), id, rules)
    ensures var record := Run(AggregateSpends(seen, id, rules), arrivals, id, rules);
      && |record| == 2 && record[0] != record[1]
      && {record[0], record[1]} <= Authentic(Elements(seen + Received(arrivals, id)), id, rules)
  {
    var all := seen + Received(arrivals, id);
    RunStoresAggregate(AggregateSpends(seen, id, rules), seen, arrivals, id, rules);
    SubsetSize({a, b}, Authentic(Elements(all), id, rules));
    AggregateMembers(all, id, rules);
    var record := AggregateSpends(all, id, rules);
    assert record[0] in Elements(record) && record[1] in Elements(record);
  }

  // ---------- Runs from no record ----------

  function RunFrom(record: Option<seq<SignedSpend>>, arrivals: seq<Arrival>, id: DbcId, rules: Rules)
    : Option<seq<SignedSpend>>
    requires Injective(rules.order)
    decreases |arrivals|
  {
    if arrivals == [] then record
    else RunFrom(StepFrom(record, arrivals[0].0, id, arrivals[0].1, rules), arrivals[1..], id, rules)
  }

  /** The checks that a list holding a single spend must pass. */
  predicate Checked(spend: SignedSpend, lookups: Lookups, rules: Rules) {
    rules.verifies(spend) && lookups.feeIdValid && lookups.parentsValid
  }

  /** What a first list leaves, exactly: a single spend is refused unless it passes the checks, and is
      kept together with the one that the network has; a longer list is taken without any check, so a
      first record has been checked against its parents if and only if the list had length one. */
  lemma FirstRecord(incoming: seq<SignedSpend>, id: DbcId, lookups: Lookups, rules: Rules)
    requires Injective(rules.order) && SameDbc(incoming, id)
    ensures var first := StepFrom(None, incoming, id, lookups, rules);
      && (first.Some? <==> |incoming| >= 2 || Checked(incoming[0], lookups, rules))
      && (first.Some? ==>
            && Ascending(first.value, rules.order)
            && Elements(first.value) == Closest(FirstEvidence(incoming, id, lookups, rules), rules.order, 2))
      && (first.Some? && !lookups.parentsValid ==> |incoming| >= 2)
      && (first == Some([]) <==> |incoming| >= 2 && forall s :: s in incoming ==> !rules.verifies(s))
  {
    var all := if |incoming| == 1 then Found(lookups) + incoming else incoming;
    FirstStored(incoming, id, lookups, rules, all);
    EmptyAggregate(all, id, rules);
    AggregateMembers(all, id, rules);
    EvidenceListed(incoming, id, lookups, rules, all);
  }

  lemma FirstStored(incoming: seq<SignedSpend>, id: DbcId, lookups: Lookups, rules: Rules, all: seq<SignedSpend>)
    requires Injective(rules.order) && SameDbc(incoming, id)
    requires all == if |incoming| == 1 then Found(lookups) + incoming else incoming
    ensures StepFrom(None, incoming, id, lookups, rules) ==
      if |incoming| >= 2 || Checked(incoming[0], lookups, rules) then Some(AggregateSpends(all, id, rules)) else None
  {
  }

  lemma EvidenceListed(incoming: seq<SignedSpend>, id: DbcId, lookups: Lookups, rules: Rules, all: seq<SignedSpend>)
    requires all == if |incoming| == 1 then Found(lookups) + incoming else incoming
    ensures (set s | s in all && s.dbcId == id && rules.verifies(s)) == FirstEvidence(incoming, id, lookups, rules)
  {
  }

  /** The spends of the dbc that verify, among those that came in and, when only one did, the one that
      the network has. */
  ghost function FirstEvidence(incoming: seq<SignedSpend>, id: DbcId, lookups: Lookups, rules: Rules)
    : set<SignedSpend>
  {
    var alone := |incoming| == 1 && lookups.fromNetwork.Some?;
    var all := Elements(incoming) + if alone then {lookups.fromNetwork.value} else {};
    set s | s in all && s.dbcId == id && rules.verifies(s)
  }

  /** So a double spend is found out at once: when the network has another authentic spend of the dbc, a
      first single spend is stored together with it. */
  lemma NetworkSpendIsKept(a: SignedSpend, b: SignedSpend, lookups: Lookups, rules: Rules)
    requires Injective(rules.order) && Checked(a, lookups, rules) && lookups.fromNetwork == Some(b)
    requires b != a && b.dbcId == a.dbcId && rules.verifies(b)
    ensures var record := StepFrom(None, [a], a.dbcId, lookups, rules);
      record.Some? && |record.value| == 2 && Elements(record.value) == {a, b}
  {
    FirstRecord([a], a.dbcId, lookups, rules);
    var record := StepFrom(None, [a], a.dbcId, lookups, rules).value;
    assert FirstEvidence([a], a.dbcId, lookups, rules) == {a, b};
    TakeIsClosest({a, b}, rules.order, 2);
    AscendingCount(record, rules.order);
    assert Closest({a, b}, rules.order, 2) == {a, b} by {
      SubsetEqual(Closest({a, b}, rules.order, 2), {a, b});
    }
  }

  lemma SubsetEqual(a: set<SignedSpend>, b: set<SignedSpend>)
    requires a <= b && |a| >= |b|
    ensures a == b
  {
    assert b == a + (b - a);
  }

  /** Why a first single spend is refused: the first of the checks that it fails. */
  lemma FirstRefusal(a: SignedSpend, lookups: Lookups, rules: Rules)
    requires Injective(rules.order)
    ensures var r := SignedSpendValidation([a], a.dbcId, None, lookups, rules);
      && (r == Err(SpendSignatureInvalid) <==> !rules.verifies(a))
      && (r == Err(FeeOutputInvalid) <==> rules.verifies(a) && !lookups.feeIdValid)
      && (r == Err(SpendParentTxInvalid) <==> rules.verifies(a) && lookups.feeIdValid && !lookups.parentsValid)
      && (r.Ok? <==> Checked(a, lookups, rules))
  {
  }

  /** An aggregate is empty exactly when no spend of the dbc verifies. */
  lemma EmptyAggregate(spends: seq<SignedSpend>, id: DbcId, rules: Rules)
    requires Injective(rules.order)
    ensures AggregateSpends(spends, id, rules) == [] <==>
      forall s :: s in spends && s.dbcId == id ==> !rules.verifies(s)
  {
    var authentic := Authentic(Elements(spends), id, rules);
    assert |AggregateSpends(spends, id, rules)| == 0 <==> |authentic| == 0;
    if authentic == {} {
      forall s | s in spends && s.dbcId == id ensures !rules.verifies(s) {
        assert s !in authentic;
      }
    } else {
      var s :| s in authentic;
    }
  }

  /** So repeating a spend gets round the checks: a list naming one authentic spend twice is stored as
      that single spend, with nothing known of its parents or fee, while the spend alone is refused. */
  lemma RepeatSkipsChecks(a: SignedSpend, lookups: Lookups, rules: Rules)
    requires Injective(rules.order) && rules.verifies(a) && !(lookups.feeIdValid && lookups.parentsValid)
    ensures StepFrom(None, [a, a], a.dbcId, lookups, rules) == Some([a])
    ensures StepFrom(None, [a], a.dbcId, lookups, rules) == None
  {
    FirstRecord([a, a], a.dbcId, lookups, rules);
    FirstRecord([a], a.dbcId, lookups, rules);
    var record := StepFrom(None, [a, a], a.dbcId, lookups, rules).value;
    assert FirstEvidence([a, a], a.dbcId, lookups, rules) == {a};
    TakeIsClosest({a}, rules.order, 2);
    AscendingCount(record, rules.order);
    assert record[0] in Elements(record);
    assert record == [a];
  }

  /** What an empty record, as two spends that do not verify leave it, becomes: the arrival is taken
      as a first one would be, except that repeated spends count once. */
  lemma AfterEmpty(incoming: seq<SignedSpend>, id: DbcId, lookups: Lookups, rules: Rules)
    requires Injective(rules.order) && SameDbc(incoming, id)
    ensures StepFrom(Some([]), incoming, id, lookups, rules) ==
      match StepFrom(None, Sort(Elements(incoming), rules.order), id, lookups, rules)
      case Some(spends) => Some(spends)
      case None => Some([])
  {
    var news := Sort(Elements(incoming), rules.order);
    assert incoming[0] in Elements(incoming);
    NewToEmpty(incoming, id, rules);
    assert SignedSpendValidation(incoming, id, Some([]), lookups, rules) ==
           SignedSpendValidation(news, id, None, lookups, rules);
  }

  lemma NewToEmpty(incoming: seq<SignedSpend>, id: DbcId, rules: Rules)
    requires Injective(rules.order) && SameDbc(incoming, id)
    ensures var news := Sort(Elements(incoming), rules.order);
      NewlySeen(incoming, []) == Elements(incoming) != {} && [] + news == news && SameDbc(news, id)
  {
    var news := Sort(Elements(incoming), rules.order);
    SortMembers(Elements(incoming), rules.order);
    assert incoming[0] in Elements(incoming);
    forall s | s in news ensures s.dbcId == id {
      assert s in Elements(incoming);
    }
  }

  /** Up to the n-th arrival nothing is held, or an empty record; from that arrival on, the node holds
      exactly the aggregate of what it left and everything received since. */
  ghost predicate FirstAt(record: Option<seq<SignedSpend>>, arrivals: seq<Arrival>, id: DbcId, rules: Rules, n: nat)
    requires Injective(rules.order) && n < |arrivals|
  {
    var before := RunFrom(record, arrivals[..n], id, rules);
    var first := StepFrom(before, arrivals[n].0, id, arrivals[n].1, rules);
    && Blank(before) && !Blank(first) && first.value == AggregateSpends(first.value, id, rules)
    && RunFrom(record, arrivals, id, rules) ==
         Some(AggregateSpends(first.value + Received(arrivals[n + 1..], id), id, rules))
  }

  /** Every run from no record: either nothing, or an empty record, is held at the end, or from the
      arrival that first leaves a spend on nothing is lost. */
  lemma {:induction false} RunFromNothing(record: Option<seq<SignedSpend>>, arrivals: seq<Arrival>, id: DbcId,
                                          rules: Rules)
    requires Injective(rules.order) && Blank(record)
    ensures Blank(RunFrom(record, arrivals, id, rules)) ||
            exists n: nat :: n < |arrivals| && FirstAt(record, arrivals, id, rules, n)
    decreases |arrivals|
  {
    if arrivals != [] {
      var next := StepFrom(record, arrivals[0].0, id, arrivals[0].1, rules);
      if Blank(next) {
        RunFromNothing(next, arrivals[1..], id, rules);
        if n: nat :| n < |arrivals[1..]| && FirstAt(next, arrivals[1..], id, rules, n) {
          FirstLater(record, arrivals, id, rules, n);
        }
      } else {
        FirstNow(record, arrivals, id, rules);
      }
    }
  }

  lemma {:induction false} FirstLater(record: Option<seq<SignedSpend>>, arrivals: seq<Arrival>, id: DbcId, rules: Rules,
                                      n: nat)
    requires Injective(rules.order) && n + 1 < |arrivals|
    requires FirstAt(StepFrom(record, arrivals[0].0, id, arrivals[0].1, rules), arrivals[1..], id, rules, n)
    ensures FirstAt(record, arrivals, id, rules, n + 1)
  {
    var next, rest := StepFrom(record, arrivals[0].0, id, arrivals[0].1, rules), arrivals[1..];
    assert arrivals[..n + 1][1..] == rest[..n] && arrivals[n + 1] == rest[n];
    assert RunFrom(record, arrivals[..n + 1], id, rules) == RunFrom(next, rest[..n], id, rules);
    assert rest[n + 1..] == arrivals[n + 2..];
  }

  lemma {:induction false} FirstNow(record: Option<seq<SignedSpend>>, arrivals: seq<Arrival>, id: DbcId, rules: Rules)
    requires Injective(rules.order) && arrivals != [] && Blank(record)
    requires !Blank(StepFrom(record, arrivals[0].0, id, arrivals[0].1, rules))
    ensures FirstAt(record, arrivals, id, rules, 0)
  {
    var next := StepFrom(record, arrivals[0].0, id, arrivals[0].1, rules);
    assert arrivals[..0] == [];
    FirstIsAggregate(record, arrivals[0], id, rules);
    RunFromSome(next.value, arrivals[1..], id, rules);
    RunStoresAggregate(next.value, next.value, arrivals[1..], id, rules);
  }

  predicate Blank(record: Option<seq<SignedSpend>>) {
    record == None || record == Some([])
  }

  lemma FirstIsAggregate(record: Option<seq<SignedSpend>>, arrival: Arrival, id: DbcId, rules: Rules)
    requires Injective(rules.order) && Blank(record) && !Blank(StepFrom(record, arrival.0, id, arrival.1, rules))
    ensures var first := StepFrom(record, arrival.0, id, arrival.1, rules).value;
      first == AggregateSpends(first, id, rules)
  {
    var spends := Candidates(arrival.0, record, rules);
    var all := (if |spends| == 1 then Found(arrival.1) else []) + spends;
    assert [] + spends == spends;
    assert StepFrom(record, arrival.0, id, arrival.1, rules) == Some(AggregateSpends(all, id, rules));
    AggregateIdempotent(all, id, rules);
  }

  lemma {:induction false} RunFromSome(record: seq<SignedSpend>, arrivals: seq<Arrival>, id: DbcId, rules: Rules)
    requires Injective(rules.order)
    ensures RunFrom(Some(record), arrivals, id, rules) == Some(Run(record, arrivals, id, rules))
    decreases |arrivals|
  {
    if arrivals != [] {
      RunFromSome(Step(record, arrivals[0].0, id, arrivals[0].1, rules), arrivals[1..], id, rules);
    }
  }
}
