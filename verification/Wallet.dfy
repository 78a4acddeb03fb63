/** The local wallet: deposits, sends and storage payments. */
module Wallet {
  import opened Common
  import opened Transfer
  import PaymentProof

  /** The total worth of a collection of dbcs. */
  ghost function Value(m: map<DbcId, Dbc>): nat
    decreases |m|
  {
    if m == map[] then 0
    else
      var k :| k in m;
      Worth(m[k]) + Value(m - {k})
  }

  lemma {:induction false} ValueRemove(m: map<DbcId, Dbc>, k: DbcId)
    requires k in m
    ensures Value(m) == Worth(m[k]) + Value(m - {k})
    decreases |m|
  {
    var j :| j in m && Value(m) == Worth(m[j]) + Value(m - {j});
    if j != k {
      ValueRemove(m - {j}, k);
      ValueRemove(m - {k}, j);
      assert m - {j} - {k} == m - {k} - {j};
    }
  }

  lemma UnionWithout(a: map<DbcId, Dbc>, b: map<DbcId, Dbc>, k: DbcId)
    requires k in b && k !in a
    ensures (a + b)[k] == b[k] && (a + b) - {k} == a + (b - {k})
  {
  }

  lemma {:induction false} ValueUnion(a: map<DbcId, Dbc>, b: map<DbcId, Dbc>)
    requires a.Keys !! b.Keys
    ensures Value(a + b) == Value(a) + Value(b)
    decreases |b|
  {
    if b == map[] {
      assert a + b == a;
    } else {
      var k :| k in b;
      ValueUnion(a, b - {k});
      ValueRemove(b, k);
      UnionWithout(a, b, k);
      ValueRemove(a + b, k);
    }
  }

  ghost predicate Distinct(s: seq<Dbc>) {
    forall i, j :: 0 <= i < j < |s| ==> s[i].id != s[j].id
  }

  /** Every listed dbc is held under its own id. */
  ghost predicate Held(m: map<DbcId, Dbc>, s: seq<Dbc>) {
    forall d :: d in s ==> d.id in m && m[d.id] == d
  }

  ghost function IdSet(s: seq<Dbc>): set<DbcId> {
    set d | d in s :: d.id
  }

  /** Taking distinct dbcs out of a collection takes out exactly their sum. */
  lemma {:induction false} ValueWithout(m: map<DbcId, Dbc>, s: seq<Dbc>)
    requires Distinct(s) && Held(m, s)
    ensures Value(m) == Value(m - IdSet(s)) + Sum(s)
  {
    if s == [] {
      assert m - IdSet(s) == m;
    } else {
      var init, last := s[..|s| - 1], s[|s| - 1];
      ValueWithout(m, init);
      assert last.id !in IdSet(init);
      ValueRemove(m - IdSet(init), last.id);
      assert IdSet(s) == IdSet(init) + {last.id};
      assert m - IdSet(init) - {last.id} == m - IdSet(s);
    }
  }

  lemma {:induction false} UsableDistinct(s: seq<Dbc>)
    requires Distinct(s)
    ensures Distinct(Usable(s))
  {
    if s != [] {
      var init := s[..|s| - 1];
      UsableDistinct(init);
      UsableMembers(init);
    }
  }

  /** The dbcs of a deposit that enter a wallet: not spent before, and spendable by its key. */
  ghost function Entering(dbcs: seq<Dbc>, spent: set<DbcId>, address: PublicAddress): map<DbcId, Dbc> {
    if dbcs == [] then map[]
    else
      var before, last := Entering(dbcs[..|dbcs| - 1], spent, address), dbcs[|dbcs| - 1];
      if last.id !in spent && last.owner == address then before[last.id := last] else before
  }

  ghost predicate Enters(d: Dbc, spent: set<DbcId>, address: PublicAddress) {
    d.id !in spent && d.owner == address
  }

  /** Exactly the ids of the dbcs that are not spent and belong to the key enter, each with one of the
      listed dbcs of that id. */
  lemma {:induction false} EnteringMembers(dbcs: seq<Dbc>, spent: set<DbcId>, address: PublicAddress)
    ensures var m := Entering(dbcs, spent, address);
      && (forall k :: k in m ==> m[k] in dbcs && m[k].id == k && k !in spent && m[k].owner == address)
      && (forall d :: d in dbcs && Enters(d, spent, address) ==> d.id in m)
  {
    if dbcs != [] {
      var init, last := dbcs[..|dbcs| - 1], dbcs[|dbcs| - 1];
      var before, m := Entering(init, spent, address), Entering(dbcs, spent, address);
      EnteringMembers(init, spent, address);
      assert dbcs == init + [last];
      forall k | k in m ensures m[k] in dbcs && m[k].id == k && k !in spent && m[k].owner == address {
        var enters := last.id !in spent && last.owner == address && k == last.id;
        assert if enters then m[k] == last else k in before && m[k] == before[k];
      }
      forall d | d in dbcs && Enters(d, spent, address) ensures d.id in m {
        if d != last {
          assert d in init;
        }
      }
    }
  }

  function InputSet(tx: Tx): set<DbcId> {
    set k | k in tx.inputs
  }

  lemma InputsAreSelected(selected: seq<Dbc>, tx: Tx)
    requires tx.inputs == Ids(selected)
    ensures InputSet(tx) == IdSet(selected)
  {
    forall d | d in selected ensures d.id in tx.inputs {
      var i :| 0 <= i < |selected| && selected[i] == d;
      assert tx.inputs[i] == d.id;
    }
  }

  function ChangeMap(c: Option<Dbc>): map<DbcId, Dbc> {
    if c.Some? then map[c.value.id := c.value] else map[]
  }

  lemma ValueOfChange(c: Option<Dbc>)
    ensures Value(ChangeMap(c)) == if c.Some? then Worth(c.value) else 0
  {
    if c.Some? {
      ValueRemove(ChangeMap(c), c.value.id);
      assert ChangeMap(c) - {c.value.id} == map[];
    }
  }

  lemma ValueAfterTransfer(m: map<DbcId, Dbc>, selected: seq<Dbc>, c: Option<Dbc>)
    requires Distinct(selected) && Held(m, selected)
    requires c.Some? ==> c.value.id !in m
    ensures Value((m - IdSet(selected)) + ChangeMap(c)) + Sum(selected) ==
            Value(m) + if c.Some? then Worth(c.value) else 0
  {
    ValueWithout(m, selected);
    ValueOfChange(c);
    ValueUnion(m - IdSet(selected), ChangeMap(c));
  }

  lemma {:induction false} UsableSum(s: seq<Dbc>)
    ensures Sum(Usable(s)) == Sum(s)
  {
    if s != [] {
      var init, last := s[..|s| - 1], s[|s| - 1];
      UsableSum(init);
      if last.token.Some? {
        SumAppend(Usable(init), last);
      } else {
        assert Usable(s) == Usable(init) + [] == Usable(init);
      }
    }
  }

  /** A listing of everything that is held is worth what is held. */
  lemma ListingWorth(m: map<DbcId, Dbc>, listing: seq<Dbc>)
    requires Distinct(listing) && Held(m, listing) && forall k :: k in m ==> m[k] in listing && m[k].id == k
    ensures Sum(Usable(listing)) == Value(m)
  {
    UsableSum(listing);
    ValueWithout(m, listing);
    forall k | k in m ensures k in IdSet(listing) {
      assert m[k] in listing;
    }
    assert m - IdSet(listing) == map[];
  }

  /** What every run keeps: dbcs are held under their own id and are ours; nothing spent is
      available; the inputs of all transfers are spent and no id is an input twice; and what is
      available, what was sent and what was paid in fees add up to what was deposited. */
  ghost predicate Sound(address: PublicAddress, available: map<DbcId, Dbc>, spent: map<DbcId, Dbc>,
                        used: seq<set<DbcId>>, gone: nat, deposited: nat)
  {
    && (forall k :: k in available ==> available[k].id == k && available[k].owner == address)
    && available.Keys !! spent.Keys
    && (forall i :: 0 <= i < |used| ==> used[i] <= spent.Keys)
    && (forall i, j :: 0 <= i < j < |used| ==> used[i] !! used[j])
    && Value(available) + gone == deposited
  }

  /** A transfer of held dbcs, with a new id for the change, keeps a sound wallet sound. */
  lemma SoundAfterTransfer(address: PublicAddress, available: map<DbcId, Dbc>, spent: map<DbcId, Dbc>,
                           used: seq<set<DbcId>>, gone: nat, deposited: nat,
                           selected: seq<Dbc>, c: Option<Dbc>, paid: nat)
    requires Sound(address, available, spent, used, gone, deposited)
    requires Distinct(selected) && Held(available, selected)
    requires c.Some? ==> c.value.owner == address && c.value.id !in available && c.value.id !in spent
    requires Sum(selected) == paid + if c.Some? then Worth(c.value) else 0
    ensures var ids := IdSet(selected);
      && ids <= available.Keys
      && Sound(address, (available - ids) + ChangeMap(c), spent + (map k | k in ids :: available[k]),
               used + [ids], gone + paid, deposited)
  {
    ValueAfterTransfer(available, selected, c);
    var ids := IdSet(selected);
    var used', spent' := used + [ids], spent + (map k | k in ids :: available[k]);
    forall i | 0 <= i < |used| ensures used'[i] <= spent'.Keys && used'[i] !! ids {
    }
  }

  /** When a transfer succeeds: never without cover or when it cannot be built; and, as long as all that
      is held fits in a token, whenever it is covered and can be built. */
  ghost predicate SendVerdict(held: nat, amount: nat, built: bool, r: Result<TransferOutputs, Transfer.Error>) {
    && (r.Ok? ==> built && amount <= held)
    && (held <= U64_MAX ==> (r.Ok? <==> built && amount <= held))
    && (held < amount <= U64_MAX ==> r == Err(NotEnoughBalance(held, amount)))
    && (amount <= held <= U64_MAX && !built ==> r == Err(BuildFailed))
    && (amount > U64_MAX ==> r == Err(Overflow))
  }

  class LocalWallet {
    const address: PublicAddress
    var available: map<DbcId, Dbc>
    var spent: map<DbcId, Dbc>
    var balance: nat
    var createdForOthers: seq<Dbc>
    /** History: worth received from outside, worth sent to others, fees paid, inputs per transfer. */
    ghost var deposited: nat
    ghost var sent: nat
    ghost var fees: nat
    ghost var usedInputs: seq<set<DbcId>>

    ghost predicate Valid()
      reads this
    {
      Sound(address, available, spent, usedInputs, sent + fees, deposited)
    }

    constructor (address: PublicAddress)
      ensures Valid() && this.address == address
      ensures available == map[] && spent == map[] && balance == 0 && deposited == 0
    {
      this.address := address;
      available, spent, balance, createdForOthers := map[], map[], 0, [];
      deposited, sent, fees, usedInputs := 0, 0, 0, [];
    }

    method Balance() returns (total: nat)
      requires forall k :: k in available ==> available[k].owner == address
      ensures total == Value(available)
    {
      total := 0;
      var rest := available;
      while rest != map[]
        invariant rest.Keys <= available.Keys && forall k :: k in rest ==> rest[k] == available[k]
        invariant total + Value(rest) == Value(available)
        decreases |rest|
      {
        var k :| k in rest;
        ValueRemove(rest, k);
        total := total + Worth(rest[k]);
        rest := rest - {k};
      }
    }

    /** Adds the entering dbcs; the balance is recomputed unless the list was empty. */
    method AddReceived(dbcs: seq<Dbc>)
      requires forall k :: k in available ==> available[k].owner == address
      modifies this`available, this`balance
      ensures available == old(available) + Entering(dbcs, spent.Keys, address)
      ensures balance == if dbcs == [] then old(balance) else Value(available)
    {
      if dbcs == [] {
        return;
      }
      var entered: map<DbcId, Dbc> := map[];
      for i := 0 to |dbcs|
        invariant entered == Entering(dbcs[..i], spent.Keys, address)
        invariant available == old(available) && balance == old(balance)
      {
        assert dbcs[..i + 1][..i] == dbcs[..i];
        if dbcs[i].id !in spent && dbcs[i].owner == address {
          entered := entered[dbcs[i].id := dbcs[i]];
        }
      }
      assert dbcs[..|dbcs|] == dbcs;
      EnteringMembers(dbcs, spent.Keys, address);
      available := available + entered;
      balance := Balance();
    }

    /** A deposit from outside.  A dbc spent before is never taken back, and a dbc already held
        changes nothing (an id names one dbc). */
    method Deposit(dbcs: seq<Dbc>)
      requires Valid()
      requires forall d :: d in dbcs && d.id in available ==> available[d.id] == d
      modifies this
      ensures Valid() && spent == old(spent) && usedInputs == old(usedInputs)
      ensures sent == old(sent) && fees == old(fees) && createdForOthers == old(createdForOthers)
      ensures available == old(available) + Entering(dbcs, spent.Keys, address)
      ensures deposited == old(deposited) + Value(Entering(dbcs, spent.Keys, address) - old(available.Keys))
    {
      ghost var entering := Entering(dbcs, spent.Keys, address);
      ghost var news := entering - available.Keys;
      EnteringMembers(dbcs, spent.Keys, address);
      assert available + entering == available + news;
      ValueUnion(available, news);
      AddReceived(dbcs);
      deposited := deposited + Value(news);
    }

    /** The held dbcs, in some order. */
    method AvailableDbcs() returns (listing: seq<Dbc>)
      requires Valid()
      ensures Distinct(listing) && Held(available, listing)
      ensures forall k :: k in available ==> available[k] in listing
    {
      listing := [];
      var rest := available.Keys;
      while rest != {}
        invariant rest <= available.Keys
        invariant Distinct(listing) && Held(available, listing)
        invariant forall d :: d in listing ==> d.id !in rest
        invariant forall k :: k in available && k !in rest ==> available[k] in listing
      {
        var k :| k in rest;
        rest := rest - {k};
        if available[k].owner == address {
          listing := listing + [available[k]];
        }
      }
    }

    /** The effect of a transfer on the wallet: its inputs were available and are now spent, and
        only its change has become available. */
    twostate predicate Spends(t: TransferOutputs)
      reads this
    {
      var inputs := InputSet(t.tx);
      && inputs <= old(available).Keys
      && usedInputs == old(usedInputs) + [inputs]
      && spent == old(spent) + (map k | k in inputs :: old(available)[k])
      && available == (old(available) - inputs) + ChangeMap(t.change)
      && createdForOthers == old(createdForOthers) + t.created
    }

    /** Moves the inputs of a transfer to the spent dbcs and takes in its change. */
    method UpdateLocalWallet(transfer: TransferOutputs)
      requires forall k :: k in available ==> available[k].owner == address
      requires InputSet(transfer.tx) <= available.Keys
      requires transfer.change.Some? ==> transfer.change.value.owner == address && transfer.change.value.id !in spent
      modifies this`available, this`spent, this`balance, this`createdForOthers
      ensures available == (old(available) - InputSet(transfer.tx)) + ChangeMap(transfer.change)
      ensures spent == old(spent) + (map k | k in InputSet(transfer.tx) :: old(available)[k])
      ensures createdForOthers == old(createdForOthers) + transfer.created
    {
      var ids := InputSet(transfer.tx);
      var nowSpent := map k | k in ids && k in available :: available[k];
      assert nowSpent == map k | k in ids :: available[k];
      available := available - ids;
      var changes := if transfer.change.Some? then [transfer.change.value] else [];
      assert Entering(changes, spent.Keys, address) == ChangeMap(transfer.change);
      AddReceived(changes);
      spent := spent + nowSpent;
      createdForOthers := createdForOthers + transfer.created;
    }

    /** Applies a transfer to the wallet and enters it in the history. */
    method Settle(transfer: TransferOutputs, ghost selected: seq<Dbc>, ghost sending: nat, ghost fee: nat)
      requires Valid() && transfer.tx.inputs == Ids(selected)
      requires Distinct(selected) && Held(available, selected)
      requires transfer.change.Some? ==>
        var c := transfer.change.value; c.owner == address && c.id !in available && c.id !in spent
      requires Sum(selected) == sending + fee + (if transfer.change.Some? then Worth(transfer.change.value) else 0)
      modifies this
      ensures Valid() && Spends(transfer)
      ensures sent == old(sent) + sending && fees == old(fees) + fee && deposited == old(deposited)
    {
      InputsAreSelected(selected, transfer.tx);
      SoundAfterTransfer(address, available, spent, usedInputs, sent + fees, deposited,
                         selected, transfer.change, sending + fee);
      UpdateLocalWallet(transfer);
      usedInputs := usedInputs + [InputSet(transfer.tx)];
      sent, fees := sent + sending, fees + fee;
    }

    /** Sends to recipients.  On success the inputs, all held until now, are spent for good, the
        change is the only thing that comes back, and exactly the requested total has left; on
        failure nothing has changed. */
    method LocalSend(recipients: seq<Dbc>, changeId: DbcId, built: bool)
      returns (r: Result<TransferOutputs, Transfer.Error>)
      requires Valid()
      requires changeId !in available && changeId !in spent && forall d :: d in recipients ==> d.id != changeId
      modifies this
      ensures Valid() && deposited == old(deposited) && fees == old(fees)
      ensures r.Ok? ==> Spends(r.value) && r.value.created == recipients && sent == old(sent) + Sum(recipients)
      ensures r.Ok? ==> r.value.tx.fee.IsFree()
      ensures r.Err? ==> unchanged(this)
      ensures SendVerdict(Value(old(available)), Sum(recipients), built, r)
    {
      var listing := AvailableDbcs();
      ListingWorth(available, listing);
      if Sum(recipients) <= U64_MAX { SelectionSucceeds(listing, Sum(recipients)); }
      r := CreateTransfer(listing, recipients, address, changeId, built);
      if r.Ok? {
        ghost var selected := SelectedFrom(listing, Sum(recipients));
        Settle(r.value, selected, Sum(recipients), 0);
      }
    }

    /** Pays a storage fee, with the same guarantees. */
    method LocalSendStoragePayment(payment: Token, root: PaymentProof.Digest, changeId: DbcId, built: bool)
      returns (r: Result<TransferOutputs, Transfer.Error>)
      requires Valid() && changeId !in available && changeId !in spent
      modifies this
      ensures Valid() && deposited == old(deposited) && sent == old(sent)
      ensures r.Ok? ==>
        && Spends(r.value) && r.value.created == []
        && fees == old(fees) + payment
        && r.value.tx.fee == FeeOutput(FeeHash(root, r.value.tx.inputs), payment, root)
      ensures r.Err? ==> unchanged(this)
      ensures SendVerdict(Value(old(available)), payment, built, r)
    {
      var listing := AvailableDbcs();
      ListingWorth(available, listing);
      SelectionSucceeds(listing, payment);
      r := CreateStoragePaymentTransfer(listing, address, payment, root, changeId, built);
      if r.Ok? {
        ghost var selected := SelectedFrom(listing, payment);
        Settle(r.value, selected, 0, payment);
      }
    }

    /** What a successful selection from a listing of this wallet took. */
    lemma SelectedFrom(listing: seq<Dbc>, amount: Token) returns (selected: seq<Dbc>)
      requires Distinct(listing) && Held(available, listing) && Selection(listing, amount).Ok?
      ensures selected == Selection(listing, amount).value.0
      ensures Distinct(selected) && Held(available, selected)
      ensures Sum(selected) == amount + Selection(listing, amount).value.1
    {
      selected := Selection(listing, amount).value.0;
      UsableDistinct(listing);
      UsableMembers(listing);
      SelectionConserves(listing, amount);
    }
  }
}
