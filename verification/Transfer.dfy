/** Dbcs, transactions and the selection of the inputs of a transfer.

    Token amounts are natural numbers of at most U64_MAX; every checked addition of the program is
    an explicit comparison with that limit. */
module Transfer {
  import opened Common
  import PaymentProof

  type Token = n: nat | n <= U64_MAX
  type DbcId = nat
  type PublicAddress = nat

  /** `token` is None when the amount of the dbc cannot be read from its source transaction. */
  datatype Dbc = Dbc(id: DbcId, token: Option<Token>, owner: PublicAddress)

  /** The identifier of a fee output is the hash of the root and the input ids, in order. */
  datatype FeeId = FeeHash(root: PaymentProof.Digest, inputs: seq<DbcId>) | OtherFeeId(bytes: nat)

  datatype FeeOutput = FeeOutput(id: FeeId, token: Token, root: PaymentProof.Digest) {
    predicate IsFree() { token == 0 }
  }

  /** The fee output of a transaction that pays for no storage. */
  const NO_FEE := FeeOutput(OtherFeeId(0), 0, PaymentProof.Opaque(0))

  datatype Tx = Tx(inputs: seq<DbcId>, fee: FeeOutput)

  /** The transaction, the dbcs created for others, and the change dbc if any. */
  datatype TransferOutputs = TransferOutputs(tx: Tx, created: seq<Dbc>, change: Option<Dbc>)

  datatype Error = NotEnoughBalance(found: nat, required: nat) | Overflow | BuildFailed

  function Worth(d: Dbc): nat {
    if d.token.Some? then d.token.value else 0
  }

  function Sum(dbcs: seq<Dbc>): nat {
    if dbcs == [] then 0 else Sum(dbcs[..|dbcs| - 1]) + Worth(dbcs[|dbcs| - 1])
  }

  /** The dbcs whose amount can be read, in order. */
  function Usable(dbcs: seq<Dbc>): seq<Dbc> {
    if dbcs == [] then []
    else
      var last := dbcs[|dbcs| - 1];
      Usable(dbcs[..|dbcs| - 1]) + if last.token.Some? then [last] else []
  }

  lemma {:induction false} UsableMembers(dbcs: seq<Dbc>)
    ensures forall d :: d in Usable(dbcs) <==> d in dbcs && d.token.Some?
  {
    if dbcs != [] {
      UsableMembers(dbcs[..|dbcs| - 1]);
    }
  }

  lemma {:induction false} UsableOfPrefix(dbcs: seq<Dbc>, i: nat)
    requires i <= |dbcs|
    ensures Usable(dbcs[..i]) <= Usable(dbcs)
  {
    if i < |dbcs| {
      var init := dbcs[..|dbcs| - 1];
      UsableOfPrefix(init, i);
      assert init[..i] == dbcs[..i];
    } else {
      assert dbcs[..i] == dbcs;
    }
  }

  lemma {:induction false} SumMonotone(dbcs: seq<Dbc>, i: nat, j: nat)
    requires i <= j <= |dbcs|
    ensures Sum(dbcs[..i]) <= Sum(dbcs[..j])
  {
    if i < j {
      SumMonotone(dbcs, i, j - 1);
      assert dbcs[..j][..j - 1] == dbcs[..j - 1];
    }
  }

  lemma SumAppend(dbcs: seq<Dbc>, d: Dbc)
    ensures Sum(dbcs + [d]) == Sum(dbcs) + Worth(d)
  {
  }

  /** The first k dbcs cover the amount and one dbc less does not.  A request for nothing still
      takes the first dbc, if there is one. */
  ghost predicate ShortestCover(usable: seq<Dbc>, amount: Token, k: nat) {
    && k <= |usable|
    && if amount == 0 then k == (if usable == [] then 0 else 1)
       else k > 0 && Sum(usable[..k - 1]) < amount <= Sum(usable[..k])
  }

  /** For a positive amount no shorter prefix covers it. */
  lemma NoShorterCover(usable: seq<Dbc>, amount: Token, k: nat, j: nat)
    requires amount > 0 && ShortestCover(usable, amount, k) && j <= |usable|
    ensures Sum(usable[..j]) >= amount <==> j >= k
  {
    if j < k { SumMonotone(usable, j, k - 1); } else { SumMonotone(usable, k, j); }
  }

  lemma CoverUnique(usable: seq<Dbc>, amount: Token, j: nat, k: nat)
    requires ShortestCover(usable, amount, j) && ShortestCover(usable, amount, k)
    ensures j == k
  {
    if amount > 0 {
      NoShorterCover(usable, amount, k, j);
      NoShorterCover(usable, amount, j, k);
    }
  }

  /** A covering prefix exists exactly when everything together covers the amount. */
  lemma {:induction false} CoverExists(usable: seq<Dbc>, amount: Token, n: nat)
    requires n <= |usable| && Sum(usable[..n]) >= amount
    ensures exists k :: ShortestCover(usable, amount, k)
  {
    if amount == 0 {
      assert ShortestCover(usable, amount, if usable == [] then 0 else 1);
    } else if Sum(usable[..n - 1]) >= amount {
      CoverExists(usable, amount, n - 1);
    } else {
      assert ShortestCover(usable, amount, n);
    }
  }

  ghost function CoverLength(usable: seq<Dbc>, amount: Token): (k: nat)
    requires Sum(usable) >= amount
    ensures ShortestCover(usable, amount, k)
  {
    assert usable[..|usable|] == usable;
    CoverExists(usable, amount, |usable|);
    var k: nat :| ShortestCover(usable, amount, k);
    k
  }

  /** What a selection must be: the shortest covering prefix of the usable dbcs and the exact
      change.  It fails only when everything together is not enough, or when the covering prefix
      is worth more than a token can hold. */
  ghost function Selection(available: seq<Dbc>, amount: Token): (r: Result<(seq<Dbc>, Token), Error>)
  {
    var usable := Usable(available);
    if Sum(usable) < amount then Err(NotEnoughBalance(Sum(usable), amount))
    else
      var prefix := usable[..CoverLength(usable, amount)];
      if Sum(prefix) > U64_MAX then Err(Overflow) else Ok((prefix, Sum(prefix) - amount))
  }

  lemma SelectionConserves(available: seq<Dbc>, amount: Token)
    requires Selection(available, amount).Ok?
    ensures var (selected, change) := Selection(available, amount).value;
      && Sum(selected) == amount + change
      && selected <= Usable(available)
      && forall j :: 0 <= j < |selected| && amount > 0 ==> Sum(Usable(available)[..j]) < amount
  {
    var usable := Usable(available);
    var k := CoverLength(usable, amount);
    forall j | 0 <= j < k && amount > 0 ensures Sum(usable[..j]) < amount {
      NoShorterCover(usable, amount, k, j);
    }
  }

  /** When a selection succeeds: as long as all the usable dbcs together fit in a token, exactly when they
      cover the amount; and never when they do not cover it. */
  lemma {:induction false} SelectionSucceeds(available: seq<Dbc>, amount: Token)
    ensures var total := Sum(Usable(available));
      && (Selection(available, amount).Ok? ==> total >= amount)
      && (total <= U64_MAX ==> (Selection(available, amount).Ok? <==> total >= amount))
      && (total < amount ==> Selection(available, amount) == Err(NotEnoughBalance(total, amount)))
  {
    var usable := Usable(available);
    if Sum(usable) >= amount {
      assert usable[..|usable|] == usable;
      SumMonotone(usable, CoverLength(usable, amount), |usable|);
    }
  }

  lemma CoverFromStep(usable: seq<Dbc>, amount: Token, before: seq<Dbc>, d: Dbc)
    requires before + [d] <= usable && Sum(before + [d]) >= amount
    requires if amount == 0 then before == [] else Sum(before) < amount
    ensures Sum(usable) >= amount && usable[..CoverLength(usable, amount)] == before + [d]
  {
    var k := |before| + 1;
    assert usable[..k] == before + [d] && usable[..k - 1] == before;
    assert usable[..|usable|] == usable;
    SumMonotone(usable, k, |usable|);
    CoverUnique(usable, amount, CoverLength(usable, amount), k);
  }

  lemma SelectionFromStep(available: seq<Dbc>, amount: Token, before: seq<Dbc>, d: Dbc, total: nat)
    requires before + [d] <= Usable(available) && Sum(before + [d]) == total >= amount
    requires if amount == 0 then before == [] else Sum(before) < amount
    ensures Selection(available, amount) ==
      if total > U64_MAX then Err(Overflow) else Ok((before + [d], total - amount))
  {
    CoverFromStep(Usable(available), amount, before, d);
  }

  lemma SelectionWhenExhausted(available: seq<Dbc>, amount: Token)
    requires var usable := Usable(available); if amount == 0 then usable == [] else Sum(usable) < amount
    ensures Selection(available, amount) ==
      if amount == 0 then Ok(([], 0)) else Err(NotEnoughBalance(Sum(Usable(available)), amount))
  {
  }

  lemma UsableStep(dbcs: seq<Dbc>, i: nat)
    requires i < |dbcs|
    ensures Usable(dbcs[..i + 1]) == Usable(dbcs[..i]) + (if dbcs[i].token.Some? then [dbcs[i]] else [])
    ensures Usable(dbcs[..i + 1]) <= Usable(dbcs)
  {
    assert dbcs[..i + 1][..i] == dbcs[..i];
    UsableOfPrefix(dbcs, i + 1);
  }

  /** The loop of the program.  One variable holds first the amount still missing and then, after
      the last step, the change. */
  method SelectInputs(available: seq<Dbc>, amount: Token) returns (r: Result<(seq<Dbc>, Token), Error>)
    ensures r == Selection(available, amount)
  {
    var selected: seq<Dbc> := [];
    var total: nat := 0;
    var change: nat := amount;
    var i, stop := 0, false;
    while i < |available| && !stop
      invariant 0 <= i <= |available|
      invariant selected == Usable(available[..i])
      invariant total == Sum(selected)
      invariant !stop ==> total + change == amount && if amount == 0 then selected == [] else change > 0
      invariant stop ==> total == amount + change && Selection(available, amount) == Ok((selected, change))
    {
      var dbc := available[i];
      UsableStep(available, i);
      i := i + 1;
      if dbc.token.Some? {
        SumAppend(selected, dbc);
        total := total + dbc.token.value;
        if total >= amount {
          SelectionFromStep(available, amount, selected, dbc, total);
        }
        selected := selected + [dbc];
        if total > U64_MAX {
          return Err(Overflow);
        }
        if dbc.token.value <= change {
          change := change - dbc.token.value;
          stop := change == 0;
        } else {
          change := dbc.token.value - change;
          stop := true;
        }
      }
    }
    if !stop {
      assert available[..i] == available;
      SelectionWhenExhausted(available, amount);
    }
    if amount > total {
      return Err(NotEnoughBalance(total, amount));
    }
    r := Ok((selected, change));
  }

  function Ids(dbcs: seq<Dbc>): (ids: seq<DbcId>)
    ensures |ids| == |dbcs| && forall i :: 0 <= i < |dbcs| ==> ids[i] == dbcs[i].id
  {
    seq(|dbcs|, i requires 0 <= i < |dbcs| => dbcs[i].id)
  }

  /** The change dbc is split off the created ones by its id. */
  method CreateTransferWith(selected: seq<Dbc>, recipients: seq<Dbc>, change: Token, changeTo: PublicAddress,
                            changeId: DbcId, fee: FeeOutput, built: bool)
    returns (r: Result<TransferOutputs, Error>)
    requires forall d :: d in recipients ==> d.id != changeId
    ensures r == if !built then Err(BuildFailed) else
      Ok(TransferOutputs(Tx(Ids(selected), fee), recipients,
                         if change == 0 then None else Some(Dbc(changeId, Some(change), changeTo))))
  {
    if !built {
      return Err(BuildFailed);
    }
    var all := recipients + if change == 0 then [] else [Dbc(changeId, Some(change), changeTo)];
    var created: seq<Dbc> := [];
    var changeDbc: Option<Dbc> := None;
    for i := 0 to |all|
      invariant created == if i <= |recipients| then recipients[..i] else recipients
      invariant changeDbc == if i <= |recipients| then None else Some(all[|recipients|])
    {
      if all[i].id == changeId {
        changeDbc := Some(all[i]);
      } else {
        assert i < |recipients| && all[i] == recipients[i];
        created := created + [all[i]];
      }
    }
    assert created == recipients;
    r := Ok(TransferOutputs(Tx(Ids(selected), fee), created, changeDbc));
  }

  /** A transfer to recipients: the checked total of their amounts is selected for. */
  method CreateTransfer(available: seq<Dbc>, recipients: seq<Dbc>, changeTo: PublicAddress,
                        changeId: DbcId, built: bool)
    returns (r: Result<TransferOutputs, Error>)
    requires forall d :: d in recipients ==> d.id != changeId
    ensures r == Transferred(available, recipients, Sum(recipients), changeTo, changeId, NO_FEE, built)
    ensures r.Ok? ==> r.value.tx.fee.IsFree()
  {
    var total: nat := 0;
    for i := 0 to |recipients|
      invariant total == Sum(recipients[..i]) <= U64_MAX
    {
      assert recipients[..i + 1][..i] == recipients[..i];
      total := total + Worth(recipients[i]);
      if total > U64_MAX {
        SumMonotone(recipients, i + 1, |recipients|);
        assert recipients[..|recipients|] == recipients;
        return Err(Overflow);
      }
    }
    assert recipients[..|recipients|] == recipients;
    var selection := SelectInputs(available, total);
    if selection.Err? {
      return Err(selection.error);
    }
    r := CreateTransferWith(selection.value.0, recipients, selection.value.1, changeTo, changeId, NO_FEE, built);
  }

  /** A storage payment: no recipients, and a fee output whose id hashes the root and the inputs. */
  method CreateStoragePaymentTransfer(available: seq<Dbc>, changeTo: PublicAddress, payment: Token,
                                      root: PaymentProof.Digest, changeId: DbcId, built: bool)
    returns (r: Result<TransferOutputs, Error>)
    ensures r == StoragePaid(available, changeTo, payment, root, changeId, built)
  {
    var selection := SelectInputs(available, payment);
    if selection.Err? {
      return Err(selection.error);
    }
    var feeId := FeeHash(root, Ids(selection.value.0));
    r := CreateTransferWith(selection.value.0, [], selection.value.1, changeTo, changeId,
                            FeeOutput(feeId, payment, root), built);
  }

  ghost function Transferred(available: seq<Dbc>, recipients: seq<Dbc>, amount: nat, changeTo: PublicAddress,
                             changeId: DbcId, fee: FeeOutput, built: bool): Result<TransferOutputs, Error>
  {
    if amount > U64_MAX then Err(Overflow)
    else match Selection(available, amount)
      case Err(e) => Err(e)
      case Ok((selected, change)) =>
        if !built then Err(BuildFailed)
        else Ok(TransferOutputs(Tx(Ids(selected), fee), recipients,
                                if change == 0 then None else Some(Dbc(changeId, Some(change), changeTo))))
  }

  ghost function StoragePaid(available: seq<Dbc>, changeTo: PublicAddress, payment: Token,
                             root: PaymentProof.Digest, changeId: DbcId, built: bool): Result<TransferOutputs, Error>
  {
    match Selection(available, payment)
    case Err(e) => Err(e)
    case Ok((selected, _)) =>
      var fee := FeeOutput(FeeHash(root, Ids(selected)), payment, root);
      Transferred(available, [], payment, changeTo, changeId, fee, built)
  }
}
