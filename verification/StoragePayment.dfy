/** A client's storage payment: tree, price, transfer and the proofs handed to the uploader. */
module StoragePayment {
  import opened Common
  import opened Nearest
  import opened PaymentProof
  import opened Transfer
  import opened FeeValidation
  import opened Wallet

  datatype Proof = Proof(spentIds: seq<DbcId>, trail: TrailInfo)

  datatype Failure = TransferFailed(error: Transfer.Error) | NetworkFailed

  /** Nothing to pay for, or the proofs with the price per record and the transaction. */
  datatype Payment = NothingToPay | Paid(proofs: map<XorName, Proof>, price: Token, tx: Tx)

  /** Two to the k as a 64-bit number; the cast from floating point stops at the limit. */
  function Factor(k: nat): (f: Token)
    ensures f >= 1 && (f == Pow2(k) <==> Pow2(k) <= U64_MAX) && (Pow2(k) > U64_MAX ==> f == U64_MAX)
  {
    if Pow2(k) <= U64_MAX then Pow2(k) else U64_MAX
  }

  /** The price overpays the quoted cost by a power of two that grows with the distinct addresses,
      in a product that wraps around. */
  function Price(storeCost: Token, distinct: nat): (price: Token)
    ensures var exact := storeCost * Factor(distinct / 100 + 1); price == exact <==> exact <= U64_MAX
  {
    Wrap64(storeCost * Factor(distinct / 100 + 1))
  }

  /** What is billed for n records, in a product that wraps around. */
  function Bill(storeCost: Token, distinct: nat, n: nat): (amount: Token)
    ensures var exact := Price(storeCost, distinct) * n; amount == exact <==> exact <= U64_MAX
  {
    Wrap64(Price(storeCost, distinct) * n)
  }

  function Assemble(trails: map<XorName, TrailInfo>, tx: Tx): map<XorName, Proof> {
    map a | a in trails :: Proof(tx.inputs, trails[a])
  }

  ghost predicate Accepts(a: XorName, cost: Token, p: Payment)
    requires p.Paid? && a in p.proofs
  {
    && p.proofs[a].spentIds == p.tx.inputs
    && VerifyFeeOutputAndProof(a, cost, p.tx, p.proofs[a].trail.auditTrail, p.proofs[a].trail.path) == Ok(())
  }

  /** Every returned proof passes the fee id, trail and amount checks of every node that asks at
      most the price paid per record. */
  ghost predicate ProofsAccepted(addrs: seq<XorName>, p: Payment)
    requires p.Paid?
  {
    && p.proofs.Keys == Elements(addrs)
    && forall a, cost: Token :: a in p.proofs && cost <= p.price ==> Accepts(a, cost, p)
  }

  /** The proofs are the trails of the last positions, with a transaction carrying the amount. */
  ghost predicate Assembled(addrs: seq<XorName>, p: Payment, amount: nat)
    requires p.Paid?
  {
    && p.proofs.Keys == Elements(addrs)
    && (forall a :: a in addrs ==> p.proofs[a] == Proof(p.tx.inputs, ProofAt(addrs, LastPosition(addrs, a))))
    && p.tx.fee.root == TreeRoot(addrs) && p.tx.fee.id == FeeHash(p.tx.fee.root, p.tx.inputs)
    && p.tx.fee.token == amount
  }

  lemma ProofsAssembled(addrs: seq<XorName>, trails: map<XorName, TrailInfo>, p: Payment)
    requires p.Paid? && BuiltTrails(addrs, trails) && p.proofs == Assemble(trails, p.tx)
    requires p.tx.fee.root == TreeRoot(addrs) && p.tx.fee.id == FeeHash(p.tx.fee.root, p.tx.inputs)
    ensures Assembled(addrs, p, p.tx.fee.token)
  {
    assert addrs[..|addrs|] == addrs;
    forall a | a in addrs ensures p.proofs[a] == Proof(p.tx.inputs, ProofAt(addrs, LastPosition(addrs, a))) {
      StoredTrailValidates(addrs, trails, a);
    }
  }

  /** Whether a node takes an assembled proof, whatever was paid: something must have been paid, and
      the wrapped product for the last position of the address must be covered. */
  lemma AssembledProofVerdict(addrs: seq<XorName>, p: Payment, amount: nat, a: XorName, cost: Token)
    requires p.Paid? && Assembled(addrs, p, amount) && a in addrs
    ensures a in p.proofs && (Accepts(a, cost, p) <==> amount >= 1 && Due(cost, LastPosition(addrs, a)) <= amount)
  {
    TrailVerdict(addrs, LastPosition(addrs, a), cost, p.tx);
  }

  /** A bill paid in full gets every proof accepted. */
  lemma AssembledProofsAccepted(addrs: seq<XorName>, p: Payment, amount: nat)
    requires p.Paid? && p.price >= 1 && amount == p.price * |addrs| && Assembled(addrs, p, amount)
    ensures ProofsAccepted(addrs, p)
  {
    forall a, cost: Token | a in p.proofs && cost <= p.price ensures Accepts(a, cost, p) {
      PaidProofAccepted(addrs, LastPosition(addrs, a), p.price, cost, p.tx);
    }
  }

  /** A bill that wraps around need not be paid in full, and this happens at ordinary costs, because
      the factor doubles with every hundred addresses: at a quote of 2^21, the most a node asks, 3584
      addresses are billed nothing at all, and every node refuses all the proofs. */
  lemma WrappedBillRefused(addrs: seq<XorName>, storeCost: Token, p: Payment, a: XorName, cost: Token)
    requires storeCost == 0x20_0000 && |addrs| == |Elements(addrs)| == 3584 && a in addrs
    requires p.Paid? && Assembled(addrs, p, Bill(storeCost, |Elements(addrs)|, |addrs|))
    ensures a in p.proofs && !Accepts(a, cost, p)
  {
    WrappedBill(storeCost, |addrs|);
    NothingBilled(addrs, p, a, cost);
  }

  lemma NothingBilled(addrs: seq<XorName>, p: Payment, a: XorName, cost: Token)
    requires p.Paid? && Assembled(addrs, p, 0) && a in addrs
    ensures a in p.proofs && !Accepts(a, cost, p)
  {
    AssembledProofVerdict(addrs, p, 0, a, cost);
  }

  lemma WrappedBill(storeCost: Token, n: nat)
    requires storeCost == 0x20_0000 && n == 3584
    ensures Price(storeCost, n) >= 1 && Bill(storeCost, n, n) == 0
  {
    var k := n / 100 + 1;
    Pow2At(k);
    assert Price(storeCost, n) == 0x200_0000_0000_0000;
  }

  lemma Pow2At(k: nat)
    requires k == 36
    ensures Pow2(k) == 0x10_0000_0000
  {
    assert Pow2(9) == 512 by {
      assert Pow2(3) == 8;
      assert Pow2(6) == 64;
    }
    Pow2Sum(9, 9);
    Pow2Sum(18, 18);
  }

  lemma {:induction false} Pow2Sum(a: nat, b: nat)
    ensures Pow2(a + b) == Pow2(a) * Pow2(b)
  {
    if b > 0 {
      Pow2Sum(a, b - 1);
    }
  }

  /** Pays for the given addresses.  When the bill fits in a token and is not zero, whatever is
      returned as paid is accepted by every node asking at most the price.  Exactly the amount
      billed has left the wallet as a fee.  A failed upload is reported after the wallet has recorded
      the transfer; every other failure leaves it alone. */
  method PayForStorage(wallet: LocalWallet, addrs: seq<XorName>, storeCost: Token, changeId: DbcId,
                       built: bool, uploaded: bool)
    returns (r: Result<Payment, Failure>)
    requires wallet.Valid() && changeId !in wallet.available && changeId !in wallet.spent
    modifies wallet
    ensures wallet.Valid() && wallet.deposited == old(wallet.deposited) && wallet.sent == old(wallet.sent)
    ensures addrs == [] <==> r == Ok(NothingToPay)
    ensures var price := Price(storeCost, |Elements(addrs)|);
      var bill := Bill(storeCost, |Elements(addrs)|, |addrs|);
      && (r.Ok? && r.value.Paid? ==>
            && r.value.price == price && wallet.fees == old(wallet.fees) + bill
            && Assembled(addrs, r.value, bill)
            && (price >= 1 && price * |addrs| <= U64_MAX ==> ProofsAccepted(addrs, r.value)))
      && (r == Err(NetworkFailed) ==> wallet.fees == old(wallet.fees) + bill)
    ensures r.Err? && r.error != NetworkFailed ==> unchanged(wallet)
    ensures addrs != [] ==>
      PayVerdict(Value(old(wallet.available)), Bill(storeCost, |Elements(addrs)|, |addrs|), built, uploaded,
                 if r.Ok? then None else Some(r.error))
  {
    if addrs == [] {
      return Ok(NothingToPay);
    }
    var tree := BuildPaymentProofs(addrs);
    var (root, trails) := tree.value;
    assert trails.Keys == Elements(addrs) by {
      assert addrs[..|addrs|] == addrs;
    }
    var price := Price(storeCost, |trails.Keys|);
    var amount := Bill(storeCost, |trails.Keys|, |addrs|);
    var paid := PayBill(wallet, amount, root, changeId, built, uploaded);
    if paid.Err? {
      return Err(paid.error);
    }
    r := Ok(Paid(Assemble(trails, paid.value), price, paid.value));
    ProofsAssembled(addrs, trails, r.value);
    PaidInFull(addrs, r.value, storeCost);
  }

  /** When a payment succeeds, and why not, as long as all that is held fits in a token. */
  ghost predicate PayVerdict(held: nat, bill: nat, built: bool, uploaded: bool, failure: Option<Failure>) {
    held <= U64_MAX ==>
      && (failure == None <==> bill <= held && built && uploaded)
      && (failure == Some(NetworkFailed) <==> bill <= held && built && !uploaded)
      && (failure == Some(TransferFailed(BuildFailed)) <==> bill <= held && !built)
      && (bill > held ==> failure == Some(TransferFailed(NotEnoughBalance(held, bill))))
  }

  /** Sends the transfer for the bill; a failed upload comes after the wallet has recorded it. */
  method PayBill(wallet: LocalWallet, amount: Token, root: Digest, changeId: DbcId, built: bool, uploaded: bool)
    returns (r: Result<Tx, Failure>)
    requires wallet.Valid() && changeId !in wallet.available && changeId !in wallet.spent
    modifies wallet
    ensures wallet.Valid() && wallet.deposited == old(wallet.deposited) && wallet.sent == old(wallet.sent)
    ensures r.Ok? ==> r.value.fee == FeeOutput(FeeHash(root, r.value.inputs), amount, root)
    ensures r.Ok? || r.error == NetworkFailed ==> wallet.fees == old(wallet.fees) + amount
    ensures r.Err? && r.error != NetworkFailed ==> unchanged(wallet)
    ensures PayVerdict(Value(old(wallet.available)), amount, built, uploaded, if r.Ok? then None else Some(r.error))
  {
    var transfer := wallet.LocalSendStoragePayment(amount, root, changeId, built);
    if transfer.Err? {
      return Err(TransferFailed(transfer.error));
    }
    if !uploaded {
      return Err(NetworkFailed);
    }
    r := Ok(transfer.value.tx);
  }

  lemma PaidInFull(addrs: seq<XorName>, p: Payment, storeCost: Token)
    requires p.Paid? && p.price == Price(storeCost, |Elements(addrs)|)
    requires Assembled(addrs, p, Bill(storeCost, |Elements(addrs)|, |addrs|))
    ensures p.price >= 1 && p.price * |addrs| <= U64_MAX ==> ProofsAccepted(addrs, p)
  {
    if p.price >= 1 && p.price * |addrs| <= U64_MAX {
      AssembledProofsAccepted(addrs, p, p.price * |addrs|);
    }
  }
}
