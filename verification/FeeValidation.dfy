/** A node's checks of the payment that comes with a chunk. */
module FeeValidation {
  import opened Common
  import opened PaymentProof
  import opened Transfer
  import opened Nearest

  datatype Rejection =
    | PaymentProofInvalidFeeOutput(id: FeeId)
    | InvalidPaymentProof(name: XorName, reason: PaymentProof.Error)
    | PaymentProofInsufficientAmount(paid: nat, expected: nat)

  /** The fee id must hash the root and the inputs; a missing fee passes unless it is required. */
  function VerifyFeeOutputId(tx: Tx, required: bool): Result<(), Rejection> {
    if tx.fee.IsFree() then
      if required then Err(PaymentProofInvalidFeeOutput(tx.fee.id)) else Ok(())
    else if tx.fee.id != FeeHash(tx.fee.root, tx.inputs) then Err(PaymentProofInvalidFeeOutput(tx.fee.id))
    else Ok(())
  }

  /** The fee once per leaf up to the given one, in a product that wraps around. */
  function Due(fee: Token, index: nat): (due: Token)
    ensures due == fee * (index + 1) <==> fee * (index + 1) <= U64_MAX
  {
    Wrap64(fee * (index + 1))
  }

  /** Fee id, then audit trail, then amount. */
  function VerifyFeeOutputAndProof(name: XorName, acceptableFee: Token, tx: Tx, auditTrail: seq<Digest>, path: seq<Bit>)
    : Result<(), Rejection>
  {
    match VerifyFeeOutputId(tx, true)
    case Err(e) => Err(e)
    case Ok(_) =>
      match ValidatePaymentProof(name, tx.fee.root, auditTrail, path)
      case Err(e) => Err(InvalidPaymentProof(name, e))
      case Ok(index) =>
        var expected := Due(acceptableFee, index);
        if tx.fee.token < expected then Err(PaymentProofInsufficientAmount(tx.fee.token, expected))
        else Ok(())
  }

  /** Some trail makes a node asking `fee` accept this address against this transaction. */
  ghost predicate Acceptable(name: XorName, fee: Token, tx: Tx) {
    exists p: TrailInfo :: VerifyFeeOutputAndProof(name, fee, tx, p.auditTrail, p.path).Ok?
  }

  /** An address that can be accepted sits at a leaf the payment reaches, so long as no product for
      a leaf of the tree wraps around. */
  lemma AcceptedLeafIsPaid(addrs: seq<XorName>, name: XorName, fee: Token, tx: Tx)
    requires tx.fee.root == TreeRoot(addrs) && fee >= 1 && Acceptable(name, fee, tx)
    requires fee * |Padded(addrs)| <= U64_MAX
    ensures exists i :: 0 <= i < |Padded(addrs)| && i < tx.fee.token / fee && Padded(addrs)[i] == name
  {
    var p: TrailInfo :| VerifyFeeOutputAndProof(name, fee, tx, p.auditTrail, p.path).Ok?;
    AcceptedProofReachesLeaf(addrs, name, p.auditTrail, p.path);
    var i := LeafIndex(p.path);
    ProductMonotone(fee, fee, i + 1, |Padded(addrs)|);
    QuotientBound(tx.fee.token, fee, i + 1);
    assert Padded(addrs)[i] == name;
  }

  lemma PositiveFactor(f: nat, x: int)
    requires f * x > 0
    ensures x > 0
  {
  }

  lemma QuotientRange(paid: nat, fee: nat)
    requires fee >= 1
    ensures paid / fee >= 0 && (paid < fee ==> paid / fee == 0)
  {
  }

  lemma QuotientBound(paid: nat, fee: nat, n: nat)
    requires fee >= 1 && fee * n <= paid
    ensures n <= paid / fee
  {
    var q := paid / fee;
    assert fee * (q + 1 - n) == fee * q + fee - fee * n;
    PositiveFactor(fee, q + 1 - n);
  }

  lemma ProductMonotone(a: nat, b: nat, c: nat, d: nat)
    requires a <= b && c <= d
    ensures a * c <= b * d
  {
  }

  lemma {:induction false} ElementsSize(s: seq<XorName>)
    ensures |Elements(s)| <= |s|
  {
    if s != [] {
      var init, last := s[..|s| - 1], s[|s| - 1];
      ElementsSize(init);
      assert Elements(s) == Elements(init) + {last};
    }
  }

  /** However many trails are tried, one fee output gets at most paid / fee distinct addresses
      accepted by nodes asking that fee. */
  lemma AcceptedAddressesArePaidFor(addrs: seq<XorName>, accepted: set<XorName>, fee: Token, tx: Tx)
    requires tx.fee.root == TreeRoot(addrs) && fee >= 1 && fee * |Padded(addrs)| <= U64_MAX
    requires forall a :: a in accepted ==> Acceptable(a, fee, tx)
    ensures |accepted| <= tx.fee.token / fee
  {
    forall a | a in accepted
      ensures exists i :: 0 <= i < |Padded(addrs)| && i < tx.fee.token / fee && Padded(addrs)[i] == a
    {
      AcceptedLeafIsPaid(addrs, a, fee, tx);
    }
    QuotientRange(tx.fee.token, fee);
    AmongFirst(Padded(addrs), accepted, tx.fee.token / fee);
  }

  /** At most n distinct names are found at the first n positions. */
  lemma AmongFirst(names: seq<XorName>, found: set<XorName>, n: nat)
    requires forall a :: a in found ==> exists i :: 0 <= i < |names| && i < n && names[i] == a
    ensures |found| <= n
  {
    var first := if n < |names| then names[..n] else names;
    forall a | a in found ensures a in Elements(first) {
      var i :| 0 <= i < |names| && i < n && names[i] == a;
      assert first[i] == a;
    }
    ElementsSize(first);
    SubsetSize(found, Elements(first));
  }

  /** One fee output never gets more addresses accepted than it pays for. */
  ghost predicate BoundHolds(addrs: seq<XorName>, fee: Token)
    requires fee >= 1
  {
    forall tx: Tx, accepted: set<XorName> ::
      tx.fee.root == TreeRoot(addrs) && (forall a :: a in accepted ==> Acceptable(a, fee, tx)) ==>
        |accepted| <= tx.fee.token / fee
  }

  /** The bound holds exactly when the product for the last leaf of the tree fits in 64 bits.  (At a fee
      of 1 it can only fail to fit in a tree with more leaves than a 64-bit machine can number.) */
  lemma BoundExact(addrs: seq<XorName>, fee: Token)
    requires fee >= 1 && (fee == 1 ==> |Padded(addrs)| <= U64_MAX)
    ensures BoundHolds(addrs, fee) <==> fee * |Padded(addrs)| <= U64_MAX
  {
    if fee * |Padded(addrs)| <= U64_MAX {
      forall tx: Tx, accepted: set<XorName>
        | tx.fee.root == TreeRoot(addrs) && forall a :: a in accepted ==> Acceptable(a, fee, tx)
        ensures |accepted| <= tx.fee.token / fee
      {
        AcceptedAddressesArePaidFor(addrs, accepted, fee, tx);
      }
    } else {
      var tx, name := WrappedLeaf(addrs, fee);
      var accepted := {name};
      assert |accepted| > tx.fee.token / fee && forall a :: a in accepted ==> Acceptable(a, fee, tx);
    }
  }

  /** It holds for the fees that nodes ask, which start at 1 and double at most 21 times, in every tree
      of fewer than 2^43 leaves. */
  lemma BoundAtStoreCosts(addrs: seq<XorName>, fee: Token)
    requires 1 <= fee <= 0x20_0000 && |Padded(addrs)| < 0x800_0000_0000
    ensures BoundHolds(addrs, fee)
  {
    ProductMonotone(fee, 0x20_0000, |Padded(addrs)|, 0x7FF_FFFF_FFFF);
    BoundExact(addrs, fee);
  }

  /** The first leaf whose product wraps around is accepted for less than one fee. */
  lemma WrappedLeaf(addrs: seq<XorName>, fee: Token) returns (tx: Tx, name: XorName)
    requires fee >= 2 && fee * |Padded(addrs)| > U64_MAX
    ensures tx.fee.root == TreeRoot(addrs) && tx.fee.token / fee == 0 && Acceptable(name, fee, tx)
  {
    var i := FirstWrap(fee, |Padded(addrs)|);
    var rest := Due(fee, i);
    var token: Token := if rest == 0 then 1 else rest;
    name := Padded(addrs)[i];
    tx := Tx([], FeeOutput(FeeHash(TreeRoot(addrs), []), token, TreeRoot(addrs)));
    TrailVerdict(addrs, i, fee, tx);
    var p := ProofAt(addrs, i);
    assert VerifyFeeOutputAndProof(name, fee, tx, p.auditTrail, p.path).Ok?;
    QuotientRange(token, fee);
  }

  /** Past the limit, the first multiple of the fee wraps around to less than one fee. */
  lemma {:induction false} FirstWrap(fee: Token, n: nat) returns (i: nat)
    requires fee >= 1 && fee * n > U64_MAX
    ensures i < n && Due(fee, i) < fee
  {
    var below := fee * (n - 1);
    assert fee * n == below + fee;
    if below > U64_MAX {
      i := FirstWrap(fee, n - 1);
    } else {
      i := n - 1;
      WrapOnce(below + fee);
    }
  }

  lemma WrapOnce(n: nat)
    requires U64_MAX < n <= 2 * U64_MAX
    ensures Wrap64(n) == n - U64_MAX - 1
  {
  }

  /** For instance, though no node of this program asks so much: a node asking 2^63 takes the second of
      two addresses for a single nano. */
  lemma WrappedFeeAccepted(a: XorName, b: XorName)
    ensures var addrs, fee := [a, b], 0x8000_0000_0000_0000;
      var tx := Tx([], FeeOutput(FeeHash(TreeRoot(addrs), []), 1, TreeRoot(addrs)));
      Acceptable(b, fee, tx) && tx.fee.token / fee == 0
  {
    var addrs, fee: Token := [a, b], 0x8000_0000_0000_0000;
    var tx := Tx([], FeeOutput(FeeHash(TreeRoot(addrs), []), 1, TreeRoot(addrs)));
    TrailVerdict(addrs, 1, fee, tx);
    var p := ProofAt(addrs, 1);
    assert VerifyFeeOutputAndProof(b, fee, tx, p.auditTrail, p.path).Ok?;
  }

  /** The verdict on the trail generated for a leaf, with the reason for a refusal, in terms of the
      transaction alone. */
  lemma TrailVerdict(addrs: seq<XorName>, i: nat, cost: Token, tx: Tx)
    requires i < |Padded(addrs)| && tx.fee.root == TreeRoot(addrs)
    ensures var p := ProofAt(addrs, i);
      VerifyFeeOutputAndProof(Padded(addrs)[i], cost, tx, p.auditTrail, p.path) ==
        if !PaysUnderItsId(tx) then Err(PaymentProofInvalidFeeOutput(tx.fee.id))
        else if tx.fee.token < Due(cost, i) then Err(PaymentProofInsufficientAmount(tx.fee.token, Due(cost, i)))
        else Ok(())
  {
    BuiltProofValidates(addrs, i);
  }

  /** The transaction pays something, under the id that hashes the root and its inputs. */
  ghost predicate PaysUnderItsId(tx: Tx) {
    tx.fee.token >= 1 && tx.fee.id == FeeHash(tx.fee.root, tx.inputs)
  }

  /** Exactly what is accepted against a built root: an address with the very trail of one of its leaves,
      paid for up to that leaf. */
  lemma VerdictExactly(addrs: seq<XorName>, name: XorName, cost: Token, tx: Tx, auditTrail: seq<Digest>, path: seq<Bit>)
    requires tx.fee.root == TreeRoot(addrs)
    ensures VerifyFeeOutputAndProof(name, cost, tx, auditTrail, path).Ok? <==>
      && PaysUnderItsId(tx)
      && exists i: nat :: AtLeaf(addrs, name, TrailInfo(auditTrail, path), i) && Due(cost, i) <= tx.fee.token
  {
    var verdict := ValidatePaymentProof(name, tx.fee.root, auditTrail, path);
    if verdict.Ok? {
      AcceptedExactly(addrs, name, auditTrail, path, verdict.value);
      assert AtLeaf(addrs, name, TrailInfo(auditTrail, path), verdict.value);
    }
    forall i: nat | AtLeaf(addrs, name, TrailInfo(auditTrail, path), i) ensures verdict == Ok(i) {
      AcceptedExactly(addrs, name, auditTrail, path, i);
    }
  }

  /** The address sits at the leaf, and the trail is the one generated for it. */
  ghost predicate AtLeaf(addrs: seq<XorName>, name: XorName, trail: TrailInfo, i: nat) {
    i < |Padded(addrs)| && Padded(addrs)[i] == name && trail == ProofAt(addrs, i)
  }

  /** What the fee id check makes of the transfers that clients create: a plain transfer passes unless a
      payment is required, and a storage payment of anything at all passes either way. */
  lemma FeeIdOfTransfers(tx: Tx, root: Digest, payment: Token, required: bool)
    requires tx.fee == NO_FEE || (payment >= 1 && tx.fee == FeeOutput(FeeHash(root, tx.inputs), payment, root))
    ensures VerifyFeeOutputId(tx, required).Ok? <==> tx.fee != NO_FEE || !required
  {
  }

  /** Completeness across client and node: a fee output carrying `price` for each of the addresses
      makes every generated trail pass at every node asking no more than that price. */
  lemma PaidProofAccepted(addrs: seq<XorName>, i: nat, price: nat, cost: Token, tx: Tx)
    requires i < |addrs| && 1 <= price && cost <= price
    requires tx.fee.root == TreeRoot(addrs) && tx.fee.id == FeeHash(tx.fee.root, tx.inputs)
    requires tx.fee.token == price * |addrs|
    ensures var p := ProofAt(addrs, i);
      VerifyFeeOutputAndProof(addrs[i], cost, tx, p.auditTrail, p.path) == Ok(())
  {
    TrailVerdict(addrs, i, cost, tx);
    ProductMonotone(cost, price, i + 1, |addrs|);
    ProductMonotone(1, price, 1, |addrs|);
  }

  /** A leaf that is not paid for is refused exactly when the wrapped product is not covered either,
      or nothing is paid at all; in particular whenever the product does not wrap around. */
  lemma UnderpaidProofRefused(addrs: seq<XorName>, i: nat, cost: Token, tx: Tx)
    requires i < |addrs|
    requires tx.fee.root == TreeRoot(addrs) && tx.fee.id == FeeHash(tx.fee.root, tx.inputs)
    requires tx.fee.token < cost * (i + 1)
    ensures var p := ProofAt(addrs, i);
      var refused := VerifyFeeOutputAndProof(addrs[i], cost, tx, p.auditTrail, p.path).Err?;
      && (refused <==> tx.fee.token == 0 || tx.fee.token < Due(cost, i))
      && (cost * (i + 1) <= U64_MAX ==> refused)
  {
    TrailVerdict(addrs, i, cost, tx);
  }
}
