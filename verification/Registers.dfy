/** Registers: a permissioned Merkle register, signed operations, and their replay and merge. */
module Registers {
  import opened Common
  import opened MerkleReg
  import Nearest

  const MAX_REG_ENTRY_SIZE: nat := 1024
  const MAX_REG_NUM_ENTRIES: nat := 1024

  type PublicKey = nat

  datatype User = Anyone | Key(pk: PublicKey)

  datatype Address = Address(meta: nat, owner: PublicKey)

  /** A signature holds what was signed, and by whom. */
  datatype OpSignature = OpSignature(signer: PublicKey, address: Address, node: Node, source: User)

  datatype RegisterOp = RegisterOp(address: Address, node: Node, source: User, signature: Option<OpSignature>)

  datatype Register = Register(address: Address, writers: set<User>, data: Reg) {
    function Size(): nat { data.Size() }
  }

  datatype Error =
    | EntryTooBig(size: nat)
    | TooManyEntries(size: nat)
    | AccessDenied(user: User)
    | MissingSignature
    | InvalidSignature
    | RegisterAddrMismatch
    | DifferentBaseRegister

  // ---------- Checks ----------

  function CheckUserPermissions(r: Register, user: User): Result<(), Error> {
    if user == Key(r.address.owner) || Anyone in r.writers || user in r.writers then Ok(()) else Err(AccessDenied(user))
  }

  function VerifySignature(op: RegisterOp, pk: PublicKey): Result<(), Error> {
    if op.signature.None? then Err(MissingSignature)
    else if op.signature.value != SignatureOf(op, pk) then Err(InvalidSignature)
    else Ok(())
  }

  /** What a key signs of an operation: its address, node and source as they are at that time. */
  function SignatureOf(op: RegisterOp, signer: PublicKey): OpSignature {
    OpSignature(signer, op.address, op.node, op.source)
  }

  /** Puts a signature on an operation and makes the signer its source. */
  function AddSignature(op: RegisterOp, signer: PublicKey, signature: OpSignature): RegisterOp {
    op.(source := Key(signer), signature := Some(signature))
  }

  function CheckRegisterOp(r: Register, op: RegisterOp): Result<(), Error> {
    if CheckUserPermissions(r, op.source).Err? then CheckUserPermissions(r, op.source)
    else if Anyone in r.writers then Ok(())
    else match op.source
      case Anyone => Ok(())
      case Key(pk) => VerifySignature(op, pk)
  }

  function CheckEntryAndRegSizes(r: Register, entry: Entry): Result<(), Error> {
    if |entry| > MAX_REG_ENTRY_SIZE then Err(EntryTooBig(|entry|))
    else if r.Size() >= MAX_REG_NUM_ENTRIES then Err(TooManyEntries(r.Size()))
    else Ok(())
  }

  /** The first check an operation fails, if any. */
  function CheckOp(r: Register, op: RegisterOp): Result<(), Error> {
    if CheckEntryAndRegSizes(r, op.node.value).Err? then CheckEntryAndRegSizes(r, op.node.value)
    else if CheckRegisterOp(r, op).Err? then CheckRegisterOp(r, op)
    else if r.address != op.address then Err(RegisterAddrMismatch)
    else Ok(())
  }

  // ---------- Specification ----------

  ghost function WithNodes(r: Register, s: set<Node>): Register {
    r.(data := Canon(s))
  }

  ghost predicate Valid(r: Register) {
    Canonical(r.data)
  }

  /** An operation either fails a check and changes nothing, or adds its node. */
  ghost function Applied(r: Register, op: RegisterOp): Result<Register, Error> {
    match CheckOp(r, op)
    case Err(e) => Err(e)
    case Ok(_) => Ok(WithNodes(r, r.data.Nodes() + {op.node}))
  }

  ghost function Merged(r: Register, other: Register): Register {
    WithNodes(r, r.data.Nodes() + other.data.Nodes())
  }

  /** A replica, changed in place. */
  class Replica {
    var reg: Register

    constructor (r: Register)
      ensures reg == r
    {
      reg := r;
    }

    method ApplyOp(op: RegisterOp) returns (r: Result<(), Error>)
      requires Valid(reg)
      modifies this
      ensures match Applied(old(reg), op)
        case Ok(next) => r == Ok(()) && reg == next
        case Err(e) => r == Err(e) && unchanged(this)
    {
      r := CheckOp(reg, op);
      if r.Ok? {
        var data := MerkleReg.Apply(reg.data, op.node);
        reg := reg.(data := data);
      }
    }

    /** Writes an entry atop the given children and returns the unsigned operation. */
    method Write(entry: Entry, children: set<Hash>) returns (r: Result<(Hash, RegisterOp), Error>)
      requires Valid(reg)
      modifies this
      ensures var node := Node(entry, children);
        match CheckEntryAndRegSizes(old(reg), entry)
        case Err(e) => r == Err(e) && unchanged(this)
        case Ok(_) =>
          && reg == WithNodes(old(reg), old(reg).data.Nodes() + {node})
          && r == Ok((HashOf(node), RegisterOp(reg.address, node, Key(reg.address.owner), None)))
    {
      var check := CheckEntryAndRegSizes(reg, entry);
      if check.Err? {
        return Err(check.error);
      }
      var node := Node(entry, children);
      var data := MerkleReg.Apply(reg.data, node);
      reg := reg.(data := data);
      r := Ok((HashOf(node), RegisterOp(reg.address, node, Key(reg.address.owner), None)));
    }

    method Merge(other: Register)
      requires Valid(reg)
      modifies this
      ensures reg == Merged(old(reg), other)
    {
      var data := MerkleReg.Merge(reg.data, other.data);
      reg := reg.(data := data);
    }
  }

  // ---------- Replay ----------

  ghost function NodesOf(ops: seq<RegisterOp>): set<Node> {
    set op | op in ops :: op.node
  }

  ghost function Replay(base: Register, ops: seq<RegisterOp>): Result<Register, Error> {
    if ops == [] then Ok(base)
    else match Replay(base, ops[..|ops| - 1])
      case Err(e) => Err(e)
      case Ok(r) => Applied(r, ops[|ops| - 1])
  }

  /** What an operation must satisfy regardless of the state of the register. */
  ghost predicate Admissible(base: Register, op: RegisterOp) {
    |op.node.value| <= MAX_REG_ENTRY_SIZE && CheckRegisterOp(base, op).Ok? && base.address == op.address
  }

  /** The exact condition under which a replay succeeds: every operation is admissible, and there is
      still room for an entry when the last one is applied. */
  ghost predicate CanReplay(base: Register, ops: seq<RegisterOp>) {
    && (forall op :: op in ops ==> Admissible(base, op))
    && (ops != [] ==> |base.data.Nodes() + NodesOf(ops[..|ops| - 1])| < MAX_REG_NUM_ENTRIES)
  }

  lemma ApplyToCanonical(base: Register, s: set<Node>, op: RegisterOp)
    ensures Applied(WithNodes(base, s), op) ==
      if Admissible(base, op) && |s| < MAX_REG_NUM_ENTRIES then Ok(WithNodes(base, s + {op.node}))
      else Err(CheckOp(WithNodes(base, s), op).error)
  {
    CanonIsSettled(s);
    CanonicalSize(s);
  }

  lemma NodesOfLast(ops: seq<RegisterOp>)
    requires ops != []
    ensures NodesOf(ops) == NodesOf(ops[..|ops| - 1]) + {ops[|ops| - 1].node}
  {
  }

  /** A replay succeeds exactly when CanReplay holds, and then the register is the canonical one for
      all the nodes, whatever the order of the operations and however often they are repeated. */
  lemma {:induction false} ReplayResult(base: Register, ops: seq<RegisterOp>)
    requires Valid(base)
    ensures Replay(base, ops).Ok? <==> CanReplay(base, ops)
    ensures Replay(base, ops).Ok? ==> Replay(base, ops).value == WithNodes(base, base.data.Nodes() + NodesOf(ops))
  {
    if ops == [] {
      assert base.data.Nodes() + NodesOf(ops) == base.data.Nodes();
    } else {
      var init, last := ops[..|ops| - 1], ops[|ops| - 1];
      var s := base.data.Nodes() + NodesOf(init);
      ReplayResult(base, init);
      CanReplayInit(base, ops);
      if Replay(base, init).Ok? {
        ApplyToCanonical(base, s, last);
        NodesOfLast(ops);
        assert s + {last.node} == base.data.Nodes() + NodesOf(ops);
      }
    }
  }

  /** Room for the last operation leaves room for all the earlier ones. */
  lemma CanReplayInit(base: Register, ops: seq<RegisterOp>)
    requires ops != []
    ensures var init, last := ops[..|ops| - 1], ops[|ops| - 1];
      CanReplay(base, ops) <==>
        CanReplay(base, init) && Admissible(base, last) && |base.data.Nodes() + NodesOf(init)| < MAX_REG_NUM_ENTRIES
  {
    var init := ops[..|ops| - 1];
    assert ops == init + [ops[|ops| - 1]];
    if init != [] {
      NodesOfLast(init);
      Nearest.SubsetSize(base.data.Nodes() + NodesOf(init[..|init| - 1]), base.data.Nodes() + NodesOf(init));
    }
  }

  /** Convergence: two successful replays of the same operations, in any order and with repeats, end
      in the same DAG, orphans, roots and size. */
  lemma ReplaysConverge(base: Register, one: seq<RegisterOp>, two: seq<RegisterOp>)
    requires Valid(base) && Replay(base, one).Ok? && Replay(base, two).Ok?
    requires forall op :: op in one <==> op in two
    ensures Replay(base, one) == Replay(base, two)
  {
    ReplayResult(base, one);
    ReplayResult(base, two);
    assert NodesOf(one) == NodesOf(two);
  }

  /** Replaying all the operations, in any order, equals merging replays of two parts of them. */
  lemma {:induction false} ReplaysMerge(base: Register, one: seq<RegisterOp>, two: seq<RegisterOp>,
                                        all: seq<RegisterOp>)
    requires Valid(base) && Replay(base, one).Ok? && Replay(base, two).Ok? && Replay(base, all).Ok?
    requires forall op :: op in all <==> op in one || op in two
    ensures Replay(base, all).value == Merged(Replay(base, one).value, Replay(base, two).value)
  {
    ReplayResult(base, one);
    ReplayResult(base, two);
    ReplayResult(base, all);
    var s := base.data.Nodes();
    CanonIsSettled(s + NodesOf(one));
    CanonIsSettled(s + NodesOf(two));
    assert NodesOf(all) == NodesOf(one) + NodesOf(two);
    assert (s + NodesOf(one)) + (s + NodesOf(two)) == s + NodesOf(all);
  }

  /** `part` lists some of the operations of `all`, in the same order, as iterating a subset of an
      ordered set does. */
  ghost predicate Subsequence(part: seq<RegisterOp>, all: seq<RegisterOp>) {
    || part == []
    || (all != [] && (
          || (part[|part| - 1] == all[|all| - 1] && Subsequence(part[..|part| - 1], all[..|all| - 1]))
          || Subsequence(part, all[..|all| - 1])))
  }

  lemma {:induction false} SubsequenceMembers(part: seq<RegisterOp>, all: seq<RegisterOp>)
    requires Subsequence(part, all)
    ensures forall op :: op in part ==> op in all
    ensures part != [] ==> all != [] && NodesOf(part[..|part| - 1]) <= NodesOf(all[..|all| - 1])
    decreases |all|
  {
    if part != [] {
      var first, init := part[..|part| - 1], all[..|all| - 1];
      assert part == first + [part[|part| - 1]] && all == init + [all[|all| - 1]];
      if part[|part| - 1] == all[|all| - 1] && Subsequence(first, init) {
        SubsequenceMembers(first, init);
      } else {
        SubsequenceMembers(part, init);
      }
      NodesOfPart(first, init);
    }
  }

  lemma NodesOfPart(part: seq<RegisterOp>, all: seq<RegisterOp>)
    requires forall op :: op in part ==> op in all
    ensures NodesOf(part) <= NodesOf(all)
  {
  }

  /** When the replay of a merged set of operations succeeds, so does the replay of each part. */
  lemma PartReplays(base: Register, part: seq<RegisterOp>, all: seq<RegisterOp>)
    requires Valid(base) && Replay(base, all).Ok? && Subsequence(part, all)
    ensures Replay(base, part).Ok?
  {
    ReplayResult(base, all);
    ReplayResult(base, part);
    SubsequenceMembers(part, all);
    if part != [] {
      var before := base.data.Nodes();
      Nearest.SubsetSize(before + NodesOf(part[..|part| - 1]), before + NodesOf(all[..|all| - 1]));
    }
  }

  /** The replay of a merged register: the operations of either part are listed in the same order as
      among all of them, so when the whole replay succeeds both parts do, and merging the two
      registers they give is the same as replaying everything. */
  lemma ReplayOfUnionIsMerge(base: Register, one: seq<RegisterOp>, two: seq<RegisterOp>, all: seq<RegisterOp>)
    requires Valid(base) && Replay(base, all).Ok?
    requires Subsequence(one, all) && Subsequence(two, all) && forall op :: op in all ==> op in one || op in two
    ensures Replay(base, one).Ok? && Replay(base, two).Ok?
    ensures Replay(base, all).value == Merged(Replay(base, one).value, Replay(base, two).value)
  {
    PartReplays(base, one, all);
    PartReplays(base, two, all);
    SubsequenceMembers(one, all);
    SubsequenceMembers(two, all);
    ReplaysMerge(base, one, two, all);
  }

  // ---------- Signed registers ----------

  /** The owner's signature over the base register. */
  datatype BaseSignature = BaseSignature(signer: PublicKey, register: Register)

  datatype SignedRegister = SignedRegister(base: Register, signature: BaseSignature, ops: set<RegisterOp>) {
    /** The base is signed by its owner and every operation is permitted and signed. */
    predicate Verified() {
      && signature == BaseSignature(base.address.owner, base)
      && forall op :: op in ops ==> CheckRegisterOp(base, op).Ok?
    }
  }

  ghost function SetNodes(ops: set<RegisterOp>): set<Node> {
    set op | op in ops :: op.node
  }

  /** A signed register, changed in place. */
  class SignedCell {
    var signed: SignedRegister

    constructor (s: SignedRegister)
      ensures signed == s
    {
      signed := s;
    }

    /** Takes in the operations of a register with the same base.  Nothing is checked, so a verified
        register stays verified exactly when the base permits all that came in. */
    method Merge(other: SignedRegister) returns (r: Result<(), Error>)
      modifies this
      ensures r.Ok? <==> old(signed).base == other.base
      ensures signed == if r.Ok? then old(signed).(ops := old(signed).ops + other.ops) else old(signed)
      ensures r.Err? ==> r.error == DifferentBaseRegister
      ensures r.Ok? && old(signed).Verified() ==>
        (signed.Verified() <==> forall op :: op in other.ops ==> CheckRegisterOp(other.base, op).Ok?)
    {
      if signed.base != other.base {
        return Err(DifferentBaseRegister);
      }
      signed := signed.(ops := signed.ops + other.ops);
      r := Ok(());
    }

    /** As Merge, but only for an other register that verifies. */
    method VerifiedMerge(other: SignedRegister) returns (r: Result<(), Error>)
      modifies this
      ensures r.Ok? <==> old(signed).base == other.base && other.Verified()
      ensures signed == if r.Ok? then old(signed).(ops := old(signed).ops + other.ops) else old(signed)
      ensures old(signed).Verified() ==> signed.Verified()
    {
      if signed.base != other.base {
        return Err(DifferentBaseRegister);
      }
      if !other.Verified() {
        return Err(InvalidSignature);
      }
      signed := signed.(ops := signed.ops + other.ops);
      r := Ok(());
    }

    method AddOp(op: RegisterOp) returns (r: Result<(), Error>)
      modifies this
      ensures r == CheckRegisterOp(old(signed).base, op)
      ensures signed == if r.Ok? then old(signed).(ops := old(signed).ops + {op}) else old(signed)
      ensures old(signed).Verified() ==> signed.Verified()
    {
      r := CheckRegisterOp(signed.base, op);
      if r.Ok? {
        signed := signed.(ops := signed.ops + {op});
      }
    }
  }

  /** All operations are admissible and their nodes together stay below the limit. */
  ghost predicate AllFit(s: SignedRegister) {
    && (forall op :: op in s.ops ==> Admissible(s.base, op))
    && |s.base.data.Nodes() + SetNodes(s.ops)| < MAX_REG_NUM_ENTRIES
  }

  /** The register after the given operations, in terms of their nodes alone. */
  ghost function AfterOps(base: Register, ops: set<RegisterOp>): Register {
    WithNodes(base, base.data.Nodes() + SetNodes(ops))
  }

  lemma {:induction false} PrefixFails(base: Register, ops: seq<RegisterOp>, i: nat)
    requires i <= |ops| && Replay(base, ops[..i]).Err?
    ensures Replay(base, ops) == Replay(base, ops[..i])
  {
    if i < |ops| {
      var init := ops[..|ops| - 1];
      assert init[..i] == ops[..i];
      PrefixFails(base, init, i);
    } else {
      assert ops[..i] == ops;
    }
  }

  lemma FitReplays(s: SignedRegister, order: seq<RegisterOp>)
    requires Nearest.Elements(order) == s.ops && AllFit(s)
    ensures CanReplay(s.base, order)
  {
    if order != [] {
      var init := order[..|order| - 1];
      Nearest.SubsetSize(s.base.data.Nodes() + NodesOf(init), s.base.data.Nodes() + SetNodes(s.ops));
    }
  }

  /** Applies every operation to the base, in the order in which the set lists them, until one fails.
      It succeeds exactly when every operation is admissible and there is room up to the last one, and
      then any order gives the same register; when all the nodes together stay below the limit, every
      order succeeds. */
  method RegisterOf(s: SignedRegister, order: seq<RegisterOp>) returns (r: Result<Register, Error>)
    requires Valid(s.base) && Nearest.Elements(order) == s.ops
    ensures r == Replay(s.base, order) && (r.Ok? <==> CanReplay(s.base, order))
    ensures r.Ok? ==> r.value == AfterOps(s.base, s.ops)
    ensures AllFit(s) ==> r.Ok?
  {
    r := ApplyAll(s.base, order);
    ReplayResult(s.base, order);
    assert NodesOf(order) == SetNodes(s.ops) by {
      assert forall op :: op in order <==> op in Nearest.Elements(order);
    }
    if AllFit(s) { FitReplays(s, order); }
  }

  /** The loop over the operations. */
  method ApplyAll(base: Register, ops: seq<RegisterOp>) returns (r: Result<Register, Error>)
    requires Valid(base)
    ensures r == Replay(base, ops)
  {
    var replica := new Replica(base);
    for i := 0 to |ops|
      invariant Replay(base, ops[..i]) == Ok(replica.reg) && Valid(replica.reg)
    {
      ReplayNext(base, ops, i);
      var result := replica.ApplyOp(ops[i]);
      if result.Err? {
        PrefixFails(base, ops, i + 1);
        return Err(result.error);
      }
    }
    assert ops[..|ops|] == ops;
    r := Ok(replica.reg);
  }

  lemma ReplayNext(base: Register, ops: seq<RegisterOp>, i: nat)
    requires i < |ops| && Replay(base, ops[..i]).Ok?
    ensures Replay(base, ops[..i + 1]) == Applied(Replay(base, ops[..i]).value, ops[i])
    ensures Replay(base, ops[..i + 1]).Ok? ==> Valid(Replay(base, ops[..i + 1]).value)
  {
    assert ops[..i + 1][..i] == ops[..i];
    CanonIsSettled(Replay(base, ops[..i]).value.data.Nodes() + {ops[i].node});
  }

  // ---------- The node's store step ----------

  datatype StoreError = RegisterInvalid | RegisterNotMerged

  function Held(records: map<Address, SignedRegister>, a: Address): Option<SignedRegister> {
    if a in records then Some(records[a]) else None
  }

  class RegisterNode {
    var records: map<Address, SignedRegister>

    /** Records are held under their own address. */
    ghost predicate Valid()
      reads this
    {
      forall a :: a in records ==> records[a].base.address == a
    }

    /** A register that does not verify is refused.  A first one is stored as it is; later ones are
        merged into it, and refused when their base differs.  The answer tells whether anything was new. */
    method ValidateAndStoreRegister(incoming: SignedRegister) returns (r: Result<bool, StoreError>)
      requires Valid()
      modifies this
      ensures Valid()
      ensures forall a :: Held(records, a) == StoreFrom(Held(old(records), a), incoming, a)
      ensures var local := Held(old(records), incoming.base.address);
        && (r == Err(RegisterInvalid) <==> !incoming.Verified())
        && (r == Err(RegisterNotMerged) <==>
              incoming.Verified() && local.Some? && local.value.base != incoming.base)
        && (r == Ok(false) <==>
              && incoming.Verified() && local.Some? && local.value.base == incoming.base
              && incoming.ops <= local.value.ops)
      ensures r != Ok(true) ==> unchanged(this)
    {
      var address := incoming.base.address;
      if !incoming.Verified() {
        return Err(RegisterInvalid);
      }
      if address !in records {
        records := records[address := incoming];
        return Ok(true);
      }
      var local := records[address];
      var cell := new SignedCell(local);
      var merge := cell.VerifiedMerge(incoming);
      if merge.Err? {
        return Err(RegisterNotMerged);
      }
      assert cell.signed == local <==> incoming.ops <= local.ops by {
        assert cell.signed.ops == local.ops <==> incoming.ops <= local.ops;
      }
      if cell.signed == local {
        return Ok(false);
      }
      records := records[address := cell.signed];
      r := Ok(true);
    }
  }

  /** What is held under an address after one more register has arrived. */
  function StoreFrom(record: Option<SignedRegister>, incoming: SignedRegister, a: Address): Option<SignedRegister> {
    if incoming.base.address != a || !incoming.Verified() then record
    else if record.None? then Some(incoming)
    else if record.value.base != incoming.base then record
    else Some(record.value.(ops := record.value.ops + incoming.ops))
  }

  function StoreStep(record: SignedRegister, incoming: SignedRegister): SignedRegister {
    StoreFrom(Some(record), incoming, record.base.address).value
  }

  function StoreRun(record: SignedRegister, arrivals: seq<SignedRegister>): SignedRegister {
    if arrivals == [] then record
    else StoreStep(StoreRun(record, arrivals[..|arrivals| - 1]), arrivals[|arrivals| - 1])
  }

  /** The operations of the arrivals that verify and share the base of the record. */
  ghost function Accepted(base: Register, arrivals: seq<SignedRegister>): set<RegisterOp> {
    set s, op | s in arrivals && s.base == base && s.Verified() && op in s.ops :: op
  }

  lemma AcceptedLast(base: Register, arrivals: seq<SignedRegister>)
    requires arrivals != []
    ensures var init, last := arrivals[..|arrivals| - 1], arrivals[|arrivals| - 1];
      Accepted(base, arrivals) == Accepted(base, init) + if last.base == base && last.Verified() then last.ops else {}
  {
  }

  /** Over every run the record keeps its base and holds exactly the operations it started with and
      those of every accepted arrival; so the same arrivals in any order leave the same record. */
  lemma {:induction false} StoreRunIsUnion(record: SignedRegister, arrivals: seq<SignedRegister>)
    ensures StoreRun(record, arrivals) == record.(ops := record.ops + Accepted(record.base, arrivals))
  {
    if arrivals == [] {
      assert record.ops + Accepted(record.base, arrivals) == record.ops;
    } else {
      var init, last := arrivals[..|arrivals| - 1], arrivals[|arrivals| - 1];
      StoreRunIsUnion(record, init);
      AcceptedLast(record.base, arrivals);
    }
  }

  lemma StoreRunsConverge(record: SignedRegister, one: seq<SignedRegister>, two: seq<SignedRegister>)
    requires forall s :: s in one <==> s in two
    ensures StoreRun(record, one) == StoreRun(record, two)
  {
    StoreRunIsUnion(record, one);
    StoreRunIsUnion(record, two);
    assert Accepted(record.base, one) == Accepted(record.base, two);
  }

  // ---------- Runs from no record ----------

  function StoreRunFrom(record: Option<SignedRegister>, arrivals: seq<SignedRegister>, a: Address)
    : Option<SignedRegister>
  {
    if arrivals == [] then record
    else StoreFrom(StoreRunFrom(record, arrivals[..|arrivals| - 1], a), arrivals[|arrivals| - 1], a)
  }

  ghost predicate Qualifies(s: SignedRegister, a: Address) {
    s.base.address == a && s.Verified()
  }

  /** The base of the first register for the address that verifies. */
  ghost function FirstBase(arrivals: seq<SignedRegister>, a: Address): Option<Register> {
    if arrivals == [] then None
    else
      var before, last := FirstBase(arrivals[..|arrivals| - 1], a), arrivals[|arrivals| - 1];
      if before.Some? then before else if Qualifies(last, a) then Some(last.base) else None
  }

  lemma {:induction false} FirstBaseIs(arrivals: seq<SignedRegister>, a: Address)
    ensures match FirstBase(arrivals, a)
      case None => forall i :: 0 <= i < |arrivals| ==> !Qualifies(arrivals[i], a)
      case Some(base) => exists n ::
        && 0 <= n < |arrivals| && Qualifies(arrivals[n], a) && arrivals[n].base == base
        && forall i :: 0 <= i < n ==> !Qualifies(arrivals[i], a)
  {
    if arrivals != [] {
      var init := arrivals[..|arrivals| - 1];
      FirstBaseIs(init, a);
      assert forall i :: 0 <= i < |init| ==> init[i] == arrivals[i];
    }
  }

  /** Over every run from no record: nothing is held until a register for the address verifies, and from
      then on exactly the operations of all verified arrivals with the base of that first one. */
  lemma {:induction false} StoreRunFromNothing(arrivals: seq<SignedRegister>, a: Address)
    ensures StoreRunFrom(None, arrivals, a) == match FirstBase(arrivals, a)
      case None => None
      case Some(base) => Some(SignedRegister(base, BaseSignature(base.address.owner, base), Accepted(base, arrivals)))
    ensures FirstBase(arrivals, a).Some? ==> FirstBase(arrivals, a).value.address == a
    ensures FirstBase(arrivals, a).None? ==> forall s :: s in arrivals ==> !Qualifies(s, a)
  {
    if arrivals != [] {
      var init, last := arrivals[..|arrivals| - 1], arrivals[|arrivals| - 1];
      StoreRunFromNothing(init, a);
      var base := FirstBase(arrivals, a);
      if base.Some? {
        AcceptedLast(base.value, arrivals);
        var before := Accepted(base.value, init);
        assert before + {} == before && {} + last.ops == last.ops;
        if FirstBase(init, a).None? {
          assert before == {};
        }
      }
    }
  }

  /** That nodes starting with nothing converge on the same arrivals is not always so: they do if and
      only if the first register that verified had the same base at both. */
  lemma RunsFromNothingConverge(one: seq<SignedRegister>, two: seq<SignedRegister>, a: Address)
    requires forall s :: s in one <==> s in two
    ensures StoreRunFrom(None, one, a) == StoreRunFrom(None, two, a) <==> FirstBase(one, a) == FirstBase(two, a)
  {
    StoreRunFromNothing(one, a);
    StoreRunFromNothing(two, a);
    if FirstBase(one, a).Some? {
      assert Accepted(FirstBase(one, a).value, one) == Accepted(FirstBase(one, a).value, two);
    }
  }

  /** For instance: two registers of one owner at one address with different writers, in either order. */
  lemma FirstBaseWins(one: SignedRegister, two: SignedRegister)
    requires one.Verified() && two.Verified() && one.base.address == two.base.address && one.base != two.base
    ensures StoreRunFrom(None, [one, two], one.base.address) == Some(one)
    ensures StoreRunFrom(None, [two, one], one.base.address) == Some(two)
  {
    var a := one.base.address;
    assert [one, two][..1] == [one] && [two, one][..1] == [two] && [one][..0] == [] && [two][..0] == [];
    assert StoreRunFrom(None, [one], a) == Some(one) && StoreRunFrom(None, [two], a) == Some(two);
  }

  // ---------- Who and what is accepted ----------

  /** Exactly which operations a register accepts: any at all when anyone may write, and otherwise those
      that the owner or a named writer has signed, over this very address, node and source. */
  lemma AcceptedOps(r: Register, op: RegisterOp)
    ensures CheckRegisterOp(r, op).Ok? <==>
      || Anyone in r.writers
      || (&& op.source.Key? && (op.source.pk == r.address.owner || op.source in r.writers)
          && op.signature == Some(OpSignature(op.source.pk, op.address, op.node, op.source)))
    ensures CheckUserPermissions(r, op.source).Ok? <==>
      Anyone in r.writers || op.source in r.writers || op.source == Key(r.address.owner)
  {
  }

  /** Exactly which signed registers verify: the owner has signed this very base, and every operation is
      accepted. */
  lemma VerifiedRegisters(s: SignedRegister)
    ensures s.Verified() <==>
      && s.signature.signer == s.base.address.owner && s.signature.register == s.base
      && forall op :: op in s.ops ==> CheckRegisterOp(s.base, op).Ok?
  {
  }

  /** Why an operation is refused: the first check that it fails. */
  lemma RefusedOps(r: Register, op: RegisterOp)
    ensures var check, n := CheckOp(r, op), |op.node.value|;
      && (check == Err(EntryTooBig(n)) <==> n > MAX_REG_ENTRY_SIZE)
      && (check == Err(TooManyEntries(r.Size())) <==> n <= MAX_REG_ENTRY_SIZE && r.Size() >= MAX_REG_NUM_ENTRIES)
      && (check.Err? && check.error.AccessDenied? ==> CheckUserPermissions(r, op.source).Err?)
      && (check == Err(MissingSignature) ==> op.signature == None)
      && (check == Err(RegisterAddrMismatch) ==> op.address != r.address && CheckRegisterOp(r, op).Ok?)
      && (check.Ok? <==>
            && n <= MAX_REG_ENTRY_SIZE && r.Size() < MAX_REG_NUM_ENTRIES
            && CheckRegisterOp(r, op).Ok? && op.address == r.address)
  {
  }

  /** Passing verification does not promise that the operations replay: verification looks at
      neither the target address nor the sizes. */
  lemma VerifiedNeedNotReplay()
    ensures exists s: SignedRegister, op :: s.Verified() && Valid(s.base) && s.ops == {op} && Replay(s.base, [op]).Err?
  {
    var base := Register(Address(0, 1), {Anyone}, Canon({}));
    CanonIsSettled({});
    var op := RegisterOp(Address(5, 1), Node([], {}), Anyone, None);
    var s := SignedRegister(base, BaseSignature(1, base), {op});
    ReplayResult(base, [op]);
    assert op in [op] && !Admissible(base, op);
    assert s.Verified();
  }
}
