/** A client's offline register: local writes, the queue of operations, and their publication. */
module ClientRegister {
  import opened Common
  import opened MerkleReg
  import opened Registers
  import Nearest

  // ---------- Writing atop all branches ----------

  ghost function MaxOf(s: set<nat>): (m: nat)
    ensures forall x :: x in s ==> x <= m
  {
    if s == {} then 0
    else
      var x :| x in s;
      var rest := MaxOf(s - {x});
      assert s == (s - {x}) + {x};
      if x > rest then x else rest
  }

  /** The length of the longest chain of nodes below a hash. */
  ghost function Height(h: Hash): nat
    decreases h, 1
  {
    if h.Unknown? then 0 else 1 + MaxOf(ChildHeights(h.node))
  }

  ghost function ChildHeights(n: Node): set<nat>
    decreases n, 0
  {
    set c | c in n.children :: Height(c)
  }

  lemma ParentIsHigher(c: Hash, n: Node)
    requires c in n.children
    ensures Height(c) < Height(HashOf(n))
  {
    assert Height(c) in ChildHeights(n);
  }

  /** A register with any entry in its DAG has a current entry: the one on top of the longest chain. */
  lemma RootExists(dag: set<Node>)
    requires dag != {}
    ensures Roots(dag) != {}
  {
    var depth: Node -> int := (n: Node) => 0 - Height(HashOf(n));
    Nearest.LeastExists(dag, depth);
    var top :| top in dag && forall n :: n in dag ==> depth(top) <= depth(n);
    forall n: Node ensures HashOf(top) in n.children ==> depth(n) < depth(top) {
      if HashOf(top) in n.children { ParentIsHigher(HashOf(top), n); }
    }
    assert HashOf(top) in Roots(dag);
  }

  /** No node of a DAG has exactly the current entries as its children. */
  lemma NoNodeHoldsTheRoots(dag: set<Node>, n: Node)
    requires n in dag
    ensures n.children != Roots(dag)
  {
    RootExists(dag);
    var h :| h in Roots(dag);
    assert h in n.children ==> Superseded(h, dag);
  }

  /** The node written when all branches are merged. */
  ghost function MergingNode(r: Reg, entry: Entry): Node {
    Node(entry, r.roots)
  }

  lemma MergingNodeIsNew(r: Reg, entry: Entry)
    requires Canonical(r)
    ensures MergingNode(r, entry) !in r.Nodes() && AllSeen(MergingNode(r, entry), r.dag)
  {
    var n := MergingNode(r, entry);
    CanonIsSettled(r.Nodes());
    assert AllSeen(n, r.dag);
    assert n in r.dag ==> n.children != Roots(r.dag) by {
      if n in r.dag { NoNodeHoldsTheRoots(r.dag, n); }
    }
  }

  /** Merging all branches leaves the new entry as the only current one exactly when no waiting
      orphan becomes ready by it; in particular whenever there are no orphans. */
  lemma MergingWriteLeavesOneEntry(r: Reg, entry: Entry)
    requires Canonical(r)
    ensures var n := MergingNode(r, entry);
      Canon(r.Nodes() + {n}).Read() == {(HashOf(n), entry)} <==>
        forall o :: o in r.orphans ==> !AllSeen(o, r.dag + {n})
  {
    var n := MergingNode(r, entry);
    var r' := Canon(r.Nodes() + {n});
    var ready := set m | m in r.orphans && AllSeen(m, r.dag + {n});
    MergingNodeIsNew(r, entry);
    if ready == {} {
      InsertIsCanonical(r, n, ready);
      assert r' == Reg(r.dag + {n}, r.orphans, {HashOf(n)}) by {
        assert r.orphans - ready == r.orphans && r.roots - n.children == {};
        assert (r.dag + {n}) + r.orphans == r.Nodes() + {n};
      }
      assert r'.Read() == {(HashOf(n), entry)};
    } else {
      var o :| o in ready;
      CanonIsSettled(r.Nodes() + {n});
      CanonGrows(r.Nodes(), n);
      AllSeenGrows(o, r.dag + {n}, r'.dag);
      CanonIsSettled(r.Nodes());
      assert HashOf(n) in o.children;
      assert Superseded(HashOf(n), r'.dag);
      assert (HashOf(n), entry) !in r'.Read();
    }
  }

  // ---------- The queue ----------

  // The queue is published from the back, so in the order of Reversed.

  lemma {:induction false} ReversedPushFront(op: RegisterOp, q: seq<RegisterOp>)
    ensures Reversed([op] + q) == Reversed(q) + [op]
  {
    var s := [op] + q;
    if q == [] {
      assert s == [op] && s[..0] == [];
    } else {
      var init, last := q[..|q| - 1], q[|q| - 1];
      ReversedPushFront(op, init);
      assert s[|s| - 1] == last && s[..|s| - 1] == [op] + init;
      assert Reversed(s) == [last] + (Reversed(init) + [op]);
      assert [last] + (Reversed(init) + [op]) == ([last] + Reversed(init)) + [op];
    }
  }

  // ---------- Signing and publishing ----------

  /** The operation a client queues for a node it wrote: the unsigned operation names the owner as its
      source, it is signed like that, and only then is the signer made its source. */
  function QueuedOp(address: Address, node: Node, signer: PublicKey): (op: RegisterOp)
    ensures op.address == address && op.node == node && op.source == Key(signer)
    ensures op.signature == Some(OpSignature(signer, address, node, Key(address.owner)))
  {
    var unsigned := RegisterOp(address, node, Key(address.owner), None);
    AddSignature(unsigned, signer, SignatureOf(unsigned, signer))
  }

  /** Permission to write is not enough: the queued operation passes the checks if and only if the
      signer owns the register or anyone may write to it. */
  lemma QueuedOpChecks(r: Register, node: Node, signer: PublicKey)
    requires CheckUserPermissions(r, Key(signer)).Ok?
    ensures CheckRegisterOp(r, QueuedOp(r.address, node, signer)).Ok? <==>
      signer == r.address.owner || Anyone in r.writers
  {
  }

  /** For instance: a writer named in the permissions of a register of somebody else. */
  lemma WriterOpRefused()
    ensures exists r: Register, signer: PublicKey ::
      && CheckUserPermissions(r, Key(signer)).Ok?
      && forall node :: CheckRegisterOp(r, QueuedOp(r.address, node, signer)) == Err(InvalidSignature)
  {
    var r := Register(Address(0, 1), {Key(2)}, Reg({}, {}, {}));
    assert CheckUserPermissions(r, Key(2)).Ok?;
    assert forall node :: CheckRegisterOp(r, QueuedOp(r.address, node, 2)) == Err(InvalidSignature);
  }

  /** One attempt to publish: the copy read from the network, if any, and whether the put succeeds. */
  datatype Attempt = Attempt(copy: Option<SignedRegister>, stored: bool)

  predicate Publishes(a: Attempt, op: RegisterOp) {
    a.copy.Some? && CheckRegisterOp(a.copy.value.base, op).Ok? && a.stored
  }

  /** Adds the operation to the copy and puts it back; a verified copy stays verified, so that nodes
      take it. */
  method PublishRegister(op: RegisterOp, a: Attempt) returns (r: Result<SignedRegister, ()>)
    ensures r.Ok? <==> Publishes(a, op)
    ensures r.Ok? ==> r.value == a.copy.value.(ops := a.copy.value.ops + {op})
    ensures r.Ok? && a.copy.value.Verified() ==> r.value.Verified()
  {
    if a.copy.None? {
      return Err(());
    }
    var cell := new SignedCell(a.copy.value);
    var added := cell.AddOp(op);
    if added.Err? || !a.stored {
      return Err(());
    }
    r := Ok(cell.signed);
  }

  /** The network holds the register with this address, and does not let just anyone write. */
  ghost predicate Guarded(a: Attempt, address: Address) {
    a.copy.Some? ==> a.copy.value.base.address == address && Anyone !in a.copy.value.base.writers
  }

  /** The network holds the register and lets this signer's operations through. */
  ghost predicate Welcome(a: Attempt, address: Address, signer: PublicKey) {
    && a.stored && a.copy.Some? && a.copy.value.base.address == address
    && (signer == address.owner || Anyone in a.copy.value.base.writers)
  }

  lemma GuardedRefuses(a: Attempt, op: RegisterOp, address: Address, signer: PublicKey)
    requires Guarded(a, address) && op == QueuedOp(address, op.node, signer) && signer != address.owner
    ensures !Publishes(a, op)
  {
  }

  lemma WelcomeAccepts(a: Attempt, op: RegisterOp, address: Address, signer: PublicKey)
    requires Welcome(a, address, signer) && op == QueuedOp(address, op.node, signer)
    ensures Publishes(a, op)
  {
  }

  class ClientReg {
    const signer: PublicKey
    var register: Register
    /** New operations enter at the front and are published from the back. */
    var ops: seq<RegisterOp>
    /** History: everything written locally, and everything published with success, in order. */
    ghost var written: seq<RegisterOp>
    ghost var published: seq<RegisterOp>

    /** Nothing is lost, repeated or reordered between writing and publishing. */
    ghost predicate Valid()
      reads this
    {
      && Registers.Valid(register) && published + Reversed(ops) == written
      && forall op :: op in ops ==> op == QueuedOp(register.address, op.node, signer)
    }

    constructor (signer: PublicKey, register: Register)
      requires Registers.Valid(register)
      ensures Valid() && this.signer == signer && this.register == register
      ensures ops == [] && written == [] && published == []
    {
      this.signer, this.register := signer, register;
      ops, written, published := [], [], [];
    }

    /** Puts a written operation at the front of the queue. */
    method Enqueue(op: RegisterOp)
      requires Valid() && op == QueuedOp(register.address, op.node, signer)
      modifies this`ops, this`written
      ensures Valid() && ops == [op] + old(ops) && written == old(written) + [op]
    {
      ReversedPushFront(op, ops);
      Associative(published, Reversed(ops), [op]);
      ops := [op] + ops;
      written := written + [op];
    }

    /** Writes atop the given children, signs the operation and queues it.  A refused write changes
        nothing.  A write by a permitted writer other than the owner of a register that not everyone
        may write to is taken in here, but the operation queued for it fails its checks. */
    method WriteAtop(entry: Entry, children: set<Hash>) returns (r: Result<(), Error>)
      requires Valid()
      modifies this
      ensures Valid() && published == old(published)
      ensures r.Ok? <==>
        CheckUserPermissions(old(register), Key(signer)).Ok? && CheckEntryAndRegSizes(old(register), entry).Ok?
      ensures r.Err? ==> unchanged(this)
      ensures r.Ok? ==>
        var op := QueuedOp(old(register).address, Node(entry, children), signer);
        && (CheckRegisterOp(old(register), op).Ok? <==>
              signer == old(register).address.owner || Anyone in old(register).writers)
        && register == WithNodes(old(register), old(register).data.Nodes() + {op.node})
        && ops == [op] + old(ops) && written == old(written) + [op]
    {
      var permitted := CheckUserPermissions(register, Key(signer));
      if permitted.Err? {
        return Err(permitted.error);
      }
      var replica := new Replica(register);
      var write := replica.Write(entry, children);
      if write.Err? {
        return Err(write.error);
      }
      CanonIsSettled(register.data.Nodes() + {Node(entry, children)});
      register := replica.reg;
      var op := write.value.1;
      Enqueue(AddSignature(op, signer, SignatureOf(op, signer)));
      r := Ok(());
    }

    /** Writes atop all current entries. */
    method WriteMergingBranches(entry: Entry) returns (r: Result<(), Error>)
      requires Valid()
      modifies this
      ensures Valid() && published == old(published)
      ensures r.Ok? <==>
        CheckUserPermissions(old(register), Key(signer)).Ok? && CheckEntryAndRegSizes(old(register), entry).Ok?
      ensures r.Err? ==> unchanged(this)
      ensures r.Ok? ==>
        var n := MergingNode(old(register).data, entry);
        var op := QueuedOp(old(register).address, n, signer);
        && ops == [op] + old(ops) && written == old(written) + [op]
        && register == WithNodes(old(register), old(register).data.Nodes() + {n})
        && (register.data.Read() == {(HashOf(n), entry)} <==>
              forall o :: o in old(register).data.orphans ==> !AllSeen(o, old(register).data.dag + {n}))
    {
      var children := set e | e in register.data.Read() :: e.0;
      ReadIsRoots(register.data);
      MergingWriteLeavesOneEntry(register.data, entry);
      r := WriteAtop(entry, children);
    }

    /** Publishes the queue, oldest first, with the given attempts.  On the first failure the operation
        goes back to the end it came from.  Where the network lets the signer's operations through
        everything is published; where it does not, nothing ever is. */
    method Push(attempts: nat -> Attempt) returns (r: Result<(), ()>)
      requires Valid()
      modifies this`ops, this`published
      ensures Valid() && PushResult(Reversed(old(ops)), old(published), Reversed(ops), published, attempts, r.Ok?)
      ensures (forall i :: Welcome(attempts(i), register.address, signer)) ==> r.Ok?
      ensures signer != register.address.owner && (forall i :: Guarded(attempts(i), register.address)) ==>
        published == old(published) && ops == old(ops) && (r.Ok? <==> ops == [])
    {
      ghost var queue := Reversed(ops);
      ReversedMembers(ops);
      r := PushAll(attempts);
      assert forall op :: op in queue ==> op == QueuedOp(register.address, op.node, signer);
      PushOutcome(queue, old(published), Reversed(ops), published, attempts, r.Ok?, register.address, signer);
      if Reversed(ops) == queue { ReversedInjective(ops, old(ops)); }
    }

    /** The loop over the queue. */
    method PushAll(attempts: nat -> Attempt) returns (r: Result<(), ()>)
      requires Valid()
      modifies this`ops, this`published
      ensures Valid()
      ensures PushResult(Reversed(old(ops)), old(published), Reversed(ops), published, attempts, r.Ok?)
    {
      ghost var queue, was := Reversed(ops), published;
      var attempt := 0;
      while ops != []
        invariant Pushing(queue, was, ops, published, attempts, attempt)
        invariant forall op :: op in ops ==> op in old(ops)
        decreases |ops|
      {
        TakeNext(queue, ops, attempt);
        var cmd := ops[|ops| - 1];
        var result := PublishRegister(cmd, attempts(attempt));
        if result.Err? {
          PushingEnds(queue, was, ops, published, attempts, attempt);
          ops := ops[..|ops| - 1] + [cmd];
          return Err(());
        }
        PushingStep(queue, was, ops, ops[..|ops| - 1], published, attempts, attempt);
        ops := ops[..|ops| - 1];
        published := published + [cmd];
        attempt := attempt + 1;
      }
      PushingEnds(queue, was, ops, published, attempts, attempt);
      r := Ok(());
    }
  }

  /** In the middle of a push: the first n operations of the queue have been published. */
  ghost predicate Pushing(queue: seq<RegisterOp>, was: seq<RegisterOp>, ops: seq<RegisterOp>,
                          published: seq<RegisterOp>, attempts: nat -> Attempt, n: nat)
  {
    && n <= |queue| && published == was + queue[..n] && Reversed(ops) == queue[n..]
    && forall i :: 0 <= i < n ==> Publishes(attempts(i), queue[i])
  }

  /** Publishing takes the next operation of the queue from the back of the list. */
  lemma {:induction false} TakeNext(queue: seq<RegisterOp>, ops: seq<RegisterOp>, n: nat)
    requires n <= |queue| && Reversed(ops) == queue[n..] && ops != []
    ensures n < |queue| && queue[n] == ops[|ops| - 1] && ops == ops[..|ops| - 1] + [queue[n]]
    ensures Reversed(ops[..|ops| - 1]) == queue[n + 1..]
  {
    var tail := Reversed(ops);
    assert tail[0] == queue[n] && tail[1..] == queue[n + 1..];
    assert tail == [ops[|ops| - 1]] + Reversed(ops[..|ops| - 1]);
  }

  lemma PushingStep(queue: seq<RegisterOp>, was: seq<RegisterOp>, ops: seq<RegisterOp>, ops': seq<RegisterOp>,
                    published: seq<RegisterOp>, attempts: nat -> Attempt, n: nat)
    requires Pushing(queue, was, ops, published, attempts, n) && n < |queue| && Reversed(ops') == queue[n + 1..]
    requires Publishes(attempts(n), queue[n])
    ensures Pushing(queue, was, ops', published + [queue[n]], attempts, n + 1)
  {
    assert queue[..n + 1] == queue[..n] + [queue[n]];
  }

  lemma {:induction false} PushingEnds(queue: seq<RegisterOp>, was: seq<RegisterOp>, ops: seq<RegisterOp>,
                                       published: seq<RegisterOp>, attempts: nat -> Attempt, n: nat)
    requires Pushing(queue, was, ops, published, attempts, n)
    requires ops == [] || (n < |queue| && !Publishes(attempts(n), queue[n]))
    ensures PushResult(queue, was, Reversed(ops), published, attempts, ops == [])
    ensures published + Reversed(ops) == was + queue
  {
    assert queue == queue[..n] + queue[n..];
    assert |Reversed(ops)| == |queue| - n;
  }

  lemma {:induction false} ReversedInjective(a: seq<RegisterOp>, b: seq<RegisterOp>)
    requires Reversed(a) == Reversed(b)
    ensures a == b
  {
    if a != [] {
      var s, t := a[..|a| - 1], b[..|b| - 1];
      assert Reversed(a)[0] == Reversed(b)[0] && Reversed(a)[1..] == Reversed(s) && Reversed(b)[1..] == Reversed(t);
      ReversedInjective(s, t);
      assert a == s + [a[|a| - 1]] && b == t + [b[|b| - 1]];
    }
  }

  lemma PushOutcome(queue: seq<RegisterOp>, published: seq<RegisterOp>, queue': seq<RegisterOp>,
                    published': seq<RegisterOp>, attempts: nat -> Attempt, ok: bool,
                    address: Address, signer: PublicKey)
    requires PushResult(queue, published, queue', published', attempts, ok)
    requires forall op :: op in queue ==> op == QueuedOp(address, op.node, signer)
    ensures (forall i :: Welcome(attempts(i), address, signer)) ==> ok
    ensures signer != address.owner && (forall i :: Guarded(attempts(i), address)) ==>
      published' == published && queue' == queue && (ok <==> queue == [])
  {
    var sent := |published'| - |published|;
    if signer != address.owner && queue != [] && forall i :: Guarded(attempts(i), address) {
      GuardedRefuses(attempts(0), queue[0], address, signer);
    }
    if sent < |queue| && Welcome(attempts(sent), address, signer) {
      WelcomeAccepts(attempts(sent), queue[sent], address, signer);
    }
  }

  /** What a push did: the operations before the first failure, and only these, have moved from the
      queue to the published ones. */
  ghost predicate PushResult(queue: seq<RegisterOp>, published: seq<RegisterOp>, queue': seq<RegisterOp>,
                             published': seq<RegisterOp>, attempts: nat -> Attempt, ok: bool)
  {
    var sent := |published'| - |published|;
    && 0 <= sent <= |queue| && published' == published + queue[..sent] && queue' == queue[sent..]
    && (forall i :: 0 <= i < sent ==> Publishes(attempts(i), queue[i]))
    && (if sent < |queue| then !ok && !Publishes(attempts(sent), queue[sent]) else ok)
  }

  lemma ReadIsRoots(r: Reg)
    requires Canonical(r)
    ensures (set e | e in r.Read() :: e.0) == r.roots
  {
    forall h | h in r.roots ensures h in set e | e in r.Read() :: e.0 {
      assert (h, h.node.value) in r.Read();
    }
  }
}
