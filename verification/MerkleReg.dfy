/** The Merkle register: a DAG of entries in which each entry names the entries it supersedes.

    The hash is collision free, so the hash of a node is modelled as the term `HashOf(node)` and a
    map keyed by hashes as a set of nodes; `Unknown` is a hash of no node.  Nodes whose children
    have not all been seen wait as orphans.

    The register is specified by `Canon`, a function of the set of nodes alone: whatever the order
    in which nodes arrive, and however insertions cascade through waiting orphans, the register is
    the canonical one for the nodes it has been given. */
module MerkleReg {
  import Nearest

  type Entry = seq<nat>

  datatype Hash = HashOf(node: Node) | Unknown(bytes: nat)

  datatype Node = Node(value: Entry, children: set<Hash>)

  datatype Reg = Reg(dag: set<Node>, orphans: set<Node>, roots: set<Hash>) {
    ghost function Nodes(): set<Node> { dag + orphans }

    function Size(): nat { |dag| + |orphans| }

    /** The current entries, with their hashes. */
    function Read(): set<(Hash, Entry)> {
      set n | n in dag && HashOf(n) in roots :: (HashOf(n), n.value)
    }
  }

  predicate Seen(h: Hash, dag: set<Node>) {
    h.HashOf? && h.node in dag
  }

  predicate AllSeen(n: Node, dag: set<Node>) {
    forall h :: h in n.children ==> Seen(h, dag)
  }

  /** Some node of the DAG names h as a child. */
  ghost predicate Superseded(h: Hash, dag: set<Node>) {
    exists n :: n in dag && h in n.children
  }

  // ---------- The canonical register of a set of nodes ----------

  /** The node of this hash is present, and so are, in turn, all the nodes below it. */
  ghost predicate Grounded(h: Hash, s: set<Node>)
    decreases h
  {
    h.HashOf? && h.node in s && forall c :: c in h.node.children ==> Grounded(c, s)
  }

  ghost function Dag(s: set<Node>): set<Node> {
    set n | n in s && Grounded(HashOf(n), s)
  }

  /** The nodes that no other node of the DAG supersedes. */
  ghost function Roots(dag: set<Node>): set<Hash> {
    set n | n in dag && !Superseded(HashOf(n), dag) :: HashOf(n)
  }

  ghost function Canon(s: set<Node>): Reg {
    Reg(Dag(s), s - Dag(s), Roots(Dag(s)))
  }

  ghost predicate Canonical(r: Reg) {
    r == Canon(r.Nodes())
  }

  /** A local description: the DAG is closed under children, no orphan could join it, and the roots
      are right. */
  ghost predicate Settled(r: Reg) {
    && r.dag !! r.orphans
    && (forall n :: n in r.dag ==> AllSeen(n, r.dag))
    && (forall n :: n in r.orphans ==> !AllSeen(n, r.dag))
    && r.roots == Roots(r.dag)
  }

  lemma {:induction false} SettledHoldsGrounded(r: Reg, h: Hash)
    requires Settled(r)
    ensures Grounded(h, r.Nodes()) <==> Seen(h, r.dag)
    decreases h
  {
    if h.HashOf? {
      forall c | c in h.node.children ensures Grounded(c, r.Nodes()) <==> Seen(c, r.dag) {
        SettledHoldsGrounded(r, c);
      }
    }
  }

  lemma SettledIsCanonical(r: Reg)
    requires Settled(r)
    ensures Canonical(r)
  {
    forall n ensures n in Dag(r.Nodes()) <==> n in r.dag {
      SettledHoldsGrounded(r, HashOf(n));
    }
    assert Dag(r.Nodes()) == r.dag;
  }

  lemma CanonIsSettled(s: set<Node>)
    ensures Settled(Canon(s)) && Canon(s).Nodes() == s
  {
    var r := Canon(s);
    forall n | n in s ensures AllSeen(n, r.dag) <==> n in r.dag {
      assert Grounded(HashOf(n), s) <==> forall c :: c in n.children ==> Grounded(c, s);
      forall c | c in n.children ensures Grounded(c, s) <==> Seen(c, r.dag) {
        if Grounded(c, s) { assert c.node in r.dag; }
      }
    }
  }

  /** A closed DAG stays closed and its roots stay right when a new node with seen children joins. */
  lemma RootsAfterInsert(dag: set<Node>, n: Node)
    requires n !in dag && AllSeen(n, dag) && forall m :: m in dag ==> AllSeen(m, dag)
    ensures Roots(dag + {n}) == Roots(dag) - n.children + {HashOf(n)}
  {
  }

  /** Orphans can only leave as nodes arrive, and a node with seen children joins the DAG. */
  lemma CanonGrows(s: set<Node>, n: Node)
    ensures Canon(s).dag <= Canon(s + {n}).dag
    ensures Canon(s + {n}).orphans <= Canon(s).orphans + {n}
    ensures AllSeen(n, Canon(s).dag) ==> n in Canon(s + {n}).dag && Canon(s + {n}).orphans <= Canon(s).orphans
  {
    var r := Canon(s + {n});
    CanonIsSettled(s + {n});
    forall m | m in Canon(s).dag ensures m in r.dag {
      GroundedGrows(HashOf(m), s, s + {n});
    }
    if AllSeen(n, Canon(s).dag) {
      assert AllSeen(n, r.dag);
    }
  }

  lemma {:induction false} GroundedGrows(h: Hash, s: set<Node>, t: set<Node>)
    requires s <= t && Grounded(h, s)
    ensures Grounded(h, t)
    decreases h
  {
    forall c | c in h.node.children ensures Grounded(c, t) {
      GroundedGrows(c, s, t);
    }
  }

  // ---------- Operations ----------

  /** A ready node has joined the DAG and the orphans it made ready have been set aside: what is
      left is canonical again. */
  lemma InsertIsCanonical(r: Reg, n: Node, ready: set<Node>)
    requires Canonical(r) && n !in r.Nodes() && AllSeen(n, r.dag)
    requires ready == set m | m in r.orphans && AllSeen(m, r.dag + {n})
    ensures Canonical(Reg(r.dag + {n}, r.orphans - ready, r.roots - n.children + {HashOf(n)}))
  {
    CanonIsSettled(r.Nodes());
    RootsAfterInsert(r.dag, n);
    var r1 := Reg(r.dag + {n}, r.orphans - ready, r.roots - n.children + {HashOf(n)});
    forall m | m in r1.dag ensures AllSeen(m, r1.dag) {
      assert AllSeen(m, r.dag);
    }
    SettledIsCanonical(r1);
  }

  lemma OrphanIsCanonical(r: Reg, n: Node)
    requires Canonical(r) && n !in r.Nodes() && !AllSeen(n, r.dag)
    ensures Canonical(r.(orphans := r.orphans + {n})) && r.(orphans := r.orphans + {n}).Nodes() == r.Nodes() + {n}
  {
    CanonIsSettled(r.Nodes());
    SettledIsCanonical(r.(orphans := r.orphans + {n}));
  }

  lemma AllSeenGrows(n: Node, d: set<Node>, e: set<Node>)
    requires AllSeen(n, d) && d <= e
    ensures AllSeen(n, e)
  {
  }

  lemma MoveOver(done: set<Node>, rest: set<Node>, n: Node)
    requires n in rest
    ensures (done + {n}) + (rest - {n}) == done + rest
  {
  }

  lemma SplitSize(a: set<Node>, b: set<Node>)
    requires b <= a
    ensures |a - b| + |b| == |a|
  {
  }

  /** What applying a ready node does, in terms of the canonical register. */
  lemma ReadyStep(s: set<Node>, n: Node)
    requires AllSeen(n, Canon(s).dag)
    ensures Canonical(Canon(s)) && Canon(s).Nodes() == s
    ensures Canon(s).dag <= Canon(s + {n}).dag
    ensures |Canon(s + {n}).orphans| <= |Canon(s).orphans|
  {
    CanonGrows(s, n);
    CanonIsSettled(s);
    Nearest.SubsetSize(Canon(s + {n}).orphans, Canon(s).orphans);
  }

  /** Applies one node.  A known node changes nothing; a node with unseen children becomes an
      orphan; any other is inserted, superseding its children, and the orphans that this makes
      ready are applied in turn, in any order. */
  method Apply(r: Reg, n: Node) returns (r': Reg)
    requires Canonical(r)
    ensures r' == Canon(r.Nodes() + {n})
    decreases |r.orphans|, 1
  {
    if n in r.dag || n in r.orphans {
      assert r.Nodes() + {n} == r.Nodes();
      r' := r;
    } else if !AllSeen(n, r.dag) {
      OrphanIsCanonical(r, n);
      r' := r.(orphans := r.orphans + {n});
    } else {
      var ready := set m | m in r.orphans && AllSeen(m, r.dag + {n});
      InsertIsCanonical(r, n, ready);
      SplitSize(r.orphans, ready);
      NodesAfterInsert(r, n, ready);
      var r1 := Reg(r.dag + {n}, r.orphans - ready, r.roots - n.children + {HashOf(n)});
      r' := ApplyReady(r1, ready);
    }
  }

  lemma NodesAfterInsert(r: Reg, n: Node, ready: set<Node>)
    requires ready <= r.orphans
    ensures (r.dag + {n}) + (r.orphans - ready) + ready == r.Nodes() + {n}
  {
  }

  method ApplyReady(r: Reg, ready: set<Node>) returns (r': Reg)
    requires Canonical(r) && forall m :: m in ready ==> AllSeen(m, r.dag)
    ensures r' == Canon(r.Nodes() + ready)
    decreases |r.orphans| + |ready|, 0
  {
    r' := r;
    var rest := ready;
    ghost var done := r.Nodes();
    while rest != {}
      invariant r' == Canon(done) && done + rest == r.Nodes() + ready
      invariant rest <= ready && r.dag <= r'.dag
      invariant |r'.orphans| <= |r.orphans| && |rest| <= |ready|
      decreases |rest|
    {
      var m :| m in rest;
      AllSeenGrows(m, r.dag, r'.dag);
      ReadyStep(done, m);
      SplitSize(rest, {m});
      MoveOver(done, rest, m);
      r' := Apply(r', m);
      rest := rest - {m};
      done := done + {m};
    }
  }

  /** Applies every node of the other register, first its DAG and then its orphans. */
  method Merge(r: Reg, other: Reg) returns (r': Reg)
    requires Canonical(r)
    ensures r' == Canon(r.Nodes() + other.Nodes())
  {
    r' := ApplyEach(r, other.dag);
    CanonIsSettled(r.Nodes() + other.dag);
    r' := ApplyEach(r', other.orphans);
    assert r.Nodes() + other.dag + other.orphans == r.Nodes() + other.Nodes();
  }

  method ApplyEach(r: Reg, ns: set<Node>) returns (r': Reg)
    requires Canonical(r)
    ensures r' == Canon(r.Nodes() + ns)
  {
    r' := r;
    var rest := ns;
    ghost var done := r.Nodes();
    while rest != {}
      invariant r' == Canon(done) && done + rest == r.Nodes() + ns
      decreases |rest|
    {
      var n :| n in rest;
      CanonIsSettled(done);
      SplitSize(rest, {n});
      MoveOver(done, rest, n);
      r' := Apply(r', n);
      rest := rest - {n};
      done := done + {n};
    }
  }

  // ---------- What readers see ----------

  lemma CanonicalSize(s: set<Node>)
    ensures Canon(s).Size() == |s|
  {
  }
}
