/** Storage payment proofs: a binary Merkle tree over the addresses being paid for.

    The tree hash is collision free and keeps leaves apart from inner nodes (the `merkletree` crate
    prefixes leaves with 0 and nodes with 1), so a digest is modelled as the term it was built
    from.  `Opaque` stands for a byte string that is no output of the hash. */
module PaymentProof {
  import opened Common
  import opened Nearest

  type XorName = nat
  type Bit = b: nat | b < 2

  /** The blank value that fills the tree up to a power of two. */
  const BLANK: XorName := 0

  datatype Digest = Leaf(name: XorName) | Node(left: Digest, right: Digest) | Opaque(bytes: nat)

  /** An audit trail (the item, one sibling per level, the root) and its path, leaf end first. */
  datatype TrailInfo = TrailInfo(auditTrail: seq<Digest>, path: seq<Bit>)

  datatype Error =
    | ProofTree
    | InvalidAuditTrail
    | AuditTrailItemMismatch(name: XorName)
    | RootHashMismatch(root: Digest)
    | AuditTrailSelfValidation

  // ---------- The tree ----------

  function Pow2(d: nat): (p: nat)
    ensures p >= 1
  {
    if d == 0 then 1 else 2 * Pow2(d - 1)
  }

  ghost predicate Perfect(t: Digest, d: nat) {
    if d == 0 then t.Leaf? else t.Node? && Perfect(t.left, d - 1) && Perfect(t.right, d - 1)
  }

  /** The root of the perfect tree of depth d over the given names. */
  function Root(names: seq<XorName>, d: nat): (t: Digest)
    requires |names| == Pow2(d)
    ensures Perfect(t, d)
  {
    if d == 0 then Leaf(names[0])
    else
      var half := Pow2(d - 1);
      Node(Root(names[..half], d - 1), Root(names[half..], d - 1))
  }

  /** The subtree found from the root by following the path, whose last turn is the topmost. */
  function Descend(t: Digest, path: seq<Bit>): Digest
    requires Perfect(t, |path|)
  {
    if path == [] then t
    else
      var top := |path| - 1;
      Descend(if path[top] == 0 then t.left else t.right, path[..top])
  }

  /** The siblings met on that way, leaf end first. */
  function Siblings(t: Digest, path: seq<Bit>): (siblings: seq<Digest>)
    requires Perfect(t, |path|)
    ensures |siblings| == |path|
  {
    if path == [] then []
    else
      var top := |path| - 1;
      if path[top] == 0 then Siblings(t.left, path[..top]) + [t.right]
      else Siblings(t.right, path[..top]) + [t.left]
  }

  /** The path of leaf i in a tree of depth d: its binary digits, least significant first. */
  function PathOf(d: nat, i: nat): (path: seq<Bit>)
    ensures |path| == d
  {
    if d == 0 then [] else [i % 2] + PathOf(d - 1, i / 2)
  }

  function GenProof(t: Digest, d: nat, i: nat): TrailInfo
    requires Perfect(t, d)
  {
    var path := PathOf(d, i);
    TrailInfo([Descend(t, path)] + Siblings(t, path) + [t], path)
  }

  /** The digest reached from `item` by combining it with the siblings, leaf end first. */
  function Climb(item: Digest, siblings: seq<Digest>, path: seq<Bit>): Digest
    requires |siblings| == |path|
  {
    if path == [] then item
    else
      var top := |path| - 1;
      var below := Climb(item, siblings[..top], path[..top]);
      if path[top] == 0 then Node(below, siblings[top]) else Node(siblings[top], below)
  }

  // ---------- Leaf index ----------

  /** The number whose binary digits are the path, least significant first. */
  function LeafIndex(path: seq<Bit>): nat {
    if path == [] then 0 else path[0] + 2 * LeafIndex(path[1..])
  }

  /** Folds the reversed path into an index, one shift and one addition per turn. */
  method ComputeLeafIndex(path: seq<Bit>) returns (index: nat)
    ensures index == LeafIndex(path)
    ensures index < Pow2(|path|)
  {
    index := 0;
    var i := |path|;
    while i > 0
      invariant 0 <= i <= |path|
      invariant index == LeafIndex(path[i..])
      invariant index < Pow2(|path| - i)
    {
      i := i - 1;
      assert path[i..] == [path[i]] + path[i + 1..];
      index := 2 * index + path[i];
    }
    assert path[0..] == path;
  }

  lemma {:induction false} LeafIndexOfTop(path: seq<Bit>)
    requires path != []
    ensures var top := |path| - 1;
      LeafIndex(path) == LeafIndex(path[..top]) + if path[top] == 0 then 0 else Pow2(top)
  {
    var top := |path| - 1;
    if top > 0 {
      LeafIndexOfTop(path[1..]);
      assert path[1..][..top - 1] == path[..top][1..];
    }
  }

  lemma {:induction false} PathSpellsPosition(d: nat, i: nat)
    requires i < Pow2(d)
    ensures LeafIndex(PathOf(d, i)) == i
  {
    if d > 0 {
      PathSpellsPosition(d - 1, i / 2);
      assert PathOf(d, i)[1..] == PathOf(d - 1, i / 2);
    }
  }

  // ---------- Completeness and soundness of one trail ----------

  /** Following a path leads to the name stored at the index the path spells. */
  lemma {:induction false} DescendFindsName(names: seq<XorName>, path: seq<Bit>)
    requires |names| == Pow2(|path|)
    ensures LeafIndex(path) < |names|
    ensures Descend(Root(names, |path|), path) == Leaf(names[LeafIndex(path)])
  {
    if path != [] {
      var top := |path| - 1;
      var half := Pow2(top);
      LeafIndexOfTop(path);
      DescendFindsName(if path[top] == 0 then names[..half] else names[half..], path[..top]);
    }
  }

  /** Climbing undoes descending. */
  lemma {:induction false} ClimbUndoesDescend(t: Digest, path: seq<Bit>)
    requires Perfect(t, |path|)
    ensures Climb(Descend(t, path), Siblings(t, path), path) == t
  {
    if path != [] {
      var top := |path| - 1;
      var child := if path[top] == 0 then t.left else t.right;
      ClimbUndoesDescend(child, path[..top]);
      assert Siblings(t, path)[..top] == Siblings(child, path[..top]);
    }
  }

  /** Whatever siblings are offered, a climb from a leaf that ends at the root of a perfect tree
      has the depth of the tree, started where the path descends to, and used the siblings of that way. */
  lemma {:induction false} ClimbStartsWherePathDescends(t: Digest, d: nat, name: XorName,
                                                        siblings: seq<Digest>, path: seq<Bit>)
    requires Perfect(t, d) && |siblings| == |path|
    requires Climb(Leaf(name), siblings, path) == t
    ensures |path| == d && Descend(t, path) == Leaf(name) && siblings == Siblings(t, path)
  {
    if path != [] {
      var top := |path| - 1;
      var child := if path[top] == 0 then t.left else t.right;
      ClimbStartsWherePathDescends(child, d - 1, name, siblings[..top], path[..top]);
      assert siblings == siblings[..top] + [siblings[top]];
    }
  }

  // ---------- Building ----------

  /** The least exponent whose power of two is at least n. */
  function Log2Ceil(n: nat): (d: nat)
    ensures Pow2(d) >= n
    ensures d > 0 ==> Pow2(d - 1) < n
  {
    Log2From(n, 0)
  }

  function Log2From(n: nat, d: nat): (e: nat)
    requires d > 0 ==> Pow2(d - 1) < n
    ensures Pow2(e) >= n
    ensures e > 0 ==> Pow2(e - 1) < n
    decreases n - Pow2(d)
  {
    if Pow2(d) >= n then d else Log2From(n, d + 1)
  }

  /** Depth of the tree for n addresses: the least power of two of leaves, and at least two of them. */
  function Depth(n: nat): (d: nat)
    ensures Pow2(d) >= n && Pow2(d) >= 2 && (d > 1 ==> Pow2(d - 1) < n)
  {
    assert Pow2(1) == 2;
    if n <= 2 then 1 else Log2Ceil(n)
  }

  function Padded(addrs: seq<XorName>): (names: seq<XorName>)
    ensures |names| == Pow2(Depth(|addrs|)) && addrs <= names
    ensures forall i :: |addrs| <= i < |names| ==> names[i] == BLANK
  {
    assert Pow2(1) == 2;
    addrs + seq(Pow2(Depth(|addrs|)) - |addrs|, _ => BLANK)
  }

  function TreeRoot(addrs: seq<XorName>): Digest {
    Root(Padded(addrs), Depth(|addrs|))
  }

  function ProofAt(addrs: seq<XorName>, i: nat): TrailInfo {
    GenProof(TreeRoot(addrs), Depth(|addrs|), i)
  }

  /** The last of the first n positions that holds the address. */
  ghost function LastIndex(addrs: seq<XorName>, n: nat, a: XorName): (i: nat)
    requires n <= |addrs| && a in addrs[..n]
    ensures i < n && addrs[i] == a && a !in addrs[i + 1..n]
  {
    if addrs[n - 1] == a then n - 1
    else
      assert addrs[..n] == addrs[..n - 1] + [addrs[n - 1]];
      var i := LastIndex(addrs, n - 1, a);
      assert addrs[i + 1..n] == addrs[i + 1..n - 1] + [addrs[n - 1]];
      i
  }

  ghost function LastPosition(addrs: seq<XorName>, a: XorName): (i: nat)
    requires a in addrs
    ensures i < |addrs| && addrs[i] == a && a !in addrs[i + 1..]
  {
    assert addrs[..|addrs|] == addrs;
    LastIndex(addrs, |addrs|, a)
  }

  /** One trail per address among the first n: the one generated for its last position there. */
  ghost predicate TrailsUpTo(addrs: seq<XorName>, n: nat, trails: map<XorName, TrailInfo>)
    requires n <= |addrs|
  {
    && trails.Keys == Elements(addrs[..n])
    && forall a :: a in trails ==> trails[a] == ProofAt(addrs, LastIndex(addrs, n, a))
  }

  ghost predicate BuiltTrails(addrs: seq<XorName>, trails: map<XorName, TrailInfo>) {
    TrailsUpTo(addrs, |addrs|, trails)
  }

  lemma {:induction false} TrailsStep(addrs: seq<XorName>, n: nat, trails: map<XorName, TrailInfo>)
    requires n < |addrs| && TrailsUpTo(addrs, n, trails)
    ensures TrailsUpTo(addrs, n + 1, trails[addrs[n] := ProofAt(addrs, n)])
  {
    var after := trails[addrs[n] := ProofAt(addrs, n)];
    assert addrs[..n + 1] == addrs[..n] + [addrs[n]];
    assert Elements(addrs[..n + 1]) == Elements(addrs[..n]) + {addrs[n]};
    forall a | a in after ensures after[a] == ProofAt(addrs, LastIndex(addrs, n + 1, a)) {
      assert a in addrs[..n + 1];
      assert a != addrs[n] ==> LastIndex(addrs, n + 1, a) == LastIndex(addrs, n, a);
    }
  }

  method Pad(addrs: seq<XorName>) returns (names: seq<XorName>)
    ensures names == Padded(addrs)
  {
    names := addrs;
    while |names| < Pow2(Depth(|addrs|))
      invariant |addrs| <= |names| <= Pow2(Depth(|addrs|))
      invariant names == Padded(addrs)[..|names|]
    {
      names := names + [BLANK];
    }
  }

  /** Builds the tree and one trail per address; a repeated address keeps its last trail. */
  method BuildPaymentProofs(addrs: seq<XorName>)
    returns (r: Result<(Digest, map<XorName, TrailInfo>), Error>)
    ensures addrs == [] ==> r == Err(ProofTree)
    ensures addrs != [] ==>
      && r.Ok? && r.value.0 == TreeRoot(addrs)
      && BuiltTrails(addrs, r.value.1)
  {
    if addrs == [] {
      return Err(ProofTree);
    }
    var names := Pad(addrs);
    var depth := Depth(|addrs|);
    var root := Root(names, depth);
    var proofs := GenerateTrails(addrs, names, root, depth);
    r := Ok((root, proofs));
  }

  /** The loop over the addresses, which leaves out the blanks. */
  method GenerateTrails(addrs: seq<XorName>, names: seq<XorName>, root: Digest, depth: nat)
    returns (proofs: map<XorName, TrailInfo>)
    requires names == Padded(addrs) && depth == Depth(|addrs|) && root == TreeRoot(addrs)
    ensures BuiltTrails(addrs, proofs)
  {
    proofs := map[];
    for index := 0 to |addrs|
      invariant TrailsUpTo(addrs, index, proofs)
    {
      TrailsStep(addrs, index, proofs);
      proofs := proofs[names[index] := GenProof(root, depth, index)];
    }
  }

  // ---------- Validating ----------

  /** Validates a trail for an address against a root and returns the leaf index of its path. */
  function ValidatePaymentProof(name: XorName, root: Digest, auditTrail: seq<Digest>, path: seq<Bit>)
    : Result<nat, Error>
  {
    if |auditTrail| != |path| + 2 then Err(InvalidAuditTrail)
    else if auditTrail[0] != Leaf(name) then Err(AuditTrailItemMismatch(name))
    else if auditTrail[|auditTrail| - 1] != root then Err(RootHashMismatch(root))
    else if Climb(auditTrail[0], auditTrail[1..|auditTrail| - 1], path) != root then Err(AuditTrailSelfValidation)
    else Ok(LeafIndex(path))
  }

  /** Completeness: the trail generated for any leaf validates and yields its position. */
  lemma BuiltProofValidates(addrs: seq<XorName>, i: nat)
    requires i < |Padded(addrs)|
    ensures var p := ProofAt(addrs, i);
      ValidatePaymentProof(Padded(addrs)[i], TreeRoot(addrs), p.auditTrail, p.path) == Ok(i)
  {
    var root, p := TreeRoot(addrs), ProofAt(addrs, i);
    PathSpellsPosition(Depth(|addrs|), i);
    DescendFindsName(Padded(addrs), p.path);
    ClimbUndoesDescend(root, p.path);
    assert p.auditTrail[1..|p.auditTrail| - 1] == Siblings(root, p.path);
  }

  /** The trail stored for an address validates for it and yields its last position. */
  lemma StoredTrailValidates(addrs: seq<XorName>, trails: map<XorName, TrailInfo>, a: XorName)
    requires BuiltTrails(addrs, trails) && a in addrs
    ensures a in trails && trails[a] == ProofAt(addrs, LastPosition(addrs, a))
    ensures ValidatePaymentProof(a, TreeRoot(addrs), trails[a].auditTrail, trails[a].path) == Ok(LastPosition(addrs, a))
  {
    assert addrs[..|addrs|] == addrs;
    BuiltProofValidates(addrs, LastPosition(addrs, a));
  }

  /** Soundness: any trail accepted against a built root carries a path of the depth of the tree
      that leads to a leaf holding exactly this address. */
  lemma AcceptedProofReachesLeaf(addrs: seq<XorName>, name: XorName, auditTrail: seq<Digest>, path: seq<Bit>)
    requires ValidatePaymentProof(name, TreeRoot(addrs), auditTrail, path).Ok?
    ensures var index := ValidatePaymentProof(name, TreeRoot(addrs), auditTrail, path).value;
      && |path| == Depth(|addrs|)
      && index < |Padded(addrs)|
      && Padded(addrs)[index] == name
  {
    ClimbStartsWherePathDescends(TreeRoot(addrs), Depth(|addrs|), name, auditTrail[1..|auditTrail| - 1], path);
    DescendFindsName(Padded(addrs), path);
  }

  lemma {:induction false} PathOfIndex(path: seq<Bit>)
    ensures PathOf(|path|, LeafIndex(path)) == path
  {
    if path != [] {
      PathOfIndex(path[1..]);
      assert path == [path[0]] + path[1..];
    }
  }

  /** Exactly which trails are accepted: against a built root, an address is accepted with an index if
      and only if it sits at that leaf and the trail and path are the very ones generated for it. */
  lemma AcceptedExactly(addrs: seq<XorName>, name: XorName, auditTrail: seq<Digest>, path: seq<Bit>, i: nat)
    ensures ValidatePaymentProof(name, TreeRoot(addrs), auditTrail, path) == Ok(i) <==>
      i < |Padded(addrs)| && Padded(addrs)[i] == name && TrailInfo(auditTrail, path) == ProofAt(addrs, i)
  {
    var root := TreeRoot(addrs);
    if ValidatePaymentProof(name, root, auditTrail, path) == Ok(i) {
      var siblings := auditTrail[1..|auditTrail| - 1];
      AcceptedProofReachesLeaf(addrs, name, auditTrail, path);
      ClimbStartsWherePathDescends(root, Depth(|addrs|), name, siblings, path);
      PathOfIndex(path);
      assert auditTrail == [auditTrail[0]] + siblings + [auditTrail[|auditTrail| - 1]];
    } else if i < |Padded(addrs)| && Padded(addrs)[i] == name {
      BuiltProofValidates(addrs, i);
    }
  }

  /** The leaf index of an accepted trail determines the address. */
  lemma LeafIndexDeterminesAddress(addrs: seq<XorName>, a: XorName, b: XorName, p: TrailInfo, q: TrailInfo)
    requires ValidatePaymentProof(a, TreeRoot(addrs), p.auditTrail, p.path).Ok?
    requires ValidatePaymentProof(b, TreeRoot(addrs), q.auditTrail, q.path) ==
             ValidatePaymentProof(a, TreeRoot(addrs), p.auditTrail, p.path)
    ensures a == b
  {
    AcceptedProofReachesLeaf(addrs, a, p.auditTrail, p.path);
    AcceptedProofReachesLeaf(addrs, b, q.auditTrail, q.path);
  }
}
