/** Selecting the items with the smallest keys.

    Three parts of the node sort a collection and keep a prefix of it: the record store keeps the
    records nearest to the node, the close group is the list of the nearest peers, and a spend
    record keeps the two smallest spends.  All three are instances of this module.  A key function
    stands for the XOR distance to a fixed target, or for the derived order of signed spends; it
    never gives two items the same key.

    `Sort` and `Take` follow the program (sort, then keep a prefix).  `Closest` is an independent
    definition by counting: an item belongs to the k nearest when fewer than k items precede it. */
module Nearest {

  ghost predicate Tied<T>(key: T -> int, x: T, y: T) {
    key(x) == key(y)
  }

  ghost predicate Injective<T(!new)>(key: T -> int) {
    forall x, y :: Tied(key, x, y) ==> x == y
  }

  lemma DistinctKeys<T(!new)>(key: T -> int, x: T, y: T)
    requires Injective(key) && x != y
    ensures key(x) != key(y)
  {
    assert !Tied(key, x, y);
  }

  function Elements<T(==)>(s: seq<T>): set<T> {
    set x | x in s
  }

  ghost predicate NoRepeats<T>(s: seq<T>) {
    forall i, j :: 0 <= i < j < |s| ==> s[i] != s[j]
  }

  /** The items of `s` that strictly precede `x`. */
  ghost function Closer<T>(s: set<T>, key: T -> int, x: T): set<T> {
    set y | y in s && key(y) < key(x)
  }

  /** The k nearest items, defined by counting. */
  ghost function Closest<T>(s: set<T>, key: T -> int, k: nat): set<T> {
    set x | x in s && |Closer(s, key, x)| < k
  }

  ghost predicate Ascending<T>(r: seq<T>, key: T -> int) {
    forall i, j :: 0 <= i < j < |r| ==> key(r[i]) < key(r[j])
  }

  lemma {:induction false} LeastExists<T>(s: set<T>, key: T -> int)
    requires s != {}
    ensures exists m :: m in s && forall y :: y in s ==> key(m) <= key(y)
  {
    var x :| x in s;
    if s == {x} {
      assert forall y :: y in s ==> key(x) <= key(y);
    } else {
      LeastExists(s - {x}, key);
      var m :| m in s - {x} && forall y :: y in s - {x} ==> key(m) <= key(y);
      var n := if key(x) < key(m) then x else m;
      assert n in s && forall y :: y in s ==> key(n) <= key(y);
    }
  }

  function Least<T(!new)>(s: set<T>, key: T -> int): (m: T)
    requires s != {} && Injective(key)
    ensures m in s && forall y :: y in s ==> key(m) <= key(y)
  {
    LeastExists(s, key);
    assert forall m, n :: m in s && n in s && m != n ==> !Tied(key, m, n);
    var m :| m in s && forall y :: y in s ==> key(m) <= key(y);
    m
  }

  /** The items of `s` in ascending key order. */
  function Sort<T(!new)>(s: set<T>, key: T -> int): (r: seq<T>)
    requires Injective(key)
    ensures |r| == |s|
    decreases |s|
  {
    if s == {} then [] else
      var m := Least(s, key);
      [m] + Sort(s - {m}, key)
  }

  /** The first k items of the sorted collection, or all of them when there are fewer. */
  function Take<T(!new)>(s: set<T>, key: T -> int, k: nat): (r: seq<T>)
    requires Injective(key)
    ensures |r| == if k < |s| then k else |s|
  {
    var r := Sort(s, key);
    if k < |r| then r[..k] else r
  }

  lemma {:induction false} SortMembers<T(!new)>(s: set<T>, key: T -> int)
    requires Injective(key)
    ensures forall x :: x in Sort(s, key) <==> x in s
    decreases |s|
  {
    if s != {} {
      SortMembers(s - {Least(s, key)}, key);
    }
  }

  lemma {:induction false} SortAscending<T(!new)>(s: set<T>, key: T -> int)
    requires Injective(key)
    ensures Ascending(Sort(s, key), key)
    decreases |s|
  {
    if s != {} {
      var m := Least(s, key);
      var rest := Sort(s - {m}, key);
      SortAscending(s - {m}, key);
      SortMembers(s - {m}, key);
      forall j | 0 <= j < |rest| ensures key(m) < key(rest[j]) {
        assert rest[j] in s - {m};
        DistinctKeys(key, m, rest[j]);
      }
    }
  }

  lemma CloserSplit<T>(s: set<T>, key: T -> int, m: T, x: T)
    requires m in s && key(m) < key(x)
    ensures |Closer(s, key, x)| == |Closer(s - {m}, key, x)| + 1
  {
    assert Closer(s, key, x) == Closer(s - {m}, key, x) + {m};
  }

  /** The item at position i of the sorted collection has exactly i items before it. */
  lemma {:induction false} RankOfPosition<T(!new)>(s: set<T>, key: T -> int, i: nat)
    requires Injective(key) && i < |s|
    ensures |Closer(s, key, Sort(s, key)[i])| == i
    decreases |s|
  {
    var m := Least(s, key);
    var rest := Sort(s - {m}, key);
    if i == 0 {
      assert Closer(s, key, m) == {};
    } else {
      RankOfPosition(s - {m}, key, i - 1);
      SortMembers(s - {m}, key);
      var x := rest[i - 1];
      assert x in s - {m};
      DistinctKeys(key, m, x);
      CloserSplit(s, key, m, x);
    }
  }

  lemma TakeMembership<T(!new)>(s: set<T>, key: T -> int, k: nat, x: T)
    requires Injective(key) && x in s
    ensures x in Take(s, key, k) <==> |Closer(s, key, x)| < k
  {
    var r, t := Sort(s, key), Take(s, key, k);
    SortMembers(s, key);
    var i :| 0 <= i < |r| && r[i] == x;
    RankOfPosition(s, key, i);
    if i < k {
      assert t[i] == x;
    } else if x in t {
      var j :| 0 <= j < |t| && t[j] == x;
      RankOfPosition(s, key, j);
    }
  }

  /** Sorting and keeping a prefix selects exactly the items that fewer than k items precede. */
  lemma TakeIsClosest<T(!new)>(s: set<T>, key: T -> int, k: nat)
    requires Injective(key)
    ensures Elements(Take(s, key, k)) == Closest(s, key, k)
    ensures |Closest(s, key, k)| == if k < |s| then k else |s|
    ensures Ascending(Take(s, key, k), key)
  {
    var t := Take(s, key, k);
    SortAscending(s, key);
    SortMembers(s, key);
    AscendingCount(t, key);
    forall x | x in s ensures x in t <==> |Closer(s, key, x)| < k {
      TakeMembership(s, key, k, x);
    }
  }

  lemma {:induction false} AscendingCount<T>(t: seq<T>, key: T -> int)
    requires Ascending(t, key)
    ensures |Elements(t)| == |t|
  {
    if t != [] {
      var init, last := t[..|t| - 1], t[|t| - 1];
      AscendingCount(init, key);
      assert Elements(t) == Elements(init) + {last};
      assert last !in init;
    }
  }

  /** Two ascending lists with the same members are the same list. */
  lemma {:induction false} AscendingUnique<T>(a: seq<T>, b: seq<T>, key: T -> int)
    requires Ascending(a, key) && Ascending(b, key)
    requires forall x :: x in a <==> x in b
    ensures a == b
  {
    assert a != [] ==> a[0] in b;
    assert b != [] ==> b[0] in a;
    if a != [] {
      assert a[0] == b[0];
      forall x ensures x in a[1..] <==> x in b[1..] {
        if x in a[1..] { assert x in b && x != b[0]; }
        if x in b[1..] { assert x in a && x != a[0]; }
      }
      AscendingUnique(a[1..], b[1..], key);
    }
  }

  lemma SubsetSize<T>(a: set<T>, b: set<T>)
    requires a <= b
    ensures |a| <= |b|
  {
    assert b == a + (b - a);
  }

  /** Keeping the k nearest is a join: selecting from two selections equals selecting from
      everything, so nothing that matters is ever lost by forgetting the rest. */
  lemma ClosestJoin<T(!new)>(s: set<T>, t: set<T>, key: T -> int, k: nat)
    requires Injective(key)
    ensures Closest(s + t, key, k) == Closest(Closest(s, key, k) + Closest(t, key, k), key, k)
  {
    var u, c := s + t, Closest(s, key, k) + Closest(t, key, k);
    forall x | x in Closest(u, key, k) ensures x in Closest(c, key, k) {
      SubsetSize(Closer(s, key, x), Closer(u, key, x));
      SubsetSize(Closer(t, key, x), Closer(u, key, x));
      SubsetSize(Closer(c, key, x), Closer(u, key, x));
    }
    TakeIsClosest(u, key, k);
    forall x | x in Closest(c, key, k) ensures x in Closest(u, key, k) {
      if |Closer(u, key, x)| >= k {
        forall y | y in Closest(u, key, k) ensures y in Closer(c, key, x) {
          if key(y) >= key(x) {
            SubsetSize(Closer(u, key, x), Closer(u, key, y));
          }
          assert y in Closest(c, key, k);
        }
        SubsetSize(Closest(u, key, k), Closer(c, key, x));
        SubsetSize(Closer(u, key, x), u);
      }
    }
  }

  /** Offering one more item to the k nearest. */
  lemma ClosestInsert<T(!new)>(s: set<T>, x: T, key: T -> int, k: nat)
    requires Injective(key) && k >= 1
    ensures Closest(s + {x}, key, k) == Closest(Closest(s, key, k) + {x}, key, k)
  {
    assert Closer({x}, key, x) == {};
    assert Closest({x}, key, k) == {x};
    ClosestJoin(s, {x}, key, k);
  }

  lemma ClosestIdempotent<T(!new)>(s: set<T>, key: T -> int, k: nat)
    requires Injective(key)
    ensures Closest(Closest(s, key, k), key, k) == Closest(s, key, k)
  {
    ClosestJoin(s, s, key, k);
    assert s + s == s;
    assert Closest(s, key, k) + Closest(s, key, k) == Closest(s, key, k);
  }
}
