/** Result types and the numeric limits shared by the other modules. */
module Common {
  datatype Option<+T> = None | Some(value: T)

  datatype Result<+T, +E> = Ok(value: T) | Err(error: E)

  /** The largest amount a token (a 64-bit unsigned count of nanos) can hold. */
  const U64_MAX: nat := 0xFFFF_FFFF_FFFF_FFFF

  /** What is left of a number in 64 unsigned bits, as unchecked arithmetic leaves it. */
  function Wrap64(n: nat): (r: nat)
    ensures r <= U64_MAX
    ensures r == n <==> n <= U64_MAX
  {
    n % (U64_MAX + 1)
  }

  lemma Associative<T>(a: seq<T>, b: seq<T>, c: seq<T>)
    ensures a + b + c == a + (b + c)
  {
  }

  function Reversed<T>(s: seq<T>): (r: seq<T>)
    ensures |r| == |s|
  {
    if s == [] then [] else [s[|s| - 1]] + Reversed(s[..|s| - 1])
  }

  lemma {:induction false} ReversedConcat<T>(a: seq<T>, b: seq<T>)
    ensures Reversed(a + b) == Reversed(b) + Reversed(a)
  {
    if b == [] {
      assert a + b == a;
    } else {
      var init, last := b[..|b| - 1], b[|b| - 1];
      ReversedConcat(a, init);
      assert (a + b)[..|a + b| - 1] == a + init && (a + b)[|a + b| - 1] == last;
      Associative([last], Reversed(init), Reversed(a));
    }
  }

  lemma {:induction false} ReversedMembers<T>(s: seq<T>)
    ensures forall x :: x in Reversed(s) <==> x in s
  {
    if s != [] {
      ReversedMembers(s[..|s| - 1]);
    }
  }

  /** How many peers make up a close group. */
  const CLOSE_GROUP_SIZE: nat := 8
}
