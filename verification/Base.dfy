/** Vocabulary shared by every module: optional values, 64-bit unsigned integers with
    their wrap-around written out, and the sorting routine of the standard library. */
module Base {

  datatype Option<+T> = None | Some(value: T)

  const U64_LIMIT: int := 0x1_0000_0000_0000_0000
  const I64_LIMIT: int := 0x8000_0000_0000_0000

  /** `uint64_t`: addition and subtraction go through `Wrap`. */
  type u64 = x: int | 0 <= x < 0x1_0000_0000_0000_0000

  function Wrap(x: int): u64 {
    x % U64_LIMIT
  }

  lemma Associative<T>(a: seq<T>, b: seq<T>, c: seq<T>)
    ensures a + b + c == a + (b + c)
  {
  }

  /** The value SQLite sees when a `uint64_t` is bound as a 64-bit signed integer. */
  function Signed(x: u64): int {
    if x < I64_LIMIT then x else x - U64_LIMIT
  }
}

/** `std::sort`. Callers may rely on the contract only, so whatever is proved of them holds for
    every order an unstable sort may give to equivalent elements. */
module Sorting {

  ghost predicate TotalPreorder<T(!new)>(le: (T, T) -> bool) {
    && (forall x, y :: le(x, y) || le(y, x))
    && (forall x, y, z :: le(x, y) && le(y, z) ==> le(x, z))
  }

  ghost predicate SortedBy<T(!new)>(le: (T, T) -> bool, s: seq<T>) {
    forall i, j | 0 <= i < j < |s| :: le(s[i], s[j])
  }

  /** Inserting `x` between the elements below it and those above it keeps the order. */
  lemma InsertKeepsOrder<T(!new)>(le: (T, T) -> bool, s: seq<T>, j: nat, x: T)
    requires j <= |s| && SortedBy(le, s)
    requires forall k | 0 <= k < j :: le(s[k], x)
    requires forall k | j <= k < |s| :: le(x, s[k])
    ensures SortedBy(le, s[..j] + [x] + s[j..])
    ensures multiset(s[..j] + [x] + s[j..]) == multiset(s) + multiset{x}
  {
    assert s == s[..j] + s[j..];
  }

  /** The place of `x` in a sorted sequence: after everything that is not above it. */
  method InsertionPoint<T(!new)>(le: (T, T) -> bool, s: seq<T>, x: T) returns (j: nat)
    requires TotalPreorder(le) && SortedBy(le, s)
    ensures j <= |s|
    ensures forall k | 0 <= k < j :: le(s[k], x)
    ensures forall k | j <= k < |s| :: le(x, s[k])
  {
    j := |s|;
    while j > 0 && !le(s[j - 1], x)
      invariant j <= |s|
      invariant forall k | j <= k < |s| :: le(x, s[k])
    {
      j := j - 1;
    }
    forall k | 0 <= k < j ensures le(s[k], x) {
      if k < j - 1 {
        assert le(s[k], s[j - 1]) && le(s[j - 1], x);
      }
    }
  }

  method StdSort<T(!new)>(s: seq<T>, le: (T, T) -> bool) returns (r: seq<T>)
    requires TotalPreorder(le)
    ensures SortedBy(le, r)
    ensures multiset(r) == multiset(s)
  {
    r := [];
    for i := 0 to |s|
      invariant SortedBy(le, r)
      invariant multiset(r) == multiset(s[..i])
    {
      var j := InsertionPoint(le, r, s[i]);
      InsertKeepsOrder(le, r, j, s[i]);
      assert s[..i + 1] == s[..i] + [s[i]];
      r := r[..j] + [s[i]] + r[j..];
    }
    assert s[..|s|] == s;
  }

  /** Two sequences with the same elements, each as often, have the same length and members. */
  lemma SameElements<T>(s: seq<T>, t: seq<T>)
    requires multiset(s) == multiset(t)
    ensures |s| == |t|
    ensures forall x :: x in s <==> x in t
  {
    assert |multiset(s)| == |s| && |multiset(t)| == |t|;
    forall x ensures x in s <==> x in t {
      assert x in s <==> x in multiset(s);
      assert x in t <==> x in multiset(t);
    }
  }
}
