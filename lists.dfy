/**
 * Redis lists as sequences (index 0 is the head, where LPUSH inserts), and the index arithmetic
 * that LRANGE, LTRIM, ZRANGE and ZREMRANGEBYRANK share: negative indices count from the end and
 * out-of-range stops are clamped.
 */
module Lists {
  import opened Common

  function Count<T(==)>(s: seq<T>, x: T): nat
    decreases |s|
  {
    if s == [] then 0 else (if s[0] == x then 1 else 0) + Count(s[1..], x)
  }

  /** `a` is `b` with some elements left out and the rest kept in order. */
  predicate Subsequence<T(==)>(a: seq<T>, b: seq<T>)
    decreases |b|
  {
    if a == [] then true
    else if b == [] then false
    else if a[0] == b[0] then Subsequence(a[1..], b[1..])
    else Subsequence(a, b[1..])
  }

  /** LREM key 0 x: removes every occurrence of `x`. */
  function RemoveAll<T(==)>(s: seq<T>, x: T): seq<T>
    decreases |s|
  {
    if s == [] then []
    else if s[0] == x then RemoveAll(s[1..], x)
    else [s[0]] + RemoveAll(s[1..], x)
  }

  lemma {:induction false} CountZero<T>(s: seq<T>, x: T)
    ensures Count(s, x) == 0 <==> x !in s
    decreases |s|
  {
    if s != [] {
      CountZero(s[1..], x);
    }
  }

  /** LREM with count 0 removes every copy of `x`, keeps the count of every other value and their order. */
  lemma {:induction false} RemoveAllSpec<T>(s: seq<T>, x: T)
    ensures x !in RemoveAll(s, x)
    ensures forall y :: y != x ==> Count(RemoveAll(s, x), y) == Count(s, y)
    ensures Subsequence(RemoveAll(s, x), s)
    ensures |RemoveAll(s, x)| == |s| - Count(s, x)
    decreases |s|
  {
    if s != [] {
      RemoveAllSpec(s[1..], x);
      var r := RemoveAll(s[1..], x);
      if s[0] != x {
        assert ([s[0]] + r)[1..] == r;
      } else {
        SubsequenceDrop(r, s);
      }
    }
  }

  /** A subsequence of the tail is a subsequence of the whole. */
  lemma {:induction false} SubsequenceDrop<T>(a: seq<T>, b: seq<T>)
    requires b != [] && Subsequence(a, b[1..])
    ensures Subsequence(a, b)
    decreases |b|, 0
  {
    if a != [] && a[0] == b[0] {
      SubsequenceTail(a, b[1..]);
    }
  }

  /** Dropping the head of a non-empty subsequence keeps it a subsequence. */
  lemma {:induction false} SubsequenceTail<T>(a: seq<T>, b: seq<T>)
    requires a != [] && Subsequence(a, b)
    ensures Subsequence(a[1..], b)
    decreases |b|, 1
  {
    if a[0] == b[0] {
      if a[1..] != [] {
        SubsequenceDrop(a[1..], b);
      }
    } else {
      SubsequenceTail(a, b[1..]);
      if a[1..] != [] {
        SubsequenceDrop(a[1..], b);
      }
    }
  }

  /** Every element of a subsequence occurs in the whole sequence. */
  lemma {:induction false} SubsequenceElements<T>(a: seq<T>, b: seq<T>)
    requires Subsequence(a, b)
    ensures forall x :: x in a ==> x in b
    decreases |b|
  {
    if a != [] {
      assert a == [a[0]] + a[1..] && b == [b[0]] + b[1..];
      if a[0] == b[0] {
        SubsequenceElements(a[1..], b[1..]);
      } else {
        SubsequenceElements(a, b[1..]);
      }
    }
  }

  /** The elements satisfying `f`, in order. */
  function Filter<T>(s: seq<T>, f: T -> bool): seq<T>
    decreases |s|
  {
    if s == [] then [] else if f(s[0]) then [s[0]] + Filter(s[1..], f) else Filter(s[1..], f)
  }

  /**
   * Filtering keeps exactly the elements satisfying `f`, each as often as it occurs, in their
   * order.
   */
  lemma {:induction false} FilterSpec<T>(s: seq<T>, f: T -> bool)
    ensures forall x :: x in Filter(s, f) <==> x in s && f(x)
    ensures forall x :: multiset(Filter(s, f))[x] == if f(x) then multiset(s)[x] else 0
    ensures Subsequence(Filter(s, f), s)
    ensures |Filter(s, f)| <= |s|
    decreases |s|
  {
    if s != [] {
      FilterSpec(s[1..], f);
      var r := Filter(s[1..], f);
      assert s == [s[0]] + s[1..];
      assert multiset(s) == multiset([s[0]]) + multiset(s[1..]);
      if f(s[0]) {
        assert multiset([s[0]] + r) == multiset([s[0]]) + multiset(r);
      }
      if f(s[0]) {
        assert ([s[0]] + r)[1..] == r;
      } else {
        SubsequenceDrop(r, s);
      }
    }
  }

  lemma {:induction false} FilterAppend<T>(a: seq<T>, b: seq<T>, f: T -> bool)
    ensures Filter(a + b, f) == Filter(a, f) + Filter(b, f)
    decreases |a|
  {
    if a == [] {
      assert a + b == b;
    } else {
      assert (a + b)[0] == a[0] && (a + b)[1..] == a[1..] + b;
      FilterAppend(a[1..], b, f);
    }
  }

  lemma {:induction false} FilterAll<T>(s: seq<T>, f: T -> bool)
    requires forall i :: 0 <= i < |s| ==> f(s[i])
    ensures Filter(s, f) == s
    decreases |s|
  {
    if s != [] {
      FilterAll(s[1..], f);
      assert s == [s[0]] + s[1..];
    }
  }

  lemma {:induction false} FilterNone<T>(s: seq<T>, f: T -> bool)
    requires forall i :: 0 <= i < |s| ==> !f(s[i])
    ensures Filter(s, f) == []
    decreases |s|
  {
    if s != [] {
      FilterNone(s[1..], f);
    }
  }

  /** The first `n` elements, or all of them when there are fewer. */
  function Take<T>(s: seq<T>, n: nat): seq<T> {
    s[..Min(n, |s|)]
  }

  /**
   * The start index Redis uses after normalising: negative counts from the end, then
   * clamped at 0.
   */
  function StartIndex(n: nat, start: int): nat {
    if start < 0 then Max(start + n, 0) else start
  }

  /** The stop index after normalising a negative one (it may still be negative). */
  function StopIndex(n: nat, stop: int): int {
    if stop < 0 then stop + n else stop
  }

  /** True when LRANGE start stop selects nothing. */
  predicate EmptyRange(n: nat, start: int, stop: int) {
    StartIndex(n, start) >= n || StartIndex(n, start) > StopIndex(n, stop)
  }

  /** LRANGE key start stop (also ZRANGE and the list LTRIM keeps). */
  function Range<T>(s: seq<T>, start: int, stop: int): (r: seq<T>)
  {
    var a, b := StartIndex(|s|, start), StopIndex(|s|, stop);
    if EmptyRange(|s|, start, stop) then [] else s[a..Min(b, |s| - 1) + 1]
  }

  /** The part ZREMRANGEBYRANK start stop keeps: everything outside LRANGE start stop. */
  function RemoveRange<T>(s: seq<T>, start: int, stop: int): seq<T>
  {
    var a, b := StartIndex(|s|, start), StopIndex(|s|, stop);
    if EmptyRange(|s|, start, stop) then s else s[..a] + s[Min(b, |s| - 1) + 1..]
  }

  /** A range from index 0 to a non-negative stop is a prefix of at most stop + 1 elements. */
  lemma RangeFromHead<T>(s: seq<T>, stop: nat)
    ensures Range(s, 0, stop) == s[..Min(stop + 1, |s|)]
  {
  }

  /** LTRIM 0 -1, and a range ending at -1 from 0, keeps the whole list. */
  lemma RangeWhole<T>(s: seq<T>)
    ensures Range(s, 0, -1) == s
  {
  }

  /** Removing ranks 0 .. -(k+1) keeps exactly the last k elements. */
  lemma RemoveRangeKeepsLast<T>(s: seq<T>, k: nat)
    ensures RemoveRange(s, 0, -(k as int) - 1) == if |s| <= k then s else s[|s| - k..]
  {
  }

  /** Between two non-negative indices, a range has at most stop - start + 1 elements. */
  lemma RangeLength<T>(s: seq<T>, start: nat, stop: nat)
    ensures |Range(s, start, stop)| <= Max(stop - start + 1, 0)
    ensures forall x :: x in Range(s, start, stop) ==> x in s
  {
  }
}
