/** The optional values and results that stand for Go's `(value, ok)` and `(value, error)` returns. */
module Results {
  datatype Option<+T> = None | Some(value: T)

  datatype Result<+T, +E> = Ok(value: T) | Err(error: E)
}

/** Go's order on strings: byte by byte, a proper prefix first. */
module Lex {
  predicate Less(a: string, b: string) {
    if b == [] then false
    else if a == [] then true
    else a[0] < b[0] || (a[0] == b[0] && Less(a[1..], b[1..]))
  }

  predicate LessEq(a: string, b: string) {
    a == b || Less(a, b)
  }

  lemma {:induction false} LessTrichotomy(a: string, b: string)
    ensures Less(a, b) || a == b || Less(b, a)
    ensures !(Less(a, b) && Less(b, a))
    ensures a == b ==> !Less(a, b)
  {
    if a != [] && b != [] {
      LessTrichotomy(a[1..], b[1..]);
      if a[0] == b[0] && a[1..] == b[1..] {
        assert a == [a[0]] + a[1..];
        assert b == [b[0]] + b[1..];
      }
    }
  }

  lemma {:induction false} LessTransitive(a: string, b: string, c: string)
    requires Less(a, b) && Less(b, c)
    ensures Less(a, c)
  {
    if a != [] {
      if a[0] == b[0] == c[0] {
        LessTransitive(a[1..], b[1..], c[1..]);
      }
    }
  }

  // Strings that start with blocks of one length compare by those blocks first.
  lemma {:induction false} LessByBlocks(a: string, b: string, x: string, y: string)
    requires |a| == |b|
    ensures Less(a + x, b + y) <==> Less(a, b) || (a == b && Less(x, y))
  {
    if a == [] {
      assert a + x == x && b + y == y;
    } else {
      assert (a + x)[1..] == a[1..] + x;
      assert (b + y)[1..] == b[1..] + y;
      LessByBlocks(a[1..], b[1..], x, y);
      if a[0] == b[0] && a[1..] == b[1..] {
        assert a == [a[0]] + a[1..];
        assert b == [b[0]] + b[1..];
      }
    }
  }
}

/** Stable insertion sort: the specification of Go's `sort.SliceStable`, and of its unstable
    sorts wherever the order leaves no ties. */
module Sorting {
  function Insert<T>(x: T, s: seq<T>, leq: (T, T) -> bool): seq<T> {
    if s == [] || leq(x, s[0]) then [x] + s else [s[0]] + Insert(x, s[1..], leq)
  }

  function Sort<T>(s: seq<T>, leq: (T, T) -> bool): seq<T> {
    if s == [] then [] else Insert(s[0], Sort(s[1..], leq), leq)
  }

  ghost predicate Ordered<T>(s: seq<T>, rel: (T, T) -> bool) {
    forall i, j | 0 <= i < j < |s| :: rel(s[i], s[j])
  }

  // Sorted by leq, with ties in the order of `before`.
  ghost predicate StablyOrdered<T>(s: seq<T>, leq: (T, T) -> bool, before: (T, T) -> bool) {
    forall i, j | 0 <= i < j < |s| :: leq(s[i], s[j]) && (leq(s[j], s[i]) ==> before(s[i], s[j]))
  }

  ghost predicate TotalPreorderOn<T>(s: seq<T>, leq: (T, T) -> bool) {
    && (forall x, y | x in s && y in s :: leq(x, y) || leq(y, x))
    && (forall x, y, z | x in s && y in s && z in s && leq(x, y) && leq(y, z) :: leq(x, z))
  }

  lemma {:induction false} InsertElements<T(!new)>(x: T, s: seq<T>, leq: (T, T) -> bool)
    ensures multiset(Insert(x, s, leq)) == multiset{x} + multiset(s)
  {
    if s != [] && !leq(x, s[0]) {
      InsertElements(x, s[1..], leq);
      assert s == [s[0]] + s[1..];
    }
  }

  lemma {:induction false} SortPermutes<T(!new)>(s: seq<T>, leq: (T, T) -> bool)
    ensures multiset(Sort(s, leq)) == multiset(s)
  {
    if s != [] {
      SortPermutes(s[1..], leq);
      InsertElements(s[0], Sort(s[1..], leq), leq);
      assert s == [s[0]] + s[1..];
    }
  }

  lemma SameElements<T(!new)>(s: seq<T>, t: seq<T>)
    requires multiset(s) == multiset(t)
    ensures |s| == |t|
    ensures forall x :: x in s <==> x in t
  {
    assert |s| == |multiset(s)| == |multiset(t)| == |t|;
    forall x ensures x in s <==> x in t {
      assert x in s <==> x in multiset(s);
      assert x in t <==> x in multiset(t);
    }
  }

  lemma TailIn<T(!new)>(s: seq<T>, y: T)
    requires s != [] && y in s[1..]
    ensures exists k :: 1 <= k < |s| && s[k] == y
  {
    var k :| 0 <= k < |s[1..]| && s[1..][k] == y;
    assert s[k + 1] == y;
  }

  lemma {:induction false} InsertStable<T(!new)>(
    all: seq<T>, x: T, s: seq<T>, leq: (T, T) -> bool, before: (T, T) -> bool)
    requires TotalPreorderOn(all, leq) && x in all && forall y | y in s :: y in all && before(x, y)
    requires StablyOrdered(s, leq, before)
    ensures StablyOrdered(Insert(x, s, leq), leq, before)
  {
    if s != [] {
      if leq(x, s[0]) {
        forall j | 0 <= j < |s| ensures leq(x, s[j]) {
          assert s[0] in all && s[j] in all;
          assert j == 0 || leq(s[0], s[j]);
        }
      } else {
        var rest := Insert(x, s[1..], leq);
        InsertStable(all, x, s[1..], leq, before);
        InsertElements(x, s[1..], leq);
        assert multiset(rest) == multiset([x] + s[1..]);
        SameElements(rest, [x] + s[1..]);
        forall j | 0 <= j < |rest|
          ensures leq(s[0], rest[j]) && (leq(rest[j], s[0]) ==> before(s[0], rest[j]))
        {
          assert rest[j] in rest;
          assert rest[j] in [x] + s[1..];
          if rest[j] == x {
            assert s[0] in s;
          } else {
            TailIn(s, rest[j]);
          }
        }
      }
    }
  }

  // Sorting a sequence that is already in `before` order keeps that order among ties.
  lemma {:induction false} SortIsStable<T(!new)>(s: seq<T>, leq: (T, T) -> bool, before: (T, T) -> bool)
    requires TotalPreorderOn(s, leq)
    requires Ordered(s, before)
    ensures StablyOrdered(Sort(s, leq), leq, before)
  {
    if s != [] {
      var rest := Sort(s[1..], leq);
      SortIsStable(s[1..], leq, before);
      SortPermutes(s[1..], leq);
      SameElements(rest, s[1..]);
      forall y | y in rest ensures y in s && before(s[0], y) {
        assert y in s[1..];
        TailIn(s, y);
      }
      assert s[0] in s;
      InsertStable(s, s[0], rest, leq, before);
    }
  }

  lemma TailElements<T(!new)>(s: seq<T>, less: (T, T) -> bool, x: T)
    requires s != [] && Ordered(s, less)
    requires !less(s[0], s[0])
    ensures x in s[1..] <==> x in s && x != s[0]
  {
    if x in s[1..] {
      var i :| 0 <= i < |s[1..]| && s[1..][i] == x;
      assert x == s[i + 1] && less(s[0], s[i + 1]);
    }
    if x in s && x != s[0] {
      var i :| 0 <= i < |s| && s[i] == x;
      assert s[1..][i - 1] == x;
    }
  }

  // A strict order has one ascending sequence of given elements.
  lemma {:induction false} AscendingUnique<T(!new)>(s: seq<T>, t: seq<T>, less: (T, T) -> bool)
    requires Ordered(s, less) && Ordered(t, less)
    requires forall x, y | x in s && y in s :: !(less(x, y) && less(y, x))
    requires forall x :: x in s <==> x in t
    ensures s == t
  {
    assert s != [] ==> s[0] in s && s[0] in t;
    assert t != [] ==> t[0] in s;
    if s != [] && t != [] {
      var i :| 0 <= i < |t| && t[i] == s[0];
      var j :| 0 <= j < |s| && s[j] == t[0];
      assert s[0] == t[0];
      forall x ensures x in s[1..] <==> x in t[1..] {
        TailElements(s, less, x);
        TailElements(t, less, x);
      }
      AscendingUnique(s[1..], t[1..], less);
      assert s == [s[0]] + s[1..];
      assert t == [t[0]] + t[1..];
    }
  }
}

/** Sums over sequences, whatever the order of their elements. */
module Sums {
  function Sum(s: seq<int>): int {
    if s == [] then 0 else Sum(s[..|s| - 1]) + s[|s| - 1]
  }

  function SumBy<T>(s: seq<T>, f: T -> int): int {
    if s == [] then 0 else SumBy(s[..|s| - 1], f) + f(s[|s| - 1])
  }

  lemma SumSnoc(s: seq<int>, k: nat)
    requires k < |s|
    ensures Sum(s[..k + 1]) == Sum(s[..k]) + s[k]
  {
    assert s[..k + 1][..k] == s[..k];
  }

  lemma SumBySnoc<T>(s: seq<T>, f: T -> int, k: nat)
    requires k < |s|
    ensures SumBy(s[..k + 1], f) == SumBy(s[..k], f) + f(s[k])
  {
    assert s[..k + 1][..k] == s[..k];
  }

  lemma {:induction false} SumByAppend<T>(s: seq<T>, x: T, f: T -> int)
    ensures SumBy(s + [x], f) == SumBy(s, f) + f(x)
  {
    assert (s + [x])[..|s|] == s;
  }

  lemma {:induction false} SumByConcat<T>(s: seq<T>, t: seq<T>, f: T -> int)
    ensures SumBy(s + t, f) == SumBy(s, f) + SumBy(t, f)
  {
    if t == [] {
      assert s + t == s;
    } else {
      assert (s + t)[..|s + t| - 1] == s + t[..|t| - 1];
      SumByConcat(s, t[..|t| - 1], f);
    }
  }

  lemma {:induction false} SumByPluck<T>(t: seq<T>, k: nat, f: T -> int)
    requires k < |t|
    ensures SumBy(t, f) == SumBy(t[..k] + t[k + 1..], f) + f(t[k])
  {
    SumByConcat(t[..k], t[k + 1..], f);
    SumByConcat(t[..k + 1], t[k + 1..], f);
    SumBySnoc(t, f, k);
    assert t == t[..k + 1] + t[k + 1..];
  }

  lemma MultisetWithout<T>(s: seq<T>, k: nat)
    requires k < |s|
    ensures multiset(s[..k] + s[k + 1..]) == multiset(s) - multiset{s[k]}
  {
    assert s == s[..k] + [s[k]] + s[k + 1..];
  }

  // Only the multiset of the elements matters.
  lemma {:induction false} SumByPermutation<T>(s: seq<T>, t: seq<T>, f: T -> int)
    requires multiset(s) == multiset(t)
    ensures SumBy(s, f) == SumBy(t, f)
  {
    if s == [] {
      assert |multiset(t)| == 0;
    } else {
      var n := |s| - 1;
      assert s[n] in multiset(s);
      assert s[n] in t;
      var k :| 0 <= k < |t| && t[k] == s[n];
      MultisetWithout(s, n);
      MultisetWithout(t, k);
      assert s[..n] + s[n + 1..] == s[..n];
      SumByPermutation(s[..n], t[..k] + t[k + 1..], f);
      SumByPluck(t, k, f);
    }
  }

  lemma {:induction false} SumByBounds<T>(s: seq<T>, f: T -> int)
    requires forall x | x in s :: f(x) >= 0
    ensures SumBy(s, f) >= 0
    ensures forall x | x in s :: f(x) <= SumBy(s, f)
  {
    if s != [] {
      var p := s[..|s| - 1];
      SumByBounds(p, f);
      assert s == p + [s[|s| - 1]];
    }
  }
}
