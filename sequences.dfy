/** Order-preserving filtering and the order facts the indexes rely on. */
module Sequences {

  /** The elements of `s` that satisfy `p`, in their order in `s`. */
  function Filter<T(!new)>(s: seq<T>, p: T -> bool): (r: seq<T>)
    ensures |r| <= |s|
    ensures forall x :: x in r <==> x in s && p(x)
  {
    if s == [] then [] else (if p(s[0]) then [s[0]] else []) + Filter(s[1..], p)
  }

  /** No element occurs twice. */
  ghost predicate Distinct<T(!new)>(s: seq<T>) {
    forall i, j | 0 <= i < j < |s| :: s[i] != s[j]
  }

  /** `x` occurs in `s` at some position before a position of `y`. */
  ghost predicate Before<T(!new)>(s: seq<T>, x: T, y: T) {
    exists a, b | 0 <= a < b < |s| :: s[a] == x && s[b] == y
  }

  /** An element ahead of the rest comes before everything in it. */
  lemma BeforeHead<T(!new)>(x: T, t: seq<T>, y: T)
    requires y in t
    ensures Before([x] + t, x, y)
  {
    var k :| 0 <= k < |t| && t[k] == y;
    assert ([x] + t)[0] == x && ([x] + t)[k + 1] == y;
  }

  /** Putting an element in front keeps the order of the rest. */
  lemma BeforeCons<T(!new)>(h: T, t: seq<T>, x: T, y: T)
    requires Before(t, x, y)
    ensures Before([h] + t, x, y)
  {
    var c, d :| 0 <= c < d < |t| && t[c] == x && t[d] == y;
    assert ([h] + t)[c + 1] == x && ([h] + t)[d + 1] == y;
  }

  /** Filtering never reorders: what comes first in the result came first in the input. */
  lemma {:induction false} FilterBefore<T(!new)>(s: seq<T>, p: T -> bool, x: T, y: T)
    requires Before(Filter(s, p), x, y)
    ensures Before(s, x, y)
  {
    var r := Filter(s, p);
    var a, b :| 0 <= a < b < |r| && r[a] == x && r[b] == y;
    var t := s[1..];
    var rest := Filter(t, p);
    assert s == [s[0]] + t;
    if p(s[0]) && a == 0 {
      assert r == [s[0]] + rest;
      assert y in rest;
      BeforeHead(s[0], t, y);
    } else {
      assert Before(rest, x, y) by {
        if p(s[0]) {
          assert r == [s[0]] + rest;
          assert rest[a - 1] == x && rest[b - 1] == y;
        } else {
          assert r == rest;
        }
      }
      FilterBefore(t, p, x, y);
      BeforeCons(s[0], t, x, y);
    }
  }

  /** Filtering a duplicate-free sequence gives a duplicate-free sequence. */
  lemma {:induction false} FilterDistinct<T(!new)>(s: seq<T>, p: T -> bool)
    requires Distinct(s)
    ensures Distinct(Filter(s, p))
  {
    if s != [] {
      FilterDistinct(s[1..], p);
      var rest := Filter(s[1..], p);
      assert s[0] !in s[1..];
      assert s[0] !in rest;
    }
  }

  /** Filtering a sequence of one. */
  lemma FilterOne<T(!new)>(a: T, p: T -> bool)
    ensures Filter([a], p) == if p(a) then [a] else []
  {
    assert [a][1..] == [];
  }

  /** Filtering a sequence of two. */
  lemma FilterTwo<T(!new)>(a: T, b: T, p: T -> bool)
    ensures Filter([a, b], p) == (if p(a) then [a] else []) + (if p(b) then [b] else [])
  {
    assert [a, b][1..] == [b];
    FilterOne(b, p);
  }

  /** Filtering a sequence of three. */
  lemma FilterThree<T(!new)>(a: T, b: T, c: T, p: T -> bool)
    ensures Filter([a, b, c], p) == (if p(a) then [a] else []) + (if p(b) then [b] else []) + (if p(c) then [c] else [])
  {
    assert [a, b, c][1..] == [b, c];
    FilterTwo(b, c, p);
  }

  /** Filtering distributes over concatenation. */
  lemma {:induction false} FilterAppend<T(!new)>(a: seq<T>, b: seq<T>, p: T -> bool)
    ensures Filter(a + b, p) == Filter(a, p) + Filter(b, p)
  {
    if a == [] {
      assert a + b == b;
    } else {
      assert (a + b)[1..] == a[1..] + b;
      FilterAppend(a[1..], b, p);
    }
  }

  /** A filter every element passes leaves the sequence as it was. */
  lemma {:induction false} FilterKeepsAll<T(!new)>(s: seq<T>, p: T -> bool)
    requires forall i | 0 <= i < |s| :: p(s[i])
    ensures Filter(s, p) == s
  {
    if s != [] {
      FilterKeepsAll(s[1..], p);
    }
  }

  /** A filter no element passes leaves nothing. */
  lemma {:induction false} FilterKeepsNone<T(!new)>(s: seq<T>, p: T -> bool)
    requires forall i | 0 <= i < |s| :: !p(s[i])
    ensures Filter(s, p) == []
  {
    if s != [] {
      FilterKeepsNone(s[1..], p);
    }
  }

  /** The first element of a filtered sequence is the first element of the input that passes. */
  lemma {:induction false} FilterFirst<T(!new)>(s: seq<T>, p: T -> bool)
    requires Filter(s, p) != []
    ensures exists i | 0 <= i < |s| :: s[i] == Filter(s, p)[0] && p(s[i]) && forall j | 0 <= j < i :: !p(s[j])
  {
    if p(s[0]) {
      assert Filter(s, p)[0] == s[0];
    } else {
      assert Filter(s, p) == Filter(s[1..], p);
      FilterFirst(s[1..], p);
      var i :| 0 <= i < |s[1..]| && s[1..][i] == Filter(s[1..], p)[0] && p(s[1..][i])
        && forall j | 0 <= j < i :: !p(s[1..][j]);
      assert s[i + 1] == Filter(s, p)[0];
      forall j | 0 <= j < i + 1 ensures !p(s[j]) {
        if j > 0 { assert s[j] == s[1..][j - 1]; }
      }
    }
  }

  /** Splitting the tail of a sequence is splitting the sequence one place further on. */
  lemma ConsSplit<T>(h: T, t: seq<T>, k: nat, x: T)
    requires k <= |t|
    ensures [h] + (t[..k] + [x] + t[k..]) == ([h] + t)[..k + 1] + [x] + ([h] + t)[k + 1..]
  {
    assert ([h] + t)[..k + 1] == [h] + t[..k];
    assert ([h] + t)[k + 1..] == t[k..];
  }

  /** Order among elements of the first part of a concatenation is order within that part. */
  lemma BeforeInFirst<T(!new)>(a: seq<T>, b: seq<T>, x: T, y: T)
    requires Before(a + b, x, y) && y !in b
    ensures Before(a, x, y)
  {
    var i, j :| 0 <= i < j < |a + b| && (a + b)[i] == x && (a + b)[j] == y;
    assert j < |a|;
    assert a[i] == x && a[j] == y;
  }

  /** Order among elements of the second part of a concatenation is order within that part. */
  lemma BeforeInSecond<T(!new)>(a: seq<T>, b: seq<T>, x: T, y: T)
    requires Before(a + b, x, y) && x !in a
    ensures Before(b, x, y)
  {
    var i, j :| 0 <= i < j < |a + b| && (a + b)[i] == x && (a + b)[j] == y;
    assert |a| <= i;
    assert b[i - |a|] == x && b[j - |a|] == y;
  }

  /** Two duplicate-free sequences with no common element concatenate to a duplicate-free one. */
  lemma DistinctAppend<T(!new)>(a: seq<T>, b: seq<T>)
    requires Distinct(a) && Distinct(b)
    requires forall x | x in a :: x !in b
    ensures Distinct(a + b)
  {
    forall i, j | 0 <= i < j < |a + b| ensures (a + b)[i] != (a + b)[j] {
      if i < |a| && j >= |a| {
        assert (a + b)[i] in a && (a + b)[j] == b[j - |a|];
      }
    }
  }
}
