/**
 * The creator index is kept in locale order of the creators' names. Locale
 * collation itself belongs to the host platform; here it is any total
 * preorder on names, supplied when the registry is created.
 */
module Collation {
  import opened Sequences
  import opened Index
  import opened Records

  /** `leq` compares every pair of names and is transitive: what a collator's `<= 0` gives. */
  ghost predicate IsTotalPreorder(leq: (string, string) -> bool) {
    && (forall a, b :: leq(a, b) || leq(b, a))
    && (forall a, b, c :: leq(a, b) && leq(b, c) ==> leq(a, c))
  }

  /** The creators are in ascending order of name under `leq`. */
  ghost predicate SortedByName(s: seq<Registered<Creator>>, leq: (string, string) -> bool) {
    forall i, j | 0 <= i < j < |s| :: leq(s[i].value.name, s[j].value.name)
  }

  /** Places `x` after every creator whose name sorts at or before its own. */
  function InsertByName(s: seq<Registered<Creator>>, x: Registered<Creator>, leq: (string, string) -> bool)
    : (r: seq<Registered<Creator>>)
    ensures |r| == |s| + 1
    ensures forall e :: e in r <==> e == x || e in s
  {
    if s == [] then [x]
    else if leq(s[0].value.name, x.value.name) then
      [s[0]] + InsertByName(s[1..], x, leq)
    else [x] + s
  }

  /** How many leading creators sort at or before `x`: where `InsertByName` puts it. */
  function InsertionPoint(s: seq<Registered<Creator>>, x: Registered<Creator>, leq: (string, string) -> bool): (k: nat)
    ensures k <= |s|
    ensures forall i | 0 <= i < k :: leq(s[i].value.name, x.value.name)
  {
    if s == [] then 0
    else if leq(s[0].value.name, x.value.name) then
      var k := 1 + InsertionPoint(s[1..], x, leq);
      assert forall i | 1 <= i < k :: s[i] == s[1..][i - 1];
      k
    else 0
  }

  /** Insertion moves nobody: it splits the index at the insertion point. */
  lemma {:induction false} InsertByNameSplits(s: seq<Registered<Creator>>, x: Registered<Creator>, leq: (string, string) -> bool)
    ensures InsertByName(s, x, leq) == s[..InsertionPoint(s, x, leq)] + [x] + s[InsertionPoint(s, x, leq)..]
  {
    if s != [] && leq(s[0].value.name, x.value.name) {
      var t := s[1..];
      var k := InsertionPoint(t, x, leq);
      assert InsertionPoint(s, x, leq) == k + 1;
      calc {
        InsertByName(s, x, leq);
      ==
        [s[0]] + InsertByName(t, x, leq);
      == { InsertByNameSplits(t, x, leq); }
        [s[0]] + (t[..k] + [x] + t[k..]);
      == { ConsSplit(s[0], t, k, x); assert [s[0]] + t == s; }
        s[..k + 1] + [x] + s[k + 1..];
      }
    } else {
      assert InsertionPoint(s, x, leq) == 0;
      assert s[..0] + [x] + s[0..] == [x] + s;
    }
  }

  /**
   * In a sorted index every creator after the insertion point sorts strictly
   * after `x`, so the new creator lands behind the ones with equal names
   * (which keep insertion order) and ahead of the ones that follow it.
   */
  lemma InsertionPointIsTight(s: seq<Registered<Creator>>, x: Registered<Creator>, leq: (string, string) -> bool)
    requires IsTotalPreorder(leq) && SortedByName(s, leq)
    ensures forall i | InsertionPoint(s, x, leq) <= i < |s| :: !leq(s[i].value.name, x.value.name)
  {
    var k := InsertionPoint(s, x, leq);
    if k < |s| {
      if k == 0 {
        assert !leq(s[0].value.name, x.value.name);
      } else {
        InsertionPointStops(s, x, leq);
      }
      forall i | k < i < |s| ensures !leq(s[i].value.name, x.value.name) {
        assert leq(s[k].value.name, s[i].value.name);
      }
    }
  }

  /** The creator at the insertion point, if any, sorts strictly after `x`. */
  lemma {:induction false} InsertionPointStops(s: seq<Registered<Creator>>, x: Registered<Creator>, leq: (string, string) -> bool)
    requires InsertionPoint(s, x, leq) < |s|
    ensures !leq(s[InsertionPoint(s, x, leq)].value.name, x.value.name)
  {
    if leq(s[0].value.name, x.value.name) {
      InsertionPointStops(s[1..], x, leq);
    }
  }

  /** Inserting into a sorted index keeps it sorted. */
  lemma InsertByNameKeepsSorted(s: seq<Registered<Creator>>, x: Registered<Creator>, leq: (string, string) -> bool)
    requires IsTotalPreorder(leq) && SortedByName(s, leq)
    ensures SortedByName(InsertByName(s, x, leq), leq)
  {
    var k := InsertionPoint(s, x, leq);
    InsertByNameSplits(s, x, leq);
    InsertionPointIsTight(s, x, leq);
    var r := InsertByName(s, x, leq);
    forall i, j | 0 <= i < j < |r| ensures leq(r[i].value.name, r[j].value.name) {
      if i == k {
        assert r[j] == s[j - 1];
        assert !leq(s[j - 1].value.name, x.value.name);
      } else if j == k {
        assert r[i] == s[i];
      } else {
        var a := if i < k then i else i - 1;
        var b := if j < k then j else j - 1;
        assert r[i] == s[a] && r[j] == s[b];
      }
    }
  }

  /** Removing a registration keeps the creator index sorted. */
  lemma RemoveIdKeepsSorted(s: seq<Registered<Creator>>, leq: (string, string) -> bool, id: nat)
    requires SortedByName(s, leq)
    ensures SortedByName(RemoveId(s, id), leq)
  {
    var r := RemoveId(s, id);
    forall i, j | 0 <= i < j < |r| ensures leq(r[i].value.name, r[j].value.name) {
      assert Before(Filter(s, IdIsNot(id)), r[i], r[j]);
      FilterBefore(s, IdIsNot(id), r[i], r[j]);
    }
  }

  /** Disposing the handle of a creator just inserted restores the index. */
  lemma RemoveUndoesInsert(s: seq<Registered<Creator>>, next: nat, c: Creator, leq: (string, string) -> bool)
    requires IdsBelow(s, next)
    ensures RemoveId(InsertByName(s, Registered(next, c), leq), next) == s
  {
    var x := Registered(next, c);
    var k := InsertionPoint(s, x, leq);
    var a, b := s[..k], s[k..];
    assert InsertByName(s, x, leq) == a + [x] + b by {
      InsertByNameSplits(s, x, leq);
    }
    assert forall i | 0 <= i < |b| :: b[i] == s[k + i];
    RemoveBetween(a, x, b);
    assert a + b == s;
  }
}
