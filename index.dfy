/**
 * A registration index: a sequence of genuine registrations in insertion
 * order, each carrying the id that its disposal handle names.
 */
module Index {
  import opened Wrappers
  import opened Names
  import opened Sequences

  /** One genuine registration of `value`, undone by the handle carrying `id`. */
  datatype Registered<T> = Registered(id: nat, value: T)

  /** The registered entities, in index order. */
  function Values<T>(s: seq<Registered<T>>): (r: seq<T>)
    ensures |r| == |s|
    ensures forall i | 0 <= i < |s| :: r[i] == s[i].value
  {
    seq(|s|, i requires 0 <= i < |s| => s[i].value)
  }

  /** Every id in the index was handed out before `next`. */
  ghost predicate IdsBelow<T>(s: seq<Registered<T>>, next: nat) {
    forall i | 0 <= i < |s| :: s[i].id < next
  }

  /** No two registrations share an id. */
  ghost predicate IdsUnique<T>(s: seq<Registered<T>>) {
    forall i, j | 0 <= i < j < |s| :: s[i].id != s[j].id
  }

  /** No two registered entities share a name, ignoring case. */
  ghost predicate NamesUnique<T>(s: seq<Registered<T>>, key: T -> string) {
    forall i, j | 0 <= i < j < |s| :: !SameName(key(s[i].value), key(s[j].value))
  }

  /** The invariant of a named index whose ids come from a counter now at `next`. */
  ghost predicate NamedIndex<T>(s: seq<Registered<T>>, key: T -> string, next: nat) {
    IdsBelow(s, next) && IdsUnique(s) && NamesUnique(s, key)
  }

  /** Case-insensitive lookup by name; `None` when no entity has that name. */
  function Lookup<T>(s: seq<Registered<T>>, key: T -> string, name: string): (r: Option<T>)
    ensures r.None? <==> forall i | 0 <= i < |s| :: !SameName(key(s[i].value), name)
    ensures r.Some? ==> r.value in Values(s) && SameName(key(r.value), name)
  {
    if s == [] then None
    else if SameName(key(s[0].value), name) then Some(s[0].value)
    else Lookup(s[1..], key, name)
  }

  function IdIsNot<T>(id: nat): Registered<T> -> bool {
    (e: Registered<T>) => e.id != id
  }

  /** The index without the registration that carries `id`; the others keep their order. */
  function RemoveId<T(!new)>(s: seq<Registered<T>>, id: nat): (r: seq<Registered<T>>)
    ensures forall e :: e in r <==> e in s && e.id != id
  {
    Filter(s, IdIsNot(id))
  }

  /** Lookup ignores case: names that agree after folding find the same entity. */
  lemma {:induction false} LookupIgnoresCase<T>(s: seq<Registered<T>>, key: T -> string, a: string, b: string)
    requires SameName(a, b)
    ensures Lookup(s, key, a) == Lookup(s, key, b)
  {
    if s != [] {
      LookupIgnoresCase(s[1..], key, a, b);
    }
  }

  /** In an index with unique names, looking up an entity's name (in any case) finds that entity. */
  lemma LookupFindsUnique<T>(s: seq<Registered<T>>, key: T -> string, k: nat, name: string)
    requires NamesUnique(s, key)
    requires k < |s| && SameName(key(s[k].value), name)
    ensures Lookup(s, key, name) == Some(s[k].value)
  {
    var r := Lookup(s, key, name);
    var j :| 0 <= j < |s| && Values(s)[j] == r.value;
    assert j == k;
  }

  /** Lookup answers with the first registration, in index order, whose name matches. */
  lemma {:induction false} LookupFindsFirst<T>(s: seq<Registered<T>>, key: T -> string, k: nat, name: string)
    requires k < |s| && SameName(key(s[k].value), name)
    requires forall j | 0 <= j < k :: !SameName(key(s[j].value), name)
    ensures Lookup(s, key, name) == Some(s[k].value)
  {
    if k > 0 {
      assert forall j | 0 <= j < k - 1 :: s[1..][j] == s[j + 1];
      LookupFindsFirst(s[1..], key, k - 1, name);
    }
  }

  /** An appended registration is found only by names no earlier entity answers to. */
  lemma {:induction false} LookupAfterAppend<T>(s: seq<Registered<T>>, key: T -> string, id: nat, v: T, name: string)
    ensures Lookup(s + [Registered(id, v)], key, name) ==
      if Lookup(s, key, name).Some? then Lookup(s, key, name)
      else if SameName(key(v), name) then Some(v)
      else None
  {
    if s != [] {
      assert (s + [Registered(id, v)])[1..] == s[1..] + [Registered(id, v)];
      LookupAfterAppend(s[1..], key, id, v, name);
    }
  }

  /** Appending an entity whose name is free keeps the index invariant, with the counter advanced. */
  lemma AppendKeepsNamedIndex<T>(s: seq<Registered<T>>, key: T -> string, next: nat, v: T)
    requires NamedIndex(s, key, next)
    requires Lookup(s, key, key(v)).None?
    ensures NamedIndex(s + [Registered(next, v)], key, next + 1)
  {
  }

  /** When one registration carries `id`, removing it is cutting that one entry out. */
  lemma RemoveIdAt<T(!new)>(s: seq<Registered<T>>, k: nat)
    requires IdsUnique(s) && k < |s|
    ensures RemoveId(s, s[k].id) == s[..k] + s[k + 1..]
  {
    var a, b := s[..k], s[k + 1..];
    assert s == a + [s[k]] + b;
    assert forall i | 0 <= i < |b| :: b[i] == s[k + 1 + i];
    RemoveBetween(a, s[k], b);
  }

  /** The entry at position `i` of an index with `x` put in at position `k`. */
  lemma PutAt<T>(s: seq<Registered<T>>, k: nat, x: Registered<T>, i: nat)
    requires k <= |s| && i <= |s|
    ensures (s[..k] + [x] + s[k..])[i] == if i < k then s[i] else if i == k then x else s[i - 1]
  {
  }

  /** Putting an entity whose name is free anywhere in the index keeps the index invariant. */
  lemma PutAtKeepsNamedIndex<T>(s: seq<Registered<T>>, key: T -> string, next: nat, v: T, k: nat)
    requires NamedIndex(s, key, next)
    requires Lookup(s, key, key(v)).None?
    requires k <= |s|
    ensures NamedIndex(s[..k] + [Registered(next, v)] + s[k..], key, next + 1)
  {
    var x := Registered(next, v);
    var r := s[..k] + [x] + s[k..];
    forall i | 0 <= i < |r| ensures r[i].id < next + 1 {
      PutAt(s, k, x, i);
    }
    forall i, j | 0 <= i < j < |r|
      ensures r[i].id != r[j].id && !SameName(key(r[i].value), key(r[j].value))
    {
      PutAt(s, k, x, i);
      PutAt(s, k, x, j);
      if i == k {
        assert r[j] == s[j - 1];
      } else if j == k {
        assert r[i] == s[i];
      } else {
        var a := if i < k then i else i - 1;
        var b := if j < k then j else j - 1;
        assert r[i] == s[a] && r[j] == s[b];
      }
    }
  }

  /** Disposing the same handle twice is no worse than disposing it once. */
  lemma RemoveIdTwice<T(!new)>(s: seq<Registered<T>>, id: nat)
    ensures RemoveId(RemoveId(s, id), id) == RemoveId(s, id)
  {
    var r := RemoveId(s, id);
    assert forall i | 0 <= i < |r| :: r[i] in r;
    FilterKeepsAll(r, IdIsNot(id));
  }

  /** Removing an id no registration carries changes nothing. */
  lemma RemoveIdAbsent<T(!new)>(s: seq<Registered<T>>, id: nat)
    requires forall i | 0 <= i < |s| :: s[i].id != id
    ensures RemoveId(s, id) == s
  {
    FilterKeepsAll(s, IdIsNot(id));
  }

  /** Disposing the handle of the registration just appended restores the index. */
  lemma RemoveUndoesAppend<T(!new)>(s: seq<Registered<T>>, next: nat, v: T)
    requires IdsBelow(s, next)
    ensures RemoveId(s + [Registered(next, v)], next) == s
  {
    FilterAppend(s, [Registered(next, v)], IdIsNot(next));
    FilterKeepsAll(s, IdIsNot(next));
  }

  /** Removing an id only one registration carries cuts exactly that one out, wherever it sits. */
  lemma RemoveBetween<T(!new)>(a: seq<Registered<T>>, x: Registered<T>, b: seq<Registered<T>>)
    requires forall i | 0 <= i < |a| :: a[i].id != x.id
    requires forall i | 0 <= i < |b| :: b[i].id != x.id
    ensures RemoveId(a + [x] + b, x.id) == a + b
  {
    var p := IdIsNot<T>(x.id);
    var m := [x];
    assert Filter(m, p) == [] by {
      assert !p(m[0]);
      assert m[1..] == [];
    }
    calc {
      Filter(a + m + b, p);
    == { FilterAppend(a + m, b, p); }
      Filter(a + m, p) + Filter(b, p);
    == { FilterAppend(a, m, p); }
      Filter(a, p) + Filter(m, p) + Filter(b, p);
    == { FilterKeepsAll(a, p); FilterKeepsAll(b, p); }
      a + [] + b;
    }
    assert a + [] + b == a + b;
  }

  /** Removal keeps any pairwise fact about the survivors, because it never reorders them. */
  lemma RemoveIdKeepsNamedIndex<T(!new)>(s: seq<Registered<T>>, key: T -> string, next: nat, id: nat)
    requires NamedIndex(s, key, next)
    ensures NamedIndex(RemoveId(s, id), key, next)
  {
    var r := RemoveId(s, id);
    forall i, j | 0 <= i < j < |r|
      ensures r[i].id != r[j].id && !SameName(key(r[i].value), key(r[j].value))
    {
      assert Before(Filter(s, IdIsNot(id)), r[i], r[j]);
      FilterBefore(s, IdIsNot(id), r[i], r[j]);
    }
    forall i | 0 <= i < |r| ensures r[i].id < next {
      assert r[i] in s;
    }
  }

  /** The entry at position `i` of an index with position `k` cut out. */
  lemma CutAt<T>(s: seq<Registered<T>>, k: nat, i: nat)
    requires k < |s| && i < |s| - 1
    ensures (s[..k] + s[k + 1..])[i] == if i < k then s[i] else s[i + 1]
  {
  }

  /** After disposing a registration, its name resolves to nothing. */
  lemma LookupAfterRemoveSame<T(!new)>(s: seq<Registered<T>>, key: T -> string, next: nat, k: nat, name: string)
    requires NamedIndex(s, key, next) && k < |s|
    requires SameName(key(s[k].value), name)
    ensures Lookup(RemoveId(s, s[k].id), key, name).None?
  {
    RemoveIdAt(s, k);
    var r := RemoveId(s, s[k].id);
    forall i | 0 <= i < |r| ensures !SameName(key(r[i].value), name) {
      CutAt(s, k, i);
    }
  }

  /** After disposing a registration, every other name resolves as before. */
  lemma LookupAfterRemoveOther<T(!new)>(s: seq<Registered<T>>, key: T -> string, next: nat, k: nat, name: string)
    requires NamedIndex(s, key, next) && k < |s|
    requires !SameName(key(s[k].value), name)
    ensures Lookup(RemoveId(s, s[k].id), key, name) == Lookup(s, key, name)
  {
    RemoveIdAt(s, k);
    var r := RemoveId(s, s[k].id);
    RemoveIdKeepsNamedIndex(s, key, next, s[k].id);
    var found := Lookup(s, key, name);
    if found.None? {
      forall i | 0 <= i < |r| ensures !SameName(key(r[i].value), name) {
        CutAt(s, k, i);
      }
    } else {
      var j :| 0 <= j < |s| && Values(s)[j] == found.value;
      assert j != k;
      var i := if j < k then j else j - 1;
      assert r[i] == s[j] by {
        CutAt(s, k, i);
      }
      LookupFindsUnique(r, key, i, name);
    }
  }

  /**
   * Disposing a registration removes exactly that entity: its name no longer
   * resolves, and every other name resolves as before.
   */
  lemma LookupAfterRemove<T(!new)>(s: seq<Registered<T>>, key: T -> string, next: nat, k: nat, name: string)
    requires NamedIndex(s, key, next) && k < |s|
    ensures Lookup(RemoveId(s, s[k].id), key, name) ==
      if SameName(key(s[k].value), name) then None else Lookup(s, key, name)
  {
    if SameName(key(s[k].value), name) {
      LookupAfterRemoveSame(s, key, next, k, name);
    } else {
      LookupAfterRemoveOther(s, key, next, k, name);
    }
  }

  /** Entities with pairwise different names are pairwise different. */
  lemma NamesUniqueValuesDistinct<T(!new)>(s: seq<Registered<T>>, key: T -> string)
    requires NamesUnique(s, key)
    ensures Distinct(Values(s))
  {
  }
}
