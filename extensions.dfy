/**
 * The widget-extension index: a multimap from widget-factory names to the
 * extensions attached to widgets made by that factory. One registration is
 * one (name, extension) pairing; the name is kept in case-folded form.
 */
module Extensions {
  import opened Names
  import opened Sequences
  import opened Records
  import opened Index

  /** One pairing of a case-folded widget-factory name with an extension. */
  datatype Binding = Binding(widgetName: string, extension: WidgetExtension)

  /** The pairing that registering `extension` for the factory called `widgetName` records. */
  function BindingFor(widgetName: string, extension: WidgetExtension): (b: Binding)
    ensures b.extension == extension
    ensures SameName(b.widgetName, widgetName) && b.widgetName == Lowercase(b.widgetName)
  {
    LowercaseIdempotent(widgetName);
    Binding(Lowercase(widgetName), extension)
  }

  /** No pairing is registered twice. */
  ghost predicate BindingsUnique(s: seq<Registered<Binding>>) {
    forall i, j | 0 <= i < j < |s| :: s[i].value != s[j].value
  }

  /** Whether the pairing `b` is registered. */
  predicate Bound(s: seq<Registered<Binding>>, b: Binding) {
    exists i | 0 <= i < |s| :: s[i].value == b
  }

  /** The extensions paired with the folded name `key`, in registration order. */
  function ExtensionsFor(s: seq<Registered<Binding>>, key: string): (r: seq<WidgetExtension>)
    ensures |r| <= |s|
    ensures forall x :: x in r <==> Bound(s, Binding(key, x))
  {
    if s == [] then []
    else
      var rest := ExtensionsFor(s[1..], key);
      assert forall x :: Bound(s[1..], Binding(key, x)) ==> Bound(s, Binding(key, x)) by {
        forall x | Bound(s[1..], Binding(key, x)) ensures Bound(s, Binding(key, x)) {
          var i :| 0 <= i < |s[1..]| && s[1..][i].value == Binding(key, x);
          assert s[i + 1].value == Binding(key, x);
        }
      }
      (if s[0].value.widgetName == key then [s[0].value.extension] else []) + rest
  }

  /** Enumeration follows the index: the extensions of two stretches of the index are concatenated. */
  lemma {:induction false} ExtensionsForAppend(a: seq<Registered<Binding>>, b: seq<Registered<Binding>>, key: string)
    ensures ExtensionsFor(a + b, key) == ExtensionsFor(a, key) + ExtensionsFor(b, key)
  {
    if a == [] {
      assert a + b == b;
    } else {
      assert (a + b)[1..] == a[1..] + b;
      ExtensionsForAppend(a[1..], b, key);
    }
  }

  /** The extensions a single registration contributes to the enumeration for `key`. */
  function Contributed(e: Registered<Binding>, key: string): seq<WidgetExtension> {
    if e.value.widgetName == key then [e.value.extension] else []
  }

  /** Enumerating an index of three registrations. */
  lemma ExtensionsForThree(a: Registered<Binding>, b: Registered<Binding>, c: Registered<Binding>, key: string)
    ensures ExtensionsFor([a, b, c], key) == Contributed(a, key) + Contributed(b, key) + Contributed(c, key)
  {
    assert [c][1..] == [];
    assert ExtensionsFor([c], key) == Contributed(c, key);
    assert [b, c][1..] == [c];
    assert ExtensionsFor([b, c], key) == Contributed(b, key) + Contributed(c, key);
    assert [a, b, c][1..] == [b, c];
  }

  /** A newly registered pairing is enumerated last for its own name and not at all for any other. */
  lemma ExtensionsAfterAdd(s: seq<Registered<Binding>>, id: nat, b: Binding, key: string)
    ensures ExtensionsFor(s + [Registered(id, b)], key) ==
      if b.widgetName == key then ExtensionsFor(s, key) + [b.extension] else ExtensionsFor(s, key)
  {
    ExtensionsForAppend(s, [Registered(id, b)], key);
    assert [Registered(id, b)][1..] == [];
  }

  /** A name with no pairing enumerates nothing, and only such a name. */
  lemma {:induction false} ExtensionsForUnknown(s: seq<Registered<Binding>>, key: string)
    ensures ExtensionsFor(s, key) == [] <==> forall i | 0 <= i < |s| :: s[i].value.widgetName != key
  {
    var r := ExtensionsFor(s, key);
    if r != [] {
      assert r[0] in r;
    }
    if exists i | 0 <= i < |s| :: s[i].value.widgetName == key {
      var i :| 0 <= i < |s| && s[i].value.widgetName == key;
      assert s[i].value.extension in r;
    }
  }

  /** Appending an unregistered pairing keeps the pairings unique. */
  lemma AppendKeepsBindingsUnique(s: seq<Registered<Binding>>, id: nat, b: Binding)
    requires BindingsUnique(s) && !Bound(s, b)
    ensures BindingsUnique(s + [Registered(id, b)])
  {
  }

  /** Removing a registration keeps the ids below the counter and the ids and pairings unique. */
  lemma RemoveIdKeepsExtensionIndex(s: seq<Registered<Binding>>, next: nat, id: nat)
    requires IdsBelow(s, next) && IdsUnique(s) && BindingsUnique(s)
    ensures IdsBelow(RemoveId(s, id), next) && IdsUnique(RemoveId(s, id)) && BindingsUnique(RemoveId(s, id))
  {
    var r := RemoveId(s, id);
    forall i, j | 0 <= i < j < |r| ensures r[i].id != r[j].id && r[i].value != r[j].value {
      assert Before(Filter(s, IdIsNot(id)), r[i], r[j]);
      FilterBefore(s, IdIsNot(id), r[i], r[j]);
    }
    forall i | 0 <= i < |r| ensures r[i].id < next {
      assert r[i] in s;
    }
  }

  /** The enumeration for `key` reads the stretch before position `k`, the entry at `k`, and the stretch after it. */
  lemma ExtensionsSplitAt(s: seq<Registered<Binding>>, k: nat, key: string)
    requires k < |s|
    ensures ExtensionsFor(s, key) == ExtensionsFor(s[..k], key) + ExtensionsFor([s[k]], key) + ExtensionsFor(s[k + 1..], key)
  {
    var a, m, b := s[..k], [s[k]], s[k + 1..];
    assert s == a + m + b;
    calc {
      ExtensionsFor(a + m + b, key);
    == { ExtensionsForAppend(a + m, b, key); }
      ExtensionsFor(a + m, key) + ExtensionsFor(b, key);
    == { ExtensionsForAppend(a, m, key); }
      ExtensionsFor(a, key) + ExtensionsFor(m, key) + ExtensionsFor(b, key);
    }
  }

  /**
   * Disposing the registration at position `k` takes exactly its extension
   * out of the enumeration for its own name, keeping the others in order.
   */
  lemma ExtensionsAfterRemove(s: seq<Registered<Binding>>, k: nat, key: string)
    requires IdsUnique(s) && k < |s|
    ensures ExtensionsFor(RemoveId(s, s[k].id), key) == ExtensionsFor(s[..k], key) + ExtensionsFor(s[k + 1..], key)
  {
    RemoveIdAt(s, k);
    ExtensionsForAppend(s[..k], s[k + 1..], key);
  }

  /** Disposing a pairing leaves the enumeration for every other name as it was. */
  lemma ExtensionsAfterRemoveOther(s: seq<Registered<Binding>>, k: nat, key: string)
    requires IdsUnique(s) && k < |s| && s[k].value.widgetName != key
    ensures ExtensionsFor(RemoveId(s, s[k].id), key) == ExtensionsFor(s, key)
  {
    ExtensionsSplitAt(s, k, key);
    ExtensionsAfterRemove(s, k, key);
    assert [s[k]][1..] == [];
    assert ExtensionsFor([s[k]], key) == [];
    assert ExtensionsFor(s[..k], key) + [] == ExtensionsFor(s[..k], key);
  }

  /** With unique pairings, the disposed extension is no longer enumerated for its name. */
  lemma RemovedExtensionGone(s: seq<Registered<Binding>>, k: nat)
    requires IdsUnique(s) && BindingsUnique(s) && k < |s|
    ensures s[k].value.extension !in ExtensionsFor(RemoveId(s, s[k].id), s[k].value.widgetName)
  {
    var r := RemoveId(s, s[k].id);
    RemoveIdAt(s, k);
    if Bound(r, s[k].value) {
      var i :| 0 <= i < |r| && r[i].value == s[k].value;
      CutAt(s, k, i);
      assert false;
    }
  }
}
