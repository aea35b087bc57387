/**
 * The resolution queries: which widget factories can open a file with a
 * given extension, in which order of preference, which one is the
 * default, and what kernel preference a named factory declares. All of
 * them are pure reads of the current indexes.
 */
module Resolution {
  import opened Wrappers
  import opened Names
  import opened Sequences
  import opened Index
  import opened Records

  /** The extension a factory lists to open every file. */
  const Wildcard: string := "*"

  /** A list of extensions, case folded. */
  function Normalized(exts: seq<string>): (r: seq<string>)
    ensures |r| == |exts|
    ensures forall i | 0 <= i < |exts| :: r[i] == Lowercase(exts[i])
  {
    seq(|exts|, i requires 0 <= i < |exts| => Lowercase(exts[i]))
  }

  /** The extension a query is about: an omitted extension stands for the wildcard. */
  function NormalizeExtension(ext: Option<string>): (r: string)
    ensures ext.None? ==> r == Wildcard
    ensures ext.Some? ==> SameName(r, ext.value) && Lowercase(r) == r
  {
    match ext
    case None => Wildcard
    case Some(e) => LowercaseIdempotent(e); Lowercase(e)
  }

  /** `f` declares that it opens files with the (folded) extension `ext`. */
  predicate Lists(f: WidgetFactory, ext: string) {
    ext in Normalized(f.fileExtensions)
  }

  /** `f` asks to be the default for `ext`, which must be one of its own extensions. */
  predicate IsDefaultFor(f: WidgetFactory, ext: string) {
    ext in Normalized(f.defaultFor) && Lists(f, ext)
  }

  /** A model factory of that name (ignoring case) is registered. */
  predicate HasModel(models: seq<Registered<ModelFactory>>, name: string) {
    Lookup(models, ModelName, name).Some?
  }

  function ModelRegistered(models: seq<Registered<ModelFactory>>): WidgetFactory -> bool {
    (f: WidgetFactory) => HasModel(models, f.modelName)
  }

  /**
   * The factories resolution can see: those whose model factory is
   * registered, in registration order.
   */
  function Visible(factories: seq<Registered<WidgetFactory>>, models: seq<Registered<ModelFactory>>)
    : (r: seq<WidgetFactory>)
    ensures forall f :: f in r <==> f in Values(factories) && HasModel(models, f.modelName)
  {
    Filter(Values(factories), ModelRegistered(models))
  }

  function ListsSpecifically(ext: string): WidgetFactory -> bool {
    (f: WidgetFactory) => ext != Wildcard && Lists(f, ext)
  }

  function ListsOnlyWildcard(ext: string): WidgetFactory -> bool {
    (f: WidgetFactory) => Lists(f, Wildcard) && !(ext != Wildcard && Lists(f, ext))
  }

  /** When every factory's model factory is registered, every factory is visible, in registration order. */
  lemma VisibleWhenModelled(factories: seq<Registered<WidgetFactory>>, models: seq<Registered<ModelFactory>>)
    requires forall i | 0 <= i < |factories| :: HasModel(models, factories[i].value.modelName)
    ensures Visible(factories, models) == Values(factories)
  {
    FilterKeepsAll(Values(factories), ModelRegistered(models));
  }

  /** The factories in `visible` that name `ext` itself, in registration order. */
  function Specific(visible: seq<WidgetFactory>, ext: string): (r: seq<WidgetFactory>)
    ensures forall f :: f in r <==> f in visible && ext != Wildcard && Lists(f, ext)
  {
    Filter(visible, ListsSpecifically(ext))
  }

  /** The remaining factories in `visible` that open any file, in registration order. */
  function CatchAll(visible: seq<WidgetFactory>, ext: string): (r: seq<WidgetFactory>)
    ensures forall f :: f in r <==> f in visible && Lists(f, Wildcard) && !(ext != Wildcard && Lists(f, ext))
  {
    Filter(visible, ListsOnlyWildcard(ext))
  }

  /** The position of the last factory in `visible` that is the default for `ext`, or -1. */
  function LastDefaultAt(visible: seq<WidgetFactory>, ext: string): (k: int)
    ensures -1 <= k < |visible|
    ensures k >= 0 ==> IsDefaultFor(visible[k], ext)
    ensures forall j | k < j < |visible| :: !IsDefaultFor(visible[j], ext)
  {
    if visible == [] then -1
    else if IsDefaultFor(visible[|visible| - 1], ext) then |visible| - 1
    else
      var init := visible[..|visible| - 1];
      var k := LastDefaultAt(init, ext);
      assert forall j | k < j < |init| :: init[j] == visible[j];
      k
  }

  /** The most recently registered factory in `visible` that is the default for `ext`. */
  function LastDefault(visible: seq<WidgetFactory>, ext: string): (r: Option<WidgetFactory>)
    ensures r.None? <==> forall i | 0 <= i < |visible| :: !IsDefaultFor(visible[i], ext)
    ensures r.Some? ==> exists i | 0 <= i < |visible| ::
      && visible[i] == r.value && IsDefaultFor(r.value, ext)
      && forall j | i < j < |visible| :: !IsDefaultFor(visible[j], ext)
  {
    var k := LastDefaultAt(visible, ext);
    if k < 0 then None else Some(visible[k])
  }

  function Other(x: WidgetFactory): WidgetFactory -> bool {
    (f: WidgetFactory) => f != x
  }

  /** Moves `d` to the front of `s` when `s` holds it. */
  function Promote(s: seq<WidgetFactory>, d: Option<WidgetFactory>): (r: seq<WidgetFactory>)
    ensures forall f :: f in r <==> f in s
  {
    if d.Some? && d.value in s then [d.value] + Filter(s, Other(d.value)) else s
  }

  /** The factories naming `ext`, the default for `ext` first. */
  function SpecificPart(visible: seq<WidgetFactory>, ext: string): seq<WidgetFactory> {
    Promote(Specific(visible, ext), LastDefault(visible, ext))
  }

  /** The wildcard factories that do not name `ext`, the global default first. */
  function CatchAllPart(visible: seq<WidgetFactory>, ext: string): seq<WidgetFactory> {
    Promote(CatchAll(visible, ext), LastDefault(visible, Wildcard))
  }

  /**
   * The factories that can open a file with extension `ext`, best first:
   * the default for `ext`, then the other factories naming `ext` in
   * registration order, then the global default, then the other wildcard
   * factories in registration order. Only factories that name `ext` or
   * the wildcard appear, each once.
   */
  function Preferred(visible: seq<WidgetFactory>, ext: string): (r: seq<WidgetFactory>)
    ensures forall f :: f in r <==> f in visible && (Lists(f, ext) || Lists(f, Wildcard))
  {
    SpecificPart(visible, ext) + CatchAllPart(visible, ext)
  }

  /**
   * The default factory for `ext`: the most preferred one, if any. It is
   * always a visible factory that lists `ext` or the wildcard, and there is
   * one whenever such a factory exists.
   */
  function Default(visible: seq<WidgetFactory>, ext: string): (d: Option<WidgetFactory>)
    ensures d.None? <==> forall f | f in visible :: !Lists(f, ext) && !Lists(f, Wildcard)
    ensures d.Some? ==> d.value in visible && (Lists(d.value, ext) || Lists(d.value, Wildcard))
  {
    var r := Preferred(visible, ext);
    if r == [] then None else assert r[0] in r; Some(r[0])
  }

  /**
   * The kernel preference of the factory named `name` (ignoring case): its
   * `preferKernel` and `canStartKernel` flags, or `None` when no factory
   * has that name. The factory's model need not be registered.
   */
  function KernelPreferenceFor(factories: seq<Registered<WidgetFactory>>, name: string)
    : (r: Option<KernelPreference>)
    ensures r.None? <==> forall i | 0 <= i < |factories| :: !SameName(factories[i].value.name, name)
    ensures r.Some? ==> exists i | 0 <= i < |factories| ::
      && SameName(factories[i].value.name, name)
      && r.value == KernelPreference(factories[i].value.preferKernel, factories[i].value.canStartKernel)
  {
    match Lookup(factories, FactoryName, name)
    case None => None
    case Some(f) => Some(KernelPreference(f.preferKernel, f.canStartKernel))
  }

  /** Registration under unique names makes the visible factories pairwise different. */
  lemma VisibleDistinct(factories: seq<Registered<WidgetFactory>>, models: seq<Registered<ModelFactory>>)
    requires NamesUnique(factories, FactoryName)
    ensures Distinct(Visible(factories, models))
  {
    NamesUniqueValuesDistinct(factories, FactoryName);
    FilterDistinct(Values(factories), ModelRegistered(models));
  }

  lemma PromoteDistinct(s: seq<WidgetFactory>, d: Option<WidgetFactory>)
    requires Distinct(s)
    ensures Distinct(Promote(s, d))
  {
    if d.Some? && d.value in s {
      FilterDistinct(s, Other(d.value));
      DistinctAppend([d.value], Filter(s, Other(d.value)));
    }
  }

  /** No factory is offered twice. */
  lemma PreferredDistinct(visible: seq<WidgetFactory>, ext: string)
    requires Distinct(visible)
    ensures Distinct(Preferred(visible, ext))
  {
    var a := SpecificPart(visible, ext);
    var b := CatchAllPart(visible, ext);
    FilterDistinct(visible, ListsSpecifically(ext));
    FilterDistinct(visible, ListsOnlyWildcard(ext));
    PromoteDistinct(Specific(visible, ext), LastDefault(visible, ext));
    PromoteDistinct(CatchAll(visible, ext), LastDefault(visible, Wildcard));
    DistinctAppend(a, b);
  }

  /**
   * Specific matches beat the wildcard: once a factory that does not name
   * `ext` has been offered, no factory naming `ext` follows.
   */
  lemma PreferredSpecificFirst(visible: seq<WidgetFactory>, ext: string, i: nat, j: nat)
    requires ext != Wildcard
    requires i < j < |Preferred(visible, ext)|
    requires Lists(Preferred(visible, ext)[j], ext)
    ensures Lists(Preferred(visible, ext)[i], ext)
  {
    var r := Preferred(visible, ext);
    var a := SpecificPart(visible, ext);
    var b := CatchAllPart(visible, ext);
    assert j < |a|;
    assert r[i] == a[i];
  }

  /** Promoting within a single factory leaves it alone, whatever the default. */
  lemma PromoteSingle(x: WidgetFactory, d: Option<WidgetFactory>)
    ensures Promote([x], d) == [x]
  {
    if d.Some? && d.value in [x] {
      FilterOne(x, Other(x));
    }
  }

  /** Apart from the promoted default, a promoted sequence keeps the original order. */
  lemma PromoteBefore(s: seq<WidgetFactory>, d: Option<WidgetFactory>, x: WidgetFactory, y: WidgetFactory)
    requires Before(Promote(s, d), x, y) && Some(x) != d
    ensures Before(s, x, y)
  {
    if d.Some? && d.value in s {
      var rest := Filter(s, Other(d.value));
      assert Promote(s, d) == [d.value] + rest;
      BeforeInSecond([d.value], rest, x, y);
      FilterBefore(s, Other(d.value), x, y);
    }
  }

  /** The offered factories naming `ext` form a prefix; the wildcard ones follow it. */
  lemma PreferredSplit(visible: seq<WidgetFactory>, ext: string)
    ensures forall f | f in SpecificPart(visible, ext) :: ext != Wildcard && Lists(f, ext)
    ensures forall f | f in CatchAllPart(visible, ext) :: !(ext != Wildcard && Lists(f, ext))
  {
  }

  /** Behind its promoted default, the group naming `ext` keeps registration order. */
  lemma SpecificPartOrder(visible: seq<WidgetFactory>, ext: string, x: WidgetFactory, y: WidgetFactory)
    requires Before(SpecificPart(visible, ext), x, y) && Some(x) != LastDefault(visible, ext)
    ensures Before(visible, x, y)
  {
    PromoteBefore(Specific(visible, ext), LastDefault(visible, ext), x, y);
    FilterBefore(visible, ListsSpecifically(ext), x, y);
  }

  /** Behind the promoted global default, the wildcard group keeps registration order. */
  lemma CatchAllPartOrder(visible: seq<WidgetFactory>, ext: string, x: WidgetFactory, y: WidgetFactory)
    requires Before(CatchAllPart(visible, ext), x, y) && Some(x) != LastDefault(visible, Wildcard)
    ensures Before(visible, x, y)
  {
    PromoteBefore(CatchAll(visible, ext), LastDefault(visible, Wildcard), x, y);
    FilterBefore(visible, ListsOnlyWildcard(ext), x, y);
  }

  /**
   * Registration order breaks ties: two offered factories in the same group
   * (both naming `ext`, or both reached through the wildcard) are offered in
   * the order they were registered, unless the earlier-offered one is a
   * promoted default.
   */
  lemma PreferredKeepsRegistrationOrder(visible: seq<WidgetFactory>, ext: string, x: WidgetFactory, y: WidgetFactory)
    requires Before(Preferred(visible, ext), x, y)
    requires Lists(x, ext) == Lists(y, ext)
    requires Some(x) != LastDefault(visible, ext) && Some(x) != LastDefault(visible, Wildcard)
    ensures Before(visible, x, y)
  {
    var a, b := SpecificPart(visible, ext), CatchAllPart(visible, ext);
    PreferredSplit(visible, ext);
    if ext != Wildcard && Lists(y, ext) {
      BeforeInFirst(a, b, x, y);
      SpecificPartOrder(visible, ext, x, y);
    } else {
      BeforeInSecond(a, b, x, y);
      CatchAllPartOrder(visible, ext, x, y);
    }
  }

  /** With a default for `ext` among the visible factories, the most recent one is the default. */
  lemma DefaultIsSpecificDefault(visible: seq<WidgetFactory>, ext: string)
    requires ext != Wildcard && LastDefault(visible, ext).Some?
    ensures Default(visible, ext) == LastDefault(visible, ext)
  {
    var d := LastDefault(visible, ext).value;
    assert d in Specific(visible, ext);
  }

  /** Without a default for `ext`, the first registered factory naming `ext` is the default. */
  lemma DefaultIsFirstSpecific(visible: seq<WidgetFactory>, ext: string, k: nat)
    requires ext != Wildcard && LastDefault(visible, ext).None?
    requires k < |visible| && Lists(visible[k], ext)
    ensures exists i | 0 <= i < |visible| ::
      && Default(visible, ext) == Some(visible[i]) && Lists(visible[i], ext)
      && forall j | 0 <= j < i :: !Lists(visible[j], ext)
  {
    var specific := Specific(visible, ext);
    assert visible[k] in specific;
    var r := Preferred(visible, ext);
    assert r == specific + Promote(CatchAll(visible, ext), LastDefault(visible, Wildcard));
    assert r[0] == specific[0];
    FilterFirst(visible, ListsSpecifically(ext));
  }

  /** When no visible factory names `ext`, only the wildcard factories are offered. */
  lemma OnlyCatchAll(visible: seq<WidgetFactory>, ext: string)
    requires ext == Wildcard || forall i | 0 <= i < |visible| :: !Lists(visible[i], ext)
    ensures Preferred(visible, ext) == Promote(CatchAll(visible, ext), LastDefault(visible, Wildcard))
  {
    FilterKeepsNone(visible, ListsSpecifically(ext));
  }

  /** When no visible factory names `ext`, the most recent global default is the default. */
  lemma DefaultIsGlobalDefault(visible: seq<WidgetFactory>, ext: string)
    requires ext == Wildcard || forall i | 0 <= i < |visible| :: !Lists(visible[i], ext)
    requires LastDefault(visible, Wildcard).Some?
    ensures Default(visible, ext) == LastDefault(visible, Wildcard)
  {
    OnlyCatchAll(visible, ext);
    var d := LastDefault(visible, Wildcard).value;
    assert d in CatchAll(visible, ext);
  }

  /** With neither kind of default, the first registered wildcard factory is the default. */
  lemma DefaultIsFirstWildcard(visible: seq<WidgetFactory>, ext: string, k: nat)
    requires ext == Wildcard || forall i | 0 <= i < |visible| :: !Lists(visible[i], ext)
    requires LastDefault(visible, Wildcard).None?
    requires k < |visible| && Lists(visible[k], Wildcard)
    ensures exists i | 0 <= i < |visible| ::
      && Default(visible, ext) == Some(visible[i]) && Lists(visible[i], Wildcard)
      && forall j | 0 <= j < i :: !Lists(visible[j], Wildcard)
  {
    OnlyCatchAll(visible, ext);
    var catchAll := CatchAll(visible, ext);
    assert visible[k] in catchAll;
    assert Default(visible, ext) == Some(catchAll[0]);
    FilterFirst(visible, ListsOnlyWildcard(ext));
    var i :| 0 <= i < |visible| && visible[i] == catchAll[0] && ListsOnlyWildcard(ext)(visible[i])
      && forall j | 0 <= j < i :: !ListsOnlyWildcard(ext)(visible[j]);
    assert forall j | 0 <= j < i :: !Lists(visible[j], Wildcard);
  }

  /** There is a default exactly when some visible factory names `ext` or the wildcard. */
  lemma DefaultExists(visible: seq<WidgetFactory>, ext: string)
    ensures Default(visible, ext).Some? <==>
      exists i | 0 <= i < |visible| :: Lists(visible[i], ext) || Lists(visible[i], Wildcard)
  {
    var r := Preferred(visible, ext);
    if r != [] {
      assert r[0] in r;
    }
  }

  /**
   * A `defaultFor` entry counts only for an extension the factory also
   * lists: a factory that does not list `ext` is never the default for it,
   * whatever its `defaultFor` says.
   */
  lemma UnlistedDefaultIgnored(visible: seq<WidgetFactory>, ext: string, f: WidgetFactory)
    requires f in visible && !Lists(f, ext)
    ensures !IsDefaultFor(f, ext)
    ensures LastDefault(visible, ext) != Some(f)
  {
  }

  /**
   * A factory whose model factory is not registered is never offered, for
   * any extension, yet it is still found by name.
   */
  lemma UnmodelledFactoryHidden(factories: seq<Registered<WidgetFactory>>, models: seq<Registered<ModelFactory>>, k: nat, ext: string)
    requires NamesUnique(factories, FactoryName)
    requires k < |factories| && !HasModel(models, factories[k].value.modelName)
    ensures factories[k].value !in Preferred(Visible(factories, models), ext)
    ensures Lookup(factories, FactoryName, factories[k].value.name) == Some(factories[k].value)
  {
    LookupFindsUnique(factories, FactoryName, k, factories[k].value.name);
  }

  /** The kernel preference for a registered factory name carries exactly that factory's flags. */
  lemma KernelPreferenceOfRegistered(factories: seq<Registered<WidgetFactory>>, k: nat, name: string)
    requires NamesUnique(factories, FactoryName)
    requires k < |factories| && SameName(factories[k].value.name, name)
    ensures KernelPreferenceFor(factories, name) ==
      Some(KernelPreference(factories[k].value.preferKernel, factories[k].value.canStartKernel))
  {
    LookupFindsUnique(factories, FactoryName, k, name);
  }
}
