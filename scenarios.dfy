/**
 * The registry's documented behaviour, one method per scenario: each
 * starts from a fresh registry, performs the registrations, disposals
 * and queries of the scenario, and returns what the queries answer.
 * Each scenario reads the id counter before its registrations and
 * states the handles' ids relative to it.
 */
module Scenarios {
  import opened Wrappers
  import opened Names
  import opened Records
  import opened Index
  import opened Collation
  import opened Resolution
  import opened Extensions
  import opened DocumentRegistry
  import opened Fixtures

  /** A fresh registry is not disposed; after disposal it is. */
  method DisposedFlag() returns (before: bool, after: bool)
    ensures !before && after
  {
    AnyOrderIsTotalPreorder();
    var registry := new Registry(AnyOrder);
    before := registry.isDisposed;
    registry.Dispose();
    after := registry.isDisposed;
  }

  /** Disposal releases what was registered. */
  method DisposeReleases() returns (disposed: bool, fileTypes: seq<FileType>)
    ensures disposed && fileTypes == []
  {
    AnyOrderIsTotalPreorder();
    var registry := new Registry(AnyOrder);
    var _ := registry.AddFileType(Notebook);
    registry.Dispose();
    disposed := registry.isDisposed;
    fileTypes := registry.FileTypes();
  }

  /** Disposing twice is harmless. */
  method DisposeTwice() returns (disposed: bool)
    ensures disposed
  {
    AnyOrderIsTotalPreorder();
    var registry := new Registry(AnyOrder);
    registry.Dispose();
    registry.Dispose();
    disposed := registry.isDisposed;
  }

  /** A registered widget factory is found by its name in any case. */
  method AddedWidgetFactoryFound() returns (lower: Option<WidgetFactory>, upper: Option<WidgetFactory>)
    ensures lower == Some(TestWidgetFactory) && upper == Some(TestWidgetFactory)
  {
    AnyOrderIsTotalPreorder();
    var registry := new Registry(AnyOrder);
    var _ := registry.AddWidgetFactory(TestWidgetFactory);
    lower := registry.GetWidgetFactory("test");
    FoldAlike("test", "TEST");
    LookupIgnoresCase(registry.widgetFactories, FactoryName, "test", "TEST");
    upper := registry.GetWidgetFactory("TEST");
  }

  /** A factory that is the default for '*' becomes the default for '*'. */
  method GlobalDefault() returns (d: Option<WidgetFactory>)
    ensures d == Some(GlobalWidgetFactory)
  {
    var registry, n := RegisterTextModel();
    var _ := registry.AddWidgetFactory(GlobalWidgetFactory);
    assert registry.widgetFactories == [Registered(n + 1, GlobalWidgetFactory)];
    assert HasModel(registry.modelFactories, "text");
    VisibleWhenModelled(registry.widgetFactories, registry.modelFactories);
    assert registry.VisibleFactories() == [GlobalWidgetFactory];
    GlobalIsWildcardDefault([GlobalWidgetFactory]);
    ExtensionsFolded();
    DefaultIsGlobalDefault([GlobalWidgetFactory], Wildcard);
    d := registry.DefaultWidgetFactory(Some("*"));
  }

  /** Disposing the handle of a widget factory removes it. */
  method WidgetFactoryDisposed() returns (found: Option<WidgetFactory>)
    ensures found == None
  {
    var registry, n := RegisterTextModel();
    var h := registry.AddWidgetFactory(TestWidgetFactory);
    assert h == Registration(WidgetFactoryIndex, n + 1);
    assert registry.widgetFactories == [Registered(n + 1, TestWidgetFactory)];
    RemoveUndoesAppend([], n + 1, TestWidgetFactory);
    registry.DisposeRegistration(h);
    assert registry.widgetFactories == [];
    found := registry.GetWidgetFactory("test");
  }

  /**
   * Registering a model factory under a name already taken does nothing:
   * its handle is inert, and disposing it keeps the first registration.
   */
  method DuplicateModelFactoryIgnored() returns (second: Handle, found: Option<ModelFactory>)
    ensures second == Inert && found == Some(TextModelFactory)
  {
    AnyOrderIsTotalPreorder();
    var registry := new Registry(AnyOrder);
    var e := Registered(registry.nextId, TextModelFactory);
    var _ := registry.AddModelFactory(TextModelFactory);
    assert registry.modelFactories == [e];
    assert registry.GetModelFactory(TextModelFactory.name) == Some(TextModelFactory);
    second := registry.AddModelFactory(TextModelFactory);
    assert second == Inert && registry.modelFactories == [e];
    registry.DisposeRegistration(second);
    assert registry.modelFactories == [e];
    found := registry.GetModelFactory("text");
  }

  /** Disposing the handle of a model factory removes it. */
  method ModelFactoryDisposed() returns (found: Option<ModelFactory>)
    ensures found == None
  {
    AnyOrderIsTotalPreorder();
    var registry := new Registry(AnyOrder);
    var n := registry.nextId;
    var h := registry.AddModelFactory(TextModelFactory);
    assert h == Registration(ModelFactoryIndex, n);
    assert registry.modelFactories == [Registered(n, TextModelFactory)];
    RemoveUndoesAppend([], n, TextModelFactory);
    registry.DisposeRegistration(h);
    assert registry.modelFactories == [];
    found := registry.GetModelFactory("text");
  }

  /** An extension registered for a factory name is enumerated for it. */
  method ExtensionAdded() returns (found: seq<WidgetExtension>)
    ensures found == [Foo]
  {
    AnyOrderIsTotalPreorder();
    var registry := new Registry(AnyOrder);
    var _ := registry.AddWidgetExtension("foo", Foo);
    ExtensionsAfterAdd([], registry.nextId - 1, BindingFor("foo", Foo), Lowercase("foo"));
    found := registry.WidgetExtensions("foo");
  }

  /** Registering the same pairing twice does nothing, and disposing the second handle keeps the first. */
  method DuplicateExtensionIgnored() returns (second: Handle, found: seq<WidgetExtension>)
    ensures second == Inert && found == [Foo]
  {
    AnyOrderIsTotalPreorder();
    var registry := new Registry(AnyOrder);
    var n := registry.nextId;
    var e := Registered(n, BindingFor("foo", Foo));
    ExtensionsAfterAdd([], n, e.value, Lowercase("foo"));
    var _ := registry.AddWidgetExtension("foo", Foo);
    assert registry.extensions == [e];
    assert Bound(registry.extensions, e.value);
    second := registry.AddWidgetExtension("foo", Foo);
    assert second == Inert && registry.extensions == [e];
    registry.DisposeRegistration(second);
    assert registry.extensions == [e];
    found := registry.WidgetExtensions("foo");
  }

  /** Disposing the handle of an extension removes it. */
  method ExtensionDisposed() returns (found: seq<WidgetExtension>)
    ensures found == []
  {
    AnyOrderIsTotalPreorder();
    var registry := new Registry(AnyOrder);
    var n := registry.nextId;
    var h := registry.AddWidgetExtension("foo", Foo);
    assert h == Registration(ExtensionIndex, n);
    assert registry.extensions == [Registered(n, BindingFor("foo", Foo))];
    RemoveUndoesAppend([], n, BindingFor("foo", Foo));
    registry.DisposeRegistration(h);
    assert registry.extensions == [];
    found := registry.WidgetExtensions("foo");
  }

  /** A registered file type is enumerated. */
  method FileTypeAdded() returns (fileTypes: seq<FileType>)
    ensures fileTypes == [Notebook]
  {
    AnyOrderIsTotalPreorder();
    var registry := new Registry(AnyOrder);
    var _ := registry.AddFileType(Notebook);
    fileTypes := registry.FileTypes();
  }

  /** Disposing the handle of a file type removes it. */
  method FileTypeDisposed() returns (fileTypes: seq<FileType>)
    ensures fileTypes == []
  {
    AnyOrderIsTotalPreorder();
    var registry := new Registry(AnyOrder);
    var n := registry.nextId;
    var h := registry.AddFileType(Notebook);
    assert h == Registration(FileTypeIndex, n);
    assert registry.fileTypes == [Registered(n, Notebook)];
    RemoveUndoesAppend([], n, Notebook);
    registry.DisposeRegistration(h);
    assert registry.fileTypes == [];
    fileTypes := registry.FileTypes();
  }

  /** A file type registered under a name already taken is ignored; disposing its handle keeps the first. */
  method DuplicateFileTypeIgnored() returns (second: Handle, fileTypes: seq<FileType>)
    ensures second == Inert && fileTypes == [Notebook]
  {
    AnyOrderIsTotalPreorder();
    var registry := new Registry(AnyOrder);
    var e := Registered(registry.nextId, Notebook);
    LookupFindsFirst([e], FileTypeName, 0, Notebook.name);
    assert Values([e]) == [Notebook];
    var _ := registry.AddFileType(Notebook);
    assert registry.fileTypes == [e];
    second := registry.AddFileType(Notebook);
    assert second == Inert && registry.fileTypes == [e];
    registry.DisposeRegistration(second);
    assert registry.fileTypes == [e];
    fileTypes := registry.FileTypes();
  }

  /** A registered creator is enumerated. */
  method CreatorAdded() returns (creators: seq<Creator>)
    ensures creators == [NotebookCreator]
  {
    AnyOrderIsTotalPreorder();
    var registry := new Registry(AnyOrder);
    var _ := registry.AddCreator(NotebookCreator);
    creators := registry.Creators();
  }

  /** Disposing the handle of a creator removes it. */
  method CreatorDisposed() returns (creators: seq<Creator>)
    ensures creators == []
  {
    AnyOrderIsTotalPreorder();
    var registry := new Registry(AnyOrder);
    var n := registry.nextId;
    assert InsertByName([], Registered(n, NotebookCreator), AnyOrder) == [Registered(n, NotebookCreator)];
    RemoveUndoesAppend([], n, NotebookCreator);
    var h := registry.AddCreator(NotebookCreator);
    assert h == Registration(CreatorIndex, n);
    assert registry.creators == [Registered(n, NotebookCreator)];
    registry.DisposeRegistration(h);
    assert registry.creators == [];
    creators := registry.Creators();
  }

  /** A creator registered under a name already taken is ignored; disposing its handle keeps the first. */
  method DuplicateCreatorIgnored() returns (second: Handle, creators: seq<Creator>)
    ensures second == Inert && creators == [NotebookCreator]
  {
    AnyOrderIsTotalPreorder();
    var registry := new Registry(AnyOrder);
    var e := Registered(registry.nextId, NotebookCreator);
    assert InsertByName([], e, AnyOrder) == [e];
    assert Values([e]) == [NotebookCreator];
    var _ := registry.AddCreator(NotebookCreator);
    assert registry.creators == [e];
    assert registry.GetCreator(NotebookCreator.name) == Some(NotebookCreator);
    second := registry.AddCreator(NotebookCreator);
    assert second == Inert && registry.creators == [e];
    registry.DisposeRegistration(second);
    assert registry.creators == [e];
    creators := registry.Creators();
  }

  /**
   * Registers the Python, R and C# creators, in that order, into a fresh
   * registry; they end up in the collation's order.
   */
  method RegisterThreeCreators(collation: (string, string) -> bool) returns (registry: Registry)
    requires IsTotalPreorder(collation) && LocaleLike(collation)
    ensures fresh(registry)
    ensures Values(registry.creators) == [CSharpCreator, PythonCreator, RCreator]
  {
    var n;
    registry, n := RegisterPythonAndR(collation);
    LocaleInsertions(collation, n);
    var _ := registry.AddCreator(CSharpCreator);
  }

  /** The first two registrations of `RegisterThreeCreators`. */
  method RegisterPythonAndR(collation: (string, string) -> bool) returns (registry: Registry, n: nat)
    requires IsTotalPreorder(collation) && LocaleLike(collation)
    ensures fresh(registry) && registry.Valid() && !registry.isDisposed && registry.collation == collation
    ensures registry.creators == [Registered(n, PythonCreator), Registered(n + 1, RCreator)]
    ensures registry.nextId == n + 2
  {
    registry := new Registry(collation);
    n := registry.nextId;
    LocaleInsertions(collation, n);
    assert registry.creators == [] && registry.GetCreator(PythonCreator.name).None?;
    var _ := registry.AddCreator(PythonCreator);
    assert registry.creators == [Registered(n, PythonCreator)] && registry.nextId == n + 1;
    var _ := registry.AddCreator(RCreator);
  }

  /**
   * Creators are enumerated in the collation's order, whatever order they
   * were registered in, under any collation that orders the three names
   * as a locale does.
   */
  method CreatorsInLocaleOrder(collation: (string, string) -> bool) returns (creators: seq<Creator>)
    requires IsTotalPreorder(collation) && LocaleLike(collation)
    ensures creators == [CSharpCreator, PythonCreator, RCreator]
  {
    var registry := RegisterThreeCreators(collation);
    creators := registry.Creators();
  }

  /**
   * An empty registry prefers nothing; with the text model registered, a
   * '.txt' file prefers the factory that names '.txt' ahead of the
   * catch-all one.
   */
  method PreferredValid() returns (empty: seq<WidgetFactory>, txt: seq<WidgetFactory>)
    ensures empty == [] && txt == [TestWidgetFactory, GlobalWidgetFactory]
  {
    AnyOrderIsTotalPreorder();
    empty := PreferredOfEmpty();
    LengthsDiffer(TestWidgetFactory.name, GlobalWidgetFactory.name);
    var registry := RegisterFactories([TestWidgetFactory, GlobalWidgetFactory]);
    ExtensionsFolded();
    PreferredForTextOfTwo();
    txt := registry.PreferredWidgetFactories(Some(".txt"));
  }

  /** An empty registry prefers nothing. */
  method PreferredOfEmpty() returns (preferred: seq<WidgetFactory>)
    ensures preferred == []
  {
    AnyOrderIsTotalPreorder();
    var registry := new Registry(AnyOrder);
    preferred := registry.PreferredWidgetFactories(None);
  }

  /**
   * A factory whose model factory is not registered is not preferred for
   * anything: neither for a query without an extension nor for '.txt',
   * the extension it lists.
   */
  method PreferredNeedsModel() returns (preferred: seq<WidgetFactory>, txt: seq<WidgetFactory>)
    ensures preferred == [] && txt == []
  {
    AnyOrderIsTotalPreorder();
    var registry := new Registry(AnyOrder);
    var _ := registry.AddWidgetFactory(TestWidgetFactory);
    assert registry.modelFactories == [];
    var visible := registry.VisibleFactories();
    assert visible == [];
    preferred := registry.PreferredWidgetFactories(None);
    txt := registry.PreferredWidgetFactories(Some(".txt"));
  }

  /** Registers the text model factory into a fresh registry. */
  method RegisterTextModel() returns (registry: Registry, n: nat)
    ensures fresh(registry) && registry.Valid() && !registry.isDisposed
    ensures registry.modelFactories == [Registered(n, TextModelFactory)]
    ensures registry.widgetFactories == [] && registry.nextId == n + 1
  {
    AnyOrderIsTotalPreorder();
    registry := new Registry(AnyOrder);
    n := registry.nextId;
    var _ := registry.AddModelFactory(TextModelFactory);
  }

  /** Registers the text model and then the given factories, in order, into a fresh registry. */
  method RegisterFactories(factories: seq<WidgetFactory>) returns (registry: Registry)
    requires forall i | 0 <= i < |factories| :: factories[i].modelName == "text"
    requires forall i, j | 0 <= i < j < |factories| :: !SameName(factories[i].name, factories[j].name)
    ensures fresh(registry)
    ensures Values(registry.widgetFactories) == factories && registry.VisibleFactories() == factories
  {
    var n;
    registry, n := RegisterTextModel();
    var models := registry.modelFactories;
    var k := 0;
    while k < |factories|
      invariant k <= |factories| && registry.Valid() && !registry.isDisposed
      invariant Values(registry.widgetFactories) == factories[..k]
      invariant registry.modelFactories == models
      modifies registry
    {
      assert forall i | 0 <= i < |registry.widgetFactories| :: registry.widgetFactories[i].value == factories[i];
      var _ := registry.AddWidgetFactory(factories[k]);
      assert factories[..k + 1] == factories[..k] + [factories[k]];
      k := k + 1;
    }
    assert factories[..k] == factories;
    assert HasModel(registry.modelFactories, "text");
    VisibleWhenModelled(registry.widgetFactories, registry.modelFactories);
  }

  /** Each extension prefers the factory that names it. */
  method PreferredByExtension() returns (txt: seq<WidgetFactory>, md: seq<WidgetFactory>)
    ensures txt == [TestWidgetFactory] && md == [MarkdownWidgetFactory]
  {
    LengthsDiffer(TestWidgetFactory.name, MarkdownWidgetFactory.name);
    var registry := RegisterFactories([TestWidgetFactory, MarkdownWidgetFactory]);
    ExtensionsFolded();
    PreferredWithoutGlobal();
    txt := registry.PreferredWidgetFactories(Some(".txt"));
    md := registry.PreferredWidgetFactories(Some(".md"));
  }

  /** Specific factories come first, the catch-all next, and factories for other extensions not at all. */
  method PreferredPriority() returns (txt: seq<WidgetFactory>)
    ensures txt == [TestWidgetFactory, GlobalWidgetFactory]
  {
    LengthsDiffer(TestWidgetFactory.name, GlobalWidgetFactory.name);
    LengthsDiffer(TestWidgetFactory.name, MarkdownWidgetFactory.name);
    LengthsDiffer(GlobalWidgetFactory.name, MarkdownWidgetFactory.name);
    var registry := RegisterFactories([TestWidgetFactory, GlobalWidgetFactory, MarkdownWidgetFactory]);
    ExtensionsFolded();
    PreferredForTextOfThree();
    txt := registry.PreferredWidgetFactories(Some(".txt"));
  }

  /** The default for an extension is its specific factory; with no extension it is the global default. */
  method Defaults() returns (txt: Option<WidgetFactory>, md: Option<WidgetFactory>, none: Option<WidgetFactory>)
    ensures txt == Some(TestWidgetFactory)
    ensures md == Some(MarkdownWidgetFactory)
    ensures none == Some(GlobalWidgetFactory)
  {
    LengthsDiffer(TestWidgetFactory.name, GlobalWidgetFactory.name);
    LengthsDiffer(TestWidgetFactory.name, MarkdownWidgetFactory.name);
    LengthsDiffer(GlobalWidgetFactory.name, MarkdownWidgetFactory.name);
    var registry := RegisterFactories([TestWidgetFactory, GlobalWidgetFactory, MarkdownWidgetFactory]);
    ExtensionsFolded();
    PreferredForTextOfThree();
    PreferredForMarkdown();
    PreferredForAny();
    txt := registry.DefaultWidgetFactory(Some(".txt"));
    md := registry.DefaultWidgetFactory(Some(".md"));
    none := registry.DefaultWidgetFactory(None);
  }

  /** Registers the given file types, in order, into a fresh registry. */
  method RegisterFileTypes(types: seq<FileType>) returns (registry: Registry)
    requires forall i, j | 0 <= i < j < |types| :: !SameName(types[i].name, types[j].name)
    ensures fresh(registry)
    ensures Values(registry.fileTypes) == types
  {
    AnyOrderIsTotalPreorder();
    registry := new Registry(AnyOrder);
    var k := 0;
    while k < |types|
      invariant k <= |types| && registry.Valid() && !registry.isDisposed
      invariant Values(registry.fileTypes) == types[..k]
      modifies registry
    {
      assert forall i | 0 <= i < |registry.fileTypes| :: registry.fileTypes[i].value == types[i];
      var _ := registry.AddFileType(types[k]);
      assert types[..k + 1] == types[..k] + [types[k]];
      k := k + 1;
    }
    assert types[..k] == types;
  }

  /** When the index holds only creators from `creators[..k]`, whose names are pairwise distinct, the name of `creators[k]` is free. */
  lemma NameFreeAmongFirst(s: seq<Registered<Creator>>, creators: seq<Creator>, k: nat)
    requires k < |creators|
    requires forall i, j | 0 <= i < j < |creators| :: !SameName(creators[i].name, creators[j].name)
    requires forall i | 0 <= i < |s| :: s[i].value in creators[..k]
    ensures Lookup(s, CreatorName, creators[k].name).None?
  {
  }

  /** Inserting `creators[k]` into an index holding exactly the creators of `creators[..k]` gives one holding exactly those of `creators[..k + 1]`. */
  lemma MembersAfterInsert(s: seq<Registered<Creator>>, x: Registered<Creator>, leq: (string, string) -> bool, creators: seq<Creator>, k: nat)
    requires k < |creators| && x.value == creators[k]
    requires forall i | 0 <= i < |s| :: s[i].value in creators[..k]
    requires forall j | 0 <= j < k :: exists i | 0 <= i < |s| :: s[i].value == creators[j]
    ensures forall i | 0 <= i < |InsertByName(s, x, leq)| :: InsertByName(s, x, leq)[i].value in creators[..k + 1]
    ensures forall j | 0 <= j < k + 1 :: exists i | 0 <= i < |InsertByName(s, x, leq)| :: InsertByName(s, x, leq)[i].value == creators[j]
  {
    var r := InsertByName(s, x, leq);
    forall i | 0 <= i < |r| ensures r[i].value in creators[..k + 1] {
      assert r[i] in r;
      if r[i] != x {
        var i' :| 0 <= i' < |s| && s[i'] == r[i];
        assert s[i'].value in creators[..k];
      }
    }
    forall j | 0 <= j < k + 1 ensures exists i | 0 <= i < |r| :: r[i].value == creators[j] {
      if j == k {
        assert x in r;
      } else {
        var i :| 0 <= i < |s| && s[i].value == creators[j];
        assert s[i] in r;
      }
    }
  }

  /**
   * Registers the given creators, in order, into a fresh registry with the
   * given collation: each of them ends up registered, and nothing else.
   */
  method RegisterCreators(collation: (string, string) -> bool, creators: seq<Creator>) returns (registry: Registry)
    requires IsTotalPreorder(collation)
    requires forall i, j | 0 <= i < j < |creators| :: !SameName(creators[i].name, creators[j].name)
    ensures fresh(registry) && registry.Valid()
    ensures forall i | 0 <= i < |registry.creators| :: registry.creators[i].value in creators
    ensures forall j | 0 <= j < |creators| :: exists i | 0 <= i < |registry.creators| :: registry.creators[i].value == creators[j]
  {
    registry := new Registry(collation);
    var k := 0;
    while k < |creators|
      invariant k <= |creators| && registry.Valid() && !registry.isDisposed
      invariant registry.collation == collation
      invariant forall i | 0 <= i < |registry.creators| :: registry.creators[i].value in creators[..k]
      invariant forall j | 0 <= j < k :: exists i | 0 <= i < |registry.creators| :: registry.creators[i].value == creators[j]
      modifies registry
    {
      var before := registry.creators;
      var x := Registered(registry.nextId, creators[k]);
      NameFreeAmongFirst(before, creators, k);
      MembersAfterInsert(before, x, collation, creators, k);
      var _ := registry.AddCreator(creators[k]);
      assert registry.creators == InsertByName(before, x, collation);
      k := k + 1;
    }
    assert k == |creators| && creators[..k] == creators;
    forall j | 0 <= j < |creators| ensures exists i | 0 <= i < |registry.creators| :: registry.creators[i].value == creators[j] {
      assert j < k;
    }
  }

  /** Registers two extensions for the factory 'fizz' and the first of them for 'buzz'. */
  method RegisterFizzBuzz() returns (registry: Registry, n: nat)
    ensures fresh(registry)
    ensures registry.extensions == FizzBuzz(n)
  {
    AnyOrderIsTotalPreorder();
    registry := new Registry(AnyOrder);
    n := registry.nextId;
    var b0, b1, b2 := BindingFor("fizz", Foo), BindingFor("fizz", Bar), BindingFor("buzz", Foo);
    CharsDiffer("fizz", "buzz", 0);
    var _ := registry.AddWidgetExtension("fizz", Foo);
    assert registry.extensions == [Registered(n, b0)];
    assert !Bound(registry.extensions, b1);
    var _ := registry.AddWidgetExtension("fizz", Bar);
    assert registry.extensions == [Registered(n, b0), Registered(n + 1, b1)];
    assert !Bound(registry.extensions, b2);
    var _ := registry.AddWidgetExtension("buzz", Foo);
  }

  /** File types are enumerated in registration order. */
  method FileTypesInOrder() returns (empty: seq<FileType>, fileTypes: seq<FileType>)
    ensures empty == [] && fileTypes == [Notebook, PythonFile]
  {
    AnyOrderIsTotalPreorder();
    var initial := new Registry(AnyOrder);
    empty := initial.FileTypes();
    LengthsDiffer(Notebook.name, PythonFile.name);
    var registry := RegisterFileTypes([Notebook, PythonFile]);
    fileTypes := registry.FileTypes();
  }

  /** All three creators are enumerated, the one that sorts first at the head. */
  method CreatorsEnumerated(collation: (string, string) -> bool) returns (empty: seq<Creator>, creators: seq<Creator>)
    requires IsTotalPreorder(collation) && LocaleLike(collation)
    ensures empty == [] && |creators| == 3 && creators[0].name == "CSharp Notebook"
  {
    var initial := new Registry(collation);
    empty := initial.Creators();
    var registry := RegisterThreeCreators(collation);
    creators := registry.Creators();
  }

  /** File types are found by name; an unknown name finds nothing. */
  method FileTypesByName() returns (notebook: Option<FileType>, python: Option<FileType>, r: Option<FileType>)
    ensures notebook == Some(Notebook) && python == Some(PythonFile) && r == None
  {
    LengthsDiffer(Notebook.name, PythonFile.name);
    var registry := RegisterFileTypes([Notebook, PythonFile]);
    LookupFindsFirst(registry.fileTypes, FileTypeName, 0, "notebook");
    notebook := registry.GetFileType("notebook");
    LookupFindsFirst(registry.fileTypes, FileTypeName, 1, "python");
    python := registry.GetFileType("python");
    LengthsDiffer(Notebook.name, "r");
    LengthsDiffer(PythonFile.name, "r");
    r := registry.GetFileType("r");
  }

  /** Creators are found by name in any case, under any collation; an unknown name finds nothing. */
  method CreatorsByName(collation: (string, string) -> bool) returns (a: Option<Creator>, b: Option<Creator>, c: Option<Creator>, d: Option<Creator>)
    requires IsTotalPreorder(collation)
    ensures a == Some(PythonCreator) && b == Some(RCreator) && c == Some(ShellCreator) && d == None
  {
    LengthsDiffer(PythonCreator.name, RCreator.name);
    LengthsDiffer(PythonCreator.name, ShellCreator.name);
    LengthsDiffer(RCreator.name, ShellCreator.name);
    var three := [PythonCreator, RCreator, ShellCreator];
    var registry := RegisterCreators(collation, three);
    assert three[0] == PythonCreator && three[1] == RCreator && three[2] == ShellCreator;
    ghost var s := registry.creators;
    assert NamesUnique(s, CreatorName);
    ghost var p :| 0 <= p < |s| && s[p].value == three[0];
    ghost var r :| 0 <= r < |s| && s[r].value == three[1];
    ghost var q :| 0 <= q < |s| && s[q].value == three[2];
    CreatorKeys();
    LookupFindsUnique(s, CreatorName, p, "Python Notebook");
    LookupFindsUnique(s, CreatorName, r, "r notebook");
    LookupFindsUnique(s, CreatorName, q, "shell Notebook");
    NoCreatorFoo(s);
    a := registry.GetCreator("Python Notebook");
    b := registry.GetCreator("r notebook");
    c := registry.GetCreator("shell Notebook");
    d := registry.GetCreator("foo");
  }

  /** A factory's kernel preference carries its flags; an unknown factory has none. */
  method KernelPreferences() returns (python: Option<KernelPreference>, baz: Option<KernelPreference>)
    ensures python == Some(KernelPreference(true, true)) && baz == None
  {
    LengthsDiffer(TestWidgetFactory.name, PythonWidgetFactory.name);
    var registry := RegisterFactories([TestWidgetFactory, PythonWidgetFactory]);
    LookupFindsFirst(registry.widgetFactories, FactoryName, 1, "python");
    python := registry.GetKernelPreference(".py", "python");
    LengthsDiffer(TestWidgetFactory.name, "baz");
    LengthsDiffer(PythonWidgetFactory.name, "baz");
    baz := registry.GetKernelPreference(".py", "baz");
  }

  /** A registered model factory is found by its name. */
  method ModelFactoryByName() returns (found: Option<ModelFactory>)
    ensures found == Some(TextModelFactory)
  {
    AnyOrderIsTotalPreorder();
    var registry := new Registry(AnyOrder);
    var _ := registry.AddModelFactory(TextModelFactory);
    found := registry.GetModelFactory("text");
  }

  /** Widget factories are found by name in any case; an unknown name finds nothing. */
  method WidgetFactoriesByName()
    returns (test: Option<WidgetFactory>, capital: Option<WidgetFactory>, md: Option<WidgetFactory>, baz: Option<WidgetFactory>)
    ensures test == Some(TestWidgetFactory) && capital == Some(TestWidgetFactory)
    ensures md == Some(MarkdownWidgetFactory) && baz == None
  {
    LengthsDiffer(TestWidgetFactory.name, MarkdownWidgetFactory.name);
    var registry := RegisterFactories([TestWidgetFactory, MarkdownWidgetFactory]);
    FactoriesFoundByName(registry.widgetFactories);
    test := registry.GetWidgetFactory("test");
    capital := registry.GetWidgetFactory("Test");
    md := registry.GetWidgetFactory("markdown");
    baz := registry.GetWidgetFactory("baz");
  }

  /** Extensions are enumerated per factory name in registration order; an unknown name has none. */
  method ExtensionsPerWidget() returns (fizz: seq<WidgetExtension>, buzz: seq<WidgetExtension>, baz: seq<WidgetExtension>)
    ensures fizz == [Foo, Bar] && buzz == [Foo] && baz == []
  {
    var registry, n := RegisterFizzBuzz();
    FizzBuzzExtensions(n);
    fizz := registry.WidgetExtensions("fizz");
    buzz := registry.WidgetExtensions("buzz");
    baz := registry.WidgetExtensions("baz");
  }
}
