/**
 * The records the registry scenarios register (the four widget factories,
 * the text model factory every one of them needs, file types, creators and
 * widget extensions), a collation that relates every pair of names, and
 * what resolution makes of the factories.
 */
module Fixtures {
  import opened Wrappers
  import opened Names
  import opened Sequences
  import opened Records
  import opened Index
  import opened Collation
  import opened Resolution
  import opened Extensions

  /** The factory for plain text: `.txt` files, no default, no kernel. */
  const TestWidgetFactory: WidgetFactory := WidgetFactory("test", [".txt"], [], "text", false, false)

  /** The factory for Markdown: `.md` files. */
  const MarkdownWidgetFactory: WidgetFactory := WidgetFactory("markdown", [".md"], [], "text", false, false)

  /** The factory for Python: `.py` files, prefers a kernel and may start one. */
  const PythonWidgetFactory: WidgetFactory := WidgetFactory("python", [".py"], [], "text", true, true)

  /** The catch-all factory: opens any file and is the default for any file. */
  const GlobalWidgetFactory: WidgetFactory := WidgetFactory("global", ["*"], ["*"], "text", false, false)

  /** The model factory for text documents. */
  const TextModelFactory: ModelFactory := ModelFactory("text")

  /** The file types the scenarios register. */
  const Notebook: FileType := FileType("notebook", ".ipynb")
  const PythonFile: FileType := FileType("python", ".py")

  /** The creators the scenarios register. */
  const NotebookCreator: Creator := Creator("notebook", "notebook")
  const PythonCreator: Creator := Creator("Python Notebook", "notebook")
  const RCreator: Creator := Creator("R Notebook", "notebook")
  const CSharpCreator: Creator := Creator("CSharp Notebook", "notebook")
  const ShellCreator: Creator := Creator("Shell Notebook", "notebook")

  /** Two distinct widget extensions. */
  const Foo: WidgetExtension := WidgetExtension(0)
  const Bar: WidgetExtension := WidgetExtension(1)

  /** `leq` puts `a` strictly before `b`. */
  ghost predicate StrictlyBefore(leq: (string, string) -> bool, a: string, b: string) {
    leq(a, b) && !leq(b, a)
  }

  /** A collation that orders the three creator names as a locale's collator does. */
  ghost predicate LocaleLike(leq: (string, string) -> bool) {
    StrictlyBefore(leq, CSharpCreator.name, PythonCreator.name) && StrictlyBefore(leq, PythonCreator.name, RCreator.name)
  }

  /** The position of a name's first character in the character set; the empty name sorts first. */
  function InitialCode(name: string): int {
    if name == [] then -1 else name[0] as int
  }

  /** A collation that compares names by their first character only. */
  const ByInitial: (string, string) -> bool := (a: string, b: string) => InitialCode(a) <= InitialCode(b)

  /** Comparing first characters is a total preorder that orders the three creator names as a locale does. */
  lemma ByInitialIsLocaleLike()
    ensures IsTotalPreorder(ByInitial) && LocaleLike(ByInitial)
  {
    assert InitialCode(CSharpCreator.name) < InitialCode(PythonCreator.name) < InitialCode(RCreator.name);
  }

  /** The collation for scenarios that do not look at creator order. */
  const AnyOrder: (string, string) -> bool := (a: string, b: string) => true

  lemma AnyOrderIsTotalPreorder()
    ensures IsTotalPreorder(AnyOrder)
  {
  }

  /** Under a collation that puts every name with every other, creators keep registration order. */
  lemma {:induction false} AnyOrderAppends(s: seq<Registered<Creator>>, x: Registered<Creator>)
    ensures InsertByName(s, x, AnyOrder) == s + [x]
  {
    if s != [] {
      AnyOrderAppends(s[1..], x);
      assert s == [s[0]] + s[1..];
    }
  }

  /**
   * Registering the Python, R and CSharp creators in that order under a
   * locale-like collation: each lands in its collated place.
   */
  lemma LocaleInsertions(leq: (string, string) -> bool, n: nat)
    requires LocaleLike(leq)
    ensures InsertByName([], Registered(n, PythonCreator), leq) == [Registered(n, PythonCreator)]
    ensures InsertByName([Registered(n, PythonCreator)], Registered(n + 1, RCreator), leq)
      == [Registered(n, PythonCreator), Registered(n + 1, RCreator)]
    ensures InsertByName([Registered(n, PythonCreator), Registered(n + 1, RCreator)], Registered(n + 2, CSharpCreator), leq)
      == [Registered(n + 2, CSharpCreator), Registered(n, PythonCreator), Registered(n + 1, RCreator)]
    ensures Values([Registered(n + 2, CSharpCreator), Registered(n, PythonCreator), Registered(n + 1, RCreator)])
      == [CSharpCreator, PythonCreator, RCreator]
    ensures Lookup([Registered(n, PythonCreator)], CreatorName, RCreator.name) == None
    ensures Lookup([Registered(n, PythonCreator), Registered(n + 1, RCreator)], CreatorName, CSharpCreator.name) == None
  {
    var p, r := Registered(n, PythonCreator), Registered(n + 1, RCreator);
    LengthsDiffer(PythonCreator.name, RCreator.name);
    CharsDiffer(PythonCreator.name, CSharpCreator.name, 0);
    LengthsDiffer(RCreator.name, CSharpCreator.name);
    assert [p][1..] == [];
    assert InsertByName([p], r, leq) == [p] + InsertByName([], r, leq);
  }

  /** The extensions the scenarios ask about are already in folded form. */
  lemma ExtensionsFolded()
    ensures Lowercase(".txt") == ".txt" && Lowercase(".md") == ".md" && Lowercase(".py") == ".py"
    ensures Lowercase(Wildcard) == Wildcard
  {
    assert Lowercase(".txt") == ".txt";
    assert Lowercase(".md") == ".md";
    assert Lowercase(".py") == ".py";
    assert Lowercase(Wildcard) == Wildcard;
  }

  /** Which extensions each factory names, and which it is the default for. */
  lemma FactoryExtensions()
    ensures Lists(TestWidgetFactory, ".txt") && !Lists(TestWidgetFactory, ".md") && !Lists(TestWidgetFactory, Wildcard)
    ensures Lists(MarkdownWidgetFactory, ".md") && !Lists(MarkdownWidgetFactory, ".txt") && !Lists(MarkdownWidgetFactory, Wildcard)
    ensures Lists(GlobalWidgetFactory, Wildcard) && !Lists(GlobalWidgetFactory, ".txt") && !Lists(GlobalWidgetFactory, ".md")
    ensures IsDefaultFor(GlobalWidgetFactory, Wildcard)
    ensures forall e :: !IsDefaultFor(TestWidgetFactory, e) && !IsDefaultFor(MarkdownWidgetFactory, e)
  {
    ExtensionsFolded();
    assert Normalized([".txt"]) == [".txt"];
    assert Normalized([".md"]) == [".md"];
    assert Normalized([Wildcard]) == [Wildcard];
  }

  /** The global factory is the only default for the wildcard among the visible factories. */
  lemma GlobalIsWildcardDefault(visible: seq<WidgetFactory>)
    requires GlobalWidgetFactory in visible
    requires forall f | f in visible :: f in {TestWidgetFactory, GlobalWidgetFactory, MarkdownWidgetFactory}
    ensures LastDefault(visible, Wildcard) == Some(GlobalWidgetFactory)
    ensures LastDefault(visible, ".txt") == None && LastDefault(visible, ".md") == None
  {
    FactoryExtensions();
    var k :| 0 <= k < |visible| && visible[k] == GlobalWidgetFactory;
    assert IsDefaultFor(visible[k], Wildcard);
    var r := LastDefault(visible, Wildcard);
    var i :| 0 <= i < |visible| && visible[i] == r.value && IsDefaultFor(r.value, Wildcard);
    assert visible[i] in visible;
    forall j | 0 <= j < |visible| ensures !IsDefaultFor(visible[j], ".txt") && !IsDefaultFor(visible[j], ".md") {
      assert visible[j] in visible;
    }
  }

  /** With the text and global factories visible, a '.txt' file prefers the text factory, then the global one. */
  lemma PreferredForTextOfTwo()
    ensures Preferred([TestWidgetFactory, GlobalWidgetFactory], ".txt") == [TestWidgetFactory, GlobalWidgetFactory]
  {
    var t, g := TestWidgetFactory, GlobalWidgetFactory;
    var v := [t, g];
    FactoryExtensions();
    FilterTwo(t, g, ListsSpecifically(".txt"));
    FilterTwo(t, g, ListsOnlyWildcard(".txt"));
    PromoteSingle(t, LastDefault(v, ".txt"));
    PromoteSingle(g, LastDefault(v, Wildcard));
  }

  /** Adding the Markdown factory changes nothing for '.txt'. */
  lemma PreferredForTextOfThree()
    ensures Preferred([TestWidgetFactory, GlobalWidgetFactory, MarkdownWidgetFactory], ".txt") == [TestWidgetFactory, GlobalWidgetFactory]
  {
    var t, g, m := TestWidgetFactory, GlobalWidgetFactory, MarkdownWidgetFactory;
    var v := [t, g, m];
    FactoryExtensions();
    assert ListsSpecifically(".txt")(t) && !ListsSpecifically(".txt")(g) && !ListsSpecifically(".txt")(m);
    assert !ListsOnlyWildcard(".txt")(t) && ListsOnlyWildcard(".txt")(g) && !ListsOnlyWildcard(".txt")(m);
    FilterThree(t, g, m, ListsSpecifically(".txt"));
    FilterThree(t, g, m, ListsOnlyWildcard(".txt"));
    PromoteSingle(t, LastDefault(v, ".txt"));
    PromoteSingle(g, LastDefault(v, Wildcard));
  }

  /** With all three visible, '.md' prefers the Markdown factory first. */
  lemma PreferredForMarkdown()
    ensures Preferred([TestWidgetFactory, GlobalWidgetFactory, MarkdownWidgetFactory], ".md") == [MarkdownWidgetFactory, GlobalWidgetFactory]
  {
    var t, g, m := TestWidgetFactory, GlobalWidgetFactory, MarkdownWidgetFactory;
    var v := [t, g, m];
    FactoryExtensions();
    assert !ListsSpecifically(".md")(t) && !ListsSpecifically(".md")(g) && ListsSpecifically(".md")(m);
    assert !ListsOnlyWildcard(".md")(t) && ListsOnlyWildcard(".md")(g) && !ListsOnlyWildcard(".md")(m);
    FilterThree(t, g, m, ListsSpecifically(".md"));
    FilterThree(t, g, m, ListsOnlyWildcard(".md"));
    PromoteSingle(m, LastDefault(v, ".md"));
    PromoteSingle(g, LastDefault(v, Wildcard));
  }

  /** With all three visible, a query without an extension prefers only the global factory. */
  lemma PreferredForAny()
    ensures Preferred([TestWidgetFactory, GlobalWidgetFactory, MarkdownWidgetFactory], Wildcard) == [GlobalWidgetFactory]
  {
    var t, g, m := TestWidgetFactory, GlobalWidgetFactory, MarkdownWidgetFactory;
    var v := [t, g, m];
    FactoryExtensions();
    FilterThree(t, g, m, ListsSpecifically(Wildcard));
    FilterThree(t, g, m, ListsOnlyWildcard(Wildcard));
    PromoteSingle(g, LastDefault(v, Wildcard));
  }

  /** With only the text and Markdown factories visible, each extension prefers just its own factory. */
  lemma PreferredWithoutGlobal()
    ensures Preferred([TestWidgetFactory, MarkdownWidgetFactory], ".txt") == [TestWidgetFactory]
    ensures Preferred([TestWidgetFactory, MarkdownWidgetFactory], ".md") == [MarkdownWidgetFactory]
  {
    var t, m := TestWidgetFactory, MarkdownWidgetFactory;
    FactoryExtensions();
    FilterTwo(t, m, ListsSpecifically(".txt"));
    FilterTwo(t, m, ListsOnlyWildcard(".txt"));
    FilterTwo(t, m, ListsSpecifically(".md"));
    FilterTwo(t, m, ListsOnlyWildcard(".md"));
    assert LastDefault([t, m], Wildcard) == None;
    assert LastDefault([t, m], ".txt") == None;
    assert LastDefault([t, m], ".md") == None;
  }

  /** The extension index after registering Foo and Bar for 'fizz' and Foo for 'buzz', with ids from `n`. */
  function FizzBuzz(n: nat): seq<Registered<Binding>> {
    [Registered(n, BindingFor("fizz", Foo)), Registered(n + 1, BindingFor("fizz", Bar)), Registered(n + 2, BindingFor("buzz", Foo))]
  }

  /**
   * Two extensions registered for 'fizz' and the first of them for 'buzz':
   * 'fizz' enumerates both in registration order, 'buzz' the one, and any
   * other name nothing.
   */
  lemma FizzBuzzExtensions(n: nat)
    ensures ExtensionsFor(FizzBuzz(n), Lowercase("fizz")) == [Foo, Bar]
    ensures ExtensionsFor(FizzBuzz(n), Lowercase("buzz")) == [Foo]
    ensures ExtensionsFor(FizzBuzz(n), Lowercase("baz")) == []
  {
    var s := FizzBuzz(n);
    CharsDiffer("fizz", "buzz", 0);
    LengthsDiffer("fizz", "baz");
    LengthsDiffer("buzz", "baz");
    ExtensionsForThree(s[0], s[1], s[2], Lowercase("fizz"));
    ExtensionsForThree(s[0], s[1], s[2], Lowercase("buzz"));
    ExtensionsForThree(s[0], s[1], s[2], Lowercase("baz"));
  }

  /** An index holding only the Python, R and Shell creators finds nothing for 'foo'. */
  lemma NoCreatorFoo(s: seq<Registered<Creator>>)
    requires forall i | 0 <= i < |s| :: s[i].value in [PythonCreator, RCreator, ShellCreator]
    ensures Lookup(s, CreatorName, "foo") == None
  {
    LengthsDiffer(PythonCreator.name, "foo");
    LengthsDiffer(RCreator.name, "foo");
    LengthsDiffer(ShellCreator.name, "foo");
  }

  /** The differently cased names the lookups use are the creators' keys. */
  lemma CreatorKeys()
    ensures SameName(PythonCreator.name, "Python Notebook")
    ensures SameName(RCreator.name, "r notebook")
    ensures SameName(ShellCreator.name, "shell Notebook")
  {
    FoldAlike(RCreator.name, "r notebook");
    FoldAlike(ShellCreator.name, "shell Notebook");
  }

  /** The text and Markdown factories are found by their names in any case; 'baz' finds neither. */
  lemma FactoriesFoundByName(s: seq<Registered<WidgetFactory>>)
    requires Values(s) == [TestWidgetFactory, MarkdownWidgetFactory]
    ensures Lookup(s, FactoryName, "test") == Some(TestWidgetFactory)
    ensures Lookup(s, FactoryName, "Test") == Some(TestWidgetFactory)
    ensures Lookup(s, FactoryName, "markdown") == Some(MarkdownWidgetFactory)
    ensures Lookup(s, FactoryName, "baz") == None
  {
    assert s[0].value == TestWidgetFactory && s[1].value == MarkdownWidgetFactory;
    LookupFindsFirst(s, FactoryName, 0, "test");
    FoldAlike(TestWidgetFactory.name, "Test");
    LookupFindsFirst(s, FactoryName, 0, "Test");
    LengthsDiffer(TestWidgetFactory.name, "markdown");
    LookupFindsFirst(s, FactoryName, 1, "markdown");
    LengthsDiffer(TestWidgetFactory.name, "baz");
    LengthsDiffer(MarkdownWidgetFactory.name, "baz");
  }
}
