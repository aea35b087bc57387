/**
 * The document registry: one owning object holding the five indexes, the
 * counter that hands out registration ids, and the registry-wide disposal
 * flag. Every `Add` method returns the handle that undoes exactly that
 * registration; a registration that changes nothing returns `Inert`.
 */
module DocumentRegistry {
  import opened Wrappers
  import opened Names
  import opened Sequences
  import opened Records
  import opened Index
  import opened Collation
  import opened Resolution
  import opened Extensions

  /** The index a registration went into. */
  datatype IndexKind = WidgetFactoryIndex | ModelFactoryIndex | FileTypeIndex | CreatorIndex | ExtensionIndex

  /** A disposal handle: inert, or naming the one registration it undoes. */
  datatype Handle = Inert | Registration(kind: IndexKind, id: nat)

  class Registry {
    var widgetFactories: seq<Registered<WidgetFactory>>
    var modelFactories: seq<Registered<ModelFactory>>
    var fileTypes: seq<Registered<FileType>>
    var creators: seq<Registered<Creator>>
    var extensions: seq<Registered<Binding>>
    var isDisposed: bool
    var nextId: nat
    /** The locale order of creator names, as a collator's `<= 0`. */
    const collation: (string, string) -> bool

    /**
     * Names are unique in each named index, ids are unique and below the
     * counter, pairings are unique, creators are in locale order, and a
     * disposed registry holds nothing.
     */
    ghost predicate Valid()
      reads this
    {
      && IsTotalPreorder(collation)
      && NamedIndex(widgetFactories, FactoryName, nextId)
      && NamedIndex(modelFactories, ModelName, nextId)
      && NamedIndex(fileTypes, FileTypeName, nextId)
      && NamedIndex(creators, CreatorName, nextId)
      && SortedByName(creators, collation)
      && IdsBelow(extensions, nextId) && IdsUnique(extensions) && BindingsUnique(extensions)
      && (isDisposed ==> Empty())
    }

    /** Every index is empty. */
    predicate Empty()
      reads this
    {
      widgetFactories == [] && modelFactories == [] && fileTypes == [] && creators == [] && extensions == []
    }

    /** A fresh registry: nothing registered, not disposed. */
    constructor(collation: (string, string) -> bool)
      requires IsTotalPreorder(collation)
      ensures Valid() && Empty() && !isDisposed
      ensures nextId == 0 && this.collation == collation
    {
      widgetFactories, modelFactories, fileTypes, creators, extensions := [], [], [], [], [];
      isDisposed := false;
      nextId := 0;
      this.collation := collation;
    }

    /** The widget factory called `name`, ignoring case. */
    function GetWidgetFactory(name: string): (r: Option<WidgetFactory>)
      reads this
      ensures r.None? <==> forall i | 0 <= i < |widgetFactories| :: !SameName(widgetFactories[i].value.name, name)
      ensures r.Some? ==> r.value in Values(widgetFactories) && SameName(r.value.name, name)
    {
      Lookup(widgetFactories, FactoryName, name)
    }

    /** The model factory called `name`, ignoring case. */
    function GetModelFactory(name: string): (r: Option<ModelFactory>)
      reads this
      ensures r.None? <==> forall i | 0 <= i < |modelFactories| :: !SameName(modelFactories[i].value.name, name)
      ensures r.Some? ==> r.value in Values(modelFactories) && SameName(r.value.name, name)
    {
      Lookup(modelFactories, ModelName, name)
    }

    /** The file type called `name`, ignoring case. */
    function GetFileType(name: string): (r: Option<FileType>)
      reads this
      ensures r.None? <==> forall i | 0 <= i < |fileTypes| :: !SameName(fileTypes[i].value.name, name)
      ensures r.Some? ==> r.value in Values(fileTypes) && SameName(r.value.name, name)
    {
      Lookup(fileTypes, FileTypeName, name)
    }

    /** The creator called `name`, ignoring case. */
    function GetCreator(name: string): (r: Option<Creator>)
      reads this
      ensures r.None? <==> forall i | 0 <= i < |creators| :: !SameName(creators[i].value.name, name)
      ensures r.Some? ==> r.value in Values(creators) && SameName(r.value.name, name)
    {
      Lookup(creators, CreatorName, name)
    }

    /** The registered file types, in registration order. */
    function FileTypes(): (r: seq<FileType>)
      reads this
      ensures |r| == |fileTypes| && forall i | 0 <= i < |r| :: r[i] == fileTypes[i].value
    {
      Values(fileTypes)
    }

    /** The registered creators, in locale order of their names. */
    function Creators(): (r: seq<Creator>)
      reads this
      ensures |r| == |creators| && forall i | 0 <= i < |r| :: r[i] == creators[i].value
    {
      Values(creators)
    }

    /** The extensions registered for the widget factory called `widgetName`, in registration order. */
    function WidgetExtensions(widgetName: string): (r: seq<WidgetExtension>)
      reads this
      ensures forall x :: x in r <==> Bound(extensions, BindingFor(widgetName, x))
    {
      ExtensionsFor(extensions, Lowercase(widgetName))
    }

    /** The widget factories whose model factory is registered, in registration order. */
    function VisibleFactories(): (r: seq<WidgetFactory>)
      reads this
      ensures forall f :: f in r <==> f in Values(widgetFactories) && HasModel(modelFactories, f.modelName)
    {
      Visible(widgetFactories, modelFactories)
    }

    /**
     * The factories that can open a file with extension `ext` (any file
     * when `ext` is omitted), best first.
     */
    function PreferredWidgetFactories(ext: Option<string>): (r: seq<WidgetFactory>)
      reads this
      ensures forall f :: f in r <==>
        && f in VisibleFactories()
        && (Lists(f, NormalizeExtension(ext)) || Lists(f, Wildcard))
    {
      Preferred(VisibleFactories(), NormalizeExtension(ext))
    }

    /** The most preferred factory for `ext`, if any. */
    function DefaultWidgetFactory(ext: Option<string>): (r: Option<WidgetFactory>)
      reads this
      ensures r.None? <==> PreferredWidgetFactories(ext) == []
      ensures r.Some? ==> r.value == PreferredWidgetFactories(ext)[0]
    {
      Default(VisibleFactories(), NormalizeExtension(ext))
    }

    /**
     * The kernel preference for opening a file with extension `ext` with
     * the factory called `widgetName`; absent when no such factory exists.
     */
    function GetKernelPreference(ext: string, widgetName: string): (r: Option<KernelPreference>)
      reads this
      ensures r.None? <==> GetWidgetFactory(widgetName).None?
      ensures r.Some? ==> r.value == KernelPreference(
        GetWidgetFactory(widgetName).value.preferKernel, GetWidgetFactory(widgetName).value.canStartKernel)
    {
      KernelPreferenceFor(widgetFactories, widgetName)
    }

    /**
     * Registers a widget factory under its name. A no-op, answered with an
     * inert handle, when the registry is disposed or the name is taken.
     */
    method AddWidgetFactory(f: WidgetFactory) returns (h: Handle)
      requires Valid()
      modifies this
      ensures Valid()
      ensures if old(isDisposed) || old(GetWidgetFactory(f.name)).Some? then
          h == Inert && widgetFactories == old(widgetFactories) && nextId == old(nextId)
        else
          && h == Registration(WidgetFactoryIndex, old(nextId))
          && widgetFactories == old(widgetFactories) + [Registered(old(nextId), f)]
          && nextId == old(nextId) + 1
      ensures modelFactories == old(modelFactories) && fileTypes == old(fileTypes)
      ensures creators == old(creators) && extensions == old(extensions) && isDisposed == old(isDisposed)
    {
      if isDisposed || GetWidgetFactory(f.name).Some? {
        return Inert;
      }
      AppendKeepsNamedIndex(widgetFactories, FactoryName, nextId, f);
      widgetFactories := widgetFactories + [Registered(nextId, f)];
      h := Registration(WidgetFactoryIndex, nextId);
      nextId := nextId + 1;
    }

    /** Registers a model factory under its name; a no-op when disposed or the name is taken. */
    method AddModelFactory(m: ModelFactory) returns (h: Handle)
      requires Valid()
      modifies this
      ensures Valid()
      ensures if old(isDisposed) || old(GetModelFactory(m.name)).Some? then
          h == Inert && modelFactories == old(modelFactories) && nextId == old(nextId)
        else
          && h == Registration(ModelFactoryIndex, old(nextId))
          && modelFactories == old(modelFactories) + [Registered(old(nextId), m)]
          && nextId == old(nextId) + 1
      ensures widgetFactories == old(widgetFactories) && fileTypes == old(fileTypes)
      ensures creators == old(creators) && extensions == old(extensions) && isDisposed == old(isDisposed)
    {
      if isDisposed || GetModelFactory(m.name).Some? {
        return Inert;
      }
      AppendKeepsNamedIndex(modelFactories, ModelName, nextId, m);
      modelFactories := modelFactories + [Registered(nextId, m)];
      h := Registration(ModelFactoryIndex, nextId);
      nextId := nextId + 1;
    }

    /** Registers a file type at the end of the file-type index; a no-op when disposed or the name is taken. */
    method AddFileType(t: FileType) returns (h: Handle)
      requires Valid()
      modifies this
      ensures Valid()
      ensures if old(isDisposed) || old(GetFileType(t.name)).Some? then
          h == Inert && fileTypes == old(fileTypes) && nextId == old(nextId)
        else
          && h == Registration(FileTypeIndex, old(nextId))
          && fileTypes == old(fileTypes) + [Registered(old(nextId), t)]
          && nextId == old(nextId) + 1
      ensures widgetFactories == old(widgetFactories) && modelFactories == old(modelFactories)
      ensures creators == old(creators) && extensions == old(extensions) && isDisposed == old(isDisposed)
    {
      if isDisposed || GetFileType(t.name).Some? {
        return Inert;
      }
      AppendKeepsNamedIndex(fileTypes, FileTypeName, nextId, t);
      fileTypes := fileTypes + [Registered(nextId, t)];
      h := Registration(FileTypeIndex, nextId);
      nextId := nextId + 1;
    }

    /**
     * Registers a creator at its place in locale order, behind the creators
     * whose names sort with or before its own; a no-op when disposed or the
     * name is taken.
     */
    method AddCreator(c: Creator) returns (h: Handle)
      requires Valid()
      modifies this
      ensures Valid()
      ensures if old(isDisposed) || old(GetCreator(c.name)).Some? then
          h == Inert && creators == old(creators) && nextId == old(nextId)
        else
          && h == Registration(CreatorIndex, old(nextId))
          && creators == InsertByName(old(creators), Registered(old(nextId), c), collation)
          && nextId == old(nextId) + 1
      ensures widgetFactories == old(widgetFactories) && modelFactories == old(modelFactories)
      ensures fileTypes == old(fileTypes) && extensions == old(extensions) && isDisposed == old(isDisposed)
    {
      if isDisposed || GetCreator(c.name).Some? {
        return Inert;
      }
      var x := Registered(nextId, c);
      InsertByNameSplits(creators, x, collation);
      PutAtKeepsNamedIndex(creators, CreatorName, nextId, c, InsertionPoint(creators, x, collation));
      InsertByNameKeepsSorted(creators, x, collation);
      creators := InsertByName(creators, x, collation);
      h := Registration(CreatorIndex, nextId);
      nextId := nextId + 1;
    }

    /**
     * Attaches `extension` to the widgets of the factory called
     * `widgetName`, after the extensions already attached to them; a no-op
     * when disposed or the pairing is already registered.
     */
    method AddWidgetExtension(widgetName: string, extension: WidgetExtension) returns (h: Handle)
      requires Valid()
      modifies this
      ensures Valid()
      ensures if old(isDisposed) || Bound(old(extensions), BindingFor(widgetName, extension)) then
          h == Inert && extensions == old(extensions) && nextId == old(nextId)
        else
          && h == Registration(ExtensionIndex, old(nextId))
          && extensions == old(extensions) + [Registered(old(nextId), BindingFor(widgetName, extension))]
          && nextId == old(nextId) + 1
      ensures widgetFactories == old(widgetFactories) && modelFactories == old(modelFactories)
      ensures fileTypes == old(fileTypes) && creators == old(creators) && isDisposed == old(isDisposed)
    {
      var b := BindingFor(widgetName, extension);
      if isDisposed || Bound(extensions, b) {
        return Inert;
      }
      AppendKeepsBindingsUnique(extensions, nextId, b);
      extensions := extensions + [Registered(nextId, b)];
      h := Registration(ExtensionIndex, nextId);
      nextId := nextId + 1;
    }

    /** Disposes a registration handle: the registration it names, if still present, is removed. */
    method DisposeRegistration(h: Handle)
      requires Valid()
      modifies this
      ensures Valid()
      ensures widgetFactories == if h.Registration? && h.kind == WidgetFactoryIndex then RemoveId(old(widgetFactories), h.id) else old(widgetFactories)
      ensures modelFactories == if h.Registration? && h.kind == ModelFactoryIndex then RemoveId(old(modelFactories), h.id) else old(modelFactories)
      ensures fileTypes == if h.Registration? && h.kind == FileTypeIndex then RemoveId(old(fileTypes), h.id) else old(fileTypes)
      ensures creators == if h.Registration? && h.kind == CreatorIndex then RemoveId(old(creators), h.id) else old(creators)
      ensures extensions == if h.Registration? && h.kind == ExtensionIndex then RemoveId(old(extensions), h.id) else old(extensions)
      ensures isDisposed == old(isDisposed) && nextId == old(nextId)
    {
      if h.Registration? {
        match h.kind
        case WidgetFactoryIndex => RemoveWidgetFactory(h.id);
        case ModelFactoryIndex => RemoveModelFactory(h.id);
        case FileTypeIndex => RemoveFileType(h.id);
        case CreatorIndex => RemoveCreator(h.id);
        case ExtensionIndex => RemoveExtension(h.id);
      }
    }

    /** Removes the widget factory registered under `id`, if any. */
    method RemoveWidgetFactory(id: nat)
      requires Valid()
      modifies this
      ensures Valid() && widgetFactories == RemoveId(old(widgetFactories), id)
      ensures modelFactories == old(modelFactories) && fileTypes == old(fileTypes)
      ensures creators == old(creators) && extensions == old(extensions)
      ensures isDisposed == old(isDisposed) && nextId == old(nextId)
    {
      RemoveIdKeepsNamedIndex(widgetFactories, FactoryName, nextId, id);
      widgetFactories := RemoveId(widgetFactories, id);
    }

    /** Removes the model factory registered under `id`, if any. */
    method RemoveModelFactory(id: nat)
      requires Valid()
      modifies this
      ensures Valid() && modelFactories == RemoveId(old(modelFactories), id)
      ensures widgetFactories == old(widgetFactories) && fileTypes == old(fileTypes)
      ensures creators == old(creators) && extensions == old(extensions)
      ensures isDisposed == old(isDisposed) && nextId == old(nextId)
    {
      RemoveIdKeepsNamedIndex(modelFactories, ModelName, nextId, id);
      modelFactories := RemoveId(modelFactories, id);
    }

    /** Removes the file type registered under `id`, if any. */
    method RemoveFileType(id: nat)
      requires Valid()
      modifies this
      ensures Valid() && fileTypes == RemoveId(old(fileTypes), id)
      ensures widgetFactories == old(widgetFactories) && modelFactories == old(modelFactories)
      ensures creators == old(creators) && extensions == old(extensions)
      ensures isDisposed == old(isDisposed) && nextId == old(nextId)
    {
      RemoveIdKeepsNamedIndex(fileTypes, FileTypeName, nextId, id);
      fileTypes := RemoveId(fileTypes, id);
    }

    /** Removes the creator registered under `id`, if any. */
    method RemoveCreator(id: nat)
      requires Valid()
      modifies this
      ensures Valid() && creators == RemoveId(old(creators), id)
      ensures widgetFactories == old(widgetFactories) && modelFactories == old(modelFactories)
      ensures fileTypes == old(fileTypes) && extensions == old(extensions)
      ensures isDisposed == old(isDisposed) && nextId == old(nextId)
    {
      RemoveIdKeepsNamedIndex(creators, CreatorName, nextId, id);
      RemoveIdKeepsSorted(creators, collation, id);
      creators := RemoveId(creators, id);
    }

    /** Removes the extension pairing registered under `id`, if any. */
    method RemoveExtension(id: nat)
      requires Valid()
      modifies this
      ensures Valid() && extensions == RemoveId(old(extensions), id)
      ensures widgetFactories == old(widgetFactories) && modelFactories == old(modelFactories)
      ensures fileTypes == old(fileTypes) && creators == old(creators)
      ensures isDisposed == old(isDisposed) && nextId == old(nextId)
    {
      RemoveIdKeepsExtensionIndex(extensions, nextId, id);
      extensions := RemoveId(extensions, id);
    }

    /** Disposes the registry: every index is cleared. Safe to call again. */
    method Dispose()
      requires Valid()
      modifies this
      ensures Valid() && isDisposed && Empty() && nextId == old(nextId)
    {
      widgetFactories, modelFactories, fileTypes, creators, extensions := [], [], [], [], [];
      isDisposed := true;
    }
  }
}
