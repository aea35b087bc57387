# Document registry

A model of the JupyterLab document registry, as its test suite
`test/src/docregistry/registry.spec.ts` exercises it. The registry owns five
indexes:

- **widget factories**: unique by name, ignoring case, in registration order;
- **model factories**: unique by name, in registration order;
- **file types**: unique by name, enumerated in registration order;
- **creators** ("new file" templates): unique by name and kept in locale order of their names;
- **widget extensions**: a multimap from a widget-factory name to the extensions attached to that factory's widgets.

Every registration returns a disposal handle that undoes exactly that
registration. A registration that changes nothing gets an inert handle:
- a name that is already taken;
- a pairing that is already registered;
- a registry that is already disposed.

Disposing the registry empties every index, and disposing it again is harmless.

Queries:
- `preferredWidgetFactories(ext)` lists the factories that can open a file with extension
  `ext`, best first. A factory appears only when its model factory is registered.
- `defaultWidgetFactory(ext)` is the head of that list.
- `getKernelPreference(ext, name)` reports the kernel flags of the factory called `name`.

Layout:

| file | module | contents |
|---|---|---|
| `wrappers.dfy` | `Wrappers` | `Option` |
| `names.dfy` | `Names` | ASCII case folding and the case-insensitive name key `SameName` |
| `sequences.dfy` | `Sequences` | order-preserving `Filter`, `Distinct`, `Before` and their lemmas |
| `index.dfy` | `Index` | an index as a sequence of `Registered(id, value)`, lookup by name, removal by id |
| `records.dfy` | `Records` | the registered entities as datatypes |
| `collation.dfy` | `Collation` | creator insertion in collation order |
| `resolution.dfy` | `Resolution` | visibility, the preferred order, the default and kernel preference as functions |
| `extensions.dfy` | `Extensions` | the extension multimap |
| `registry.dfy` | `DocumentRegistry` | the `Registry` class: the five indexes, the id counter, the disposal flag and every registry operation |
| `fixtures.dfy` | `Fixtures` | the test file's factories, file types, creators and extensions, and value-level facts about them |
| `scenarios.dfy` | `Scenarios` | one method per test case. Each builds a fresh registry, performs the test's calls and returns what the test's queries answer. Its `ensures` states the expected answers. |

The registry is a class whose methods update its index fields in place.
Each method states the new value of every field. A fresh registry starts its id counter at 0. Every method keeps the
invariant `Valid()`:
- names are unique in each named index;
- ids are unique and below the counter;
- pairings are unique;
- creators are sorted;
- a disposed registry is empty.

A handle carries the id of its registration. Disposing it removes the entry
with that id and nothing else, however many same-named entries came and went
in between. The queries are functions over the indexes. Their properties are
lemmas in `Index`, `Collation`, `Resolution` and `Extensions`.

The default for an extension is the head of the preferred list, not only a factory that
declares itself the default. The test at line 353 expects the `.txt` factory,
which (as modelled) declares no default, to be the default for `.txt`. The preferred list is:
1. the most recently registered visible factory that is the default for `ext`;
2. the other visible factories listing `ext`, in registration order;
3. the most recently registered global default;
4. the other visible factories listing `*`, in registration order.

Each factory appears once. An omitted extension queries `*`.

## Model

| member | source | states |
|---|---|---|
| `DocumentRegistry.Registry.constructor` | test/src/docregistry/registry.spec.ts:104-108 | a new registry holds nothing, is not disposed, starts its id counter at 0 and satisfies the invariant |
| `DocumentRegistry.Registry.Dispose` | test/src/docregistry/registry.spec.ts:116-136 | after disposal the registry is disposed and every index is empty; the invariant holds, so a second call ends in the same state |
| `DocumentRegistry.Registry.AddWidgetFactory` | test/src/docregistry/registry.spec.ts:142-147 | a factory whose name (ignoring case) is free is appended with a fresh id and its handle names that id; a taken name or a disposed registry changes nothing and yields an inert handle; the other indexes are untouched |
| `DocumentRegistry.Registry.AddModelFactory` | test/src/docregistry/registry.spec.ts:184-207 | the same contract for model factories: appended under a free name, otherwise an inert handle and no change |
| `DocumentRegistry.Registry.AddWidgetExtension` | test/src/docregistry/registry.spec.ts:213-225 | a new (folded factory name, extension) pairing is appended with a fresh id; an existing pairing or a disposed registry yields an inert handle and no change |
| `DocumentRegistry.Registry.AddFileType` | test/src/docregistry/registry.spec.ts:238-257 | a file type under a free name is appended; a taken name yields an inert handle and no change |
| `DocumentRegistry.Registry.AddCreator` | test/src/docregistry/registry.spec.ts:263-297 | a creator under a free name is inserted at its collation position; a taken name yields an inert handle and no change; the invariant keeps the index sorted |
| `DocumentRegistry.Registry.DisposeRegistration` | test/src/docregistry/registry.spec.ts:172-178 | disposing a handle removes exactly the registration with its id from its own index and changes no other index; an inert handle changes nothing |
| `DocumentRegistry.Registry.RemoveWidgetFactory` | test/src/docregistry/registry.spec.ts:172-178 | the widget-factory index loses the entry with the given id; everything else is unchanged |
| `DocumentRegistry.Registry.RemoveModelFactory` | test/src/docregistry/registry.spec.ts:203-207 | the model-factory index loses the entry with the given id; everything else is unchanged |
| `DocumentRegistry.Registry.RemoveFileType` | test/src/docregistry/registry.spec.ts:244-249 | the file-type index loses the entry with the given id; everything else is unchanged |
| `DocumentRegistry.Registry.RemoveCreator` | test/src/docregistry/registry.spec.ts:269-274 | the creator index loses the entry with the given id and stays sorted; everything else is unchanged |
| `DocumentRegistry.Registry.RemoveExtension` | test/src/docregistry/registry.spec.ts:227-232 | the extension index loses the pairing with the given id; everything else is unchanged |
| `DocumentRegistry.Registry.GetWidgetFactory` | test/src/docregistry/registry.spec.ts:464-474 | absent exactly when no registered factory has the name ignoring case; otherwise a registered factory with that name |
| `DocumentRegistry.Registry.GetModelFactory` | test/src/docregistry/registry.spec.ts:454-458 | absent exactly when no model factory has the name, ignoring case; otherwise a registered one with that name |
| `DocumentRegistry.Registry.GetFileType` | test/src/docregistry/registry.spec.ts:397-407 | absent exactly when no file type has the name, ignoring case; otherwise a registered one with that name |
| `DocumentRegistry.Registry.GetCreator` | test/src/docregistry/registry.spec.ts:412-425 | absent exactly when no creator has the name ignoring case; otherwise a registered one with that name |
| `DocumentRegistry.Registry.FileTypes` | test/src/docregistry/registry.spec.ts:362-373 | defined as the file-type index read in index order; that this is registration order follows from `AddFileType` appending |
| `DocumentRegistry.Registry.Creators` | test/src/docregistry/registry.spec.ts:379-391 | defined as the creator index read in index order; that this is collation order is the `SortedByName` part of the invariant |
| `DocumentRegistry.Registry.WidgetExtensions` | test/src/docregistry/registry.spec.ts:478-492 | an extension is enumerated for a factory name exactly when that pairing is registered |
| `DocumentRegistry.Registry.VisibleFactories` | test/src/docregistry/registry.spec.ts:314-317 | exactly the registered widget factories whose model factory is registered |
| `DocumentRegistry.Registry.PreferredWidgetFactories` | test/src/docregistry/registry.spec.ts:301-341 | a factory is offered exactly when it is visible and lists the extension or `*` |
| `DocumentRegistry.Registry.DefaultWidgetFactory` | test/src/docregistry/registry.spec.ts:345-356 | absent exactly when nothing is preferred; otherwise the most preferred factory |
| `DocumentRegistry.Registry.GetKernelPreference` | test/src/docregistry/registry.spec.ts:441-447 | absent exactly when no factory has the name; otherwise that factory's `preferKernel` and `canStartKernel` |
| `Names.Lowercase` | test/src/docregistry/registry.spec.ts:142-147 | folding keeps the length, leaves no ASCII capital, and keeps every character that is not a capital where it was |
| `Names.LowercaseIdempotent` | test/src/docregistry/registry.spec.ts:142-147 | a folded name folds to itself |
| `Names.LengthsDiffer` | test/src/docregistry/registry.spec.ts:446-447 | names of different lengths never denote the same key |
| `Names.CharsDiffer` | test/src/docregistry/registry.spec.ts:483-491 | names that fold differently at one position never denote the same key |
| `Names.FoldAlike` | test/src/docregistry/registry.spec.ts:421-423 | names that fold alike at every position denote the same key |
| `Index.Lookup` | test/src/docregistry/registry.spec.ts:412-425 | absent exactly when no entry answers to the name; otherwise a registered value answering to it |
| `Index.RemoveId` | test/src/docregistry/registry.spec.ts:172-178 | keeps exactly the entries whose id differs |
| `Index.LookupIgnoresCase` | test/src/docregistry/registry.spec.ts:142-147 | names equal after folding find the same entry |
| `Index.LookupFindsUnique` | test/src/docregistry/registry.spec.ts:404-405 | in an index with unique names, any spelling of an entry's name finds that entry |
| `Index.LookupFindsFirst` | test/src/docregistry/registry.spec.ts:421-423 | lookup answers with the first entry in index order whose name matches |
| `Index.LookupAfterAppend` | test/src/docregistry/registry.spec.ts:142-147 | after appending, a name finds the new entry exactly when no earlier entry answered to it |
| `Index.AppendKeepsNamedIndex` | test/src/docregistry/registry.spec.ts:184-196 | appending under a free name keeps names and ids unique, with the counter advanced |
| `Index.PutAtKeepsNamedIndex` | test/src/docregistry/registry.spec.ts:276-289 | inserting under a free name at any position keeps names and ids unique |
| `Index.RemoveIdKeepsNamedIndex` | test/src/docregistry/registry.spec.ts:172-178 | removal keeps names and ids unique and below the counter |
| `Index.RemoveUndoesAppend` | test/src/docregistry/registry.spec.ts:244-249 | disposing the handle of the entry just appended restores the index exactly |
| `Index.RemoveIdTwice` | test/src/docregistry/registry.spec.ts:172-178 | disposing the same handle a second time changes nothing more |
| `Index.RemoveIdAbsent` | test/src/docregistry/registry.spec.ts:251-257 | removing an id no entry carries leaves the index as it was |
| `Index.RemoveIdAt` | test/src/docregistry/registry.spec.ts:172-178 | with unique ids, removal cuts out exactly the one entry, keeping the rest in order |
| `Index.RemoveBetween` | test/src/docregistry/registry.spec.ts:269-274 | removing an id carried once cuts that entry out wherever it sits |
| `Index.LookupAfterRemoveSame` | test/src/docregistry/registry.spec.ts:172-178 | after disposal, the disposed entry's name finds nothing |
| `Index.LookupAfterRemoveOther` | test/src/docregistry/registry.spec.ts:172-178 | after disposal, every other name finds what it found before |
| `Index.LookupAfterRemove` | test/src/docregistry/registry.spec.ts:172-178 | both cases of lookup after disposal, in one statement |
| `Index.NamesUniqueValuesDistinct` | test/src/docregistry/registry.spec.ts:184-196 | entries with pairwise different names are pairwise different values |
| `Collation.InsertByName` | test/src/docregistry/registry.spec.ts:276-289 | the index after inserting a creator is one longer and holds exactly the creators it held before plus the new one |
| `Collation.InsertByNameSplits` | test/src/docregistry/registry.spec.ts:276-289 | insertion puts the new creator at its insertion point and moves no other creator |
| `Collation.InsertionPoint` | test/src/docregistry/registry.spec.ts:276-289 | every creator ahead of the insertion point sorts at or before the new one |
| `Collation.InsertionPointStops` | test/src/docregistry/registry.spec.ts:276-289 | the creator at the insertion point sorts strictly after the new one |
| `Collation.InsertionPointIsTight` | test/src/docregistry/registry.spec.ts:276-289 | in a sorted index every creator from the insertion point on sorts strictly after the new one |
| `Collation.InsertByNameKeepsSorted` | test/src/docregistry/registry.spec.ts:276-289 | inserting into a sorted index under a total preorder keeps it sorted |
| `Collation.RemoveIdKeepsSorted` | test/src/docregistry/registry.spec.ts:269-274 | removal keeps the creator index sorted |
| `Collation.RemoveUndoesInsert` | test/src/docregistry/registry.spec.ts:269-274 | disposing the handle of the creator just inserted restores the index exactly |
| `Resolution.Normalized` | test/src/docregistry/registry.spec.ts:33-35 | defined as the factory's extension list with each entry folded |
| `Resolution.NormalizeExtension` | test/src/docregistry/registry.spec.ts:301-356 | an omitted extension queries `*`; a given one is queried by its folded form, which has the same key and is its own fold |
| `Resolution.Visible` | test/src/docregistry/registry.spec.ts:314-317 | a factory is visible exactly when it is registered and its model factory is registered |
| `Resolution.VisibleWhenModelled` | test/src/docregistry/registry.spec.ts:303-312 | when every factory's model is registered, all of them are visible in registration order |
| `Resolution.UnmodelledFactoryHidden` | test/src/docregistry/registry.spec.ts:314-317 | a factory without its model is never preferred, yet it is still found by name |
| `Resolution.Specific` | test/src/docregistry/registry.spec.ts:319-327 | exactly the visible factories that list a non-wildcard extension |
| `Resolution.CatchAll` | test/src/docregistry/registry.spec.ts:329-339 | exactly the visible factories that list `*` and do not list the extension |
| `Resolution.LastDefaultAt` | test/src/docregistry/registry.spec.ts:345-356 | the position of the last visible factory that is the default for the extension: no later factory is |
| `Resolution.LastDefault` | test/src/docregistry/registry.spec.ts:149-154 | a present answer is a visible factory that is the default for the extension, and no later factory is |
| `Resolution.Promote` | test/src/docregistry/registry.spec.ts:345-356 | promoting a default moves no factory in or out |
| `Resolution.Preferred` | test/src/docregistry/registry.spec.ts:301-341 | a factory is preferred exactly when it is visible and lists the extension or `*` |
| `Resolution.VisibleDistinct` | test/src/docregistry/registry.spec.ts:303-312 | unique names make the visible factories pairwise different |
| `Resolution.PromoteDistinct` | test/src/docregistry/registry.spec.ts:303-312 | promotion keeps factories pairwise different |
| `Resolution.PreferredDistinct` | test/src/docregistry/registry.spec.ts:303-312 | no factory is offered twice |
| `Resolution.PreferredSpecificFirst` | test/src/docregistry/registry.spec.ts:329-339 | every factory naming the extension comes before every factory that does not |
| `Resolution.PreferredSplit` | test/src/docregistry/registry.spec.ts:329-339 | every factory in the leading group names the extension and no factory in the trailing wildcard group does |
| `Resolution.PromoteSingle` | test/src/docregistry/registry.spec.ts:319-327 | a group of one factory is unchanged by promotion |
| `Resolution.PromoteBefore` | test/src/docregistry/registry.spec.ts:329-339 | apart from the promoted default, promotion keeps the original order |
| `Resolution.SpecificPartOrder` | test/src/docregistry/registry.spec.ts:329-339 | behind its default, the group naming the extension keeps registration order |
| `Resolution.CatchAllPartOrder` | test/src/docregistry/registry.spec.ts:329-339 | behind the global default, the wildcard group keeps registration order |
| `Resolution.PreferredKeepsRegistrationOrder` | test/src/docregistry/registry.spec.ts:329-339 | two non-default factories of the same group are offered in registration order |
| `Resolution.DefaultIsSpecificDefault` | test/src/docregistry/registry.spec.ts:345-356 | when some visible factory declares itself the default for the extension, the most recently registered such factory is the default |
| `Resolution.DefaultIsFirstSpecific` | test/src/docregistry/registry.spec.ts:353 | without a declared default, the first registered factory naming the extension is the default |
| `Resolution.OnlyCatchAll` | test/src/docregistry/registry.spec.ts:355 | when no factory names the extension, only the wildcard group is offered |
| `Resolution.DefaultIsGlobalDefault` | test/src/docregistry/registry.spec.ts:149-154 | when no factory names the extension, the global default is the default |
| `Resolution.DefaultIsFirstWildcard` | test/src/docregistry/registry.spec.ts:345-356 | with neither kind of default declared, the first registered wildcard factory is the default |
| `Resolution.Default` | test/src/docregistry/registry.spec.ts:345-356 | a default is always a visible factory that lists the extension or `*`, and there is none exactly when no visible factory lists either |
| `Resolution.UnlistedDefaultIgnored` | test/src/docregistry/registry.spec.ts:86-88 | a modelling choice, since no test shows an unlisted `defaultFor` entry: such an entry is ignored, so a factory not listing the extension is never its default |
| `Resolution.DefaultExists` | test/src/docregistry/registry.spec.ts:345-356 | there is a default exactly when some visible factory lists the extension or `*` |
| `Resolution.KernelPreferenceFor` | test/src/docregistry/registry.spec.ts:441-447 | absent exactly when no factory has the name; otherwise the flags of a factory with that name |
| `Resolution.KernelPreferenceOfRegistered` | test/src/docregistry/registry.spec.ts:441-444 | with unique names, the preference carries exactly the named factory's flags |
| `Extensions.BindingFor` | test/src/docregistry/registry.spec.ts:213-217 | a pairing records the extension under the folded factory name |
| `Extensions.ExtensionsFor` | test/src/docregistry/registry.spec.ts:478-492 | an extension is enumerated for a name exactly when that pairing is registered |
| `Extensions.ExtensionsForAppend` | test/src/docregistry/registry.spec.ts:478-492 | enumeration follows index order: two stretches enumerate one after the other |
| `Extensions.ExtensionsForThree` | test/src/docregistry/registry.spec.ts:483-485 | an index of three pairings enumerates each pairing's contribution in turn |
| `Extensions.ExtensionsAfterAdd` | test/src/docregistry/registry.spec.ts:213-217 | a new pairing is enumerated last for its own name and not at all for others |
| `Extensions.ExtensionsForUnknown` | test/src/docregistry/registry.spec.ts:491 | a name enumerates nothing exactly when no pairing is registered under it |
| `Extensions.AppendKeepsBindingsUnique` | test/src/docregistry/registry.spec.ts:219-225 | appending a new pairing keeps pairings unique |
| `Extensions.RemoveIdKeepsExtensionIndex` | test/src/docregistry/registry.spec.ts:227-232 | removal keeps ids below the counter and ids and pairings unique |
| `Extensions.ExtensionsSplitAt` | test/src/docregistry/registry.spec.ts:478-492 | the enumeration reads the stretch before an entry, the entry, and the stretch after it |
| `Extensions.ExtensionsAfterRemove` | test/src/docregistry/registry.spec.ts:227-232 | disposal drops exactly the disposed pairing's contribution, keeping the rest in order |
| `Extensions.ExtensionsAfterRemoveOther` | test/src/docregistry/registry.spec.ts:227-232 | disposal leaves every other name's enumeration as it was |
| `Extensions.RemovedExtensionGone` | test/src/docregistry/registry.spec.ts:227-232 | the disposed extension is no longer enumerated for its name |
| `Fixtures.LocaleInsertions` | test/src/docregistry/registry.spec.ts:276-289 | registering Python, R, CSharp under a locale-like collation yields CSharp, Python, R; each name is free when registered |
| `Fixtures.AnyOrderAppends` | test/src/docregistry/registry.spec.ts:412-420 | under a collation relating every pair, creators keep registration order |
| `Fixtures.ExtensionsFolded` | test/src/docregistry/registry.spec.ts:33-35 | the fixtures' extensions are already folded |
| `Fixtures.FactoryExtensions` | test/src/docregistry/registry.spec.ts:27-89 | what each fixture factory lists and is the default for |
| `Fixtures.GlobalIsWildcardDefault` | test/src/docregistry/registry.spec.ts:76-89 | among visible fixture factories that include the global one, the global factory is the default for `*`, and no factory is the default for `.txt` or `.md` |
| `Fixtures.PreferredForTextOfTwo` | test/src/docregistry/registry.spec.ts:310-311 | text and global factories visible: `.txt` prefers text, then global |
| `Fixtures.PreferredForTextOfThree` | test/src/docregistry/registry.spec.ts:337-338 | with Markdown added, `.txt` still prefers text, then global |
| `Fixtures.PreferredForMarkdown` | test/src/docregistry/registry.spec.ts:354 | `.md` prefers Markdown, then global |
| `Fixtures.PreferredForAny` | test/src/docregistry/registry.spec.ts:355 | with no extension only the global factory is preferred |
| `Fixtures.PreferredWithoutGlobal` | test/src/docregistry/registry.spec.ts:325-326 | text and Markdown visible: each extension prefers only its own factory |
| `Fixtures.FizzBuzzExtensions` | test/src/docregistry/registry.spec.ts:480-492 | 'fizz' enumerates Foo then Bar, 'buzz' Foo, 'baz' nothing |
| `Fixtures.CreatorKeys` | test/src/docregistry/registry.spec.ts:421-423 | 'Python Notebook', 'r notebook' and 'shell Notebook' are the keys of the three creators |
| `Fixtures.NoCreatorFoo` | test/src/docregistry/registry.spec.ts:424 | an index holding only the Python, R and Shell creators finds nothing for 'foo' |
| `Fixtures.ByInitialIsLocaleLike` | test/src/docregistry/registry.spec.ts:276-289 | comparing first characters is a total preorder that puts 'CSharp Notebook' before 'Python Notebook' before 'R Notebook', so the locale scenarios' requirement can be met |
| `Fixtures.FactoriesFoundByName` | test/src/docregistry/registry.spec.ts:470-473 | 'test' and 'Test' find the text factory, 'markdown' the Markdown one, 'baz' none |
| `Scenarios.DisposedFlag` | test/src/docregistry/registry.spec.ts:116-120 | not disposed before, disposed after |
| `Scenarios.DisposeReleases` | test/src/docregistry/registry.spec.ts:126-130 | after disposal the registry is disposed and holds no file type |
| `Scenarios.DisposeTwice` | test/src/docregistry/registry.spec.ts:132-136 | disposing twice leaves it disposed |
| `Scenarios.AddedWidgetFactoryFound` | test/src/docregistry/registry.spec.ts:142-147 | 'test' and 'TEST' both find the registered factory |
| `Scenarios.GlobalDefault` | test/src/docregistry/registry.spec.ts:149-154 | the global factory is the default for `*` |
| `Scenarios.WidgetFactoryDisposed` | test/src/docregistry/registry.spec.ts:172-178 | after disposing its handle, 'test' finds nothing |
| `Scenarios.DuplicateModelFactoryIgnored` | test/src/docregistry/registry.spec.ts:184-201 | the second registration's handle is inert, and disposing it keeps the first |
| `Scenarios.ModelFactoryDisposed` | test/src/docregistry/registry.spec.ts:203-207 | after disposing its handle, 'text' finds nothing |
| `Scenarios.ExtensionAdded` | test/src/docregistry/registry.spec.ts:213-217 | 'foo' enumerates exactly the registered extension |
| `Scenarios.DuplicateExtensionIgnored` | test/src/docregistry/registry.spec.ts:219-225 | the second handle is inert and 'foo' still enumerates the extension once |
| `Scenarios.ExtensionDisposed` | test/src/docregistry/registry.spec.ts:227-232 | after disposal 'foo' enumerates nothing |
| `Scenarios.FileTypeAdded` | test/src/docregistry/registry.spec.ts:238-242 | the file types are exactly the registered one |
| `Scenarios.FileTypeDisposed` | test/src/docregistry/registry.spec.ts:244-249 | after disposal there is no file type |
| `Scenarios.DuplicateFileTypeIgnored` | test/src/docregistry/registry.spec.ts:251-257 | the second handle is inert and the first file type remains, alone |
| `Scenarios.CreatorAdded` | test/src/docregistry/registry.spec.ts:263-267 | the creators are exactly the registered one |
| `Scenarios.CreatorDisposed` | test/src/docregistry/registry.spec.ts:269-274 | after disposal there is no creator |
| `Scenarios.CreatorsInLocaleOrder` | test/src/docregistry/registry.spec.ts:276-289 | registered as Python, R, CSharp, the creators enumerate as CSharp, Python, R |
| `Scenarios.DuplicateCreatorIgnored` | test/src/docregistry/registry.spec.ts:291-297 | the second handle is inert and the first creator remains, alone |
| `Scenarios.PreferredOfEmpty` | test/src/docregistry/registry.spec.ts:304 | an empty registry prefers nothing |
| `Scenarios.PreferredValid` | test/src/docregistry/registry.spec.ts:303-312 | an empty registry prefers nothing; with text and global registered, `.txt` prefers text then global |
| `Scenarios.PreferredNeedsModel` | test/src/docregistry/registry.spec.ts:314-317 | with no model factory registered, the text factory is preferred neither for a query without extension nor for `.txt`, the extension it lists |
| `Scenarios.PreferredByExtension` | test/src/docregistry/registry.spec.ts:319-327 | `.txt` prefers only the text factory and `.md` only the Markdown one |
| `Scenarios.PreferredPriority` | test/src/docregistry/registry.spec.ts:329-339 | `.txt` prefers text then global; Markdown is not offered |
| `Scenarios.Defaults` | test/src/docregistry/registry.spec.ts:345-356 | the defaults for `.txt`, `.md` and no extension are text, Markdown and global |
| `Scenarios.FileTypesInOrder` | test/src/docregistry/registry.spec.ts:362-373 | no file types at first, then notebook and python in registration order |
| `Scenarios.CreatorsEnumerated` | test/src/docregistry/registry.spec.ts:379-391 | no creators at first, then three, headed by 'CSharp Notebook' |
| `Scenarios.FileTypesByName` | test/src/docregistry/registry.spec.ts:397-407 | 'notebook' and 'python' find their file types, 'r' nothing |
| `Scenarios.CreatorsByName` | test/src/docregistry/registry.spec.ts:412-425 | under any collation, each creator is found by a differently cased name; 'foo' finds nothing |
| `Scenarios.KernelPreferences` | test/src/docregistry/registry.spec.ts:441-447 | 'python' prefers and can start a kernel; 'baz' has no preference |
| `Scenarios.ModelFactoryByName` | test/src/docregistry/registry.spec.ts:454-458 | 'text' finds the model factory |
| `Scenarios.WidgetFactoriesByName` | test/src/docregistry/registry.spec.ts:464-474 | 'test' and 'Test' find the text factory, 'markdown' the Markdown one, 'baz' nothing |
| `Scenarios.ExtensionsPerWidget` | test/src/docregistry/registry.spec.ts:480-492 | 'fizz' enumerates Foo then Bar, 'buzz' Foo, 'baz' nothing |

## Left out

- The implementation under `lib/docregistry` is not part of this model. The behaviour modelled is the behaviour its test suite fixes. Where the tests leave a choice open (what an add on a disposed registry does, how a default is chosen when none is declared), the model takes the reading the tests support and these notes name it.
- Widget and model construction (`createNew`), document contexts, phosphor widgets and `Kernel` types are outside the registry's bookkeeping and are left out. A factory keeps only its name, extensions, defaults, model name and kernel flags.
- Iterators are modelled as the sequences they would yield.
- A disposal handle is a value naming an index and an id. The test's `IDisposable` objects become a call to `DisposeRegistration`.
- Reference identity is lost for factories, file types and creators. The tests compare objects with `to.be`; the model compares these by value. Widget extensions keep their identity through their `identity` field: the two `WidgetExtension` instances at lines 481-482 are `Fixtures.Foo` and `Fixtures.Bar`, which differ.
- Locale collation belongs to the host platform. The creator index is ordered by any total preorder on names, supplied when the registry is created. `Scenarios.CreatorsInLocaleOrder` and `Scenarios.CreatorsEnumerated` hold for every collation that puts 'CSharp Notebook' strictly before 'Python Notebook' and that strictly before 'R Notebook'; `Fixtures.ByInitialIsLocaleLike` exhibits one such collation.
- Case folding covers the ASCII letters only; Unicode case mapping is not modelled.
- An add on a disposed registry is a no-op that returns an inert handle. The tests only dispose at the end, so this keeps "a disposed registry is empty" without contradicting any of them.
- The model-factory tests at lines 184-207 make no assertion. `Scenarios.DuplicateModelFactoryIgnored` and `Scenarios.ModelFactoryDisposed` state what their titles promise.
- The tests at lines 149-154 and 156-162 expect `defaultWidgetFactory('*')` to be the strings 'foo' and 'bar', which no registered factory is. `Scenarios.GlobalDefault` states that the global factory is the default instead, and the 'override an existing global default' case is not a scenario. `Resolution.LastDefault` makes the most recently registered default win.
- The test at lines 164-170 registers a second factory under the taken name 'test' and expects it to become the default. In this model a taken name is a no-op, so that test is not a scenario.
- Scenarios.KernelPreferences: leaves out the query at lines 436-439. The factory 'global' is not registered in that test, yet a preference is expected.
- DocumentRegistry.Registry.GetKernelPreference: has no `language` field, because the kernel language of an extension comes from a mapping outside the registry. Its `ext` parameter is accepted and unused.
- Scenarios.ExtensionsPerWidget: states the whole enumeration `[Foo, Bar]` for 'fizz', not line 487's expectation that a fresh iterator starts at Bar.
- Scenarios.CreatorsEnumerated: states only the length and the head's name, as the test does. `Scenarios.CreatorsInLocaleOrder` states the full order.
- DocumentRegistry.Registry.PreferredWidgetFactories: an omitted extension is read as `*`, so it offers only the factories that list `*`, not every visible factory. The test at line 316 is satisfied either way; its title reads as if every factory were expected when its model is registered.
- The fixture factories at lines 27-89 override only some getters of `ABCWidgetFactory`, which is not part of this model. The values they inherit are inferred: `defaultFor` is empty, `modelName` is 'text', and `preferKernel` and `canStartKernel` are false unless overridden.
- Resolution.Preferred: a factory that declares itself the default for the extension moves to the front of the factories listing it, ahead of earlier-registered ones. Likewise, the most recent global default moves to the front of the `*` listers. Only the remaining factories of each group keep registration order. This is what makes the declared default the head of the list, which `DefaultWidgetFactory` reads.
- Resolution.Default: is the head of `Resolution.Preferred`, so it exists whenever some visible factory lists the extension or `*`, even when none declares itself a default. With no declared default for the extension, the first-registered factory listing it is the default. With the extension omitted and no global default declared, the first-registered `*` lister is the default. The reason is the test at line 353: it expects the `.txt` factory to be the `.txt` default, although, under the inferred empty `defaultFor`, that factory declares no default.
- Resolution.IsDefaultFor: counts a `defaultFor` entry only when the factory also lists that extension. No test decides this; every fixture that declares a default also lists it (lines 86-88).
- Concurrency and signals are not modelled: the registry is used from one thread and the tests observe no events.
