/**
 * The entities the registry indexes. Their behaviour (building a widget,
 * turning file content into a model, attaching to a widget) is outside
 * this model; only the metadata the registry reads is kept.
 */
module Records {

  /**
   * A widget factory: the case-insensitive unique `name`, the extensions it
   * can open ('*' opens any file), the extensions it wants to be the default
   * for, the name of the model factory it needs and its kernel affinity.
   */
  datatype WidgetFactory = WidgetFactory(
    name: string,
    fileExtensions: seq<string>,
    defaultFor: seq<string>,
    modelName: string,
    preferKernel: bool,
    canStartKernel: bool)

  /** A model factory, known to the registry by its name only. */
  datatype ModelFactory = ModelFactory(name: string)

  /** A file type: a named extension. */
  datatype FileType = FileType(name: string, extension: string)

  /** A "new file" template: its display name and the file type it creates. */
  datatype Creator = Creator(name: string, fileType: string)

  /** A widget extension, known only by its identity. */
  datatype WidgetExtension = WidgetExtension(identity: nat)

  /** Whether a document opened with a factory should get a kernel, and whether it may start one. */
  datatype KernelPreference = KernelPreference(preferKernel: bool, canStartKernel: bool)

  function FactoryName(f: WidgetFactory): string { f.name }

  function ModelName(m: ModelFactory): string { m.name }

  function FileTypeName(t: FileType): string { t.name }

  function CreatorName(c: Creator): string { c.name }
}
