/** The legacy dependency record: copies of an id and a version, and a flag. */
module Import {
  import opened Wrappers

  datatype Import = Import(pluginId: Option<string>, version: Option<string>, optional: bool)

  /** The fields before gimo_import_new assigns them. */
  const Defaults: Import := Import(None, None, false)

  /** gimo_import_new: stores copies of both strings and the flag; no setter exists afterwards. */
  function NewImport(pluginId: Option<string>, version: Option<string>, optional: bool): (r: Import)
    ensures r.pluginId == pluginId && r.version == version && r.optional == optional
  {
    Defaults.(pluginId := pluginId, version := version, optional := optional)
  }
}
