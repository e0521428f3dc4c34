/** A plugin's dependency on another plugin: an immutable record. */
module Require {
  import opened Wrappers

  datatype Require = Require(pluginId: Option<string>, version: Option<string>, optional: bool)

  /** The property values before construction assigns them. */
  const Defaults: Require := Require(None, None, false)

  /** gimo_require_new: every field is construct-only, so the getters return the arguments. */
  function NewRequire(pluginId: Option<string>, version: Option<string>, optional: bool): (r: Require)
    ensures r.pluginId == pluginId && r.version == version && r.optional == optional
  {
    Require(pluginId, version, optional)
  }
}
