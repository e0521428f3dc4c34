/**
 * The plugin context: the registry of installed plugins keyed by plugin id
 * (a tree, so traversals visit ids in strcmp order), the plugin search
 * paths, and the notifications of the state-changed signal.  A new context
 * installs and starts two core plugins: the file loader plugin, which
 * defines the archive loader and the module loader as objects bound to it,
 * and the XML archive plugin.
 *
 * The process-wide binding tables and last-error slot are parameters, as
 * are the module loader in effect (`loader`), symbol lookup in a loaded
 * module (`symbols`) and the results of the start handlers.
 */
module Context {
  import opened Wrappers
  import opened Str
  import opened Sorting
  import opened ErrorSlot
  import Utils
  import ExtPoint
  import Extension
  import Binding
  import Loader
  import Plugin
  import Runtime

  const CoreLoaderId: string := "org.gimo.core.loader"
  const XmlArchiveId: string := "org.gimo.core.xml.archive"
  const ArchiveLoaderPoint: string := "org.gimo.core.loader.archive"
  const ModuleLoaderPoint: string := "org.gimo.core.loader.module"

  /** What an archive lists: plugin objects, and other objects the context skips. */
  datatype Item = PluginItem(plugin: Plugin.Plugin) | OtherItem

  /** Each installed plugin keeps its descriptor invariant. */
  predicate AllValid(plugins: map<string, Plugin.Plugin>)
  {
    forall p | p in plugins.Values :: p.Valid()
  }

  /**
   * The extension point with a global id: the id is split at its last dot
   * into a plugin id and a local id, and the installed plugin with that id
   * is searched for the local id.
   */
  function ExtPointIn(plugins: map<string, Plugin.Plugin>, extptId: string): (r: Option<ExtPoint.ExtPoint>)
    requires AllValid(plugins)
    ensures '.' !in extptId ==> r.None?
    ensures r.Some? ==>
              var pid := Utils.ParseExtensionId(extptId).0;
              pid.Some? && pid.value in plugins &&
              r.value in Plugin.Elements(plugins[pid.value].extpoints) &&
              extptId == pid.value + "." + r.value.localId
  {
    var (pid, localId) := Utils.ParseExtensionId(extptId);
    var p := Plugin.PluginIn(plugins, pid);
    if p.None? then None else p.value.GetExtPoint(localId)
  }

  /**
   * An extension point of an installed plugin is reachable under its
   * global id: the search finds one of that plugin's extension points with
   * the same local id (the array may hold several).
   */
  lemma ExtPointOfGlobalId(plugins: map<string, Plugin.Plugin>, pid: string, e: ExtPoint.ExtPoint)
    requires AllValid(plugins) && pid != "" && pid in plugins
    requires e in Plugin.Elements(plugins[pid].extpoints) && '.' !in e.localId
    ensures var r := ExtPointIn(plugins, pid + "." + e.localId);
            r.Some? && r.value.localId == e.localId && r.value in Plugin.Elements(plugins[pid].extpoints)
  {
    Utils.ParseGlobalId(pid, e.localId);
    assert e in plugins[pid].extpoints.value;
  }

  /** After its plugin is uninstalled, no extension point of it is found. */
  lemma ExtPointGoneAfterUninstall(plugins: map<string, Plugin.Plugin>, pid: string, localId: string)
    requires AllValid(plugins) && '.' !in localId
    ensures ExtPointIn(plugins - {pid}, pid + "." + localId).None?
  {
    Utils.ParseGlobalId(pid, localId);
  }

  /** The extensions of one plugin that target an extension point, in array order. */
  function TargetingIn(p: Plugin.Plugin, extptId: string): seq<Extension.Extension>
  {
    if p.extensions.None? then [] else Plugin.Targeting(p.extensions.value, extptId)
  }

  /** The extensions targeting an extension point across the plugins with the given ids, in that order. */
  function Targets(plugins: map<string, Plugin.Plugin>, ids: seq<string>, extptId: string): seq<Extension.Extension>
    requires forall k | k in ids :: k in plugins
  {
    if ids == [] then [] else TargetingIn(plugins[ids[0]], extptId) + Targets(plugins, ids[1..], extptId)
  }

  /** Only extensions of the listed plugins that target the extension point are collected. */
  lemma {:induction false} TargetsSound(plugins: map<string, Plugin.Plugin>, ids: seq<string>, extptId: string,
                                        e: Extension.Extension)
    requires forall k | k in ids :: k in plugins
    requires e in Targets(plugins, ids, extptId)
    ensures e.extpointId == extptId && exists k | k in ids :: e in Plugin.Elements(plugins[k].extensions)
  {
    if e in TargetingIn(plugins[ids[0]], extptId) {
      assert e in Plugin.Elements(plugins[ids[0]].extensions);
    } else {
      TargetsSound(plugins, ids[1..], extptId, e);
      var k :| k in ids[1..] && e in Plugin.Elements(plugins[k].extensions);
      assert k in ids;
    }
  }

  lemma {:induction false} TargetsSnoc(plugins: map<string, Plugin.Plugin>, ids: seq<string>, k: string, extptId: string)
    requires forall x | x in ids :: x in plugins
    requires k in plugins
    ensures Targets(plugins, ids + [k], extptId) == Targets(plugins, ids, extptId) + TargetingIn(plugins[k], extptId)
  {
    if ids == [] {
      assert Targets(plugins, [k], extptId) == TargetingIn(plugins[k], extptId) + Targets(plugins, [], extptId);
    } else {
      assert (ids + [k])[1..] == ids[1..] + [k];
      TargetsSnoc(plugins, ids[1..], k, extptId);
    }
  }

  /** The array gimo_context_query_extensions has built after the plugins with the given ids: NULL while empty. */
  predicate Collected(plugins: map<string, Plugin.Plugin>, ids: seq<string>, extptId: string,
                      r: Option<seq<Extension.Extension>>)
    requires forall x | x in ids :: x in plugins
  {
    (r.None? ==> Targets(plugins, ids, extptId) == []) &&
    (r.Some? ==> r.value == Targets(plugins, ids, extptId) && r.value != [])
  }

  /** One more plugin's matching extensions appended, the array created on the first. */
  lemma CollectStep(plugins: map<string, Plugin.Plugin>, ids: seq<string>, i: nat, extptId: string,
                    r: Option<seq<Extension.Extension>>, exts: Option<seq<Extension.Extension>>)
    requires forall x | x in ids :: x in plugins
    requires i < |ids| && Collected(plugins, ids[..i], extptId, r)
    requires exts.None? <==> TargetingIn(plugins[ids[i]], extptId) == []
    requires exts.Some? ==> exts.value == TargetingIn(plugins[ids[i]], extptId)
    ensures Collected(plugins, ids[..i + 1], extptId,
                      if exts.Some? then Some(if r.None? then exts.value else r.value + exts.value) else r)
  {
    var prev, next := ids[..i], ids[..i + 1];
    assert next == prev + [ids[i]];
    TargetsSnoc(plugins, prev, ids[i], extptId);
    var all, head := Targets(plugins, next, extptId), TargetingIn(plugins[ids[i]], extptId);
    assert all == Targets(plugins, prev, extptId) + head;
    if exts.None? {
      assert all == Targets(plugins, prev, extptId);
    } else if r.None? {
      assert all == head;
    }
  }

  /** Every extension of a listed plugin that targets the extension point is collected. */
  lemma {:induction false} TargetsComplete(plugins: map<string, Plugin.Plugin>, ids: seq<string>, extptId: string,
                                           k: string, e: Extension.Extension)
    requires forall x | x in ids :: x in plugins
    requires k in ids && e in Plugin.Elements(plugins[k].extensions) && e.extpointId == extptId
    ensures e in Targets(plugins, ids, extptId)
  {
    if ids[0] == k {
      assert e in plugins[k].extensions.value;
      assert e in TargetingIn(plugins[k], extptId);
    } else {
      TargetsComplete(plugins, ids[1..], extptId, k, e);
    }
  }

  /** The extensions targeting an extension point across all plugins, in ascending plugin id order. */
  ghost function AllTargets(plugins: map<string, Plugin.Plugin>, extptId: string): seq<Extension.Extension>
  {
    InOrderMembers(plugins.Keys);
    Targets(plugins, InOrder(plugins.Keys), extptId)
  }

  /** An extension is collected exactly when some installed plugin has it and it targets the extension point. */
  lemma AllTargetsMembers(plugins: map<string, Plugin.Plugin>, extptId: string, e: Extension.Extension)
    ensures e in AllTargets(plugins, extptId) <==>
              e.extpointId == extptId && exists id | id in plugins :: e in Plugin.Elements(plugins[id].extensions)
  {
    InOrderMembers(plugins.Keys);
    var ids := InOrder(plugins.Keys);
    if e in AllTargets(plugins, extptId) {
      TargetsSound(plugins, ids, extptId, e);
      var k :| k in ids && e in Plugin.Elements(plugins[k].extensions);
      assert k in plugins;
    }
    if e.extpointId == extptId {
      if id :| id in plugins && e in Plugin.Elements(plugins[id].extensions) {
        TargetsComplete(plugins, ids, extptId, id, e);
      }
    }
  }

  /**
   * A listing of the registry: every installed plugin exactly once, each
   * filed under its own id, ids strictly ascending.
   */
  predicate Listing(plugins: map<string, Plugin.Plugin>, ps: seq<Plugin.Plugin>)
  {
    |ps| == |plugins| &&
    (forall i :: 0 <= i < |ps| ==> ps[i].id.Some? && ps[i].id.value in plugins && plugins[ps[i].id.value] == ps[i]) &&
    (forall i, j :: 0 <= i < j < |ps| ==> ps[i].id.Some? && ps[j].id.Some? && Less(ps[i].id.value, ps[j].id.value)) &&
    (forall id | id in plugins :: plugins[id] in ps)
  }

  /** The plugins taken in the tree's key order form a listing. */
  lemma ListingInOrder(plugins: map<string, Plugin.Plugin>, ids: seq<string>, ps: seq<Plugin.Plugin>)
    requires forall id | id in plugins :: plugins[id].id == Some(id)
    requires ids == InOrder(plugins.Keys) && forall k | k in ids :: k in plugins
    requires |ps| == |ids| && forall i :: 0 <= i < |ps| ==> ps[i] == plugins[ids[i]]
    ensures Listing(plugins, ps)
  {
    InOrderMembers(plugins.Keys);
    InOrderIncreasing(plugins.Keys);
    forall i | 0 <= i < |ps| ensures ps[i].id == Some(ids[i]) && ids[i] in plugins {
      assert ids[i] in plugins;
    }
    forall i, j | 0 <= i < j < |ps| ensures Less(ps[i].id.value, ps[j].id.value) {
      assert ps[i].id.value == ids[i] && ps[j].id.value == ids[j];
    }
    forall id | id in plugins ensures plugins[id] in ps {
      var i :| 0 <= i < |ids| && ids[i] == id;
      assert ps[i] == plugins[id];
    }
  }

  /**
   * A plugin without requirements after gimo_plugin_start in a context: it
   * holds its module exactly when the module loads and its entry symbol
   * resolves, and it is ACTIVE exactly when it holds its module and the
   * start handlers agree.  Otherwise it stays RESOLVED with its module, or
   * INSTALLED without one.
   */
  predicate StartedAlone(p: Plugin.Plugin, loader: Option<Option<string> -> Option<object>>,
                         symbols: (object, string) -> Option<object>, handlers: Option<bool>)
    reads p
  {
    (p.runtime.Some? <==> p.Loads(loader, symbols)) &&
    (p.state == Plugin.Active <==> p.runtime.Some? && Runtime.Runtime.EmitResult(handlers)) &&
    (p.state != Plugin.Active ==> p.state == if p.runtime.Some? then Plugin.Resolved else Plugin.Installed)
  }

  class Context {
    var plugins: map<string, Plugin.Plugin>
    /** The plugin search paths, most recently added first. */
    var paths: seq<string>
    /** Every state-changed notification the context emitted. */
    const notices: Plugin.Notices
    /** The loaders the file loader plugin defines: the archive loader and the cached module loader. */
    const archiveLoader: Loader.Loader
    const moduleLoader: Loader.Loader

    /**
     * Each plugin is filed under its own id, is installed in this context
     * and keeps its descriptor invariant.
     */
    predicate Valid()
      reads this, plugins.Values
    {
      archiveLoader != moduleLoader &&
      AllValid(plugins) &&
      forall id | id in plugins :: plugins[id].id == Some(id) && plugins[id].context == this
    }

    /** A plugin that install may be given: one with a context is already filed here under its id. */
    predicate Installable(p: Plugin.Plugin)
      reads this, p
    {
      p.Valid() && (p.context != null ==> p.id.Some? && p.id.value in plugins)
    }

    /**
     * The file loader plugin is installed with its "archive" and "module"
     * extension points, and the context's loaders are bound to it under
     * those names.
     */
    predicate CoreBound(locs: Binding.Locations)
      reads this
    {
      CoreLoaderId in plugins && plugins[CoreLoaderId].Valid() &&
      plugins[CoreLoaderId].GetExtPoint("archive").Some? &&
      plugins[CoreLoaderId].GetExtPoint("module").Some? &&
      Binding.LookupObjectIn(locs, plugins[CoreLoaderId], "archive") == Some(archiveLoader as object) &&
      Binding.LookupObjectIn(locs, plugins[CoreLoaderId], "module") == Some(moduleLoader as object)
    }

    /**
     * gimo_context_new: an empty registry and no paths, then the two core
     * plugins.  The file loader plugin ("org.gimo.core.loader", extension
     * points "archive" and "module") gets a plain loader defined as
     * "archive" and a cached loader whose wildcard factory makes modules
     * defined as "module"; the XML archive plugin
     * ("org.gimo.core.xml.archive", entry symbol "gimo_xmlarchive_plugin")
     * extends "org.gimo.core.loader.archive" with "loader".  Each is
     * installed without a directory and started with the module loader.
     */
    constructor (b: Binding.Bindings, err: LastError, loader: Option<Option<string> -> Option<object>>,
                 symbols: (object, string) -> Option<object>, coreHandlers: Option<bool>, xmlHandlers: Option<bool>)
      modifies b, err
      ensures Valid() && CoreBound(b.locations)
      ensures plugins.Keys == {CoreLoaderId, XmlArchiveId} && paths == []
      ensures fresh(notices) && fresh(archiveLoader) && fresh(moduleLoader)
      ensures archiveLoader.paths == [] && archiveLoader.loaders == [] && archiveLoader.cache.None?
      ensures moduleLoader.paths == [] && moduleLoader.cache == Some(map[])
      ensures |moduleLoader.loaders| == 1 && moduleLoader.loaders[0].suffix.None?
      ensures var xml := plugins[XmlArchiveId];
              xml.symbol == Some("gimo_xmlarchive_plugin") && xml.moduleFile.None? && xml.extpoints.None? &&
              xml.extensions.Some? && |xml.extensions.value| == 1 &&
              xml.extensions.value[0].localId == "loader" && xml.extensions.value[0].extpointId == ArchiveLoaderPoint
      ensures |notices.events| > 0 &&
              notices.events[0] == Plugin.Notice(plugins[CoreLoaderId], Plugin.Uninstalled, Plugin.Installed)
      ensures StartedAlone(plugins[CoreLoaderId], loader, symbols, coreHandlers)
      ensures StartedAlone(plugins[XmlArchiveId], loader, symbols, xmlHandlers)
    {
      var n := new Plugin.Notices();
      var al := new Loader.Loader(false);
      var ml := new Loader.Loader(true);
      var factory := new object;
      var registered := ml.Register(None, factory);
      notices := n;
      archiveLoader := al;
      moduleLoader := ml;
      plugins := map[];
      paths := [];
      new;
      InstallCorePlugins(b, err, loader, symbols, coreHandlers, xmlHandlers);
    }

    /** The second half of gimo_context_new: the two core plugins, made, installed and started in turn. */
    method InstallCorePlugins(b: Binding.Bindings, err: LastError, loader: Option<Option<string> -> Option<object>>,
                              symbols: (object, string) -> Option<object>, coreHandlers: Option<bool>,
                              xmlHandlers: Option<bool>)
      requires Valid() && plugins == map[] && notices.events == []
      modifies this, b, err, notices
      ensures Valid() && CoreBound(b.locations)
      ensures plugins.Keys == {CoreLoaderId, XmlArchiveId} && paths == old(paths)
      ensures var xml := plugins[XmlArchiveId];
              xml.symbol == Some("gimo_xmlarchive_plugin") && xml.moduleFile.None? && xml.extpoints.None? &&
              xml.extensions.Some? && |xml.extensions.value| == 1 &&
              xml.extensions.value[0].localId == "loader" && xml.extensions.value[0].extpointId == ArchiveLoaderPoint
      ensures |notices.events| > 0 &&
              notices.events[0] == Plugin.Notice(plugins[CoreLoaderId], Plugin.Uninstalled, Plugin.Installed)
      ensures StartedAlone(plugins[CoreLoaderId], loader, symbols, coreHandlers)
      ensures StartedAlone(plugins[XmlArchiveId], loader, symbols, xmlHandlers)
    {
      StartCorePlugin(b, err, loader, symbols, coreHandlers);
      ghost var first := notices.events;
      StartXmlPlugin(err, loader, symbols, xmlHandlers);
      assert notices.events[0] == first[0] by {
        assert notices.events[..|first|] == first;
      }
    }

    /** The file loader plugin, with both loaders defined on it, installed and started. */
    method StartCorePlugin(b: Binding.Bindings, err: LastError, loader: Option<Option<string> -> Option<object>>,
                           symbols: (object, string) -> Option<object>, handlers: Option<bool>)
      requires Valid() && plugins == map[] && notices.events == []
      modifies this, b, err, notices
      ensures Valid() && CoreBound(b.locations)
      ensures plugins.Keys == {CoreLoaderId} && fresh(plugins[CoreLoaderId]) && paths == old(paths)
      ensures |notices.events| > 0 &&
              notices.events[0] == Plugin.Notice(plugins[CoreLoaderId], Plugin.Uninstalled, Plugin.Installed)
      ensures plugins[CoreLoaderId].requirements.None? && StartedAlone(plugins[CoreLoaderId], loader, symbols, handlers)
    {
      var core := MakeCorePlugin(b);
      var started := InstallAndStart(core, loader, symbols, handlers, err);
    }

    /** The XML archive plugin, installed and started beside the plugins already filed. */
    method StartXmlPlugin(err: LastError, loader: Option<Option<string> -> Option<object>>,
                          symbols: (object, string) -> Option<object>, handlers: Option<bool>)
      requires Valid() && XmlArchiveId !in plugins
      modifies this, plugins.Values, err, notices
      ensures Valid() && paths == old(paths)
      ensures XmlArchiveId in plugins && plugins == old(plugins)[XmlArchiveId := plugins[XmlArchiveId]]
      ensures var xml := plugins[XmlArchiveId];
              xml.symbol == Some("gimo_xmlarchive_plugin") && xml.moduleFile.None? && xml.extpoints.None? &&
              xml.extensions.Some? && |xml.extensions.value| == 1 &&
              xml.extensions.value[0].localId == "loader" && xml.extensions.value[0].extpointId == ArchiveLoaderPoint
      ensures Plugin.Extends(notices.events, old(notices.events))
      ensures StartedAlone(plugins[XmlArchiveId], loader, symbols, handlers)
      ensures forall q | q in old(plugins).Values :: unchanged(q)
    {
      var xml := MakeXmlPlugin();
      var started := InstallAndStart(xml, loader, symbols, handlers, err);
    }

    /**
     * One core plugin of gimo_context_new: installed without a directory,
     * then started.  The start succeeds exactly when the plugin ends ACTIVE:
     * its module loads with its entry symbol, its requirements hold and the
     * start handlers agree.  A plugin without requirements leaves the
     * plugins filed before it untouched.
     */
    method InstallAndStart(p: Plugin.Plugin, loader: Option<Option<string> -> Option<object>>,
                           symbols: (object, string) -> Option<object>, handlers: Option<bool>, err: LastError)
      returns (started: bool)
      requires Valid() && p.Valid() && p.context == null && p.runtime.None?
      requires p.id.Some? && p.id.value != "" && p.id.value !in plugins
      modifies this, p, plugins.Values, err, notices
      ensures Valid() && paths == old(paths)
      ensures plugins == old(plugins)[p.id.value := p]
      ensures Plugin.Extends(notices.events, old(notices.events))
      ensures |old(notices.events)| < |notices.events|
      ensures notices.events[|old(notices.events)|] == Plugin.Notice(p, Plugin.Uninstalled, Plugin.Installed)
      ensures started <==> p.state == Plugin.Active
      ensures p.runtime.Some? <==> p.Loads(loader, symbols) && Plugin.AllSatisfied(plugins, p.requirements)
      ensures p.state == Plugin.Active <==> p.runtime.Some? && Runtime.Runtime.EmitResult(handlers)
      ensures p.state != Plugin.Active ==> p.state == if p.runtime.Some? then Plugin.Resolved else Plugin.Installed
      ensures p.requirements.None? ==> StartedAlone(p, loader, symbols, handlers)
      ensures p.requirements.None? ==> forall q | q in old(plugins).Values :: unchanged(q)
    {
      var ok := InstallPlugin(None, p, err);
      ghost var installed := notices.events;
      started := p.Start(plugins, loader, symbols, handlers, err, notices);
    }

    /**
     * The file loader plugin of gimo_context_new, with the context's two
     * loaders defined on it as "archive" and "module".
     */
    method MakeCorePlugin(b: Binding.Bindings) returns (core: Plugin.Plugin)
      modifies b
      ensures fresh(core) && core.Valid() && core.context == null
      ensures core.id == Some(CoreLoaderId) && core.state == Plugin.Uninstalled
      ensures core.runtime.None? && core.requirements.None?
      ensures core.GetExtPoint("archive").Some? && core.GetExtPoint("module").Some?
      ensures Binding.LookupObjectIn(b.locations, core, "archive") == Some(archiveLoader as object)
      ensures Binding.LookupObjectIn(b.locations, core, "module") == Some(moduleLoader as object)
    {
      var archivePoint := new ExtPoint.ExtPoint("archive", Some("Object Archive Loader"));
      var modulePoint := new ExtPoint.ExtPoint("module", Some("Dynamic Module Loader"));
      core := new Plugin.Plugin(Some(CoreLoaderId), Some("File Loader"), Some("1.0"), Some("gimoapp.com"),
                                None, None, None, None, Some([archivePoint, modulePoint]), None);
      assert core !in b.locations;
      var defined := core.Define(b, "archive", archiveLoader);
      ghost var locs1 := b.locations;
      defined := core.Define(b, "module", moduleLoader);
      Binding.BindIsolated(locs1, core, "module", Binding.ObjectArg(moduleLoader), core, "archive");
    }

    /** The XML archive plugin of gimo_context_new, extending the archive loader point. */
    method MakeXmlPlugin() returns (xml: Plugin.Plugin)
      ensures fresh(xml) && xml.Valid() && xml.context == null
      ensures xml.id == Some(XmlArchiveId) && xml.state == Plugin.Uninstalled
      ensures xml.runtime.None? && xml.requirements.None?
      ensures xml.symbol == Some("gimo_xmlarchive_plugin") && xml.moduleFile.None? && xml.extpoints.None?
      ensures xml.extensions.Some? && |xml.extensions.value| == 1
      ensures xml.extensions.value[0].localId == "loader" && xml.extensions.value[0].extpointId == ArchiveLoaderPoint
    {
      var loaderExt := new Extension.Extension("loader", Some("XML Archive Loader"), ArchiveLoaderPoint, None);
      xml := new Plugin.Plugin(Some(XmlArchiveId), Some("XML Archive Plugin"), Some("1.0"), Some("gimoapp.com"),
                               None, None, Some("gimo_xmlarchive_plugin"), None, None, Some([loaderExt]));
    }

    /**
     * gimo_context_install_plugin: a NULL or empty id fails with
     * INVALID_ID, an id already filed fails with CONFLICT, and neither
     * touches the registry or notifies.  Otherwise the plugin is filed
     * under its id, installed here with the given directory, and one
     * (UNINSTALLED, INSTALLED) notification follows.
     */
    method InstallPlugin(path: Option<string>, plugin: Plugin.Plugin, err: LastError) returns (ok: bool)
      requires Valid() && Installable(plugin)
      modifies this, plugin, err
      modifies notices
      ensures Valid()
      ensures paths == old(paths)
      ensures ok <==> plugin.id.Some? && plugin.id.value != "" && plugin.id.value !in old(plugins)
      ensures (plugin.id.None? || plugin.id.value == "") ==> err.code == INVALID_ID
      ensures plugin.id.Some? && plugin.id.value != "" && plugin.id.value in old(plugins) ==> err.code == CONFLICT
      ensures !ok ==> plugins == old(plugins) && notices.events == old(notices.events) && unchanged(plugin) &&
                      err.message == old(err.message)
      ensures ok ==> plugins == old(plugins)[plugin.id.value := plugin] && unchanged(err) &&
                     plugin.context == this && plugin.state == Plugin.Installed &&
                     plugin.runtime == old(plugin.runtime) &&
                     notices.events == old(notices.events) + [Plugin.Notice(plugin, Plugin.Uninstalled, Plugin.Installed)]
      ensures ok && path.None? ==> plugin.path == old(plugin.path)
      ensures ok && path.Some? ==>
                plugin.path == if old(plugin.path).None? then path else Some(BuildPath(path.value, old(plugin.path).value))
    {
      var pluginId := plugin.id;
      if pluginId.None? || pluginId.value == "" {
        ok := err.SetErrorReturnVal(INVALID_ID, false);
        return;
      }
      if pluginId.value in plugins {
        ok := err.SetErrorReturnVal(CONFLICT, false);
        return;
      }
      plugins := plugins[pluginId.value := plugin];
      plugin.Install(this, path);
      notices.Emit(plugin, Plugin.Uninstalled, Plugin.Installed);
      ok := true;
    }

    /**
     * gimo_context_uninstall_plugin: a NULL, empty or unknown id changes
     * nothing.  Otherwise the plugin leaves the registry, and the tree's
     * destroy function uninstalls it before the (INSTALLED, UNINSTALLED)
     * notification, so observers see it already UNINSTALLED.
     */
    method UninstallPlugin(id: Option<string>)
      requires Valid()
      modifies this, plugins.Values, notices
      ensures Valid()
      ensures paths == old(paths)
      ensures id.None? || id.value == "" || id.value !in old(plugins) ==>
                plugins == old(plugins) && notices.events == old(notices.events) && unchanged(old(plugins.Values))
      ensures id.Some? && id.value != "" && id.value in old(plugins) ==>
                var p := old(plugins)[id.value];
                plugins == old(plugins) - {id.value} &&
                p.context == null && p.runtime.None? && p.state == Plugin.Uninstalled &&
                notices.events == old(notices.events) + [Plugin.Notice(p, Plugin.Installed, Plugin.Uninstalled)] &&
                forall q | q in plugins.Values :: unchanged(q)
    {
      if id.None? || id.value == "" {
        return;
      }
      if id.value !in plugins {
        return;
      }
      var p := plugins[id.value];
      plugins := plugins - {id.value};
      p.Uninstall();
      notices.Emit(p, Plugin.Installed, Plugin.Uninstalled);
    }

    /** gimo_context_query_plugin. */
    method QueryPlugin(id: Option<string>, err: LastError) returns (r: Option<Plugin.Plugin>)
      modifies err
      ensures r == Plugin.PluginIn(plugins, id)
      ensures id.Some? && id.value != "" && id.value !in plugins ==>
                err.code == NO_PLUGIN && err.message == Some("GimoContext query plugin failed: " + id.value)
      ensures !(id.Some? && id.value != "" && id.value !in plugins) ==>
                err.code == old(err.code) && err.message == old(err.message)
    {
      r := Plugin.QueryPluginIn(plugins, id, err);
    }

    /**
     * gimo_context_query_plugins: NULL for an empty registry, otherwise
     * every installed plugin once, in ascending id order.
     */
    method QueryPlugins() returns (r: Option<seq<Plugin.Plugin>>)
      requires Valid()
      ensures r.None? <==> plugins == map[]
      ensures r.Some? ==> Listing(plugins, r.value)
    {
      if |plugins| == 0 {
        return None;
      }
      var ids := SortedKeys(plugins.Keys);
      InOrderMembers(plugins.Keys);
      var ps := Loader.ValuesAt(plugins, ids);
      ListingInOrder(plugins, ids, ps);
      r := Some(ps);
    }

    /**
     * gimo_context_query_extpoint: the id is split at its last dot; no dot
     * gives NULL quietly, an unknown plugin gives NULL (and NO_PLUGIN from
     * the plugin query), and a plugin without that local id gives NULL and
     * NO_EXTPOINT.
     */
    method QueryExtPoint(extptId: string, err: LastError) returns (r: Option<ExtPoint.ExtPoint>)
      requires Valid()
      modifies err
      ensures r == ExtPointIn(plugins, extptId)
      ensures var (pid, localId) := Utils.ParseExtensionId(extptId);
              pid.Some? && pid.value != "" && pid.value in plugins && r.None? ==>
                err.code == NO_EXTPOINT &&
                err.message == Some("GimoContext query extpoint failed: " + pid.value + ": " + localId)
      ensures var pid := Utils.ParseExtensionId(extptId).0;
              pid.Some? && pid.value != "" && pid.value !in plugins ==>
                err.code == NO_PLUGIN && err.message == Some("GimoContext query plugin failed: " + pid.value)
      ensures r.Some? || Utils.ParseExtensionId(extptId).0.None? ==>
                err.code == old(err.code) && err.message == old(err.message)
    {
      var (pid, localId) := Utils.ParseExtensionId(extptId);
      if pid.None? {
        return None;
      }
      var p := QueryPlugin(pid, err);
      if p.None? {
        return None;
      }
      r := p.value.GetExtPoint(localId);
      if r.None? {
        err.SetErrorFull(NO_EXTPOINT, Some("GimoContext query extpoint failed: " + pid.value + ": " + localId));
      }
    }

    /**
     * gimo_context_query_extensions: the extensions targeting extptId of
     * every installed plugin, plugins in ascending id order, each plugin's
     * in its array order; NULL when there are none.
     */
    method QueryExtensions(extptId: string) returns (r: Option<seq<Extension.Extension>>)
      ensures r.None? <==> AllTargets(plugins, extptId) == []
      ensures r.Some? ==> r.value == AllTargets(plugins, extptId)
    {
      var ids := SortedKeys(plugins.Keys);
      InOrderMembers(plugins.Keys);
      r := None;
      var i := 0;
      while i < |ids|
        invariant 0 <= i <= |ids|
        invariant Collected(plugins, ids[..i], extptId, r)
      {
        var exts := plugins[ids[i]].QueryExtensions(extptId);
        var next := if exts.Some? then Some(if r.None? then exts.value else r.value + exts.value) else r;
        CollectStep(plugins, ids, i, extptId, r, exts);
        r := next;
        i := i + 1;
      }
      assert ids[..i] == ids;
    }

    /**
     * gimo_context_resolve_extpoint: the extension point's owner resolves
     * the extension point's local id; NULL when there is no such extension
     * point.
     */
    method ResolveExtPoint(extptId: string, b: Binding.Bindings, loader: Option<Option<string> -> Option<object>>,
                           symbols: (object, string) -> Option<object>, err: LastError)
      returns (r: Option<object>)
      requires Valid()
      modifies plugins.Values, err, notices
      ensures Valid()
      ensures ExtPointIn(plugins, extptId).None? ==> r.None?
      ensures ExtPointIn(plugins, extptId).Some? ==>
                var owner := plugins[Utils.ParseExtensionId(extptId).0.value];
                var localId := ExtPointIn(plugins, extptId).value.localId;
                var bound := Binding.LookupObjectIn(b.locations, owner, localId);
                (bound.Some? ==> r == bound) &&
                (bound.None? && owner.runtime.None? ==> r.None?) &&
                (bound.None? && owner.runtime.Some? ==> r == symbols(owner.runtime.value, localId))
      ensures forall id | id in plugins :: plugins[id].context == old(plugins[id].context)
    {
      var e := QueryExtPoint(extptId, err);
      if e.None? {
        return None;
      }
      // gimo_ext_point_query_plugin gives the point's owner.  The point was
      // found among the extension points of the plugin filed under the id's
      // prefix; the plugin constructor adopted each of them, and only
      // finalizing the plugin, once it has left the registry, drops that
      // owner.  So the owner is the filed plugin.
      var owner := plugins[Utils.ParseExtensionId(extptId).0.value];
      r := owner.Resolve(b, e.value.localId, plugins, loader, symbols, err, notices);
    }

    /** The core extension points resolve to the context's loaders while the file loader plugin holds them. */
    lemma CoreLoaderPoints()
      requires AllValid(plugins) && CoreLoaderId in plugins
      ensures Utils.ParseExtensionId(ArchiveLoaderPoint) == (Some(CoreLoaderId), "archive")
      ensures Utils.ParseExtensionId(ModuleLoaderPoint) == (Some(CoreLoaderId), "module")
      ensures ExtPointIn(plugins, ArchiveLoaderPoint) == plugins[CoreLoaderId].GetExtPoint("archive")
      ensures ExtPointIn(plugins, ModuleLoaderPoint) == plugins[CoreLoaderId].GetExtPoint("module")
    {
      assert ArchiveLoaderPoint == CoreLoaderId + "." + "archive";
      assert ModuleLoaderPoint == CoreLoaderId + "." + "module";
      Utils.ParseGlobalId(CoreLoaderId, "archive");
      Utils.ParseGlobalId(CoreLoaderId, "module");
    }

    /**
     * The two resolutions gimo_context_add_paths starts with: the archive
     * and module loader extension points must resolve to loaders (the
     * cast to a loader only recognises the context's own two), which they
     * do while the file loader plugin holds them.
     */
    method ResolveLoaders(b: Binding.Bindings, loader: Option<Option<string> -> Option<object>>,
                          symbols: (object, string) -> Option<object>, err: LastError)
      returns (found: bool)
      requires Valid()
      modifies plugins.Values, err, notices
      ensures Valid()
      ensures old(CoreBound(b.locations)) ==> found
    {
      ghost var core := CoreBound(b.locations);
      if core {
        CoreLoaderPoints();
      }
      var a := ResolveExtPoint(ArchiveLoaderPoint, b, loader, symbols, err);
      assert core ==> a == Some(archiveLoader as object);
      if a != Some(archiveLoader as object) {
        return false;
      }
      var m := ResolveExtPoint(ModuleLoaderPoint, b, loader, symbols, err);
      assert core ==> m == Some(moduleLoader as object);
      found := m == Some(moduleLoader as object);
    }

    /** The loop of gimo_context_add_paths: each ':'-separated directory is pushed at the head. */
    method PushPaths(list: string)
      requires Valid()
      modifies this
      ensures Valid() && plugins == old(plugins)
      ensures paths == Loader.Reversed(Split(list, ':')) + old(paths)
    {
      var dirs := Split(list, ':');
      var i := 0;
      while i < |dirs|
        invariant 0 <= i <= |dirs|
        invariant Valid() && plugins == old(plugins)
        invariant paths == Loader.Reversed(dirs[..i]) + old(paths)
      {
        Loader.ReversedSnoc(dirs[..i], dirs[i]);
        assert dirs[..i + 1] == dirs[..i] + [dirs[i]];
        paths := [dirs[i]] + paths;
        i := i + 1;
      }
      assert dirs[..i] == dirs;
    }

    /**
     * gimo_context_add_paths: NULL changes nothing; so does a context whose
     * archive or module loader does not resolve.  Otherwise every
     * ':'-separated directory is pushed at the head of the context's paths,
     * and both loaders are given the list too.
     */
    method AddPaths(list: Option<string>, b: Binding.Bindings, loader: Option<Option<string> -> Option<object>>,
                    symbols: (object, string) -> Option<object>, err: LastError)
      returns (ghost applied: bool)
      requires Valid()
      modifies this, plugins.Values, err, notices, archiveLoader, moduleLoader
      ensures Valid() && plugins == old(plugins)
      ensures list.Some? && old(CoreBound(b.locations)) ==> applied
      ensures applied ==> list.Some? && paths == Loader.Reversed(Split(list.value, ':')) + old(paths)
      ensures applied ==> archiveLoader.paths == Loader.Reversed(Split(list.value, ':')) + old(archiveLoader.paths)
      ensures applied ==> moduleLoader.paths == Loader.Reversed(Split(list.value, ':')) + old(moduleLoader.paths)
      ensures !applied ==> paths == old(paths) && unchanged(archiveLoader, moduleLoader)
      ensures archiveLoader.loaders == old(archiveLoader.loaders) && archiveLoader.cache == old(archiveLoader.cache)
      ensures moduleLoader.loaders == old(moduleLoader.loaders) && moduleLoader.cache == old(moduleLoader.cache)
    {
      applied := false;
      if list.None? {
        return;
      }
      var found := ResolveLoaders(b, loader, symbols, err);
      if !found {
        return;
      }
      PushPaths(list.value);
      archiveLoader.AddPaths(list);
      moduleLoader.AddPaths(list);
      applied := true;
    }

    /** One object of an archive: a plugin is installed, any other object skipped. */
    method InstallItem(curPath: Option<string>, item: Item, err: LastError) returns (ok: bool)
      requires Valid() && (item.PluginItem? ==> Installable(item.plugin))
      modifies this, err, notices, if item.PluginItem? then {item.plugin} else {}
      ensures Valid()
      ensures ok <==> item.PluginItem? && !Filed(old(plugins.Keys), item.plugin)
      ensures ok ==> plugins == old(plugins)[item.plugin.id.value := item.plugin]
      ensures !ok ==> plugins == old(plugins)
      ensures old(plugins.Keys) <= plugins.Keys && |plugins| == |old(plugins)| + (if ok then 1 else 0)
      ensures item.PluginItem? ==> Installable(item.plugin) && Filed(plugins.Keys, item.plugin)
    {
      ok := false;
      if item.PluginItem? {
        ok := InstallPlugin(curPath, item.plugin, err);
      }
    }

    /** The plugin is filed in the registry under its own id. */
    predicate Registered(p: Plugin.Plugin)
      reads this
    {
      p.id.Some? && p.id.value in plugins && plugins[p.id.value] == p
    }

    /** Each of the plugins is filed in the registry under its own id. */
    predicate AllRegistered(ps: seq<Plugin.Plugin>)
      reads this
    {
      forall p | p in ps :: Registered(p)
    }

    /** The archive's i-th item given to install; the other listed plugins stay installable. */
    method InstallAt(curPath: Option<string>, objects: seq<Item>, i: nat, err: LastError, ghost before: set<string>,
                     ghost loaded: seq<Plugin.Plugin>)
      returns (ok: bool)
      requires Valid() && AllInstallable(objects) && i < |objects| && AllFiled(plugins.Keys, objects[..i])
      requires before <= plugins.Keys && AllRegistered(loaded)
      modifies this, err, notices, PluginsOf(objects)
      ensures Valid() && AllInstallable(objects) && AllFiled(plugins.Keys, objects[..i + 1])
      ensures ok <==> objects[i].PluginItem? && !Filed(old(plugins.Keys), objects[i].plugin)
      ensures AllFiled(before, objects) ==> !ok
      ensures !ok ==> plugins == old(plugins)
      ensures AllRegistered(if ok then loaded + [objects[i].plugin] else loaded)
      ensures old(plugins.Keys) <= plugins.Keys && |plugins| == |old(plugins)| + (if ok then 1 else 0)
    {
      ghost var keys := plugins.Keys;
      if AllFiled(before, objects) {
        FiledGrows(before, keys, objects);
      }
      ok := InstallItem(curPath, objects[i], err);
      FiledGrows(keys, plugins.Keys, objects[..i]);
      assert objects[..i + 1] == objects[..i] + [objects[i]];
    }

    /** Every plugin an archive lists may be given to install. */
    predicate AllInstallable(objects: seq<Item>)
      reads this, PluginsOf(objects)
    {
      forall j :: 0 <= j < |objects| && objects[j].PluginItem? ==> Installable(objects[j].plugin)
    }

    /**
     * _gimo_context_load_plugin once the archive is read: every plugin
     * object the archive lists is installed with the archive's directory;
     * the count is the number of installs that succeeded, and the array
     * receives those plugins in archive order.  An archive that did not
     * load counts nothing.
     */
    method LoadArchive(curPath: Option<string>, items: Option<seq<Item>>, err: LastError)
      returns (count: nat, loaded: seq<Plugin.Plugin>)
      requires Valid()
      requires items.Some? ==> AllInstallable(items.value)
      modifies this, err, notices, if items.Some? then PluginsOf(items.value) else {}
      ensures Valid()
      ensures count == |loaded| && count == |plugins| - |old(plugins)|
      ensures old(plugins.Keys) <= plugins.Keys
      ensures forall p | p in loaded :: Registered(p)
      ensures items.None? ==> count == 0
      ensures items.Some? ==> AllInstallable(items.value) && AllFiled(plugins.Keys, items.value)
      ensures items.Some? && AllFiled(old(plugins.Keys), items.value) ==> count == 0
    {
      count := 0;
      loaded := [];
      if items.None? {
        return;
      }
      count, loaded := InstallItems(curPath, items.value, err);
    }

    /** The loop of _gimo_context_load_plugin over the archive's objects. */
    method InstallItems(curPath: Option<string>, objects: seq<Item>, err: LastError)
      returns (count: nat, loaded: seq<Plugin.Plugin>)
      requires Valid() && AllInstallable(objects)
      modifies this, err, notices, PluginsOf(objects)
      ensures Valid()
      ensures count == |loaded| && count == |plugins| - |old(plugins)|
      ensures old(plugins.Keys) <= plugins.Keys
      ensures forall p | p in loaded :: Registered(p)
      ensures AllInstallable(objects) && AllFiled(plugins.Keys, objects)
      ensures AllFiled(old(plugins.Keys), objects) ==> count == 0
    {
      count := 0;
      loaded := [];
      ghost var before := plugins;
      var i := 0;
      while i < |objects|
        invariant 0 <= i <= |objects|
        invariant Valid() && AllInstallable(objects) && AllFiled(plugins.Keys, objects[..i])
        invariant count == |loaded| && count == |plugins| - |before|
        invariant before.Keys <= plugins.Keys
        invariant AllRegistered(loaded)
        invariant AllFiled(before.Keys, objects) ==> count == 0
      {
        var ok := InstallAt(curPath, objects, i, err, before.Keys, loaded);
        if ok {
          loaded := loaded + [objects[i].plugin];
          count := count + 1;
        }
        i := i + 1;
      }
      assert objects[..i] == objects;
    }
  }

  /** The plugins an archive lists. */
  function PluginsOf(objects: seq<Item>): (r: set<Plugin.Plugin>)
    ensures forall i :: 0 <= i < |objects| && objects[i].PluginItem? ==> objects[i].plugin in r
  {
    set i | 0 <= i < |objects| && objects[i].PluginItem? :: objects[i].plugin
  }

  /** The plugin's id is NULL, empty, or already in the registry: installing it does nothing. */
  predicate Filed(keys: set<string>, p: Plugin.Plugin)
  {
    p.id.None? || p.id.value == "" || p.id.value in keys
  }

  predicate AllFiled(keys: set<string>, items: seq<Item>)
  {
    forall i :: 0 <= i < |items| && items[i].PluginItem? ==> Filed(keys, items[i].plugin)
  }

  lemma FiledGrows(keys: set<string>, more: set<string>, items: seq<Item>)
    requires keys <= more && AllFiled(keys, items)
    ensures AllFiled(more, items)
  {
  }

  /** Loading the same archive twice: the second load installs nothing. */
  method ReloadScenario(ctx: Context, curPath: Option<string>, items: seq<Item>, err: LastError)
    returns (first: nat, second: nat)
    requires ctx.Valid()
    requires ctx.AllInstallable(items)
    modifies ctx, err, ctx.notices, PluginsOf(items)
    ensures second == 0
  {
    var l1, l2;
    first, l1 := ctx.LoadArchive(curPath, Some(items), err);
    second, l2 := ctx.LoadArchive(curPath, Some(items), err);
  }
}
