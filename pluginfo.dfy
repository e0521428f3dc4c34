/**
 * The earlier plugin descriptor, GimoPluginfo: the descriptor's strings and
 * arrays, fixed at construction, plus the owning context, the cached
 * plugin object and the state.  Loading the plugin object for a descriptor
 * is a parameter (`load`); the descriptors a context knows are a map from
 * identifier to descriptor (`registry`).
 */
module Pluginfo {
  import opened Wrappers
  import opened Require
  import Plugin
  import ExtPoint
  import Extension

  /**
   * _gimo_pluginfo_clone_array: NULL stays NULL; otherwise the same
   * elements in the same order, each handed to the setup hook, when there
   * is one, in that order.
   */
  method CloneArray<T>(arr: Option<seq<T>>, hook: bool) returns (r: Option<seq<T>>, hooked: seq<T>)
    ensures r == arr
    ensures hooked == if hook && arr.Some? then arr.value else []
  {
    if arr.None? {
      return None, [];
    }
    var items := arr.value;
    var result: seq<T> := [];
    hooked := [];
    var i := 0;
    while i < |items|
      invariant 0 <= i <= |items|
      invariant result == items[..i]
      invariant hooked == if hook then items[..i] else []
    {
      result := result + [items[i]];
      if hook {
        hooked := hooked + [items[i]];
      }
      i := i + 1;
    }
    assert items[..i] == items;
    r := Some(result);
  }

  /** The descriptor a context knows under an identifier; none for NULL or an unknown one. */
  function InfoIn(registry: map<string, Pluginfo>, id: Option<string>): (r: Option<Pluginfo>)
    ensures r.Some? <==> id.Some? && id.value in registry
    ensures r.Some? ==> r.value == registry[id.value]
  {
    if id.Some? && id.value in registry then Some(registry[id.value]) else None
  }

  /** A requirement names a known descriptor whose plugin object is loaded. */
  predicate Satisfied(registry: map<string, Pluginfo>, req: Require)
    reads registry.Values
  {
    InfoIn(registry, req.pluginId).Some? && InfoIn(registry, req.pluginId).value.plugin.Some?
  }

  predicate AllSatisfied(registry: map<string, Pluginfo>, reqs: Option<seq<Require>>)
    reads registry.Values
  {
    reqs.Some? ==> forall i :: 0 <= i < |reqs.value| ==> Satisfied(registry, reqs.value[i])
  }

  /** Known descriptors without a plugin object, with `p` too while it has none. */
  ghost function Pending(registry: map<string, Pluginfo>, p: Pluginfo): set<Pluginfo>
    reads registry.Values, p
  {
    (set q | q in registry.Values && q.plugin.None?) + (if p.plugin.None? then {p} else {})
  }

  /** A descriptor that held a plugin object keeps it and its state; no descriptor changes context. */
  twostate predicate Settled(registry: map<string, Pluginfo>)
    reads registry.Values
  {
    forall q | q in registry.Values ::
      q.context == old(q.context) &&
      (old(q.plugin).Some? ==> q.plugin == old(q.plugin) && q.state == old(q.state))
  }

  class Pluginfo {
    const identifier: Option<string>
    const url: Option<string>
    const symbol: Option<string>
    const name: Option<string>
    const version: Option<string>
    const provider: Option<string>
    const requirements: Option<seq<Require>>
    const extpoints: Option<seq<ExtPoint.ExtPoint>>
    const extensions: Option<seq<Extension.Extension>>
    /** The context the descriptor is installed in (a weak back-reference). */
    var context: object?
    /** The plugin object, once loaded. */
    var plugin: Option<object>
    var state: Plugin.State

    /**
     * gimo_pluginfo_new: the strings as given, each array cloned (NULL
     * stays NULL), no context, no plugin object, UNINSTALLED.
     */
    constructor (identifier: Option<string>, url: Option<string>, symbol: Option<string>, name: Option<string>,
                 version: Option<string>, provider: Option<string>, requirements: Option<seq<Require>>,
                 extpoints: Option<seq<ExtPoint.ExtPoint>>, extensions: Option<seq<Extension.Extension>>)
      ensures this.identifier == identifier && this.url == url && this.symbol == symbol && this.name == name
      ensures this.version == version && this.provider == provider
      ensures this.requirements == requirements && this.extpoints == extpoints && this.extensions == extensions
      ensures context == null && plugin.None? && state == Plugin.Uninstalled
    {
      var reqs, noHook := CloneArray(requirements, false);
      var points, pointsHooked := CloneArray(extpoints, true);
      var exts, extsHooked := CloneArray(extensions, true);
      this.identifier := identifier;
      this.url := url;
      this.symbol := symbol;
      this.name := name;
      this.version := version;
      this.provider := provider;
      this.requirements := reqs;
      this.extpoints := points;
      this.extensions := exts;
      context := null;
      plugin := None;
      state := Plugin.Uninstalled;
    }

    /** What finalisation asserts: neither a context nor a plugin object remains. */
    predicate CanFinalize()
      reads this
    {
      context == null && plugin.None?
    }

    /** _gimo_pluginfo_install: asserts there is no context yet, then adopts it and becomes INSTALLED. */
    method Install(ctx: object)
      requires context == null
      modifies this
      ensures context == ctx && state == Plugin.Installed && plugin == old(plugin)
    {
      context := ctx;
      state := Plugin.Installed;
    }

    /** _gimo_pluginfo_uninstall: drops the context and becomes UNINSTALLED. */
    method Uninstall()
      modifies this
      ensures context == null && state == Plugin.Uninstalled && plugin == old(plugin)
    {
      context := null;
      state := Plugin.Uninstalled;
    }

    /**
     * _gimo_pluginfo_load_plugin: a cached plugin object is returned at
     * once; otherwise, with a context, the object is loaded, cached and the
     * descriptor becomes RESOLVED, then every required descriptor is loaded
     * in turn.  If one is unknown or fails, the cached object is dropped and
     * the state goes back to INSTALLED; on success one (INSTALLED, RESOLVED)
     * notification is emitted.  The result is the object cached after the
     * call.
     */
    method LoadPlugin(registry: map<string, Pluginfo>, load: Pluginfo -> Option<object>, log: Plugin.Notices)
      returns (r: Option<object>)
      modifies this, registry.Values, log
      ensures r == plugin && context == old(context)
      ensures old(plugin).Some? ==> plugin == old(plugin) && state == old(state)
      ensures Settled(registry)
      ensures Plugin.Extends(log.events, old(log.events))
      ensures old(plugin).None? && r.Some? ==>
                context != null && r == load(this) && state == Plugin.Resolved && AllSatisfied(registry, requirements) &&
                |log.events| > 0 && log.events[|log.events| - 1] == Plugin.Notice(this, Plugin.Installed, Plugin.Resolved)
      ensures old(plugin).None? && context != null && load(this).Some? ==>
                (r.Some? <==> AllSatisfied(registry, requirements)) && (r.None? ==> state == Plugin.Installed)
      ensures old(plugin).None? && (context == null || load(this).None?) ==> r.None? && state == old(state)
      decreases Pending(registry, this), 1
    {
      if plugin.Some? {
        return plugin;
      }
      if context == null {
        return None;
      }
      var loaded := load(this);
      if loaded.None? {
        return None;
      }
      plugin := loaded;
      state := Plugin.Resolved;
      r := plugin;
      var satisfied := LoadRequires(registry, load, log, old(Pending(registry, this)));
      if !satisfied {
        ghost var k :| 0 <= k < |requirements.value| && !Satisfied(registry, requirements.value[k]);
        plugin := None;
        state := Plugin.Installed;
        assert !Satisfied(registry, requirements.value[k]);
        return None;
      }
      log.Emit(this, Plugin.Installed, Plugin.Resolved);
    }

    /**
     * The loop of _gimo_pluginfo_load_plugin over the requirements: each
     * named descriptor is looked up and loaded, stopping at the first that
     * is unknown or fails; an optional requirement is treated like any other.
     */
    method LoadRequires(registry: map<string, Pluginfo>, load: Pluginfo -> Option<object>, log: Plugin.Notices,
                        ghost budget: set<Pluginfo>)
      returns (ok: bool)
      requires plugin.Some? && this in budget
      requires forall q | q in registry.Values && q.plugin.None? :: q in budget
      modifies registry.Values, log
      ensures plugin == old(plugin) && state == old(state) && context == old(context)
      ensures Settled(registry)
      ensures Plugin.Extends(log.events, old(log.events))
      ensures ok <==> AllSatisfied(registry, requirements)
      decreases budget, 0
    {
      if requirements.None? {
        return true;
      }
      var reqs := requirements.value;
      var i := 0;
      while i < |reqs|
        invariant 0 <= i <= |reqs|
        invariant plugin == old(plugin) && state == old(state) && context == old(context)
        invariant Settled(registry)
        invariant Plugin.Extends(log.events, old(log.events))
        invariant forall j :: 0 <= j < i ==> Satisfied(registry, reqs[j])
      {
        var info := InfoIn(registry, reqs[i].pluginId);
        if info.None? {
          return false;
        }
        assert this !in Pending(registry, info.value);
        var p := info.value.LoadPlugin(registry, load, log);
        if p.None? {
          return false;
        }
        i := i + 1;
      }
      ok := true;
    }

    /**
     * gimo_pluginfo_resolve: loads the plugin object as load_plugin does
     * and always answers NULL, whatever the symbol.
     */
    method Resolve(symbolName: string, registry: map<string, Pluginfo>, load: Pluginfo -> Option<object>,
                   log: Plugin.Notices)
      returns (r: Option<object>)
      modifies this, registry.Values, log
      ensures r.None?
      ensures context == old(context) && Settled(registry)
      ensures old(plugin).Some? ==> plugin == old(plugin) && state == old(state)
      ensures old(plugin).None? && context != null && load(this).Some? ==>
                (plugin.Some? <==> AllSatisfied(registry, requirements))
    {
      var loaded := LoadPlugin(registry, load, log);
      r := None;
    }
  }

  /** A descriptor's life without loading: new, installed, uninstalled, and then it may be finalised. */
  method Lifecycle(ctx: object) returns (installed: Plugin.State, uninstalled: Plugin.State, finalizable: bool)
    ensures installed == Plugin.Installed && uninstalled == Plugin.Uninstalled && finalizable
  {
    var info := new Pluginfo(Some("org.example.p"), None, None, None, None, None, None, None, None);
    info.Install(ctx);
    installed := info.state;
    info.Uninstall();
    uninstalled := info.state;
    finalizable := info.CanFinalize();
  }

  /** An installed descriptor without requirements loads its object, becomes RESOLVED and announces it. */
  method LoadAlone(ctx: object, obj: object) returns (r: Option<object>, state: Plugin.State, events: seq<Plugin.Notice>)
    ensures r == Some(obj) && state == Plugin.Resolved
    ensures |events| > 0 && events[|events| - 1].from == Plugin.Installed && events[|events| - 1].to == Plugin.Resolved
  {
    var info := new Pluginfo(Some("a"), None, None, None, None, None, None, None, None);
    info.Install(ctx);
    var log := new Plugin.Notices();
    r := info.LoadPlugin(map["a" := info], (p: Pluginfo) => Some(obj), log);
    state := info.state;
    events := log.events;
  }
}
