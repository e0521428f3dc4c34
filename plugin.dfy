/**
 * A plugin: an immutable descriptor (id, name, version, provider, module
 * file, entry symbol, requirements, extension points and extensions) plus
 * the mutable lifecycle fields a context drives: the owning context, the
 * plugin's directory, the loaded module ("runtime") and the state.
 *
 * Loading a module, resolving a symbol in it and the return value of the
 * start handlers are parameters: `loader` is the module loader in effect
 * (the one passed in, or the one the context resolves; None when there is
 * none), `symbols` answers a symbol lookup in a loaded module.
 */
module Plugin {
  import opened Wrappers
  import opened Str
  import opened Sorting
  import opened ErrorSlot
  import opened Require
  import ExtPoint
  import Extension
  import Binding
  import Runtime

  /** GimoPluginState, in declaration order. */
  datatype State = Uninstalled | Installed | Resolved | Starting | Stopping | Active

  /** One state-changed notification: the plugin and its old and new state. */
  datatype Notice = Notice(plugin: object, from: State, to: State)

  /** The observers of a context's state-changed signal: every notification, in emission order. */
  class Notices {
    var events: seq<Notice>

    constructor ()
      ensures events == []
    {
      events := [];
    }

    method Emit(p: object, from: State, to: State)
      modifies this
      ensures events == old(events) + [Notice(p, from, to)]
    {
      events := events + [Notice(p, from, to)];
    }
  }

  /** The elements of an optional array. */
  function Elements<T>(a: Option<seq<T>>): (r: set<T>)
    ensures a.None? ==> r == {}
    ensures a.Some? ==> (forall x | x in r :: x in a.value) && (forall x | x in a.value :: x in r)
  {
    if a.None? then {} else set x | x in a.value
  }

  /** Elements that no plugin has adopted yet, none of them twice. */
  predicate UnownedPoints(points: seq<ExtPoint.ExtPoint>)
    reads points
  {
    Distinct(points) && forall i :: 0 <= i < |points| ==> points[i].id.None?
  }

  predicate UnownedExtensions(exts: seq<Extension.Extension>)
    reads exts
  {
    Distinct(exts) && forall i :: 0 <= i < |exts| ==> exts[i].id.None?
  }

  /**
   * _gimo_clone_object_array with _gimo_ext_point_setup: every element
   * adopts the owner, in array order.
   */
  method SetupPoints(points: seq<ExtPoint.ExtPoint>, owner: object, ownerId: Option<string>)
    requires UnownedPoints(points)
    modifies points
    ensures forall i :: 0 <= i < |points| ==>
              points[i].plugin == owner && points[i].id == Some(ExtPoint.GlobalId(ownerId, points[i].localId))
  {
    var i := 0;
    while i < |points|
      invariant 0 <= i <= |points|
      invariant forall j :: 0 <= j < i ==>
                  points[j].plugin == owner && points[j].id == Some(ExtPoint.GlobalId(ownerId, points[j].localId))
      invariant forall j :: i <= j < |points| ==> points[j].id.None?
    {
      points[i].Setup(owner, ownerId);
      i := i + 1;
    }
  }

  /** _gimo_clone_object_array with _gimo_extension_setup. */
  method SetupExtensions(exts: seq<Extension.Extension>, owner: object, ownerId: Option<string>)
    requires UnownedExtensions(exts)
    modifies exts
    ensures forall i :: 0 <= i < |exts| ==>
              exts[i].plugin == owner && exts[i].id == Some(ExtPoint.GlobalId(ownerId, exts[i].localId))
  {
    var i := 0;
    while i < |exts|
      invariant 0 <= i <= |exts|
      invariant forall j :: 0 <= j < i ==>
                  exts[j].plugin == owner && exts[j].id == Some(ExtPoint.GlobalId(ownerId, exts[j].localId))
      invariant forall j :: i <= j < |exts| ==> exts[j].id.None?
    {
      exts[i].Setup(owner, ownerId);
      i := i + 1;
    }
  }

  /** The setup of gimo_plugin_new on a sorted copy: each element once, each adopted by the owner. */
  method AdoptPoints(points: seq<ExtPoint.ExtPoint>, sorted: seq<ExtPoint.ExtPoint>, owner: object, ownerId: Option<string>)
    requires UnownedPoints(points) && multiset(sorted) == multiset(points)
    modifies points
    ensures Distinct(sorted)
    ensures forall e | e in sorted :: e.plugin == owner && e.id == Some(ExtPoint.GlobalId(ownerId, e.localId))
  {
    PermutationKeepsDistinct(points, sorted);
    SetupPoints(points, owner, ownerId);
    forall e | e in sorted ensures e in points {
      assert e in multiset(sorted);
    }
  }

  method AdoptExtensions(exts: seq<Extension.Extension>, sorted: seq<Extension.Extension>, owner: object,
                         ownerId: Option<string>)
    requires UnownedExtensions(exts) && multiset(sorted) == multiset(exts)
    modifies exts
    ensures Distinct(sorted)
    ensures forall e | e in sorted :: e.plugin == owner && e.id == Some(ExtPoint.GlobalId(ownerId, e.localId))
  {
    PermutationKeepsDistinct(exts, sorted);
    SetupExtensions(exts, owner, ownerId);
    forall e | e in sorted ensures e in exts {
      assert e in multiset(sorted);
    }
  }

  /** The extensions of an array that target the given extension point, in array order. */
  function Targeting(exts: seq<Extension.Extension>, extptId: string): (r: seq<Extension.Extension>)
    ensures forall e | e in r :: e in exts && e.extpointId == extptId
    ensures forall e | e in exts && e.extpointId == extptId :: e in r
    ensures |r| <= |exts|
  {
    if exts == [] then []
    else (if exts[0].extpointId == extptId then [exts[0]] else []) + Targeting(exts[1..], extptId)
  }

  lemma {:induction false} TargetingSnoc(exts: seq<Extension.Extension>, e: Extension.Extension, extptId: string)
    ensures Targeting(exts + [e], extptId) == Targeting(exts, extptId) + (if e.extpointId == extptId then [e] else [])
  {
    if exts != [] {
      assert (exts + [e])[1..] == exts[1..] + [e];
      TargetingSnoc(exts[1..], e, extptId);
    } else {
      assert Targeting([e], extptId) == (if e.extpointId == extptId then [e] else []) + Targeting([], extptId);
    }
  }

  /** The plugin installed under an id: none for NULL, the empty string or an unknown id. */
  function PluginIn(registry: map<string, Plugin>, id: Option<string>): (r: Option<Plugin>)
    ensures r.Some? <==> id.Some? && id.value != "" && id.value in registry
    ensures r.Some? ==> r.value == registry[id.value]
  {
    if id.None? || id.value == "" || id.value !in registry then None else Some(registry[id.value])
  }

  /**
   * gimo_context_query_plugin over a registry: NULL or empty ids give NULL
   * quietly, an unknown id gives NULL and NO_PLUGIN.
   */
  method QueryPluginIn(registry: map<string, Plugin>, id: Option<string>, err: LastError) returns (r: Option<Plugin>)
    modifies err
    ensures r == PluginIn(registry, id)
    ensures id.Some? && id.value != "" && id.value !in registry ==>
              err.code == NO_PLUGIN && err.message == Some("GimoContext query plugin failed: " + id.value)
    ensures !(id.Some? && id.value != "" && id.value !in registry) ==>
              err.code == old(err.code) && err.message == old(err.message)
  {
    if id.None? || id.value == "" {
      return None;
    }
    if id.value in registry {
      return Some(registry[id.value]);
    }
    err.SetErrorFull(NO_PLUGIN, Some("GimoContext query plugin failed: " + id.value));
    r := None;
  }

  /** The message of a failed module load; printf prints a NULL string as "(null)". */
  function LoadFailure(moduleFile: Option<string>, symbol: Option<string>): string
  {
    "GimoPlugin load module error: " + ExtPoint.Printed(moduleFile) + ": " + ExtPoint.Printed(symbol)
  }

  /**
   * What the module loader hands back: the module file under the plugin's
   * directory first, when both are known, then the module name as given.
   */
  function LoadedModule(path: Option<string>, moduleFile: Option<string>,
                        loader: Option<Option<string> -> Option<object>>): Option<object>
  {
    if loader.None? then None
    else
      var first := if path.Some? && moduleFile.Some? then loader.value(Some(BuildPath(path.value, moduleFile.value))) else None;
      if first.Some? then first else loader.value(moduleFile)
  }

  /** The entry symbol resolves in the module, or there is none to resolve. */
  predicate SymbolOk(m: object, symbol: Option<string>, symbols: (object, string) -> Option<object>)
  {
    symbol.None? || symbols(m, symbol.value).Some?
  }

  /** A requirement names an installed plugin whose module is loaded. */
  predicate Satisfied(registry: map<string, Plugin>, req: Require)
    reads registry.Values
  {
    PluginIn(registry, req.pluginId).Some? && PluginIn(registry, req.pluginId).value.runtime.Some?
  }

  predicate AllSatisfied(registry: map<string, Plugin>, reqs: Option<seq<Require>>)
    reads registry.Values
  {
    reqs.Some? ==> forall i :: 0 <= i < |reqs.value| ==> Satisfied(registry, reqs.value[i])
  }

  /** Installed plugins without a module, with `p` too while it has none: what module resolution can still change. */
  ghost function Pending(registry: map<string, Plugin>, p: Plugin): set<Plugin>
    reads registry.Values, p
  {
    (set q | q in registry.Values && q.runtime.None?) + (if p.runtime.None? then {p} else {})
  }

  /**
   * A plugin whose module was loaded before keeps that module and its
   * state, and no plugin changes owner or directory.
   */
  twostate predicate Settled(registry: map<string, Plugin>)
    reads registry.Values
  {
    forall q | q in registry.Values ::
      q.context == old(q.context) && q.path == old(q.path) &&
      (old(q.runtime).Some? ==> q.runtime == old(q.runtime) && q.state == old(q.state))
  }

  /** The notifications of `before` are still there, first, in order. */
  predicate Extends(events: seq<Notice>, before: seq<Notice>)
  {
    |before| <= |events| && events[..|before|] == before
  }

  class Plugin {
    const id: Option<string>
    const name: Option<string>
    const version: Option<string>
    const provider: Option<string>
    const moduleFile: Option<string>
    const symbol: Option<string>
    const requirements: Option<seq<Require>>
    const extpoints: Option<seq<ExtPoint.ExtPoint>>
    const extensions: Option<seq<Extension.Extension>>
    /** The context the plugin is installed in (a weak back-reference). */
    var context: object?
    var path: Option<string>
    /** The loaded module. */
    var runtime: Option<object>
    var state: State

    /** The extension points and extensions are sorted by local id, each element once. */
    predicate Valid()
    {
      (extpoints.Some? ==> SortedBy(extpoints.value, ExtPoint.LocalIdOf) && Distinct(extpoints.value)) &&
      (extensions.Some? ==> SortedBy(extensions.value, Extension.LocalIdOf) && Distinct(extensions.value))
    }

    /**
     * gimo_plugin_new: the strings are stored as given; an absent array
     * stays absent; requirements are cloned in order; extension points and
     * extensions are cloned, adopted by the new plugin and sorted by local
     * id.  No context, no module, state UNINSTALLED.
     */
    constructor (id: Option<string>, name: Option<string>, version: Option<string>, provider: Option<string>,
                 path: Option<string>, moduleFile: Option<string>, symbol: Option<string>,
                 reqs: Option<seq<Require>>, points: Option<seq<ExtPoint.ExtPoint>>,
                 exts: Option<seq<Extension.Extension>>)
      requires points.Some? ==> UnownedPoints(points.value)
      requires exts.Some? ==> UnownedExtensions(exts.value)
      modifies Elements(points), Elements(exts)
      ensures Valid()
      ensures this.id == id && this.name == name && this.version == version && this.provider == provider
      ensures this.path == path && this.moduleFile == moduleFile && this.symbol == symbol
      ensures context == null && runtime.None? && state == Uninstalled
      ensures requirements == reqs
      ensures extpoints.None? <==> points.None?
      ensures points.Some? ==> multiset(extpoints.value) == multiset(points.value)
      ensures extensions.None? <==> exts.None?
      ensures exts.Some? ==> multiset(extensions.value) == multiset(exts.value)
      ensures forall e | e in Elements(extpoints) :: e.plugin == this && e.id == Some(ExtPoint.GlobalId(id, e.localId))
      ensures forall e | e in Elements(extensions) :: e.plugin == this && e.id == Some(ExtPoint.GlobalId(id, e.localId))
    {
      this.id := id;
      this.name := name;
      this.version := version;
      this.provider := provider;
      this.path := path;
      this.moduleFile := moduleFile;
      this.symbol := symbol;
      requirements := reqs;
      extpoints := if points.Some? then Some(Sort(points.value, ExtPoint.LocalIdOf)) else None;
      extensions := if exts.Some? then Some(Sort(exts.value, Extension.LocalIdOf)) else None;
      context := null;
      runtime := None;
      state := Uninstalled;
      new;
      if points.Some? {
        AdoptPoints(points.value, extpoints.value, this, id);
      }
      if exts.Some? {
        AdoptExtensions(exts.value, extensions.value, this, id);
      }
    }

    /** Every extension point of the plugin names it as its owner. */
    predicate Adopted()
      reads Elements(extpoints)
    {
      forall e | e in Elements(extpoints) :: e.plugin == this
    }

    /** gimo_plugin_get_extpoint: binary search by local id; NULL when there is no array or no match. */
    function GetExtPoint(localId: string): (r: Option<ExtPoint.ExtPoint>)
      requires Valid()
      ensures extpoints.None? ==> r.None?
      ensures r.Some? ==> r.value in extpoints.value && r.value.localId == localId
      ensures extpoints.Some? && r.None? ==> forall e :: e in extpoints.value ==> e.localId != localId
    {
      if extpoints.None? then None else Find(extpoints.value, ExtPoint.LocalIdOf, localId)
    }

    /** gimo_plugin_get_extension: binary search by local id; NULL when there is no array or no match. */
    function GetExtension(localId: string): (r: Option<Extension.Extension>)
      requires Valid()
      ensures extensions.None? ==> r.None?
      ensures r.Some? ==> r.value in extensions.value && r.value.localId == localId
      ensures extensions.Some? && r.None? ==> forall e :: e in extensions.value ==> e.localId != localId
    {
      if extensions.None? then None else Find(extensions.value, Extension.LocalIdOf, localId)
    }

    /**
     * gimo_plugin_query_extensions: the extensions targeting extptId in
     * array order, or NULL when there is no array or none matches.
     */
    method QueryExtensions(extptId: string) returns (r: Option<seq<Extension.Extension>>)
      ensures extensions.None? ==> r.None?
      ensures extensions.Some? ==> (r.None? <==> Targeting(extensions.value, extptId) == [])
      ensures r.Some? ==> r.value == Targeting(extensions.value, extptId)
    {
      if extensions.None? {
        return None;
      }
      var exts := extensions.value;
      r := None;
      var i := 0;
      while i < |exts|
        invariant 0 <= i <= |exts|
        invariant r.None? ==> Targeting(exts[..i], extptId) == []
        invariant r.Some? ==> r.value == Targeting(exts[..i], extptId) && r.value != []
      {
        assert exts[..i + 1] == exts[..i] + [exts[i]];
        TargetingSnoc(exts[..i], exts[i], extptId);
        if exts[i].extpointId == extptId {
          r := Some(if r.None? then [exts[i]] else r.value + [exts[i]]);
        }
        i := i + 1;
      }
      assert exts[..i] == exts;
    }

    /**
     * _gimo_plugin_install: the plugin must not be installed yet; it gets
     * the context and state INSTALLED, and its directory is resolved
     * against the directory it was found in.
     */
    method Install(ctx: object, curPath: Option<string>)
      requires context == null
      modifies this
      ensures context == ctx && state == Installed && runtime == old(runtime)
      ensures curPath.None? ==> path == old(path)
      ensures curPath.Some? && old(path).None? ==> path == curPath
      ensures curPath.Some? && old(path).Some? ==> path == Some(BuildPath(curPath.value, old(path).value))
    {
      context := ctx;
      state := Installed;
      if curPath.Some? {
        if path.Some? {
          path := Some(BuildPath(curPath.value, path.value));
        } else {
          path := curPath;
        }
      }
    }

    /** _gimo_plugin_uninstall: the module is dropped, the context cleared, state UNINSTALLED. */
    method Uninstall()
      modifies this
      ensures runtime.None? && context == null && state == Uninstalled && path == old(path)
    {
      runtime := None;
      context := null;
      state := Uninstalled;
    }

    /** What finalisation asserts: neither a context nor a module remains. */
    predicate CanFinalize()
      reads this
    {
      context == null && runtime.None?
    }

    /** Finalisation: every extension point and extension is torn down from this plugin. */
    method Finalize()
      requires Valid() && CanFinalize()
      requires forall e | e in Elements(extpoints) :: e.plugin == this
      requires forall e | e in Elements(extensions) :: e.plugin == this
      modifies Elements(extpoints), Elements(extensions)
      ensures forall e | e in Elements(extpoints) :: e.plugin == null && e.id == old(e.id)
      ensures forall e | e in Elements(extensions) :: e.plugin == null && e.id == old(e.id)
    {
      if extpoints.Some? {
        var pts := extpoints.value;
        var i := 0;
        while i < |pts|
          invariant 0 <= i <= |pts|
          invariant forall j :: 0 <= j < i ==> pts[j].plugin == null && pts[j].id == old(pts[j].id)
          invariant forall j :: i <= j < |pts| ==> pts[j].plugin == this && pts[j].id == old(pts[j].id)
          invariant forall e | e in Elements(extensions) :: e.plugin == this && e.id == old(e.id)
        {
          pts[i].Teardown(this);
          i := i + 1;
        }
      }
      if extensions.Some? {
        var exts := extensions.value;
        var i := 0;
        while i < |exts|
          invariant 0 <= i <= |exts|
          invariant forall j :: 0 <= j < i ==> exts[j].plugin == null && exts[j].id == old(exts[j].id)
          invariant forall j :: i <= j < |exts| ==> exts[j].plugin == this && exts[j].id == old(exts[j].id)
          invariant forall e | e in Elements(extpoints) :: e.plugin == null && e.id == old(e.id)
        {
          exts[i].Teardown(this);
          i := i + 1;
        }
      }
    }

    /**
     * _gimo_plugin_load_module: no loader, or nothing loadable, fails; a
     * module loaded meanwhile wins; otherwise the module becomes the
     * runtime, provided the entry symbol resolves in it.
     */
    method LoadModule(loader: Option<Option<string> -> Option<object>>, symbols: (object, string) -> Option<object>)
      returns (ok: bool)
      modifies this
      ensures var m := LoadedModule(path, moduleFile, loader);
              ok <==> m.Some? && (old(runtime).Some? || SymbolOk(m.value, symbol, symbols))
      ensures runtime == if ok && old(runtime).None? then LoadedModule(path, moduleFile, loader) else old(runtime)
      ensures state == old(state) && context == old(context) && path == old(path)
    {
      var m := LoadedModule(path, moduleFile, loader);
      if m.None? {
        return false;
      }
      if runtime.Some? {
        return true;
      }
      runtime := m;
      if symbol.Some? && symbols(m.value, symbol.value).None? {
        runtime := None;
        return false;
      }
      ok := true;
    }

    /**
     * _gimo_plugin_query_module: a loaded module is returned at once;
     * otherwise, when asked to load, the module is loaded and the plugin
     * becomes RESOLVED, then every required plugin is resolved in turn.
     * If one is missing or fails, the module is dropped and the state goes
     * back to INSTALLED; on success one (INSTALLED, RESOLVED) notification
     * is emitted.  The result is always the module the plugin holds after
     * the call.
     */
    method QueryModule(registry: map<string, Plugin>, loader: Option<Option<string> -> Option<object>>,
                       symbols: (object, string) -> Option<object>, load: bool, err: LastError, log: Notices)
      returns (r: Option<object>)
      modifies this, registry.Values, err, log
      ensures r == runtime
      ensures context == old(context) && path == old(path)
      ensures old(runtime).Some? ==> runtime == old(runtime) && state == old(state)
      ensures Settled(registry)
      ensures Extends(log.events, old(log.events))
      ensures old(runtime).None? && r.Some? ==>
                load && context != null && Loads(loader, symbols) && r == LoadedModule(path, moduleFile, loader) &&
                state == Resolved && AllSatisfied(registry, requirements) &&
                |log.events| > 0 && log.events[|log.events| - 1] == Notice(this, Installed, Resolved)
      ensures old(runtime).None? && load && context != null && Loads(loader, symbols) ==>
                (r.Some? <==> AllSatisfied(registry, requirements)) && (r.None? ==> state == Installed)
      ensures old(runtime).None? && !(load && context != null && Loads(loader, symbols)) ==>
                r.None? && state == old(state)
      ensures old(runtime).None? && load && context == null ==> err.code == NO_OBJECT
      ensures old(runtime).None? && load && context != null && !Loads(loader, symbols) ==>
                err.code == LOAD && err.message == Some(LoadFailure(moduleFile, symbol))
      ensures requirements.None? ==> unchanged(registry.Values - {this})
      decreases Pending(registry, this), 4
    {
      if runtime.Some? {
        return runtime;
      }
      if !load {
        return None;
      }
      r := LoadAndResolve(registry, loader, symbols, err, log);
    }

    /**
     * _gimo_plugin_query_module asked to load a plugin without a module: a
     * plugin outside any context is NO_OBJECT, a module that does not load
     * or lacks its symbol is LOAD; otherwise the plugin is RESOLVED while its
     * requirements are resolved and stays so only if all are.
     */
    method LoadAndResolve(registry: map<string, Plugin>, loader: Option<Option<string> -> Option<object>>,
                          symbols: (object, string) -> Option<object>, err: LastError, log: Notices)
      returns (r: Option<object>)
      requires runtime.None?
      modifies this, registry.Values, err, log
      ensures r == runtime && context == old(context) && path == old(path)
      ensures Settled(registry)
      ensures Extends(log.events, old(log.events))
      ensures r.Some? ==>
                context != null && Loads(loader, symbols) && r == LoadedModule(path, moduleFile, loader) &&
                state == Resolved && AllSatisfied(registry, requirements) &&
                |log.events| > 0 && log.events[|log.events| - 1] == Notice(this, Installed, Resolved)
      ensures context != null && Loads(loader, symbols) ==>
                (r.Some? <==> AllSatisfied(registry, requirements)) && (r.None? ==> state == Installed)
      ensures !(context != null && Loads(loader, symbols)) ==> r.None? && state == old(state)
      ensures context == null ==> err.code == NO_OBJECT
      ensures context != null && !Loads(loader, symbols) ==>
                err.code == LOAD && err.message == Some(LoadFailure(moduleFile, symbol))
      ensures requirements.None? ==> unchanged(registry.Values - {this})
      decreases Pending(registry, this), 3
    {
      var ok := Acquire(loader, symbols, err);
      if !ok {
        return None;
      }
      r := runtime;
      var satisfied := ResolveAndAnnounce(registry, loader, symbols, err, log, old(Pending(registry, this)));
      if !satisfied {
        ghost var k :| 0 <= k < |requirements.value| && !Satisfied(registry, requirements.value[k]);
        runtime := None;
        state := Installed;
        assert !Satisfied(registry, requirements.value[k]);
        return None;
      }
    }

    /**
     * The head of _gimo_plugin_query_module's loading: a plugin outside
     * any context is NO_OBJECT; a module that does not load or lacks its
     * symbol is LOAD; otherwise the module is kept and the plugin is RESOLVED.
     */
    method Acquire(loader: Option<Option<string> -> Option<object>>, symbols: (object, string) -> Option<object>,
                   err: LastError)
      returns (ok: bool)
      requires runtime.None?
      modifies this, err
      ensures ok <==> context != null && Loads(loader, symbols)
      ensures ok ==> runtime == LoadedModule(path, moduleFile, loader) && state == Resolved
      ensures !ok ==> runtime.None? && state == old(state)
      ensures context == old(context) && path == old(path)
      ensures context == null ==> err.code == NO_OBJECT
      ensures context != null && !Loads(loader, symbols) ==>
                err.code == LOAD && err.message == Some(LoadFailure(moduleFile, symbol))
    {
      if context == null {
        ok := err.SetErrorReturnVal(NO_OBJECT, false);
        return;
      }
      ok := LoadModule(loader, symbols);
      if !ok {
        err.SetErrorFull(LOAD, Some(LoadFailure(moduleFile, symbol)));
        return;
      }
      state := Resolved;
    }

    /**
     * The tail of _gimo_plugin_query_module once the module is in: the
     * requirements are resolved and, when all are, the (INSTALLED, RESOLVED)
     * change is announced.
     */
    method ResolveAndAnnounce(registry: map<string, Plugin>, loader: Option<Option<string> -> Option<object>>,
                              symbols: (object, string) -> Option<object>, err: LastError, log: Notices,
                              ghost budget: set<Plugin>)
      returns (ok: bool)
      requires runtime.Some? && this in budget
      requires forall q | q in registry.Values && q.runtime.None? :: q in budget
      modifies registry.Values, err, log
      ensures runtime == old(runtime) && state == old(state) && context == old(context) && path == old(path)
      ensures Settled(registry)
      ensures Extends(log.events, old(log.events))
      ensures ok <==> AllSatisfied(registry, requirements)
      ensures ok ==> |log.events| > 0 && log.events[|log.events| - 1] == Notice(this, Installed, Resolved)
      ensures requirements.None? ==> unchanged(registry.Values)
      decreases budget, 2
    {
      ok := ResolveRequirements(registry, loader, symbols, err, log, budget);
      if ok {
        log.Emit(this, Installed, Resolved);
      }
    }

    /** The module loads and its entry symbol resolves. */
    predicate Loads(loader: Option<Option<string> -> Option<object>>, symbols: (object, string) -> Option<object>)
      reads this
    {
      LoadedModule(path, moduleFile, loader).Some? && SymbolOk(LoadedModule(path, moduleFile, loader).value, symbol, symbols)
    }

    /**
     * The loop of _gimo_plugin_query_module over the requirements: each
     * named plugin is looked up and resolved, stopping at the first that is
     * missing or fails.  The result tells whether all are satisfied.
     */
    method ResolveRequirements(registry: map<string, Plugin>, loader: Option<Option<string> -> Option<object>>,
                               symbols: (object, string) -> Option<object>, err: LastError, log: Notices,
                               ghost budget: set<Plugin>)
      returns (ok: bool)
      requires runtime.Some? && this in budget
      requires forall q | q in registry.Values && q.runtime.None? :: q in budget
      modifies registry.Values, err, log
      ensures runtime == old(runtime) && state == old(state) && context == old(context) && path == old(path)
      ensures Settled(registry)
      ensures Extends(log.events, old(log.events))
      ensures ok <==> AllSatisfied(registry, requirements)
      ensures requirements.None? ==> unchanged(registry.Values)
      decreases budget, 1
    {
      if requirements.None? {
        return true;
      }
      var reqs := requirements.value;
      var i := 0;
      while i < |reqs|
        invariant 0 <= i <= |reqs|
        invariant runtime == old(runtime) && state == old(state) && context == old(context) && path == old(path)
        invariant Settled(registry)
        invariant Extends(log.events, old(log.events))
        invariant forall j :: 0 <= j < i ==> Satisfied(registry, reqs[j])
      {
        var satisfied := ResolveRequirement(registry, loader, symbols, err, log, budget, reqs[i]);
        if !satisfied {
          return false;
        }
        i := i + 1;
      }
      ok := true;
    }

    /** One requirement of _gimo_plugin_query_module: the named plugin is looked up and resolved. */
    method ResolveRequirement(registry: map<string, Plugin>, loader: Option<Option<string> -> Option<object>>,
                              symbols: (object, string) -> Option<object>, err: LastError, log: Notices,
                              ghost budget: set<Plugin>, req: Require)
      returns (ok: bool)
      requires runtime.Some? && this in budget
      requires forall q | q in registry.Values && q.runtime.None? :: q in budget
      modifies registry.Values, err, log
      ensures runtime == old(runtime) && state == old(state) && context == old(context) && path == old(path)
      ensures Settled(registry)
      ensures Extends(log.events, old(log.events))
      ensures ok <==> Satisfied(registry, req)
      decreases budget, 0
    {
      var p := QueryPluginIn(registry, req.pluginId, err);
      if p.None? {
        return false;
      }
      assert this !in Pending(registry, p.value);
      var got := p.value.QueryModule(registry, loader, symbols, true, err, log);
      ok := got.Some?;
    }

    /**
     * gimo_plugin_start: an ACTIVE plugin succeeds at once; otherwise the
     * module must resolve, and the plugin becomes ACTIVE only if the start
     * handlers (TRUE when there are none) agree.
     */
    method Start(registry: map<string, Plugin>, loader: Option<Option<string> -> Option<object>>,
                 symbols: (object, string) -> Option<object>, handlers: Option<bool>, err: LastError, log: Notices)
      returns (ok: bool)
      modifies this, registry.Values, err, log
      ensures context == old(context) && path == old(path)
      ensures forall q | q in registry.Values :: q.context == old(q.context) && q.path == old(q.path)
      ensures old(runtime).Some? ==> runtime == old(runtime)
      ensures old(state) == Active ==> ok && state == Active && runtime == old(runtime)
      ensures old(state) != Active ==> (ok <==> runtime.Some? && Runtime.Runtime.EmitResult(handlers))
      ensures ok ==> state == Active
      ensures Extends(log.events, old(log.events))
      ensures old(state) != Active && runtime.Some? && !ok ==> state == if old(runtime).Some? then old(state) else Resolved
      ensures old(state) != Active && old(runtime).None? ==>
                (runtime.Some? <==> context != null && Loads(loader, symbols) && AllSatisfied(registry, requirements))
      ensures old(state) != Active && old(runtime).None? && runtime.None? ==> state == Installed || state == old(state)
      ensures requirements.None? ==> unchanged(registry.Values - {this})
    {
      if state == Active {
        return true;
      }
      var m := QueryModule(registry, loader, symbols, true, err, log);
      if m.None? {
        return false;
      }
      ok := Runtime.Runtime.EmitResult(handlers);
      if ok {
        state := Active;
      }
    }

    /**
     * gimo_plugin_stop: only an ACTIVE or STARTING plugin whose module is
     * loaded is stopped, and it goes back to RESOLVED.
     */
    method Stop()
      modifies this
      ensures (old(state) == Active || old(state) == Starting) && runtime.Some? ==> state == Resolved
      ensures !((old(state) == Active || old(state) == Starting) && runtime.Some?) ==> state == old(state)
      ensures runtime == old(runtime) && context == old(context) && path == old(path)
    {
      if state != Active && state != Starting {
        return;
      }
      // query_module without loading hands back the loaded module or nothing
      if runtime.None? {
        return;
      }
      state := Resolved;
    }

    /** gimo_plugin_define: binds an object to the plugin under symbol, unless one is bound there already. */
    method Define(b: Binding.Bindings, symbol: string, obj: object?) returns (ok: bool)
      modifies b
      ensures ok <==> Binding.LookupObjectIn(old(b.locations), this, symbol).None?
      ensures ok ==> b.locations == Binding.Bind(old(b.locations), this, symbol, Binding.ObjectArg(obj))
      ensures !ok ==> b.locations == old(b.locations)
    {
      var bound := b.LookupObject(this, symbol);
      if bound.Some? {
        return false;
      }
      b.BindObject(this, symbol, obj);
      ok := true;
    }

    /**
     * gimo_plugin_resolve: an object bound to the plugin under symbol wins;
     * otherwise the module is resolved (loading it if need be) and asked
     * for the symbol.
     */
    method Resolve(b: Binding.Bindings, symbol: string, registry: map<string, Plugin>,
                   loader: Option<Option<string> -> Option<object>>, symbols: (object, string) -> Option<object>,
                   err: LastError, log: Notices)
      returns (r: Option<object>)
      modifies this, registry.Values, err, log
      ensures Binding.LookupObjectIn(b.locations, this, symbol).Some? ==>
                r == Binding.LookupObjectIn(b.locations, this, symbol) && runtime == old(runtime) && state == old(state)
      ensures Binding.LookupObjectIn(b.locations, this, symbol).None? ==>
                (runtime.None? ==> r.None?) && (runtime.Some? ==> r == symbols(runtime.value, symbol))
      ensures Extends(log.events, old(log.events))
      ensures context == old(context) && path == old(path)
      ensures Settled(registry)
    {
      r := Binding.LookupObjectIn(b.locations, this, symbol);
      if r.Some? {
        return;
      }
      var m := QueryModule(registry, loader, symbols, true, err, log);
      if m.None? {
        return None;
      }
      r := symbols(m.value, symbol);
    }
  }

  /**
   * A plugin without requirements, whose module loads and whose symbol
   * resolves, is resolved and then started: it ends ACTIVE holding that
   * module, and the context saw it become RESOLVED.
   */
  method StartStandalone(p: Plugin, registry: map<string, Plugin>, loader: Option<Option<string> -> Option<object>>,
                         symbols: (object, string) -> Option<object>, err: LastError, log: Notices)
    returns (ok: bool)
    requires p.context != null && p.state == Installed && p.runtime.None? && p.requirements.None?
    requires p.Loads(loader, symbols)
    modifies p, registry.Values, err, log
    ensures ok && p.state == Active && p.runtime == LoadedModule(p.path, p.moduleFile, loader)
    ensures Notice(p, Installed, Resolved) in log.events
  {
    var m := p.QueryModule(registry, loader, symbols, true, err, log);
    ghost var seen := log.events;
    assert seen[|seen| - 1] == Notice(p, Installed, Resolved);
    ok := p.Start(registry, loader, symbols, None, err, log);
    assert log.events[..|seen|] == seen;
    assert log.events[|seen| - 1] == Notice(p, Installed, Resolved);
  }

  /**
   * The finding about _gimo_plugin_load_module as written: the module is
   * stored before the entry symbol is resolved and kept when that fails.
   * The pair is (whether the load succeeded, the runtime afterwards).
   */
  function LoadStepAsWritten(runtime: Option<object>, loaded: Option<object>, symbolOk: bool): (bool, Option<object>)
  {
    if loaded.None? then (false, runtime)
    else if runtime.Some? then (true, runtime)
    else (symbolOk, loaded)
  }

  /** query_module as written, without requirements: the pair is (the result, the runtime afterwards). */
  function QueryStepAsWritten(runtime: Option<object>, loaded: Option<object>, symbolOk: bool): (Option<object>, Option<object>)
  {
    if runtime.Some? then (runtime, runtime)
    else
      var step := LoadStepAsWritten(runtime, loaded, symbolOk);
      if step.0 then (step.1, step.1) else (None, step.1)
  }

  /**
   * As written, a module whose entry symbol does not resolve fails the
   * first query but is handed out by the second, which never resolves the
   * symbol or the requirements.
   */
  lemma AsWrittenKeepsFailedModule(m: object)
    ensures QueryStepAsWritten(None, Some(m), false).0 == None
    ensures QueryStepAsWritten(None, Some(m), false).1 == Some(m)
    ensures QueryStepAsWritten(QueryStepAsWritten(None, Some(m), false).1, Some(m), false).0 == Some(m)
  {
  }
}
