/**
 * An extension point: a named slot a plugin offers.  The local id and
 * name are fixed at construction; the owner and the global id are set when
 * the owning plugin adopts it.
 */
module ExtPoint {
  import opened Wrappers
  import opened Str
  import Utils

  /** "%s" of a possibly NULL string, as glibc prints it. */
  function Printed(s: Option<string>): string
  {
    if s.Some? then s.value else "(null)"
  }

  /** The global id "<plugin id>.<local id>" of a child of a plugin. */
  function GlobalId(pluginId: Option<string>, localId: string): (r: string)
    ensures r == Printed(pluginId) + "." + localId
  {
    Printed(pluginId) + "." + localId
  }

  /** A global id parses back into the plugin id and the local id when the local id has no dot. */
  lemma GlobalIdParses(pluginId: string, localId: string)
    requires '.' !in localId
    ensures Utils.ParseExtensionId(GlobalId(Some(pluginId), localId)) == (Some(pluginId), localId)
  {
    Utils.ParseGlobalId(pluginId, localId);
  }

  class ExtPoint {
    const localId: string
    const name: Option<string>
    var plugin: object?
    var id: Option<string>

    /** gimo_ext_point_new: no owner and no global id yet. */
    constructor (localId: string, name: Option<string>)
      ensures this.localId == localId && this.name == name
      ensures plugin == null && id == None
    {
      this.localId := localId;
      this.name := name;
      plugin := null;
      id := None;
    }

    /** gimo_ext_point_query_plugin */
    function QueryPlugin(): (r: object?)
      reads this
      ensures r == plugin
    {
      plugin
    }

    /** _gimo_ext_point_setup: asserts there is no global id yet, then adopts the owner. */
    method Setup(owner: object, ownerId: Option<string>)
      requires id.None?
      modifies this
      ensures plugin == owner && id == Some(GlobalId(ownerId, localId))
    {
      plugin := owner;
      id := Some(GlobalId(ownerId, localId));
    }

    /** _gimo_ext_point_teardown: asserts the owner matches; the global id stays. */
    method Teardown(owner: object)
      requires plugin == owner
      modifies this
      ensures plugin == null && id == old(id)
    {
      plugin := null;
    }

    /** What finalisation asserts: no owner remains. */
    predicate CanFinalize()
      reads this
    {
      plugin == null
    }
  }

  /** The key both comparators use. */
  function LocalIdOf(e: ExtPoint): string
  {
    e.localId
  }

  /** _gimo_ext_point_sort_by_id: strcmp of the local ids. */
  function SortById(a: ExtPoint, b: ExtPoint): (r: int)
    ensures (r < 0) == Less(a.localId, b.localId) && (r == 0) == (a.localId == b.localId)
  {
    StrcmpIsTotalOrder(a.localId, b.localId);
    Strcmp(a.localId, b.localId)
  }

  /** _gimo_ext_point_search_by_id: strcmp of the sought id and an element's local id. */
  function SearchById(key: string, b: ExtPoint): (r: int)
    ensures (r < 0) == Less(key, b.localId) && (r == 0) == (key == b.localId)
  {
    StrcmpIsTotalOrder(key, b.localId);
    Strcmp(key, b.localId)
  }

  /** Setting an extension point up, then tearing it down, leaves no owner but keeps the global id. */
  method SetupTeardown(e: ExtPoint, owner: object, ownerId: string) returns (id: Option<string>, after: object?)
    requires e.id.None?
    modifies e
    ensures id == Some(ownerId + "." + e.localId) && after == null
  {
    e.Setup(owner, Some(ownerId));
    e.Teardown(owner);
    id := e.id;
    after := e.QueryPlugin();
  }
}
