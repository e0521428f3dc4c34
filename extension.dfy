/**
 * An extension: a plugin's contribution to some extension point, with a
 * configuration tree.  Its configs are kept sorted by name and looked up
 * by dotted path.
 */
module Extension {
  import opened Wrappers
  import opened Str
  import opened Sorting
  import opened ExtConfig
  import ExtPoint

  class Extension {
    const localId: string
    const name: Option<string>
    const extpointId: string
    const configs: Configs
    var plugin: object?
    var id: Option<string>

    /** Every config array reachable from the extension is sorted by name. */
    predicate Valid()
    {
      configs.Array? ==> WellFormedList(configs.items)
    }

    /**
     * gimo_extension_new: a NULL configs array stays NULL; a given one is
     * cloned and sorted by name.  No owner and no global id yet.
     */
    constructor (localId: string, name: Option<string>, extpointId: string, cfgs: Option<seq<ExtConfig>>)
      requires cfgs.Some? ==> forall i :: 0 <= i < |cfgs.value| ==> WellFormed(cfgs.value[i])
      ensures Valid()
      ensures this.localId == localId && this.name == name && this.extpointId == extpointId
      ensures configs.NoConfigs? <==> cfgs.None?
      ensures cfgs.Some? ==> multiset(configs.items) == multiset(cfgs.value)
      ensures plugin == null && id == None
    {
      this.localId := localId;
      this.name := name;
      this.extpointId := extpointId;
      this.configs := CloneSorted(cfgs);
      plugin := null;
      id := None;
      new;
      CloneSortedWellFormed(cfgs);
    }

    /**
     * gimo_extension_get_config: binary-search the first segment, then hand
     * the rest of the path to the found config's own lookup.
     */
    function GetConfig(nameSpace: string): (r: Option<ExtConfig>)
      requires Valid()
      ensures configs.NoConfigs? ==> r.None?
      ensures configs.Array? ==> r == Lookup(configs.items, nameSpace)
    {
      if configs.NoConfigs? then None
      else
        var split := SplitFirst(nameSpace);
        LookupStep(configs.items, split.0, split.1);
        match Find(configs.items, NameOf, split.0)
        case None => None
        case Some(c) => if split.1.None? then Some(c) else ConfigAt(c, split.1.value)
    }

    /** gimo_extension_get_config_value: the found config's value, or NULL. */
    function GetConfigValue(nameSpace: string): (r: Option<string>)
      requires Valid()
      ensures GetConfig(nameSpace).None? ==> r.None?
      ensures GetConfig(nameSpace).Some? ==> r == GetConfig(nameSpace).value.value
    {
      match GetConfig(nameSpace)
      case None => None
      case Some(c) => c.value
    }

    /**
     * gimo_extension_get_configs: without a namespace the top-level array;
     * otherwise the named config's sub-configs, or NULL.
     */
    function GetConfigs(nameSpace: Option<string>): (r: Option<seq<ExtConfig>>)
      requires Valid()
      ensures nameSpace.None? ==> r == configs.ToOption()
      ensures nameSpace.Some? && GetConfig(nameSpace.value).None? ==> r.None?
      ensures nameSpace.Some? && GetConfig(nameSpace.value).Some? ==> r == GetConfig(nameSpace.value).value.configs.ToOption()
    {
      if nameSpace.None? then configs.ToOption()
      else match GetConfig(nameSpace.value)
        case None => None
        case Some(c) => c.configs.ToOption()
    }

    /** gimo_extension_query_plugin */
    function QueryPlugin(): (r: object?)
      reads this
      ensures r == plugin
    {
      plugin
    }

    /** _gimo_extension_setup: asserts there is no global id yet, then adopts the owner. */
    method Setup(owner: object, ownerId: Option<string>)
      requires id.None?
      modifies this
      ensures plugin == owner && id == Some(ExtPoint.GlobalId(ownerId, localId))
    {
      plugin := owner;
      id := Some(ExtPoint.GlobalId(ownerId, localId));
    }

    /** _gimo_extension_teardown: asserts the owner matches, then drops it. */
    method Teardown(owner: object)
      requires plugin == owner
      modifies this
      ensures plugin == null && id == old(id)
    {
      plugin := null;
    }

    /** What finalisation asserts: no owner remains. */
    predicate CanFinalize()
      reads this
    {
      plugin == null
    }
  }

  /** The key both comparators use. */
  function LocalIdOf(e: Extension): string
  {
    e.localId
  }

  /** _gimo_extension_sort_by_id */
  function SortById(a: Extension, b: Extension): (r: int)
    ensures (r < 0) == Less(a.localId, b.localId) && (r == 0) == (a.localId == b.localId)
  {
    StrcmpIsTotalOrder(a.localId, b.localId);
    Strcmp(a.localId, b.localId)
  }

  /** _gimo_extension_search_by_id */
  function SearchById(key: string, b: Extension): (r: int)
    ensures (r < 0) == Less(key, b.localId) && (r == 0) == (key == b.localId)
  {
    StrcmpIsTotalOrder(key, b.localId);
    Strcmp(key, b.localId)
  }

  /** A path of one segment names the top-level config of that name, if there is one. */
  lemma GetConfigSingleSegment(e: Extension, name: string)
    requires e.Valid() && e.configs.Array? && '.' !in name
    ensures e.GetConfig(name).Some? <==> exists c :: c in e.configs.items && c.name == name
    ensures e.GetConfig(name).Some? ==> e.GetConfig(name).value.name == name
  {
    assert SplitFirst(name) == (name, None);
  }
}
