/**
 * An extension's configuration tree: each config has a name, an optional
 * value and optional sub-configs kept sorted by name, and is looked up by
 * a dotted path, one segment per nesting level.
 */
module ExtConfig {
  import opened Wrappers
  import opened Str
  import opened Sorting

  datatype ExtConfig = ExtConfig(name: string, value: Option<string>, configs: Configs)

  /** A possibly NULL array of sub-configs. */
  datatype Configs = NoConfigs | Array(items: seq<ExtConfig>)
  {
    function ToOption(): (r: Option<seq<ExtConfig>>)
      ensures r.None? <==> this.NoConfigs?
      ensures r.Some? ==> r.value == items
    {
      if this.Array? then Some(items) else None
    }
  }

  /** The key both comparators order and search by. */
  function NameOf(c: ExtConfig): string
  {
    c.name
  }

  /** The sort comparator: strcmp of the two names. */
  function SortByName(a: ExtConfig, b: ExtConfig): (r: int)
    ensures (r < 0) == Less(a.name, b.name) && (r == 0) == (a.name == b.name)
  {
    StrcmpIsTotalOrder(a.name, b.name);
    Strcmp(a.name, b.name)
  }

  /** The search comparator: strcmp of the sought name and an element's name. */
  function SearchByName(key: string, b: ExtConfig): (r: int)
    ensures (r < 0) == Less(key, b.name) && (r == 0) == (key == b.name)
  {
    StrcmpIsTotalOrder(key, b.name);
    Strcmp(key, b.name)
  }

  /** Both comparators induce the same order, so a search over an array the sort produced is sound. */
  lemma ComparatorsAgree(a: ExtConfig, b: ExtConfig)
    ensures SortByName(a, b) == SearchByName(a.name, b)
  {
  }

  /** Every array of sub-configs in the tree is sorted by name. */
  predicate WellFormed(c: ExtConfig)
  {
    c.configs.Array? ==>
      SortedBy(c.configs.items, NameOf) && forall i :: 0 <= i < |c.configs.items| ==> WellFormed(c.configs.items[i])
  }

  predicate WellFormedList(cs: seq<ExtConfig>)
  {
    SortedBy(cs, NameOf) && forall i :: 0 <= i < |cs| ==> WellFormed(cs[i])
  }

  /**
   * The set_property step for "configs": a NULL array stays NULL; a given
   * one is cloned and sorted by name, so it holds the same configs in name order.
   */
  function CloneSorted(configs: Option<seq<ExtConfig>>): (r: Configs)
    ensures r.NoConfigs? <==> configs.None?
    ensures configs.Some? ==> SortedBy(r.items, NameOf) && multiset(r.items) == multiset(configs.value)
  {
    if configs.Some? then Array(Sort(configs.value, NameOf)) else NoConfigs
  }

  /** gimo_ext_config_new */
  function NewConfig(name: string, value: Option<string>, configs: Option<seq<ExtConfig>>): (r: ExtConfig)
    ensures r.name == name && r.value == value && r.configs == CloneSorted(configs)
  {
    ExtConfig(name, value, CloneSorted(configs))
  }

  /** Sorting well-formed configs gives a well-formed array. */
  lemma CloneSortedWellFormed(configs: Option<seq<ExtConfig>>)
    requires configs.Some? ==> forall i :: 0 <= i < |configs.value| ==> WellFormed(configs.value[i])
    ensures CloneSorted(configs).Array? ==> WellFormedList(CloneSorted(configs).items)
  {
    if configs.Some? {
      var s := CloneSorted(configs).items;
      forall i | 0 <= i < |s| ensures WellFormed(s[i]) {
        assert s[i] in multiset(configs.value);
        var j :| 0 <= j < |configs.value| && configs.value[j] == s[i];
      }
    }
  }

  /**
   * The lookup of a dotted path in a sorted config array: binary-search the
   * first segment; with segments left, continue in the found config's
   * sub-configs, and miss when it has none.
   */
  function Lookup(cs: seq<ExtConfig>, path: string): (r: Option<ExtConfig>)
    requires WellFormedList(cs)
    decreases |path|
  {
    match IndexOf(path, '.')
    case None => Find(cs, NameOf, path)
    case Some(i) =>
      match Find(cs, NameOf, path[..i])
      case None => None
      case Some(c) =>
        assert WellFormed(c) by { var k :| 0 <= k < |cs| && cs[k] == c; }
        if c.configs.NoConfigs? then None else Lookup(c.configs.items, path[i + 1..])
  }

  /** gimo_ext_config_get_config, as specified: no sub-configs means no match. */
  function ConfigAt(c: ExtConfig, nameSpace: string): (r: Option<ExtConfig>)
    requires WellFormed(c)
  {
    if c.configs.NoConfigs? then None else Lookup(c.configs.items, nameSpace)
  }

  /** gimo_ext_config_get_configs */
  function GetConfigs(c: ExtConfig): (r: Option<seq<ExtConfig>>)
    ensures r.None? <==> c.configs.NoConfigs?
  {
    c.configs.ToOption()
  }

  /**
   * gimo_ext_config_get_config: the loop splits the path one '.' at a time,
   * binary-searching each segment in the current array.  When a matched
   * config has no sub-configs and segments remain, the lookup misses.
   */
  method GetConfig(c: ExtConfig, nameSpace: string) returns (r: Option<ExtConfig>)
    requires WellFormed(c)
    ensures r == ConfigAt(c, nameSpace)
  {
    if c.configs.NoConfigs? {
      return None;
    }
    var name: string, next: Option<string> := SplitFirst(nameSpace).0, SplitFirst(nameSpace).1;
    var configs := c.configs.items;
    while true
      invariant WellFormedList(configs)
      invariant '.' !in name
      invariant ConfigAt(c, nameSpace) == Lookup(configs, Rejoin(name, next))
      decreases if next.Some? then |next.value| + 1 else 0
    {
      LookupStep(configs, name, next);
      r := Find(configs, NameOf, name);
      if r.None? || next.None? {
        return;
      }
      if r.value.configs.NoConfigs? {
        return None;
      }
      configs := r.value.configs.items;
      var split := SplitFirst(next.value);
      name, next := split.0, split.1;
    }
  }

  /** The path split at its first '.': the leading segment and, if there was a dot, the rest. */
  function SplitFirst(path: string): (r: (string, Option<string>))
    ensures '.' !in r.0 && Rejoin(r.0, r.1) == path
    ensures r.1.Some? ==> |r.1.value| < |path|
  {
    match IndexOf(path, '.')
    case None => (path, None)
    case Some(i) =>
      assert path == path[..i] + "." + path[i + 1..];
      (path[..i], Some(path[i + 1..]))
  }

  /** One iteration of the loop: search the segment, then stop or descend. */
  lemma LookupStep(cs: seq<ExtConfig>, name: string, next: Option<string>)
    requires WellFormedList(cs) && '.' !in name
    ensures var f := Find(cs, NameOf, name);
      f.Some? ==> WellFormed(f.value)
    ensures var f := Find(cs, NameOf, name);
      Lookup(cs, Rejoin(name, next)) ==
        if f.None? || next.None? then f
        else if f.value.configs.NoConfigs? then None
        else Lookup(f.value.configs.items, next.value)
  {
    RejoinSplits(name, next);
    var f := Find(cs, NameOf, name);
    if f.Some? {
      var k :| 0 <= k < |cs| && cs[k] == f.value;
    }
  }

  /** The path that is still to be looked up: the current segment and what follows it. */
  function Rejoin(name: string, next: Option<string>): string
  {
    if next.Some? then name + "." + next.value else name
  }

  lemma RejoinSplits(name: string, next: Option<string>)
    requires '.' !in name
    ensures next.None? ==> IndexOf(Rejoin(name, next), '.').None?
    ensures next.Some? ==> IndexOf(Rejoin(name, next), '.') == Some(|name|)
    ensures next.Some? ==> Rejoin(name, next)[..|name|] == name && Rejoin(name, next)[|name| + 1..] == next.value
  {
    if next.Some? {
      var s := Rejoin(name, next);
      assert s[|name|] == '.';
      assert s[..|name|] == name;
    }
  }

  /**
   * A reference definition of what a dotted path names: a chain of
   * configs, one per segment, each a sub-config of the one before.
   */
  predicate Reaches(cs: seq<ExtConfig>, path: string, c: ExtConfig)
    decreases |path|
  {
    match IndexOf(path, '.')
    case None => c in cs && c.name == path
    case Some(k) =>
      exists x :: x in cs && x.name == path[..k] && x.configs.Array? && Reaches(x.configs.items, path[k + 1..], c)
  }

  /** Every config the lookup returns is named by the path. */
  lemma {:induction false} LookupSound(cs: seq<ExtConfig>, path: string)
    requires WellFormedList(cs)
    ensures Lookup(cs, path).Some? ==> Reaches(cs, path, Lookup(cs, path).value)
    decreases |path|
  {
    match IndexOf(path, '.')
    case None =>
    case Some(k) =>
      var f := Find(cs, NameOf, path[..k]);
      if f.Some? && f.value.configs.Array? {
        assert WellFormed(f.value) by { var j :| 0 <= j < |cs| && cs[j] == f.value; }
        LookupSound(f.value.configs.items, path[k + 1..]);
      }
  }

  /** No two configs of one array share a name, at every level of the tree. */
  predicate UniqueNames(c: ExtConfig)
  {
    c.configs.Array? ==>
      (forall i, j :: 0 <= i < j < |c.configs.items| ==> c.configs.items[i].name != c.configs.items[j].name)
      && forall i :: 0 <= i < |c.configs.items| ==> UniqueNames(c.configs.items[i])
  }

  predicate UniqueNamesList(cs: seq<ExtConfig>)
  {
    (forall i, j :: 0 <= i < j < |cs| ==> cs[i].name != cs[j].name)
    && forall i :: 0 <= i < |cs| ==> UniqueNames(cs[i])
  }

  /** With unique names, every config a path names is the one the lookup finds. */
  lemma {:induction false} LookupComplete(cs: seq<ExtConfig>, path: string, c: ExtConfig)
    requires WellFormedList(cs) && UniqueNamesList(cs)
    requires Reaches(cs, path, c)
    ensures Lookup(cs, path) == Some(c)
    decreases |path|
  {
    match IndexOf(path, '.')
    case None =>
      var f := Find(cs, NameOf, path);
      var i :| 0 <= i < |cs| && cs[i] == f.value;
      var j :| 0 <= j < |cs| && cs[j] == c;
      assert i == j;
    case Some(k) =>
      var x :| x in cs && x.name == path[..k] && x.configs.Array? && Reaches(x.configs.items, path[k + 1..], c);
      var j :| 0 <= j < |cs| && cs[j] == x;
      var f := Find(cs, NameOf, path[..k]);
      var i :| 0 <= i < |cs| && cs[i] == f.value;
      assert i == j;
      assert WellFormed(x) && UniqueNames(x);
      LookupComplete(x.configs.items, path[k + 1..], c);
  }

  /** What a call of the C lookup ends in: a returned config (or NULL), or a NULL pointer dereference. */
  datatype Outcome = Returned(config: Option<ExtConfig>) | NullDereference

  /**
   * The loop of gimo_ext_config_get_config exactly as written: after a
   * match with segments left it continues in the match's sub-config array
   * without checking it, so a match without sub-configs is dereferenced.
   */
  function LoopAsWritten(cs: seq<ExtConfig>, path: string): (r: Outcome)
    requires WellFormedList(cs)
    decreases |path|
  {
    var (name, next) := SplitFirst(path);
    match Find(cs, NameOf, name)
    case None => Returned(None)
    case Some(x) =>
      if next.None? then Returned(Some(x))
      else if x.configs.NoConfigs? then NullDereference
      else
        assert WellFormed(x) by { var k :| 0 <= k < |cs| && cs[k] == x; }
        LoopAsWritten(x.configs.items, next.value)
  }

  function GetConfigAsWritten(c: ExtConfig, nameSpace: string): Outcome
    requires WellFormed(c)
  {
    if c.configs.NoConfigs? then Returned(None) else LoopAsWritten(c.configs.items, nameSpace)
  }

  /** Wherever the code as written does not crash, it returns what the corrected lookup returns. */
  lemma {:induction false} AsWrittenAgreesUnlessCrash(cs: seq<ExtConfig>, path: string)
    requires WellFormedList(cs)
    ensures LoopAsWritten(cs, path).Returned? ==> LoopAsWritten(cs, path) == Returned(Lookup(cs, path))
    decreases |path|
  {
    var (name, next) := SplitFirst(path);
    LookupStep(cs, name, next);
    var f := Find(cs, NameOf, name);
    if f.Some? && next.Some? && f.value.configs.Array? {
      AsWrittenAgreesUnlessCrash(f.value.configs.items, next.value);
    }
  }

  /**
   * A config "root" with one child "a" that has no sub-configs: asking
   * root for "a.b" matches "a" and then searches a's NULL array.
   */
  lemma AsWrittenCrashes()
    ensures var a := NewConfig("a", Some("1"), None);
      var root := NewConfig("root", None, Some([a]));
      WellFormed(root)
      && GetConfigAsWritten(root, "a.b") == NullDereference
      && ConfigAt(root, "a.b") == None
  {
    var a := NewConfig("a", Some("1"), None);
    var root := NewConfig("root", None, Some([a]));
    CloneSortedWellFormed(Some([a]));
    assert root.configs.items == [a] by {
      assert multiset(root.configs.items) == multiset{a};
      assert |root.configs.items| == 1;
      assert root.configs.items[0] in multiset{a};
    }
    assert SplitFirst("a.b") == ("a", Some("b")) by {
      assert "a.b"[1..] == ".b" && IndexOf(".b", '.') == Some(0);
      assert IndexOf("a.b", '.') == Some(1);
      assert "a.b"[..1] == "a" && "a.b"[2..] == "b";
    }
  }
}
