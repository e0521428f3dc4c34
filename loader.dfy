/**
 * The loader: a table of factories keyed by file suffix (a NULL suffix is
 * the wildcard and sits at the tail), a queue of search paths, and an
 * optional cache that hands out the identical object for a file name loaded
 * before.  Whether a file exists, whether a factory makes a loadable object
 * and whether that object loads a file are parameters of the model.
 */
module Loader {
  import opened Wrappers
  import opened Str
  import opened Sorting
  import opened ErrorSlot
  import opened Utils

  /** A registered factory and the suffix it serves (None: every suffix). */
  datatype FactoryInfo = FactoryInfo(suffix: Option<string>, factory: object)

  /** An object made by a factory and loaded from a file. */
  class Loadable {
    const fileName: Option<string>
    const factory: object

    constructor (fileName: Option<string>, factory: object)
      ensures this.fileName == fileName && this.factory == factory
    {
      this.fileName := fileName;
      this.factory := factory;
    }
  }

  /** The first entry registered for exactly this suffix; NULL matches only NULL. */
  function FindSuffix(loaders: seq<FactoryInfo>, suffix: Option<string>): (r: Option<nat>)
    ensures r.None? <==> forall i :: 0 <= i < |loaders| ==> loaders[i].suffix != suffix
    ensures r.Some? ==> r.value < |loaders| && loaders[r.value].suffix == suffix
    ensures r.Some? ==> forall i :: 0 <= i < r.value ==> loaders[i].suffix != suffix
  {
    if |loaders| == 0 then None
    else if loaders[0].suffix == suffix then Some(0)
    else match FindSuffix(loaders[1..], suffix)
      case None => None
      case Some(i) => Some(i + 1)
  }

  /** The order in which entries pushed one by one at the head end up. */
  function Reversed(s: seq<string>): (r: seq<string>)
    ensures |r| == |s|
    ensures forall i :: 0 <= i < |s| ==> r[i] == s[|s| - 1 - i]
  {
    if |s| == 0 then [] else Reversed(s[1..]) + [s[0]]
  }

  /** The first position of d in the queue. */
  function Position(ps: seq<string>, d: string): (r: Option<nat>)
    ensures r.None? <==> d !in ps
    ensures r.Some? ==> r.value < |ps| && ps[r.value] == d && d !in ps[..r.value]
  {
    if |ps| == 0 then None
    else if ps[0] == d then Some(0)
    else match Position(ps[1..], d)
      case None => None
      case Some(i) => assert ps[..i + 1] == [ps[0]] + ps[1..][..i]; Some(i + 1)
  }

  /** The queue without the first occurrence of d, if there is one. */
  function RemoveFirst(ps: seq<string>, d: string): (r: seq<string>)
    ensures d !in ps ==> r == ps
    ensures d in ps ==> |r| == |ps| - 1 && multiset(r) == multiset(ps) - multiset{d}
  {
    match Position(ps, d)
    case None => ps
    case Some(i) =>
      assert ps == ps[..i] + [d] + ps[i + 1..];
      ps[..i] + ps[i + 1..]
  }

  /** remove_paths on a queue: the listed dirs removed one occurrence each, in order. */
  function RemoveEach(ps: seq<string>, dirs: seq<string>): (r: seq<string>)
    ensures |r| <= |ps|
  {
    if |dirs| == 0 then ps else RemoveEach(RemoveFirst(ps, dirs[0]), dirs[1..])
  }

  /** Removing what was just added, in the order of a path list, gives back the queue before. */
  lemma {:induction false} RemoveAdded(dirs: seq<string>, ps: seq<string>)
    requires forall d :: d in dirs ==> d !in ps
    requires forall i, j :: 0 <= i < j < |dirs| ==> dirs[i] != dirs[j]
    ensures RemoveEach(Reversed(dirs) + ps, dirs) == ps
  {
    if |dirs| > 0 {
      var rev := Reversed(dirs[1..]);
      assert Reversed(dirs) == rev + [dirs[0]];
      assert dirs[0] !in rev;
      var q := rev + [dirs[0]] + ps;
      assert q[..|rev|] == rev;
      var pos := Position(q, dirs[0]);
      assert q[|rev|] == dirs[0];
      assert pos == Some(|rev|) by {
        PositionAt(q, dirs[0], |rev|);
      }
      assert RemoveFirst(q, dirs[0]) == rev + ps by {
        assert q[..|rev|] + q[|rev| + 1..] == rev + ps;
      }
      forall d | d in dirs[1..] ensures d !in ps {
        assert d in dirs;
      }
      RemoveAdded(dirs[1..], ps);
    }
  }

  /** The first occurrence is at i when the element is there and nowhere before. */
  lemma PositionAt(ps: seq<string>, d: string, i: nat)
    requires i < |ps| && ps[i] == d && d !in ps[..i]
    ensures Position(ps, d) == Some(i)
  {
  }

  /** The suffix of a file name: what follows its last '.', or NULL. */
  function SuffixOf(fileName: Option<string>): (r: Option<string>)
    ensures fileName.None? ==> r.None?
    ensures fileName.Some? ==> (r.None? <==> '.' !in fileName.value)
    ensures r.Some? ==> exists i :: 0 <= i < |fileName.value| && fileName.value[i] == '.' &&
                                   r.value == fileName.value[i + 1..] && '.' !in r.value
  {
    if fileName.None? then None
    else match LastIndexOf(fileName.value, '.')
      case None => None
      case Some(i) => Some(fileName.value[i + 1..])
  }

  /** Whether an entry may serve a file of the given suffix. */
  predicate Accepts(info: FactoryInfo, suffix: Option<string>)
  {
    info.suffix.None? || info.suffix == suffix
  }

  /**
   * The factory choice: the first entry that accepts the suffix and whose
   * factory makes a loadable object.
   */
  function Chosen(loaders: seq<FactoryInfo>, suffix: Option<string>, makes: object -> bool): (r: Option<nat>)
    ensures r.Some? ==> r.value < |loaders| && Accepts(loaders[r.value], suffix) && makes(loaders[r.value].factory)
    ensures r.Some? ==> forall i :: 0 <= i < r.value ==> !(Accepts(loaders[i], suffix) && makes(loaders[i].factory))
    ensures r.None? ==> forall i :: 0 <= i < |loaders| ==> !(Accepts(loaders[i], suffix) && makes(loaders[i].factory))
  {
    if |loaders| == 0 then None
    else if Accepts(loaders[0], suffix) && makes(loaders[0].factory) then Some(0)
    else match Chosen(loaders[1..], suffix, makes)
      case None => None
      case Some(i) => Some(i + 1)
  }

  /**
   * Whether one attempt on one file name succeeds: the file exists (or no
   * name is given), a factory is chosen, and its object loads the file.  No
   * other factory is tried after the chosen one.
   */
  predicate LoadsFile(loaders: seq<FactoryInfo>, suffix: Option<string>, file: Option<string>,
                      exists_: string -> bool, makes: object -> bool, loads: (object, Option<string>) -> bool)
  {
    (file.None? || exists_(file.value)) &&
    match Chosen(loaders, suffix, makes)
    case None => false
    case Some(i) => loads(loaders[i].factory, file)
  }

  /** g_path_is_absolute on a POSIX system. */
  predicate IsAbsolute(s: string)
  {
    |s| > 0 && s[0] == '/'
  }

  /** The file names tried in turn: the name itself, then, for a relative name, each search path joined to it. */
  function Candidates(fileName: Option<string>, paths: seq<string>): (r: seq<Option<string>>)
    ensures |r| > 0 && r[0] == fileName
    ensures fileName.Some? && !IsAbsolute(fileName.value) ==>
              |r| == |paths| + 1 && forall k :: 0 <= k < |paths| ==> r[k + 1] == Some(BuildPath(paths[k], fileName.value))
    ensures fileName.None? || IsAbsolute(fileName.value) ==> r == [fileName]
  {
    if fileName.Some? && !IsAbsolute(fileName.value) then
      [fileName] + seq(|paths|, k requires 0 <= k < |paths| => Some(BuildPath(paths[k], fileName.value)))
    else [fileName]
  }

  /** The first candidate that loads. */
  function FirstLoaded(cands: seq<Option<string>>, from: nat, loaders: seq<FactoryInfo>, suffix: Option<string>,
                       exists_: string -> bool, makes: object -> bool, loads: (object, Option<string>) -> bool): (r: Option<nat>)
    requires from <= |cands|
    ensures r.Some? ==> from <= r.value < |cands| && LoadsFile(loaders, suffix, cands[r.value], exists_, makes, loads)
    ensures r.Some? ==> forall k :: from <= k < r.value ==> !LoadsFile(loaders, suffix, cands[k], exists_, makes, loads)
    ensures r.None? ==> forall k :: from <= k < |cands| ==> !LoadsFile(loaders, suffix, cands[k], exists_, makes, loads)
    decreases |cands| - from
  {
    if from == |cands| then None
    else if LoadsFile(loaders, suffix, cands[from], exists_, makes, loads) then Some(from)
    else FirstLoaded(cands, from + 1, loaders, suffix, exists_, makes, loads)
  }

  /** The string names among the cache keys. */
  function Names(keys: set<Option<string>>): (r: set<string>)
    ensures forall k :: k in r <==> Some(k) in keys
  {
    set o | o in keys && o.Some? :: o.value
  }

  /** Names wrapped back into cache keys. */
  function Somes(ks: seq<string>): (r: seq<Option<string>>)
    ensures |r| == |ks| && forall i :: 0 <= i < |ks| ==> r[i] == Some(ks[i])
  {
    seq(|ks|, i requires 0 <= i < |ks| => Some(ks[i]))
  }

  /** The cache keys in the order of the tree: a NULL name first, then the names by strcmp. */
  ghost function CacheOrder(keys: set<Option<string>>): seq<Option<string>>
  {
    (if None in keys then [None] else []) + Somes(InOrder(Names(keys)))
  }

  /** The order lists every cache key and nothing else. */
  lemma CacheOrderMembers(keys: set<Option<string>>)
    ensures forall k :: k in CacheOrder(keys) <==> k in keys
  {
    var names := InOrder(Names(keys));
    InOrderMembers(Names(keys));
    var wrapped := Somes(names);
    forall k ensures k in CacheOrder(keys) <==> k in keys {
      if k.Some? && k in keys {
        assert k.value in names;
        var i :| 0 <= i < |names| && names[i] == k.value;
        assert wrapped[i] == k;
      }
      if k in wrapped {
        var i :| 0 <= i < |wrapped| && wrapped[i] == k;
        assert names[i] in names;
      }
    }
  }

  /** The order is strictly ascending under the tree's comparator, so each key comes once. */
  lemma CacheOrderIncreasing(keys: set<Option<string>>)
    ensures forall i, j :: 0 <= i < j < |CacheOrder(keys)| ==> CompareNullable(CacheOrder(keys)[i], CacheOrder(keys)[j]) < 0
  {
    var names := InOrder(Names(keys));
    InOrderIncreasing(Names(keys));
    var order := CacheOrder(keys);
    var pre := if None in keys then 1 else 0;
    forall i, j | 0 <= i < j < |order| ensures CompareNullable(order[i], order[j]) < 0 {
      if i >= pre {
        assert order[i] == Some(names[i - pre]) && order[j] == Some(names[j - pre]);
      }
    }
  }

  /** The values of a map at the given keys, in order. */
  function ValuesAt<K, V>(m: map<K, V>, keys: seq<K>): (r: seq<V>)
    requires forall k :: k in keys ==> k in m
    ensures |r| == |keys| && forall i :: 0 <= i < |keys| ==> r[i] == m[keys[i]]
  {
    if |keys| == 0 then [] else [m[keys[0]]] + ValuesAt(m, keys[1..])
  }

  /** The cached objects in the order of the tree. */
  ghost function CachedInOrder(c: map<Option<string>, Loadable>): seq<Loadable>
  {
    CacheOrderMembers(c.Keys);
    ValuesAt(c, CacheOrder(c.Keys))
  }

  /** Whether a loadable file name has a factory: its suffix or the wildcard is registered. */
  predicate Registered(loaders: seq<FactoryInfo>, suffix: Option<string>)
  {
    FindSuffix(loaders, suffix).Some? || FindSuffix(loaders, None).Some?
  }

  /** Whether the loader is cached and holds an object for the name. */
  predicate Cached(cache: Option<map<Option<string>, Loadable>>, fileName: Option<string>)
  {
    cache.Some? && fileName in cache.value
  }


  class Loader {
    /** The search paths, head first. */
    var paths: seq<string>
    /** The factory entries, head first. */
    var loaders: seq<FactoryInfo>
    /** The cache of loaded objects by file name, present only for a cached loader. */
    var cache: Option<map<Option<string>, Loadable>>

    /** new / new_cached: no paths, no factories, and an empty cache only when cached. */
    constructor (cached: bool)
      ensures paths == [] && loaders == []
      ensures cache == if cached then Some(map[]) else None
    {
      paths := [];
      loaders := [];
      cache := if cached then Some(map[]) else None;
    }

    /** register: false when an entry for this suffix exists; a suffixed entry goes to the head, the wildcard to the tail. */
    method Register(suffix: Option<string>, factory: object) returns (ok: bool)
      modifies this
      ensures ok <==> FindSuffix(old(loaders), suffix).None?
      ensures ok && suffix.Some? ==> loaders == [FactoryInfo(suffix, factory)] + old(loaders)
      ensures ok && suffix.None? ==> loaders == old(loaders) + [FactoryInfo(suffix, factory)]
      ensures !ok ==> loaders == old(loaders)
      ensures paths == old(paths) && cache == old(cache)
    {
      if FindSuffix(loaders, suffix).Some? {
        return false;
      }
      if suffix.Some? {
        loaders := [FactoryInfo(suffix, factory)] + loaders;
      } else {
        loaders := loaders + [FactoryInfo(suffix, factory)];
      }
      ok := true;
    }

    /** unregister: removes the entry for this suffix, if any, and keeps the others in order. */
    method Unregister(suffix: Option<string>)
      modifies this
      ensures FindSuffix(old(loaders), suffix).None? ==> loaders == old(loaders)
      ensures FindSuffix(old(loaders), suffix).Some? ==>
                var i := FindSuffix(old(loaders), suffix).value;
                loaders == old(loaders)[..i] + old(loaders)[i + 1..]
      ensures paths == old(paths) && cache == old(cache)
    {
      var found := FindSuffix(loaders, suffix);
      if found.Some? {
        loaders := loaders[..found.value] + loaders[found.value + 1..];
      }
    }

    /** add_paths: each entry of the ':'-separated list is pushed at the head, so later entries come first. */
    method AddPaths(list: Option<string>)
      modifies this
      ensures list.None? ==> paths == old(paths)
      ensures list.Some? ==> paths == Reversed(Split(list.value, ':')) + old(paths)
      ensures loaders == old(loaders) && cache == old(cache)
    {
      if list.None? {
        return;
      }
      var dirs := Split(list.value, ':');
      var i := 0;
      while i < |dirs|
        invariant 0 <= i <= |dirs|
        invariant paths == Reversed(dirs[..i]) + old(paths)
        invariant loaders == old(loaders) && cache == old(cache)
      {
        assert dirs[..i + 1][1..] == dirs[1..][..i] || i == 0;
        ReversedSnoc(dirs[..i], dirs[i]);
        assert dirs[..i + 1] == dirs[..i] + [dirs[i]];
        paths := [dirs[i]] + paths;
        i := i + 1;
      }
      assert dirs[..i] == dirs;
    }

    /** remove_paths: for each listed dir, the first matching entry of the queue goes. */
    method RemovePaths(list: Option<string>)
      modifies this
      ensures list.None? ==> paths == old(paths)
      ensures list.Some? ==> paths == RemoveEach(old(paths), Split(list.value, ':'))
      ensures loaders == old(loaders) && cache == old(cache)
    {
      if list.None? {
        return;
      }
      var dirs := Split(list.value, ':');
      var i := 0;
      while i < |dirs|
        invariant 0 <= i <= |dirs|
        invariant RemoveEach(old(paths), dirs) == RemoveEach(paths, dirs[i..])
        invariant loaders == old(loaders) && cache == old(cache)
      {
        assert dirs[i..][1..] == dirs[i + 1..];
        var at := Position(paths, dirs[i]);
        if at.Some? {
          paths := paths[..at.value] + paths[at.value + 1..];
        }
        i := i + 1;
      }
    }

    /** dup_paths: a head-to-tail copy of the queue, or NULL when it is empty. */
    method DupPaths() returns (r: Option<seq<string>>)
      ensures r.None? <==> paths == []
      ensures r.Some? ==> r.value == paths
    {
      if |paths| > 0 {
        r := Some(paths);
      } else {
        r := None;
      }
    }

    /**
     * One attempt on one file name: NO_FILE when the file does not exist;
     * otherwise the first accepting factory that makes an object decides,
     * and the object is returned only if it loads the file.
     */
    method LoadFile(suffix: Option<string>, file: Option<string>, exists_: string -> bool,
                    makes: object -> bool, loads: (object, Option<string>) -> bool, err: LastError)
      returns (r: Option<Loadable>)
      modifies err
      ensures r.Some? <==> LoadsFile(loaders, suffix, file, exists_, makes, loads)
      ensures r.Some? ==> fresh(r.value) && r.value.fileName == file &&
                          r.value.factory == loaders[Chosen(loaders, suffix, makes).value].factory
    {
      if file.Some? && !exists_(file.value) {
        err.SetErrorFull(NO_FILE, Some("GimoLoader file not exist: " + file.value));
        return None;
      }
      var i := 0;
      while i < |loaders|
        invariant 0 <= i <= |loaders|
        invariant forall j :: 0 <= j < i ==> !(Accepts(loaders[j], suffix) && makes(loaders[j].factory))
      {
        var info := loaders[i];
        if info.suffix.Some? && (suffix.None? || suffix.value != info.suffix.value) {
          i := i + 1;
          continue;
        }
        if makes(info.factory) {
          assert Chosen(loaders, suffix, makes) == Some(i) by {
            ChosenAt(loaders, suffix, makes, i);
          }
          if !loads(info.factory, file) {
            return None;
          }
          var l := new Loadable(file, info.factory);
          return Some(l);
        }
        i := i + 1;
      }
      return None;
    }

    /** The candidates tried in turn until one loads. */
    method LoadFirst(cands: seq<Option<string>>, suffix: Option<string>, exists_: string -> bool,
                     makes: object -> bool, loads: (object, Option<string>) -> bool, err: LastError)
      returns (r: Option<Loadable>)
      modifies err
      ensures var first := FirstLoaded(cands, 0, loaders, suffix, exists_, makes, loads);
              (r.Some? <==> first.Some?) &&
              (r.Some? ==> fresh(r.value) && r.value.fileName == cands[first.value] &&
                           r.value.factory == loaders[Chosen(loaders, suffix, makes).value].factory)
    {
      var k := 0;
      r := None;
      while k < |cands| && r.None?
        invariant 0 <= k <= |cands|
        invariant r.None? ==> forall j :: 0 <= j < k ==> !LoadsFile(loaders, suffix, cands[j], exists_, makes, loads)
        invariant r.Some? ==> 0 < k && FirstLoaded(cands, 0, loaders, suffix, exists_, makes, loads) == Some(k - 1) &&
                              fresh(r.value) && r.value.fileName == cands[k - 1] &&
                              r.value.factory == loaders[Chosen(loaders, suffix, makes).value].factory
      {
        r := LoadFile(suffix, cands[k], exists_, makes, loads, err);
        if r.Some? {
          FirstLoadedAt(cands, k, loaders, suffix, exists_, makes, loads);
        }
        k := k + 1;
      }
    }

    /**
     * load: NULL at once when neither the file's suffix nor the wildcard is
     * registered; the cached object when there is one; otherwise the file
     * name, and then each search path joined to a relative name, until one
     * loads.  A cached loader remembers what it loaded.
     */
    method Load(fileName: Option<string>, exists_: string -> bool, makes: object -> bool,
                loads: (object, Option<string>) -> bool, err: LastError)
      returns (r: Option<Loadable>)
      modifies this, err
      ensures paths == old(paths) && loaders == old(loaders)
      ensures !Registered(loaders, SuffixOf(fileName)) ==> r.None? && cache == old(cache)
      ensures Registered(loaders, SuffixOf(fileName)) && Cached(old(cache), fileName) ==>
                r == Some(old(cache).value[fileName]) && cache == old(cache)
      ensures Registered(loaders, SuffixOf(fileName)) && !Cached(old(cache), fileName) ==>
                var cands := Candidates(fileName, paths);
                var first := FirstLoaded(cands, 0, loaders, SuffixOf(fileName), exists_, makes, loads);
                (r.Some? <==> first.Some?) &&
                (r.Some? ==> fresh(r.value) && r.value.fileName == cands[first.value]) &&
                cache == (if r.Some? && old(cache).Some? then Some(old(cache).value[fileName := r.value]) else old(cache))
    {
      var suffix := SuffixOf(fileName);
      if !Registered(loaders, suffix) {
        return None;
      }
      if cache.Some? && fileName in cache.value {
        return Some(cache.value[fileName]);
      }
      r := LoadFirst(Candidates(fileName, paths), suffix, exists_, makes, loads, err);
      if r.Some? && cache.Some? {
        cache := Some(cache.value[fileName := r.value]);
      }
    }

    /** query_cached: the cached objects in name order, or NULL when the loader is uncached or the cache empty. */
    method QueryCached() returns (r: Option<seq<Loadable>>)
      ensures r.None? <==> cache.None? || cache.value == map[]
      ensures r.Some? ==> r.value == CachedInOrder(cache.value)
    {
      if cache.None? || cache.value == map[] {
        return None;
      }
      var c := cache.value;
      var names := SortedKeys(Names(c.Keys));
      var keys := (if None in c then [None] else []) + Somes(names);
      CacheOrderMembers(c.Keys);
      assert keys == CacheOrder(c.Keys);
      r := Some(ValuesAt(c, keys));
    }
  }

  lemma ReversedSnoc(s: seq<string>, x: string)
    ensures Reversed(s + [x]) == [x] + Reversed(s)
  {
    var a := Reversed(s + [x]);
    var b := [x] + Reversed(s);
    assert forall i :: 0 <= i < |a| ==> a[i] == b[i];
  }

  lemma ChosenAt(loaders: seq<FactoryInfo>, suffix: Option<string>, makes: object -> bool, i: nat)
    requires i < |loaders| && Accepts(loaders[i], suffix) && makes(loaders[i].factory)
    requires forall j :: 0 <= j < i ==> !(Accepts(loaders[j], suffix) && makes(loaders[j].factory))
    ensures Chosen(loaders, suffix, makes) == Some(i)
  {
  }

  lemma FirstLoadedAt(cands: seq<Option<string>>, i: nat, loaders: seq<FactoryInfo>, suffix: Option<string>,
                      exists_: string -> bool, makes: object -> bool, loads: (object, Option<string>) -> bool)
    requires i < |cands| && LoadsFile(loaders, suffix, cands[i], exists_, makes, loads)
    requires forall j :: 0 <= j < i ==> !LoadsFile(loaders, suffix, cands[j], exists_, makes, loads)
    ensures FirstLoaded(cands, 0, loaders, suffix, exists_, makes, loads) == Some(i)
  {
  }

  /**
   * The loader test: a cached loader returns the identical object for a
   * repeated name, while an uncached one makes a new object each time.
   */
  method LoadTwice(l: Loader, name: string, exists_: string -> bool, makes: object -> bool,
                   loads: (object, Option<string>) -> bool, err: LastError)
    returns (first: Option<Loadable>, second: Option<Loadable>)
    requires FindSuffix(l.loaders, None).Some?
    requires l.cache.Some? ==> Some(name) !in l.cache.value
    modifies l, err
    ensures first.Some? && l.cache.Some? ==> second == first
    ensures first.Some? && old(l.cache).None? ==> second.Some? && second != first
  {
    first := l.Load(Some(name), exists_, makes, loads, err);
    second := l.Load(Some(name), exists_, makes, loads, err);
  }

  /**
   * The path part of the loader test: a new loader has no paths, a list of
   * four distinct directories gives four entries, loading before any
   * factory is registered fails, and removing the same list leaves none.
   */
  method PathsScenario(list: string, cached: bool, exists_: string -> bool, makes: object -> bool,
                       loads: (object, Option<string>) -> bool, err: LastError)
    returns (before: Option<seq<string>>, added: Option<seq<string>>, early: Option<Loadable>, after: Option<seq<string>>)
    requires |Split(list, ':')| == 4
    requires forall i, j :: 0 <= i < j < 4 ==> Split(list, ':')[i] != Split(list, ':')[j]
    modifies err
    ensures before.None? && after.None? && early.None?
    ensures added.Some? && |added.value| == 4
  {
    var l := new Loader(cached);
    before := l.DupPaths();
    l.AddPaths(Some(list));
    added := l.DupPaths();
    early := l.Load(Some("demo-plugin"), exists_, makes, loads, err);
    RemoveAdded(Split(list, ':'), []);
    l.RemovePaths(Some(list));
    after := l.DupPaths();
  }
}
