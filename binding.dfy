/**
 * Per-object bindings: every object may carry a lazily created table from
 * keys to either an object or a string.  Each entry remembers which of the
 * two it holds, so a string is never returned where an object is asked for
 * and the other way round.
 */
module Binding {
  import opened Wrappers

  /** One binding: the data and its tag. */
  datatype Bound = ObjectData(obj: object) | StringData(text: string)

  /** The table of every object that has been bound to at least once. */
  type Locations = map<object, map<string, Bound>>

  /** The entry stored under key on target, if any. */
  function Entry(locs: Locations, target: object, key: string): (r: Option<Bound>)
    ensures r.Some? <==> target in locs && key in locs[target]
    ensures r.Some? ==> r.value == locs[target][key]
  {
    if target in locs && key in locs[target] then Some(locs[target][key]) else None
  }

  /** The table of target, or an empty one if it has none yet. */
  function Slot(locs: Locations, target: object): map<string, Bound>
  {
    if target in locs then locs[target] else map[]
  }

  /**
   * bind on the tables: the location of target is created if missing, then
   * data replaces the entry under key, or its absence removes that entry.
   */
  function Bind(locs: Locations, target: object, key: string, data: Option<Bound>): (r: Locations)
    ensures r.Keys == locs.Keys + {target}
    ensures Entry(r, target, key) == data
    ensures forall k :: k != key ==> Entry(r, target, k) == Entry(locs, target, k)
    ensures forall o | o in locs && o != target :: r[o] == locs[o]
  {
    var slot := Slot(locs, target);
    locs[target := if data.Some? then slot[key := data.value] else slot - {key}]
  }

  /** lookup_object on the tables: the object bound under key, or NULL for a missing or string entry. */
  function LookupObjectIn(locs: Locations, target: object, key: string): (r: Option<object>)
    ensures r.Some? <==> Entry(locs, target, key).Some? && Entry(locs, target, key).value.ObjectData?
    ensures r.Some? ==> Entry(locs, target, key) == Some(ObjectData(r.value))
  {
    match Entry(locs, target, key)
    case Some(ObjectData(o)) => Some(o)
    case _ => None
  }

  /** lookup_string on the tables: the string bound under key, or NULL for a missing or object entry. */
  function LookupStringIn(locs: Locations, target: object, key: string): (r: Option<string>)
    ensures r.Some? <==> Entry(locs, target, key).Some? && Entry(locs, target, key).value.StringData?
    ensures r.Some? ==> Entry(locs, target, key) == Some(StringData(r.value))
  {
    match Entry(locs, target, key)
    case Some(StringData(s)) => Some(s)
    case _ => None
  }

  /** What bind_object or bind_string stores for a possibly NULL argument. */
  function ObjectArg(data: object?): (r: Option<Bound>)
    ensures r.None? <==> data == null
    ensures data != null ==> r == Some(ObjectData(data))
  {
    if data == null then None else Some(ObjectData(data))
  }

  function StringArg(data: Option<string>): (r: Option<Bound>)
    ensures r.None? <==> data.None?
    ensures data.Some? ==> r == Some(StringData(data.value))
  {
    if data.None? then None else Some(StringData(data.value))
  }

  /** A string that was bound is looked up again unchanged, and is invisible to lookup_object. */
  lemma StringRoundTrip(locs: Locations, target: object, key: string, s: string)
    ensures LookupStringIn(Bind(locs, target, key, StringArg(Some(s))), target, key) == Some(s)
    ensures LookupObjectIn(Bind(locs, target, key, StringArg(Some(s))), target, key) == None
  {
  }

  /** An object that was bound is looked up again as the same reference, and is invisible to lookup_string. */
  lemma ObjectRoundTrip(locs: Locations, target: object, key: string, o: object)
    ensures LookupObjectIn(Bind(locs, target, key, ObjectArg(o)), target, key) == Some(o)
    ensures LookupStringIn(Bind(locs, target, key, ObjectArg(o)), target, key) == None
  {
  }

  /** Binding NULL removes the key, whatever it held. */
  lemma BindNullRemoves(locs: Locations, target: object, key: string)
    ensures LookupObjectIn(Bind(locs, target, key, None), target, key) == None
    ensures LookupStringIn(Bind(locs, target, key, None), target, key) == None
  {
  }

  /** A binding on one object under one key leaves every other object and key as it was. */
  lemma BindIsolated(locs: Locations, target: object, key: string, data: Option<Bound>, other: object, otherKey: string)
    requires other != target || otherKey != key
    ensures LookupObjectIn(Bind(locs, target, key, data), other, otherKey) == LookupObjectIn(locs, other, otherKey)
    ensures LookupStringIn(Bind(locs, target, key, data), other, otherKey) == LookupStringIn(locs, other, otherKey)
  {
  }

  /** Rebinding a key replaces the previous binding: only the last one is seen. */
  lemma RebindReplaces(locs: Locations, target: object, key: string, first: Option<Bound>, second: Option<Bound>)
    ensures Entry(Bind(Bind(locs, target, key, first), target, key, second), target, key) == second
    ensures Bind(Bind(locs, target, key, first), target, key, second) == Bind(locs, target, key, second)
  {
    var mid := Bind(locs, target, key, first);
    var a := Bind(mid, target, key, second);
    var b := Bind(locs, target, key, second);
    forall k ensures k in a[target] <==> k in b[target] {
      assert Entry(a, target, k) == Entry(b, target, k);
    }
    forall k | k in a[target] ensures a[target][k] == b[target][k] {
      assert Entry(a, target, k) == Entry(b, target, k);
    }
    assert a[target] == b[target];
  }

  /** The process-wide binding tables, one location per object that has been bound to. */
  class Bindings {
    var locations: Locations

    constructor ()
      ensures locations == map[]
    {
      locations := map[];
    }

    /** bind_object: data, or NULL to remove; the location of target is created either way. */
    method BindObject(target: object, key: string, data: object?)
      modifies this
      ensures locations == Bind(old(locations), target, key, ObjectArg(data))
    {
      var slot := Slot(locations, target);
      if data != null {
        locations := locations[target := slot[key := ObjectData(data)]];
      } else {
        locations := locations[target := slot - {key}];
      }
    }

    /** bind_string: a copy of data, or NULL to remove; the location of target is created either way. */
    method BindString(target: object, key: string, data: Option<string>)
      modifies this
      ensures locations == Bind(old(locations), target, key, StringArg(data))
    {
      var slot := Slot(locations, target);
      if data.Some? {
        locations := locations[target := slot[key := StringData(data.value)]];
      } else {
        locations := locations[target := slot - {key}];
      }
    }

    /** lookup_object: never creates a location. */
    method LookupObject(target: object, key: string) returns (r: Option<object>)
      ensures r == LookupObjectIn(locations, target, key)
    {
      if target !in locations {
        return None;
      }
      var l := locations[target];
      if key !in l {
        return None;
      }
      var d := l[key];
      if !d.ObjectData? {
        return None;
      }
      r := Some(d.obj);
    }

    /** lookup_string: never creates a location. */
    method LookupString(target: object, key: string) returns (r: Option<string>)
      ensures r == LookupStringIn(locations, target, key)
    {
      if target !in locations {
        return None;
      }
      var l := locations[target];
      if key !in l {
        return None;
      }
      var d := l[key];
      if d.ObjectData? {
        return None;
      }
      r := Some(d.text);
    }

    /** query_object: the same result as lookup_object, handed out with a reference of its own. */
    method QueryObject(target: object, key: string) returns (r: Option<object>)
      ensures r == LookupObjectIn(locations, target, key)
    {
      r := LookupObject(target, key);
    }

    /** query_string: a copy of the lookup_string result. */
    method QueryString(target: object, key: string) returns (r: Option<string>)
      ensures r == LookupStringIn(locations, target, key)
    {
      r := LookupString(target, key);
    }
  }

  /**
   * The scenario of the data-store test: a string bound on one object is
   * found there, and an object lookup on a second, never bound object finds
   * nothing until that object is bound to it.
   */
  method BindScenario(b: Bindings, store: object, obj: object)
    requires store != obj && store !in b.locations && obj !in b.locations
    modifies b
    ensures LookupStringIn(b.locations, obj, "bind") == Some("string")
    ensures LookupObjectIn(b.locations, store, "bind") == Some(obj)
  {
    var before := b.LookupString(obj, "bind");
    assert before.None?;
    b.BindString(obj, "bind", Some("string"));
    var found := b.LookupObject(store, "bind");
    assert found.None?;
    ghost var mid := b.locations;
    b.BindObject(store, "bind", obj);
    BindIsolated(mid, store, "bind", ObjectArg(obj), obj, "bind");
  }
}
