/**
 * The data store: a string-keyed table of typed values, kept in key order,
 * where storing NULL removes a key; and a second, independent per-object
 * table of typed values (bind / lookup) kept in the same file.
 */
module DataStore {
  import opened Wrappers
  import opened Str
  import opened Sorting

  /** A stored value and its type: strings and objects may themselves be NULL. */
  datatype Value =
    | StringValue(str: Option<string>)
    | ObjectValue(obj: Option<object>)
    | IntValue(n: int)
    | OtherValue(typeName: string)

  type Table = map<string, Value>

  /** set on a table: a value replaces whatever the key held, of any type; NULL removes the key. */
  function Store(d: Table, key: string, value: Option<Value>): (r: Table)
    ensures value.Some? ==> r.Keys == d.Keys + {key} && r[key] == value.value
    ensures value.None? ==> r.Keys == d.Keys - {key}
    ensures forall k | k in d && k != key :: r[k] == d[k]
  {
    if value.Some? then d[key := value.value] else d - {key}
  }

  /** get on a table. */
  function Fetch(d: Table, key: string): (r: Option<Value>)
    ensures r.Some? <==> key in d
    ensures r.Some? ==> r.value == d[key]
  {
    if key in d then Some(d[key]) else None
  }

  /** get_string on a table: the string of a string-typed value, NULL otherwise. */
  function StringAt(d: Table, key: string): (r: Option<string>)
    ensures r.Some? ==> key in d && d[key] == StringValue(r)
    ensures key in d && d[key].StringValue? ==> r == d[key].str
    ensures key !in d || !d[key].StringValue? ==> r.None?
  {
    if key in d && d[key].StringValue? then d[key].str else None
  }

  /** get_object on a table: the object of an object-typed value, NULL otherwise. */
  function ObjectAt(d: Table, key: string): (r: Option<object>)
    ensures r.Some? ==> key in d && d[key] == ObjectValue(r)
    ensures key in d && d[key].ObjectValue? ==> r == d[key].obj
    ensures key !in d || !d[key].ObjectValue? ==> r.None?
  {
    if key in d && d[key].ObjectValue? then d[key].obj else None
  }

  /** What set_string and set_object store for a possibly NULL argument. */
  function StringArg(value: Option<string>): (r: Option<Value>)
    ensures r.None? <==> value.None?
    ensures value.Some? ==> r == Some(StringValue(value))
  {
    if value.None? then None else Some(StringValue(value))
  }

  function ObjectArg(value: Option<object>): (r: Option<Value>)
    ensures r.None? <==> value.None?
    ensures value.Some? ==> r == Some(ObjectValue(value))
  {
    if value.None? then None else Some(ObjectValue(value))
  }

  /** A stored value is what get returns for that key; other keys keep theirs. */
  lemma SetThenGet(d: Table, key: string, value: Value, other: string)
    ensures Fetch(Store(d, key, Some(value)), key) == Some(value)
    ensures other != key ==> Fetch(Store(d, key, Some(value)), other) == Fetch(d, other)
  {
  }

  /** Storing NULL, directly or through set_string / set_object, removes the key. */
  lemma SetNullRemoves(d: Table, key: string)
    ensures Fetch(Store(d, key, None), key).None?
    ensures Store(d, key, StringArg(None)) == Store(d, key, None)
    ensures Store(d, key, ObjectArg(None)) == Store(d, key, None)
  {
  }

  /** A value of one type is replaced by a value of another: the last set decides what get sees. */
  lemma SetReplacesAcrossTypes(d: Table, key: string, first: Value, second: Value)
    ensures Store(Store(d, key, Some(first)), key, Some(second)) == Store(d, key, Some(second))
  {
  }

  /** The typed getters see only their own type: a string is no object and an object no string. */
  lemma TypedGetters(d: Table, key: string, s: string, o: object)
    ensures StringAt(Store(d, key, StringArg(Some(s))), key) == Some(s)
    ensures ObjectAt(Store(d, key, StringArg(Some(s))), key).None?
    ensures ObjectAt(Store(d, key, ObjectArg(Some(o))), key) == Some(o)
    ensures StringAt(Store(d, key, ObjectArg(Some(o))), key).None?
  {
  }

  /** Every key of the listing is stored in the table. */
  predicate AllStored(keys: seq<string>, d: Table)
  {
    forall j :: 0 <= j < |keys| ==> keys[j] in d
  }

  /**
   * foreach on a listing of keys, from position i on: the keys visited, in
   * order, up to and including the first one for which the callback asks
   * to stop.
   */
  function Visit(keys: seq<string>, i: nat, d: Table, stop: (string, Value) -> bool): (r: seq<string>)
    requires i <= |keys| && AllStored(keys, d)
    ensures |r| <= |keys| - i
    ensures forall j :: 0 <= j < |r| ==> r[j] == keys[i + j]
    decreases |keys| - i
  {
    if i == |keys| then []
    else if stop(keys[i], d[keys[i]]) then [keys[i]]
    else [keys[i]] + Visit(keys, i + 1, d, stop)
  }

  /**
   * foreach stops exactly at the first key whose callback returns true: no
   * earlier key stopped it, it ends early only because the last one did,
   * and a callback that never stops sees the whole listing.
   */
  lemma {:induction false} VisitStopsAtFirst(keys: seq<string>, i: nat, d: Table, stop: (string, Value) -> bool)
    requires i <= |keys| && AllStored(keys, d)
    ensures var r := Visit(keys, i, d, stop);
            (forall j :: 0 <= j < |r| - 1 ==> !stop(r[j], d[r[j]])) &&
            (|r| < |keys| - i ==> |r| > 0 && stop(r[|r| - 1], d[r[|r| - 1]])) &&
            ((forall j :: i <= j < |keys| ==> !stop(keys[j], d[keys[j]])) ==> r == keys[i..])
    decreases |keys| - i
  {
    if i < |keys| && !stop(keys[i], d[keys[i]]) {
      VisitStopsAtFirst(keys, i + 1, d, stop);
      var r := Visit(keys, i, d, stop);
      var t := Visit(keys, i + 1, d, stop);
      assert r == [keys[i]] + t;
      forall j | 0 <= j < |r| - 1 ensures !stop(r[j], d[r[j]]) {
        if j > 0 { assert r[j] == t[j - 1]; }
      }
      if forall j :: i <= j < |keys| ==> !stop(keys[j], d[keys[j]]) {
        assert keys[i..] == [keys[i]] + keys[i + 1..];
      }
    }
  }

  /** The keys foreach visits come in strictly ascending order. */
  lemma VisitAscending(d: Table, stop: (string, Value) -> bool)
    ensures AllStored(InOrder(d.Keys), d)
    ensures StrictlyIncreasing(Visit(InOrder(d.Keys), 0, d, stop))
  {
    InOrderMembers(d.Keys);
    InOrderIncreasing(d.Keys);
  }

  /** A callback that never stops sees every key of the store exactly once. */
  lemma VisitAll(d: Table, stop: (string, Value) -> bool)
    requires forall k :: k in d ==> !stop(k, d[k])
    ensures AllStored(InOrder(d.Keys), d)
    ensures var r := Visit(InOrder(d.Keys), 0, d, stop);
            |r| == |d| && forall k :: k in r <==> k in d
  {
    var keys := InOrder(d.Keys);
    InOrderMembers(d.Keys);
    VisitStopsAtFirst(keys, 0, d, stop);
    assert keys[0..] == keys;
  }

  class DataStore {
    var datas: Table

    /** A new store is empty. */
    constructor ()
      ensures datas == map[]
    {
      datas := map[];
    }

    /** set: a copy of value replaces any previous value of key; NULL removes key. */
    method Set(key: string, value: Option<Value>)
      modifies this
      ensures datas == Store(old(datas), key, value)
    {
      if value.Some? {
        datas := datas[key := value.value];
      } else {
        datas := datas - {key};
      }
    }

    /** get: the value of key, or NULL if absent. */
    method Get(key: string) returns (r: Option<Value>)
      ensures r == Fetch(datas, key)
    {
      if key in datas {
        r := Some(datas[key]);
      } else {
        r := None;
      }
    }

    /** set_string: a string-typed value, or NULL to remove. */
    method SetString(key: string, value: Option<string>)
      modifies this
      ensures datas == Store(old(datas), key, StringArg(value))
    {
      if value.Some? {
        Set(key, Some(StringValue(value)));
      } else {
        Set(key, None);
      }
    }

    /** get_string: the stored value only if it holds a string. */
    method GetString(key: string) returns (r: Option<string>)
      ensures r == StringAt(datas, key)
    {
      var v := Get(key);
      if v.Some? && v.value.StringValue? {
        r := v.value.str;
      } else {
        r := None;
      }
    }

    /** set_object: an object-typed value, or NULL to remove. */
    method SetObject(key: string, value: Option<object>)
      modifies this
      ensures datas == Store(old(datas), key, ObjectArg(value))
    {
      if value.Some? {
        Set(key, Some(ObjectValue(value)));
      } else {
        Set(key, None);
      }
    }

    /** get_object: the stored value only if it holds an object. */
    method GetObject(key: string) returns (r: Option<object>)
      ensures r == ObjectAt(datas, key)
    {
      var v := Get(key);
      if v.Some? && v.value.ObjectValue? {
        r := v.value.obj;
      } else {
        r := None;
      }
    }

    /**
     * foreach: calls stop on each entry in ascending key order until it
     * returns true; the result lists the keys it was called on.
     */
    method Foreach(stop: (string, Value) -> bool) returns (visited: seq<string>)
      ensures AllStored(InOrder(datas.Keys), datas)
      ensures visited == Visit(InOrder(datas.Keys), 0, datas, stop)
    {
      var d := datas;
      var keys := SortedKeys(d.Keys);
      InOrderMembers(d.Keys);
      assert AllStored(keys, d);
      visited := [];
      var i := 0;
      while i < |keys|
        invariant 0 <= i <= |keys|
        invariant Visit(keys, 0, d, stop) == visited + Visit(keys, i, d, stop)
        decreases |keys| - i
      {
        var k := keys[i];
        visited := visited + [k];
        if stop(k, d[k]) {
          return;
        }
        i := i + 1;
      }
    }
  }

  /**
   * The data-store test: a fresh store has neither a string nor an object
   * under "hello"; after set_string the string is found and get reports a
   * string; after set_object on the same key the object replaces it.
   */
  method StoreScenario(obj: object) returns (s: DataStore)
    ensures StringAt(s.datas, "hello").None?
    ensures ObjectAt(s.datas, "hello") == Some(obj)
    ensures Fetch(s.datas, "hello") == Some(ObjectValue(Some(obj)))
  {
    s := new DataStore();
    var noString := s.GetString("hello");
    var noObject := s.GetObject("hello");
    assert noString.None? && noObject.None?;
    s.SetString("hello", Some("world"));
    var found := s.GetString("hello");
    assert found == Some("world");
    var v := s.Get("hello");
    assert v.Some? && v.value.StringValue?;
    s.SetObject("hello", Some(obj));
  }

  /** A store nested in another is retrieved as the identical object, still holding its own data. */
  method NestedScenario() returns (outer: DataStore, inner: DataStore)
    ensures ObjectAt(outer.datas, "test") == Some(inner as object)
    ensures StringAt(inner.datas, "test") == Some("world")
  {
    outer := new DataStore();
    outer.Set("test", Some(IntValue(1)));
    outer.SetString("test", Some("hello"));
    inner := new DataStore();
    inner.SetString("test", Some("world"));
    outer.SetObject("test", Some(inner as object));
  }

  /** The per-object value tables of bind / lookup, one location per object bound to. */
  class ValueBindings {
    var locations: map<object, Table>

    constructor ()
      ensures locations == map[]
    {
      locations := map[];
    }

    /** The table of target, or an empty one when it has none. */
    function Slot(target: object): (r: Table)
      reads this
      ensures target in locations ==> r == locations[target]
      ensures target !in locations ==> r == map[]
    {
      if target in locations then locations[target] else map[]
    }

    /** bind: creates the location of target, then stores a copy of value or removes key. */
    method Bind(target: object, key: string, value: Option<Value>)
      modifies this
      ensures locations == old(locations)[target := Store(old(Slot(target)), key, value)]
    {
      locations := locations[target := Store(Slot(target), key, value)];
    }

    /** lookup: the value bound under key on target, NULL without creating a location. */
    method Lookup(target: object, key: string) returns (r: Option<Value>)
      ensures r == Fetch(Slot(target), key)
    {
      if target !in locations {
        return None;
      }
      r := Fetch(locations[target], key);
    }

    method BindString(target: object, key: string, value: Option<string>)
      modifies this
      ensures locations == old(locations)[target := Store(old(Slot(target)), key, StringArg(value))]
    {
      if value.Some? {
        Bind(target, key, Some(StringValue(value)));
      } else {
        Bind(target, key, None);
      }
    }

    /** lookup_string: the bound value only if it holds a string. */
    method LookupString(target: object, key: string) returns (r: Option<string>)
      ensures r == StringAt(Slot(target), key)
    {
      var v := Lookup(target, key);
      if v.Some? && v.value.StringValue? {
        r := v.value.str;
      } else {
        r := None;
      }
    }

    method BindObject(target: object, key: string, value: Option<object>)
      modifies this
      ensures locations == old(locations)[target := Store(old(Slot(target)), key, ObjectArg(value))]
    {
      if value.Some? {
        Bind(target, key, Some(ObjectValue(value)));
      } else {
        Bind(target, key, None);
      }
    }

    /** lookup_object: the bound value only if it holds an object. */
    method LookupObject(target: object, key: string) returns (r: Option<object>)
      ensures r == ObjectAt(Slot(target), key)
    {
      var v := Lookup(target, key);
      if v.Some? && v.value.ObjectValue? {
        r := v.value.obj;
      } else {
        r := None;
      }
    }
  }

  /** A value bound on one object is found there and on no other object. */
  method BindPerObject(b: ValueBindings, target: object, other: object, key: string, s: string)
    requires other != target
    modifies b
    ensures StringAt(b.Slot(target), key) == Some(s)
    ensures b.Slot(other) == old(b.Slot(other))
  {
    b.BindString(target, key, Some(s));
  }
}
