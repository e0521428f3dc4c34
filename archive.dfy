/**
 * The object archive: a table from identifiers to objects in which an
 * identifier, once taken, is never overwritten by a later add.  A NULL
 * identifier is ordered before every string and is a key like any other.
 */
module Archive {
  import opened Wrappers

  type Objects = map<Option<string>, object>

  /** add_object on a table: the new table and whether the object was stored. */
  function Add(m: Objects, id: Option<string>, obj: object): (r: (Objects, bool))
    ensures r.1 <==> id !in m
    ensures r.1 ==> r.0.Keys == m.Keys + {id} && r.0[id] == obj
    ensures forall k | k in m :: k in r.0 && r.0[k] == m[k]
    ensures !r.1 ==> r.0 == m
  {
    if id in m then (m, false) else (m[id := obj], true)
  }

  /** query_object on a table: the stored object, or NULL for an unknown identifier. */
  function Query(m: Objects, id: Option<string>): (r: Option<object>)
    ensures r.Some? <==> id in m
    ensures r.Some? ==> r.value == m[id]
  {
    if id in m then Some(m[id]) else None
  }

  /** remove_object on a table: only that identifier goes; an unknown one changes nothing. */
  function Remove(m: Objects, id: Option<string>): (r: Objects)
    ensures r.Keys == m.Keys - {id}
    ensures forall k | k in r :: r[k] == m[k]
    ensures id !in m ==> r == m
  {
    m - {id}
  }

  /** A stored object is what query returns; an add under a taken identifier keeps the first object. */
  lemma AddThenQuery(m: Objects, id: Option<string>, obj: object)
    ensures Query(Add(m, id, obj).0, id) == if id in m then Query(m, id) else Some(obj)
  {
  }

  /** After removal the identifier is unknown and every other one keeps its object. */
  lemma RemoveThenQuery(m: Objects, id: Option<string>, other: Option<string>)
    ensures Query(Remove(m, id), id).None?
    ensures other != id ==> Query(Remove(m, id), other) == Query(m, other)
  {
  }

  /** The same object may be stored under two identifiers. */
  lemma SameObjectTwice(m: Objects, a: Option<string>, b: Option<string>, obj: object)
    requires a != b && a !in m && b !in m
    ensures var m2 := Add(Add(m, a, obj).0, b, obj);
            m2.1 && Query(m2.0, a) == Some(obj) && Query(m2.0, b) == Some(obj)
  {
  }

  class Archive {
    var objects: Objects

    /** A new archive holds nothing. */
    constructor ()
      ensures objects == map[]
    {
      objects := map[];
    }

    /** add_object: false when id is taken, the stored object then staying in place. */
    method AddObject(id: Option<string>, obj: object) returns (added: bool)
      modifies this
      ensures (objects, added) == Add(old(objects), id, obj)
    {
      if id in objects {
        return false;
      }
      objects := objects[id := obj];
      added := true;
    }

    /** query_object: the object stored under id, or NULL. */
    method QueryObject(id: Option<string>) returns (r: Option<object>)
      ensures r == Query(objects, id)
    {
      if id in objects {
        r := Some(objects[id]);
      } else {
        r := None;
      }
    }

    /** remove_object: drops the mapping of id, if any. */
    method RemoveObject(id: Option<string>)
      modifies this
      ensures objects == Remove(old(objects), id)
    {
      objects := objects - {id};
    }
  }

  /**
   * The archive test: an object added under "1" cannot be added there again,
   * "2" is unknown until the same object is added under it, the archive then
   * holds two entries, and after removing "1" only "2" remains.
   */
  method ArchiveScenario(obj: object) returns (a: Archive, countAfterAdds: nat)
    ensures countAfterAdds == 2
    ensures Query(a.objects, Some("1")).None?
    ensures Query(a.objects, Some("2")) == Some(obj)
  {
    a := new Archive();
    var first := a.AddObject(Some("1"), obj);
    var again := a.AddObject(Some("1"), obj);
    assert first && !again;
    var missing := a.QueryObject(Some("2"));
    assert missing.None?;
    var second := a.AddObject(Some("2"), obj);
    assert second;
    var found := a.QueryObject(Some("1"));
    assert found == Some(obj);
    assert a.objects.Keys == {Some("1"), Some("2")};
    countAfterAdds := |a.objects|;
    a.RemoveObject(Some("1"));
  }
}
