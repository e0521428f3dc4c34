/**
 * A plugin runtime: a symbol table from names to objects, created on the
 * first definition, and a back-reference to the owning plugin.
 */
module Runtime {
  import opened Wrappers
  import opened ErrorSlot

  /** The symbol table; NULL until the first definition.  A NULL symbol is a key like any other. */
  type Table = Option<map<Option<string>, object>>

  /** define_object on a table: the new table, and whether the definition was accepted. */
  function Define(t: Table, symbol: Option<string>, obj: object): (r: (Table, bool))
    ensures r.1 <==> t.None? || symbol !in t.value
    ensures r.1 ==> r.0.Some? && r.0.value == (if t.None? then map[] else t.value)[symbol := obj]
    ensures !r.1 ==> r.0 == t
  {
    if t.None? then (Some(map[symbol := obj]), true)
    else if symbol in t.value then (t, false)
    else (Some(t.value[symbol := obj]), true)
  }

  /** resolve on a table: the defined object, or NULL. */
  function Lookup(t: Table, symbol: Option<string>): (r: Option<object>)
    ensures r.Some? <==> t.Some? && symbol in t.value
    ensures r.Some? ==> r.value == t.value[symbol]
  {
    if t.Some? && symbol in t.value then Some(t.value[symbol]) else None
  }

  /** An accepted definition is what resolve returns afterwards, and other symbols keep theirs. */
  lemma DefineThenLookup(t: Table, symbol: Option<string>, obj: object, other: Option<string>)
    requires Define(t, symbol, obj).1
    ensures Lookup(Define(t, symbol, obj).0, symbol) == Some(obj)
    ensures other != symbol ==> Lookup(Define(t, symbol, obj).0, other) == Lookup(t, other)
  {
  }

  /** A rejected definition keeps the object defined first. */
  lemma RedefineKeepsFirst(t: Table, symbol: Option<string>, obj: object)
    requires Lookup(t, symbol).Some?
    ensures !Define(t, symbol, obj).1 && Lookup(Define(t, symbol, obj).0, symbol) == Lookup(t, symbol)
  {
  }

  class Runtime {
    var plugin: object?
    var objects: Table

    /** gimo_runtime_new: no owner and no symbol table. */
    constructor ()
      ensures plugin == null && objects.None?
    {
      plugin := null;
      objects := None;
    }

    /**
     * gimo_runtime_define_object: the first definition creates the table
     * and always succeeds; a symbol already defined is a CONFLICT and keeps
     * its object.
     */
    method DefineObject(symbol: Option<string>, obj: object, err: LastError) returns (ok: bool)
      modifies this, err
      ensures (objects, ok) == Define(old(objects), symbol, obj)
      ensures plugin == old(plugin)
      ensures ok ==> unchanged(err)
      ensures !ok ==> err.code == CONFLICT && err.message == old(err.message)
    {
      if objects.None? {
        objects := Some(map[]);
      } else if symbol in objects.value {
        ok := err.SetErrorReturnVal(CONFLICT, false);
        return;
      }
      objects := Some(objects.value[symbol := obj]);
      ok := true;
    }

    /** gimo_runtime_resolve: the defined object, or NULL when there is no table or no such symbol. */
    function Resolve(symbol: Option<string>): (r: Option<object>)
      reads this
      ensures r == Lookup(objects, symbol)
    {
      if objects.Some? && symbol in objects.value then Some(objects.value[symbol]) else None
    }

    /**
     * gimo_runtime_start and gimo_runtime_stop: the result starts TRUE and
     * the signal handlers, if any, decide it.
     */
    static function EmitResult(handlers: Option<bool>): (r: bool)
      ensures handlers.None? ==> r
      ensures handlers.Some? ==> r == handlers.value
    {
      handlers.GetOr(true)
    }

    /** gimo_runtime_query_plugin */
    function QueryPlugin(): (r: object?)
      reads this
      ensures r == plugin
    {
      plugin
    }

    /** _gimo_runtime_setup: asserts there is no owner yet. */
    method Setup(owner: object)
      requires plugin == null
      modifies this
      ensures plugin == owner && objects == old(objects)
    {
      plugin := owner;
    }

    /** _gimo_runtime_teardown: asserts the owner matches, then drops it. */
    method Teardown(owner: object)
      requires plugin == owner
      modifies this
      ensures plugin == null && objects == old(objects)
    {
      plugin := null;
    }

    /** What finalisation asserts: no owner remains. */
    predicate CanFinalize()
      reads this
    {
      plugin == null
    }
  }
}
