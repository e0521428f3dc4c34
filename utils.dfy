/**
 * Shared helpers of the plugin framework: dotted extension-id parsing, the
 * NULL-aware string comparator used by the registries' trees, array cloning
 * with a per-element callback, and the type-name to get_type symbol rule.
 */
module Utils {
  import opened Wrappers
  import opened Str

  /**
   * _gimo_parse_extension_id: split a global id at its LAST '.'; the prefix
   * is the owning plugin's id, the suffix the local id.  Without a dot there
   * is no prefix and the local id is the whole string.
   */
  function ParseExtensionId(extId: string): (r: (Option<string>, string))
    ensures r.0.None? <==> '.' !in extId
    ensures r.0.None? ==> r.1 == extId
    ensures r.0.Some? ==> extId == r.0.value + "." + r.1 && '.' !in r.1
  {
    match LastIndexOf(extId, '.')
    case None => (None, extId)
    case Some(i) =>
      assert extId == extId[..i] + "." + extId[i + 1..];
      (Some(extId[..i]), extId[i + 1..])
  }

  /** A global id built as "<plugin id>.<local id>" parses back into its parts. */
  lemma ParseGlobalId(pluginId: string, localId: string)
    requires '.' !in localId
    ensures ParseExtensionId(pluginId + "." + localId) == (Some(pluginId), localId)
  {
    var s := pluginId + "." + localId;
    var i := |pluginId|;
    assert s[i] == '.';
    assert s[i + 1..] == localId;
      assert s[..i] == pluginId;
  }

  /**
   * _gimo_gtree_string_compare: NULL sorts before every string, two NULLs
   * are equal, and two strings compare with strcmp (its sign here).
   */
  function CompareNullable(a: Option<string>, b: Option<string>): (r: int)
    ensures (r == 0) <==> a == b
    ensures (r < 0) <==> (a.None? && b.Some?) || (a.Some? && b.Some? && Less(a.value, b.value))
    ensures r == 1 || r == 0 || r == -1
  {
    if a.Some? && b.Some? then
      StrcmpIsTotalOrder(a.value, b.value);
      Strcmp(a.value, b.value)
    else if a.Some? then 1
    else if b.Some? then -1
    else 0
  }

  /** The comparator is antisymmetric and transitive, so the trees keyed by it are well ordered. */
  lemma CompareNullableOrder(a: Option<string>, b: Option<string>, c: Option<string>)
    ensures CompareNullable(a, b) == -CompareNullable(b, a)
    ensures CompareNullable(a, b) < 0 && CompareNullable(b, c) < 0 ==> CompareNullable(a, c) < 0
  {
    if a.Some? && b.Some? { StrcmpIsTotalOrder(a.value, b.value); }
    if a.Some? && b.Some? && c.Some? && Less(a.value, b.value) && Less(b.value, c.value) {
      LessTransitive(a.value, b.value, c.value);
    }
  }

  /**
   * _gimo_clone_object_array: NULL stays NULL; otherwise a new array with
   * the same elements in the same order.  `visited` lists the elements the
   * callback was applied to, in call order; without a callback (`hasFunc`
   * false) none is visited.
   */
  method CloneObjectArray<T>(arr: Option<seq<T>>, hasFunc: bool) returns (r: Option<seq<T>>, visited: seq<T>)
    ensures r.None? <==> arr.None?
    ensures arr.Some? ==> r.value == arr.value && visited == (if hasFunc then arr.value else [])
    ensures arr.None? ==> visited == []
  {
    if arr.None? {
      return None, [];
    }
    var a := arr.value;
    var result: seq<T> := [];
    visited := [];
    var i := 0;
    while i < |a|
      invariant 0 <= i <= |a|
      invariant result == a[..i] && visited == (if hasFunc then a[..i] else [])
    {
      result := result + [a[i]];
      if hasFunc {
        visited := visited + [a[i]];
      }
      i := i + 1;
    }
    return Some(result), visited;
  }

  /** c == g_ascii_toupper (c): c is not an ASCII lower-case letter. */
  predicate IsUpper(c: char)
  {
    !('a' <= c <= 'z')
  }

  /** g_ascii_tolower */
  function ToLower(c: char): char
  {
    if 'A' <= c <= 'Z' then (c as int - 'A' as int + 'a' as int) as char else c
  }

  /**
   * An '_' goes before name[i] when it is upper case and the previous
   * character is not, or when it and the two characters before it are all
   * upper case (only from i == 3 on).
   */
  predicate UnderscoreBefore(name: string, i: nat)
    requires i < |name|
  {
    (IsUpper(name[i]) && i > 0 && !IsUpper(name[i - 1]))
    || (i > 2 && IsUpper(name[i]) && IsUpper(name[i - 1]) && IsUpper(name[i - 2]))
  }

  /** What the conversion has produced after the first n characters of name. */
  function SymbolPrefix(name: string, n: nat): string
    requires n <= |name|
  {
    if n == 0 then ""
    else SymbolPrefix(name, n - 1) + (if UnderscoreBefore(name, n - 1) then "_" else "") + [ToLower(name[n - 1])]
  }

  /** The number of underscores inserted before the first n characters. */
  function InsertedCount(name: string, n: nat): nat
    requires n <= |name|
  {
    if n == 0 then 0 else InsertedCount(name, n - 1) + (if UnderscoreBefore(name, n - 1) then 1 else 0)
  }

  /** The symbol name of a type's get_type function. */
  function Symbol(name: string): string
  {
    SymbolPrefix(name, |name|) + "_get_type"
  }

  /** _gimo_symbol_from_type_name: builds the symbol character by character. */
  method SymbolFromTypeName(name: string) returns (r: string)
    ensures r == Symbol(name)
  {
    var acc := "";
    var i := 0;
    while i < |name|
      invariant 0 <= i <= |name|
      invariant acc == SymbolPrefix(name, i)
    {
      var c := name[i];
      if (IsUpper(c) && i > 0 && !IsUpper(name[i - 1]))
        || (i > 2 && IsUpper(name[i]) && IsUpper(name[i - 1]) && IsUpper(name[i - 2]))
      {
        acc := acc + "_";
      }
      acc := acc + [ToLower(c)];
      i := i + 1;
    }
    r := acc + "_get_type";
  }

  /** The symbol is as long as the name plus the inserted underscores plus "_get_type". */
  lemma {:induction false} SymbolPrefixLength(name: string, n: nat)
    requires n <= |name|
    ensures |SymbolPrefix(name, n)| == n + InsertedCount(name, n)
  {
    if n > 0 { SymbolPrefixLength(name, n - 1); }
  }

  lemma SymbolLength(name: string)
    ensures |Symbol(name)| == |name| + InsertedCount(name, |name|) + 9
  {
    SymbolPrefixLength(name, |name|);
  }

  /** No underscore is ever inserted before the first character. */
  lemma {:induction false} SymbolStartsWithName(name: string, n: nat)
    requires 0 < n <= |name|
    ensures SymbolPrefix(name, n)[0] == ToLower(name[0])
  {
    if n > 1 {
      SymbolStartsWithName(name, n - 1);
      SymbolPrefixLength(name, n - 1);
    }
  }

  /** The characters without the inserted underscores: the name, lower-cased. */
  function DropUnderscores(s: string): string
  {
    if s == "" then "" else (if s[0] == '_' then "" else [s[0]]) + DropUnderscores(s[1..])
  }

  function Lowered(s: string): string
  {
    if s == "" then "" else [ToLower(s[0])] + Lowered(s[1..])
  }

  lemma {:induction false} DropUnderscoresAppend(a: string, b: string)
    ensures DropUnderscores(a + b) == DropUnderscores(a) + DropUnderscores(b)
    decreases |a|
  {
    if a != "" {
      assert (a + b)[1..] == a[1..] + b;
      DropUnderscoresAppend(a[1..], b);
    } else {
      assert a + b == b;
    }
  }

  lemma {:induction false} LoweredAppend(a: string, b: string)
    ensures Lowered(a + b) == Lowered(a) + Lowered(b)
    decreases |a|
  {
    if a != "" {
      assert (a + b)[1..] == a[1..] + b;
      LoweredAppend(a[1..], b);
    } else {
      assert a + b == b;
    }
  }

  /** For a name without underscores, the output is its lower-cased text with underscores inserted. */
  lemma {:induction false} SymbolPrefixIsLoweredName(name: string, n: nat)
    requires n <= |name|
    requires '_' !in name
    ensures DropUnderscores(SymbolPrefix(name, n)) == Lowered(name[..n])
  {
    if n > 0 {
      SymbolPrefixIsLoweredName(name, n - 1);
      var mid := if UnderscoreBefore(name, n - 1) then "_" else "";
      assert ToLower(name[n - 1]) != '_' by { assert name[n - 1] in name; }
      DropUnderscoresAppend(SymbolPrefix(name, n - 1) + mid, [ToLower(name[n - 1])]);
      DropUnderscoresAppend(SymbolPrefix(name, n - 1), mid);
      assert name[..n] == name[..n - 1] + [name[n - 1]];
      LoweredAppend(name[..n - 1], [name[n - 1]]);
    }
  }

  /** The framework's own type names map to their get_type functions. */
  lemma SymbolExample()
    ensures Symbol("GimoPlugin") == "gimo_plugin_get_type"
  {
    var n := "GimoPlugin";
    SymbolExampleHead();
    assert SymbolPrefix(n, 6) == "gimo_pl";
    assert SymbolPrefix(n, 7) == "gimo_plu";
    assert SymbolPrefix(n, 8) == "gimo_plug";
    assert SymbolPrefix(n, 9) == "gimo_plugi";
    assert SymbolPrefix(n, 10) == "gimo_plugin";
  }

  /** The first word and the underscore before the second. */
  lemma SymbolExampleHead()
    ensures SymbolPrefix("GimoPlugin", 5) == "gimo_p"
  {
    var n := "GimoPlugin";
    assert SymbolPrefix(n, 1) == "g";
    assert SymbolPrefix(n, 2) == "gi";
    assert SymbolPrefix(n, 3) == "gim";
    assert SymbolPrefix(n, 4) == "gimo";
  }
}
