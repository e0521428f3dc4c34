/**
 * The string conversions the XML archive registers for property values it
 * reads as text: booleans ("TRUE" and nothing else is true), enumerations
 * (a value name, else a decimal number) and flags (names or numbers
 * separated by blanks and '|', or-ed together).  Numbers are read as
 * sscanf's "%ld" reads them.
 */
module XmlTransform {
  import opened Wrappers

  /** isblank: space or tab. */
  predicate IsBlank(c: char) { c == ' ' || c == '\t' }

  /** isspace: space, tab, newline, vertical tab, form feed, carriage return. */
  predicate IsSpace(c: char) { c == ' ' || ('\t' <= c <= '\r') }

  predicate IsDigit(c: char) { '0' <= c <= '9' }

  /** What separates the names of a flags value. */
  predicate IsFlagSep(c: char) { IsBlank(c) || c == '|' }

  // The range of a C long on the platforms the library targets (LP64).
  const LONG_MIN: int := -0x8000_0000_0000_0000
  const LONG_MAX: int := 0x7FFF_FFFF_FFFF_FFFF
  const WORD: int := 0x1_0000_0000_0000_0000

  /** The value of a string of decimal digits. */
  function DigitsValue(d: string): (r: nat)
    requires forall i :: 0 <= i < |d| ==> IsDigit(d[i])
  {
    if d == [] then 0
    else 10 * DigitsValue(d[..|d| - 1]) + DigitValue(d[|d| - 1])
  }

  function DigitValue(c: char): nat
    requires IsDigit(c)
  {
    c as int - '0' as int
  }

  /** The number of leading characters of s satisfying a digit test. */
  function DigitRun(s: string): (n: nat)
    ensures n <= |s|
    ensures forall i :: 0 <= i < n ==> IsDigit(s[i])
    ensures n < |s| ==> !IsDigit(s[n])
  {
    if s == [] || !IsDigit(s[0]) then 0 else 1 + DigitRun(s[1..])
  }

  /** The number of leading white-space characters of s. */
  function SpaceRun(s: string): (n: nat)
    ensures n <= |s|
    ensures forall i :: 0 <= i < n ==> IsSpace(s[i])
    ensures n < |s| ==> !IsSpace(s[n])
  {
    if s == [] || !IsSpace(s[0]) then 0 else 1 + SpaceRun(s[1..])
  }

  function Clamp(v: int): (r: int)
    ensures LONG_MIN <= r <= LONG_MAX
    ensures LONG_MIN <= v <= LONG_MAX ==> r == v
  {
    if v < LONG_MIN then LONG_MIN else if v > LONG_MAX then LONG_MAX else v
  }

  /**
   * sscanf (s, "%ld", &v): white space is skipped, a sign may follow, then
   * at least one digit is needed or nothing is stored.  A value out of
   * range is clamped to the nearest long, as glibc's strtol does.
   */
  function ScanLong(s: string): (r: Option<int>)
    ensures r.Some? ==> LONG_MIN <= r.value <= LONG_MAX
  {
    var t := s[SpaceRun(s)..];
    var neg := |t| > 0 && t[0] == '-';
    var u := if |t| > 0 && (t[0] == '-' || t[0] == '+') then t[1..] else t;
    var n := DigitRun(u);
    if n == 0 then None
    else Some(Clamp(if neg then -(DigitsValue(u[..n]) as int) else DigitsValue(u[..n])))
  }

  /** The decimal rendering of a natural number, most significant digit first. */
  function Decimal(n: nat): (d: string)
    ensures |d| > 0 && forall i :: 0 <= i < |d| ==> IsDigit(d[i])
  {
    if n < 10 then [('0' as int + n) as char] else Decimal(n / 10) + [('0' as int + n % 10) as char]
  }

  lemma {:induction false} DecimalValue(n: nat)
    ensures DigitsValue(Decimal(n)) == n
  {
    if n >= 10 {
      var d := Decimal(n);
      assert d[..|d| - 1] == Decimal(n / 10);
      DecimalValue(n / 10);
    }
  }

  lemma {:induction false} DigitRunAll(d: string)
    requires forall i :: 0 <= i < |d| ==> IsDigit(d[i])
    ensures DigitRun(d) == |d|
  {
    if d != [] {
      DigitRunAll(d[1..]);
    }
  }

  /** A number written in decimal, with or without a minus sign, is read back as itself. */
  lemma ScanDecimal(n: nat, negative: bool)
    requires n <= LONG_MAX
    ensures ScanLong((if negative then "-" else "") + Decimal(n)) == Some(if negative then -(n as int) else n)
  {
    var d := Decimal(n);
    var s := (if negative then "-" else "") + d;
    assert IsDigit(d[0]);
    assert SpaceRun(s) == 0;
    var t := s[SpaceRun(s)..];
    assert t == s;
    var u := if |t| > 0 && (t[0] == '-' || t[0] == '+') then t[1..] else t;
    assert u == d;
    DigitRunAll(d);
    assert u[..DigitRun(u)] == d;
    DecimalValue(n);
  }

  /** An enumeration or flags value: its name and its number. */
  datatype Named = Named(name: string, value: int)

  /** g_enum_get_value_by_name / g_flags_get_value_by_name: the first entry with that name. */
  function FindNamed(table: seq<Named>, name: string): (r: Option<int>)
    ensures r.None? <==> forall i :: 0 <= i < |table| ==> table[i].name != name
    ensures r.Some? ==> exists i :: 0 <= i < |table| && table[i].name == name && table[i].value == r.value
  {
    if table == [] then None
    else if table[0].name == name then Some(table[0].value)
    else FindNamed(table[1..], name)
  }

  /** The first blank-delimited word of s, empty when s holds only blanks. */
  function FirstWord(s: string): (w: string)
    ensures forall i :: 0 <= i < |w| ==> !IsBlank(w[i])
  {
    if s == [] then []
    else if IsBlank(s[0]) then FirstWord(s[1..])
    else s[..WordLen(s)]
  }

  /** The number of leading non-blank characters. */
  function WordLen(s: string): (n: nat)
    ensures n <= |s|
    ensures forall i :: 0 <= i < n ==> !IsBlank(s[i])
    ensures n < |s| ==> IsBlank(s[n])
  {
    if s == [] || IsBlank(s[0]) then 0 else 1 + WordLen(s[1..])
  }

  /**
   * The string-to-enum transform: the first word, looked up by name; when
   * there is no word or no such name, the whole string read as "%ld"; when
   * that reads nothing either, 0 (the value the destination starts with).
   */
  function EnumFromString(table: seq<Named>, s: string): (r: int)
  {
    var w := FirstWord(s);
    if w != [] && FindNamed(table, w).Some? then FindNamed(table, w).value
    else ScanLong(s).GetOr(0)
  }

  lemma {:induction false} WordLenExact(s: string, n: nat)
    requires n <= |s| && forall i :: 0 <= i < n ==> !IsBlank(s[i])
    requires n < |s| ==> IsBlank(s[n])
    ensures WordLen(s) == n
  {
    if n > 0 {
      WordLenExact(s[1..], n - 1);
    }
  }

  lemma {:induction false} FirstWordAfterBlanks(pre: string, rest: string)
    requires forall i :: 0 <= i < |pre| ==> IsBlank(pre[i])
    ensures FirstWord(pre + rest) == FirstWord(rest)
  {
    if pre == [] {
      assert pre + rest == rest;
    } else {
      assert (pre + rest)[0] == pre[0];
      assert (pre + rest)[1..] == pre[1..] + rest;
      FirstWordAfterBlanks(pre[1..], rest);
    }
  }

  /** A known name, after any blanks and before a blank or the end, selects its value. */
  lemma EnumByName(table: seq<Named>, pre: string, name: string, post: string)
    requires forall i :: 0 <= i < |pre| ==> IsBlank(pre[i])
    requires name != [] && forall i :: 0 <= i < |name| ==> !IsBlank(name[i])
    requires post == [] || IsBlank(post[0])
    requires FindNamed(table, name).Some?
    ensures EnumFromString(table, pre + name + post) == FindNamed(table, name).value
  {
    var s := pre + name + post;
    assert s == pre + (name + post);
    FirstWordAfterBlanks(pre, name + post);
    WordLenExact(name + post, |name|);
    assert (name + post)[..|name|] == name;
  }

  /** A number that is not a known name is read as a number. */
  lemma EnumByNumber(table: seq<Named>, n: nat, negative: bool)
    requires n <= LONG_MAX
    requires FindNamed(table, (if negative then "-" else "") + Decimal(n)).None?
    ensures EnumFromString(table, (if negative then "-" else "") + Decimal(n)) == if negative then -(n as int) else n
  {
    var s := (if negative then "-" else "") + Decimal(n);
    assert !IsBlank(s[0]);
    WordLenExact(s, |s|);
    assert s[..|s|] == s;
    ScanDecimal(n, negative);
  }

  /** A long or a guint stored into an unsigned long: reduced modulo 2^64. */
  function ToWord(v: int): bv64
  {
    (v % WORD) as bv64
  }

  /** The bits one flags word contributes: its named value, else its "%ld" reading, else 0. */
  function WordBits(table: seq<Named>, w: string): bv64
  {
    match FindNamed(table, w)
    case Some(v) => ToWord(v)
    case None => ToWord(ScanLong(w).GetOr(0))
  }

  /** The number of leading characters that are not flag separators. */
  function FlagWordLen(s: string): (n: nat)
    ensures n <= |s|
    ensures forall i :: 0 <= i < n ==> !IsFlagSep(s[i])
    ensures n < |s| ==> IsFlagSep(s[n])
  {
    if s == [] || IsFlagSep(s[0]) then 0 else 1 + FlagWordLen(s[1..])
  }

  /** The words of a flags value: the maximal runs between blanks and '|'. */
  function FlagWords(s: string): (ws: seq<string>)
    ensures forall k :: 0 <= k < |ws| ==> ws[k] != []
    decreases |s|
  {
    if s == [] then []
    else if IsFlagSep(s[0]) then FlagWords(s[1..])
    else [s[..FlagWordLen(s)]] + FlagWords(s[FlagWordLen(s)..])
  }

  function OrAll(table: seq<Named>, ws: seq<string>): bv64
  {
    if ws == [] then 0 else WordBits(table, ws[0]) | OrAll(table, ws[1..])
  }

  /** The string-to-flags transform: the or of every word's bits, starting from 0. */
  function FlagsFromString(table: seq<Named>, s: string): bv64
  {
    OrAll(table, FlagWords(s))
  }

  lemma {:induction false} OrAllAppend(table: seq<Named>, a: seq<string>, b: seq<string>)
    ensures OrAll(table, a + b) == OrAll(table, a) | OrAll(table, b)
  {
    if a == [] {
      assert a + b == b;
    } else {
      assert (a + b)[0] == a[0];
      assert (a + b)[1..] == a[1..] + b;
      OrAllAppend(table, a[1..], b);
    }
  }

  lemma {:induction false} FlagWordsAppend(a: string, b: string)
    requires a == [] || IsFlagSep(a[|a| - 1])
    ensures FlagWords(a + b) == FlagWords(a) + FlagWords(b)
    decreases |a|
  {
    if a == [] {
      assert a + b == b;
    } else if IsFlagSep(a[0]) {
      assert (a + b)[1..] == a[1..] + b;
      FlagWordsAppend(a[1..], b);
    } else {
      var n := FlagWordLen(a);
      FlagWordLenPrefix(a, b);
      assert (a + b)[..n] == a[..n];
      assert (a + b)[n..] == a[n..] + b;
      FlagWordsAppend(a[n..], b);
    }
  }

  lemma FlagWordLenPrefix(a: string, b: string)
    requires a != [] && IsFlagSep(a[|a| - 1])
    ensures FlagWordLen(a + b) == FlagWordLen(a)
  {
    var n := FlagWordLen(a);
    assert n < |a|;
    FlagWordLenExact(a + b, n);
  }

  lemma {:induction false} FlagWordLenExact(s: string, n: nat)
    requires n <= |s| && forall i :: 0 <= i < n ==> !IsFlagSep(s[i])
    requires n < |s| ==> IsFlagSep(s[n])
    ensures FlagWordLen(s) == n
  {
    if n > 0 {
      FlagWordLenExact(s[1..], n - 1);
    }
  }

  /** "A|B" holds the bits of A and the bits of B. */
  lemma FlagsJoin(table: seq<Named>, a: string, b: string)
    ensures FlagsFromString(table, a + "|" + b) == FlagsFromString(table, a) | FlagsFromString(table, b)
  {
    FlagWordsAppend(a + "|", b);
    FlagWordsSep(a);
    OrAllAppend(table, FlagWords(a), FlagWords(b));
  }

  /** A trailing separator adds no word. */
  lemma {:induction false} FlagWordsSep(a: string)
    ensures FlagWords(a + "|") == FlagWords(a)
    decreases |a|
  {
    if a == [] {
      assert FlagWords("|") == FlagWords("");
    } else if IsFlagSep(a[0]) {
      assert (a + "|")[1..] == a[1..] + "|";
      FlagWordsSep(a[1..]);
    } else {
      var n := FlagWordLen(a);
      if n == |a| {
        FlagWordLenExact(a + "|", n);
        assert (a + "|")[..n] == a;
        assert (a + "|")[n..] == "|";
        assert a[..n] == a && a[n..] == [];
        assert FlagWords("|") == FlagWords("") == [];
        assert FlagWords(a) == [a];
      } else {
        FlagWordLenExact(a + "|", n);
        assert (a + "|")[..n] == a[..n];
        assert (a + "|")[n..] == a[n..] + "|";
        FlagWordsSep(a[n..]);
      }
    }
  }

  /** One flag name, alone, gives exactly its value. */
  lemma FlagsSingle(table: seq<Named>, name: string)
    requires name != [] && forall i :: 0 <= i < |name| ==> !IsFlagSep(name[i])
    ensures FlagsFromString(table, name) == WordBits(table, name)
  {
    FlagWordLenExact(name, |name|);
    assert name[..|name|] == name;
    assert name[|name|..] == [];
    assert FlagWords(name) == [name];
    assert OrAll(table, [name]) == WordBits(table, name) | OrAll(table, []);
  }

  /** A separator at position i adds no word. */
  lemma FlagWordsSkip(s: string, i: nat)
    requires i < |s| && IsFlagSep(s[i])
    ensures FlagWords(s[i..]) == FlagWords(s[i + 1..])
  {
    assert s[i..][1..] == s[i + 1..];
  }

  /** The word from i to end, where a separator or the end of s follows, is the next word. */
  lemma FlagWordsTake(table: seq<Named>, s: string, i: nat, end: nat)
    requires i < end <= |s|
    requires forall k :: i <= k < end ==> !IsFlagSep(s[k])
    requires end < |s| ==> IsFlagSep(s[end])
    ensures OrAll(table, FlagWords(s[i..])) == WordBits(table, s[i..end]) | OrAll(table, FlagWords(s[end..]))
  {
    FlagWordLenExact(s[i..], end - i);
    assert s[i..][..end - i] == s[i..end];
    assert s[i..][end - i..] == s[end..];
    assert FlagWords(s[i..]) == [s[i..end]] + FlagWords(s[end..]);
  }

  /** The bits of the words from position i on. */
  function RestBits(table: seq<Named>, s: string, i: nat): bv64
    requires i <= |s|
  {
    OrAll(table, FlagWords(s[i..]))
  }

  /** Taking the word from i to end and stepping over what follows it keeps the total. */
  lemma RestBitsStep(table: seq<Named>, s: string, i: nat, end: nat)
    requires i < end <= |s|
    requires forall k :: i <= k < end ==> !IsFlagSep(s[k])
    requires end < |s| ==> IsFlagSep(s[end])
    ensures RestBits(table, s, i) == WordBits(table, s[i..end]) | RestBits(table, s, if end < |s| then end + 1 else end)
  {
    FlagWordsTake(table, s, i, end);
    if end < |s| {
      FlagWordsSkip(s, end);
    }
  }

  /** Steps over blanks and '|' from position i. */
  method SkipFlagSeps(s: string, i: nat) returns (j: nat)
    requires i <= |s|
    ensures i <= j <= |s| && (j < |s| ==> !IsFlagSep(s[j]))
    ensures forall table :: RestBits(table, s, j) == RestBits(table, s, i)
  {
    j := i;
    while j < |s| && IsFlagSep(s[j])
      invariant i <= j <= |s|
      invariant forall table :: RestBits(table, s, j) == RestBits(table, s, i)
    {
      FlagWordsSkip(s, j);
      j := j + 1;
    }
  }

  /** Scans the word starting at i up to the next blank, '|' or the end. */
  method FlagWordEnd(s: string, i: nat) returns (end: nat)
    requires i < |s| && !IsFlagSep(s[i])
    ensures i < end <= |s| && (end < |s| ==> IsFlagSep(s[end]))
    ensures forall k :: i <= k < end ==> !IsFlagSep(s[k])
  {
    end := i;
    while end < |s| && !IsFlagSep(s[end])
      invariant i <= end <= |s|
      invariant forall k :: i <= k < end ==> !IsFlagSep(s[k])
    {
      end := end + 1;
    }
  }

  /** One turn of the flags loop: skip separators, then or in the word that follows, if any. */
  method NextFlagWord(table: seq<Named>, s: string, name: nat, bits: bv64) returns (next: nat, acc: bv64)
    requires name <= |s|
    ensures name < next <= |s| || next == |s|
    ensures acc | RestBits(table, s, next) == bits | RestBits(table, s, name)
  {
    var start := SkipFlagSeps(s, name);
    if start == |s| {
      return |s|, bits;
    }
    var end := FlagWordEnd(s, start);
    RestBitsStep(table, s, start, end);
    next := if end < |s| then end + 1 else end;
    OrRegroup(bits, WordBits(table, s[start..end]), RestBits(table, s, next));
    acc := bits | WordBits(table, s[start..end]);
  }

  /** The transform loop over the flags string, word by word, or-ing into the destination. */
  method TransformFlags(table: seq<Named>, s: string) returns (bits: bv64)
    ensures bits == FlagsFromString(table, s)
  {
    bits := 0;
    var name := 0;
    assert s[name..] == s;
    while name < |s|
      invariant 0 <= name <= |s|
      invariant FlagsFromString(table, s) == bits | RestBits(table, s, name)
      decreases |s| - name
    {
      name, bits := NextFlagWord(table, s, name, bits);
    }
    assert s[name..] == [];
  }

  lemma OrRegroup(a: bv64, b: bv64, c: bv64)
    ensures a | (b | c) == (a | b) | c
  {
  }

  /** The transform over the enumeration string: skip blanks, cut the first word, look it up, else scan. */
  method TransformEnum(table: seq<Named>, s: string) returns (v: int)
    ensures v == EnumFromString(table, s)
  {
    var name := 0;
    while name < |s| && IsBlank(s[name])
      invariant 0 <= name <= |s|
      invariant FirstWord(s) == FirstWord(s[name..])
    {
      assert s[name..][1..] == s[name + 1..];
      name := name + 1;
    }
    var found: Option<int> := None;
    if name < |s| {
      var end := name;
      while end < |s| && !IsBlank(s[end])
        invariant name <= end <= |s|
        invariant forall i :: name <= i < end ==> !IsBlank(s[i])
      {
        end := end + 1;
      }
      WordLenExact(s[name..], end - name);
      assert s[name..][..end - name] == s[name..end];
      found := FindNamed(table, s[name..end]);
    }
    if found.Some? {
      v := found.value;
    } else {
      v := ScanLong(s).GetOr(0);
    }
  }
}
