/**
 * The C string primitives the core relies on: strcmp's order, strchr and
 * strrchr, g_strsplit on one separator and g_build_path with "/".
 * Strings are sequences of characters; a NULL string is `None`.
 */
module Str {
  import opened Wrappers

  /** strcmp(a, b) < 0: lexicographic on character codes, a proper prefix first. */
  predicate Less(a: string, b: string)
    decreases |a|
  {
    if |a| == 0 then |b| > 0
    else if |b| == 0 then false
    else if a[0] != b[0] then a[0] < b[0]
    else Less(a[1..], b[1..])
  }

  /** The sign of strcmp(a, b). */
  function Strcmp(a: string, b: string): (r: int)
  {
    if a == b then 0 else if Less(a, b) then -1 else 1
  }

  lemma {:induction false} LessIrreflexive(a: string)
    ensures !Less(a, a)
    decreases |a|
  {
    if |a| > 0 { LessIrreflexive(a[1..]); }
  }

  lemma {:induction false} LessAsymmetric(a: string, b: string)
    ensures Less(a, b) ==> !Less(b, a)
    decreases |a|
  {
    if |a| > 0 && |b| > 0 && a[0] == b[0] { LessAsymmetric(a[1..], b[1..]); }
  }

  lemma {:induction false} LessTransitive(a: string, b: string, c: string)
    requires Less(a, b) && Less(b, c)
    ensures Less(a, c)
    decreases |a|
  {
    if |a| > 0 && a[0] == b[0] && b[0] == c[0] { LessTransitive(a[1..], b[1..], c[1..]); }
  }

  lemma {:induction false} LessTotal(a: string, b: string)
    ensures a == b || Less(a, b) || Less(b, a)
    decreases |a|
  {
    if |a| > 0 && |b| > 0 && a[0] == b[0] {
      LessTotal(a[1..], b[1..]);
      if a[1..] == b[1..] {
        assert a == [a[0]] + a[1..] && b == [b[0]] + b[1..];
      }
    }
  }

  /** strcmp's result is zero exactly on equal strings and changes sign with its arguments. */
  lemma StrcmpIsTotalOrder(a: string, b: string)
    ensures (Strcmp(a, b) == 0) == (a == b)
    ensures (Strcmp(a, b) < 0) == Less(a, b)
    ensures Strcmp(a, b) == -Strcmp(b, a)
  {
    LessIrreflexive(a);
    LessAsymmetric(a, b);
    LessTotal(a, b);
  }

  /** strchr: the index of the first occurrence of c. */
  function IndexOf(s: string, c: char): (r: Option<nat>)
    ensures r.None? ==> c !in s
    ensures r.Some? ==> r.value < |s| && s[r.value] == c && c !in s[..r.value]
  {
    if |s| == 0 then None
    else if s[0] == c then Some(0)
    else match IndexOf(s[1..], c)
      case None => None
      case Some(i) => assert s[..i + 1] == [s[0]] + s[1..][..i]; Some(i + 1)
  }

  /** strrchr: the index of the last occurrence of c. */
  function LastIndexOf(s: string, c: char): (r: Option<nat>)
    ensures r.None? ==> c !in s
    ensures r.Some? ==> r.value < |s| && s[r.value] == c && c !in s[r.value + 1..]
  {
    if |s| == 0 then None
    else if s[|s| - 1] == c then Some(|s| - 1)
    else match LastIndexOf(s[..|s| - 1], c)
      case None => assert s == s[..|s| - 1] + [s[|s| - 1]]; None
      case Some(i) => assert s[i + 1..] == s[..|s| - 1][i + 1..] + [s[|s| - 1]]; Some(i)
  }

  /** The pieces of s between occurrences of sep, empty pieces included. */
  function Pieces(s: string, sep: char): (r: seq<string>)
    ensures |r| > 0
    ensures forall p :: p in r ==> sep !in p
    decreases |s|
  {
    match IndexOf(s, sep)
    case None => [s]
    case Some(i) => [s[..i]] + Pieces(s[i + 1..], sep)
  }

  /** g_strsplit (s, sep, 0): an empty string gives an empty vector. */
  function Split(s: string, sep: char): (r: seq<string>)
  {
    if s == "" then [] else Pieces(s, sep)
  }

  function Join(ps: seq<string>, sep: char): string
  {
    if |ps| == 0 then "" else if |ps| == 1 then ps[0] else ps[0] + [sep] + Join(ps[1..], sep)
  }

  /** Splitting and joining again gives back the string. */
  lemma {:induction false} JoinPieces(s: string, sep: char)
    ensures Join(Pieces(s, sep), sep) == s
    decreases |s|
  {
    match IndexOf(s, sep)
    case None =>
    case Some(i) =>
      JoinPieces(s[i + 1..], sep);
      assert s == s[..i] + [sep] + s[i + 1..];
  }

  /** The number of leading '/' characters. */
  function LeadLen(s: string): (n: nat)
    ensures n <= |s|
    ensures forall i :: 0 <= i < n ==> s[i] == '/'
    ensures n < |s| ==> s[n] != '/'
  {
    if |s| > 0 && s[0] == '/' then 1 + LeadLen(s[1..]) else 0
  }

  /** The number of trailing '/' characters. */
  function TrailLen(s: string): (n: nat)
    ensures n <= |s|
    ensures forall i :: |s| - n <= i < |s| ==> s[i] == '/'
    ensures n < |s| ==> s[|s| - n - 1] != '/'
  {
    if |s| > 0 && s[|s| - 1] == '/' then 1 + TrailLen(s[..|s| - 1]) else 0
  }

  /** An element without its leading and trailing separators. */
  function Core(s: string): string
  {
    if LeadLen(s) == |s| then "" else s[LeadLen(s)..|s| - TrailLen(s)]
  }

  /** The separators g_build_path keeps after the last element: all of it when it holds only separators. */
  function Trail(s: string): string
  {
    if LeadLen(s) == |s| then s else s[|s| - TrailLen(s)..]
  }

  /**
   * g_build_path ("/", a, b, NULL): empty elements are ignored, the first
   * element's leading and the last element's trailing separators are kept,
   * and the separators between the two collapse to one.
   */
  function BuildPath(a: string, b: string): string
  {
    if a == "" then b
    else if b == "" then a
    else
      var ca, cb := Core(a), Core(b);
      a[..LeadLen(a)] + (if ca == "" then cb else if cb == "" then ca else ca + "/" + cb) + Trail(b)
  }

  /** Two elements that neither start nor end with '/' are joined by exactly one '/'. */
  lemma BuildPathPlain(a: string, b: string)
    requires a != "" && b != ""
    requires a[0] != '/' && a[|a| - 1] != '/' && b[0] != '/' && b[|b| - 1] != '/'
    ensures BuildPath(a, b) == a + "/" + b
  {
    assert LeadLen(a) == 0 && TrailLen(a) == 0 && LeadLen(b) == 0 && TrailLen(b) == 0;
    assert Core(a) == a && Core(b) == b && Trail(b) == "";
  }
}
