/**
 * The JavaScript string operations the voice-command interpreter relies on:
 * `toLowerCase`, `trim`, `startsWith`, `indexOf` and `replace` with a string
 * pattern (which replaces the first occurrence only).
 *
 * Lower-casing and whitespace are modelled on ASCII.
 */
module JsString {
  import opened Optional

  /** The ASCII characters `trim` removes: tab, line feed, vertical tab, form feed, carriage return, space. */
  predicate IsSpace(c: char) {
    c == ' ' || '\t' <= c <= '\r'
  }

  predicate IsUpper(c: char) {
    'A' <= c <= 'Z'
  }

  function LowerChar(c: char): (r: char)
    ensures !IsUpper(r)
    ensures IsUpper(c) ==> r as int == c as int + 32
    ensures !IsUpper(c) ==> r == c
  {
    if IsUpper(c) then (c as int + 32) as char else c
  }

  /** `String.prototype.toLowerCase` on ASCII letters. */
  function ToLower(s: string): (r: string)
    ensures |r| == |s|
    ensures forall i :: 0 <= i < |s| ==> r[i] == LowerChar(s[i])
    ensures forall i :: 0 <= i < |r| ==> !IsUpper(r[i])
  {
    if s == [] then [] else [LowerChar(s[0])] + ToLower(s[1..])
  }

  /** Lower-casing a string twice is lower-casing it once. */
  lemma ToLowerIdempotent(s: string)
    ensures ToLower(ToLower(s)) == ToLower(s)
  {
    var once := ToLower(s);
    var twice := ToLower(once);
    assert |twice| == |once|;
    forall i | 0 <= i < |once| ensures twice[i] == once[i] {
      assert !IsUpper(once[i]);
    }
  }

  /** The number of whitespace characters `s` starts with. */
  function LeadingSpaces(s: string): (n: nat)
    ensures n <= |s|
    ensures forall i :: 0 <= i < n ==> IsSpace(s[i])
    ensures n < |s| ==> !IsSpace(s[n])
  {
    if s != [] && IsSpace(s[0]) then 1 + LeadingSpaces(s[1..]) else 0
  }

  /** The number of whitespace characters `s` ends with. */
  function TrailingSpaces(s: string): (n: nat)
    ensures n <= |s|
    ensures forall i :: |s| - n <= i < |s| ==> IsSpace(s[i])
    ensures n < |s| ==> !IsSpace(s[|s| - n - 1])
  {
    if s != [] && IsSpace(s[|s| - 1]) then 1 + TrailingSpaces(s[..|s| - 1]) else 0
  }

  /**
   * `String.prototype.trim`: the infix of `s` between its leading and its
   * trailing whitespace. Only whitespace lies outside it, and it neither
   * starts nor ends with whitespace.
   */
  function Trim(s: string): (r: string)
    ensures |r| <= |s|
    ensures r == [] || (!IsSpace(r[0]) && !IsSpace(r[|r| - 1]))
    ensures var lead := LeadingSpaces(s); lead + |r| <= |s| && r == s[lead..lead + |r|]
    ensures forall i :: LeadingSpaces(s) + |r| <= i < |s| ==> IsSpace(s[i])
  {
    var lead, trail := LeadingSpaces(s), TrailingSpaces(s);
    if lead == |s| then []
    else
      assert lead < |s| - trail;
      s[lead..|s| - trail]
  }

  /** `trim` yields the empty string exactly when `s` is blank. */
  lemma TrimEmptyIffBlank(s: string)
    ensures Trim(s) == [] <==> forall i :: 0 <= i < |s| ==> IsSpace(s[i])
  {
    var r, lead := Trim(s), LeadingSpaces(s);
    if r != [] {
      assert s[lead] == r[0];
    }
  }

  /** A trimmed string is its own trim. */
  lemma TrimIdempotent(s: string)
    ensures Trim(Trim(s)) == Trim(s)
  {
    var r := Trim(s);
    assert LeadingSpaces(r) == 0;
    assert r != [] ==> TrailingSpaces(r) == 0;
  }

  /** `String.prototype.startsWith`. */
  predicate StartsWith(s: string, prefix: string) {
    |prefix| <= |s| && s[..|prefix|] == prefix
  }

  /** `pattern` occurs in `s` at position `at`. */
  predicate OccursAt(s: string, pattern: string, at: nat) {
    at + |pattern| <= |s| && s[at..at + |pattern|] == pattern
  }

  /** The first occurrence of `pattern` in `s` at or after `from`. */
  function IndexOfFrom(s: string, pattern: string, from: nat): (r: Option<nat>)
    ensures r.Some? ==> from <= r.value && OccursAt(s, pattern, r.value)
    ensures r.Some? ==> forall j :: from <= j < r.value ==> !OccursAt(s, pattern, j)
    ensures r.None? ==> forall j :: from <= j ==> !OccursAt(s, pattern, j)
    decreases |s| - from
  {
    if from + |pattern| > |s| then None
    else if OccursAt(s, pattern, from) then Some(from)
    else IndexOfFrom(s, pattern, from + 1)
  }

  /** `String.prototype.indexOf`, with `None` for -1. */
  function IndexOf(s: string, pattern: string): (r: Option<nat>)
    ensures r.Some? <==> exists j :: OccursAt(s, pattern, j)
    ensures r.Some? ==> OccursAt(s, pattern, r.value) && forall j :: 0 <= j < r.value ==> !OccursAt(s, pattern, j)
  {
    IndexOfFrom(s, pattern, 0)
  }

  /** `String.prototype.replace` with a string pattern: only the first occurrence is replaced. */
  function Replace(s: string, pattern: string, replacement: string): (r: string)
  {
    match IndexOf(s, pattern)
    case None => s
    case Some(i) => s[..i] + replacement + s[i + |pattern|..]
  }

  /** When `s` starts with `pattern`, replacing its first occurrence replaces the prefix. */
  lemma ReplaceLeadingOccurrence(s: string, pattern: string, replacement: string)
    requires StartsWith(s, pattern)
    ensures Replace(s, pattern, replacement) == replacement + s[|pattern|..]
  {
    assert OccursAt(s, pattern, 0);
    assert IndexOf(s, pattern) == Some(0);
  }


}
