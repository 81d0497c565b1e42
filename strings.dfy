/**
 * The few java.lang.String and commons-lang StringUtils operations the core relies on,
 * with their Java meaning (positions are indices of characters, -1 stands for "not found").
 */
module JavaStrings {

  /** s.indexOf(c, from): the first position at or after from that holds c, or -1. */
  function IndexOf(s: string, c: char, from: nat): (r: int)
    ensures r == -1 || (from <= r < |s| && s[r] == c)
    ensures r == -1 <==> forall j :: from <= j < |s| ==> s[j] != c
    ensures forall j :: from <= j < |s| && (r == -1 || j < r) ==> s[j] != c
    decreases |s| - from
  {
    if from >= |s| then -1
    else if s[from] == c then from
    else IndexOf(s, c, from + 1)
  }

  /** s.lastIndexOf(c, from): the last position at or before from that holds c, or -1. */
  function LastIndexOf(s: string, c: char, from: int): (r: int)
    ensures -1 <= r < |s| && (r == -1 || r <= from)
    ensures r != -1 ==> s[r] == c
    ensures forall j :: r < j < |s| && j <= from ==> s[j] != c
    decreases if from < 0 then 0 else from + 1
  {
    if from < 0 then -1
    else if from >= |s| then LastIndexOf(s, c, |s| - 1)
    else if s[from] == c then from
    else LastIndexOf(s, c, from - 1)
  }

  /** t occurs in s at position i. */
  predicate OccursAt(s: string, t: string, i: nat) {
    i + |t| <= |s| && s[i..i + |t|] == t
  }

  /** s.indexOf(t) searched from position from: the first occurrence of t at or after from, or -1. */
  function IndexOfString(s: string, t: string, from: nat): (r: int)
    ensures r == -1 || (from <= r && OccursAt(s, t, r))
    ensures forall j: nat :: from <= j && (r == -1 || j < r) ==> !OccursAt(s, t, j)
    decreases |s| - from
  {
    if from + |t| > |s| then
      assert forall j: nat :: from <= j ==> !OccursAt(s, t, j);
      -1
    else if s[from..from + |t|] == t then from
    else IndexOfString(s, t, from + 1)
  }

  /** s.startsWith(p). */
  predicate StartsWith(s: string, p: string) {
    p <= s
  }

  /** s.endsWith(p). */
  predicate EndsWith(s: string, p: string) {
    |p| <= |s| && s[|s| - |p|..] == p
  }

  /** StringUtils.removeStart(s, p): drop one leading copy of p, if there is one. */
  function RemoveStart(s: string, p: string): (r: string)
    ensures p != [] && StartsWith(s, p) ==> s == p + r
    ensures !StartsWith(s, p) || p == [] ==> r == s
  {
    if |s| == 0 || |p| == 0 then s
    else if StartsWith(s, p) then s[|p|..]
    else s
  }

  /** StringUtils.removeEnd(s, p): drop one trailing copy of p, if there is one. */
  function RemoveEnd(s: string, p: string): (r: string)
    ensures p != [] && EndsWith(s, p) ==> s == r + p
    ensures !EndsWith(s, p) || p == [] ==> r == s
  {
    if |s| == 0 || |p| == 0 then s
    else if EndsWith(s, p) then s[..|s| - |p|]
    else s
  }

  /**
   * removeEnd(removeStart(s, "/"), "/"), the trimming applied to redirect keys and targets:
   * at most one slash goes from each end, and never more.
   */
  function TrimSlashes(s: string): (r: string)
    ensures s == r || s == "/" + r || s == r + "/" || s == "/" + r + "/"
    ensures s == "/" ==> r == ""
    ensures |s| >= 2 && s[0] == '/' && s[|s| - 1] == '/' ==> s == "/" + r + "/"
    ensures |s| > 0 && s[0] == '/' && s[|s| - 1] != '/' ==> s == "/" + r
    ensures |s| > 0 && s[0] != '/' && s[|s| - 1] == '/' ==> s == r + "/"
    ensures |s| == 0 || (s[0] != '/' && s[|s| - 1] != '/') ==> r == s
  {
    RemoveEnd(RemoveStart(s, "/"), "/")
  }

  /** Character.isWhitespace: the Java whitespace characters (no-break spaces excluded). */
  predicate IsWhitespace(c: char) {
    c == ' ' || ('\t' <= c <= '\r') || ('\U{1C}' <= c <= '\U{1F}')
    || c == '\U{1680}' || ('\U{2000}' <= c <= '\U{2006}') || ('\U{2008}' <= c <= '\U{200A}')
    || c == '\U{2028}' || c == '\U{2029}' || c == '\U{205F}' || c == '\U{3000}'
  }

  /** StringUtils.isBlank on a non-null string: empty or whitespace only. */
  predicate IsBlank(s: string) {
    forall i :: 0 <= i < |s| ==> IsWhitespace(s[i])
  }

  /** StringUtils.isNotBlank on a nullable string. */
  predicate IsNotBlank(s: Option<string>) {
    s.Some? && !IsBlank(s.value)
  }

  /** The text before the first c, or all of s when c does not occur (s.substring(0, s.indexOf(c))). */
  function CutAt(s: string, c: char): (r: string)
    ensures r <= s
    ensures c !in r
    ensures r == s || s[|r|] == c
  {
    var i := IndexOf(s, c, 0);
    if i == -1 then s else s[..i]
  }

  /** Lower-casing as it bears on comparing with an ASCII suffix: A-Z become a-z. */
  function ToLower(s: string): (r: string)
    ensures |r| == |s|
    ensures forall i :: 0 <= i < |s| && !('A' <= s[i] <= 'Z') ==> r[i] == s[i]
  {
    seq(|s|, i requires 0 <= i < |s| => if 'A' <= s[i] <= 'Z' then (s[i] as int + 32) as char else s[i])
  }

  /** A nullable string as string concatenation renders it: null reads "null". */
  function JavaText(s: Option<string>): (r: string)
    ensures s.Some? ==> r == s.value
    ensures s.None? ==> r == "null"
  {
    s.GetOr("null")
  }

  import opened Wrappers
}
