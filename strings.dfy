/**
 * The optional value used throughout the model: `None` is a value left out
 * (`undefined`); where the server only tests truthiness, `null` behaves the
 * same way.
 */
module Outcomes {
  datatype Option<+T> = None | Some(value: T) {
    /** The value, or `default` when there is none. */
    function GetOr(default: T): T {
      match this
      case Some(v) => v
      case None => default
    }
  }
}

/**
 * The JavaScript string built-ins the server relies on, with ECMAScript
 * semantics: `endsWith`, `indexOf`, `replace` with a string pattern (which
 * replaces the FIRST occurrence only), `trim`, truthiness of an optional
 * string, and Node's `path.join` of a normalised directory and a plain entry
 * name.
 */
module JsStrings {
  import opened Outcomes

  /** `s.endsWith(suffix)` */
  predicate EndsWith(s: string, suffix: string) {
    |suffix| <= |s| && s[|s| - |suffix|..] == suffix
  }

  /** `pat` occurs in `s` starting at position `i`. */
  predicate OccursAt(s: string, pat: string, i: nat) {
    i + |pat| <= |s| && s[i..i + |pat|] == pat
  }

  /** `i` is the leftmost position where `pat` occurs in `s`. */
  predicate IsFirstOccurrence(s: string, pat: string, i: nat) {
    OccursAt(s, pat, i) && forall j: nat :: j < i ==> !OccursAt(s, pat, j)
  }

  /** `s.indexOf(pat, k)`, with `None` for -1. */
  function IndexOfFrom(s: string, pat: string, k: nat): (r: Option<nat>)
    decreases |s| - k
    ensures r.Some? ==> k <= r.value && OccursAt(s, pat, r.value)
    ensures r.Some? ==> forall j: nat :: k <= j < r.value ==> !OccursAt(s, pat, j)
    ensures r.None? ==> forall j: nat :: k <= j ==> !OccursAt(s, pat, j)
  {
    if |s| < k + |pat| then None
    else if s[k..k + |pat|] == pat then Some(k)
    else IndexOfFrom(s, pat, k + 1)
  }

  /** `s.indexOf(pat)`: the first position of `pat` in `s`, if any. */
  function IndexOf(s: string, pat: string): (r: Option<nat>)
    ensures r.Some? ==> IsFirstOccurrence(s, pat, r.value)
    ensures r.None? <==> forall j: nat :: !OccursAt(s, pat, j)
  {
    IndexOfFrom(s, pat, 0)
  }

  /**
   * `s.replace(pat, "")`. With a string pattern JavaScript replaces only the
   * first occurrence, wherever it is; it is not a suffix strip.
   */
  function RemoveFirst(s: string, pat: string): string {
    match IndexOf(s, pat)
    case None => s
    case Some(i) => s[..i] + s[i + |pat|..]
  }

  /** The input unchanged without an occurrence; otherwise the input with its leftmost occurrence cut out. */
  lemma RemoveFirstCuts(s: string, pat: string)
    ensures (forall j: nat :: !OccursAt(s, pat, j)) ==> RemoveFirst(s, pat) == s
    ensures forall i: nat :: IsFirstOccurrence(s, pat, i) ==> RemoveFirst(s, pat) == s[..i] + s[i + |pat|..]
  {
    match IndexOf(s, pat)
    case None =>
    case Some(k) =>
      forall i: nat | IsFirstOccurrence(s, pat, i) ensures i == k {
      }
  }

  /** When `pat` occurs in `s` only as its suffix, removing the first occurrence strips that suffix. */
  lemma RemoveFirstOfSoleSuffix(s: string, pat: string)
    requires EndsWith(s, pat)
    requires forall j: nat :: j < |s| - |pat| ==> !OccursAt(s, pat, j)
    ensures RemoveFirst(s, pat) + pat == s
  {
    assert IsFirstOccurrence(s, pat, |s| - |pat|);
  }

  /** `path.join(dir, name)` for a normalised `dir` (no trailing "/") and a plain entry name. */
  function Join(dir: string, name: string): string {
    dir + "/" + name
  }

  /** A pattern without "/" that does not occur in `dir` cannot start inside `dir + "/"`. */
  lemma NoOccurrenceBeforeName(dir: string, name: string, pat: string, j: nat)
    requires '/' !in pat && |pat| > 0
    requires forall k: nat :: !OccursAt(dir, pat, k)
    requires j < |dir| + 1
    ensures !OccursAt(Join(dir, name), pat, j)
  {
    var s := Join(dir, name);
    if j + |pat| <= |dir| {
      assert s[j..j + |pat|] == dir[j..j + |pat|];
      assert !OccursAt(dir, pat, j);
    } else if j + |pat| <= |s| {
      assert s[j..j + |pat|][|dir| - j] == '/';
    }
  }

  /** A search position moved right by `d`. */
  function Shift(r: Option<nat>, d: nat): Option<nat> {
    match r
    case None => None
    case Some(i) => Some(i + d)
  }

  /** Searching `p + t` from inside `t` finds what searching `t` finds, shifted by `|p|`. */
  lemma {:induction false} IndexOfFromShift(p: string, t: string, pat: string, k: nat)
    requires k <= |t|
    decreases |t| - k
    ensures IndexOfFrom(p + t, pat, |p| + k) == Shift(IndexOfFrom(t, pat, k), |p|)
  {
    var s := p + t;
    if k + |pat| <= |t| {
      assert s[|p| + k..|p| + k + |pat|] == t[k..k + |pat|];
      if t[k..k + |pat|] != pat {
        IndexOfFromShift(p, t, pat, k + 1);
      }
    }
  }

  /** Positions where the pattern does not occur are passed over. */
  lemma {:induction false} IndexOfFromSkip(s: string, pat: string, j: nat, n: nat)
    requires j <= n && forall m: nat :: j <= m < n ==> !OccursAt(s, pat, m)
    decreases n - j
    ensures |s| < n + |pat| ==> IndexOfFrom(s, pat, j).None?
    ensures n + |pat| <= |s| ==> IndexOfFrom(s, pat, j) == IndexOfFrom(s, pat, n)
  {
    if j < n {
      assert !OccursAt(s, pat, j);
      IndexOfFromSkip(s, pat, j + 1, n);
    }
  }

  /** Cutting a stretch out of `p + t` beyond `p` is cutting it out of `t`. */
  lemma CutAfterPrefix(p: string, t: string, i: nat, n: nat)
    requires i + n <= |t|
    ensures (p + t)[..|p| + i] + (p + t)[|p| + i + n..] == p + (t[..i] + t[i + n..])
  {
    var s := p + t;
    assert s[..|p| + i] == p + t[..i];
    assert s[|p| + i + n..] == t[i + n..];
  }

  lemma RemoveFirstAt(s: string, pat: string, i: nat)
    requires IndexOf(s, pat) == Some(i)
    ensures RemoveFirst(s, pat) == s[..i] + s[i + |pat|..]
  {
  }

  lemma RemoveFirstNone(s: string, pat: string)
    requires IndexOf(s, pat).None?
    ensures RemoveFirst(s, pat) == s
  {
  }

  /** The first occurrence in `p + t` is the first one in `t`, so the same stretch is cut. */
  lemma RemoveFirstShifted(p: string, t: string, pat: string, i: nat)
    requires IndexOf(t, pat) == Some(i) && IndexOf(p + t, pat) == Some(|p| + i)
    ensures RemoveFirst(p + t, pat) == p + RemoveFirst(t, pat)
  {
    RemoveFirstAt(t, pat, i);
    RemoveFirstAt(p + t, pat, |p| + i);
    CutAfterPrefix(p, t, i, |pat|);
  }

  /** With no occurrence starting inside `p`, replacing in `p + t` replaces in `t`. */
  lemma RemoveFirstAfterPrefix(p: string, t: string, pat: string)
    requires forall j: nat :: j < |p| ==> !OccursAt(p + t, pat, j)
    ensures RemoveFirst(p + t, pat) == p + RemoveFirst(t, pat)
  {
    IndexOfFromSkip(p + t, pat, 0, |p|);
    IndexOfFromShift(p, t, pat, 0);
    if IndexOf(t, pat).Some? {
      RemoveFirstShifted(p, t, pat, IndexOf(t, pat).value);
    } else {
      RemoveFirstNone(t, pat);
      RemoveFirstNone(p + t, pat);
    }
  }

  /**
   * Replacing the first occurrence in a joined path acts on the entry name
   * alone when the directory part holds no occurrence.
   */
  lemma RemoveFirstInName(dir: string, name: string, pat: string)
    requires '/' !in pat && |pat| > 0
    requires forall k: nat :: !OccursAt(dir, pat, k)
    ensures RemoveFirst(Join(dir, name), pat) == Join(dir, RemoveFirst(name, pat))
  {
    var p := dir + "/";
    assert Join(dir, name) == p + name;
    forall j: nat | j < |p| ensures !OccursAt(p + name, pat, j) {
      NoOccurrenceBeforeName(dir, name, pat, j);
    }
    RemoveFirstAfterPrefix(p, name, pat);
  }

  /** JavaScript white space and line terminators, the characters `trim` removes. */
  predicate IsWhiteSpace(c: char) {
    || c == '\t' || c == '\n' || c == '\U{B}' || c == '\U{C}' || c == '\r' || c == ' '
    || c == '\U{A0}' || c == '\U{1680}' || ('\U{2000}' <= c <= '\U{200A}')
    || c == '\U{2028}' || c == '\U{2029}' || c == '\U{202F}' || c == '\U{205F}'
    || c == '\U{3000}' || c == '\U{FEFF}'
  }

  predicate AllWhiteSpace(s: string) {
    forall k :: 0 <= k < |s| ==> IsWhiteSpace(s[k])
  }

  /** The first position at or after `i` that does not hold white space (or `|s|`). */
  function SkipWhiteSpace(s: string, i: nat): (j: nat)
    requires i <= |s|
    decreases |s| - i
    ensures i <= j <= |s|
    ensures forall k :: i <= k < j ==> IsWhiteSpace(s[k])
    ensures j < |s| ==> !IsWhiteSpace(s[j])
  {
    if i < |s| && IsWhiteSpace(s[i]) then SkipWhiteSpace(s, i + 1) else i
  }

  /** The least `j` in `lo..e` such that `s[j..e]` is all white space. */
  function SkipWhiteSpaceBack(s: string, lo: nat, e: nat): (j: nat)
    requires lo <= e <= |s|
    decreases e
    ensures lo <= j <= e
    ensures forall k :: j <= k < e ==> IsWhiteSpace(s[k])
    ensures j > lo ==> !IsWhiteSpace(s[j - 1])
  {
    if lo < e && IsWhiteSpace(s[e - 1]) then SkipWhiteSpaceBack(s, lo, e - 1) else e
  }

  /** `s.trim()`: `s` without its leading and trailing white space. */
  function Trim(s: string): (r: string)
    ensures r == [] || (!IsWhiteSpace(r[0]) && !IsWhiteSpace(r[|r| - 1]))
    ensures r == [] <==> AllWhiteSpace(s)
    ensures exists i: nat, j: nat :: i <= j <= |s| && r == s[i..j] && AllWhiteSpace(s[..i]) && AllWhiteSpace(s[j..])
  {
    var i := SkipWhiteSpace(s, 0);
    var j := SkipWhiteSpaceBack(s, i, |s|);
    assert AllWhiteSpace(s[..i]) && AllWhiteSpace(s[j..]);
    s[i..j]
  }

  /** JavaScript truthiness of an optional string: present and not empty. */
  predicate Truthy(v: Option<string>) {
    v.Some? && v.value != ""
  }

  /** `v && v.trim() !== ""`: present and not blank. */
  predicate NonBlank(v: Option<string>) {
    v.Some? && Trim(v.value) != ""
  }

  /** A non-blank value is truthy; the converse fails for white space only. */
  lemma NonBlankIsTruthy(v: Option<string>)
    ensures NonBlank(v) ==> Truthy(v)
    ensures Truthy(Some(" ")) && !NonBlank(Some(" "))
  {
    assert AllWhiteSpace(" ");
  }
}
