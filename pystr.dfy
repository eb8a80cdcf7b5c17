/**
 * The Python `str` operations that the modelled code relies on, over Dafny
 * strings (sequences of Unicode code points): `strip()`, `startswith`,
 * `endswith`, `split(sep)`, `replace(old, new)`, `lower()` (ASCII letters only)
 * and the code-point ordering that `<` uses on strings.
 */
module PyStr {
  import opened Wrappers

  /** `str.isspace()` for one character: the characters an argument-less `strip()` removes. */
  predicate IsSpace(c: char) {
    || ('\t' <= c <= '\r')
    || ('\U{1C}' <= c <= '\U{1F}')
    || c == ' ' || c == '\U{85}' || c == '\U{A0}' || c == '\U{1680}'
    || ('\U{2000}' <= c <= '\U{200A}')
    || c == '\U{2028}' || c == '\U{2029}' || c == '\U{202F}' || c == '\U{205F}' || c == '\U{3000}'
  }

  /** The first index at or after `i` that does not hold whitespace (`|s|` if there is none). */
  function SkipSpace(s: string, i: nat): (j: nat)
    requires i <= |s|
    ensures i <= j <= |s|
    ensures forall k :: i <= k < j ==> IsSpace(s[k])
    ensures j == |s| || !IsSpace(s[j])
    decreases |s| - i
  {
    if i < |s| && IsSpace(s[i]) then SkipSpace(s, i + 1) else i
  }

  /** The end left once the whitespace before `j` is dropped, going back no further than `lo`. */
  function BackSpace(s: string, lo: nat, j: nat): (k: nat)
    requires lo <= j <= |s|
    ensures lo <= k <= j
    ensures forall m :: k <= m < j ==> IsSpace(s[m])
    ensures k == lo || !IsSpace(s[k - 1])
    decreases j
  {
    if j > lo && IsSpace(s[j - 1]) then BackSpace(s, lo, j - 1) else j
  }

  /** Where `Strip(s)` starts inside `s`: past the leading whitespace. */
  function Lead(s: string): nat
    ensures Lead(s) <= |s|
  {
    SkipSpace(s, 0)
  }

  /**
   * `s.strip()`: the result is the slice of `s` left once the leading and
   * trailing whitespace is gone; everything outside that slice is whitespace
   * and the slice itself neither begins nor ends with whitespace.
   */
  function Strip(s: string): (r: string)
    ensures r == [] || (!IsSpace(r[0]) && !IsSpace(r[|r| - 1]))
    ensures Lead(s) + |r| <= |s| && r == s[Lead(s)..Lead(s) + |r|]
    ensures forall i :: 0 <= i < |s| && !(Lead(s) <= i < Lead(s) + |r|) ==> IsSpace(s[i])
  {
    var a := Lead(s);
    var b := BackSpace(s, a, |s|);
    assert a < b ==> s[a..b][0] == s[a] && s[a..b][b - a - 1] == s[b - 1];
    s[a..b]
  }

  /** A string that neither begins nor ends with whitespace is its own `strip()`. */
  lemma StripOfTrimmed(t: string)
    requires t == [] || (!IsSpace(t[0]) && !IsSpace(t[|t| - 1]))
    ensures Strip(t) == t
  {
    assert Lead(t) == 0;
    assert BackSpace(t, 0, |t|) == |t|;
    assert t[0..|t|] == t;
  }

  lemma StripIdempotent(s: string)
    ensures Strip(Strip(s)) == Strip(s)
  {
    StripOfTrimmed(Strip(s));
  }

  predicate StartsWith(s: string, prefix: string) {
    |prefix| <= |s| && s[..|prefix|] == prefix
  }

  predicate EndsWith(s: string, suffix: string) {
    |suffix| <= |s| && s[|s| - |suffix|..] == suffix
  }

  /** `sep` occurs in `s` starting at index `i`. */
  predicate OccursAt(s: string, sep: string, i: nat) {
    i + |sep| <= |s| && s[i..i + |sep|] == sep
  }

  /** `sep in s`. */
  ghost predicate Contains(s: string, sep: string) {
    exists i: nat :: OccursAt(s, sep, i)
  }

  /** `s.find(sep, from)`: the leftmost occurrence of `sep` at or after `from`. */
  function FindFrom(s: string, sep: string, from: nat): (r: Option<nat>)
    requires |sep| > 0
    ensures r.Some? ==> from <= r.value && OccursAt(s, sep, r.value)
    ensures forall i: nat :: from <= i && (r.None? || i < r.value) ==> !OccursAt(s, sep, i)
    decreases |s| - from
  {
    if from + |sep| > |s| then None
    else if s[from..from + |sep|] == sep then Some(from)
    else FindFrom(s, sep, from + 1)
  }

  function Find(s: string, sep: string): (r: Option<nat>)
    requires |sep| > 0
  {
    FindFrom(s, sep, 0)
  }

  /** A prefix of `s` that ends before the first occurrence of `sep` does not contain `sep`. */
  lemma PrefixBeforeFirstOccurrence(s: string, sep: string, i: nat)
    requires |sep| > 0 && i <= |s|
    requires forall p: nat :: p < i ==> !OccursAt(s, sep, p)
    ensures !Contains(s[..i], sep)
  {
    forall p: nat | OccursAt(s[..i], sep, p)
      ensures false
    {
      assert s[..i][p..p + |sep|] == s[p..p + |sep|];
      assert OccursAt(s, sep, p);
    }
  }

  /** A slice of a string that does not contain `sep` does not contain it either. */
  lemma SliceAvoids(s: string, sep: string, i: nat, j: nat)
    requires i <= j <= |s|
    requires !Contains(s, sep)
    ensures !Contains(s[i..j], sep)
  {
    forall p: nat | OccursAt(s[i..j], sep, p)
      ensures false
    {
      forall k | 0 <= k < |sep|
        ensures s[i + p + k] == sep[k]
      {
        assert s[i..j][p..p + |sep|][k] == sep[k];
      }
      assert s[i + p..i + p + |sep|] == sep;
      assert OccursAt(s, sep, i + p);
    }
  }

  /** Stripping keeps a string free of a separator it was free of. */
  lemma StripAvoids(s: string, sep: string)
    requires !Contains(s, sep)
    ensures !Contains(Strip(s), sep)
  {
    SliceAvoids(s, sep, Lead(s), Lead(s) + |Strip(s)|);
  }

  /**
   * `s.split(sep)`: the pieces between the non-overlapping occurrences of
   * `sep`, found left to right. There is always at least one piece, and no
   * piece contains `sep`.
   */
  function Split(s: string, sep: string): (parts: seq<string>)
    requires |sep| > 0
    ensures |parts| >= 1
    ensures forall k :: 0 <= k < |parts| ==> !Contains(parts[k], sep)
    decreases |s|
  {
    match Find(s, sep)
    case None =>
      [s]
    case Some(i) =>
      PrefixBeforeFirstOccurrence(s, sep, i);
      [s[..i]] + Split(s[i + |sep|..], sep)
  }

  /** `sep.join(parts)`. */
  function Join(parts: seq<string>, sep: string): string
    decreases |parts|
  {
    if |parts| == 0 then ""
    else if |parts| == 1 then parts[0]
    else parts[0] + sep + Join(parts[1..], sep)
  }

  /** Splitting and joining with the same separator gives back the original string. */
  lemma {:induction false} JoinSplit(s: string, sep: string)
    requires |sep| > 0
    ensures Join(Split(s, sep), sep) == s
    decreases |s|
  {
    match Find(s, sep)
    case None =>
    case Some(i) =>
      var rest := s[i + |sep|..];
      var parts := Split(rest, sep);
      JoinSplit(rest, sep);
      var whole := [s[..i]] + parts;
      assert Split(s, sep) == whole;
      assert whole[1..] == parts;
      assert Join(whole, sep) == s[..i] + sep + Join(parts, sep);
      assert s[i..i + |sep|] == sep;
      assert s == s[..i] + s[i..i + |sep|] + rest;
  }

  /** `s.replace(target, replacement)`: every non-overlapping occurrence, left to right, replaced. */
  function Replace(s: string, target: string, replacement: string): string
    requires |target| > 0
  {
    Join(Split(s, target), replacement)
  }

  /** A string in which a separator does not occur splits into itself alone. */
  lemma SplitAbsent(s: string, sep: string)
    requires |sep| > 0 && !Contains(s, sep)
    ensures Split(s, sep) == [s]
  {
  }

  /** `s.split(sep)` for a string that is `sep` followed by a separator-free rest. */
  lemma SplitAfterLeadingSeparator(sep: string, rest: string)
    requires |sep| > 0 && !Contains(rest, sep)
    ensures Split(sep + rest, sep) == ["", rest]
  {
    var s := sep + rest;
    assert s[0..|sep|] == sep;
    assert Find(s, sep) == Some(0);
    assert s[|sep|..] == rest;
    SplitAbsent(rest, sep);
  }

  /** A string that starts with `sep` splits into an empty piece followed by the pieces of the rest. */
  lemma SplitLeadingSeparator(s: string, sep: string)
    requires |sep| > 0 && StartsWith(s, sep)
    ensures var parts := Split(s, sep);
      |parts| >= 2 && parts[0] == "" && parts[1..] == Split(s[|sep|..], sep)
  {
    assert s[0..|sep|] == sep;
    assert Find(s, sep) == Some(0);
  }

  /** Lower-cases one ASCII letter; every other character is kept. */
  function LowerChar(c: char): char {
    if 'A' <= c <= 'Z' then (c as int + 32) as char else c
  }

  /** `s.lower()` restricted to ASCII letters. */
  function Lower(s: string): string {
    seq(|s|, i requires 0 <= i < |s| => LowerChar(s[i]))
  }

  /** `Lower` keeps the length and leaves no capital letter. */
  lemma LowerHasNoCapitals(s: string)
    ensures |Lower(s)| == |s|
    ensures forall i :: 0 <= i < |s| ==> Lower(s)[i] == LowerChar(s[i]) && !('A' <= Lower(s)[i] <= 'Z')
  {
  }

  lemma LowerCharKeepsSpace(c: char)
    ensures IsSpace(LowerChar(c)) <==> IsSpace(c)
  {
  }

  /** Lower-casing a stripped string leaves it stripped: no letter is whitespace. */
  lemma LowerKeepsStripped(s: string)
    requires Strip(s) == s
    ensures Strip(Lower(s)) == Lower(s)
  {
    var l := Lower(s);
    if |s| > 0 {
      LowerCharKeepsSpace(s[0]);
      LowerCharKeepsSpace(s[|s| - 1]);
      assert !IsSpace(l[0]) && !IsSpace(l[|l| - 1]);
    }
    StripOfTrimmed(l);
  }

  lemma LowerIdempotent(s: string)
    ensures Lower(Lower(s)) == Lower(s)
  {
  }

  /** Python's `a <= b` on strings: lexicographic by code point, a prefix first. */
  predicate LexLe(a: string, b: string)
    decreases |a|
  {
    |a| == 0 || (|b| > 0 && (a[0] < b[0] || (a[0] == b[0] && LexLe(a[1..], b[1..]))))
  }

  lemma {:induction false} LexLeTotal(a: string, b: string)
    ensures LexLe(a, b) || LexLe(b, a)
    decreases |a|
  {
    if |a| > 0 && |b| > 0 && a[0] == b[0] {
      LexLeTotal(a[1..], b[1..]);
    }
  }

  lemma {:induction false} LexLeTransitive(a: string, b: string, c: string)
    requires LexLe(a, b) && LexLe(b, c)
    ensures LexLe(a, c)
    decreases |a|
  {
    if |a| > 0 && a[0] == b[0] && b[0] == c[0] {
      LexLeTransitive(a[1..], b[1..], c[1..]);
    }
  }
}
