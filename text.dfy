/**
 * String helpers that the Python code gets from `str`: `strip()` with no
 * argument, `count(sub)` and `os.path.basename` (POSIX flavour).
 */
module Text {

  /** Python's `str.isspace` for one character: the ASCII separators and
      the Unicode characters whose category is Zs or whose bidirectional
      class is WS, B or S. */
  predicate IsSpace(c: char) {
    c == ' ' || c == '\t' || c == '\n' || c == '\r' || c == '\U{0B}' || c == '\U{0C}'
    || ('\U{1C}' <= c <= '\U{1F}')
    || c == '\U{85}' || c == '\U{A0}' || c == '\U{1680}'
    || ('\U{2000}' <= c <= '\U{200A}')
    || c == '\U{2028}' || c == '\U{2029}' || c == '\U{202F}' || c == '\U{205F}' || c == '\U{3000}'
  }

  predicate AllSpace(s: string) {
    forall i :: 0 <= i < |s| ==> IsSpace(s[i])
  }

  /** `s.lstrip()`: drops the leading whitespace and nothing else. */
  function TrimStart(s: string): (r: string)
    ensures |r| <= |s| && r == s[|s| - |r|..]
    ensures AllSpace(s[..|s| - |r|])
    ensures r == [] || !IsSpace(r[0])
  {
    if s != [] && IsSpace(s[0]) then TrimStart(s[1..]) else s
  }

  /** `s.rstrip()`: drops the trailing whitespace and nothing else. */
  function TrimEnd(s: string): (r: string)
    ensures |r| <= |s| && r == s[..|r|]
    ensures AllSpace(s[|r|..])
    ensures r == [] || !IsSpace(r[|r| - 1])
  {
    if s != [] && IsSpace(s[|s| - 1]) then TrimEnd(s[..|s| - 1]) else s
  }

  /** `s.strip()`: drops the leading and the trailing whitespace; the
      result is empty exactly when `s` is all whitespace. */
  function Strip(s: string): (r: string)
    ensures |r| <= |s|
    ensures EdgeTrimmed(s, r, |s| - |TrimStart(s)|)
    ensures r == [] || (!IsSpace(r[0]) && !IsSpace(r[|r| - 1]))
    ensures r == [] <==> AllSpace(s)
  {
    StripEmpty(s);
    SliceOfSlice(s, TrimStart(s), TrimEnd(TrimStart(s)));
    TrimEnd(TrimStart(s))
  }

  /** `r` is the slice of `s` starting at `i`, with whitespace only on
      either side of it. */
  predicate EdgeTrimmed(s: string, r: string, i: int) {
    0 <= i && i + |r| <= |s| && r == s[i..i + |r|] && AllSpace(s[..i]) && AllSpace(s[i + |r|..])
  }

  /** A prefix `r` of a suffix `t` of `s`, each cut off from whitespace only,
      is `s` trimmed at both edges. */
  lemma SliceOfSlice(s: string, t: string, r: string)
    requires |t| <= |s| && t == s[|s| - |t|..] && AllSpace(s[..|s| - |t|])
    requires |r| <= |t| && r == t[..|r|] && AllSpace(t[|r|..])
    ensures EdgeTrimmed(s, r, |s| - |t|)
  {
    var i := |s| - |t|;
    assert s[i..i + |r|] == t[..|r|];
    assert s[i + |r|..] == t[|r|..];
  }

  lemma StripEmpty(s: string)
    ensures TrimEnd(TrimStart(s)) == [] <==> AllSpace(s)
  {
    var t := TrimStart(s);
    var r := TrimEnd(t);
    var i := |s| - |t|;
    if r == [] {
      assert t[|r|..] == t;
      assert t == [];
      assert s[..i] == s;
    } else {
      assert r[0] == t[0];
    }
  }

  /** Stripping text that neither starts nor ends with whitespace gives
      it back unchanged. */
  lemma {:induction false} StripTrimmed(s: string)
    requires s == [] || (!IsSpace(s[0]) && !IsSpace(s[|s| - 1]))
    ensures Strip(s) == s
  {
    assert TrimStart(s) == s;
    assert TrimEnd(s) == s;
  }

  /** `strip()` is idempotent. */
  lemma StripIdempotent(s: string)
    ensures Strip(Strip(s)) == Strip(s)
  {
    StripTrimmed(Strip(s));
  }

  /** Whitespace-only text stays whitespace-only when glued together. */
  lemma AllSpaceConcat(a: string, b: string)
    ensures AllSpace(a + b) <==> AllSpace(a) && AllSpace(b)
  {
    if AllSpace(a + b) {
      forall k | 0 <= k < |a| ensures IsSpace(a[k]) { assert a[k] == (a + b)[k]; }
      forall k | 0 <= k < |b| ensures IsSpace(b[k]) { assert b[k] == (a + b)[|a| + k]; }
    }
  }

  /** `pattern` occurs in `s` starting at index `i`. */
  predicate OccursAt(s: string, pattern: string, i: int) {
    0 <= i && i + |pattern| <= |s| && s[i..i + |pattern|] == pattern
  }

  /** Python's `s.count(pattern)` for a non-empty pattern: the number of
      non-overlapping occurrences, found left to right. */
  function Count(s: string, pattern: string): (n: nat)
    requires pattern != []
    ensures n * |pattern| <= |s|
    decreases |s|
  {
    if |s| < |pattern| then 0
    else if s[..|pattern|] == pattern then 1 + Count(s[|pattern|..], pattern)
    else Count(s[1..], pattern)
  }

  lemma OccursAtShift(s: string, pattern: string, k: nat, i: int)
    requires k <= |s|
    ensures OccursAt(s[k..], pattern, i) <==> i >= 0 && OccursAt(s, pattern, i + k)
  {
    if i >= 0 && i + |pattern| <= |s| - k {
      assert s[k..][i..i + |pattern|] == s[i + k..i + k + |pattern|];
    }
  }

  /** `s.count(pattern) >= 1` holds exactly when `pattern` occurs in `s`. */
  lemma {:induction false} CountPositive(s: string, pattern: string)
    requires pattern != []
    ensures Count(s, pattern) >= 1 <==> exists i :: OccursAt(s, pattern, i)
    decreases |s|
  {
    if |s| < |pattern| {
      assert forall i :: !OccursAt(s, pattern, i);
    } else if s[..|pattern|] == pattern {
      assert OccursAt(s, pattern, 0);
    } else {
      CountPositive(s[1..], pattern);
      if Count(s, pattern) >= 1 {
        var i :| OccursAt(s[1..], pattern, i);
        OccursAtShift(s, pattern, 1, i);
      }
      if exists i :: OccursAt(s, pattern, i) {
        var i :| OccursAt(s, pattern, i);
        assert i != 0;
        OccursAtShift(s, pattern, 1, i - 1);
      }
    }
  }

  /** `pattern` occurs twice in `s` without the two occurrences overlapping. */
  ghost predicate OccursTwice(s: string, pattern: string) {
    exists i, j :: i + |pattern| <= j && OccursAt(s, pattern, i) && OccursAt(s, pattern, j)
  }

  lemma {:induction false} CountMoreThanOneSound(s: string, pattern: string)
    requires pattern != [] && Count(s, pattern) > 1
    ensures OccursTwice(s, pattern)
    decreases |s|
  {
    var p := |pattern|;
    if s[..p] == pattern {
      var rest := s[p..];
      CountPositive(rest, pattern);
      var j :| OccursAt(rest, pattern, j);
      OccursAtShift(s, pattern, p, j);
      assert OccursAt(s, pattern, 0) && OccursAt(s, pattern, j + p);
    } else {
      var rest := s[1..];
      CountMoreThanOneSound(rest, pattern);
      var i, j :| i + p <= j && OccursAt(rest, pattern, i) && OccursAt(rest, pattern, j);
      OccursAtShift(s, pattern, 1, i);
      OccursAtShift(s, pattern, 1, j);
      assert OccursAt(s, pattern, i + 1) && OccursAt(s, pattern, j + 1);
    }
  }

  lemma {:induction false} CountMoreThanOneComplete(s: string, pattern: string, i: int, j: int)
    requires pattern != []
    requires i + |pattern| <= j && OccursAt(s, pattern, i) && OccursAt(s, pattern, j)
    ensures Count(s, pattern) > 1
    decreases |s|
  {
    var p := |pattern|;
    if s[..p] == pattern {
      OccursAtShift(s, pattern, p, j - p);
      CountPositive(s[p..], pattern);
    } else {
      assert i != 0;
      OccursAtShift(s, pattern, 1, i - 1);
      OccursAtShift(s, pattern, 1, j - 1);
      CountMoreThanOneComplete(s[1..], pattern, i - 1, j - 1);
    }
  }

  /** `s.count(pattern) > 1` holds exactly when `pattern` occurs twice in `s`
      without the two occurrences overlapping. */
  lemma CountMoreThanOne(s: string, pattern: string)
    requires pattern != []
    ensures Count(s, pattern) > 1 <==> OccursTwice(s, pattern)
  {
    if Count(s, pattern) > 1 {
      CountMoreThanOneSound(s, pattern);
    }
    if OccursTwice(s, pattern) {
      var i, j :| i + |pattern| <= j && OccursAt(s, pattern, i) && OccursAt(s, pattern, j);
      CountMoreThanOneComplete(s, pattern, i, j);
    }
  }

  /** `suffix` ends `s`. */
  predicate IsSuffix(suffix: string, s: string) {
    |suffix| <= |s| && s[|s| - |suffix|..] == suffix
  }

  /** POSIX `os.path.basename(path)`: everything after the last '/'. */
  function Basename(path: string): (r: string)
    ensures IsSuffix(r, path)
    ensures '/' !in r
    ensures |r| < |path| ==> path[|path| - |r| - 1] == '/'
  {
    if path == [] || path[|path| - 1] == '/' then []
    else Basename(path[..|path| - 1]) + [path[|path| - 1]]
  }
}
