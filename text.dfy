/**
 * The string operations the search box relies on: Python's `str.strip()` and a
 * case-insensitive "contains" as used by `Series.str.contains(q, case=False)`.
 */
module Text {

  /** Python's `str.isspace()` for a single character. */
  predicate IsSpace(c: char)
  {
    || c == ' ' || c == '\t' || c == '\n' || c == '\r' || c == '\U{0B}' || c == '\U{0C}'
    || ('\U{1C}' <= c <= '\U{1F}') || c == '\U{85}' || c == '\U{A0}' || c == '\U{1680}'
    || ('\U{2000}' <= c <= '\U{200A}') || c == '\U{2028}' || c == '\U{2029}'
    || c == '\U{202F}' || c == '\U{205F}' || c == '\U{3000}'
  }

  /** `s.lstrip()`: the suffix of `s` left after dropping its leading whitespace. */
  function TrimStart(s: string): (r: string)
    ensures |r| <= |s| && r == s[|s| - |r|..]
    ensures forall k :: 0 <= k < |s| - |r| ==> IsSpace(s[k])
    ensures r != [] ==> !IsSpace(r[0]) && !IsSpace(s[|s| - |r|])
  {
    if s != [] && IsSpace(s[0]) then TrimStart(s[1..]) else s
  }

  /** `s.rstrip()`: the prefix of `s` left after dropping its trailing whitespace. */
  function TrimEnd(s: string): (r: string)
    ensures |r| <= |s| && r == s[..|r|]
    ensures forall k :: |r| <= k < |s| ==> IsSpace(s[k])
    ensures r != [] ==> !IsSpace(r[|r| - 1])
  {
    if s != [] && IsSpace(s[|s| - 1]) then TrimEnd(s[..|s| - 1]) else s
  }

  /**
   * `r` is `s` with the `i` whitespace characters before it and the whitespace
   * characters after it removed.
   */
  ghost predicate IsStripOf(s: string, r: string, i: int)
  {
    && 0 <= i <= |s| - |r| && r == s[i..i + |r|]
    && (forall k :: 0 <= k < i ==> IsSpace(s[k]))
    && (forall k :: i + |r| <= k < |s| ==> IsSpace(s[k]))
  }

  /**
   * `s.strip()`: the middle of `s` between its leading and trailing whitespace, which
   * neither starts nor ends with whitespace.
   */
  function Strip(s: string): (r: string)
    ensures exists i :: IsStripOf(s, r, i)
    ensures r != [] ==> !IsSpace(r[0]) && !IsSpace(r[|r| - 1])
  {
    var t := TrimStart(s);
    var r := TrimEnd(t);
    var i := |s| - |t|;
    assert IsStripOf(s, r, i);
    r
  }

  /** The search is blank exactly when the text is all whitespace. */
  lemma StripBlankIff(s: string)
    ensures Strip(s) == [] <==> forall k :: 0 <= k < |s| ==> IsSpace(s[k])
  {
    if Strip(s) == [] {
      var i :| IsStripOf(s, [], i);
    }
  }

  /** Stripping twice is stripping once. */
  lemma StripIdempotent(s: string)
    ensures Strip(Strip(s)) == Strip(s)
  {
    var r := Strip(s);
    var t := TrimStart(r);
    assert t == r;
    assert TrimEnd(t) == t;
  }

  /** Lower-cases the ASCII letters and leaves every other character as it is. */
  function LowerChar(c: char): (d: char)
    ensures !('A' <= d <= 'Z')
    ensures 'A' <= c <= 'Z' ==> d as int == c as int + 32
    ensures !('A' <= c <= 'Z') ==> d == c
  {
    if 'A' <= c <= 'Z' then (c as int - 'A' as int + 'a' as int) as char else c
  }

  /** `s` with every ASCII letter lower-cased: no upper-case ASCII letter is left. */
  function Lower(s: string): (r: string)
    ensures |r| == |s|
    ensures forall k :: 0 <= k < |s| ==> r[k] == LowerChar(s[k])
    ensures forall k :: 0 <= k < |r| ==> !('A' <= r[k] <= 'Z')
  {
    seq(|s|, k requires 0 <= k < |s| => LowerChar(s[k]))
  }

  /** `needle` occurs in `hay` starting at index `i`. */
  ghost predicate OccursAt(hay: string, needle: string, i: int)
  {
    0 <= i <= |hay| - |needle| && hay[i..i + |needle|] == needle
  }

  /** `needle` occurs in `hay` as a contiguous block (`needle in hay` in Python). */
  function Contains(hay: string, needle: string): (b: bool)
    ensures b <==> exists i :: OccursAt(hay, needle, i)
  {
    if needle <= hay then
      assert OccursAt(hay, needle, 0);
      true
    else if hay == [] then false
    else
      var rest := Contains(hay[1..], needle);
      assert rest ==> exists i :: OccursAt(hay, needle, i) by {
        if rest {
          var j :| OccursAt(hay[1..], needle, j);
          assert hay[1..][j..j + |needle|] == hay[j + 1..j + 1 + |needle|];
          assert OccursAt(hay, needle, j + 1);
        }
      }
      assert (exists i :: OccursAt(hay, needle, i)) ==> rest by {
        if exists i :: OccursAt(hay, needle, i) {
          var i :| OccursAt(hay, needle, i);
          assert i != 0;
          assert hay[1..][i - 1..i - 1 + |needle|] == hay[i..i + |needle|];
          assert OccursAt(hay[1..], needle, i - 1);
        }
      }
      rest
  }

  /** `needle` occurs in `hay` ignoring the case of ASCII letters (`case=False`). */
  function ContainsIgnoringCase(hay: string, needle: string): (b: bool)
    ensures Contains(hay, needle) ==> b
    ensures b <==> exists i :: OccursAt(Lower(hay), Lower(needle), i)
  {
    var b := Contains(Lower(hay), Lower(needle));
    assert Contains(hay, needle) ==> b by {
      if Contains(hay, needle) {
        var i :| OccursAt(hay, needle, i);
        LowerOccurrence(hay, needle, i);
      }
    }
    b
  }

  /** An exact occurrence is still an occurrence once both sides are lower-cased. */
  lemma LowerOccurrence(hay: string, needle: string, i: int)
    requires OccursAt(hay, needle, i)
    ensures OccursAt(Lower(hay), Lower(needle), i)
  {
    assert hay[i..i + |needle|] == needle;
    forall k | 0 <= k < |needle| ensures Lower(hay)[i + k] == Lower(needle)[k] {
      assert hay[i + k] == needle[k];
    }
    assert Lower(hay)[i..i + |needle|] == Lower(needle);
  }

  /** Two characters are the same letter in either case, or simply equal. */
  predicate SameLetter(a: char, b: char)
  {
    a == b ||
    ('A' <= a <= 'Z' && b as int == a as int + 32) ||
    ('A' <= b <= 'Z' && a as int == b as int + 32)
  }

  /** Two strings that differ at most in the case of their ASCII letters. */
  predicate SameUpToCase(s: string, t: string)
  {
    |s| == |t| && forall k :: 0 <= k < |s| ==> SameLetter(s[k], t[k])
  }

  /**
   * The case-insensitive match cannot tell apart texts that differ only in the case
   * of their ASCII letters, neither in the name nor in the search text.
   */
  lemma CaseInvariant(hay: string, hay': string, needle: string, needle': string)
    requires SameUpToCase(hay, hay') && SameUpToCase(needle, needle')
    ensures ContainsIgnoringCase(hay, needle) == ContainsIgnoringCase(hay', needle')
  {
    assert Lower(hay) == Lower(hay');
    assert Lower(needle) == Lower(needle');
  }
}
