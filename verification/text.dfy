/**
 * The string helpers the endpoints rely on: Python's argument-less
 * `str.strip()`, ASCII `str.lower()`, and the `in` substring test.
 */
module Text {

  /** True for the characters Python's `str.isspace()` accepts, which are the
      ones an argument-less `str.strip()` removes. */
  predicate IsSpace(c: char)
  {
    var n := c as int;
    n == 0x20 || 0x09 <= n <= 0x0D || 0x1C <= n <= 0x1F || n == 0x85 || n == 0xA0
    || n == 0x1680 || 0x2000 <= n <= 0x200A || n == 0x2028 || n == 0x2029
    || n == 0x202F || n == 0x205F || n == 0x3000
  }

  /** The index of the first non-whitespace character of `s` at or after
      `i`, or `|s|` when there is none. */
  function SkipSpace(s: string, i: nat): (j: nat)
    requires i <= |s|
    ensures i <= j <= |s|
    ensures forall k :: i <= k < j ==> IsSpace(s[k])
    ensures j == |s| || !IsSpace(s[j])
    decreases |s| - i
  {
    if i < |s| && IsSpace(s[i]) then SkipSpace(s, i + 1) else i
  }

  /** The end of `s[..j]` once its trailing whitespace is dropped. */
  function SkipSpaceBack(s: string, j: nat): (i: nat)
    requires j <= |s|
    ensures i <= j
    ensures forall k :: i <= k < j ==> IsSpace(s[k])
    ensures i == 0 || !IsSpace(s[i - 1])
  {
    if j > 0 && IsSpace(s[j - 1]) then SkipSpaceBack(s, j - 1) else j
  }

  /** True when `core` sits at offset `i` of `s` and everything of `s`
      around it is whitespace. */
  predicate CoreAt(s: string, core: string, i: nat)
  {
    && i + |core| <= |s|
    && s[i..i + |core|] == core
    && (forall k :: 0 <= k < i ==> IsSpace(s[k]))
    && (forall k :: i + |core| <= k < |s| ==> IsSpace(s[k]))
  }

  /** True when `r` neither starts nor ends with whitespace. */
  predicate Trimmed(r: string)
  {
    r == [] || (!IsSpace(r[0]) && !IsSpace(r[|r| - 1]))
  }

  /** Python's `s.strip()`: `s` without its leading and trailing whitespace. */
  function Strip(s: string): (r: string)
    ensures exists i: nat :: CoreAt(s, r, i)
    ensures Trimmed(r)
  {
    var a := SkipSpace(s, 0);
    if a == |s| then
      assert CoreAt(s, [], 0);
      []
    else
      var b := SkipSpaceBack(s, |s|);
      assert a < b;
      assert CoreAt(s, s[a..b], a);
      s[a..b]
  }

  /** Stripping is determined by where the non-whitespace text starts and ends:
      any cut of `s` into whitespace, a core that neither starts nor ends with
      whitespace, and whitespace again, has that core as `Strip(s)`. */
  lemma StripIsCore(s: string, core: string, i: nat)
    requires CoreAt(s, core, i)
    requires Trimmed(core)
    ensures Strip(s) == core
  {
    var a := SkipSpace(s, 0);
    if core == [] {
      assert a == |s|;
    } else {
      assert s[i] == core[0];
      assert a == i;
      var b := SkipSpaceBack(s, |s|);
      assert s[i + |core| - 1] == core[|core| - 1];
      assert b == i + |core|;
    }
  }

  lemma StripIdempotent(s: string)
    ensures Strip(Strip(s)) == Strip(s)
  {
    var r := Strip(s);
    assert CoreAt(r, r, 0);
    StripIsCore(r, r, 0);
  }

  /** ASCII `str.lower()` on one character. */
  function LowerChar(c: char): char
  {
    if 'A' <= c <= 'Z' then (c as int + 32) as char else c
  }

  /** ASCII `str.lower()`. */
  function Lower(s: string): (r: string)
    ensures |r| == |s|
    ensures forall i :: 0 <= i < |s| ==> r[i] == LowerChar(s[i])
  {
    seq(|s|, i requires 0 <= i < |s| => LowerChar(s[i]))
  }

  /** Python's `needle in haystack` for strings. */
  function Contains(haystack: string, needle: string): bool
    decreases |haystack|
  {
    |needle| <= |haystack|
    && (haystack[..|needle|] == needle || Contains(haystack[1..], needle))
  }

  /** True when `needle` occurs in `haystack` at offset `i`. */
  predicate OccursAt(haystack: string, needle: string, i: nat)
  {
    i + |needle| <= |haystack| && haystack[i..i + |needle|] == needle
  }

  /** `Contains` holds exactly when `needle` occurs at some offset of `haystack`. */
  lemma {:induction false} ContainsIffOccurs(haystack: string, needle: string)
    ensures Contains(haystack, needle) <==> exists i: nat :: OccursAt(haystack, needle, i)
    decreases |haystack|
  {
    if |needle| > |haystack| {
    } else if haystack[..|needle|] == needle {
      assert OccursAt(haystack, needle, 0);
    } else {
      ContainsIffOccurs(haystack[1..], needle);
      if i: nat :| OccursAt(haystack, needle, i) {
        assert i > 0;
        assert OccursAt(haystack[1..], needle, i - 1);
      }
      if i: nat :| OccursAt(haystack[1..], needle, i) {
        assert OccursAt(haystack, needle, i + 1);
      }
    }
  }

  /** True when `s` has no ASCII capital letter, so that `Lower` leaves it alone. */
  predicate NoUpper(s: string)
  {
    forall i :: 0 <= i < |s| ==> !('A' <= s[i] <= 'Z')
  }

  /** Lowering removes every capital, so lowering twice is lowering once. */
  lemma LowerIdempotent(s: string)
    ensures NoUpper(Lower(s))
    ensures Lower(Lower(s)) == Lower(s)
  {
  }

  /** A needle without capitals found in `haystack` is still found once the
      haystack is lowered. */
  lemma ContainsSurvivesLower(haystack: string, needle: string)
    requires NoUpper(needle)
    requires Contains(haystack, needle)
    ensures Contains(Lower(haystack), needle)
  {
    ContainsIffOccurs(haystack, needle);
    var i: nat :| OccursAt(haystack, needle, i);
    var low := Lower(haystack);
    forall j | 0 <= j < |needle|
      ensures low[i + j] == needle[j]
    {
      assert haystack[i + j] == haystack[i..i + |needle|][j];
    }
    assert OccursAt(low, needle, i);
    ContainsIffOccurs(low, needle);
  }

  /** A needle holding a character the haystack lacks does not occur in it. */
  lemma MissingCharNotContained(haystack: string, needle: string, c: char)
    requires c in needle && c !in haystack
    ensures !Contains(haystack, needle)
  {
    ContainsIffOccurs(haystack, needle);
  }
}
