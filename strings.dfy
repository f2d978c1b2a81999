/**
 * The few Python string operations the clinic code relies on, over
 * `string` (a sequence of Unicode scalar values): `str.isspace`,
 * `str.strip`, ASCII lower-casing (what SQLite's `lower` and `LIKE` do),
 * substring search and the code-point order that `<` and `sort` use.
 */
module Strings {

  /** Python's `str.isspace` for one character: the ASCII controls
      TAB..CR and FS..US, the space, and the Unicode white-space set. */
  predicate IsSpace(c: char) {
    || c == ' '
    || ('\t' <= c <= '\r')
    || ('\U{1C}' <= c <= '\U{1F}')
    || c == '\U{85}' || c == '\U{A0}' || c == '\U{1680}'
    || ('\U{2000}' <= c <= '\U{200A}')
    || c == '\U{2028}' || c == '\U{2029}' || c == '\U{202F}' || c == '\U{205F}'
    || c == '\U{3000}'
  }

  /** Every character of `s` is white space (the empty string included). */
  predicate IsBlank(s: string) {
    forall i :: 0 <= i < |s| ==> IsSpace(s[i])
  }

  /** How many white-space characters `s` starts with. */
  function LeadingBlanks(s: string): (n: nat)
    ensures n <= |s|
    ensures forall i :: 0 <= i < n ==> IsSpace(s[i])
    ensures n == |s| || !IsSpace(s[n])
  {
    if s != [] && IsSpace(s[0]) then 1 + LeadingBlanks(s[1..]) else 0
  }

  /** How many white-space characters `s` ends with. */
  function TrailingBlanks(s: string): (n: nat)
    ensures n <= |s|
    ensures forall i :: |s| - n <= i < |s| ==> IsSpace(s[i])
    ensures n == |s| || !IsSpace(s[|s| - n - 1])
  {
    if s != [] && IsSpace(s[|s| - 1]) then 1 + TrailingBlanks(s[..|s| - 1]) else 0
  }

  /** `s.strip()`: `s` without its leading white space (`lstrip`), then
      without its trailing white space (`rstrip`). The result is empty
      exactly when `s` is blank, which is what the source's truthiness
      tests on stripped text decide. */
  function Strip(s: string): (r: string)
    ensures |r| <= |s|
    ensures r == [] || (!IsSpace(r[0]) && !IsSpace(r[|r| - 1]))
    ensures r == [] <==> IsBlank(s)
  {
    var lo := LeadingBlanks(s);
    var t := s[lo..];
    var r := t[..|t| - TrailingBlanks(t)];
    assert lo < |s| ==> t[0] == s[lo];
    assert r == [] ==> lo == |s|;
    r
  }

  /** What strip removes is white space, and only from the two ends: the
      result is a slice of the input with a blank part on either side. */
  lemma StripIsSlice(s: string)
    ensures var r := Strip(s); exists lo :: 0 <= lo <= |s| - |r| && r == s[lo..lo + |r|] && IsBlank(s[..lo]) && IsBlank(s[lo + |r|..])
  {
    var lo := LeadingBlanks(s);
    var r := Strip(s);
    StripIsInner(s);
    LeadingBlanksAreBlank(s);
    TrailingBlanksAreBlank(s, lo, |r|);
    assert 0 <= lo <= |s| - |r| && r == s[lo..lo + |r|] && IsBlank(s[..lo]) && IsBlank(s[lo + |r|..]);
  }

  /** The strip is what lies between the leading and the trailing blanks. */
  lemma StripIsInner(s: string)
    ensures var lo := LeadingBlanks(s);
      |Strip(s)| == |s[lo..]| - TrailingBlanks(s[lo..]) && Strip(s) == s[lo..lo + |Strip(s)|]
  {
  }

  /** The characters `LeadingBlanks` counts form a blank prefix. */
  lemma LeadingBlanksAreBlank(s: string)
    ensures IsBlank(s[..LeadingBlanks(s)])
  {
    var head := s[..LeadingBlanks(s)];
    forall i | 0 <= i < |head| ensures IsSpace(head[i]) {
      assert head[i] == s[i];
    }
  }

  /** What is left after the first `hi` characters of `s[lo..]`, when those drop the trailing blanks, is blank. */
  lemma TrailingBlanksAreBlank(s: string, lo: nat, hi: nat)
    requires lo <= |s| && hi == |s[lo..]| - TrailingBlanks(s[lo..])
    ensures IsBlank(s[lo + hi..])
  {
    var t := s[lo..];
    var tail := s[lo + hi..];
    forall i | 0 <= i < |tail| ensures IsSpace(tail[i]) {
      assert tail[i] == t[hi + i];
    }
  }

  /** Text with no white space at either end is its own strip. */
  lemma StripUntrimmed(s: string)
    requires s == [] || (!IsSpace(s[0]) && !IsSpace(s[|s| - 1]))
    ensures Strip(s) == s
  {
  }

  /** ASCII lower-casing of one character; everything else is left alone. */
  function LowerChar(c: char): char {
    if 'A' <= c <= 'Z' then (c as int + 32) as char else c
  }

  /** ASCII lower-casing of a text, character by character. */
  function Lower(s: string): (r: string)
    ensures |r| == |s|
    ensures forall i :: 0 <= i < |s| ==> r[i] == LowerChar(s[i])
  {
    seq(|s|, i requires 0 <= i < |s| => LowerChar(s[i]))
  }

  /** No upper-case ASCII letter is left after lower-casing. */
  lemma LowerHasNoUpper(s: string)
    ensures forall i :: 0 <= i < |Lower(s)| ==> !('A' <= Lower(s)[i] <= 'Z')
  {
  }

  /** Lower-casing twice is lower-casing once. */
  lemma LowerIdempotent(s: string)
    ensures Lower(Lower(s)) == Lower(s)
  {
    LowerHasNoUpper(s);
  }

  /** `sub` occurs in `s` at position `i`. */
  predicate OccursAt(s: string, sub: string, i: int) {
    0 <= i && i + |sub| <= |s| && s[i..i + |sub|] == sub
  }

  /** Python's `sub in s`, scanning `s` one position at a time. */
  predicate Contains(s: string, sub: string) {
    if sub <= s then true
    else if s == [] then false
    else Contains(s[1..], sub)
  }

  /** The scan finds `sub` exactly when it occurs at some position. */
  lemma {:induction false} ContainsIff(s: string, sub: string)
    ensures Contains(s, sub) <==> exists i :: OccursAt(s, sub, i)
  {
    if sub <= s {
      assert OccursAt(s, sub, 0);
    } else if s == [] {
      assert forall i :: !OccursAt(s, sub, i);
    } else {
      ContainsIff(s[1..], sub);
      assert forall i :: OccursAt(s[1..], sub, i) <==> OccursAt(s, sub, i + 1);
      assert !OccursAt(s, sub, 0);
      assert forall i :: OccursAt(s, sub, i) ==> i == 0 || OccursAt(s[1..], sub, i - 1);
    }
  }

  /** Substring test that ignores ASCII case, as `ILIKE '%sub%'` does on SQLite. */
  predicate ContainsIgnoringCase(s: string, sub: string) {
    Contains(Lower(s), Lower(sub))
  }

  /** The case-insensitive test does not see the ASCII case of either text:
      lower-casing the text or the fragment first changes nothing, and so
      does any change of case that keeps the lower-cased texts equal. */
  lemma ContainsIgnoringCaseIgnoresCase(s: string, sub: string, s': string, sub': string)
    requires Lower(s') == Lower(s) && Lower(sub') == Lower(sub)
    ensures ContainsIgnoringCase(s, sub) <==> ContainsIgnoringCase(Lower(s), sub)
    ensures ContainsIgnoringCase(s, sub) <==> ContainsIgnoringCase(s, Lower(sub))
    ensures ContainsIgnoringCase(s, sub) <==> ContainsIgnoringCase(s', sub')
  {
    LowerIdempotent(s);
    LowerIdempotent(sub);
  }

  /** Python's `a < b` on `str`: lexicographic by code point. */
  predicate Less(a: string, b: string) {
    if a == [] then b != []
    else if b == [] then false
    else if a[0] != b[0] then a[0] < b[0]
    else Less(a[1..], b[1..])
  }

  lemma {:induction false} LessIrreflexive(a: string)
    ensures !Less(a, a)
  {
    if a != [] { LessIrreflexive(a[1..]); }
  }

  lemma {:induction false} LessTrichotomy(a: string, b: string)
    ensures Less(a, b) || a == b || Less(b, a)
  {
    if a != [] && b != [] && a[0] == b[0] {
      LessTrichotomy(a[1..], b[1..]);
      if a[1..] == b[1..] {
        assert a == [a[0]] + a[1..] && b == [b[0]] + b[1..];
      }
    }
  }

  lemma {:induction false} LessTransitive(a: string, b: string, c: string)
    requires Less(a, b) && Less(b, c)
    ensures Less(a, c)
  {
    if a != [] && a[0] == b[0] && b[0] == c[0] {
      LessTransitive(a[1..], b[1..], c[1..]);
    }
  }
}
