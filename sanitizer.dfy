/**
 * The text sanitiser `clean_text`: every character whose code point is not
 * below 128 becomes one space, then whitespace is stripped from both ends the
 * way Python's `str.strip()` does it.
 */
module Sanitizer {
  import opened Wrappers

  /** A character with a code point below 128. */
  predicate IsAscii(c: char) {
    c as int < 128
  }

  /**
   * The ASCII characters for which Python's `str.isspace()` holds: tab, line
   * feed, vertical tab, form feed, carriage return (9-13), the four
   * information separators (28-31) and the space (32). After the non-ASCII
   * characters have been replaced, these are the only ones `strip()` removes.
   */
  function IsSpace(c: char): (b: bool)
    ensures b <==> c in {'\t', '\n', '\U{000B}', '\U{000C}', '\r', '\U{001C}', '\U{001D}', '\U{001E}', '\U{001F}', ' '}
  {
    var k := c as int;
    (9 <= k <= 13) || (28 <= k <= 32)
  }

  /** The generator expression: each character kept if ASCII, else one space. */
  function ReplaceNonAscii(s: string): (r: string)
    ensures |r| == |s|
    ensures forall i :: 0 <= i < |s| ==> r[i] == (if IsAscii(s[i]) then s[i] else ' ')
    ensures forall i :: 0 <= i < |r| ==> IsAscii(r[i])
  {
    if s == [] then []
    else [if IsAscii(s[0]) then s[0] else ' '] + ReplaceNonAscii(s[1..])
  }

  /** The number of whitespace characters at the front of `s`. */
  function LeadingSpaces(s: string): (n: nat)
    ensures n <= |s|
    ensures forall i :: 0 <= i < n ==> IsSpace(s[i])
    ensures n < |s| ==> !IsSpace(s[n])
  {
    if s != [] && IsSpace(s[0]) then 1 + LeadingSpaces(s[1..]) else 0
  }

  /** The number of whitespace characters at the back of `s`. */
  function TrailingSpaces(s: string): (n: nat)
    ensures n <= |s|
    ensures forall i :: |s| - n <= i < |s| ==> IsSpace(s[i])
    ensures n < |s| ==> !IsSpace(s[|s| - n - 1])
  {
    if s != [] && IsSpace(s[|s| - 1]) then 1 + TrailingSpaces(s[..|s| - 1]) else 0
  }

  /**
   * The bounds `lo`, `hi` of what `strip()` keeps: everything outside them is
   * whitespace and, unless nothing is kept, the kept part starts and ends
   * with a character that is not.
   */
  ghost predicate IsStripBounds(s: string, lo: int, hi: int) {
    && 0 <= lo <= hi <= |s|
    && (forall i :: 0 <= i < lo ==> IsSpace(s[i]))
    && (forall i :: hi <= i < |s| ==> IsSpace(s[i]))
    && (lo < hi ==> !IsSpace(s[lo]) && !IsSpace(s[hi - 1]))
  }

  function StripBounds(s: string): (b: (nat, nat))
    ensures IsStripBounds(s, b.0, b.1)
  {
    var lo := LeadingSpaces(s);
    var rest := s[lo..];
    var hi := |s| - TrailingSpaces(rest);
    assert forall i :: hi <= i < |s| ==> s[i] == rest[i - lo];
    (lo, hi)
  }

  /** Python's `str.strip()` without arguments, on ASCII whitespace. */
  function Strip(s: string): (r: string)
    ensures |r| <= |s|
    ensures r != [] ==> !IsSpace(r[0]) && !IsSpace(r[|r| - 1])
    ensures r == [] <==> forall i :: 0 <= i < |s| ==> IsSpace(s[i])
  {
    var b := StripBounds(s);
    s[b.0..b.1]
  }

  /**
   * `strip()` is pinned down by what it removes: any slice with only
   * whitespace outside it and no whitespace at its two ends is the stripped
   * string, and an all-whitespace string strips to nothing.
   */
  lemma StripUnique(s: string, lo: int, hi: int)
    requires IsStripBounds(s, lo, hi)
    ensures Strip(s) == s[lo..hi]
  {
    var b := StripBounds(s);
    if lo < hi {
      assert !IsSpace(s[lo]) && !IsSpace(s[hi - 1]);
    } else {
      assert forall i :: 0 <= i < |s| ==> IsSpace(s[i]);
    }
  }

  /** `clean_text`: `""` for `None` and for the empty string. */
  function CleanText(text: Option<string>): (r: string)
    ensures text == None || text == Some("") ==> r == ""
    ensures text.Some? ==> |r| <= |text.value|
    ensures forall i :: 0 <= i < |r| ==> IsAscii(r[i])
    ensures r != [] ==> !IsSpace(r[0]) && !IsSpace(r[|r| - 1])
  {
    if text == None || text == Some("") then ""
    else Strip(ReplaceNonAscii(text.value))
  }

  /**
   * Before stripping the mapping is one-for-one, and the result is a
   * contiguous slice of the mapped string with only whitespace cut off
   * on either side.
   */
  lemma CleanTextIsSlice(text: string) returns (lo: nat, hi: nat)
    ensures lo <= hi <= |text|
    ensures CleanText(Some(text)) == ReplaceNonAscii(text)[lo..hi]
    ensures forall i :: 0 <= i < lo ==> IsSpace(ReplaceNonAscii(text)[i])
    ensures forall i :: hi <= i < |text| ==> IsSpace(ReplaceNonAscii(text)[i])
  {
    var m := ReplaceNonAscii(text);
    if text == "" {
      lo, hi := 0, 0;
    } else {
      lo, hi := StripBounds(m).0, StripBounds(m).1;
    }
  }

  /** An ASCII string without whitespace at either end comes back unchanged. */
  lemma CleanTextKeepsCleanText(t: string)
    requires forall i :: 0 <= i < |t| ==> IsAscii(t[i])
    requires t != [] ==> !IsSpace(t[0]) && !IsSpace(t[|t| - 1])
    ensures CleanText(Some(t)) == t
  {
    if t != "" {
      var m := ReplaceNonAscii(t);
      assert m == t;
      StripUnique(m, 0, |m|);
    }
  }

  /** Cleaning twice is cleaning once. */
  lemma CleanTextIdempotent(text: Option<string>)
    ensures CleanText(Some(CleanText(text))) == CleanText(text)
  {
    CleanTextKeepsCleanText(CleanText(text));
  }
}
