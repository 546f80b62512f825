/** Column-name cleaning: Python's `str.strip()` with no argument, as applied to
    every column name of the uploaded table (app.py:52). */
module Cleaning {

  /** The characters Python's `str.isspace` accepts; `str.strip()` with no
      argument removes exactly these from both ends of a string. */
  predicate IsSpace(c: char) {
    || ('\t' <= c <= '\r')                      // U+0009 .. U+000D
    || ('\U{1C}' <= c <= '\U{1F}')              // file, group, record, unit separators
    || c == ' ' || c == '\U{85}' || c == '\U{A0}' || c == '\U{1680}'
    || ('\U{2000}' <= c <= '\U{200A}')
    || c == '\U{2028}' || c == '\U{2029}' || c == '\U{202F}' || c == '\U{205F}'
    || c == '\U{3000}'
  }

  predicate AllSpace(s: string) {
    forall i :: 0 <= i < |s| ==> IsSpace(s[i])
  }

  /** Neither end of `s` is whitespace: what `strip()` leaves behind. */
  predicate Trimmed(s: string) {
    s == [] || (!IsSpace(s[0]) && !IsSpace(s[|s| - 1]))
  }

  /** Where the leading whitespace of `s[from..]` ends: the first position at
      or after `from` that is not whitespace, or `|s|`. */
  function SkipSpaces(s: string, from: nat): (i: nat)
    requires from <= |s|
    ensures from <= i <= |s|
    ensures forall k :: from <= k < i ==> IsSpace(s[k])
    ensures i < |s| ==> !IsSpace(s[i])
    decreases |s| - from
  {
    if from < |s| && IsSpace(s[from]) then SkipSpaces(s, from + 1) else from
  }

  /** Where the trailing whitespace of `s[low..upto]` begins: the last
      boundary at or below `upto` that is `low` or follows a character that is
      not whitespace. */
  function BackSpaces(s: string, low: nat, upto: nat): (j: nat)
    requires low <= upto <= |s|
    ensures low <= j <= upto
    ensures forall k :: j <= k < upto ==> IsSpace(s[k])
    ensures low < j ==> !IsSpace(s[j - 1])
    decreases upto
  {
    if low < upto && IsSpace(s[upto - 1]) then BackSpaces(s, low, upto - 1) else upto
  }

  /** `s.strip()`: `s` with whitespace removed from both ends. */
  function Strip(s: string): (r: string)
    ensures Trimmed(r)
    ensures |r| <= |s|
  {
    var i := SkipSpaces(s, 0);
    s[i..BackSpaces(s, i, |s|)]
  }

  lemma SpaceSlice(s: string, lo: nat, hi: nat)
    requires lo <= hi <= |s|
    requires forall k :: lo <= k < hi ==> IsSpace(s[k])
    ensures AllSpace(s[lo..hi])
  {
    forall k | 0 <= k < hi - lo
      ensures IsSpace(s[lo..hi][k])
    {
      assert s[lo..hi][k] == s[lo + k];
    }
  }

  /** What `strip()` removed is whitespace on either side of what it kept. */
  lemma StripSplits(s: string) returns (before: string, after: string)
    ensures AllSpace(before) && AllSpace(after)
    ensures s == before + Strip(s) + after
  {
    var i := SkipSpaces(s, 0);
    var j := BackSpaces(s, i, |s|);
    SpaceSlice(s, 0, i);
    SpaceSlice(s, j, |s|);
    before, after := s[0..i], s[j..|s|];
    assert s == s[0..i] + s[i..j] + s[j..|s|];
  }

  lemma {:induction false} SkipSpacesReaches(s: string, from: nat, stop: nat)
    requires from <= stop <= |s|
    requires forall k :: from <= k < stop ==> IsSpace(s[k])
    requires stop < |s| ==> !IsSpace(s[stop])
    ensures SkipSpaces(s, from) == stop
    decreases stop - from
  {
    if from < stop {
      SkipSpacesReaches(s, from + 1, stop);
    }
  }

  lemma {:induction false} BackSpacesReaches(s: string, low: nat, upto: nat, stop: nat)
    requires low <= stop <= upto <= |s|
    requires forall k :: stop <= k < upto ==> IsSpace(s[k])
    requires low < stop ==> !IsSpace(s[stop - 1])
    ensures BackSpaces(s, low, upto) == stop
    decreases upto
  {
    if stop < upto {
      BackSpacesReaches(s, low, upto - 1, stop);
    }
  }

  /** The reference characterisation of `strip()`: a trimmed string padded on
      either side with whitespace strips back to itself. With `StripSplits`
      this pins the result down uniquely. */
  lemma StripPadded(before: string, core: string, after: string)
    requires AllSpace(before) && AllSpace(after) && Trimmed(core)
    ensures Strip(before + core + after) == core
  {
    var s := before + core + after;
    var i := |before|;
    var j := |before| + |core|;
    assert forall k :: 0 <= k < i ==> s[k] == before[k];
    assert forall k :: j <= k < |s| ==> s[k] == after[k - j];
    if core == [] {
      SkipSpacesReaches(s, 0, |s|);
      BackSpacesReaches(s, |s|, |s|, |s|);
    } else {
      assert s[i] == core[0] && s[j - 1] == core[|core| - 1];
      SkipSpacesReaches(s, 0, i);
      BackSpacesReaches(s, i, |s|, j);
      assert s[i..j] == core;
    }
  }

  /** Stripping an already stripped name changes nothing. */
  lemma StripIdempotent(s: string)
    ensures Strip(Strip(s)) == Strip(s)
  {
    var r := Strip(s);
    assert [] + r + [] == r;
    StripPadded([], r, []);
  }
}
