/**
 * Character classes and scanning helpers over JavaScript strings, taken as
 * sequences of characters.
 */
module Strings {

  import opened Wrappers

  /** The regular-expression class `\d`: ASCII digits only. */
  predicate IsDigit(c: char) {
    '0' <= c <= '9'
  }

  /**
   * The regular-expression class `\s`, which is also the set of characters
   * `String.prototype.trim` removes: ECMAScript WhiteSpace (tab, vertical tab,
   * form feed, the byte order mark and every space separator) and
   * LineTerminator (line feed, carriage return, U+2028, U+2029).
   */
  predicate IsSpace(c: char) {
    var n := c as int;
    n == 0x09 || n == 0x0A || n == 0x0B || n == 0x0C || n == 0x0D || n == 0x20 ||
    n == 0xA0 || n == 0x1680 || (0x2000 <= n <= 0x200A) || n == 0x2028 ||
    n == 0x2029 || n == 0x202F || n == 0x205F || n == 0x3000 || n == 0xFEFF
  }

  predicate AllDigits(t: string) {
    forall k :: 0 <= k < |t| ==> IsDigit(t[k])
  }

  /** Every character of `s[i..j]` is white space. */
  predicate SpacesBetween(s: string, i: nat, j: nat)
    requires i <= j <= |s|
  {
    forall k :: i <= k < j ==> IsSpace(s[k])
  }

  /** The end of the run of digits that starts at `i` (greedy `\d*`). */
  function DigitsEnd(s: string, i: nat): (e: nat)
    requires i <= |s|
    ensures i <= e <= |s|
    ensures forall k :: i <= k < e ==> IsDigit(s[k])
    ensures e == |s| || !IsDigit(s[e])
    decreases |s| - i
  {
    if i < |s| && IsDigit(s[i]) then DigitsEnd(s, i + 1) else i
  }

  /** The end of the run of white space that starts at `i` (greedy `\s*`). */
  function SpacesEnd(s: string, i: nat): (e: nat)
    requires i <= |s|
    ensures i <= e <= |s| && SpacesBetween(s, i, e)
    ensures e == |s| || !IsSpace(s[e])
    decreases |s| - i
  {
    if i < |s| && IsSpace(s[i]) then SpacesEnd(s, i + 1) else i
  }

  /** The start of the run of white space that ends at `j`. */
  function SpacesStart(s: string, j: nat): (b: nat)
    requires j <= |s|
    ensures b <= j && SpacesBetween(s, b, j)
    ensures b == 0 || !IsSpace(s[b - 1])
  {
    if 0 < j && IsSpace(s[j - 1]) then SpacesStart(s, j - 1) else j
  }

  /** No run of white space starting at `i` reaches beyond `SpacesEnd(s, i)`. */
  lemma SpacesEndIsLongest(s: string, i: nat, j: nat)
    requires i <= j <= |s| && SpacesBetween(s, i, j)
    ensures j <= SpacesEnd(s, i)
  {
  }

  /** A later start never ends its run of white space earlier. */
  lemma SpacesEndMonotone(s: string, i: nat, j: nat)
    requires i <= j <= |s|
    ensures SpacesEnd(s, i) <= SpacesEnd(s, j)
  {
    var e := SpacesEnd(s, i);
    if j <= e {
      assert SpacesBetween(s, j, e);
      SpacesEndIsLongest(s, j, e);
    }
  }

  /** `pat` occurs in `s` at position `i`. */
  predicate OccursAt(s: string, pat: string, i: nat) {
    i + |pat| <= |s| && s[i..i + |pat|] == pat
  }

  /** The first occurrence of `pat` at or after `from` (`indexOf`). */
  function IndexOf(s: string, pat: string, from: nat): (r: Option<nat>)
    ensures r.Some? ==> from <= r.value && OccursAt(s, pat, r.value)
    ensures r.Some? ==> forall k :: from <= k < r.value ==> !OccursAt(s, pat, k)
    ensures r.None? ==> forall k :: from <= k ==> !OccursAt(s, pat, k)
    decreases |s| - from
  {
    if from + |pat| > |s| then None
    else if s[from..from + |pat|] == pat then Some(from)
    else IndexOf(s, pat, from + 1)
  }

  /** The last occurrence of `pat` in the window `[from, hi)` of start positions. */
  function LastIndexBelow(s: string, pat: string, from: nat, hi: nat): (r: Option<nat>)
    ensures r.Some? ==> from <= r.value < hi && OccursAt(s, pat, r.value)
    ensures r.Some? ==> forall k :: r.value < k < hi ==> !OccursAt(s, pat, k)
    ensures r.None? ==> forall k :: from <= k < hi ==> !OccursAt(s, pat, k)
    decreases hi
  {
    if hi <= from then None
    else if OccursAt(s, pat, hi - 1) then Some(hi - 1)
    else LastIndexBelow(s, pat, from, hi - 1)
  }

  /** The last occurrence of `pat` at or after `from`. */
  function LastIndexOf(s: string, pat: string, from: nat): (r: Option<nat>)
    ensures r.Some? ==> from <= r.value && OccursAt(s, pat, r.value)
    ensures r.Some? ==> forall k :: r.value < k ==> !OccursAt(s, pat, k)
    ensures r.None? ==> forall k :: from <= k ==> !OccursAt(s, pat, k)
  {
    LastIndexBelow(s, pat, from, |s| + 1)
  }

  /** `String.prototype.includes`. */
  predicate Contains(s: string, sub: string) {
    IndexOf(s, sub, 0).Some?
  }

  lemma ContainsIff(s: string, sub: string)
    ensures Contains(s, sub) <==> exists k :: OccursAt(s, sub, k)
  {
    if !Contains(s, sub) {
      assert forall k: nat :: !OccursAt(s, sub, k);
    }
  }

  /** `String.prototype.trim`: drops the white space at both ends. */
  function Trim(s: string): (r: string)
    ensures exists a, b :: 0 <= a <= b <= |s| && r == s[a..b] && SpacesBetween(s, 0, a) && SpacesBetween(s, b, |s|)
    ensures r == [] || (!IsSpace(r[0]) && !IsSpace(r[|r| - 1]))
  {
    var a := SpacesEnd(s, 0);
    var b := SpacesStart(s, |s|);
    if b <= a then
      assert SpacesBetween(s, a, |s|);
      s[a..a]
    else
      s[a..b]
  }

  /** Trimming a string that neither starts nor ends with white space changes nothing. */
  lemma TrimUntrimmed(s: string)
    requires s == [] || (!IsSpace(s[0]) && !IsSpace(s[|s| - 1]))
    ensures Trim(s) == s
  {
    if s != [] {
      assert SpacesEnd(s, 0) == 0;
      assert SpacesStart(s, |s|) == |s|;
    }
  }
}
