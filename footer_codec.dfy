/**
 * The dependency-stack footer of a pull-request body: reading the published
 * stack back out of a body (`getExistingPrStack`) and splicing a freshly
 * rendered footer into a body (`updatePrBodyFooter`).
 */
module FooterCodec {

  import opened Wrappers
  import opened Strings

  // ---------------------------------------------------------------------------
  // Entries: the regular expression /\d+\.\s#\d+/g
  // ---------------------------------------------------------------------------

  /** `t` is `d` digits, '.', one white-space character, '#' and at least one digit. */
  predicate EntrySplit(t: string, d: nat) {
    0 < d && d + 3 < |t| && AllDigits(t[..d]) && t[d] == '.' &&
    IsSpace(t[d + 1]) && t[d + 2] == '#' && AllDigits(t[d + 3..])
  }

  /** `t` is one footer entry: digits, '.', one white-space character, '#', digits. */
  predicate IsEntry(t: string) {
    exists d: nat | 0 < d < |t| :: EntrySplit(t, d)
  }

  /**
   * The end of the match of the entry pattern that starts exactly at `i`, if
   * there is one. Both digit runs are greedy; the first cannot give digits
   * back, because a '.' must follow it.
   */
  function EntryEndAt(s: string, i: nat): (r: Option<nat>)
    requires i <= |s|
    ensures r.Some? ==> i < r.value <= |s|
  {
    var d := DigitsEnd(s, i);
    if i < d && d + 3 <= |s| && s[d] == '.' && IsSpace(s[d + 1]) && s[d + 2] == '#' then
      var e := DigitsEnd(s, d + 3);
      if d + 3 < e then Some(e) else None
    else None
  }

  /** What `EntryEndAt` finds is an entry, and the digit run it ends is not followed by a digit. */
  lemma EntryEndAtIs(s: string, i: nat)
    requires i <= |s|
    ensures var r := EntryEndAt(s, i);
            r.Some? ==> IsEntry(s[i..r.value]) && (r.value == |s| || !IsDigit(s[r.value]))
  {
    var d := DigitsEnd(s, i);
    if i < d && d + 3 <= |s| && s[d] == '.' && IsSpace(s[d + 1]) && s[d + 2] == '#' {
      var e := DigitsEnd(s, d + 3);
      if d + 3 < e {
        var t := s[i..e];
        assert t[..d - i] == s[i..d] && t[d - i + 3..] == s[d + 3..e];
        assert t[d - i] == '.' && IsSpace(t[d - i + 1]) && t[d - i + 2] == '#';
        assert EntrySplit(t, d - i);
      }
    }
  }

  /**
   * Every substring of `s` starting at `i` that has the entry shape is covered
   * by the match `EntryEndAt` finds there: the matcher misses no match and takes
   * the longest one.
   */
  lemma EntryEndAtIsLongest(s: string, i: nat, j: nat)
    requires i < j <= |s| && IsEntry(s[i..j])
    ensures EntryEndAt(s, i).Some? && j <= EntryEndAt(s, i).value
  {
    var t := s[i..j];
    var d: nat :| EntrySplit(t, d);
    assert EntrySplit(t, d);
    assert |t| == j - i;
    assert d + 3 < |t|;
    DigitsIn(s, i, j, 0, d);
    DigitsIn(s, i, j, d + 3, |t|);
    assert s[i + d] == t[d] && s[i + d + 1] == t[d + 1] && s[i + d + 2] == t[d + 2];
    DigitsEndReaches(s, i, i + d);
    var d1 := DigitsEnd(s, i);
    assert d1 == i + d;
    DigitsEndReaches(s, d1 + 3, j);
  }

  /** A digit run of a slice `s[i..j]` is a digit run of `s`. */
  lemma DigitsIn(s: string, i: nat, j: nat, lo: nat, hi: nat)
    requires i <= j <= |s| && lo <= hi <= j - i && AllDigits(s[i..j][lo..hi])
    ensures forall k :: i + lo <= k < i + hi ==> IsDigit(s[k])
  {
    forall k | i + lo <= k < i + hi ensures IsDigit(s[k]) {
      assert s[k] == s[i..j][lo..hi][k - i - lo];
    }
  }

  /** A run of digits from `i` to `j` is followed by the end of the greedy run no earlier than `j`. */
  lemma DigitsEndReaches(s: string, i: nat, j: nat)
    requires i <= j <= |s| && forall k :: i <= k < j ==> IsDigit(s[k])
    ensures j <= DigitsEnd(s, i)
  {
  }

  // ---------------------------------------------------------------------------
  // Scanning a body left to right for all non-overlapping matches
  // ---------------------------------------------------------------------------

  /**
   * A sticky matcher on a text of length `n`: at each position it reports
   * the end of the match that starts there, if any; matches are not empty.
   */
  ghost predicate StickyMatcher(n: nat, m: nat --> Option<nat>) {
    forall i: nat :: i <= n ==> m.requires(i) && (m(i).Some? ==> i < m(i).value <= n)
  }

  /**
   * The spans `[start, end)` a global regular-expression search reports from
   * position `i`: at each position the search tries a match; after a match it
   * resumes at the match's end.
   */
  function Scan(n: nat, m: nat --> Option<nat>, i: nat): seq<(nat, nat)>
    requires StickyMatcher(n, m) && i <= n
    decreases n - i
  {
    if i == n then []
    else match m(i)
      case Some(e) => [(i, e)] + Scan(n, m, e)
      case None => Scan(n, m, i + 1)
  }

  /**
   * Each reported span lies in the text from `i` on and is the match found at
   * its start, and the spans follow one another without overlapping.
   */
  lemma {:induction false} ScanSpans(n: nat, m: nat --> Option<nat>, i: nat)
    requires StickyMatcher(n, m) && i <= n
    ensures forall k :: 0 <= k < |Scan(n, m, i)| ==>
              && i <= Scan(n, m, i)[k].0 < Scan(n, m, i)[k].1 <= n
              && m(Scan(n, m, i)[k].0) == Some(Scan(n, m, i)[k].1)
    ensures forall k :: 0 < k < |Scan(n, m, i)| ==> Scan(n, m, i)[k - 1].1 <= Scan(n, m, i)[k].0
    decreases n - i
  {
    if i < n {
      match m(i)
      case Some(e) =>
        ScanSpans(n, m, e);
        var rest := Scan(n, m, e);
        var spans := [(i, e)] + rest;
        assert Scan(n, m, i) == spans;
        forall k | 0 < k < |spans| ensures spans[k] == rest[k - 1] && e <= spans[k].0 {
        }
      case None =>
        ScanSpans(n, m, i + 1);
        var spans := Scan(n, m, i + 1);
        assert Scan(n, m, i) == spans;
        forall k | 0 <= k < |spans| ensures i <= spans[k].0 {
        }
    }
  }

  /**
   * The search misses nothing: every position from `i` on at which a match
   * starts is the start of a reported span or lies inside one.
   */
  lemma {:induction false} ScanCovers(n: nat, m: nat --> Option<nat>, i: nat, p: nat) returns (k: nat)
    requires StickyMatcher(n, m) && i <= p < n && m(p).Some?
    ensures k < |Scan(n, m, i)| && Scan(n, m, i)[k].0 <= p < Scan(n, m, i)[k].1
    decreases n - i
  {
    var spans := Scan(n, m, i);
    match m(i)
    case Some(e) =>
      var rest := Scan(n, m, e);
      assert spans == [(i, e)] + rest;
      if e <= p {
        var j := ScanCovers(n, m, e, p);
        assert spans[j + 1] == rest[j];
        k := j + 1;
      } else {
        k := 0;
      }
    case None =>
      assert spans == Scan(n, m, i + 1);
      k := ScanCovers(n, m, i + 1, p);
  }

  /** The entry pattern as a sticky matcher on `s`. */
  function EntryMatcher(s: string): nat --> Option<nat> {
    (i: nat) requires i <= |s| => EntryEndAt(s, i)
  }

  lemma EntryMatcherIsSticky(s: string)
    ensures StickyMatcher(|s|, EntryMatcher(s))
  {
  }

  /** The spans of all matches of the entry pattern in `s` (`body.match(/\d+\.\s#\d+/g)`). */
  function Matches(s: string): seq<(nat, nat)> {
    EntryMatcherIsSticky(s);
    Scan(|s|, EntryMatcher(s), 0)
  }

  /** The matched text of each span. */
  function Substrings(s: string, spans: seq<(nat, nat)>): (r: seq<string>)
    requires forall k :: 0 <= k < |spans| ==> spans[k].0 <= spans[k].1 <= |s|
    ensures |r| == |spans|
    ensures forall k :: 0 <= k < |spans| ==> r[k] == s[spans[k].0..spans[k].1]
  {
    seq(|spans|, k requires 0 <= k < |spans| => s[spans[k].0..spans[k].1])
  }

  /** No match reported from 0 means no substring of `s` has the entry shape. */
  lemma NoMatchesNoEntries(s: string)
    requires Matches(s) == []
    ensures forall i, j :: 0 <= i < j <= |s| ==> !IsEntry(s[i..j])
  {
    forall i, j | 0 <= i < j <= |s| && IsEntry(s[i..j]) ensures false {
      EntryEndAtIsLongest(s, i, j);
      EntryMatcherIsSticky(s);
      var k := ScanCovers(|s|, EntryMatcher(s), 0, i);
    }
  }

  /** The text of every match of the entry pattern in `s`, left to right. */
  function MatchedEntries(s: string): (r: seq<string>)
    ensures |r| == |Matches(s)|
    ensures forall k :: 0 <= k < |r| ==> IsEntry(r[k])
  {
    MatchesAreEntries(s);
    Substrings(s, Matches(s))
  }

  /** Every reported span lies in `s` and its text has the entry shape. */
  lemma MatchesAreEntries(s: string)
    ensures forall k :: 0 <= k < |Matches(s)| ==>
              && Matches(s)[k].0 <= Matches(s)[k].1 <= |s|
              && IsEntry(s[Matches(s)[k].0..Matches(s)[k].1])
  {
    EntryMatcherIsSticky(s);
    ScanSpans(|s|, EntryMatcher(s), 0);
    var spans := Matches(s);
    forall k | 0 <= k < |spans| ensures IsEntry(s[spans[k].0..spans[k].1]) {
      EntryEndAtIs(s, spans[k].0);
    }
  }

  /**
   * `getExistingPrStack`: every entry of the body, in order, or `None` for an
   * absent or empty body and for a body without entries.
   */
  function GetExistingPrStack(body: Option<string>): (r: Option<seq<string>>)
    ensures r.Some? <==> body.Some? && body.value != "" && MatchedEntries(body.value) != []
    ensures r.Some? ==> r.value == MatchedEntries(body.value)
    ensures r.Some? ==> forall k :: 0 <= k < |r.value| ==> IsEntry(r.value[k])
    ensures body.Some? && r.None? ==>
              forall i, j :: 0 <= i < j <= |body.value| ==> !IsEntry(body.value[i..j])
  {
    if body.None? || body.value == "" then None
    else
      var entries := MatchedEntries(body.value);
      if entries == [] then
        NoMatchesNoEntries(body.value);
        None
      else
        Some(entries)
  }

  // ---------------------------------------------------------------------------
  // The footer block: /\s*TITLE\s*[\s\S]*\s*FOOTER\s*/
  // ---------------------------------------------------------------------------

  /**
   * A footer marker as it enters the pattern: non-empty, and trimmed (the
   * source calls `trim()` on both markers before building the pattern).
   */
  predicate Marker(m: string) {
    |m| > 0 && !IsSpace(m[0]) && !IsSpace(m[|m| - 1])
  }

  /** `s[a..b]` is matched by `\s*TITLE\s*[\s\S]*\s*FOOTER\s*`. */
  predicate RegionMatch(s: string, title: string, footer: string, a: nat, b: nat) {
    a <= b <= |s| &&
    exists t: nat, f: nat :: a <= t && t + |title| <= f && f + |footer| <= b &&
      OccursAt(s, title, t) && OccursAt(s, footer, f) &&
      SpacesBetween(s, a, t) && SpacesBetween(s, f + |footer|, b)
  }

  /**
   * The match a non-global `RegExp` reports: the leftmost start, and at that
   * start (the quantifiers being greedy) the longest match.
   */
  ghost predicate FirstRegion(s: string, title: string, footer: string, a: nat, b: nat) {
    && RegionMatch(s, title, footer, a, b)
    && (forall a': nat, b': nat :: RegionMatch(s, title, footer, a', b') ==> a <= a')
    && (forall b': nat :: RegionMatch(s, title, footer, a, b') ==> b' <= b)
  }

  lemma MarkerEnds(s: string, m: string, i: nat)
    requires Marker(m) && OccursAt(s, m, i)
    ensures !IsSpace(s[i]) && !IsSpace(s[i + |m| - 1])
  {
    assert s[i] == s[i..i + |m|][0];
    assert s[i + |m| - 1] == s[i..i + |m|][|m| - 1];
  }

  /**
   * Where the footer block is: from the white space before the first title
   * through the white space after the last footer marker that follows it.
   */
  function FooterRegion(s: string, title: string, footer: string): (r: Option<(nat, nat)>)
    requires Marker(title) && Marker(footer)
    ensures r.Some? ==> r.value.0 <= r.value.1 <= |s|
  {
    match IndexOf(s, title, 0)
    case None => None
    case Some(t) =>
      var w := SpacesEnd(s, t + |title|);
      match LastIndexOf(s, footer, w)
      case None => None
      case Some(f) => Some((SpacesStart(s, t), SpacesEnd(s, f + |footer|)))
  }

  /** What `FooterRegion` finds is itself a match of the pattern. */
  lemma FooterRegionMatches(s: string, title: string, footer: string)
    requires Marker(title) && Marker(footer) && FooterRegion(s, title, footer).Some?
    ensures RegionMatch(s, title, footer, FooterRegion(s, title, footer).value.0,
                        FooterRegion(s, title, footer).value.1)
  {
    var t := IndexOf(s, title, 0).value;
    var w := SpacesEnd(s, t + |title|);
    var f := LastIndexOf(s, footer, w).value;
    var a, b := SpacesStart(s, t), SpacesEnd(s, f + |footer|);
    assert a <= t && t + |title| <= f && f + |footer| <= b &&
      OccursAt(s, title, t) && OccursAt(s, footer, f) &&
      SpacesBetween(s, a, t) && SpacesBetween(s, f + |footer|, b);
  }

  /**
   * Any match of the pattern starts no earlier and ends no later than the
   * region `FooterRegion` finds; in particular `FooterRegion` finds one.
   */
  lemma FooterRegionIsExtremal(s: string, title: string, footer: string, a': nat, b': nat)
    requires Marker(title) && Marker(footer) && RegionMatch(s, title, footer, a', b')
    ensures FooterRegion(s, title, footer).Some?
    ensures FooterRegion(s, title, footer).value.0 <= a' && b' <= FooterRegion(s, title, footer).value.1
  {
    var t', f' :| a' <= t' && t' + |title| <= f' && f' + |footer| <= b' &&
      OccursAt(s, title, t') && OccursAt(s, footer, f') &&
      SpacesBetween(s, a', t') && SpacesBetween(s, f' + |footer|, b');
    FooterRegionEndsAfter(s, title, footer, t', f', b');
    FooterRegionStartsBefore(s, title, footer, a', t');
  }

  /** A title followed by a footer marker and white space ends no later than the region. */
  lemma FooterRegionEndsAfter(s: string, title: string, footer: string, t': nat, f': nat, b': nat)
    requires Marker(title) && Marker(footer)
    requires t' + |title| <= f' && f' + |footer| <= b' <= |s|
    requires OccursAt(s, title, t') && OccursAt(s, footer, f') && SpacesBetween(s, f' + |footer|, b')
    ensures FooterRegion(s, title, footer).Some? && b' <= FooterRegion(s, title, footer).value.1
  {
    var t := IndexOf(s, title, 0).value;
    assert t <= t';
    var w := SpacesEnd(s, t + |title|);
    MarkerEnds(s, footer, f');
    assert w <= f';
    var f := LastIndexOf(s, footer, w).value;
    assert f' <= f;
    SpacesEndIsLongest(s, f' + |footer|, b');
    SpacesEndMonotone(s, f' + |footer|, f + |footer|);
  }

  /** White space before a title starts no earlier than the region. */
  lemma FooterRegionStartsBefore(s: string, title: string, footer: string, a': nat, t': nat)
    requires Marker(title) && Marker(footer) && FooterRegion(s, title, footer).Some?
    requires a' <= t' && OccursAt(s, title, t') && SpacesBetween(s, a', t')
    ensures FooterRegion(s, title, footer).value.0 <= a'
  {
    var t := IndexOf(s, title, 0).value;
    assert t <= t';
    MarkerEnds(s, title, t);
    assert SpacesStart(s, t) <= a';
  }

  /** `FooterRegion` is exactly the match the regular expression reports. */
  lemma FooterRegionIsFirstMatch(s: string, title: string, footer: string)
    requires Marker(title) && Marker(footer)
    ensures FooterRegion(s, title, footer).Some? ==>
              FirstRegion(s, title, footer, FooterRegion(s, title, footer).value.0,
                          FooterRegion(s, title, footer).value.1)
    ensures FooterRegion(s, title, footer).None? ==>
              forall a: nat, b: nat :: !RegionMatch(s, title, footer, a, b)
  {
    if FooterRegion(s, title, footer).Some? {
      FooterRegionMatches(s, title, footer);
    }
    forall a: nat, b: nat | RegionMatch(s, title, footer, a, b)
      ensures FooterRegion(s, title, footer).Some?
      ensures FooterRegion(s, title, footer).value.0 <= a && b <= FooterRegion(s, title, footer).value.1
    {
      FooterRegionIsExtremal(s, title, footer, a, b);
    }
  }

  /** The leftmost-longest match is unique. */
  lemma FirstRegionUnique(s: string, title: string, footer: string, a: nat, b: nat, a': nat, b': nat)
    requires FirstRegion(s, title, footer, a, b) && FirstRegion(s, title, footer, a', b')
    ensures a == a' && b == b'
  {
  }

  // ---------------------------------------------------------------------------
  // Splicing
  // ---------------------------------------------------------------------------

  /**
   * The replacement text of `String.prototype.replace` for a template `rep`:
   * `$$` is '$', `$&` the match, `` $` `` the text before it, `$'` the text
   * after it; the pattern has no capture groups, so every other '$' is literal.
   */
  function Substitute(rep: string, matched: string, before: string, after: string): string
    decreases |rep|
  {
    if |rep| == 0 then ""
    else if rep[0] == '$' && |rep| >= 2 && rep[1] in "$&`'" then
      var piece := if rep[1] == '$' then "$" else if rep[1] == '&' then matched
                   else if rep[1] == '`' then before else after;
      piece + Substitute(rep[2..], matched, before, after)
    else [rep[0]] + Substitute(rep[1..], matched, before, after)
  }

  /** A replacement without '$' is inserted verbatim. */
  lemma {:induction false} SubstitutePlain(rep: string, matched: string, before: string, after: string)
    requires '$' !in rep
    ensures Substitute(rep, matched, before, after) == rep
  {
    if |rep| > 0 {
      assert rep[0] != '$';
      assert '$' !in rep[1..];
      SubstitutePlain(rep[1..], matched, before, after);
    }
  }

  /** `s` with the match `s[a..b]` replaced by the template `rep`, as `String.prototype.replace` does. */
  function ReplaceSpan(s: string, rep: string, a: nat, b: nat): string
    requires a <= b <= |s|
  {
    s[..a] + Substitute(rep, s[a..b], s[..a], s[b..]) + s[b..]
  }

  /**
   * `updatePrBodyFooter`: an absent or empty body becomes the footer; a body
   * without a footer block gets the footer appended; otherwise the first
   * footer block is replaced and the text around it is kept.
   */
  function UpdatePrBodyFooter(body: Option<string>, footer: string, title: string, footerMarker: string): (r: string)
    requires Marker(title) && Marker(footerMarker)
    ensures body.None? || body == Some("") ==> r == footer
    ensures body.Some? && body.value != "" && (forall a: nat, b: nat :: !RegionMatch(body.value, title, footerMarker, a, b)) ==>
              r == body.value + footer
    ensures body.Some? && body.value != "" ==>
              forall a: nat, b: nat :: FirstRegion(body.value, title, footerMarker, a, b) ==>
                r == ReplaceSpan(body.value, footer, a, b)
  {
    if body.None? || body.value == "" then footer
    else
      var s := body.value;
      FooterRegionIsFirstMatch(s, title, footerMarker);
      match FooterRegion(s, title, footerMarker)
      case None => s + footer
      case Some((a, b)) =>
        assert forall a': nat, b': nat :: FirstRegion(s, title, footerMarker, a', b') ==> a' == a && b' == b;
        ReplaceSpan(s, footer, a, b)
  }

  /**
   * With a footer free of '$', the body outside the footer block is kept
   * unchanged: the text before the block is a prefix and the text after it a
   * suffix of the result, and the footer sits between them.
   */
  lemma UpdateKeepsSurroundings(s: string, footer: string, title: string, footerMarker: string)
    requires Marker(title) && Marker(footerMarker) && s != [] && '$' !in footer
    ensures FooterRegion(s, title, footerMarker).None? ==>
              UpdatePrBodyFooter(Some(s), footer, title, footerMarker) == s + footer
    ensures FooterRegion(s, title, footerMarker).Some? ==>
              var (a, b) := FooterRegion(s, title, footerMarker).value;
              UpdatePrBodyFooter(Some(s), footer, title, footerMarker) == s[..a] + footer + s[b..]
  {
    FooterRegionIsFirstMatch(s, title, footerMarker);
    if FooterRegion(s, title, footerMarker).Some? {
      var (a, b) := FooterRegion(s, title, footerMarker).value;
      SubstitutePlain(footer, s[a..b], s[..a], s[b..]);
    }
  }
}
