/**
 * Recovery of the merged downstack (`getCommonMergedDownstackAsync`): the
 * part of a previously published stack whose branches were merged and then
 * deleted locally, found by asking the code host about the entries the local
 * stack no longer has.
 */
module MergedDownstack {

  import opened Wrappers
  import opened Strings
  import opened Errors
  import opened Engine
  import opened FooterCodec

  /**
   * The PR id put into `gh pr view <id> --json state`:
   * `entry.split('#')[1]?.trim()`, the trimmed text between the first and the
   * second '#', and the text "undefined" when the entry has no '#'.
   */
  function QueryArgument(entry: string): string {
    match IndexOf(entry, "#", 0)
    case None => "undefined"
    case Some(h) =>
      var rest := entry[h + 1..];
      var piece := match IndexOf(rest, "#", 0) case None => rest case Some(h2) => rest[..h2];
      Trim(piece)
  }

  /** For an entry read from a footer, the query asks for exactly the digits after '#'. */
  lemma QueryArgumentOfEntry(entry: string, d: nat)
    requires EntrySplit(entry, d)
    ensures QueryArgument(entry) == entry[d + 3..]
    ensures |QueryArgument(entry)| > 0 && AllDigits(QueryArgument(entry))
  {
    assert forall k :: 0 <= k < d ==> entry[k] == entry[..d][k];
    assert forall k :: 0 <= k < d + 2 ==> !OccursAt(entry, "#", k) by {
      forall k | 0 <= k < d + 2 ensures !OccursAt(entry, "#", k) {
        assert entry[k..k + 1][0] == entry[k];
      }
    }
    assert OccursAt(entry, "#", d + 2);
    var rest := entry[d + 3..];
    assert forall k :: 0 <= k < |rest| ==> !OccursAt(rest, "#", k) by {
      forall k | 0 <= k < |rest| ensures !OccursAt(rest, "#", k) {
        assert rest[k..k + 1][0] == rest[k];
      }
    }
    assert IndexOf(rest, "#", 0).None?;
    TrimUntrimmed(rest);
    assert QueryArgument(entry) == rest;
  }

  /** Entry `idx` of the published stack is gone locally and its PR reports MERGED. */
  predicate MergedAndGone(existing: seq<string>, local: seq<string>, prState: string -> string, idx: nat)
    requires idx < |existing|
  {
    existing[idx] !in local && prState(QueryArgument(existing[idx])) == "MERGED"
  }

  /** The highest index below `hi` whose entry is gone locally and merged. */
  function LastMergedBelow(existing: seq<string>, local: seq<string>, prState: string -> string, hi: nat): Option<nat>
    requires hi <= |existing|
  {
    if hi == 0 then None
    else if MergedAndGone(existing, local, prState, hi - 1) then Some(hi - 1)
    else LastMergedBelow(existing, local, prState, hi - 1)
  }

  /**
   * The scan finds an index below `hi` that is gone and merged with nothing
   * gone and merged above it, or reports that there is none below `hi`.
   */
  lemma {:induction false} LastMergedBelowSpec(existing: seq<string>, local: seq<string>, prState: string -> string, hi: nat)
    requires hi <= |existing|
    ensures var r := LastMergedBelow(existing, local, prState, hi);
            && (r.Some? ==> r.value < hi && MergedAndGone(existing, local, prState, r.value))
            && (r.Some? ==> forall j :: r.value < j < hi ==> !MergedAndGone(existing, local, prState, j))
            && (r.None? ==> forall j :: 0 <= j < hi ==> !MergedAndGone(existing, local, prState, j))
  {
    if hi > 0 && !MergedAndGone(existing, local, prState, hi - 1) {
      LastMergedBelowSpec(existing, local, prState, hi - 1);
    }
  }

  /** The scan's answer is the one index that is merged and has nothing merged above it. */
  lemma {:induction false} LastMergedBelowIs(existing: seq<string>, local: seq<string>, prState: string -> string, idx: nat, hi: nat)
    requires idx < hi <= |existing| && MergedAndGone(existing, local, prState, idx)
    requires forall j :: idx < j < hi ==> !MergedAndGone(existing, local, prState, j)
    ensures LastMergedBelow(existing, local, prState, hi) == Some(idx)
    decreases hi
  {
    if hi - 1 != idx {
      assert !MergedAndGone(existing, local, prState, hi - 1);
      LastMergedBelowIs(existing, local, prState, idx, hi - 1);
    }
  }

  /**
   * The merged downstack: nothing without a published stack or when it equals
   * the local one; otherwise the published stack up to and including its last
   * entry that is gone locally and merged, and nothing if there is none.
   */
  function MergedDownstackOf(existing: Option<seq<string>>, local: seq<string>, prState: string -> string): (r: seq<string>)
    ensures existing.None? || existing == Some(local) ==> r == []
    ensures r != [] ==>
              && existing.Some? && existing.value != local
              && |r| <= |existing.value| && r == existing.value[..|r|]
              && MergedAndGone(existing.value, local, prState, |r| - 1)
              && forall j :: |r| <= j < |existing.value| ==> !MergedAndGone(existing.value, local, prState, j)
    ensures r == [] && existing.Some? && existing.value != local ==>
              forall j :: 0 <= j < |existing.value| ==> !MergedAndGone(existing.value, local, prState, j)
  {
    if existing.None? || existing.value == local then []
    else
      LastMergedBelowSpec(existing.value, local, prState, |existing.value|);
      match LastMergedBelow(existing.value, local, prState, |existing.value|)
      case None => []
      case Some(idx) => existing.value[..idx + 1]
  }

  /**
   * The indices in `[lo, hi)` whose entries are missing from the local stack,
   * from the highest down: the PRs the backward scan asks the code host about.
   */
  function AbsentDescending(existing: seq<string>, local: seq<string>, lo: nat, hi: nat): seq<nat>
    requires hi <= |existing|
    decreases hi - lo
  {
    if hi <= lo then []
    else AbsentDescending(existing, local, lo + 1, hi) + (if existing[lo] !in local then [lo] else [])
  }

  /**
   * The queried indices are exactly those in `[lo, hi)` whose entries are
   * missing locally, each asked once, from the highest down.
   */
  lemma {:induction false} AbsentDescendingIs(existing: seq<string>, local: seq<string>, lo: nat, hi: nat)
    requires hi <= |existing|
    ensures var r := AbsentDescending(existing, local, lo, hi);
            && (forall k :: 0 <= k < |r| ==> lo <= r[k] < hi && existing[r[k]] !in local)
            && (forall k :: 0 < k < |r| ==> r[k] < r[k - 1])
            && (forall j :: lo <= j < hi && existing[j] !in local ==> j in r)
    decreases hi - lo
  {
    if lo < hi {
      AbsentDescendingIs(existing, local, lo + 1, hi);
    }
  }

  /**
   * The published stack "1. #10", "2. #11", "3. #12" seen from a local stack
   * that only holds "1. #12": the scan asks for PR 12 (open), then PR 11
   * (merged), and recovers the first two entries.
   */
  lemma RecoverAfterDeletedBranches(prState: string -> string)
    requires prState("11") == "MERGED" && prState("12") != "MERGED"
    ensures MergedDownstackOf(Some(["1. #10", "2. #11", "3. #12"]), ["1. #12"], prState) == ["1. #10", "2. #11"]
  {
    ExampleEntriesGone();
    ExampleIds();
    ThreeEntryScan("1. #10", "2. #11", "3. #12", "1. #12", prState);
  }

  /**
   * Three published entries and a one-entry local stack: with the upper two
   * gone locally, the middle one merged and the top one not, the first two
   * entries are recovered.
   */
  lemma ThreeEntryScan(e0: string, e1: string, e2: string, l: string, prState: string -> string)
    requires e1 != l && e2 != l
    requires prState(QueryArgument(e1)) == "MERGED" && prState(QueryArgument(e2)) != "MERGED"
    ensures MergedDownstackOf(Some([e0, e1, e2]), [l], prState) == [e0, e1]
  {
    var existing, local := [e0, e1, e2], [l];
    assert LastMergedBelow(existing, local, prState, 3) == Some(1);
    assert existing != local by {
      assert |existing| != |local|;
    }
    assert existing[..2] == [e0, e1];
  }

  /** The upper two example entries differ from the local one. */
  lemma ExampleEntriesGone()
    ensures "2. #11" != "1. #12" && "3. #12" != "1. #12"
  {
    assert "2. #11"[0] != "1. #12"[0] && "3. #12"[0] != "1. #12"[0];
  }

  /** The PR ids asked for the entries "2. #11" and "3. #12". */
  lemma ExampleIds()
    ensures QueryArgument("2. #11") == "11" && QueryArgument("3. #12") == "12"
  {
    assert EntrySplit("2. #11", 1) && EntrySplit("3. #12", 1) by {
      assert "2. #11"[..1] == "2" && "2. #11"[4..] == "11";
      assert "3. #12"[..1] == "3" && "3. #12"[4..] == "12";
    }
    QueryArgumentOfEntry("2. #11", 1);
    QueryArgumentOfEntry("3. #12", 1);
  }

  /** The downstack's boundary: where the backward scan stopped. */
  function ScanStop(merged: seq<string>): nat {
    if merged == [] then 0 else |merged| - 1
  }

  /**
   * The backward scan over the published stack. `queried` lists, in the order
   * asked, the indices whose PR state the code host was asked for: only
   * entries missing from the local stack, from the last entry down to the
   * merged one (or to the first entry when none is merged).
   */
  method RecoverMergedDownstack(local: seq<string>, existing: Option<seq<string>>, prState: string -> string)
    returns (merged: seq<string>, queried: seq<nat>)
    ensures merged == MergedDownstackOf(existing, local, prState)
    ensures existing.None? || existing == Some(local) ==> queried == []
    ensures existing.Some? && existing.value != local ==>
              queried == AbsentDescending(existing.value, local, ScanStop(merged), |existing.value|)
  {
    queried := [];
    if existing.None? || existing.value == local {
      return [], queried;
    }
    var stack := existing.value;
    var nodesInLocalStack := set x | x in local;
    var idx: int := |stack| - 1;
    while idx >= 0
      invariant -1 <= idx < |stack|
      invariant LastMergedBelow(stack, local, prState, |stack|) == LastMergedBelow(stack, local, prState, idx + 1)
      invariant queried == AbsentDescending(stack, local, idx + 1, |stack|)
    {
      var node := stack[idx];
      if node in nodesInLocalStack {
        ScanSkips(stack, local, prState, idx);
        idx := idx - 1;
        continue;
      }
      assert stack[idx] !in local;
      queried := queried + [idx];
      assert queried == AbsentDescending(stack, local, idx, |stack|);
      if prState(QueryArgument(node)) == "MERGED" {
        ScanStopsAt(existing, local, prState, idx);
        merged := stack[..idx + 1];
        assert ScanStop(merged) == idx;
        return merged, queried;
      }
      ScanSkips(stack, local, prState, idx);
      idx := idx - 1;
    }
    ScanFindsNothing(existing, local, prState);
    return [], queried;
  }

  /** An entry that is not both gone and merged does not change the scan's answer. */
  lemma ScanSkips(existing: seq<string>, local: seq<string>, prState: string -> string, idx: nat)
    requires idx < |existing| && !MergedAndGone(existing, local, prState, idx)
    ensures LastMergedBelow(existing, local, prState, idx + 1) == LastMergedBelow(existing, local, prState, idx)
  {
  }

  /** The scan stops at the first entry from the top that is gone and merged. */
  lemma ScanStopsAt(existing: Option<seq<string>>, local: seq<string>, prState: string -> string, idx: nat)
    requires existing.Some? && existing.value != local && idx < |existing.value|
    requires MergedAndGone(existing.value, local, prState, idx)
    requires LastMergedBelow(existing.value, local, prState, |existing.value|)
             == LastMergedBelow(existing.value, local, prState, idx + 1)
    ensures MergedDownstackOf(existing, local, prState) == existing.value[..idx + 1]
  {
  }

  /** A scan that reaches the bottom recovers nothing. */
  lemma ScanFindsNothing(existing: Option<seq<string>>, local: seq<string>, prState: string -> string)
    requires existing.Some? && existing.value != local
    requires LastMergedBelow(existing.value, local, prState, |existing.value|)
             == LastMergedBelow(existing.value, local, prState, 0)
    ensures MergedDownstackOf(existing, local, prState) == []
  {
  }

  /**
   * `getCommonMergedDownstackAsync`: the merged downstack seen from the first
   * branch of the submission, whose local stack is `localStackOf(branch)` and
   * whose published stack is read from its PR body. An empty branch list
   * fails the source's `assert`.
   */
  method GetCommonMergedDownstack(branchNames: seq<string>, localStackOf: string -> seq<string>,
                                  prInfo: map<string, PrInfo>, prState: string -> string)
    returns (r: Outcome<seq<string>>)
    ensures branchNames == [] ==> r == Fatal(AssertionFailed)
    ensures branchNames != [] ==>
              r == Ok(MergedDownstackOf(GetExistingPrStack(BodyOf(prInfo, branchNames[0])),
                                        localStackOf(branchNames[0]), prState))
  {
    if branchNames == [] {
      return Fatal(AssertionFailed);
    }
    var localStack := localStackOf(branchNames[0]);
    var existingStack := GetExistingPrStack(BodyOf(prInfo, branchNames[0]));
    var merged, _ := RecoverMergedDownstack(localStack, existingStack, prState);
    return Ok(merged);
  }
}
