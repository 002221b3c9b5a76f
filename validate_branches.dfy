/**
 * The pre-flight checks of a submission (`validateBranchesToSubmit`): base
 * revisions, empty branches and merged or closed PRs, in that order.
 */
module ValidateBranches {

  import opened Wrappers
  import opened Errors
  import opened Engine
  import opened Seqs

  /** The answer to an abort-or-continue prompt. */
  datatype Choice = Abort | Continue

  // ---------------------------------------------------------------------------
  // Base revisions
  // ---------------------------------------------------------------------------

  /** What the base-revision rule says about one branch. */
  datatype Verdict =
    | Pass
    | BehindTrunk    // parent is trunk and the branch is not fixed: advisory only
    | NeedsRestack   // parent was validated earlier and the branch is not fixed
    | BaseMismatch   // parent is not part of the submission and its remote tip moved

  predicate IsFatal(v: Verdict) {
    v == NeedsRestack || v == BaseMismatch
  }

  /** The three-way rule for `branch`, given the branches validated before it. */
  function CheckBase(q: Queries, branch: string, validated: set<string>): Verdict {
    var parent := q.parentOf(branch);
    if q.isTrunk(parent) then
      if q.isFixed(branch) then Pass else BehindTrunk
    else if parent in validated then
      if q.isFixed(branch) then Pass else NeedsRestack
    else
      if q.matchesRemote(parent) then Pass else BaseMismatch
  }

  /** The names before position `i`. */
  function Earlier(names: seq<string>, i: nat): set<string>
    requires i <= |names|
  {
    set k | 0 <= k < i :: names[k]
  }

  /** The verdict on `names[i]` when every branch before it has been validated. */
  function VerdictAt(q: Queries, names: seq<string>, i: nat): Verdict
    requires i < |names|
  {
    CheckBase(q, names[i], Earlier(names, i))
  }

  function FailureOf(v: Verdict, branch: string): Failure
    requires IsFatal(v)
  {
    if v == NeedsRestack then ExitFailed(NotRestacked(branch)) else ExitFailed(ParentNotSubmitted(branch))
  }

  /** The first position at or after `i` whose verdict is fatal. */
  function FirstFatalFrom(q: Queries, names: seq<string>, i: nat): (r: Option<nat>)
    requires i <= |names|
    ensures r.Some? ==> i <= r.value < |names| && IsFatal(VerdictAt(q, names, r.value))
    ensures r.Some? ==> forall k :: i <= k < r.value ==> !IsFatal(VerdictAt(q, names, k))
    ensures r.None? ==> forall k :: i <= k < |names| ==> !IsFatal(VerdictAt(q, names, k))
    decreases |names| - i
  {
    if i == |names| then None
    else if IsFatal(VerdictAt(q, names, i)) then Some(i)
    else FirstFatalFrom(q, names, i + 1)
  }

  /** The outcome of the base-revision check: the first fatal verdict, if any, decides. */
  function BaseRevisions(q: Queries, names: seq<string>): (r: Outcome<()>)
    ensures !r.Killed?
    ensures r.Ok? <==> forall i :: 0 <= i < |names| ==> !IsFatal(VerdictAt(q, names, i))
    ensures r.Fatal? ==> exists i :: 0 <= i < |names| && IsFatal(VerdictAt(q, names, i)) &&
                          r.failure == FailureOf(VerdictAt(q, names, i), names[i])
  {
    match FirstFatalFrom(q, names, 0)
    case None => Ok(())
    case Some(i) => Fatal(FailureOf(VerdictAt(q, names, i), names[i]))
  }

  /** Where the check stops: at the first fatal branch, or after the last one. */
  function StopIndex(q: Queries, names: seq<string>): nat
  {
    match FirstFatalFrom(q, names, 0)
    case None => |names|
    case Some(i) => i
  }

  /** The branches among the first `n` that get the "fallen behind trunk" note, in order. */
  function AdvisoriesBelow(q: Queries, names: seq<string>, n: nat): (r: seq<string>)
    requires n <= |names|
    ensures forall k :: 0 <= k < |r| ==> q.isTrunk(q.parentOf(r[k])) && !q.isFixed(r[k])
    ensures forall k :: 0 <= k < n && q.isTrunk(q.parentOf(names[k])) && !q.isFixed(names[k]) ==> names[k] in r
  {
    if n == 0 then []
    else AdvisoriesBelow(q, names, n - 1) +
         (if VerdictAt(q, names, n - 1) == BehindTrunk then [names[n - 1]] else [])
  }

  /**
   * `validateBaseRevisions`: walks the branches in order, growing the set of
   * validated branches, and stops at the first branch the rule rejects.
   * `advisories` lists the branches reported as fallen behind trunk.
   */
  method ValidateBaseRevisions(q: Queries, names: seq<string>) returns (r: Outcome<()>, advisories: seq<string>)
    ensures r == BaseRevisions(q, names)
    ensures advisories == AdvisoriesBelow(q, names, StopIndex(q, names))
  {
    var validatedBranches: set<string> := {};
    advisories := [];
    for i := 0 to |names|
      invariant validatedBranches == Earlier(names, i)
      invariant forall k :: 0 <= k < i ==> !IsFatal(VerdictAt(q, names, k))
      invariant advisories == AdvisoriesBelow(q, names, i)
    {
      var branchName := names[i];
      var parentBranchName := q.parentOf(branchName);
      if q.isTrunk(parentBranchName) {
        if !q.isFixed(branchName) {
          advisories := advisories + [branchName];
        }
      } else if parentBranchName in validatedBranches {
        if !q.isFixed(branchName) {
          FirstFatalIs(q, names, i);
          return Fatal(ExitFailed(NotRestacked(branchName))), advisories;
        }
      } else {
        if !q.matchesRemote(parentBranchName) {
          FirstFatalIs(q, names, i);
          return Fatal(ExitFailed(ParentNotSubmitted(branchName))), advisories;
        }
      }
      assert Earlier(names, i + 1) == Earlier(names, i) + {branchName};
      validatedBranches := validatedBranches + {branchName};
    }
    return Ok(()), advisories;
  }

  /** A submission whose every branch sits on trunk always passes the base-revision check. */
  lemma TrunkChildrenPass(q: Queries, names: seq<string>)
    requires forall i :: 0 <= i < |names| ==> q.isTrunk(q.parentOf(names[i]))
    ensures BaseRevisions(q, names) == Ok(())
  {
    forall i | 0 <= i < |names| ensures !IsFatal(VerdictAt(q, names, i)) {
    }
  }

  /**
   * A branch whose parent is submitted before it fails the check with the
   * restack error exactly when it is not fixed, once the branches before it
   * have passed.
   */
  lemma SubmittedParentNeedsRestack(q: Queries, names: seq<string>, i: nat, p: nat)
    requires p < i < |names| && names[p] == q.parentOf(names[i]) && !q.isTrunk(names[p])
    requires forall k :: 0 <= k < i ==> !IsFatal(VerdictAt(q, names, k))
    ensures !q.isFixed(names[i]) ==> BaseRevisions(q, names) == Fatal(ExitFailed(NotRestacked(names[i])))
    ensures q.isFixed(names[i]) ==> !IsFatal(VerdictAt(q, names, i))
  {
    assert names[p] in Earlier(names, i);
    if !q.isFixed(names[i]) {
      assert FirstFatalFrom(q, names, 0) == Some(i) by {
        FirstFatalIs(q, names, i);
      }
    }
  }

  /**
   * A branch whose parent is neither trunk nor submitted before it fails the
   * check exactly when the parent's remote tip moved; whether the branch
   * itself is fixed does not matter.
   */
  lemma UnsubmittedParentMustMatchRemote(q: Queries, names: seq<string>, i: nat)
    requires i < |names| && !q.isTrunk(q.parentOf(names[i]))
    requires forall k :: 0 <= k < i ==> names[k] != q.parentOf(names[i])
    requires forall k :: 0 <= k < i ==> !IsFatal(VerdictAt(q, names, k))
    ensures !q.matchesRemote(q.parentOf(names[i])) ==>
              BaseRevisions(q, names) == Fatal(ExitFailed(ParentNotSubmitted(names[i])))
    ensures q.matchesRemote(q.parentOf(names[i])) ==> VerdictAt(q, names, i) == Pass
  {
    assert q.parentOf(names[i]) !in Earlier(names, i);
    if !q.matchesRemote(q.parentOf(names[i])) {
      FirstFatalIs(q, names, i);
    }
  }

  lemma FirstFatalIs(q: Queries, names: seq<string>, i: nat)
    requires i < |names| && IsFatal(VerdictAt(q, names, i))
    requires forall k :: 0 <= k < i ==> !IsFatal(VerdictAt(q, names, k))
    ensures FirstFatalFrom(q, names, 0) == Some(i)
  {
  }

  /**
   * Two stacked branches `[a, b]` with `b` on `a` and `a` accepted: the
   * submission fails with the restack error when `b` is not fixed, and passes
   * when it is.
   */
  lemma TwoBranchStack(q: Queries, a: string, b: string)
    requires a != b && q.parentOf(b) == a && !q.isTrunk(a)
    requires !IsFatal(CheckBase(q, a, {}))
    ensures q.isFixed(b) ==> BaseRevisions(q, [a, b]) == Ok(())
    ensures !q.isFixed(b) ==> BaseRevisions(q, [a, b]) == Fatal(ExitFailed(NotRestacked(b)))
  {
    var names := [a, b];
    assert Earlier(names, 0) == {};
    assert Earlier(names, 1) == Earlier(names, 0) + {names[0]};
    assert VerdictAt(q, names, 1) == if q.isFixed(b) then Pass else NeedsRestack;
    if !q.isFixed(b) {
      FirstFatalIs(q, names, 1);
    } else {
      assert forall i :: 0 <= i < 2 ==> !IsFatal(VerdictAt(q, names, i));
    }
  }

  // ---------------------------------------------------------------------------
  // Empty branches
  // ---------------------------------------------------------------------------

  /**
   * `validateNoEmptyBranches`: with empty branches, a non-interactive run
   * fails, and an interactive one is cancelled or continues as the user chooses.
   */
  function ValidateNoEmptyBranches(q: Queries, names: seq<string>, interactive: bool, choice: Choice): (r: Outcome<()>)
    ensures (forall i :: 0 <= i < |names| ==> !q.isEmpty(names[i])) ==> r == Ok(())
    ensures r.Fatal? <==> !interactive && exists i :: 0 <= i < |names| && q.isEmpty(names[i])
    ensures r.Killed? <==> interactive && choice == Abort && exists i :: 0 <= i < |names| && q.isEmpty(names[i])
    ensures r.Fatal? ==> r.failure == ExitFailed(NonInteractiveAbort)
  {
    var emptyBranches := Filter(names, q.isEmpty);
    FilterIs(names, q.isEmpty);
    if |emptyBranches| == 0 then Ok(())
    else if !interactive then Fatal(ExitFailed(NonInteractiveAbort))
    else if choice == Abort then Killed
    else Ok(())
  }

  // ---------------------------------------------------------------------------
  // Merged or closed PRs
  // ---------------------------------------------------------------------------

  /** `['MERGED', 'CLOSED'].includes(getPrInfo(b)?.state ?? '')`. */
  predicate IsMergedOrClosed(info: map<string, PrInfo>, branch: string) {
    var state := if branch in info && info[branch].state.Some? then info[branch].state.value else "";
    state == "MERGED" || state == "CLOSED"
  }

  /** The branches flagged by the merged/closed check, in submission order. */
  function MergedOrClosedBranches(info: map<string, PrInfo>, names: seq<string>): (r: seq<string>)
    ensures forall k :: 0 <= k < |r| ==> r[k] in names && r[k] in info && info[r[k]].state in {Some("MERGED"), Some("CLOSED")}
    ensures forall i :: 0 <= i < |names| && names[i] in info && info[names[i]].state in {Some("MERGED"), Some("CLOSED")} ==> names[i] in r
    ensures r == [] <==> forall i :: 0 <= i < |names| ==> !IsMergedOrClosed(info, names[i])
  {
    FilterIs(names, b => IsMergedOrClosed(info, b));
    Filter(names, b => IsMergedOrClosed(info, b))
  }

  /** The decision of `validateNoMergedOrClosedBranches`, before any PR info is cleared. */
  function MergedOrClosedDecision(info: map<string, PrInfo>, names: seq<string>, interactive: bool, choice: Choice): (r: Outcome<()>)
    ensures (forall i :: 0 <= i < |names| ==> !IsMergedOrClosed(info, names[i])) ==> r == Ok(())
    ensures r.Fatal? <==> !interactive && exists i :: 0 <= i < |names| && IsMergedOrClosed(info, names[i])
    ensures r.Killed? <==> interactive && choice == Abort && exists i :: 0 <= i < |names| && IsMergedOrClosed(info, names[i])
    ensures r.Fatal? ==> r.failure == ExitFailed(NonInteractiveAbort)
  {
    if |MergedOrClosedBranches(info, names)| == 0 then Ok(())
    else if !interactive then Fatal(ExitFailed(NonInteractiveAbort))
    else if choice == Abort then Killed
    else Ok(())
  }

  /**
   * `validateNoMergedOrClosedBranches`: when the user continues past flagged
   * branches, the PR info of every submitted branch is cleared, flagged or not.
   */
  method ValidateNoMergedOrClosedBranches(store: PrInfoStore, names: seq<string>, interactive: bool, choice: Choice)
    returns (r: Outcome<()>)
    modifies store
    ensures r == MergedOrClosedDecision(old(store.info), names, interactive, choice)
    ensures store.info == if r.Ok? && MergedOrClosedBranches(old(store.info), names) != []
                          then old(store.info) - Earlier(names, |names|)
                          else old(store.info)
  {
    var mergedOrClosedBranches := MergedOrClosedBranches(store.info, names);
    if |mergedOrClosedBranches| == 0 {
      return Ok(());
    }
    if !interactive {
      return Fatal(ExitFailed(NonInteractiveAbort));
    }
    if choice == Abort {
      return Killed;
    }
    for i := 0 to |names|
      invariant store.info == old(store.info) - Earlier(names, i)
    {
      assert Earlier(names, i + 1) == Earlier(names, i) + {names[i]};
      store.ClearPrInfo(names[i]);
    }
    return Ok(());
  }

  // ---------------------------------------------------------------------------
  // All checks
  // ---------------------------------------------------------------------------

  /**
   * The decision of `validateBranchesToSubmit`: base revisions, then empty
   * branches, then merged/closed PRs; the first check that does not pass
   * decides, and on success the branch list comes back unchanged.
   */
  function ValidationOf(q: Queries, info: map<string, PrInfo>, names: seq<string>, interactive: bool,
                        emptyChoice: Choice, mergedChoice: Choice): (r: Outcome<seq<string>>)
    ensures r.Ok? <==> BaseRevisions(q, names).Ok? && ValidateNoEmptyBranches(q, names, interactive, emptyChoice).Ok? &&
                       MergedOrClosedDecision(info, names, interactive, mergedChoice).Ok?
    ensures r.Ok? ==> r.value == names
    ensures !BaseRevisions(q, names).Ok? ==> r == BaseRevisions(q, names).PropagateFailure()
    ensures BaseRevisions(q, names).Ok? && !ValidateNoEmptyBranches(q, names, interactive, emptyChoice).Ok? ==>
              r == ValidateNoEmptyBranches(q, names, interactive, emptyChoice).PropagateFailure()
    ensures BaseRevisions(q, names).Ok? && ValidateNoEmptyBranches(q, names, interactive, emptyChoice).Ok? &&
            !MergedOrClosedDecision(info, names, interactive, mergedChoice).Ok? ==>
              r == MergedOrClosedDecision(info, names, interactive, mergedChoice).PropagateFailure()
    ensures !interactive ==> !r.Killed?
  {
    var base := BaseRevisions(q, names);
    var empty := ValidateNoEmptyBranches(q, names, interactive, emptyChoice);
    var mc := MergedOrClosedDecision(info, names, interactive, mergedChoice);
    if !base.Ok? then base.PropagateFailure()
    else if !empty.Ok? then empty.PropagateFailure()
    else if !mc.Ok? then mc.PropagateFailure()
    else Ok(names)
  }

  /**
   * The PR-info cache after validation: cleared for every submitted branch
   * when, and only when, the user chose to continue past merged/closed PRs.
   */
  function StoreAfterValidation(q: Queries, info: map<string, PrInfo>, names: seq<string>, interactive: bool,
                                emptyChoice: Choice, mergedChoice: Choice): (r: map<string, PrInfo>)
    ensures r == info || r == info - Earlier(names, |names|)
    ensures r != info ==> ValidationOf(q, info, names, interactive, emptyChoice, mergedChoice).Ok? &&
                          MergedOrClosedBranches(info, names) != []
  {
    if BaseRevisions(q, names).Ok? && ValidateNoEmptyBranches(q, names, interactive, emptyChoice).Ok? &&
       MergedOrClosedDecision(info, names, interactive, mergedChoice).Ok? && MergedOrClosedBranches(info, names) != []
    then info - Earlier(names, |names|)
    else info
  }

  /** `validateBranchesToSubmit`: runs the three checks in order. */
  method ValidateBranchesToSubmit(store: PrInfoStore, q: Queries, names: seq<string>, interactive: bool,
                                  emptyChoice: Choice, mergedChoice: Choice)
    returns (r: Outcome<seq<string>>)
    modifies store
    ensures r == ValidationOf(q, old(store.info), names, interactive, emptyChoice, mergedChoice)
    ensures store.info == StoreAfterValidation(q, old(store.info), names, interactive, emptyChoice, mergedChoice)
  {
    var base, _ := ValidateBaseRevisions(q, names);
    if !base.Ok? {
      return base.PropagateFailure();
    }
    var empty := ValidateNoEmptyBranches(q, names, interactive, emptyChoice);
    if !empty.Ok? {
      return empty.PropagateFailure();
    }
    var mc := ValidateNoMergedOrClosedBranches(store, names, interactive, mergedChoice);
    if !mc.Ok? {
      return mc.PropagateFailure();
    }
    return Ok(names);
  }
}
