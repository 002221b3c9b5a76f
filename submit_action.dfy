/**
 * `submitAction`: checks the flags, picks and validates the branches,
 * decides whether to go on, pushes each submission and opens or updates its
 * PR, then rewrites the stack footer of every PR body that is out of date.
 *
 * Everything the command does to the outside world is recorded as a trace of
 * actions; the git push, the PR submission, the PR-state lookup and the
 * footer renderer are inputs.
 */
module SubmitAction {

  import opened Wrappers
  import opened Strings
  import opened Errors
  import opened Engine
  import opened Seqs
  import opened FooterCodec
  import opened MergedDownstack
  import opened ValidateBranches

  /** The command-line flags the action branches on. */
  datatype Flags = Flags(draft: bool, publish: bool, dryRun: bool, confirm: bool, select: bool)

  /** What the user is, or would be, asked; `interactive` says whether a terminal is attached. */
  datatype Prompts = Prompts(
    interactive: bool,
    selected: string -> bool,  // "Would you like to submit <branch>?"
    emptyChoice: Choice,       // the empty-branches prompt
    mergedChoice: Choice,      // the merged/closed-PRs prompt
    confirmed: bool)           // "Continue with this submit operation?"

  /** The remote side of a submission. */
  datatype Remote = Remote(
    submissionsOf: seq<string> -> seq<string>,  // getPRInfoForBranches: the heads that get pushed
    push: string -> Option<Failure>,            // pushBranch; Some(e) when it throws e
    submitPr: string -> Option<Failure>,        // submitPullRequest for one head
    prState: string -> string)                  // `gh pr view <n> --json state`

  /** One externally visible effect. */
  datatype Action = Push(head: string) | SubmitPr(head: string) | EditBody(number: nat, body: string)

  // ---------------------------------------------------------------------------
  // Preconditions and the abort decision
  // ---------------------------------------------------------------------------

  /** `--draft` and `--publish` exclude each other; this is checked before anything else. */
  function CheckFlags(draft: bool, publish: bool): (r: Outcome<()>)
    ensures r.Ok? <==> !(draft && publish)
    ensures !r.Ok? ==> r == Fatal(ExitFailed(DraftAndPublish))
  {
    if draft && publish then Fatal(ExitFailed(DraftAndPublish)) else Ok(())
  }

  /**
   * `shouldAbort`: `Ok(true)` stops the command quietly (dry run, or nothing
   * to submit), `Killed` is the user declining the confirmation, `Ok(false)`
   * goes on.
   */
  function ShouldAbort(dryRun: bool, confirm: bool, hasAnyPrs: bool, interactive: bool, confirmed: bool): (r: Outcome<bool>)
    ensures !r.Fatal?
    ensures r == Ok(true) <==> dryRun || !hasAnyPrs
    ensures r.Killed? <==> !dryRun && hasAnyPrs && interactive && confirm && !confirmed
    ensures r == Ok(false) <==> !dryRun && hasAnyPrs && (!interactive || !confirm || confirmed)
  {
    if dryRun then Ok(true)
    else if !hasAnyPrs then Ok(true)
    else if interactive && confirm && !confirmed then Killed
    else Ok(false)
  }

  /**
   * The push error handler: a git failure whose message mentions "stale info"
   * (a refused force-with-lease) becomes the "externally modified" exit
   * error for that head; every other error is rethrown as it is.
   */
  function ClassifyPushError(err: Failure, head: string): (r: Failure)
    ensures err.CommandFailed? && (exists k :: OccursAt(err.message, "stale info", k)) ==>
              r == ExitFailed(ExternallyModified(head))
    ensures !(err.CommandFailed? && exists k :: OccursAt(err.message, "stale info", k)) ==> r == err
  {
    if err.CommandFailed? then
      ContainsIff(err.message, "stale info");
      if Contains(err.message, "stale info") then ExitFailed(ExternallyModified(head)) else err
    else err
  }

  // ---------------------------------------------------------------------------
  // Choosing the branches
  // ---------------------------------------------------------------------------

  /** `selectBranches`: the branches the user answers yes for, in order. */
  method SelectBranches(branchNames: seq<string>, selected: string -> bool) returns (result: seq<string>)
    ensures result == Filter(branchNames, selected)
  {
    result := [];
    for i := 0 to |branchNames|
      invariant result == Filter(branchNames[..i], selected)
    {
      FilterSnoc(branchNames[..i], branchNames[i], selected);
      assert branchNames[..i + 1] == branchNames[..i] + [branchNames[i]];
      if selected(branchNames[i]) {
        result := result + [branchNames[i]];
      }
    }
    assert branchNames[..|branchNames|] == branchNames;
  }

  /** The relative stack without trunk, narrowed to the selected branches under `--select`. */
  function BranchesToSubmit(flags: Flags, prompts: Prompts, q: Queries, stack: seq<string>): (r: seq<string>)
    ensures forall k :: 0 <= k < |r| ==> r[k] in stack && !q.isTrunk(r[k])
    ensures flags.select ==> forall k :: 0 <= k < |r| ==> prompts.selected(r[k])
    ensures forall i :: 0 <= i < |stack| && !q.isTrunk(stack[i]) && (flags.select ==> prompts.selected(stack[i])) ==>
              stack[i] in r
    ensures exists idx :: Picks(stack, r, idx) &&
              forall i :: 0 <= i < |stack| && !q.isTrunk(stack[i]) && (flags.select ==> prompts.selected(stack[i])) ==>
                i in idx
  {
    var keep := b => !q.isTrunk(b);
    SelectionIs(stack, keep, prompts.selected, flags.select);
    var all := Filter(stack, keep);
    if flags.select then Filter(all, prompts.selected) else all
  }

  /**
   * Filtering by `keep`, then under `select` by `selected`, takes the
   * positions of `stack` whose branch passes both, in order.
   */
  lemma SelectionIs(stack: seq<string>, keep: string -> bool, selected: string -> bool, select: bool)
    ensures var r := if select then Filter(Filter(stack, keep), selected) else Filter(stack, keep);
            && (forall k :: 0 <= k < |r| ==> r[k] in stack && keep(r[k]))
            && (select ==> forall k :: 0 <= k < |r| ==> selected(r[k]))
            && (forall i :: 0 <= i < |stack| && keep(stack[i]) && (select ==> selected(stack[i])) ==> stack[i] in r)
            && exists idx :: Picks(stack, r, idx) &&
                 forall i :: 0 <= i < |stack| && keep(stack[i]) && (select ==> selected(stack[i])) ==> i in idx
  {
    var all := Filter(stack, keep);
    FilterIs(stack, keep);
    if select {
      FilterIs(all, selected);
      FilterTwicePicks(stack, keep, selected);
    }
  }

  // ---------------------------------------------------------------------------
  // Pushing and submitting
  // ---------------------------------------------------------------------------

  /** The trace of heads that were pushed and each got its PR. */
  function Deliveries(heads: seq<string>): (r: seq<Action>)
    ensures |r| == 2 * |heads|
    ensures forall n :: 0 <= n < |r| ==> !r[n].EditBody?
  {
    if heads == [] then [] else [Push(heads[0]), SubmitPr(heads[0])] + Deliveries(heads[1..])
  }

  predicate Delivered(push: string -> Option<Failure>, submitPr: string -> Option<Failure>, head: string) {
    push(head).None? && submitPr(head).None?
  }

  /** The first head at or after `i` whose push or PR submission fails, or `|heads|`. */
  function FirstUndelivered(heads: seq<string>, push: string -> Option<Failure>, submitPr: string -> Option<Failure>,
                            i: nat): (k: nat)
    requires i <= |heads|
    ensures i <= k <= |heads|
    ensures forall j :: i <= j < k ==> Delivered(push, submitPr, heads[j])
    ensures k < |heads| ==> !Delivered(push, submitPr, heads[k])
    decreases |heads| - i
  {
    if i == |heads| then i
    else if !Delivered(push, submitPr, heads[i]) then i
    else FirstUndelivered(heads, push, submitPr, i + 1)
  }

  datatype PushResult = PushResult(outcome: Outcome<()>, actions: seq<Action>)

  /**
   * The submission loop from head `i` on: each head is pushed, then gets its
   * PR; the first failure stops the loop, with a push failure classified.
   */
  function PushFrom(heads: seq<string>, push: string -> Option<Failure>, submitPr: string -> Option<Failure>,
                    i: nat): PushResult
    requires i <= |heads|
    decreases |heads| - i
  {
    if i == |heads| then PushResult(Ok(()), [])
    else
      var head := heads[i];
      match push(head)
      case Some(e) => PushResult(Fatal(ClassifyPushError(e, head)), [])
      case None =>
        match submitPr(head)
        case Some(e) => PushResult(Fatal(e), [Push(head)])
        case None =>
          var rest := PushFrom(heads, push, submitPr, i + 1);
          PushResult(rest.outcome, [Push(head), SubmitPr(head)] + rest.actions)
  }

  /**
   * The loop succeeds exactly when every head is pushed and submitted, and
   * then has done both for every head in order; otherwise it stops at the
   * first head that fails, after pushing and submitting every head before it
   * and, when only the PR submission failed, pushing that head too.
   */
  lemma {:induction false} PushFromIs(heads: seq<string>, push: string -> Option<Failure>,
                                      submitPr: string -> Option<Failure>, i: nat)
    requires i <= |heads|
    ensures var r, k := PushFrom(heads, push, submitPr, i), FirstUndelivered(heads, push, submitPr, i);
            && (r.outcome.Ok? <==> k == |heads|)
            && (k == |heads| ==> r.actions == Deliveries(heads[i..]))
            && (k < |heads| && push(heads[k]).Some? ==>
                  r.outcome == Fatal(ClassifyPushError(push(heads[k]).value, heads[k])) &&
                  r.actions == Deliveries(heads[i..k]))
            && (k < |heads| && push(heads[k]).None? ==>
                  r.outcome == Fatal(submitPr(heads[k]).value) &&
                  r.actions == Deliveries(heads[i..k]) + [Push(heads[k])])
    decreases |heads| - i
  {
    if i < |heads| && Delivered(push, submitPr, heads[i]) {
      PushFromIs(heads, push, submitPr, i + 1);
      var k := FirstUndelivered(heads, push, submitPr, i + 1);
      assert heads[i..k][1..] == heads[i + 1..k];
      assert heads[i..][1..] == heads[i + 1..];
    }
  }

  /** Pushing never cancels the command and never edits a PR body. */
  lemma PushFromNeverKilled(heads: seq<string>, push: string -> Option<Failure>, submitPr: string -> Option<Failure>)
    ensures !PushFrom(heads, push, submitPr, 0).outcome.Killed?
    ensures forall n :: 0 <= n < |PushFrom(heads, push, submitPr, 0).actions| ==>
              !PushFrom(heads, push, submitPr, 0).actions[n].EditBody?
  {
    PushFromIs(heads, push, submitPr, 0);
    var k := FirstUndelivered(heads, push, submitPr, 0);
    if k < |heads| && push(heads[k]).None? {
      var d := Deliveries(heads[0..k]);
      assert forall n :: 0 <= n < |d| + 1 ==> (d + [Push(heads[k])])[n] == if n < |d| then d[n] else Push(heads[k]);
    }
  }

  /** The `for (const submissionInfo of submissionInfos)` loop. */
  method PushAll(heads: seq<string>, push: string -> Option<Failure>, submitPr: string -> Option<Failure>)
    returns (r: Outcome<()>, actions: seq<Action>)
    ensures PushResult(r, actions) == PushFrom(heads, push, submitPr, 0)
  {
    actions := [];
    for i := 0 to |heads|
      invariant PushFrom(heads, push, submitPr, 0) ==
                PushResult(PushFrom(heads, push, submitPr, i).outcome, actions + PushFrom(heads, push, submitPr, i).actions)
    {
      var head := heads[i];
      var pushError := push(head);
      if pushError.Some? {
        return Fatal(ClassifyPushError(pushError.value, head)), actions;
      }
      actions := actions + [Push(head)];
      var submitError := submitPr(head);
      if submitError.Some? {
        return Fatal(submitError.value), actions;
      }
      actions := actions + [SubmitPr(head)];
    }
    return Ok(()), actions;
  }

  // ---------------------------------------------------------------------------
  // Footer reconciliation
  // ---------------------------------------------------------------------------

  /** What the footer step reads: PR info after submission, the local stacks, the footer renderer. */
  datatype FooterEnv = FooterEnv(
    info: map<string, PrInfo>,                           // getPrInfo, after the PRs were submitted
    localStackOf: string -> seq<string>,                 // generateLocalPrStack
    createFooter: (Option<seq<string>>, nat) -> string,  // createPrBodyFooter
    title: string,                                       // the footer title, trimmed
    footerMarker: string)                                // the footer's closing line, trimmed

  predicate ValidMarkers(env: FooterEnv) {
    Marker(env.title) && Marker(env.footerMarker)
  }

  /** Merged downstack plus local stack; a stack of a single PR is not published (`null`). */
  function StackToSubmit(merged: seq<string>, local: seq<string>): (r: Option<seq<string>>)
    ensures r.None? <==> |merged| + |local| == 1
    ensures r.Some? ==> r.value == merged + local
  {
    if |merged + local| == 1 then None else Some(merged + local)
  }

  function TargetStack(env: FooterEnv, merged: seq<string>, branch: string): Option<seq<string>> {
    StackToSubmit(merged, env.localStackOf(branch))
  }

  /**
   * `hasPrFooterChanged`: the stack read from the PR body differs from the
   * one to publish (the source compares JSON serializations, which are equal
   * exactly when the values are).
   */
  predicate FooterChanged(env: FooterEnv, merged: seq<string>, branch: string)
    requires branch in env.info
  {
    GetExistingPrStack(env.info[branch].body) != TargetStack(env, merged, branch)
  }

  /** The `gh pr edit <number> --body <new body>` issued for a changed branch. */
  function EditFor(env: FooterEnv, merged: seq<string>, branch: string): Action
    requires ValidMarkers(env) && branch in env.info
  {
    var prInfo := env.info[branch];
    var footer := env.createFooter(TargetStack(env, merged, branch), prInfo.number);
    EditBody(prInfo.number, UpdatePrBodyFooter(prInfo.body, footer, env.title, env.footerMarker))
  }

  /** The "<branch>: <url> (updated|no-op)" line. */
  datatype Report = Report(branch: string, url: string, updated: bool)

  function ReportFor(env: FooterEnv, merged: seq<string>, branch: string): Report
    requires branch in env.info
  {
    Report(branch, env.info[branch].url, FooterChanged(env, merged, branch))
  }

  /** `hasPrFooterChanged` as a predicate on branches. */
  function Changed(env: FooterEnv, merged: seq<string>): string --> bool {
    branch requires branch in env.info => FooterChanged(env, merged, branch)
  }

  /** The edit for a branch, as a function on branches. */
  function Editor(env: FooterEnv, merged: seq<string>): string --> Action {
    branch requires ValidMarkers(env) && branch in env.info => EditFor(env, merged, branch)
  }

  /** The report line of a branch, as a function on branches. */
  function Reporter(env: FooterEnv, merged: seq<string>): string --> Report {
    branch requires branch in env.info => ReportFor(env, merged, branch)
  }

  /** The report lines for `names`, one per branch, in order. */
  function FooterReports(env: FooterEnv, merged: seq<string>, names: seq<string>): seq<Report>
    requires forall k :: 0 <= k < |names| ==> names[k] in env.info
  {
    Map(names, Reporter(env, merged))
  }

  /** The body edits for `names`, in order: one per branch whose footer changed. */
  function FooterEdits(env: FooterEnv, merged: seq<string>, names: seq<string>): seq<Action>
    requires ValidMarkers(env)
    requires forall k :: 0 <= k < |names| ==> names[k] in env.info
  {
    FilterMap(names, Changed(env, merged), Editor(env, merged))
  }

  /**
   * Every edit is the one for a branch whose footer changed, every such
   * branch gets its edit, and nothing is edited exactly when no footer changed.
   */
  lemma FooterEditsAre(env: FooterEnv, merged: seq<string>, names: seq<string>)
    requires ValidMarkers(env)
    requires forall k :: 0 <= k < |names| ==> names[k] in env.info
    ensures var r := FooterEdits(env, merged, names);
            && (forall n :: 0 <= n < |r| ==>
                  r[n].EditBody? &&
                  exists k :: 0 <= k < |names| && FooterChanged(env, merged, names[k]) && r[n] == EditFor(env, merged, names[k]))
            && (forall k :: 0 <= k < |names| && FooterChanged(env, merged, names[k]) ==> EditFor(env, merged, names[k]) in r)
            && (r == [] <==> forall k :: 0 <= k < |names| ==> !FooterChanged(env, merged, names[k]))
  {
    var r := FooterEdits(env, merged, names);
    var p, f := Changed(env, merged), Editor(env, merged);
    forall n | 0 <= n < |r|
      ensures r[n].EditBody? &&
              exists k :: 0 <= k < |names| && FooterChanged(env, merged, names[k]) && r[n] == EditFor(env, merged, names[k])
    {
      FilterMapOnly(names, p, f, n);
      var k :| 0 <= k < |names| && p(names[k]) && r[n] == f(names[k]);
      assert FooterChanged(env, merged, names[k]) && r[n] == EditFor(env, merged, names[k]);
    }
    forall k | 0 <= k < |names| && FooterChanged(env, merged, names[k])
      ensures EditFor(env, merged, names[k]) in r
    {
      FilterMapEvery(names, p, f, k);
    }
    FilterMapEmpty(names, p, f);
  }

  /** The first branch at or after `i` with no PR info, or `|names|`. */
  function FirstMissing(info: map<string, PrInfo>, names: seq<string>, i: nat): (k: nat)
    requires i <= |names|
    ensures i <= k <= |names|
    ensures forall j :: i <= j < k ==> names[j] in info
    ensures k < |names| ==> names[k] !in info
    decreases |names| - i
  {
    if i == |names| then i
    else if names[i] !in info then i
    else FirstMissing(info, names, i + 1)
  }

  datatype FooterResult = FooterResult(outcome: Outcome<()>, edits: seq<Action>, reports: seq<Report>)

  /**
   * The footer loop: branches are visited in order, and a branch without PR
   * info stops the loop with an error after the edits of the branches before
   * it have been made.
   */
  function FooterRun(env: FooterEnv, merged: seq<string>, names: seq<string>): FooterResult
    requires ValidMarkers(env)
  {
    var stop := FirstMissing(env.info, names, 0);
    FooterResult(if stop < |names| then Fatal(MissingPrInfo(names[stop])) else Ok(()),
                 FooterEdits(env, merged, names[..stop]),
                 FooterReports(env, merged, names[..stop]))
  }

  /**
   * The footer loop succeeds exactly when every branch has PR info; otherwise
   * it fails on the first branch without, having edited and reported the
   * branches before it, one report per branch, "updated" exactly when its
   * footer changed.
   */
  lemma FooterRunIs(env: FooterEnv, merged: seq<string>, names: seq<string>)
    requires ValidMarkers(env)
    ensures var r, stop := FooterRun(env, merged, names), FirstMissing(env.info, names, 0);
            && (r.outcome.Ok? <==> forall k :: 0 <= k < |names| ==> names[k] in env.info)
            && (!r.outcome.Ok? ==> r.outcome == Fatal(MissingPrInfo(names[stop])) && names[stop] !in env.info)
            && r.edits == FooterEdits(env, merged, names[..stop])
            && (forall n :: 0 <= n < |r.edits| ==> r.edits[n].EditBody?)
            && |r.reports| == stop
            && (forall k :: 0 <= k < stop ==>
                  r.reports[k].branch == names[k] && r.reports[k].updated == FooterChanged(env, merged, names[k]))
  {
    var stop := FirstMissing(env.info, names, 0);
    assert forall k :: 0 <= k < stop ==> names[..stop][k] == names[k];
    FooterEditsAre(env, merged, names[..stop]);
    MapIs(names[..stop], Reporter(env, merged));
  }

  /**
   * One more branch with PR info appends its report, and its edit when its
   * footer changed.
   */
  lemma FooterLoopStep(env: FooterEnv, merged: seq<string>, names: seq<string>, i: nat)
    requires ValidMarkers(env) && i < |names|
    requires forall k :: 0 <= k <= i ==> names[k] in env.info
    ensures forall k :: 0 <= k < i ==> names[..i][k] in env.info
    ensures FooterEdits(env, merged, names[..i + 1]) ==
            FooterEdits(env, merged, names[..i]) +
            (if FooterChanged(env, merged, names[i]) then [EditFor(env, merged, names[i])] else [])
    ensures FooterReports(env, merged, names[..i + 1]) ==
            FooterReports(env, merged, names[..i]) + [ReportFor(env, merged, names[i])]
  {
    var s := names[..i + 1];
    assert s[..|s| - 1] == names[..i];
    assert forall k :: 0 <= k < i + 1 ==> s[k] == names[k];
  }

  /**
   * When every branch has PR info and its footer is already current, the
   * loop succeeds, edits nothing and reports every branch as "no-op".
   */
  lemma FootersInSyncEditNothing(env: FooterEnv, merged: seq<string>, names: seq<string>)
    requires ValidMarkers(env)
    requires forall k :: 0 <= k < |names| ==> names[k] in env.info && !FooterChanged(env, merged, names[k])
    ensures var r := FooterRun(env, merged, names);
            && r.outcome.Ok? && r.edits == [] && |r.reports| == |names|
            && forall n :: 0 <= n < |names| ==> r.reports[n].branch == names[n] && !r.reports[n].updated
  {
    FooterRunIs(env, merged, names);
    assert FirstMissing(env.info, names, 0) == |names|;
    assert names[..|names|] == names;
    FilterMapEmpty(names, Changed(env, merged), Editor(env, merged));
  }

  /** One iteration of the footer loop, for a branch that has PR info. */
  method ReconcileBranch(env: FooterEnv, merged: seq<string>, branch: string)
    returns (edit: Option<Action>, report: Report)
    requires ValidMarkers(env) && branch in env.info
    ensures edit == if FooterChanged(env, merged, branch) then Some(EditFor(env, merged, branch)) else None
    ensures report == ReportFor(env, merged, branch)
  {
    var prInfo := env.info[branch];
    var prStackToSubmit := StackToSubmit(merged, env.localStackOf(branch));
    var existingStack := GetExistingPrStack(prInfo.body);
    var hasPrFooterChanged := existingStack != prStackToSubmit;
    edit := None;
    if hasPrFooterChanged {
      var newPrFooter := env.createFooter(prStackToSubmit, prInfo.number);
      edit := Some(EditBody(prInfo.number, UpdatePrBodyFooter(prInfo.body, newPrFooter, env.title, env.footerMarker)));
    }
    report := Report(branch, prInfo.url, hasPrFooterChanged);
  }

  /** The `for (const branch of branchNames)` loop of the footer step. */
  method UpdateStackFooters(env: FooterEnv, merged: seq<string>, branchNames: seq<string>)
    returns (r: Outcome<()>, edits: seq<Action>, reports: seq<Report>)
    requires ValidMarkers(env)
    ensures FooterResult(r, edits, reports) == FooterRun(env, merged, branchNames)
  {
    edits, reports := [], [];
    var i := 0;
    while i < |branchNames|
      invariant i <= |branchNames|
      invariant FirstMissing(env.info, branchNames, 0) == FirstMissing(env.info, branchNames, i)
      invariant forall k :: 0 <= k < i ==> branchNames[k] in env.info
      invariant forall k :: 0 <= k < i ==> branchNames[..i][k] in env.info
      invariant edits == FooterEdits(env, merged, branchNames[..i])
      invariant reports == FooterReports(env, merged, branchNames[..i])
    {
      var branch := branchNames[i];
      if branch !in env.info {
        return Fatal(MissingPrInfo(branch)), edits, reports;
      }
      var edit, report := ReconcileBranch(env, merged, branch);
      FooterLoopStep(env, merged, branchNames, i);
      if edit.Some? {
        edits := edits + [edit.value];
      }
      reports := reports + [report];
      i := i + 1;
    }
    assert branchNames[..i] == branchNames;
    return Ok(()), edits, reports;
  }

  // ---------------------------------------------------------------------------
  // The whole action
  // ---------------------------------------------------------------------------

  /** The merged downstack the footers are prefixed with, recovered from the first branch's PR. */
  function CommonMergedDownstack(env: FooterEnv, names: seq<string>, prState: string -> string): seq<string>
    requires names != []
  {
    MergedDownstackOf(GetExistingPrStack(BodyOf(env.info, names[0])), env.localStackOf(names[0]), prState)
  }

  /**
   * A lone branch whose PR body yields no footer entries and whose stack to
   * publish is the branch alone: nothing is edited and it reports "no-op".
   */
  lemma LoneBranchWithoutFooterIsNoOp(env: FooterEnv, merged: seq<string>, branch: string)
    requires ValidMarkers(env) && branch in env.info
    requires |merged| + |env.localStackOf(branch)| == 1
    requires GetExistingPrStack(env.info[branch].body).None?
    ensures FooterRun(env, merged, [branch]) == FooterResult(Ok(()), [], [Report(branch, env.info[branch].url, false)])
  {
    assert !FooterChanged(env, merged, branch);
    FootersInSyncEditNothing(env, merged, [branch]);
  }

  /** The footer step: the `assert` on a non-empty branch list, then the footer loop. */
  function FooterStep(env: FooterEnv, names: seq<string>, prState: string -> string): (r: FooterResult)
    requires ValidMarkers(env)
    ensures names == [] ==> r == FooterResult(Fatal(AssertionFailed), [], [])
    ensures !r.outcome.Killed?
    ensures forall n :: 0 <= n < |r.edits| ==> r.edits[n].EditBody?
  {
    if names == [] then FooterResult(Fatal(AssertionFailed), [], [])
    else
      FooterRunIs(env, CommonMergedDownstack(env, names, prState), names);
      FooterRun(env, CommonMergedDownstack(env, names, prState), names)
  }

  datatype SubmitResult = SubmitResult(outcome: Outcome<()>, actions: seq<Action>, reports: seq<Report>)

  /**
   * Everything after validation: the abort decision, the submission loop and
   * the footer step. Nothing happens on a dry run, the command is cancelled
   * only at a terminal, and PR bodies are edited only after every head has
   * been pushed and submitted.
   */
  function AfterValidation(flags: Flags, prompts: Prompts, names: seq<string>, remote: Remote, env: FooterEnv): (r: SubmitResult)
    requires ValidMarkers(env)
    ensures flags.dryRun ==> r.actions == [] && r.reports == []
    ensures !prompts.interactive ==> !r.outcome.Killed?
    ensures forall m, n :: 0 <= m < n < |r.actions| && r.actions[m].EditBody? ==> r.actions[n].EditBody?
    ensures var heads := remote.submissionsOf(names);
            r.outcome.Ok? && r.actions != [] ==>
              2 * |heads| <= |r.actions| && r.actions[..2 * |heads|] == Deliveries(heads)
  {
    var heads := remote.submissionsOf(names);
    var abort := ShouldAbort(flags.dryRun, flags.confirm, |heads| > 0, prompts.interactive, prompts.confirmed);
    if !abort.Ok? then SubmitResult(abort.PropagateFailure(), [], [])
    else if abort.value then SubmitResult(Ok(()), [], [])
    else
      var pushed := PushFrom(heads, remote.push, remote.submitPr, 0);
      PushFromIs(heads, remote.push, remote.submitPr, 0);
      PushFromNeverKilled(heads, remote.push, remote.submitPr);
      if !pushed.outcome.Ok? then SubmitResult(pushed.outcome, pushed.actions, [])
      else
        var footers := FooterStep(env, names, remote.prState);
        assert heads[0..] == heads;
        assert pushed.actions == Deliveries(heads);
        assert (pushed.actions + footers.edits)[..2 * |heads|] == pushed.actions;
        SubmitResult(footers.outcome, pushed.actions + footers.edits, footers.reports)
  }

  /**
   * What `submitAction` does, given the PR-info cache it starts from. The
   * flags are checked before anything else, and validation failures stop the
   * command before any push.
   */
  function SubmitSpec(flags: Flags, prompts: Prompts, q: Queries, info: map<string, PrInfo>, stack: seq<string>,
                      remote: Remote, env: FooterEnv): (r: SubmitResult)
    requires ValidMarkers(env)
    ensures flags.draft && flags.publish ==> r == SubmitResult(Fatal(ExitFailed(DraftAndPublish)), [], [])
    ensures var names := BranchesToSubmit(flags, prompts, q, stack);
            var validation := ValidationOf(q, info, names, prompts.interactive, prompts.emptyChoice, prompts.mergedChoice);
            !(flags.draft && flags.publish) && !validation.Ok? ==> r == SubmitResult(validation.PropagateFailure(), [], [])
    ensures flags.dryRun ==> r.actions == [] && r.reports == []
    ensures !prompts.interactive ==> !r.outcome.Killed?
    ensures forall m, n :: 0 <= m < n < |r.actions| && r.actions[m].EditBody? ==> r.actions[n].EditBody?
    ensures var heads := remote.submissionsOf(BranchesToSubmit(flags, prompts, q, stack));
            r.outcome.Ok? && r.actions != [] ==>
              2 * |heads| <= |r.actions| && r.actions[..2 * |heads|] == Deliveries(heads)
  {
    if !CheckFlags(flags.draft, flags.publish).Ok? then SubmitResult(Fatal(ExitFailed(DraftAndPublish)), [], [])
    else
      var names := BranchesToSubmit(flags, prompts, q, stack);
      var validation := ValidationOf(q, info, names, prompts.interactive, prompts.emptyChoice, prompts.mergedChoice);
      if !validation.Ok? then SubmitResult(validation.PropagateFailure(), [], [])
      else AfterValidation(flags, prompts, names, remote, env)
  }

  /**
   * Submitting a stack whose PR bodies already carry the right footers pushes
   * and submits every head and edits no PR body: every branch reports "no-op".
   */
  lemma ResubmitInSyncEditsNothing(flags: Flags, prompts: Prompts, q: Queries, info: map<string, PrInfo>,
                                   stack: seq<string>, remote: Remote, env: FooterEnv)
    requires ValidMarkers(env)
    requires !(flags.draft && flags.publish) && !flags.dryRun
    requires var names := BranchesToSubmit(flags, prompts, q, stack);
             var heads := remote.submissionsOf(names);
             && ValidationOf(q, info, names, prompts.interactive, prompts.emptyChoice, prompts.mergedChoice).Ok?
             && heads != [] && (!prompts.interactive || !flags.confirm || prompts.confirmed)
             && (forall k :: 0 <= k < |heads| ==> Delivered(remote.push, remote.submitPr, heads[k]))
             && names != []
             && forall k :: 0 <= k < |names| ==>
                  names[k] in env.info && !FooterChanged(env, CommonMergedDownstack(env, names, remote.prState), names[k])
    ensures var r := SubmitSpec(flags, prompts, q, info, stack, remote, env);
            var names := BranchesToSubmit(flags, prompts, q, stack);
            && r.outcome == Ok(())
            && r.actions == Deliveries(remote.submissionsOf(names))
            && |r.reports| == |names|
            && forall n :: 0 <= n < |r.reports| ==> r.reports[n].branch == names[n] && !r.reports[n].updated
  {
    var names := BranchesToSubmit(flags, prompts, q, stack);
    var heads := remote.submissionsOf(names);
    assert FirstUndelivered(heads, remote.push, remote.submitPr, 0) == |heads|;
    assert heads[0..] == heads;
    PushFromIs(heads, remote.push, remote.submitPr, 0);
    FootersInSyncEditNothing(env, CommonMergedDownstack(env, names, remote.prState), names);
  }

  /** The part of `submitAction` after validation: abort decision, pushes, footers. */
  method PushAndUpdateFooters(flags: Flags, prompts: Prompts, branchNames: seq<string>, remote: Remote, env: FooterEnv)
    returns (r: Outcome<()>, actions: seq<Action>, reports: seq<Report>)
    requires ValidMarkers(env)
    ensures SubmitResult(r, actions, reports) == AfterValidation(flags, prompts, branchNames, remote, env)
  {
    var submissionHeads := remote.submissionsOf(branchNames);
    var abort := ShouldAbort(flags.dryRun, flags.confirm, |submissionHeads| > 0, prompts.interactive, prompts.confirmed);
    if !abort.Ok? {
      return abort.PropagateFailure(), [], [];
    }
    if abort.value {
      return Ok(()), [], [];
    }
    var pushed;
    r, pushed := PushAll(submissionHeads, remote.push, remote.submitPr);
    if !r.Ok? {
      return r, pushed, [];
    }
    var commonMergedDownstack := GetCommonMergedDownstack(branchNames, env.localStackOf, env.info, remote.prState);
    if !commonMergedDownstack.Ok? {
      return commonMergedDownstack.PropagateFailure(), pushed, [];
    }
    var edits;
    r, edits, reports := UpdateStackFooters(env, commonMergedDownstack.value, branchNames);
    actions := pushed + edits;
  }

  /** `submitAction`. */
  method Submit(store: PrInfoStore, flags: Flags, prompts: Prompts, q: Queries, stack: seq<string>,
                remote: Remote, env: FooterEnv)
    returns (r: Outcome<()>, actions: seq<Action>, reports: seq<Report>)
    requires ValidMarkers(env)
    modifies store
    ensures SubmitResult(r, actions, reports) == SubmitSpec(flags, prompts, q, old(store.info), stack, remote, env)
    ensures store.info == if flags.draft && flags.publish then old(store.info)
                          else StoreAfterValidation(q, old(store.info), BranchesToSubmit(flags, prompts, q, stack),
                                                    prompts.interactive, prompts.emptyChoice, prompts.mergedChoice)
  {
    var flagCheck := CheckFlags(flags.draft, flags.publish);
    if !flagCheck.Ok? {
      return flagCheck.PropagateFailure(), [], [];
    }
    var allBranchNames := Filter(stack, b => !q.isTrunk(b));
    var branchNames := allBranchNames;
    if flags.select {
      branchNames := SelectBranches(allBranchNames, prompts.selected);
    }
    assert branchNames == BranchesToSubmit(flags, prompts, q, stack);
    var validation := ValidateBranchesToSubmit(store, q, branchNames, prompts.interactive,
                                               prompts.emptyChoice, prompts.mergedChoice);
    if !validation.Ok? {
      return validation.PropagateFailure(), [], [];
    }
    r, actions, reports := PushAndUpdateFooters(flags, prompts, branchNames, remote, env);
  }
}
