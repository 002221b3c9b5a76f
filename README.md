# Stacked-PR submission of the `gs` CLI, modelled in Dafny

`gs` is a command-line tool for stacked branches on GitHub. This project
models the core of its `submit` command and of its internal `status`
command:

- **Validation** (`validateBranchesToSubmit`):
  - the base-revision rule. A branch is accepted when its parent is trunk, or its parent was submitted before it and the branch is restacked, or its parent's remote tip is unchanged;
  - the empty-branch prompt;
  - the merged-or-closed-PR prompt. Continuing past it clears the PR info of every submitted branch.
- **The submit action** (`submitAction`):
  - the `--draft`/`--publish` exclusion;
  - branch selection;
  - the abort decision (`shouldAbort`);
  - the push/submit loop, where a refused force-with-lease push ("stale info") becomes an "externally modified" error;
  - the footer reconciliation. Each PR body's dependency-stack footer is rewritten when the stack it shows differs from the one to publish.
- **The footer codec**:
  - `getExistingPrStack` reads the entries `/\d+\.\s#\d+/g` out of a PR body;
  - `updatePrBodyFooter` replaces the block matched by `/\s*TITLE\s*[\s\S]*\s*FOOTER\s*/` or appends a footer. Its `String.prototype.replace` replacement patterns are part of the model.
- **Merged-downstack recovery** (`getCommonMergedDownstackAsync`): a backward scan over the published stack that asks the code host about entries missing locally.
- **The status report** (`status.ts`): the status word of each changed file, and `conflicts = rebaseInProgress`.

Calls to git, `gh`, the PR submission and the footer renderer are not
modelled. They become parameters: total functions in `Queries`, `Remote` and
`FooterEnv`, and the user's answers in `Prompts`. The effects of the action
are returned as a trace of `Action`s (push, PR submission, PR-body edit) plus
the report lines.

Modules (one file each):
- `wrappers.dfy`: `Option`.
- `errors.dfy`: the failures and the `Outcome` of a step.
- `strings.dfy`: JavaScript `\s`, `\d`, `indexOf`, `includes`, `trim`.
- `seqs.dfy`: `filter` and `map`.
- `engine.dfy`: PR info and the `PrInfoStore` class, whose `info` map is updated by `clearPrInfo`.
- `footer_codec.dfy`, `merged_downstack.dfy`, `validate_branches.dfy`, `submit_action.dfy`, `status.dfy`: the core.

Each loop of the source is a Dafny method proved equal to a specification
function. The properties are proved about that function.

## Model

| member | source | states |
|---|---|---|
| Engine.PrInfoStore.ClearPrInfo | apps/cli/src/actions/submit/validate_branches.ts:82 | the cache afterwards has exactly the old entries except the cleared branch |
| Strings.ContainsIff | apps/cli/src/actions/submit/submit_action.ts:120 | `includes` holds exactly when the text occurs at some position |
| Strings.Trim | apps/cli/src/actions/submit/submit_action.ts:255 | the trimmed string is a slice with only white space cut off on both sides, and neither of its ends is white space |
| Strings.TrimUntrimmed | apps/cli/src/actions/submit/submit_action.ts:255 | trimming a string that neither starts nor ends with white space leaves it unchanged |
| Seqs.FilterIs | apps/cli/src/actions/submit/submit_action.ts:68-70 | `filter` keeps exactly the elements satisfying the predicate, in their original order and with their multiplicity (it takes, at increasing positions, every position whose element satisfies it), and is empty exactly when none does |
| FooterCodec.EntryEndAtIs | apps/cli/src/actions/submit/submit_action.ts:205-215 | what the matcher finds at a position has the entry shape and is not followed by a digit (greedy `\d+`) |
| FooterCodec.EntryEndAtIsLongest | apps/cli/src/actions/submit/submit_action.ts:205-215 | every entry-shaped substring starting at a position is covered by the match found there: no match is missed and the longest is taken |
| FooterCodec.ScanSpans | apps/cli/src/actions/submit/submit_action.ts:214-217 | a global search reports matches inside the text, each the match at its start, in order and without overlap |
| FooterCodec.ScanCovers | apps/cli/src/actions/submit/submit_action.ts:214-217 | every position where a match starts lies in some reported span |
| FooterCodec.MatchesAreEntries | apps/cli/src/actions/submit/submit_action.ts:217 | every span `body.match` reports holds an entry |
| FooterCodec.MatchedEntries | apps/cli/src/actions/submit/submit_action.ts:217 | one string per reported match, each an entry |
| FooterCodec.NoMatchesNoEntries | apps/cli/src/actions/submit/submit_action.ts:217-218 | when `match` finds nothing, no substring of the body has the entry shape |
| FooterCodec.GetExistingPrStack | apps/cli/src/actions/submit/submit_action.ts:200-219 | `null` exactly for an absent or empty body or one without entries; otherwise all entries in order, each of entry shape; never an empty list |
| FooterCodec.FooterRegionMatches | apps/cli/src/actions/submit/submit_action.ts:280-289 | the located block is matched by `\s*TITLE\s*[\s\S]*\s*FOOTER\s*` |
| FooterCodec.FooterRegionEndsAfter | apps/cli/src/actions/submit/submit_action.ts:280-289 | any title followed by a footer marker and white space ends no later than the located block |
| FooterCodec.FooterRegionStartsBefore | apps/cli/src/actions/submit/submit_action.ts:280-289 | white space before a title starts no earlier than the located block |
| FooterCodec.FooterRegionIsExtremal | apps/cli/src/actions/submit/submit_action.ts:280-289 | every match of the pattern starts no earlier and ends no later than the located block, which therefore exists |
| FooterCodec.FooterRegionIsFirstMatch | apps/cli/src/actions/submit/submit_action.ts:280-292 | the located block is the leftmost-longest match the non-global `RegExp` reports, and its absence means `regex.test` fails |
| FooterCodec.FirstRegionUnique | apps/cli/src/actions/submit/submit_action.ts:280-296 | the leftmost-longest match is unique |
| FooterCodec.SubstitutePlain | apps/cli/src/actions/submit/submit_action.ts:296 | a replacement text without `$` is inserted verbatim by `replace` |
| FooterCodec.UpdatePrBodyFooter | apps/cli/src/actions/submit/submit_action.ts:272-297 | an absent or empty body becomes the footer; a body where the pattern matches nowhere gets the footer appended; otherwise the leftmost-longest block is replaced by the footer template |
| FooterCodec.UpdateKeepsSurroundings | apps/cli/src/actions/submit/submit_action.ts:291-296 | with a `$`-free footer, the text before and after the old block is kept and the footer sits between them |
| MergedDownstack.QueryArgumentOfEntry | apps/cli/src/actions/submit/submit_action.ts:255 | for a footer entry, `split('#')[1]?.trim()` is exactly its non-empty run of digits after `#` |
| MergedDownstack.LastMergedBelowSpec | apps/cli/src/actions/submit/submit_action.ts:246-266 | the backward scan finds an entry missing locally whose PR is MERGED with no such entry above it, or reports that there is none |
| MergedDownstack.LastMergedBelowIs | apps/cli/src/actions/submit/submit_action.ts:246-266 | an entry that is gone and merged with nothing gone and merged above it is the one the scan stops at |
| MergedDownstack.MergedDownstackOf | apps/cli/src/actions/submit/submit_action.ts:236-269 | empty without a published stack or when it equals the local one; otherwise a prefix of the published stack ending in its topmost entry that is gone locally and MERGED, with nothing gone and merged above it; empty when there is no such entry |
| MergedDownstack.AbsentDescendingIs | apps/cli/src/actions/submit/submit_action.ts:246-258 | the PRs queried are exactly the entries missing locally between the stop and the top, each once, from the top down |
| MergedDownstack.ScanSkips | apps/cli/src/actions/submit/submit_action.ts:249-252 | an entry present locally, or whose PR is not MERGED, does not change where the scan stops |
| MergedDownstack.ScanStopsAt | apps/cli/src/actions/submit/submit_action.ts:262-265 | the scan returns the published stack up to and including the first gone-and-merged entry from the top |
| MergedDownstack.ScanFindsNothing | apps/cli/src/actions/submit/submit_action.ts:268-269 | a scan that reaches the bottom returns nothing |
| MergedDownstack.RecoverMergedDownstack | apps/cli/src/actions/submit/submit_action.ts:236-269 | the loop returns `MergedDownstackOf`, queries nothing when it returns at once, and otherwise queries exactly the locally missing entries from the top down to where it stopped |
| MergedDownstack.ThreeEntryScan | apps/cli/src/actions/submit/submit_action.ts:244-265 | with three published entries, the top two gone locally, the middle one merged and the top one not, the first two entries form the downstack |
| MergedDownstack.RecoverAfterDeletedBranches | apps/cli/src/actions/submit/submit_action.ts:244-265 | published "1. #10", "2. #11", "3. #12" seen from a local stack of "1. #12", with PR 11 merged and PR 12 not, recovers "1. #10", "2. #11" |
| MergedDownstack.GetCommonMergedDownstack | apps/cli/src/actions/submit/submit_action.ts:221-270 | an empty branch list fails the `assert`; otherwise the merged downstack of the first branch's published and local stacks |
| ValidateBranches.FirstFatalFrom | apps/cli/src/actions/submit/validate_branches.ts:90-130 | the first branch the base rule rejects, with every branch before it accepted |
| ValidateBranches.FirstFatalIs | apps/cli/src/actions/submit/validate_branches.ts:90-130 | a rejected branch with every branch before it accepted is the one the check stops at |
| ValidateBranches.BaseRevisions | apps/cli/src/actions/submit/validate_branches.ts:86-130 | the check passes exactly when no branch is rejected, fails with the error of a rejected branch otherwise, and never cancels |
| ValidateBranches.AdvisoriesBelow | apps/cli/src/actions/submit/validate_branches.ts:94-102 | the "fallen behind trunk" notes go exactly to the branches on trunk that are not fixed |
| ValidateBranches.ValidateBaseRevisions | apps/cli/src/actions/submit/validate_branches.ts:90-130 | the loop's outcome is `BaseRevisions`, and it notes the behind-trunk branches before the branch that stops it |
| ValidateBranches.TrunkChildrenPass | apps/cli/src/actions/submit/validate_branches.ts:94-102 | branches whose parents are all trunk always pass |
| ValidateBranches.SubmittedParentNeedsRestack | apps/cli/src/actions/submit/validate_branches.ts:103-113 | a branch whose parent is submitted before it fails with the restack error exactly when it is not fixed |
| ValidateBranches.UnsubmittedParentMustMatchRemote | apps/cli/src/actions/submit/validate_branches.ts:114-127 | a branch whose parent is neither trunk nor submitted before it fails exactly when the parent's remote tip moved, fixed or not |
| ValidateBranches.TwoBranchStack | apps/cli/src/actions/submit/validate_branches.ts:103-113 | in a two-branch stack the upper branch fails with the restack error exactly when it is not fixed |
| ValidateBranches.ValidateNoEmptyBranches | apps/cli/src/actions/submit/validate_branches.ts:132-178 | no empty branch passes; with empty branches a non-interactive run fails with the non-interactive abort, an interactive one is cancelled exactly when the user aborts |
| ValidateBranches.MergedOrClosedBranches | apps/cli/src/actions/submit/validate_branches.ts:33-35 | exactly the submitted branches whose PR state is MERGED or CLOSED; empty exactly when none is |
| ValidateBranches.MergedOrClosedDecision | apps/cli/src/actions/submit/validate_branches.ts:29-81 | none flagged passes; a flagged branch fails a non-interactive run and cancels an interactive one exactly when the user aborts |
| ValidateBranches.ValidateNoMergedOrClosedBranches | apps/cli/src/actions/submit/validate_branches.ts:29-84 | the outcome is the decision, and the cache loses the PR info of every submitted branch exactly when flagged branches were continued past |
| ValidateBranches.ValidationOf | apps/cli/src/actions/submit/validate_branches.ts:6-27 | the checks run as base revisions, then empty branches, then merged/closed PRs, and the first that does not pass gives the outcome; when all pass the branch list comes back unchanged; without a terminal it is never cancelled |
| ValidateBranches.StoreAfterValidation | apps/cli/src/actions/submit/validate_branches.ts:79-82 | the cache is either unchanged or cleared for all submitted branches, and cleared only after validation passed with flagged branches |
| ValidateBranches.ValidateBranchesToSubmit | apps/cli/src/actions/submit/validate_branches.ts:6-27 | the method's outcome is `ValidationOf` and its cache is `StoreAfterValidation` |
| SubmitAction.CheckFlags | apps/cli/src/actions/submit/submit_action.ts:37-42 | the flags pass exactly when not both `--draft` and `--publish` are given, else the draft-and-publish exit error |
| SubmitAction.ShouldAbort | apps/cli/src/actions/submit/submit_action.ts:323-354 | a quiet stop exactly on a dry run or with no PRs; cancellation exactly when asked at a terminal and declined; never an error |
| SubmitAction.ClassifyPushError | apps/cli/src/actions/submit/submit_action.ts:117-133 | a git failure mentioning "stale info" becomes the externally-modified error for the head; any other error is rethrown unchanged |
| SubmitAction.SelectBranches | apps/cli/src/actions/submit/submit_action.ts:299-321 | the result is `Filter` of the branches by the answers: the branches answered yes, in order (as `Seqs.FilterIs` states) |
| SubmitAction.BranchesToSubmit | apps/cli/src/actions/submit/submit_action.ts:68-74 | the submission list is the stack's non-trunk branches, selected under `--select`, taken in stack order: every such position of the stack, and only those, at increasing positions |
| SubmitAction.Deliveries | apps/cli/src/actions/submit/submit_action.ts:114-143 | two actions per head and no PR-body edit |
| SubmitAction.PushFromIs | apps/cli/src/actions/submit/submit_action.ts:114-143 | the loop succeeds exactly when every head is delivered, then pushes and submits each in order; otherwise it stops at the first failing head with the classified push error or the submission error, after delivering the heads before it |
| SubmitAction.PushFromNeverKilled | apps/cli/src/actions/submit/submit_action.ts:114-143 | pushing never cancels the command and never edits a PR body |
| SubmitAction.PushAll | apps/cli/src/actions/submit/submit_action.ts:114-143 | the loop's outcome and trace are those of `PushFrom` |
| SubmitAction.StackToSubmit | apps/cli/src/actions/submit/submit_action.ts:163-172 | `null` exactly when merged downstack plus local stack has one entry, else their concatenation |
| SubmitAction.FooterEditsAre | apps/cli/src/actions/submit/submit_action.ts:174-187 | each edit is the body edit of a branch whose footer changed, every such branch gets one, and nothing is edited exactly when no footer changed |
| SubmitAction.FirstMissing | apps/cli/src/actions/submit/submit_action.ts:157-161 | the first branch without PR info, every branch before it having some |
| SubmitAction.FooterRunIs | apps/cli/src/actions/submit/submit_action.ts:157-193 | the footer loop succeeds exactly when every branch has PR info, else fails on the first without; before that it edits the changed branches and reports every branch, "updated" exactly when its footer changed |
| SubmitAction.FooterLoopStep | apps/cli/src/actions/submit/submit_action.ts:157-193 | one more branch appends its report, and its edit exactly when its footer changed |
| SubmitAction.FootersInSyncEditNothing | apps/cli/src/actions/submit/submit_action.ts:174-192 | when every footer is current, the loop succeeds, edits nothing and reports every branch as "no-op" |
| SubmitAction.LoneBranchWithoutFooterIsNoOp | apps/cli/src/actions/submit/submit_action.ts:167-176 | a lone branch without footer entries whose stack is itself alone is not edited and reports "no-op" |
| SubmitAction.ReconcileBranch | apps/cli/src/actions/submit/submit_action.ts:158-192 | one iteration issues the body edit exactly when the footer changed and reports the branch's URL |
| SubmitAction.UpdateStackFooters | apps/cli/src/actions/submit/submit_action.ts:157-193 | the loop's outcome, edits and reports are those of `FooterRun` |
| SubmitAction.FooterStep | apps/cli/src/actions/submit/submit_action.ts:152-193 | an empty branch list fails the `assert`; the step is never cancelled and only edits PR bodies |
| SubmitAction.AfterValidation | apps/cli/src/actions/submit/submit_action.ts:101-193 | a dry run does nothing; without a terminal nothing is cancelled; every PR-body edit comes after all pushes and submissions; a successful run starts with every head delivered in order |
| SubmitAction.SubmitSpec | apps/cli/src/actions/submit/submit_action.ts:19-198 | both `--draft` and `--publish` fail before anything happens; a validation failure stops the command before any push; plus the dry-run, non-interactive, edits-last and deliveries-first properties |
| SubmitAction.ResubmitInSyncEditsNothing | apps/cli/src/actions/submit/submit_action.ts:114-193 | resubmitting a stack whose footers are current pushes and submits every head, edits no PR body and reports every branch "no-op" |
| SubmitAction.PushAndUpdateFooters | apps/cli/src/actions/submit/submit_action.ts:101-193 | the method's result is `AfterValidation` |
| SubmitAction.Submit | apps/cli/src/actions/submit/submit_action.ts:19-198 | the method's result is `SubmitSpec` on the cache it starts from; the cache ends as validation leaves it, untouched when the flags are rejected |
| Status.InteractiveStatusFromStatus | apps/cli/src/commands/internal-only-commands/status.ts:36-59 | "UNRESOLVED" for a conflict, else the staging word, "_" and the change word |
| Status.ParseInteractiveStatus | apps/cli/src/commands/internal-only-commands/status.ts:36-59 | every status word reads back, split at its last "_", as the file state it was made from |
| Status.InteractiveStatusInjective | apps/cli/src/commands/internal-only-commands/status.ts:44-58 | distinct non-conflict file states give distinct words, none of them "UNRESOLVED" |
| Status.ToChangedFile | apps/cli/src/commands/internal-only-commands/status.ts:19-25 | the record keeps path and copy source, and its status word reads back as the file's state |
| Status.StatusReportOf | apps/cli/src/commands/internal-only-commands/status.ts:16-30 | `conflicts` is the rebase-in-progress flag, and there is one record per file, in order, as `ToChangedFile` states |

## Left out

- Git, `gh` and other subprocesses (`pushBranch`, `gh pr view`, `gh pr edit`) are not modelled. Their results are inputs: the functions in `Queries` and `Remote`. A PR-body edit is recorded as an action, not performed.
- `getPRInfoForBranches` and `submitPullRequest` are not part of this model. The heads to push are `Remote.submissionsOf(branchNames)`. The PR info the footer step reads after submission is the input `FooterEnv.info`.
- `syncPrInfo` and `populateRemoteShas` run concurrently in the tool and are not modelled. The PR-info cache is taken as already synchronized when the merged/closed check reads it. The swallowed error of the sync promise is not modelled.
- `createPrBodyFooter`, `generateLocalPrStack`, `footerTitle` and `footerFooter` are not part of this model. The renderer and the local stacks are parameters. The two markers are parameters, required to be non-empty and trimmed, as the source trims them.
- FooterCodec.UpdatePrBodyFooter: treats the footer title as literal text. The source puts `footerTitle.trim()` into the pattern unescaped, so a title with regular-expression metacharacters would mean something else. The footer marker is escaped in the source, and is literal here too.
- There is no proof that the footer read back by `getExistingPrStack` equals the stack written by `createPrBodyFooter`, because the renderer is not visible.
- Interactive prompts are inputs (`Prompts`). The cursor movements of `selectBranches`, the log lines, tips, colours and the dry-run banner are not modelled. The report line is kept as `Report(branch, url, updated)`.
- `editPRFieldsInline`, `reviewers`, `forcePush`, `updateOnly`, `always`, `mergeWhenReady`, `branch` and `scope` only feed calls that are not modelled. The relative stack of the current branch is the input `stack`.
- `getParentPrecondition` is a total function. Its own failure for a branch without a parent is not modelled.
- JSON serialisation is not modelled. `JSON.stringify(a) !== JSON.stringify(b)` is taken as value inequality, which it is for arrays of strings and `null`. `status.ts` logs the report as JSON, and the report is returned as a value instead.
- The yargs command plumbing of `status.ts` (`command`, `builder`, the `graphite` wrapper) is not modelled.
- Strings are sequences of Unicode characters, not UTF-16 code units. `\s` and `trim` use the ECMAScript white-space and line-terminator set.
