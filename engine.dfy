/**
 * What the submit pipeline reads from the branch-relationship engine. The
 * structural queries are fixed for one run and become total functions; the
 * PR-info cache is mutable state (`clearPrInfo`), held in a class.
 */
module Engine {

  import opened Wrappers

  /** The PR metadata the engine keeps for a branch. */
  datatype PrInfo = PrInfo(number: nat, url: string, state: Option<string>, body: Option<string>)

  /** The engine's structural queries, one function per query. */
  datatype Queries = Queries(
    parentOf: string -> string,        // getParentPrecondition
    isTrunk: string -> bool,           // isTrunk
    isFixed: string -> bool,           // isBranchFixed: rebased onto its parent's current tip
    matchesRemote: string -> bool,     // branchMatchesRemote
    isEmpty: string -> bool)           // isBranchEmpty: no changes relative to its base

  /** `getPrInfo(branch)?.body`. */
  function BodyOf(info: map<string, PrInfo>, branch: string): (r: Option<string>)
    ensures branch !in info ==> r.None?
    ensures branch in info ==> r == info[branch].body
  {
    if branch in info then info[branch].body else None
  }

  /** The engine's per-branch PR-info cache. */
  class PrInfoStore {

    var info: map<string, PrInfo>

    constructor (initial: map<string, PrInfo>)
      ensures info == initial
    {
      info := initial;
    }

    /** `clearPrInfo`: forgets the PR of `branch`, so that a new PR gets created. */
    method ClearPrInfo(branch: string)
      modifies this
      ensures info == old(info) - {branch}
    {
      info := info - {branch};
    }
  }
}
