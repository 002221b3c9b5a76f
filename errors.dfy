/**
 * The outcomes a submit step can end with. `ExitFailedError` carries a
 * remediation message in the tool; here the message is an opaque tag that
 * names the situation and the branch it mentions.
 */
module Errors {

  /** Why an `ExitFailedError` was raised. */
  datatype Reason =
    | DraftAndPublish                     // both --draft and --publish were given
    | NotRestacked(branch: string)        // a branch was not restacked on a parent submitted before it
    | ParentNotSubmitted(branch: string)  // the parent is neither trunk nor submitted, and its remote tip moved
    | NonInteractiveAbort                 // empty or merged/closed branches found without a terminal to ask
    | ExternallyModified(branch: string)  // force-with-lease push was refused ("stale info")

  /** An error that stops the command. */
  datatype Failure =
    | ExitFailed(reason: Reason)          // `ExitFailedError`
    | CommandFailed(message: string)      // `CommandFailedError` from a git subprocess
    | Unexpected(message: string)         // any other thrown value, carried unchanged
    | MissingPrInfo(branch: string)       // `Error("PR info is undefined for branch ...")`
    | AssertionFailed                     // a failing `assert(...)` of the node runtime

  /** Success with a value, a fatal error, or a user cancellation (`KilledError`). */
  datatype Outcome<+T> = Ok(value: T) | Fatal(failure: Failure) | Killed {

    function PropagateFailure<U>(): (r: Outcome<U>)
      requires !Ok?
      ensures r.Fatal? <==> Fatal?
    {
      if Fatal? then Fatal(failure) else Killed
    }
  }
}
