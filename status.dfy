/**
 * The `internal-only status` command: each changed file of the working tree,
 * with its git status and staging state folded into one status word for the
 * interactive client, plus whether a rebase is in progress.
 */
module Status {

  import opened Wrappers
  import opened Strings

  /** `TStatusFile['status']`. */
  datatype FileStatus = Added | Modified | Deleted | Copied | Renamed | Unresolved

  /** `TStatusFile['staged']`: "full", "partial" or "none". */
  datatype Staged = Full | Partial | Unstaged

  /** A file as the engine reports it. */
  datatype StatusFile = StatusFile(path: string, status: FileStatus, staged: Staged, from: Option<string>)

  /** A file as the interactive client receives it (`ChangedFile`). */
  datatype ChangedFile = ChangedFile(status: string, path: string, copy: Option<string>)

  /** The command's result (`Status`). */
  datatype StatusReport = StatusReport(conflicts: bool, files: seq<ChangedFile>)

  /** The staging table: the first half of a status word. */
  function StagedPrefix(staged: Staged): string {
    match staged
    case Full => "TRACKED"
    case Partial => "PARTIALLY_TRACKED"
    case Unstaged => "UNTRACKED"
  }

  /** The change table: the second half of a status word. */
  function StatusSuffix(status: FileStatus): string
    requires status != Unresolved
  {
    match status
    case Added => "ADD"
    case Modified => "MODIFY"
    case Deleted => "REMOVE"
    case Copied => "COPY"
    case Renamed => "RENAME"
  }

  /** `interactiveStatusFromStatus`. */
  function InteractiveStatusFromStatus(status: FileStatus, staged: Staged): (r: string)
    ensures status == Unresolved ==> r == "UNRESOLVED"
    ensures status != Unresolved ==> r == StagedPrefix(staged) + "_" + StatusSuffix(status)
  {
    if status == Unresolved then "UNRESOLVED"
    else StagedPrefix(staged) + "_" + StatusSuffix(status)
  }

  // ---------------------------------------------------------------------------
  // Reading a status word back
  // ---------------------------------------------------------------------------

  /** What a status word says about a file. */
  datatype Parsed = Conflicted | Change(status: FileStatus, staged: Staged)

  function StagedFromPrefix(p: string): Option<Staged> {
    if p == "TRACKED" then Some(Full)
    else if p == "PARTIALLY_TRACKED" then Some(Partial)
    else if p == "UNTRACKED" then Some(Unstaged)
    else None
  }

  function StatusFromSuffix(x: string): Option<FileStatus> {
    if x == "ADD" then Some(Added)
    else if x == "MODIFY" then Some(Modified)
    else if x == "REMOVE" then Some(Deleted)
    else if x == "COPY" then Some(Copied)
    else if x == "RENAME" then Some(Renamed)
    else None
  }

  /** Splits a status word at its last '_' and looks both halves up. */
  function ParseStatusWord(s: string): Option<Parsed> {
    if s == "UNRESOLVED" then Some(Conflicted)
    else match LastIndexOf(s, "_", 0)
      case None => None
      case Some(u) =>
        match (StagedFromPrefix(s[..u]), StatusFromSuffix(s[u + 1..]))
        case (Some(g), Some(t)) => Some(Change(t, g))
        case _ => None
  }

  /** The last '_' of `p + "_" + x` is the separator when `x` has none. */
  lemma LastUnderscore(p: string, x: string)
    requires '_' !in x
    ensures LastIndexOf(p + "_" + x, "_", 0) == Some(|p|)
  {
    var s := p + "_" + x;
    assert OccursAt(s, "_", |p|) by {
      assert s[|p|..|p| + 1] == "_";
    }
    forall k | |p| < k ensures !OccursAt(s, "_", k) {
      if k + 1 <= |s| {
        assert s[k..k + 1][0] == x[k - |p| - 1];
      }
    }
  }

  /** Every status word reads back as the file state it was made from. */
  lemma {:induction false} ParseInteractiveStatus(status: FileStatus, staged: Staged)
    ensures ParseStatusWord(InteractiveStatusFromStatus(status, staged)) ==
            if status == Unresolved then Some(Conflicted) else Some(Change(status, staged))
  {
    if status != Unresolved {
      var p, x := StagedPrefix(staged), StatusSuffix(status);
      var s := p + "_" + x;
      assert '_' !in x;
      LastUnderscore(p, x);
      assert s[..|p|] == p && s[|p| + 1..] == x;
      assert s != "UNRESOLVED" by {
        assert s[|p|] == '_';
        assert '_' !in "UNRESOLVED";
      }
    }
  }

  /**
   * Distinct file states that are not conflicts give distinct status words,
   * and none of them is "UNRESOLVED".
   */
  lemma InteractiveStatusInjective(st1: FileStatus, sg1: Staged, st2: FileStatus, sg2: Staged)
    requires st1 != Unresolved && st2 != Unresolved
    ensures InteractiveStatusFromStatus(st1, sg1) == InteractiveStatusFromStatus(st2, sg2) ==> st1 == st2 && sg1 == sg2
    ensures InteractiveStatusFromStatus(st1, sg1) != "UNRESOLVED"
  {
    ParseInteractiveStatus(st1, sg1);
    ParseInteractiveStatus(st2, sg2);
  }

  // ---------------------------------------------------------------------------
  // The command's result
  // ---------------------------------------------------------------------------

  /** The per-file record built by the handler's `map`. */
  function ToChangedFile(file: StatusFile): (c: ChangedFile)
    ensures ParseStatusWord(c.status) ==
            if file.status == Unresolved then Some(Conflicted) else Some(Change(file.status, file.staged))
    ensures c.path == file.path && c.copy == file.from
  {
    ParseInteractiveStatus(file.status, file.staged);
    ChangedFile(InteractiveStatusFromStatus(file.status, file.staged), file.path, file.from)
  }

  /**
   * The record the handler logs: one entry per file, in order, and the
   * conflict flag copied from the engine's rebase-in-progress flag.
   */
  function StatusReportOf(files: seq<StatusFile>, rebaseInProgress: bool): (r: StatusReport)
    ensures r.conflicts == rebaseInProgress
    ensures |r.files| == |files|
    ensures forall i :: 0 <= i < |files| ==>
              r.files[i].path == files[i].path && r.files[i].copy == files[i].from &&
              ParseStatusWord(r.files[i].status) ==
                if files[i].status == Unresolved then Some(Conflicted)
                else Some(Change(files[i].status, files[i].staged))
  {
    StatusReport(rebaseInProgress, seq(|files|, i requires 0 <= i < |files| => ToChangedFile(files[i])))
  }
}
