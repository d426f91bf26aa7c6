/**
 * `get_branch` (src/main.rs): the name shown for a repository's HEAD. The
 * lookup itself (`repo.head()` and `Reference::shorthand`) belongs to git2
 * and enters the model as its outcome.
 */
module Branch {
  import opened Wrappers

  /** The error classes of `git2::ErrorCode`. */
  datatype ErrorCode =
    | GenericError | NotFound | Exists | Ambiguous | BufSize | User | BareRepo
    | UnbornBranch | Unmerged | NotFastForward | InvalidSpec | Conflict | Locked
    | Modified | Auth | Certificate | Applied | Peel | Eof | Invalid | Uncommitted
    | Directory | MergeConflict | HashsumMismatch | IndexDirty | ApplyFail

  /** A `git2::Error`: its code and the text its `Display` implementation writes. */
  datatype GitError = GitError(code: ErrorCode, message: string)

  /**
   * What looking up HEAD yields: a reference, with its shorthand name when
   * that name is valid UTF-8, or the error `repo.head()` returned.
   */
  datatype HeadLookup = Head(shorthand: Option<string>) | HeadError(error: GitError)

  /** The name shown when HEAD has no usable name. */
  const NoBranch: string := "HEAD (no branch)"

  /** The two errors that mean "there is no HEAD to name" rather than a failure. */
  predicate MissingHead(e: GitError)
  {
    e.code == UnbornBranch || e.code == NotFound
  }

  /**
   * `get_branch`: the shorthand of HEAD; the sentinel when HEAD has no
   * shorthand, is unborn or is not found; any other error unchanged.
   */
  function GetBranch(head: HeadLookup): (r: Result<string, GitError>)
    ensures head.Head? && head.shorthand.Some? ==> r == Ok(head.shorthand.value)
    ensures head.Head? && head.shorthand.None? ==> r == Ok(NoBranch)
    ensures head.HeadError? && MissingHead(head.error) ==> r == Ok(NoBranch)
    ensures head.HeadError? && !MissingHead(head.error) ==> r == Err(head.error)
  {
    match head
    case Head(name) => Ok(match name case Some(s) => s case None => NoBranch)
    case HeadError(e) => if MissingHead(e) then Ok(NoBranch) else Err(e)
  }

  /**
   * The lookup fails exactly when HEAD cannot be read for a reason other
   * than being unborn or missing; the error is then passed on as it came.
   */
  lemma GetBranchFailsIff(head: HeadLookup)
    ensures GetBranch(head).Err? <==> head.HeadError? && !MissingHead(head.error)
    ensures GetBranch(head).Err? ==> GetBranch(head).error == head.error
  {
  }

  /**
   * Where the sentinel comes from: a name equal to it can only be HEAD's own
   * shorthand when HEAD resolved with one; otherwise it marks a HEAD without
   * a usable name.
   */
  lemma NoBranchOrigin(head: HeadLookup)
    requires GetBranch(head) == Ok(NoBranch)
    ensures head.Head? ==> head.shorthand.None? || head.shorthand == Some(NoBranch)
    ensures head.HeadError? ==> MissingHead(head.error)
  {
  }
}
