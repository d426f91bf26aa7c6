/**
 * `make_repo_description` (src/main.rs): the line shown for one repository.
 * Opening the repository, the bare check, the status query and the HEAD
 * lookup are git2 calls; their outcomes are the inputs of the model.
 */
module Description {
  import opened Wrappers
  import opened GitStatus
  import opened Stats
  import opened Display
  import opened Branch

  /**
   * An opened repository, as far as the description reads it: whether it is
   * bare, what `statuses` (with untracked files included and untracked
   * directories recursed) returns, and what looking up HEAD returns.
   */
  datatype Repo = Repo(bare: bool, statuses: Result<seq<Entry>, GitError>, head: HeadLookup)

  const OpenFailed: string := "failed to open: "
  const BareMessage: string := "cannot report status on bare repository"
  const StatusFailed: string := "failed to fetch status: "

  /** The summary line: branch name, one space, then the rendered counters. */
  function Summary(branch: string, entries: seq<Entry>): (r: seq<Token>)
    ensures |r| >= 2 && r[..2] == [Text(branch), Text(" ")]
  {
    TallyNatural(entries);
    [Text(branch), Text(" ")] + Render(Tally(entries))
  }

  /**
   * `make_repo_description` for the repository at `path`: the first failing
   * step decides the outcome, in the order open, bare check, status query,
   * branch lookup. A failed branch lookup drops the repository (`None`).
   */
  function Describe(path: string, outcome: Result<Repo, GitError>): (r: Option<seq<Token>>)
    ensures outcome.Err? ==> r == Some([Text(OpenFailed + path)])
    ensures outcome.Ok? && outcome.value.bare ==> r == Some([Text(BareMessage)])
    ensures outcome.Ok? && !outcome.value.bare && outcome.value.statuses.Err? ==>
      r == Some([Text(StatusFailed + outcome.value.statuses.error.message)])
    ensures outcome.Ok? && !outcome.value.bare && outcome.value.statuses.Ok? ==>
      match GetBranch(outcome.value.head)
      case Err(_) => r.None?
      case Ok(b) => r == Some(Summary(b, outcome.value.statuses.value))
  {
    match outcome
    case Err(_) => Some([Text(OpenFailed + path)])
    case Ok(repo) =>
      if repo.bare then Some([Text(BareMessage)])
      else
        match repo.statuses
        case Err(e) => Some([Text(StatusFailed + e.message)])
        case Ok(entries) =>
          match GetBranch(repo.head)
          case Err(_) => None
          case Ok(b) => Some(Summary(b, entries))
  }

  /**
   * A repository is left out of the listing exactly when it opens, is not
   * bare, its status query succeeds and its HEAD lookup fails for a reason
   * other than an unborn or missing HEAD.
   */
  lemma OmittedIff(path: string, outcome: Result<Repo, GitError>)
    ensures Describe(path, outcome).None? <==>
      outcome.Ok? && !outcome.value.bare && outcome.value.statuses.Ok? &&
      outcome.value.head.HeadError? && !MissingHead(outcome.value.head.error)
  {
    if outcome.Ok? && !outcome.value.bare && outcome.value.statuses.Ok? {
      GetBranchFailsIff(outcome.value.head);
    }
  }

  /**
   * A bare repository is described without consulting its status list or
   * its HEAD: any two bare repositories are described alike.
   */
  lemma BareSkipsQueries(path: string, a: Repo, b: Repo)
    requires a.bare && b.bare
    ensures Describe(path, Ok(a)) == Describe(path, Ok(b)) == Some([Text(BareMessage)])
  {
  }

  /** A failed status query is reported without looking at HEAD. */
  lemma StatusFailureSkipsHead(path: string, a: Repo, h: HeadLookup)
    requires !a.bare && a.statuses.Err?
    ensures Describe(path, Ok(a)) == Describe(path, Ok(a.(head := h)))
  {
  }

  /**
   * A summary reads back as the branch name followed by the shown counters
   * of the status list, so the line says which branch is checked out and
   * what `get_stats` counted.
   */
  lemma SummaryReadsBack(path: string, repo: Repo)
    requires !repo.bare && repo.statuses.Ok? && GetBranch(repo.head).Ok?
    ensures Describe(path, Ok(repo)) == Some(Summary(GetBranch(repo.head).value, repo.statuses.value))
    ensures var ts := Summary(GetBranch(repo.head).value, repo.statuses.value);
      ts[0] == Text(GetBranch(repo.head).value) &&
      Read(ts[2..]) == Some(ShownOf(Tally(repo.statuses.value)))
  {
    var es := repo.statuses.value;
    var ts := Summary(GetBranch(repo.head).value, es);
    TallyNatural(es);
    ReadRender(Tally(es));
    assert ts[2..] == Render(Tally(es));
  }
}
