# rustaman: per-repository status summary

rustaman walks a directory tree and prints one line for each git
repository it finds. This project models how that line is computed in
`src/main.rs`:

- **Reading HEAD** (`get_branch`, module `Branch`): the shorthand name of
  HEAD, or the sentinel `HEAD (no branch)`.
- **Counting** (`RepoStats` and `get_stats`, modules `GitStatus` and `Stats`):
  four sweeps over libgit2's status entries fill six counters.
  - The index sweep and the worktree sweep each take the first flag they
    find, in a fixed order.
  - The untracked sweep and the ignored sweep each count the entries whose
    status is exactly WT_NEW, or exactly IGNORED.
- **Rendering** (`impl Display for RepoStats`, module `Display`): the
  counters become colour changes, markers and decimal numbers.
- **Assembling the line** (`make_repo_description`, module `Description`):
  - a repository that cannot be opened, or is bare, gets a message;
  - a repository whose status query fails gets a message;
  - a repository whose HEAD lookup fails is dropped from the listing;
  - otherwise the line is the branch, a space, and the rendered counters.

`RepoStats` is a class whose `add_*` methods increment its fields.
`GetStats` creates one and runs the four sweep loops on it, each as a
method with a loop invariant. Its contract ties the resulting counters to
the function `Tally`, which classifies each entry on its own and adds up
the results. Every counting property is proved about `Tally`:

- at most two increments per entry;
- unchanged entries contribute nothing;
- the result does not depend on the order of the entries.

The git2 calls (`Repository::open`, `is_bare`, `statuses`, `head`,
`shorthand`, `index_to_workdir`) are not modelled. Their outcomes are
inputs, as values of `Result`, `Repo`, `HeadLookup` and `Entry`.

Some consequences of the code that the model makes explicit:

- **An entry can be counted twice.** The index sweep (src/main.rs:143-159)
  and the worktree sweep (src/main.rs:172-185) each look at every entry, so
  an entry with a workdir delta, an INDEX_* flag and one of WT_MODIFIED,
  WT_DELETED, WT_RENAMED or WT_TYPECHANGE raises two counters, or the same
  counter twice. An entry that is only CONFLICTED or only
  WT_UNREADABLE is counted by no sweep. `ContributionAtMostTwo` and
  `TallyBound` state the bound the code has.
- **The worktree chain has no WT_NEW arm.** It only counts WT_MODIFIED,
  WT_DELETED, WT_RENAMED and WT_TYPECHANGE (src/main.rs:172-185).
  Untracked (WT_NEW) files are counted only by the untracked sweep, and
  only when their status is exactly WT_NEW; staged new files (INDEX_NEW)
  are counted as new by the index sweep (src/main.rs:144-145).
- **A failed HEAD lookup drops the repository.** When `get_branch` fails
  for a reason other than an unborn or missing branch, `make_repo_description`
  yields `None` (src/main.rs:104-111), and the repository gets no line at all.

## Model

| member | source | states |
|---|---|---|
| GitStatus.Only | src/main.rs:190-203 | the status constants `Status::WT_NEW` and `Status::IGNORED` have exactly their own bit set and no other |
| GitStatus.UntrackedCategoryExact | src/main.rs:190-195 | the untracked filter `UntrackedCategory`, the `== WT_NEW` comparison at :192, selects an entry iff it carries WT_NEW (`Contains`) and no other bit, and then selects new |
| GitStatus.IgnoredCategoryExact | src/main.rs:198-203 | the ignored filter `IgnoredCategory`, the `== IGNORED` comparison at :200, selects an entry iff it carries IGNORED (`Contains`) and no other bit, and then selects ignored |
| GitStatus.IndexCategory | src/main.rs:139-161 | the index sweep never selects the ignored counter |
| GitStatus.IndexSelects | src/main.rs:143-159 | each arm of the index chain tests exactly one INDEX_* flag, and no arm counts ignored |
| GitStatus.IndexCategoryIsFirstMatch | src/main.rs:139-161 | the index sweep picks category c iff the entry is not CURRENT, carries c's index flag, and carries none of the flags of earlier arms (order NEW, MODIFIED, DELETED, RENAMED, TYPECHANGE) |
| GitStatus.IndexCategoryNone | src/main.rs:139-161 | the index sweep counts nothing iff the entry is CURRENT or carries no INDEX_* flag of the chain |
| GitStatus.WorktreeCategory | src/main.rs:164-187 | the worktree sweep never selects the new or ignored counter |
| GitStatus.WorktreeSelects | src/main.rs:172-185 | each arm of the worktree chain tests exactly one WT_* flag; there is no arm for WT_NEW |
| GitStatus.WorktreeCategoryIsFirstMatch | src/main.rs:164-187 | the worktree sweep picks category c iff the entry is not CURRENT, has a workdir delta, carries c's flag, and carries none of the earlier ones (order MODIFIED, DELETED, RENAMED, TYPECHANGE) |
| GitStatus.WorktreeCategoryNone | src/main.rs:164-187 | the worktree sweep counts nothing iff the entry is CURRENT, has no workdir delta, or carries none of the four WT_* flags of the chain |
| Stats.Unit | src/main.rs:35-57 | one `add_*` call raises its own counter by one and leaves the other five at zero |
| Stats.Effect | src/main.rs:143-159 | one match arm adds at most one increment, and adds none exactly when no arm fires |
| Stats.RepoStats.constructor | src/main.rs:129-136 | a fresh `RepoStats` has all six counters at zero |
| Stats.RepoStats.AddModified | src/main.rs:35-37 | the modified counter is one higher and the other five are unchanged |
| Stats.RepoStats.AddNew | src/main.rs:39-41 | the new counter is one higher and the other five are unchanged |
| Stats.RepoStats.AddDeleted | src/main.rs:43-45 | the deleted counter is one higher and the other five are unchanged |
| Stats.RepoStats.AddRenamed | src/main.rs:47-49 | the renamed counter is one higher and the other five are unchanged |
| Stats.RepoStats.AddTypechanged | src/main.rs:51-53 | the typechanged counter is one higher and the other five are unchanged |
| Stats.RepoStats.AddIgnored | src/main.rs:55-57 | the ignored counter is one higher and the other five are unchanged |
| Stats.SweepIndex | src/main.rs:138-161 | after the index loop, the counters have grown by the sum of the index classification of every entry |
| Stats.SweepWorktree | src/main.rs:163-187 | after the worktree loop, the counters have grown by the sum of the worktree classification of every entry |
| Stats.SweepUntracked | src/main.rs:189-195 | after the untracked loop, the counters have grown by one new per entry of status exactly WT_NEW |
| Stats.SweepIgnored | src/main.rs:197-203 | after the ignored loop, the counters have grown by one ignored per entry of status exactly IGNORED |
| Stats.GetStats | src/main.rs:128-206 | `get_stats` returns the per-entry tally of the status list |
| Stats.TotalZeroIff | src/main.rs:62 | for non-negative counters, the six-way sum `Total` tested at :62 is zero exactly when all six counters are zero |
| Stats.SweepsAreTally | src/main.rs:138-205 | running the four sweeps one after the other equals classifying each entry once and adding up |
| Stats.UntrackedSweepCounts | src/main.rs:189-195 | the untracked sweep raises only `new`, by the number of entries whose status is exactly WT_NEW |
| Stats.IgnoredSweepCounts | src/main.rs:197-203 | the ignored sweep raises only `ignored`, by the number of entries whose status is exactly IGNORED |
| Stats.UntrackedEntryCategories | src/main.rs:138-203 | for an entry of exactly WT_NEW, the index, worktree and ignored sweeps select nothing and the untracked sweep selects new |
| Stats.EditedFileCategories | src/main.rs:138-203 | for a tracked file modified only in the worktree, the worktree sweep selects modified and the other three select nothing |
| Stats.IgnoredEntryCategories | src/main.rs:138-203 | for an entry of exactly IGNORED, the index, worktree and untracked sweeps select nothing and the ignored sweep selects ignored |
| Stats.CurrentEntryCategories | src/main.rs:138-203 | for an entry with status CURRENT, none of the four sweeps selects anything |
| Stats.UntrackedEntryContribution | src/main.rs:189-195 | an entry of exactly WT_NEW is counted once, as new |
| Stats.IgnoredEntryContribution | src/main.rs:197-203 | an entry of exactly IGNORED is counted once, as ignored |
| Stats.EditedFileContribution | src/main.rs:163-187 | a tracked file modified only in the worktree is counted once, as modified |
| Stats.TrackedEntryContribution | src/main.rs:138-187 | any other entry is counted only by the index and worktree sweeps |
| Stats.CurrentEntryContribution | src/main.rs:141 | an entry with status CURRENT is skipped by every sweep |
| Stats.ContributionAtMostTwo | src/main.rs:138-203 | one entry raises the counters by at most two in total |
| Stats.TallyBound | src/main.rs:128-206 | the six counters sum to at most twice the number of status entries |
| Stats.TallyNatural | src/main.rs:25-32 | every counter is non-negative, as the `u32` fields are |
| Stats.TallyIgnoresCurrent | src/main.rs:141 | dropping the CURRENT entries from the list changes no counter |
| Stats.AllCurrentIsZero | src/main.rs:128-206 | a list of only CURRENT entries leaves all six counters at zero |
| Stats.TallyAppend | src/main.rs:128-206 | the counts of a concatenated list are the sums of the counts of its parts |
| Stats.TallyPermutation | src/main.rs:128-206 | the counts do not depend on the order in which the status entries are listed |
| Display.Decimal | src/main.rs:67 | a positive counter is formatted as a non-empty run of decimal digits with no leading zero |
| Display.DecimalRoundTrip | src/main.rs:67-79 | reading back the digits written for a counter gives the counter |
| Display.Render | src/main.rs:60-84 | all counters zero gives exactly the green clean marker; non-zero counters that are all hidden give an empty summary |
| Display.RenderMarkers | src/main.rs:62-80 | the markers appear in the order clean (only when all six counters are zero), modified, new, deleted, renamed; each of the last four appears only when its counter is positive |
| Display.CleanIffTotal | src/main.rs:62-64 | the clean marker appears iff the six-way sum `Total` is zero |
| Display.CleanIff | src/main.rs:62-64 | the clean marker appears iff all six counters are zero |
| Display.SegmentMarkers | src/main.rs:66-79 | one counter's `write!` (`Segment`) shows its marker exactly when the counter is positive, and no other marker |
| Display.ReadSegmentOf | src/main.rs:66-79 | one counter's `write!` (`Segment`) parses back to the counter, and an absent segment reads as zero |
| Display.HiddenCountersAreNotShown | src/main.rs:66-80 | typechanged and ignored have no marker: two non-zero counter sets that agree on the four shown counters render the same |
| Display.ReadSegments | src/main.rs:66-80 | the four counter segments parse back to the modified, new, deleted and renamed counters |
| Display.ReadRender | src/main.rs:60-84 | a summary parses back to the clean flag and the four shown counters, so none of them can be mistaken for another |
| Branch.GetBranch | src/main.rs:115-126 | HEAD's shorthand name when it has one; the sentinel for a HEAD without a name, or for an error that `MissingHead` accepts (code UnbornBranch or NotFound, the guard at :118); any other lookup error passed on unchanged |
| Branch.GetBranchFailsIff | src/main.rs:116-122 | the lookup fails iff HEAD fails for a reason other than an unborn or missing branch, and the error is passed on as it came |
| Branch.NoBranchOrigin | src/main.rs:116-125 | the sentinel comes only from a HEAD without a name, an unborn or missing HEAD, or a branch that is literally so named |
| Description.Summary | src/main.rs:109-111 | the line starts with the branch name and one space |
| Description.Describe | src/main.rs:86-113 | checks in a fixed order: an open failure gives "failed to open: " and the path; a bare repository gives the bare message; a status failure gives "failed to fetch status: " and the error; a failed branch lookup gives nothing; otherwise the summary |
| Description.OmittedIff | src/main.rs:104-111 | a repository is left out iff it opens, is not bare, its status query succeeds, and its HEAD lookup fails for a reason other than an unborn or missing branch |
| Description.BareSkipsQueries | src/main.rs:92-93 | a bare repository's line depends on neither its status list nor its HEAD |
| Description.StatusFailureSkipsHead | src/main.rs:99-102 | a failed status query is reported whatever HEAD is |
| Description.SummaryReadsBack | src/main.rs:104-111 | at the token level, a summary line starts with the branch token, and its counter part reads back as the shown counters of exactly what `get_stats` counted |

## Left out

- `run`, `main` and `Opts` (src/main.rs:14-23, 208-252) are not modelled: the directory walk, reading the `.git` file name, logging, printing and the exit path are I/O.
- The `DONE` emoji and the "Done!" line (src/main.rs:12, 241) are output only.
- The git2 calls are not modelled: `Repository::open`, `is_bare`, `statuses` with its options, `head`, `shorthand` and `index_to_workdir`. Their outcomes are inputs of the model. The options (untracked files on, untracked directories recursed) are taken as given in the status list.
- The text that git2's `Error` writes through `Display` is not modelled; it is the `message` field of `GitError`, supplied as input.
- termion's colour escape sequences are not modelled as bytes; each becomes an opaque `Fg` token.
- The `fmt::Result` errors a formatter can return are not modelled; formatting into a `String` does not fail.
- Stats.RepoStats.AddModified, and the other five `add_*` methods: the counters are unbounded, so the `u32` overflow of `+= 1` is not modelled. One entry can raise the same counter twice (INDEX_MODIFIED at src/main.rs:147-148 and WT_MODIFIED at :173-174), so about 2^31 (two billion) status entries would be enough to overflow one.
- Display.Render: the six-way sum at src/main.rs:62 is a `u32` addition in the source; the model adds unbounded integers, so the overflow of that sum is not modelled. A wrapped sum of zero in a release build would print the clean marker next to the counter segments; it needs about 2^31 status entries.
- The status word has one boolean for each of the thirteen bits of git2's `Status`. WT_UNREADABLE and CONFLICTED are tested by no sweep, so they fall through all four. The numeric bit values are not modelled, because the code only tests bits by name.
- Description.Describe: the source runs `get_stats` even after the HEAD lookup has failed, then discards the counts. The model does not compute them in that case, which changes nothing observable.
