/**
 * The per-path status word of libgit2 and the three classifiers that
 * `get_stats` (src/main.rs) applies to it: the index chain, the worktree
 * chain and the exact-match filters for untracked and ignored paths.
 */
module GitStatus {
  import opened Wrappers

  /** One bit of a git2 `Status` word. */
  datatype Flag =
    | IndexNew | IndexModified | IndexDeleted | IndexRenamed | IndexTypechange
    | WtNew | WtModified | WtDeleted | WtTypechange | WtRenamed | WtUnreadable
    | Ignored | Conflicted

  /**
   * A status word: one boolean per bit, in the order git2 declares them.
   * `Contains` reads one bit, as `Status::contains` does.
   */
  datatype Status = Status(
    indexNew: bool, indexModified: bool, indexDeleted: bool, indexRenamed: bool,
    indexTypechange: bool, wtNew: bool, wtModified: bool, wtDeleted: bool,
    wtTypechange: bool, wtRenamed: bool, wtUnreadable: bool, ignored: bool,
    conflicted: bool)

  function Contains(s: Status, f: Flag): bool
  {
    match f
    case IndexNew => s.indexNew
    case IndexModified => s.indexModified
    case IndexDeleted => s.indexDeleted
    case IndexRenamed => s.indexRenamed
    case IndexTypechange => s.indexTypechange
    case WtNew => s.wtNew
    case WtModified => s.wtModified
    case WtDeleted => s.wtDeleted
    case WtTypechange => s.wtTypechange
    case WtRenamed => s.wtRenamed
    case WtUnreadable => s.wtUnreadable
    case Ignored => s.ignored
    case Conflicted => s.conflicted
  }

  /** git2's `Status::CURRENT` has no bit set: the path is unchanged. */
  const Current: Status :=
    Status(false, false, false, false, false, false, false, false, false, false, false, false, false)

  /** The status word with the one bit `f` set, such as `Status::WT_NEW`. */
  function Only(f: Flag): (s: Status)
    ensures Contains(s, f)
    ensures forall g :: g != f ==> !Contains(s, g)
  {
    match f
    case IndexNew => Status(true, false, false, false, false, false, false, false, false, false, false, false, false)
    case IndexModified => Status(false, true, false, false, false, false, false, false, false, false, false, false, false)
    case IndexDeleted => Status(false, false, true, false, false, false, false, false, false, false, false, false, false)
    case IndexRenamed => Status(false, false, false, true, false, false, false, false, false, false, false, false, false)
    case IndexTypechange => Status(false, false, false, false, true, false, false, false, false, false, false, false, false)
    case WtNew => Status(false, false, false, false, false, true, false, false, false, false, false, false, false)
    case WtModified => Status(false, false, false, false, false, false, true, false, false, false, false, false, false)
    case WtDeleted => Status(false, false, false, false, false, false, false, true, false, false, false, false, false)
    case WtTypechange => Status(false, false, false, false, false, false, false, false, true, false, false, false, false)
    case WtRenamed => Status(false, false, false, false, false, false, false, false, false, true, false, false, false)
    case WtUnreadable => Status(false, false, false, false, false, false, false, false, false, false, true, false, false)
    case Ignored => Status(false, false, false, false, false, false, false, false, false, false, false, true, false)
    case Conflicted => Status(false, false, false, false, false, false, false, false, false, false, false, false, true)
  }

  /**
   * One entry of the status list: its status word and whether libgit2
   * attached an index-to-workdir delta to it (`index_to_workdir()` is `Some`).
   */
  datatype Entry = Entry(status: Status, hasWorkdirDelta: bool)

  /** The six counters of `RepoStats`, one category each. */
  datatype Category = New | Modified | Deleted | Renamed | Typechanged | Ignored

  /** Position of a category in the first-match order of both chains. */
  function Rank(c: Category): nat
  {
    match c
    case New => 0
    case Modified => 1
    case Deleted => 2
    case Renamed => 3
    case Typechanged => 4
    case Ignored => 5
  }

  /** The two layers whose changes are tested by a priority chain. */
  datatype Layer = IndexLayer | WorktreeLayer

  /**
   * The flag whose presence selects category `c` in the chain of layer `l`,
   * if that chain has an arm for `c`. The worktree chain has no arm for
   * WT_NEW, and neither chain has one for ignored paths.
   */
  function LayerFlag(l: Layer, c: Category): Option<Flag>
  {
    match l
    case IndexLayer =>
      (match c
       case New => Some(IndexNew)
       case Modified => Some(IndexModified)
       case Deleted => Some(IndexDeleted)
       case Renamed => Some(IndexRenamed)
       case Typechanged => Some(IndexTypechange)
       case Ignored => None)
    case WorktreeLayer =>
      (match c
       case New => None
       case Modified => Some(WtModified)
       case Deleted => Some(WtDeleted)
       case Renamed => Some(WtRenamed)
       case Typechanged => Some(WtTypechange)
       case Ignored => None)
  }

  /** Status `s` carries the flag that layer `l` tests for category `c`. */
  predicate Selects(l: Layer, s: Status, c: Category)
  {
    LayerFlag(l, c).Some? && Contains(s, LayerFlag(l, c).value)
  }

  /**
   * Category `c` is the first arm of layer `l`'s chain that status `s`
   * matches: `s` carries its flag and none of the flags of earlier arms.
   */
  ghost predicate FirstMatch(l: Layer, s: Status, c: Category)
  {
    Selects(l, s, c) && forall c' :: Rank(c') < Rank(c) ==> !Selects(l, s, c')
  }

  /** Some arm of layer `l`'s chain matches status `s`. */
  ghost predicate Matches(l: Layer, s: Status)
  {
    exists c :: Selects(l, s, c)
  }

  /**
   * The index sweep of `get_stats`: skip unchanged entries, then take the
   * first of INDEX_NEW, INDEX_MODIFIED, INDEX_DELETED, INDEX_RENAMED,
   * INDEX_TYPECHANGE that the status carries.
   */
  function IndexCategory(s: Status): (r: Option<Category>)
    ensures r != Some(Category.Ignored)
  {
    if s == Current then None
    else if s.indexNew then Some(New)
    else if s.indexModified then Some(Modified)
    else if s.indexDeleted then Some(Deleted)
    else if s.indexRenamed then Some(Renamed)
    else if s.indexTypechange then Some(Typechanged)
    else None
  }

  /**
   * The worktree sweep of `get_stats`: skip unchanged entries and entries
   * without a workdir delta, then take the first of WT_MODIFIED, WT_DELETED,
   * WT_RENAMED, WT_TYPECHANGE that the status carries.
   */
  function WorktreeCategory(e: Entry): (r: Option<Category>)
    ensures r != Some(New) && r != Some(Category.Ignored)
  {
    var s := e.status;
    if s == Current || !e.hasWorkdirDelta then None
    else if s.wtModified then Some(Modified)
    else if s.wtDeleted then Some(Deleted)
    else if s.wtRenamed then Some(Renamed)
    else if s.wtTypechange then Some(Typechanged)
    else None
  }

  /** The untracked sweep: only a status of exactly WT_NEW counts, as new. */
  function UntrackedCategory(s: Status): Option<Category>
  {
    if s == Only(WtNew) then Some(New) else None
  }

  /** The ignored sweep: only a status of exactly IGNORED counts, as ignored. */
  function IgnoredCategory(s: Status): Option<Category>
  {
    if s == Only(Flag.Ignored) then Some(Category.Ignored) else None
  }

  /**
   * The untracked sweep compares the whole status word: it counts a path
   * carrying WT_NEW only when no other bit is set, and then only as new.
   */
  lemma UntrackedCategoryExact(s: Status)
    ensures UntrackedCategory(s).Some? <==>
      Contains(s, WtNew) && forall f :: f != WtNew ==> !Contains(s, f)
    ensures UntrackedCategory(s).Some? ==> UntrackedCategory(s) == Some(New)
  {
    if Contains(s, WtNew) && forall f :: f != WtNew ==> !Contains(s, f) {
      assert !s.indexNew && !s.indexModified && !s.indexDeleted && !s.indexRenamed && !s.indexTypechange by {
        assert !Contains(s, IndexNew) && !Contains(s, IndexModified) && !Contains(s, IndexDeleted);
        assert !Contains(s, IndexRenamed) && !Contains(s, IndexTypechange);
      }
      assert !s.wtModified && !s.wtDeleted && !s.wtTypechange && !s.wtRenamed by {
        assert !Contains(s, WtModified) && !Contains(s, WtDeleted) && !Contains(s, WtTypechange) && !Contains(s, WtRenamed);
      }
      assert !s.wtUnreadable && !s.ignored && !s.conflicted by {
        assert !Contains(s, WtUnreadable) && !Contains(s, Flag.Ignored) && !Contains(s, Conflicted);
      }
    }
  }

  /**
   * The ignored sweep compares the whole status word: it counts a path
   * carrying IGNORED only when no other bit is set, and then only as ignored.
   */
  lemma IgnoredCategoryExact(s: Status)
    ensures IgnoredCategory(s).Some? <==>
      Contains(s, Flag.Ignored) && forall f :: f != Flag.Ignored ==> !Contains(s, f)
    ensures IgnoredCategory(s).Some? ==> IgnoredCategory(s) == Some(Category.Ignored)
  {
    if Contains(s, Flag.Ignored) && forall f :: f != Flag.Ignored ==> !Contains(s, f) {
      assert !s.indexNew && !s.indexModified && !s.indexDeleted && !s.indexRenamed && !s.indexTypechange by {
        assert !Contains(s, IndexNew) && !Contains(s, IndexModified) && !Contains(s, IndexDeleted);
        assert !Contains(s, IndexRenamed) && !Contains(s, IndexTypechange);
      }
      assert !s.wtNew && !s.wtModified && !s.wtDeleted && !s.wtTypechange && !s.wtRenamed by {
        assert !Contains(s, WtNew) && !Contains(s, WtModified) && !Contains(s, WtDeleted);
        assert !Contains(s, WtTypechange) && !Contains(s, WtRenamed);
      }
      assert !s.wtUnreadable && !s.conflicted by {
        assert !Contains(s, WtUnreadable) && !Contains(s, Conflicted);
      }
    }
  }

  /** Which arms of the index chain a status selects: one flag per arm. */
  lemma IndexSelects(s: Status)
    ensures Selects(IndexLayer, s, New) == s.indexNew
    ensures Selects(IndexLayer, s, Modified) == s.indexModified
    ensures Selects(IndexLayer, s, Deleted) == s.indexDeleted
    ensures Selects(IndexLayer, s, Renamed) == s.indexRenamed
    ensures Selects(IndexLayer, s, Typechanged) == s.indexTypechange
    ensures !Selects(IndexLayer, s, Category.Ignored)
  {
  }

  /** Which arms of the worktree chain a status selects; there is no arm for new paths. */
  lemma WorktreeSelects(s: Status)
    ensures !Selects(WorktreeLayer, s, New)
    ensures Selects(WorktreeLayer, s, Modified) == s.wtModified
    ensures Selects(WorktreeLayer, s, Deleted) == s.wtDeleted
    ensures Selects(WorktreeLayer, s, Renamed) == s.wtRenamed
    ensures Selects(WorktreeLayer, s, Typechanged) == s.wtTypechange
    ensures !Selects(WorktreeLayer, s, Category.Ignored)
  {
  }

  /**
   * The index chain is a first-match classifier: it picks category `c`
   * exactly when `c`'s flag is the earliest one present in a changed entry.
   */
  lemma IndexCategoryIsFirstMatch(s: Status)
    ensures forall c :: IndexCategory(s) == Some(c) <==> s != Current && FirstMatch(IndexLayer, s, c)
  {
    IndexSelects(s);
  }

  /** The index chain picks nothing exactly when the entry is unchanged or carries no index flag. */
  lemma IndexCategoryNone(s: Status)
    ensures IndexCategory(s) == None <==> s == Current || !Matches(IndexLayer, s)
  {
    IndexSelects(s);
  }

  /**
   * The worktree chain is a first-match classifier over the entries that are
   * changed and carry a workdir delta; WT_NEW selects nothing in it.
   */
  lemma WorktreeCategoryIsFirstMatch(e: Entry)
    ensures forall c :: WorktreeCategory(e) == Some(c) <==>
      e.status != Current && e.hasWorkdirDelta && FirstMatch(WorktreeLayer, e.status, c)
  {
    WorktreeSelects(e.status);
  }

  /**
   * The worktree chain picks nothing exactly when the entry is unchanged,
   * has no workdir delta, or carries none of the four worktree flags.
   */
  lemma WorktreeCategoryNone(e: Entry)
    ensures WorktreeCategory(e) == None <==>
      e.status == Current || !e.hasWorkdirDelta || !Matches(WorktreeLayer, e.status)
  {
    WorktreeSelects(e.status);
  }
}
