/**
 * `RepoStats` and `get_stats` (src/main.rs): six counters, their `add_*`
 * methods, and the four sweeps that fill them from a status list.
 *
 * The counter the source calls `new` is called `added` here, because `new`
 * is a reserved word of Dafny.
 */
module Stats {
  import opened Wrappers
  import opened GitStatus

  /**
   * The value of a `RepoStats`: six unbounded counters. The fields are `int`,
   * unlike the `nat` fields of the class; `Natural` says that every counter
   * the model computes is non-negative.
   */
  datatype Counts = Counts(modified: int, added: int, deleted: int, renamed: int,
                           typechanged: int, ignored: int)

  predicate Natural(k: Counts)
  {
    k.modified >= 0 && k.added >= 0 && k.deleted >= 0 && k.renamed >= 0 &&
    k.typechanged >= 0 && k.ignored >= 0
  }

  const Zero := Counts(0, 0, 0, 0, 0, 0)

  /** Every one of the six counters is zero. */
  predicate AllZero(k: Counts)
  {
    k.modified == 0 && k.added == 0 && k.deleted == 0 && k.renamed == 0 &&
    k.typechanged == 0 && k.ignored == 0
  }

  /** The counter that category `c` increments. */
  function Get(k: Counts, c: Category): int
  {
    match c
    case New => k.added
    case Modified => k.modified
    case Deleted => k.deleted
    case Renamed => k.renamed
    case Typechanged => k.typechanged
    case Ignored => k.ignored
  }

  /** The six-way sum the renderer tests against zero. */
  function Total(k: Counts): int
  {
    k.modified + k.added + k.deleted + k.renamed + k.typechanged + k.ignored
  }

  function Plus(a: Counts, b: Counts): Counts
  {
    Counts(a.modified + b.modified, a.added + b.added, a.deleted + b.deleted,
           a.renamed + b.renamed, a.typechanged + b.typechanged, a.ignored + b.ignored)
  }

  lemma PlusZero(k: Counts)
    ensures Plus(k, Zero) == k && Plus(Zero, k) == k
  {
  }

  lemma PlusAssoc(a: Counts, b: Counts, c: Counts)
    ensures Plus(Plus(a, b), c) == Plus(a, Plus(b, c))
  {
  }

  lemma PlusComm(a: Counts, b: Counts)
    ensures Plus(a, b) == Plus(b, a)
  {
  }

  /** For non-negative counters, the six-way sum is zero exactly when every counter is. */
  lemma TotalZeroIff(k: Counts)
    requires Natural(k)
    ensures Total(k) == 0 <==> AllZero(k)
  {
  }

  lemma TotalPlus(a: Counts, b: Counts)
    ensures Total(Plus(a, b)) == Total(a) + Total(b)
  {
  }

  lemma PlusInterchange(a: Counts, b: Counts, c: Counts, d: Counts)
    ensures Plus(Plus(a, b), Plus(c, d)) == Plus(Plus(a, c), Plus(b, d))
  {
  }

  /** One increment of the counter of `c` and nothing else. */
  function Unit(c: Category): (r: Counts)
    ensures Get(r, c) == 1 && Total(r) == 1
    ensures forall c' :: c' != c ==> Get(r, c') == 0
  {
    match c
    case New => Counts(0, 1, 0, 0, 0, 0)
    case Modified => Counts(1, 0, 0, 0, 0, 0)
    case Deleted => Counts(0, 0, 1, 0, 0, 0)
    case Renamed => Counts(0, 0, 0, 1, 0, 0)
    case Typechanged => Counts(0, 0, 0, 0, 1, 0)
    case Ignored => Counts(0, 0, 0, 0, 0, 1)
  }

  /** What one classification adds to the counters: one increment or none. */
  function Effect(o: Option<Category>): (r: Counts)
    ensures Total(r) <= 1
    ensures o.None? <==> r == Zero
  {
    match o
    case None => Zero
    case Some(c) => Unit(c)
  }

  /** What the index sweep adds for entry `e`. */
  function IndexEffect(e: Entry): Counts
  {
    Effect(IndexCategory(e.status))
  }

  /** What the worktree sweep adds for entry `e`. */
  function WorktreeEffect(e: Entry): Counts
  {
    Effect(WorktreeCategory(e))
  }

  /** What the untracked sweep adds for entry `e`. */
  function UntrackedEffect(e: Entry): Counts
  {
    Effect(UntrackedCategory(e.status))
  }

  /** What the ignored sweep adds for entry `e`. */
  function IgnoredEffect(e: Entry): Counts
  {
    Effect(IgnoredCategory(e.status))
  }

  /** Adds up `f` over the entries `es`, taken in order. */
  function Fold(f: Entry -> Counts, es: seq<Entry>): Counts
    decreases |es|
  {
    if es == [] then Zero else Plus(Fold(f, es[..|es| - 1]), f(es[|es| - 1]))
  }

  /** Extending the list by one entry adds that entry's value. */
  lemma FoldSnoc(f: Entry -> Counts, es: seq<Entry>, i: nat)
    requires i < |es|
    ensures Fold(f, es[..i + 1]) == Plus(Fold(f, es[..i]), f(es[i]))
  {
    assert es[..i + 1][..i] == es[..i];
  }

  /** What a single entry adds over all four sweeps. */
  function Contribution(e: Entry): Counts
  {
    Plus(Plus(Plus(IndexEffect(e), WorktreeEffect(e)), UntrackedEffect(e)), IgnoredEffect(e))
  }

  /**
   * The functional specification of `get_stats`: a fold that classifies each
   * entry on its own and adds up what it contributes.
   */
  function Tally(es: seq<Entry>): Counts
  {
    Fold(Contribution, es)
  }

  /** A fold of a pointwise sum is the sum of the folds. */
  lemma {:induction false} FoldPlus(f: Entry -> Counts, g: Entry -> Counts, h: Entry -> Counts,
                                    es: seq<Entry>)
    requires forall e :: f(e) == Plus(g(e), h(e))
    ensures Fold(f, es) == Plus(Fold(g, es), Fold(h, es))
    decreases |es|
  {
    if es == [] {
      PlusZero(Zero);
    } else {
      var es', x := es[..|es| - 1], es[|es| - 1];
      FoldPlus(f, g, h, es');
      PlusInterchange(Fold(g, es'), Fold(h, es'), g(x), h(x));
    }
  }

  /** A fold is additive over a split of the list. */
  lemma {:induction false} FoldAppend(f: Entry -> Counts, a: seq<Entry>, b: seq<Entry>)
    ensures Fold(f, a + b) == Plus(Fold(f, a), Fold(f, b))
    decreases |b|
  {
    if b == [] {
      assert a + b == a;
      PlusZero(Fold(f, a));
    } else {
      var b', x := b[..|b| - 1], b[|b| - 1];
      assert (a + b)[..|a + b| - 1] == a + b';
      FoldAppend(f, a, b');
      PlusAssoc(Fold(f, a), Fold(f, b'), f(x));
    }
  }

  /** A fold does not depend on the order of the list. */
  lemma {:induction false} FoldPermutation(f: Entry -> Counts, a: seq<Entry>, b: seq<Entry>)
    requires multiset(a) == multiset(b)
    ensures Fold(f, a) == Fold(f, b)
    decreases |a|
  {
    if a == [] {
      assert |b| == |multiset(b)| == 0;
    } else {
      var x := a[|a| - 1];
      var a' := a[..|a| - 1];
      assert a == a' + [x];
      assert x in multiset(b);
      var k :| 0 <= k < |b| && b[k] == x;
      var b1, b2 := b[..k], b[k + 1..];
      assert b == (b1 + [x]) + b2;
      MultisetRemove(a', x, b1, b2);
      FoldPermutation(f, a', b1 + b2);
      FoldMoveLast(f, b1, x, b2);
    }
  }

  /** Taking the same element out of two equal multisets. */
  lemma MultisetRemove(a: seq<Entry>, x: Entry, b1: seq<Entry>, b2: seq<Entry>)
    requires multiset(a + [x]) == multiset((b1 + [x]) + b2)
    ensures multiset(a) == multiset(b1 + b2)
  {
    assert multiset(a + [x]) == multiset(a) + multiset{x};
    assert multiset((b1 + [x]) + b2) == multiset(b1) + multiset{x} + multiset(b2);
    assert multiset(b1 + b2) == multiset(b1) + multiset(b2);
    assert multiset(a) == multiset(a + [x]) - multiset{x};
    assert multiset(b1 + b2) == multiset((b1 + [x]) + b2) - multiset{x};
  }

  /** Moving one entry of a list to its end does not change the fold. */
  lemma FoldMoveLast(f: Entry -> Counts, b1: seq<Entry>, x: Entry, b2: seq<Entry>)
    ensures Fold(f, (b1 + [x]) + b2) == Plus(Fold(f, b1 + b2), f(x))
  {
    FoldAppend(f, b1, b2);
    FoldAppend(f, b1 + [x], b2);
    FoldAppend(f, b1, [x]);
    assert [x][..0] == [];
    PlusZero(f(x));
    var g1, g2 := Fold(f, b1), Fold(f, b2);
    calc {
      Fold(f, (b1 + [x]) + b2);
      Plus(Plus(g1, f(x)), g2);
      { PlusAssoc(g1, f(x), g2); PlusComm(f(x), g2); PlusAssoc(g1, g2, f(x)); }
      Plus(Plus(g1, g2), f(x));
      Plus(Fold(f, b1 + b2), f(x));
    }
  }

  /** A fold of non-negative values is non-negative. */
  lemma {:induction false} FoldNatural(f: Entry -> Counts, es: seq<Entry>)
    requires forall e :: Natural(f(e))
    ensures Natural(Fold(f, es))
    decreases |es|
  {
    if es != [] {
      FoldNatural(f, es[..|es| - 1]);
    }
  }

  /** A fold of increments of at most `k` each is at most `k` per element. */
  lemma {:induction false} FoldBound(f: Entry -> Counts, k: nat, es: seq<Entry>)
    requires forall e :: Total(f(e)) <= k
    ensures Total(Fold(f, es)) <= k * |es|
    decreases |es|
  {
    if es != [] {
      FoldBound(f, k, es[..|es| - 1]);
      assert k * |es| == k * (|es| - 1) + k;
    }
  }

  /** The four sweeps, run one after the other, add up to the per-entry fold. */
  lemma SweepsAreTally(es: seq<Entry>)
    ensures Plus(Plus(Plus(Fold(IndexEffect, es), Fold(WorktreeEffect, es)),
                      Fold(UntrackedEffect, es)),
                 Fold(IgnoredEffect, es)) == Tally(es)
  {
    var fiw := e => Plus(IndexEffect(e), WorktreeEffect(e));
    var fiwu := e => Plus(fiw(e), UntrackedEffect(e));
    FoldPlus(fiw, IndexEffect, WorktreeEffect, es);
    FoldPlus(fiwu, fiw, UntrackedEffect, es);
    FoldPlus(Contribution, fiwu, IgnoredEffect, es);
  }

  lemma EffectNatural(o: Option<Category>)
    ensures Natural(Effect(o))
  {
    if o.Some? {
      assert Effect(o) == Unit(o.value);
    }
  }

  lemma PlusNatural(a: Counts, b: Counts)
    requires Natural(a) && Natural(b)
    ensures Natural(Plus(a, b))
  {
  }

  /** Every counter of the per-entry fold is non-negative, as the source's `u32` fields are. */
  lemma TallyNatural(es: seq<Entry>)
    ensures Natural(Tally(es))
  {
    forall e ensures Natural(Contribution(e)) {
      EffectNatural(IndexCategory(e.status));
      EffectNatural(WorktreeCategory(e));
      EffectNatural(UntrackedCategory(e.status));
      EffectNatural(IgnoredCategory(e.status));
      PlusNatural(IndexEffect(e), WorktreeEffect(e));
      PlusNatural(Plus(IndexEffect(e), WorktreeEffect(e)), UntrackedEffect(e));
      PlusNatural(Plus(Plus(IndexEffect(e), WorktreeEffect(e)), UntrackedEffect(e)), IgnoredEffect(e));
    }
    FoldNatural(Contribution, es);
  }

  /** Counting is additive over a split of the status list. */
  lemma TallyAppend(a: seq<Entry>, b: seq<Entry>)
    ensures Tally(a + b) == Plus(Tally(a), Tally(b))
  {
    FoldAppend(Contribution, a, b);
  }

  /** The counts do not depend on the order in which libgit2 lists the entries. */
  lemma TallyPermutation(a: seq<Entry>, b: seq<Entry>)
    requires multiset(a) == multiset(b)
    ensures Tally(a) == Tally(b)
  {
    FoldPermutation(Contribution, a, b);
  }

  /** What each of the four sweeps selects for an entry of exactly WT_NEW: only the untracked sweep counts it. */
  lemma UntrackedEntryCategories(e: Entry)
    requires e.status == Only(WtNew)
    ensures IndexCategory(e.status) == None && WorktreeCategory(e) == None
    ensures UntrackedCategory(e.status) == Some(New) && IgnoredCategory(e.status) == None
  {
    assert IndexCategory(e.status) == None;
    assert WorktreeCategory(e) == None;
    assert UntrackedCategory(e.status) == Some(New);
    assert IgnoredCategory(e.status) == None by {
      assert Only(Flag.Ignored).ignored;
    }
  }

  /** An entry of exactly WT_NEW is counted once, as new, by the untracked sweep only. */
  lemma UntrackedEntryContribution(e: Entry)
    requires e.status == Only(WtNew)
    ensures Contribution(e) == Unit(New)
  {
    UntrackedEntryCategories(e);
    SumWithLoneUntrackedEffect(Some(New));
  }

  /** What each of the four sweeps selects for a tracked file modified in the worktree only. */
  lemma EditedFileCategories(e: Entry)
    requires e.status == Only(WtModified) && e.hasWorkdirDelta
    ensures IndexCategory(e.status) == None && WorktreeCategory(e) == Some(Category.Modified)
    ensures UntrackedCategory(e.status) == None && IgnoredCategory(e.status) == None
  {
    assert IndexCategory(e.status) == None;
    assert WorktreeCategory(e) == Some(Category.Modified);
    assert UntrackedCategory(e.status) == None by {
      assert Only(WtNew).wtNew;
    }
    assert IgnoredCategory(e.status) == None by {
      assert Only(Flag.Ignored).ignored;
    }
  }

  /** A tracked file modified in the worktree only is counted once, as modified. */
  lemma EditedFileContribution(e: Entry)
    requires e.status == Only(WtModified) && e.hasWorkdirDelta
    ensures Contribution(e) == Unit(Category.Modified)
  {
    EditedFileCategories(e);
    SumWithLoneWorktreeEffect(Some(Category.Modified));
  }

  /** What each of the four sweeps selects for an entry of exactly IGNORED: only the ignored sweep counts it. */
  lemma IgnoredEntryCategories(e: Entry)
    requires e.status == Only(Flag.Ignored)
    ensures IndexCategory(e.status) == None && WorktreeCategory(e) == None
    ensures UntrackedCategory(e.status) == None && IgnoredCategory(e.status) == Some(Category.Ignored)
  {
    assert IndexCategory(e.status) == None;
    assert WorktreeCategory(e) == None;
    assert UntrackedCategory(e.status) == None by {
      assert Only(WtNew).wtNew;
    }
    assert IgnoredCategory(e.status) == Some(Category.Ignored);
  }

  /** An entry of exactly IGNORED is counted once, as ignored, by the ignored sweep only. */
  lemma IgnoredEntryContribution(e: Entry)
    requires e.status == Only(Flag.Ignored)
    ensures Contribution(e) == Unit(Category.Ignored)
  {
    IgnoredEntryCategories(e);
    SumWithLoneIgnoredEffect(Some(Category.Ignored));
  }

  /** Any other entry is counted at most once by each of the index and worktree sweeps. */
  lemma TrackedEntryContribution(e: Entry)
    requires e.status != Only(WtNew) && e.status != Only(Flag.Ignored)
    ensures Contribution(e) == Plus(IndexEffect(e), WorktreeEffect(e))
  {
    assert UntrackedEffect(e) == Zero && IgnoredEffect(e) == Zero;
    PlusZero(Plus(IndexEffect(e), WorktreeEffect(e)));
  }

  /** What each of the four sweeps selects for an unchanged entry: none of them counts it. */
  lemma CurrentEntryCategories(e: Entry)
    requires e.status == Current
    ensures IndexCategory(e.status) == None && WorktreeCategory(e) == None
    ensures UntrackedCategory(e.status) == None && IgnoredCategory(e.status) == None
  {
    assert IndexCategory(e.status) == None;
    assert WorktreeCategory(e) == None;
    assert UntrackedCategory(e.status) == None by {
      assert Only(WtNew).wtNew;
    }
    assert IgnoredCategory(e.status) == None by {
      assert Only(Flag.Ignored).ignored;
    }
  }

  /** An unchanged entry is skipped by all four sweeps. */
  lemma CurrentEntryContribution(e: Entry)
    requires e.status == Current
    ensures Contribution(e) == Zero
  {
    CurrentEntryCategories(e);
    SumWithLoneIgnoredEffect(None);
  }

  /*
   * An entry's contribution when only one of the four sweeps selects
   * something: the sum is that sweep's effect alone.
   */

  lemma SumWithLoneWorktreeEffect(o: Option<Category>)
    ensures Plus(Plus(Plus(Effect(None), Effect(o)), Effect(None)), Effect(None)) == Effect(o)
  {
    PlusZero(Effect(o));
  }

  lemma SumWithLoneUntrackedEffect(o: Option<Category>)
    ensures Plus(Plus(Plus(Effect(None), Effect(None)), Effect(o)), Effect(None)) == Effect(o)
  {
    PlusZero(Zero);
    PlusZero(Effect(o));
  }

  lemma SumWithLoneIgnoredEffect(o: Option<Category>)
    ensures Plus(Plus(Plus(Effect(None), Effect(None)), Effect(None)), Effect(o)) == Effect(o)
  {
    PlusZero(Zero);
    PlusZero(Effect(o));
  }

  /** Each entry is counted at most twice: once per tracked sweep, or once by an exact-match sweep. */
  lemma ContributionAtMostTwo(e: Entry)
    ensures Total(Contribution(e)) <= 2
  {
    if e.status == Only(WtNew) {
      UntrackedEntryContribution(e);
    } else if e.status == Only(Flag.Ignored) {
      IgnoredEntryContribution(e);
    } else {
      TrackedEntryContribution(e);
      TotalPlus(IndexEffect(e), WorktreeEffect(e));
    }
  }

  /** No more than two increments per entry: the counters sum to at most twice the list length. */
  lemma TallyBound(es: seq<Entry>)
    ensures Total(Tally(es)) <= 2 * |es|
  {
    forall e ensures Total(Contribution(e)) <= 2 {
      ContributionAtMostTwo(e);
    }
    FoldBound(Contribution, 2, es);
  }

  /** The entries that are not exactly `CURRENT`. */
  function Changed(es: seq<Entry>): (r: seq<Entry>)
    ensures |r| <= |es|
    ensures forall e :: e in r <==> e in es && e.status != Current
    decreases |es|
  {
    if es == [] then []
    else if es[|es| - 1].status == Current then Changed(es[..|es| - 1])
    else Changed(es[..|es| - 1]) + [es[|es| - 1]]
  }

  /** Unchanged entries contribute nothing: dropping them keeps every counter. */
  lemma {:induction false} TallyIgnoresCurrent(es: seq<Entry>)
    ensures Tally(Changed(es)) == Tally(es)
    decreases |es|
  {
    if es != [] {
      var es' := es[..|es| - 1];
      var x := es[|es| - 1];
      TallyIgnoresCurrent(es');
      if x.status != Current {
        TallyAppend(Changed(es'), [x]);
        assert [x][..0] == [];
        PlusZero(Contribution(x));
      } else {
        CurrentEntryContribution(x);
        PlusZero(Tally(es'));
      }
    }
  }

  /** A list of unchanged entries leaves every counter at zero. */
  lemma {:induction false} AllCurrentIsZero(es: seq<Entry>)
    requires forall i :: 0 <= i < |es| ==> es[i].status == Current
    ensures Tally(es) == Zero
    decreases |es|
  {
    if es != [] {
      var es', x := es[..|es| - 1], es[|es| - 1];
      calc {
        Tally(es);
        Plus(Tally(es'), Contribution(x));
        { CurrentEntryContribution(x); }
        Plus(Tally(es'), Zero);
        { PlusZero(Tally(es')); }
        Tally(es');
        { AllCurrentIsZero(es'); }
        Zero;
      }
    }
  }


  /** The number of entries whose status word is exactly `s`. */
  function Occurrences(es: seq<Entry>, s: Status): (n: nat)
    ensures n <= |es|
    decreases |es|
  {
    if es == [] then 0
    else Occurrences(es[..|es| - 1], s) + (if es[|es| - 1].status == s then 1 else 0)
  }

  /** The untracked sweep adds to `new` once per entry whose status is exactly WT_NEW, and touches nothing else. */
  lemma {:induction false} UntrackedSweepCounts(es: seq<Entry>)
    ensures Fold(UntrackedEffect, es) == Zero.(added := Occurrences(es, Only(WtNew)))
    decreases |es|
  {
    if es != [] {
      var es', x := es[..|es| - 1], es[|es| - 1];
      var n := Occurrences(es', Only(WtNew));
      var k := if x.status == Only(WtNew) then 1 else 0;
      calc {
        Fold(UntrackedEffect, es);
        Plus(Fold(UntrackedEffect, es'), UntrackedEffect(x));
        { UntrackedSweepCounts(es'); UntrackedStep(x); }
        Plus(Zero.(added := n), Zero.(added := k));
        Zero.(added := n + k);
      }
    }
  }

  lemma UntrackedStep(x: Entry)
    ensures UntrackedEffect(x) == Zero.(added := if x.status == Only(WtNew) then 1 else 0)
  {
    if x.status == Only(WtNew) {
      assert UntrackedCategory(x.status) == Some(New);
    } else {
      assert UntrackedCategory(x.status) == None;
    }
  }

  /** The ignored sweep adds to `ignored` once per entry whose status is exactly IGNORED, and touches nothing else. */
  lemma {:induction false} IgnoredSweepCounts(es: seq<Entry>)
    ensures Fold(IgnoredEffect, es) == Zero.(ignored := Occurrences(es, Only(Flag.Ignored)))
    decreases |es|
  {
    if es != [] {
      var es', x := es[..|es| - 1], es[|es| - 1];
      var n := Occurrences(es', Only(Flag.Ignored));
      var k := if x.status == Only(Flag.Ignored) then 1 else 0;
      calc {
        Fold(IgnoredEffect, es);
        Plus(Fold(IgnoredEffect, es'), IgnoredEffect(x));
        { IgnoredSweepCounts(es'); IgnoredStep(x); }
        Plus(Zero.(ignored := n), Zero.(ignored := k));
        Zero.(ignored := n + k);
      }
    }
  }

  lemma IgnoredStep(x: Entry)
    ensures IgnoredEffect(x) == Zero.(ignored := if x.status == Only(Flag.Ignored) then 1 else 0)
  {
    if x.status == Only(Flag.Ignored) {
      assert IgnoredCategory(x.status) == Some(Category.Ignored);
    } else {
      assert IgnoredCategory(x.status) == None;
    }
  }

  /**
   * The mutable `RepoStats` of the source: six counters that the `add_*`
   * methods increment one at a time.
   */
  class RepoStats {
    var modified: nat
    var added: nat
    var deleted: nat
    var renamed: nat
    var typechanged: nat
    var ignored: nat

    /** The struct literal `get_stats` starts from: every counter zero. */
    constructor ()
      ensures Value() == Zero
    {
      modified, added, deleted, renamed, typechanged, ignored := 0, 0, 0, 0, 0, 0;
    }

    /** The counters as a value. */
    function Value(): Counts
      reads this
    {
      Counts(modified, added, deleted, renamed, typechanged, ignored)
    }

    method AddModified()
      modifies this
      ensures Value() == Plus(old(Value()), Unit(Modified))
    {
      modified := modified + 1;
    }

    method AddNew()
      modifies this
      ensures Value() == Plus(old(Value()), Unit(New))
    {
      added := added + 1;
    }

    method AddDeleted()
      modifies this
      ensures Value() == Plus(old(Value()), Unit(Deleted))
    {
      deleted := deleted + 1;
    }

    method AddRenamed()
      modifies this
      ensures Value() == Plus(old(Value()), Unit(Renamed))
    {
      renamed := renamed + 1;
    }

    method AddTypechanged()
      modifies this
      ensures Value() == Plus(old(Value()), Unit(Typechanged))
    {
      typechanged := typechanged + 1;
    }

    method AddIgnored()
      modifies this
      ensures Value() == Plus(old(Value()), Unit(Category.Ignored))
    {
      ignored := ignored + 1;
    }
  }

  /**
   * The first loop of `get_stats`: for every changed entry, increment the
   * counter of the first index flag it carries.
   */
  method SweepIndex(stats: RepoStats, entries: seq<Entry>)
    modifies stats
    ensures stats.Value() == Plus(old(stats.Value()), Fold(IndexEffect, entries))
  {
    ghost var start := stats.Value();
    assert entries[..0] == [];
    PlusZero(start);
    for i := 0 to |entries|
      invariant stats.Value() == Plus(start, Fold(IndexEffect, entries[..i]))
    {
      FoldSnoc(IndexEffect, entries, i);
      ghost var sweep := Fold(IndexEffect, entries[..i]);
      PlusAssoc(start, sweep, IndexEffect(entries[i]));
      var s := entries[i].status;
      if s != Current {
        if s.indexNew {
          assert IndexCategory(s) == Some(New);
          stats.AddNew();
        } else if s.indexModified {
          assert IndexCategory(s) == Some(Modified);
          stats.AddModified();
        } else if s.indexDeleted {
          assert IndexCategory(s) == Some(Deleted);
          stats.AddDeleted();
        } else if s.indexRenamed {
          assert IndexCategory(s) == Some(Renamed);
          stats.AddRenamed();
        } else if s.indexTypechange {
          assert IndexCategory(s) == Some(Typechanged);
          stats.AddTypechanged();
        } else {
          assert IndexCategory(s) == None;
          PlusZero(stats.Value());
          PlusZero(sweep);
        }
      } else {
        assert IndexCategory(s) == None;
        PlusZero(stats.Value());
        PlusZero(sweep);
      }
    }
    assert entries[..|entries|] == entries;
  }

  /**
   * The second loop of `get_stats`: for every changed entry with a workdir
   * delta, increment the counter of the first worktree flag it carries.
   */
  method SweepWorktree(stats: RepoStats, entries: seq<Entry>)
    modifies stats
    ensures stats.Value() == Plus(old(stats.Value()), Fold(WorktreeEffect, entries))
  {
    ghost var start := stats.Value();
    assert entries[..0] == [];
    PlusZero(start);
    for i := 0 to |entries|
      invariant stats.Value() == Plus(start, Fold(WorktreeEffect, entries[..i]))
    {
      FoldSnoc(WorktreeEffect, entries, i);
      ghost var sweep := Fold(WorktreeEffect, entries[..i]);
      PlusAssoc(start, sweep, WorktreeEffect(entries[i]));
      var s := entries[i].status;
      if s == Current || !entries[i].hasWorkdirDelta {
        assert WorktreeCategory(entries[i]) == None;
        PlusZero(stats.Value());
        PlusZero(sweep);
        continue;
      }
      if s.wtModified {
        assert WorktreeCategory(entries[i]) == Some(Modified);
        stats.AddModified();
      } else if s.wtDeleted {
        assert WorktreeCategory(entries[i]) == Some(Deleted);
        stats.AddDeleted();
      } else if s.wtRenamed {
        assert WorktreeCategory(entries[i]) == Some(Renamed);
        stats.AddRenamed();
      } else if s.wtTypechange {
        assert WorktreeCategory(entries[i]) == Some(Typechanged);
        stats.AddTypechanged();
      } else {
        assert WorktreeCategory(entries[i]) == None;
        PlusZero(stats.Value());
        PlusZero(sweep);
      }
    }
    assert entries[..|entries|] == entries;
  }

  /** The third loop of `get_stats`: count the entries that are exactly WT_NEW as new. */
  method SweepUntracked(stats: RepoStats, entries: seq<Entry>)
    modifies stats
    ensures stats.Value() == Plus(old(stats.Value()), Fold(UntrackedEffect, entries))
  {
    ghost var start := stats.Value();
    assert entries[..0] == [];
    PlusZero(start);
    for i := 0 to |entries|
      invariant stats.Value() == Plus(start, Fold(UntrackedEffect, entries[..i]))
    {
      FoldSnoc(UntrackedEffect, entries, i);
      ghost var sweep := Fold(UntrackedEffect, entries[..i]);
      PlusAssoc(start, sweep, UntrackedEffect(entries[i]));
      if entries[i].status == Only(WtNew) {
        assert UntrackedCategory(entries[i].status) == Some(New);
        assert UntrackedEffect(entries[i]) == Unit(New);
        stats.AddNew();
      } else {
        assert UntrackedCategory(entries[i].status) == None;
        assert UntrackedEffect(entries[i]) == Zero;
        PlusZero(stats.Value());
        PlusZero(sweep);
      }
    }
    assert entries[..|entries|] == entries;
  }

  /** The fourth loop of `get_stats`: count the entries that are exactly IGNORED as ignored. */
  method SweepIgnored(stats: RepoStats, entries: seq<Entry>)
    modifies stats
    ensures stats.Value() == Plus(old(stats.Value()), Fold(IgnoredEffect, entries))
  {
    ghost var start := stats.Value();
    assert entries[..0] == [];
    PlusZero(start);
    for i := 0 to |entries|
      invariant stats.Value() == Plus(start, Fold(IgnoredEffect, entries[..i]))
    {
      FoldSnoc(IgnoredEffect, entries, i);
      ghost var sweep := Fold(IgnoredEffect, entries[..i]);
      PlusAssoc(start, sweep, IgnoredEffect(entries[i]));
      if entries[i].status == Only(Flag.Ignored) {
        assert IgnoredCategory(entries[i].status) == Some(Category.Ignored);
        assert IgnoredEffect(entries[i]) == Unit(Category.Ignored);
        stats.AddIgnored();
      } else {
        assert IgnoredCategory(entries[i].status) == None;
        assert IgnoredEffect(entries[i]) == Zero;
        PlusZero(stats.Value());
        PlusZero(sweep);
      }
    }
    assert entries[..|entries|] == entries;
  }

  /**
   * `get_stats`: the four sweeps, one after the other, over a fresh
   * `RepoStats`, whose counters are handed back by value. The result is the
   * per-entry fold `Tally`.
   */
  method GetStats(entries: seq<Entry>) returns (c: Counts)
    ensures c == Tally(entries)
  {
    var stats := new RepoStats();
    SweepIndex(stats, entries);
    PlusZero(Fold(IndexEffect, entries));
    SweepWorktree(stats, entries);
    SweepUntracked(stats, entries);
    SweepIgnored(stats, entries);
    SweepsAreTally(entries);
    c := stats.Value();
  }
}
