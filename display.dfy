/**
 * `impl fmt::Display for RepoStats` (src/main.rs): the one-line summary of
 * the counters. Colour escapes of termion are kept as opaque `Fg` tokens;
 * everything the formatter writes otherwise is a `Text` token.
 */
module Display {
  import opened Wrappers
  import opened Stats

  /** The four termion foreground colours the summary uses. */
  datatype Color = Green | Blue | Red | White

  datatype Token = Fg(color: Color) | Text(text: string)

  const Clean: string := " ✔ "
  const ModifiedMark: string := " ✹ "
  const NewMark: string := " ✚ "
  const DeletedMark: string := " ✖ "
  const RenamedMark: string := " ➜ "

  /** The five markers the summary can contain. */
  predicate IsMark(t: string)
  {
    t == Clean || t == ModifiedMark || t == NewMark || t == DeletedMark || t == RenamedMark
  }

  predicate IsDigit(ch: char)
  {
    '0' <= ch <= '9'
  }

  /** A non-empty run of decimal digits. */
  predicate IsNumeral(s: string)
  {
    |s| > 0 && forall i :: 0 <= i < |s| ==> IsDigit(s[i])
  }

  function DigitChar(d: nat): (ch: char)
    requires d < 10
    ensures IsDigit(ch) && ch as int - '0' as int == d
  {
    (d + '0' as int) as char
  }

  /** How `{}` formats an unsigned counter: its decimal digits, most significant first. */
  function Decimal(n: nat): (s: string)
    ensures IsNumeral(s)
    ensures n > 0 ==> s[0] != '0'
    decreases n
  {
    if n < 10 then [DigitChar(n)] else Decimal(n / 10) + [DigitChar(n % 10)]
  }

  /** The number a run of decimal digits denotes. */
  function ValueOf(s: string): nat
    requires IsNumeral(s) || s == []
    decreases |s|
  {
    if s == [] then 0
    else ValueOf(s[..|s| - 1]) * 10 + (s[|s| - 1] as int - '0' as int)
  }

  /** Reading back a formatted counter gives the counter. */
  lemma {:induction false} DecimalRoundTrip(n: nat)
    ensures ValueOf(Decimal(n)) == n
    decreases n
  {
    var s := Decimal(n);
    if n >= 10 {
      DecimalRoundTrip(n / 10);
      assert s[..|s| - 1] == Decimal(n / 10);
    }
  }

  /** A numeral is never one of the markers: every marker starts with a space. */
  lemma NumeralIsNotMark(s: string)
    requires IsNumeral(s)
    ensures !IsMark(s)
  {
    assert IsDigit(s[0]);
    assert Clean[0] == ModifiedMark[0] == NewMark[0] == DeletedMark[0] == RenamedMark[0] == ' ';
  }

  /** One `write!` of a counter: colour, marker and number, only when the counter is positive. */
  function Segment(n: int, c: Color, mark: string): seq<Token>
  {
    if n > 0 then [Fg(c), Text(mark), Text(Decimal(n))] else []
  }

  /** The segments of the four shown counters: modified, new, deleted, renamed. */
  function Segments(k: Counts): seq<Token>
  {
    Segment(k.modified, Blue, ModifiedMark)
    + (Segment(k.added, Green, NewMark)
       + (Segment(k.deleted, Red, DeletedMark)
          + Segment(k.renamed, White, RenamedMark)))
  }

  /**
   * The summary of counters `k`: the green clean marker when all six counters
   * are zero, then modified, new, deleted and renamed, each only when positive.
   */
  function Render(k: Counts): (r: seq<Token>)
    requires Natural(k)
    ensures Total(k) == 0 ==> r == [Fg(Green), Text(Clean)]
    ensures Total(k) != 0 && k.modified == 0 && k.added == 0 && k.deleted == 0 && k.renamed == 0 ==> r == []
  {
    (if Total(k) == 0 then [Fg(Green), Text(Clean)] else []) + Segments(k)
  }

  /** The markers of a token sequence, in the order they appear. */
  function Markers(ts: seq<Token>): (r: seq<string>)
    ensures forall i :: 0 <= i < |r| ==> IsMark(r[i])
    decreases |ts|
  {
    if ts == [] then []
    else
      var last := ts[|ts| - 1];
      Markers(ts[..|ts| - 1]) + (if last.Text? && IsMark(last.text) then [last.text] else [])
  }

  lemma {:induction false} MarkersAppend(a: seq<Token>, b: seq<Token>)
    ensures Markers(a + b) == Markers(a) + Markers(b)
    decreases |b|
  {
    if b == [] {
      assert a + b == a;
    } else {
      assert (a + b)[..|a + b| - 1] == a + b[..|b| - 1];
      MarkersAppend(a, b[..|b| - 1]);
    }
  }

  lemma SegmentMarkers(n: int, c: Color, mark: string)
    requires IsMark(mark)
    ensures Markers(Segment(n, c, mark)) == if n > 0 then [mark] else []
  {
    if n > 0 {
      var ts := Segment(n, c, mark);
      NumeralIsNotMark(Decimal(n));
      assert ts[..2] == [Fg(c), Text(mark)];
      assert ts[..2][..1] == [Fg(c)];
      assert [Fg(c)][..0] == [];
      calc {
        Markers(ts);
        Markers(ts[..2]);
        Markers(ts[..2][..1]) + [mark];
        Markers([Fg(c)][..0]) + [mark];
        [mark];
      }
    }
  }

  /** The markers the four shown counters call for: one per positive counter, in order. */
  function ShownMarkers(k: Counts): seq<string>
  {
    (if k.modified > 0 then [ModifiedMark] else [])
    + ((if k.added > 0 then [NewMark] else [])
       + ((if k.deleted > 0 then [DeletedMark] else [])
          + (if k.renamed > 0 then [RenamedMark] else [])))
  }

  lemma SegmentsMarkers(k: Counts)
    ensures Markers(Segments(k)) == ShownMarkers(k)
  {
    var s1 := Segment(k.modified, Blue, ModifiedMark);
    var s2 := Segment(k.added, Green, NewMark);
    var s3 := Segment(k.deleted, Red, DeletedMark);
    var s4 := Segment(k.renamed, White, RenamedMark);
    MarkersAppend(s1, s2 + (s3 + s4));
    MarkersAppend(s2, s3 + s4);
    MarkersAppend(s3, s4);
    SegmentMarkers(k.modified, Blue, ModifiedMark);
    SegmentMarkers(k.added, Green, NewMark);
    SegmentMarkers(k.deleted, Red, DeletedMark);
    SegmentMarkers(k.renamed, White, RenamedMark);
  }

  /**
   * The markers of the summary, in order: clean exactly when all six counters
   * are zero, then one marker for each positive counter among modified, new,
   * deleted and renamed. Typechanged and ignored have no marker of their own.
   */
  lemma RenderMarkers(k: Counts)
    requires Natural(k)
    ensures Markers(Render(k)) == (if Total(k) == 0 then [Clean] else []) + ShownMarkers(k)
  {
    var head: seq<Token> := if Total(k) == 0 then [Fg(Green), Text(Clean)] else [];
    assert Markers(head) == if Total(k) == 0 then [Clean] else [] by {
      if Total(k) == 0 {
        assert head[..1] == [Fg(Green)];
        assert Markers([Fg(Green)][..0]) == [];
      }
    }
    MarkersAppend(head, Segments(k));
    SegmentsMarkers(k);
  }

  /** The clean marker appears exactly when all six counters are zero. */
  lemma CleanIff(k: Counts)
    requires Natural(k)
    ensures Clean in Markers(Render(k)) <==> AllZero(k)
  {
    CleanIffTotal(k);
    TotalZeroIff(k);
  }

  /** The clean marker appears exactly when the six-way sum is zero. */
  lemma CleanIffTotal(k: Counts)
    requires Natural(k)
    ensures Clean in Markers(Render(k)) <==> Total(k) == 0
  {
    RenderMarkers(k);
  }

  /**
   * Typechanged and ignored only ever decide whether the clean marker is
   * written: two counter sets that are both non-zero and agree on the four
   * shown counters render the same.
   */
  lemma HiddenCountersAreNotShown(k: Counts, k': Counts)
    requires Natural(k) && Natural(k')
    requires Total(k) != 0 && Total(k') != 0
    requires k.modified == k'.modified && k.added == k'.added
    requires k.deleted == k'.deleted && k.renamed == k'.renamed
    ensures Render(k) == Render(k')
  {
  }

  /** What a reader of the summary can recover from it. */
  datatype Shown = Shown(clean: bool, modified: int, added: int, deleted: int, renamed: int)

  /** The shown part of counters `k`. */
  function ShownOf(k: Counts): Shown
  {
    Shown(Total(k) == 0, k.modified, k.added, k.deleted, k.renamed)
  }

  /**
   * Reads one optional segment at the front of `ts`: colour `c`, marker
   * `mark` and a numeral. Returns the number (0 when the segment is absent)
   * and the tokens after it.
   */
  function ReadSegment(ts: seq<Token>, c: Color, mark: string): (r: (nat, seq<Token>))
    ensures |r.1| <= |ts|
  {
    if |ts| >= 3 && ts[0] == Fg(c) && ts[1] == Text(mark) && ts[2].Text? && IsNumeral(ts[2].text)
    then (ValueOf(ts[2].text), ts[3..])
    else (0, ts)
  }

  /** Reads the four counter segments, in order, and requires nothing after them. */
  function ReadCounters(ts: seq<Token>): Option<(nat, nat, nat, nat)>
  {
    var (m, r1) := ReadSegment(ts, Blue, ModifiedMark);
    var (a, r2) := ReadSegment(r1, Green, NewMark);
    var (d, r3) := ReadSegment(r2, Red, DeletedMark);
    var (n, r4) := ReadSegment(r3, White, RenamedMark);
    if r4 == [] then Some((m, a, d, n)) else None
  }

  /** A parser for summaries: an optional clean marker, then the counter segments. */
  function Read(ts: seq<Token>): Option<Shown>
  {
    var clean := |ts| >= 2 && ts[..2] == [Fg(Green), Text(Clean)];
    match ReadCounters(if clean then ts[2..] else ts)
    case None => None
    case Some((m, a, d, n)) => Some(Shown(clean, m, a, d, n))
  }

  lemma ReadSegmentOf(n: int, c: Color, mark: string, tail: seq<Token>)
    requires n >= 0
    requires tail == [] || tail[0] != Fg(c)
    ensures ReadSegment(Segment(n, c, mark) + tail, c, mark) == (n, tail)
  {
    if n > 0 {
      DecimalRoundTrip(n);
      assert (Segment(n, c, mark) + tail)[3..] == tail;
    } else {
      assert Segment(n, c, mark) + tail == tail;
    }
  }

  /** The counter segments read back as the four shown counters, and never look like the clean marker. */
  lemma ReadSegments(k: Counts)
    requires Natural(k)
    ensures ReadCounters(Segments(k)) == Some((k.modified, k.added, k.deleted, k.renamed))
    ensures |Segments(k)| < 2 || Segments(k)[1] != Text(Clean)
  {
    var s1 := Segment(k.modified, Blue, ModifiedMark);
    var s2 := Segment(k.added, Green, NewMark);
    var s3 := Segment(k.deleted, Red, DeletedMark);
    var t4 := Segment(k.renamed, White, RenamedMark);
    var t3 := s3 + t4;
    var t2 := s2 + t3;
    ReadSegmentOf(k.renamed, White, RenamedMark, []);
    assert t4 + [] == t4;
    ReadSegmentOf(k.deleted, Red, DeletedMark, t4);
    ReadSegmentOf(k.added, Green, NewMark, t3);
    ReadSegmentOf(k.modified, Blue, ModifiedMark, t2);
  }

  /** Reading a summary back yields exactly its shown counters. */
  lemma ReadRender(k: Counts)
    requires Natural(k)
    ensures Read(Render(k)) == Some(ShownOf(k))
  {
    var head: seq<Token> := if Total(k) == 0 then [Fg(Green), Text(Clean)] else [];
    var tail := Segments(k);
    ReadSegments(k);
    if Total(k) == 0 {
      assert (head + tail)[..2] == head;
      assert (head + tail)[2..] == tail;
    } else {
      assert head + tail == tail;
    }
  }
}
