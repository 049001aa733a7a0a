/** The analysis loop: every page's lines go through a small state machine
    (inside the article table or not, plus a short buffer of description
    lines), and each quantity line found adds its quantity to a running total
    per article description. */
module Analyzer {

  import opened Wrappers
  import opened Text
  import opened LineBuilder
  import opened Aggregate

  /** What the quantity-line recogniser reads from a line: the quantity and,
      when the line carries one, its own description ("" when it does not). */
  datatype QtyInfo = QtyInfo(qty: real, description: string)

  /** The three line recognisers the loop relies on.  Their definitions are
      not part of this model: every result below holds for any of them. */
  datatype Parsers = Parsers(
    parseQuantityLine: string -> Option<QtyInfo>,
    isTableHeaderLine: string -> bool,
    isTableEndLine: string -> bool)

  const MaxBufferedLines: nat := 4

  /** The per-page part of the loop state. */
  datatype PageState = PageState(inTable: bool, descBuffer: seq<string>)

  const PageStart := PageState(false, [])

  /** One committed article row. */
  datatype Row = Row(description: string, qty: real)

  /** The document-wide analysis state. */
  datatype Session = Session(aggregated: seq<Entry>, totalRows: nat, pagesAnalyzed: nat)

  /** The effect of one line on the page: the next page state and the row it
      commits, if any. */
  datatype LineOutcome = LineOutcome(state: PageState, row: Option<Row>)

  /** The loop state while a page is processed. */
  datatype Loop = Loop(page: PageState, session: Session)

  // ---------------------------------------------------------------------------
  // The description buffer

  /** Add a line to the buffer, first dropping the oldest line when the buffer
      is full. */
  function PushBounded(buf: seq<string>, line: string): (r: seq<string>)
    ensures |buf| <= MaxBufferedLines ==> |r| <= MaxBufferedLines
    ensures |buf| >= MaxBufferedLines ==> |r| == |buf|
    ensures |buf| < MaxBufferedLines ==> |r| == |buf| + 1
    ensures r[|r| - 1] == line
    ensures r[..|r| - 1] == buf[|buf| + 1 - |r|..]
  {
    if |buf| >= MaxBufferedLines then buf[1..] + [line] else buf + [line]
  }

  /** The last `n` elements of `s` (all of them when there are fewer). */
  function LastN(s: seq<string>, n: nat): (r: seq<string>)
    ensures |r| == if |s| <= n then |s| else n
  {
    if |s| <= n then s else s[|s| - n..]
  }

  // ---------------------------------------------------------------------------
  // The loop

  /** The effect of one line of a page, in the order the loop tests it: blank
      lines are skipped; a quantity line commits a row whatever the table
      state; outside the table a header line opens it and any other line is
      buffered; inside the table an end line closes it and any other line is
      buffered. */
  function PageStep(p: Parsers, ps: PageState, rawLine: string): (st: LineOutcome)
    ensures |ps.descBuffer| <= MaxBufferedLines ==> |st.state.descBuffer| <= MaxBufferedLines
    ensures st.row.Some? ==> st.row.value.description != [] && st.state == PageState(true, [])
  {
    var line := Trim(rawLine);
    if line == [] then LineOutcome(ps, None)
    else
      match p.parseQuantityLine(line)
      case Some(info) =>
        var buffered := Normalize(Join(ps.descBuffer, " "));
        var description := if info.description != [] then info.description else buffered;
        if description == [] then LineOutcome(PageState(true, []), None)
        else LineOutcome(PageState(true, []), Some(Row(description, info.qty)))
      case None =>
        if !ps.inTable then
          if p.isTableHeaderLine(line) then LineOutcome(PageState(true, []), None)
          else LineOutcome(PageState(false, PushBounded(ps.descBuffer, line)), None)
        else if p.isTableEndLine(line) then LineOutcome(PageState(false, []), None)
        else LineOutcome(PageState(true, PushBounded(ps.descBuffer, line)), None)
  }

  /** Add a row's quantity to its article's total and count the row. */
  function Commit(s: Session, row: Row): (r: Session)
    ensures r.totalRows == s.totalRows + 1
    ensures r.pagesAnalyzed == s.pagesAnalyzed
    ensures |s.aggregated| <= |r.aggregated| <= |s.aggregated| + 1
  {
    var previous := Get(s.aggregated, row.description);
    s.(aggregated := Put(s.aggregated, row.description, previous + row.qty),
       totalRows := s.totalRows + 1)
  }

  /** The loop body for one line. */
  function ProcessLine(p: Parsers, l: Loop, rawLine: string): Loop {
    var st := PageStep(p, l.page, rawLine);
    match st.row
    case Some(row) => Loop(st.state, Commit(l.session, row))
    case None => Loop(st.state, l.session)
  }

  /** The inner loop over the lines of one page. */
  function ProcessLines(p: Parsers, l: Loop, lines: seq<string>): (r: Loop)
    ensures |l.page.descBuffer| <= MaxBufferedLines ==> |r.page.descBuffer| <= MaxBufferedLines
    ensures l.session.totalRows <= r.session.totalRows <= l.session.totalRows + |lines|
    ensures r.session.pagesAnalyzed == l.session.pagesAnalyzed
    decreases |lines|
  {
    if lines == [] then l
    else ProcessLines(p, ProcessLine(p, l, lines[0]), lines[1..])
  }

  /** The outer loop: every page starts outside the table with an empty
      buffer, while the totals carry over from page to page. */
  function ProcessPages(p: Parsers, s: Session, pages: seq<seq<string>>): (r: Session)
    ensures s.totalRows <= r.totalRows
    ensures r.pagesAnalyzed == s.pagesAnalyzed
    decreases |pages|
  {
    if pages == [] then s
    else ProcessPages(p, ProcessLines(p, Loop(PageStart, s), pages[0]).session, pages[1..])
  }

  /** The lines of every page, rebuilt from its text fragments. */
  function PageLines(pages: seq<seq<TextItem>>): (r: seq<seq<string>>)
    ensures |r| == |pages|
  {
    if pages == [] then [] else [BuildLines(pages[0])] + PageLines(pages[1..])
  }

  /** `resetAnalysis`: the totals and both counters go back to zero. */
  function ResetAnalysis(s: Session): (r: Session)
    ensures r.aggregated == [] && r.totalRows == 0 && r.pagesAnalyzed == 0
  {
    Session([], 0, 0)
  }

  /** `analyzePdf`: fails when the PDF library was never initialised;
      otherwise resets the state, records the page count and runs the loop
      over every page. */
  function AnalyzePdf(p: Parsers, initialized: bool, prior: Session, pages: seq<seq<TextItem>>): (r: Option<Session>)
    ensures r.None? <==> !initialized
    ensures r.Some? ==> r.value.pagesAnalyzed == |pages|
  {
    if !initialized then None
    else
      var s := ResetAnalysis(prior).(pagesAnalyzed := |pages|);
      Some(ProcessPages(p, s, PageLines(pages)))
  }

  // ---------------------------------------------------------------------------
  // Reference definitions: the rows a document commits, and their sums

  /** The rows committed while reading `lines` from page state `ps`. */
  function PageRows(p: Parsers, ps: PageState, lines: seq<string>): seq<Row>
    decreases |lines|
  {
    if lines == [] then []
    else
      var st := PageStep(p, ps, lines[0]);
      match st.row
      case Some(row) => [row] + PageRows(p, st.state, lines[1..])
      case None => PageRows(p, st.state, lines[1..])
  }

  /** The rows of a whole document, every page read from a fresh page state. */
  function DocumentRows(p: Parsers, pages: seq<seq<string>>): seq<Row>
    decreases |pages|
  {
    if pages == [] then [] else PageRows(p, PageStart, pages[0]) + DocumentRows(p, pages[1..])
  }

  /** Every row, committed in order. */
  function CommitAll(s: Session, rows: seq<Row>): Session
    decreases |rows|
  {
    if rows == [] then s else CommitAll(Commit(s, rows[0]), rows[1..])
  }

  /** The total quantity of the rows describing `d`. */
  function SumOf(rows: seq<Row>, d: string): real
    decreases |rows|
  {
    if rows == [] then 0.0
    else if rows[0].description == d then rows[0].qty + SumOf(rows[1..], d)
    else SumOf(rows[1..], d)
  }

  function Descriptions(rows: seq<Row>): (ds: seq<string>)
    ensures |ds| == |rows|
  {
    if rows == [] then [] else [rows[0].description] + Descriptions(rows[1..])
  }

  /** The session invariant: one entry per article, and never more articles
      than rows. */
  ghost predicate SessionOk(s: Session) {
    DistinctArticles(s.aggregated) && |s.aggregated| <= s.totalRows
  }

  // ---------------------------------------------------------------------------
  // One line

  /** A blank line changes nothing. */
  lemma BlankLine(p: Parsers, ps: PageState, rawLine: string)
    requires Trim(rawLine) == []
    ensures PageStep(p, ps, rawLine) == LineOutcome(ps, None)
  {
  }

  /** A quantity line is handled first, inside or outside the table: the table
      is entered, the buffer emptied, and a row committed under the line's own
      description if it has one, else under the buffered text if that is not
      empty. */
  lemma QuantityLine(p: Parsers, ps: PageState, rawLine: string, info: QtyInfo)
    requires Trim(rawLine) != [] && p.parseQuantityLine(Trim(rawLine)) == Some(info)
    ensures PageStep(p, ps, rawLine).state == PageState(true, [])
    ensures info.description != [] ==>
      PageStep(p, ps, rawLine).row == Some(Row(info.description, info.qty))
    ensures info.description == [] && Normalize(Join(ps.descBuffer, " ")) != [] ==>
      PageStep(p, ps, rawLine).row == Some(Row(Normalize(Join(ps.descBuffer, " ")), info.qty))
    ensures info.description == [] && Normalize(Join(ps.descBuffer, " ")) == [] ==>
      PageStep(p, ps, rawLine).row == None
  {
  }

  /** A quantity line with nothing to describe it leaves the totals and the
      row count as they were. */
  lemma UndescribedQuantity(p: Parsers, l: Loop, rawLine: string, info: QtyInfo)
    requires Trim(rawLine) != [] && p.parseQuantityLine(Trim(rawLine)) == Some(info)
    requires info.description == [] && Normalize(Join(l.page.descBuffer, " ")) == []
    ensures ProcessLine(p, l, rawLine).session == l.session
  {
    QuantityLine(p, l.page, rawLine, info);
  }

  /** A header line outside the table opens it and empties the buffer. */
  lemma HeaderLine(p: Parsers, ps: PageState, rawLine: string)
    requires Trim(rawLine) != [] && p.parseQuantityLine(Trim(rawLine)).None?
    requires !ps.inTable && p.isTableHeaderLine(Trim(rawLine))
    ensures PageStep(p, ps, rawLine) == LineOutcome(PageState(true, []), None)
  {
  }

  /** An end line inside the table closes it, empties the buffer and commits
      nothing. */
  lemma EndLine(p: Parsers, ps: PageState, rawLine: string)
    requires Trim(rawLine) != [] && p.parseQuantityLine(Trim(rawLine)).None?
    requires ps.inTable && p.isTableEndLine(Trim(rawLine))
    ensures PageStep(p, ps, rawLine) == LineOutcome(PageState(false, []), None)
  {
  }

  /** Any other line is buffered, and the table state stays as it was. */
  lemma BufferedLine(p: Parsers, ps: PageState, rawLine: string)
    requires Trim(rawLine) != [] && p.parseQuantityLine(Trim(rawLine)).None?
    requires if ps.inTable then !p.isTableEndLine(Trim(rawLine)) else !p.isTableHeaderLine(Trim(rawLine))
    ensures PageStep(p, ps, rawLine) == LineOutcome(PageState(ps.inTable, PushBounded(ps.descBuffer, Trim(rawLine))), None)
  {
  }

  /** The buffer is a sliding window over the lines pushed into it: it holds
      the last four of them, oldest first. */
  lemma PushBoundedWindow(buf: seq<string>, line: string)
    requires |buf| <= MaxBufferedLines
    ensures PushBounded(buf, line) == LastN(buf + [line], MaxBufferedLines)
  {
    if |buf| == MaxBufferedLines {
      assert (buf + [line])[|buf + [line]| - MaxBufferedLines..] == buf[1..] + [line];
    }
  }

  /** Keeping the window at every push is the same as keeping it once at the
      end. */
  lemma WindowOfWindow(s: seq<string>, line: string)
    ensures LastN(LastN(s, MaxBufferedLines) + [line], MaxBufferedLines) == LastN(s + [line], MaxBufferedLines)
  {
    var n := MaxBufferedLines;
    if |s| > n {
      var w := s[|s| - n..];
      assert (w + [line])[|w + [line]| - n..] == (s + [line])[|s + [line]| - n..];
    }
  }

  /** The buffer after pushing `lines` one by one, in order. */
  function PushAll(buf: seq<string>, lines: seq<string>): seq<string>
    decreases |lines|
  {
    if lines == [] then buf else PushAll(PushBounded(buf, lines[0]), lines[1..])
  }

  /** Pushing a run of lines onto a window of `s` leaves the window of
      `s + lines`: however many lines go by, the buffer keeps the last four,
      oldest first. */
  lemma {:induction false} PushAllWindow(s: seq<string>, lines: seq<string>)
    ensures PushAll(LastN(s, MaxBufferedLines), lines) == LastN(s + lines, MaxBufferedLines)
    decreases |lines|
  {
    var w := LastN(s, MaxBufferedLines);
    if lines == [] {
      assert s + lines == s;
    } else {
      var l := lines[0];
      calc {
        PushAll(w, lines);
        PushAll(PushBounded(w, l), lines[1..]);
        { PushBoundedWindow(w, l); WindowOfWindow(s, l); }
        PushAll(LastN(s + [l], MaxBufferedLines), lines[1..]);
        { PushAllWindow(s + [l], lines[1..]); }
        LastN(s + [l] + lines[1..], MaxBufferedLines);
        { AppendHeadTail(s, lines); }
        LastN(s + lines, MaxBufferedLines);
      }
    }
  }

  lemma AppendHeadTail(s: seq<string>, lines: seq<string>)
    requires lines != []
    ensures s + [lines[0]] + lines[1..] == s + lines
  {
    assert [lines[0]] + lines[1..] == lines;
  }

  /** Starting from an empty buffer, the buffer holds the last four lines
      pushed, in the order they came. */
  lemma BufferIsLastLines(lines: seq<string>)
    ensures PushAll([], lines) == LastN(lines, MaxBufferedLines)
  {
    PushAllWindow([], lines);
    assert [] + lines == lines;
  }

  // ---------------------------------------------------------------------------
  // Totals

  /** Committing a row adds its quantity to its own article only and keeps
      the session invariant. */
  lemma CommitTotals(s: Session, row: Row, d: string)
    requires SessionOk(s)
    ensures SessionOk(Commit(s, row))
    ensures Get(Commit(s, row).aggregated, d) ==
      Get(s.aggregated, d) + (if d == row.description then row.qty else 0.0)
    ensures d in Articles(Commit(s, row).aggregated) <==> d in Articles(s.aggregated) || d == row.description
  {
    CommitKeepsOk(s, row);
    CommitGet(s, row, d);
    CommitArticles(s, row, d);
  }

  lemma CommitKeepsOk(s: Session, row: Row)
    requires SessionOk(s)
    ensures SessionOk(Commit(s, row))
  {
    PutDistinct(s.aggregated, row.description, Get(s.aggregated, row.description) + row.qty);
  }

  lemma CommitGet(s: Session, row: Row, d: string)
    ensures Get(Commit(s, row).aggregated, d) ==
      Get(s.aggregated, d) + (if d == row.description then row.qty else 0.0)
  {
    PutGet(s.aggregated, row.description, Get(s.aggregated, row.description) + row.qty, d);
  }

  lemma CommitArticles(s: Session, row: Row, d: string)
    ensures d in Articles(Commit(s, row).aggregated) <==> d in Articles(s.aggregated) || d == row.description
  {
    var es := s.aggregated;
    var k := row.description;
    PutArticles(es, k, Get(es, k) + row.qty);
    if k !in Articles(es) {
      assert d in Articles(es) + [k] <==> d in Articles(es) || d == k;
    }
  }

  lemma {:induction false} CommitAllAppend(s: Session, a: seq<Row>, b: seq<Row>)
    ensures CommitAll(s, a + b) == CommitAll(CommitAll(s, a), b)
    decreases |a|
  {
    if a != [] {
      assert a + b != [];
      assert (a + b)[0] == a[0];
      assert (a + b)[1..] == a[1..] + b;
      CommitAllAppend(Commit(s, a[0]), a[1..], b);
    } else {
      assert a + b == b;
    }
  }

  /** After committing `rows`, an article's total is its earlier total plus
      the sum of the quantities of its rows; the row count grows by the
      number of rows; the articles are the earlier ones and the rows'
      descriptions; and the session invariant holds throughout. */
  lemma {:induction false} CommitAllTotals(s: Session, rows: seq<Row>)
    requires SessionOk(s)
    ensures SessionOk(CommitAll(s, rows))
    ensures CommitAll(s, rows).totalRows == s.totalRows + |rows|
    ensures CommitAll(s, rows).pagesAnalyzed == s.pagesAnalyzed
    ensures forall d :: Get(CommitAll(s, rows).aggregated, d) == Get(s.aggregated, d) + SumOf(rows, d)
    ensures forall d :: d in Articles(CommitAll(s, rows).aggregated) <==>
      d in Articles(s.aggregated) || d in Descriptions(rows)
    decreases |rows|
  {
    if rows != [] {
      var s1 := Commit(s, rows[0]);
      forall d
        ensures Get(s1.aggregated, d) == Get(s.aggregated, d) + (if d == rows[0].description then rows[0].qty else 0.0)
        ensures d in Articles(s1.aggregated) <==> d in Articles(s.aggregated) || d == rows[0].description
      {
        CommitTotals(s, rows[0], d);
      }
      CommitTotals(s, rows[0], "");
      CommitAllTotals(s1, rows[1..]);
      assert Descriptions(rows) == [rows[0].description] + Descriptions(rows[1..]);
    }
  }

  /** The loop over a page commits exactly the page's rows, in order. */
  lemma {:induction false} ProcessLinesCommitsRows(p: Parsers, ps: PageState, s: Session, lines: seq<string>)
    ensures ProcessLines(p, Loop(ps, s), lines).session == CommitAll(s, PageRows(p, ps, lines))
    decreases |lines|
  {
    if lines != [] {
      var st := PageStep(p, ps, lines[0]);
      ProcessLinesCommitsRows(p, st.state, ProcessLine(p, Loop(ps, s), lines[0]).session, lines[1..]);
      match st.row {
        case Some(row) =>
          assert ([row] + PageRows(p, st.state, lines[1..]))[1..] == PageRows(p, st.state, lines[1..]);
        case None =>
      }
    }
  }

  /** The loop over the pages commits exactly the document's rows, in order. */
  lemma {:induction false} ProcessPagesCommitsRows(p: Parsers, s: Session, pages: seq<seq<string>>)
    ensures ProcessPages(p, s, pages) == CommitAll(s, DocumentRows(p, pages))
    decreases |pages|
  {
    if pages != [] {
      var rows := PageRows(p, PageStart, pages[0]);
      ProcessLinesCommitsRows(p, PageStart, s, pages[0]);
      ProcessPagesCommitsRows(p, CommitAll(s, rows), pages[1..]);
      CommitAllAppend(s, rows, DocumentRows(p, pages[1..]));
    }
  }

  /** Pages do not influence each other: the rows of a document are the rows
      of its first pages followed by those of the rest. */
  lemma {:induction false} DocumentRowsAppend(p: Parsers, a: seq<seq<string>>, b: seq<seq<string>>)
    ensures DocumentRows(p, a + b) == DocumentRows(p, a) + DocumentRows(p, b)
    decreases |a|
  {
    if a == [] {
      assert a + b == b;
    } else {
      assert (a + b)[0] == a[0];
      assert (a + b)[1..] == a[1..] + b;
      DocumentRowsAppend(p, a[1..], b);
    }
  }

  /** The whole analysis: the page count of the document, one row counted per
      committed row, one total per described article equal to the sum of its
      rows' quantities, whatever the state before the call. */
  lemma AnalyzePdfTotals(p: Parsers, prior: Session, pages: seq<seq<TextItem>>)
    ensures AnalyzePdf(p, true, prior, pages).Some?
    ensures var s := AnalyzePdf(p, true, prior, pages).value;
      var rows := DocumentRows(p, PageLines(pages));
      && s.pagesAnalyzed == |pages|
      && s.totalRows == |rows|
      && SessionOk(s)
      && (forall d :: Get(s.aggregated, d) == SumOf(rows, d))
      && (forall d :: d in Articles(s.aggregated) <==> d in Descriptions(rows))
    ensures AnalyzePdf(p, true, prior, pages) == AnalyzePdf(p, true, ResetAnalysis(prior), pages)
  {
    var s0 := ResetAnalysis(prior).(pagesAnalyzed := |pages|);
    ProcessPagesCommitsRows(p, s0, PageLines(pages));
    CommitAllTotals(s0, DocumentRows(p, PageLines(pages)));
  }

  // ---------------------------------------------------------------------------
  // Order of the rows

  lemma {:induction false} SumOfRemove(rows: seq<Row>, i: nat, d: string)
    requires i < |rows|
    ensures SumOf(rows, d) ==
      (if rows[i].description == d then rows[i].qty else 0.0) + SumOf(rows[..i] + rows[i + 1..], d)
    decreases |rows|
  {
    if i > 0 {
      SumOfRemove(rows[1..], i - 1, d);
      assert (rows[..i] + rows[i + 1..])[1..] == rows[1..][..i - 1] + rows[1..][i..];
    } else {
      assert rows[..i] + rows[i + 1..] == rows[1..];
    }
  }

  /** Removing the element at `i` removes one copy of it from the multiset. */
  lemma RemoveAtMultiset<T>(s: seq<T>, i: nat)
    requires i < |s|
    ensures multiset(s[..i] + s[i + 1..]) == multiset(s) - multiset{s[i]}
  {
    assert s == s[..i] + [s[i]] + s[i + 1..];
  }

  lemma HeadMultiset<T>(s: seq<T>)
    requires s != []
    ensures multiset(s[1..]) == multiset(s) - multiset{s[0]}
  {
    assert s == [s[0]] + s[1..];
  }

  /** The first element of a permutation sits somewhere in the other sequence,
      and the two rests are again permutations of each other. */
  lemma MatchHead<T>(a: seq<T>, b: seq<T>) returns (i: nat)
    requires a != [] && multiset(a) == multiset(b)
    ensures i < |b| && b[i] == a[0]
    ensures multiset(a[1..]) == multiset(b[..i] + b[i + 1..])
  {
    assert a[0] in multiset(b);
    assert a[0] in b;
    i :| 0 <= i < |b| && b[i] == a[0];
    RemoveAtMultiset(b, i);
    HeadMultiset(a);
  }

  /** Sums per article do not depend on the order of the rows. */
  lemma {:induction false} SumOfPermutation(a: seq<Row>, b: seq<Row>, d: string)
    requires multiset(a) == multiset(b)
    ensures SumOf(a, d) == SumOf(b, d)
    decreases |a|
  {
    if a == [] {
      assert |b| == |multiset(b)| == 0;
    } else {
      var i := MatchHead(a, b);
      SumOfPermutation(a[1..], b[..i] + b[i + 1..], d);
      SumOfRemove(b, i, d);
    }
  }

  lemma DescriptionsMembership(rows: seq<Row>, d: string)
    ensures d in Descriptions(rows) <==> exists r :: r in rows && r.description == d
  {
    if rows != [] {
      DescriptionsMembership(rows[1..], d);
      assert Descriptions(rows) == [rows[0].description] + Descriptions(rows[1..]);
      assert forall r :: r in rows <==> r == rows[0] || r in rows[1..];
    }
  }

  /** Committing the same rows in another order gives every article the same
      total, and the same articles. */
  lemma CommitOrderIrrelevant(a: seq<Row>, b: seq<Row>)
    requires multiset(a) == multiset(b)
    ensures var sa := CommitAll(Session([], 0, 0), a);
      var sb := CommitAll(Session([], 0, 0), b);
      && sa.totalRows == sb.totalRows
      && (forall d :: Get(sa.aggregated, d) == Get(sb.aggregated, d))
      && (forall d :: d in Articles(sa.aggregated) <==> d in Articles(sb.aggregated))
  {
    var s0 := Session([], 0, 0);
    CommitAllTotals(s0, a);
    CommitAllTotals(s0, b);
    assert |a| == |multiset(a)| == |multiset(b)| == |b|;
    forall d
      ensures SumOf(a, d) == SumOf(b, d)
      ensures d in Descriptions(a) <==> d in Descriptions(b)
    {
      SumOfPermutation(a, b, d);
      DescriptionsMembership(a, d);
      DescriptionsMembership(b, d);
      assert forall r :: r in a <==> r in multiset(a);
      assert forall r :: r in b <==> r in multiset(b);
    }
  }
}
