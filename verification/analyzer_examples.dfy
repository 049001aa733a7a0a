/** Worked analyses: what the loop commits for small documents, for any line
    recognisers that read the lines as stated. */
module AnalyzerExamples {

  import opened Wrappers
  import opened Text
  import opened LineBuilder
  import opened Aggregate
  import opened Analyzer

  /** A reconstructed line holding a quantity and its own description commits
      exactly that row, whatever the table state, even on a page without a
      header line. */
  lemma LoneQuantityLine(p: Parsers, ps: PageState, l: string, info: QtyInfo)
    requires IsLine(l) && p.parseQuantityLine(l) == Some(info) && info.description != []
    ensures PageRows(p, ps, [l]) == [Row(info.description, info.qty)]
  {
    TrimOfNormal(l);
    QuantityLine(p, ps, l, info);
    assert [l][1..] == [];
  }

  /** The same article on two pages: one total of 8, two rows. */
  lemma SameArticleOnTwoPages(p: Parsers, l1: string, l2: string)
    requires IsLine(l1) && IsLine(l2)
    requires p.parseQuantityLine(l1) == Some(QtyInfo(5.0, "Ecrou M6"))
    requires p.parseQuantityLine(l2) == Some(QtyInfo(3.0, "Ecrou M6"))
    ensures ProcessPages(p, Session([], 0, 2), [[l1], [l2]]) == Session([Entry("Ecrou M6", 8.0)], 2, 2)
  {
    var pages := [[l1], [l2]];
    ProcessPagesCommitsRows(p, Session([], 0, 2), pages);
    LoneQuantityLine(p, PageStart, l1, QtyInfo(5.0, "Ecrou M6"));
    LoneQuantityLine(p, PageStart, l2, QtyInfo(3.0, "Ecrou M6"));
    assert pages[1..] == [[l2]] && pages[1..][1..] == [];
    var r1 := Row("Ecrou M6", 5.0);
    var r2 := Row("Ecrou M6", 3.0);
    assert pages[0] == [l1] && pages[1..][0] == [l2];
    assert DocumentRows(p, pages[1..][1..]) == [];
    assert DocumentRows(p, pages[1..]) == [r2] + [];
    assert DocumentRows(p, pages) == [r1] + ([r2] + []);
    assert [r1] + ([r2] + []) == [r1, r2];
    SameArticleTwice(r1, r2);
  }

  lemma SameArticleTwice(r1: Row, r2: Row)
    requires r1 == Row("Ecrou M6", 5.0) && r2 == Row("Ecrou M6", 3.0)
    ensures CommitAll(Session([], 0, 2), [r1, r2]) == Session([Entry("Ecrou M6", 8.0)], 2, 2)
  {
    var d := r1.description;
    var s1 := Commit(Session([], 0, 2), r1);
    assert Get([], d) == 0.0;
    assert s1 == Session([Entry(d, 5.0)], 1, 2);
    assert Get(s1.aggregated, d) == 5.0;
    var e1 := s1.aggregated;
    assert Put(e1, d, 8.0) == [Entry(d, 8.0)] + e1[1..];
    assert e1[1..] == [];
    var s2 := Commit(s1, r2);
    assert s2 == Session([Entry(d, 8.0)], 2, 2);
    assert CommitAll(s2, []) == s2;
    assert [r2][1..] == [];
    assert CommitAll(s1, [r2]) == s2;
    assert [r1, r2][1..] == [r2];
  }

  /** A quantity line after the table's end line is still counted: only the
      description buffer is affected by the end of the table. */
  lemma QuantityAfterEndLine(p: Parsers, h: string, e: string, q: string, info: QtyInfo)
    requires IsLine(h) && IsLine(e) && IsLine(q)
    requires p.parseQuantityLine(h).None? && p.isTableHeaderLine(h)
    requires p.parseQuantityLine(e).None? && p.isTableEndLine(e)
    requires p.parseQuantityLine(q) == Some(info) && info.description != []
    ensures PageRows(p, PageStart, [h, e, q]) == [Row(info.description, info.qty)]
  {
    TrimOfNormal(h);
    TrimOfNormal(e);
    HeaderLine(p, PageStart, h);
    EndLine(p, PageState(true, []), e);
    LoneQuantityLine(p, PageState(false, []), q, info);
    assert [h, e, q][1..] == [e, q] && [e, q][1..] == [q];
  }

  lemma JoinTwo(a: string, b: string)
    ensures Join([a, b], " ") == a + " " + b
  {
    JoinCons(a, [b], " ");
    assert [a] + [b] == [a, b];
  }

  lemma TwoWordLine(w1: string, w2: string)
    requires IsWord(w1) && IsWord(w2)
    ensures IsLine(w1 + " " + w2)
  {
    var ws := [w1, w2];
    assert forall i :: 0 <= i < |ws| ==> IsWord(ws[i]);
    Sentence(ws);
    JoinTwo(w1, w2);
  }

  lemma FourWordLine(w1: string, w2: string, w3: string, w4: string)
    requires IsWord(w1) && IsWord(w2) && IsWord(w3) && IsWord(w4)
    ensures IsLine(w1 + " " + w2 + " " + w3 + " " + w4)
  {
    var ws := [w1, w2, w3, w4];
    assert forall i :: 0 <= i < |ws| ==> IsWord(ws[i]);
    Sentence(ws);
    JoinTwo(w3, w4);
    JoinCons(w2, [w3, w4], " ");
    assert [w2] + [w3, w4] == [w2, w3, w4];
    JoinCons(w1, [w2, w3, w4], " ");
    assert [w1] + [w2, w3, w4] == ws;
    assert w1 + " " + (w2 + " " + (w3 + " " + w4)) == w1 + " " + w2 + " " + w3 + " " + w4;
  }

  /** Two two-word lines, joined and normalised, read as the four words. */
  lemma TwoLinesOfTwoWords(w1: string, w2: string, w3: string, w4: string)
    requires IsWord(w1) && IsWord(w2) && IsWord(w3) && IsWord(w4)
    ensures IsLine(w1 + " " + w2) && IsLine(w3 + " " + w4)
    ensures Normalize(Join([w1 + " " + w2, w3 + " " + w4], " ")) == w1 + " " + w2 + " " + w3 + " " + w4
  {
    TwoWordLine(w1, w2);
    TwoWordLine(w3, w4);
    FourWordLine(w1, w2, w3, w4);
    JoinTwo(w1 + " " + w2, w3 + " " + w4);
    assert (w1 + " " + w2) + " " + (w3 + " " + w4) == w1 + " " + w2 + " " + w3 + " " + w4;
    NormalizeOfNormal(w1 + " " + w2 + " " + w3 + " " + w4);
  }

  lemma CableWords(a: string, b: string)
    requires a == "Câble HDMI" && b == "2 mètres"
    ensures IsLine(a) && IsLine(b)
    ensures Normalize(Join([a, b], " ")) == "Câble HDMI 2 mètres"
  {
    CableWordsAreWords("Câble", "HDMI", "2", "mètres");
    TwoLinesOfTwoWords("Câble", "HDMI", "2", "mètres");
    assert "Câble" + " " + "HDMI" == a;
    assert "2" + " " + "mètres" == b;
    assert "Câble" + " " + "HDMI" + " " + "2" + " " + "mètres" == "Câble HDMI 2 mètres";
  }

  lemma CableWordsAreWords(w1: string, w2: string, w3: string, w4: string)
    requires w1 == "Câble" && w2 == "HDMI" && w3 == "2" && w4 == "mètres"
    ensures IsWord(w1) && IsWord(w2) && IsWord(w3) && IsWord(w4)
  {
  }

  /** Description lines inside the table, then a quantity line without a
      description: the buffered lines, joined, describe the row. */
  lemma BufferedDescription(p: Parsers, h: string, a: string, b: string, q: string)
    requires a == "Câble HDMI" && b == "2 mètres" && IsLine(h) && IsLine(q)
    requires p.parseQuantityLine(h).None? && p.isTableHeaderLine(h)
    requires p.parseQuantityLine(a).None? && !p.isTableEndLine(a)
    requires p.parseQuantityLine(b).None? && !p.isTableEndLine(b)
    requires p.parseQuantityLine(q) == Some(QtyInfo(3.0, ""))
    ensures PageRows(p, PageStart, [h, a, b, q]) == [Row("Câble HDMI 2 mètres", 3.0)]
  {
    CableWords(a, b);
    TrimOfNormal(h);
    TrimOfNormal(a);
    TrimOfNormal(b);
    TrimOfNormal(q);
    HeaderLine(p, PageStart, h);
    BufferedLine(p, PageState(true, []), a);
    assert PushBounded([], a) == [a];
    BufferedLine(p, PageState(true, [a]), b);
    assert PushBounded([a], b) == [a, b];
    QuantityLine(p, PageState(true, [a, b]), q, QtyInfo(3.0, ""));
    var d := "Câble HDMI 2 mètres";
    assert PageStep(p, PageState(true, [a, b]), q) == LineOutcome(PageState(true, []), Some(Row(d, 3.0)));
    assert [q][1..] == [];
    assert PageRows(p, PageState(true, [a, b]), [q]) == [Row(d, 3.0)];
    assert [b, q][1..] == [q];
    assert PageRows(p, PageState(true, [a]), [b, q]) == [Row(d, 3.0)];
    assert [a, b, q][1..] == [b, q];
    assert PageRows(p, PageState(true, []), [a, b, q]) == [Row(d, 3.0)];
    assert [h, a, b, q][1..] == [a, b, q];
  }

  lemma {:induction false} BlankPages(p: Parsers, s: Session, pages: seq<seq<TextItem>>)
    requires forall i :: 0 <= i < |pages| ==> pages[i] == []
    ensures ProcessPages(p, s, PageLines(pages)) == s
    decreases |pages|
  {
    if pages != [] {
      assert BuildLines(pages[0]) == [];
      assert PageLines(pages)[1..] == PageLines(pages[1..]);
      BlankPages(p, s, pages[1..]);
    }
  }

  /** A document without any text: no totals, no rows, and still its page
      count. */
  lemma DocumentWithoutText(p: Parsers, prior: Session, pages: seq<seq<TextItem>>)
    requires forall i :: 0 <= i < |pages| ==> pages[i] == []
    ensures AnalyzePdf(p, true, prior, pages) == Some(Session([], 0, |pages|))
  {
    BlankPages(p, Session([], 0, |pages|), pages);
  }
}
