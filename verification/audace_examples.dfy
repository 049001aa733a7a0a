/** Worked quote tables: the article lines of a typical Audace quote and
    what the parser reads from them. */
module AudaceExamples {

  import opened Wrappers
  import opened Text
  import opened Numbers
  import opened Audace

  const Screw := Item("Vis inox M6x20", 10.0, Some(2.5), Some(20.0), 25.0)

  const ScrewFigures := Figures("10", "2,50", "20", "25,00")

  lemma ScrewFiguresShape()
    ensures WellShaped(ScrewFigures)
    ensures FiguresText(ScrewFigures) == "10 2,50 20% 25,00"
  {
  }

  lemma TwentyFive()
    ensures ToNumber("25,00") == Some(25.0)
  {
    assert "25,00" == "25" + "," + "00";
    ToNumberFrenchDecimal("25", "00");
    assert RemoveChar("25", '.') == "25";
    SmallValues();
    assert Pow10(2) == 100;
    assert Decimal("25", "00") == 25.0;
  }

  lemma SmallValues()
    ensures Value("25") == 25 && Value("00") == 0 && Value("10") == 10 && Value("20") == 20
  {
    assert "25"[..1] == "2";
    assert "00"[..1] == "0";
    assert "10"[..1] == "1";
    assert "20"[..1] == "2";
  }

  lemma ScrewFiguresValues()
    ensures ToNumber("2,50") == Some(2.5)
    ensures ToNumber("25,00") == Some(25.0)
    ensures Value("10") == 10 && Value("20") == 20
  {
    ToNumberExample();
    TwentyFive();
    SmallValues();
  }

  /** The screw article, made from its description and figures. */
  lemma ScrewItem(d: string, f: Figures)
    requires d == "Vis inox M6x20" && f == ScrewFigures
    ensures MakeItem(d, f) == Some(Screw)
  {
    ScrewFiguresShape();
    ScrewFiguresValues();
    MakeItemOfShape(d, f);
  }

  /** A line holding neither 'T' nor 't' cannot contain "TOTAL HT". */
  lemma NotTotal(line: string)
    requires forall k :: 0 <= k < |line| ==> line[k] != 'T' && line[k] != 't'
    ensures !IsTotalHtLine(line)
  {
    assert TotalHtPattern[0] == {'T', 't'};
    forall i: nat | i <= |line|
      ensures !MatchesAt(line, i, TotalHtPattern)
    {
      if i < |line| {
        assert line[i + 0] !in TotalHtPattern[0];
      }
    }
  }

  lemma Sentence1(a: string)
    requires IsWord(a)
    ensures IsLine(a) && Words(a) == [a]
  {
    WordsOfWord(a);
  }

  lemma Sentence2(a: string, b: string)
    requires IsWord(a) && IsWord(b)
    ensures IsLine(a + " " + b) && Words(a + " " + b) == [a, b]
  {
    Sentence([a, b]);
    JoinCons(a, [b], " ");
    assert [a] + [b] == [a, b];
  }

  lemma Sentence3(a: string, b: string, c: string)
    requires IsWord(a) && IsWord(b) && IsWord(c)
    ensures IsLine(a + " " + b + " " + c) && Words(a + " " + b + " " + c) == [a, b, c]
  {
    var ws := [a, b, c];
    assert forall i :: 0 <= i < |ws| ==> IsWord(ws[i]);
    Sentence(ws);
    JoinCons(b, [c], " ");
    assert [b] + [c] == [b, c];
    JoinCons(a, [b, c], " ");
    assert [a] + [b, c] == ws;
    assert a + " " + (b + " " + c) == a + " " + b + " " + c;
  }

  lemma ScrewLineIsNotTotal(line: string)
    requires line == "Vis inox M6x20 10 2,50 20% 25,00"
    ensures !IsTotalHtLine(line)
  {
    NotTotal(line);
  }

  lemma ScrewTailIsLine(tail: string)
    requires tail == "Vis inox M6x20"
    ensures IsLine(tail)
  {
    Sentence3("Vis", "inox", "M6x20");
  }

  lemma ScrewTail(tail: string, f: Figures)
    requires tail == "Vis inox M6x20" && f == ScrewFigures
    ensures IsLine(tail)
    ensures JoinDescriptionParts([] + [tail]) == tail
    ensures MakeItem(tail, f) == Some(Screw)
  {
    ScrewTailIsLine(tail);
    SingleDescription(tail);
    ScrewItem(tail, f);
  }

  lemma SingleDescription(tail: string)
    requires IsLine(tail)
    ensures JoinDescriptionParts([] + [tail]) == tail
  {
    DescriptionOfLines([tail]);
    assert [] + [tail] == [tail];
  }

  lemma ScrewLine(line: string, tail: string, f: Figures)
    requires tail == "Vis inox M6x20" && f == ScrewFigures
    requires line == tail + " " + "10 2,50 20% 25,00"
    ensures Classify(line) == Inline(tail, f)
  {
    ScrewTail(tail, f);
    ScrewFiguresShape();
    ClassifyInline(tail, f);
  }

  /** Description and figures on one line. */
  lemma OneLineArticle(line: string, tail: string, f: Figures)
    requires tail == "Vis inox M6x20" && f == ScrewFigures
    requires line == tail + " " + "10 2,50 20% 25,00"
    ensures Scan([line], []) == [Screw]
  {
    ScrewLineIsNotTotal(line);
    ScrewLine(line, tail, f);
    ScrewTail(tail, f);
    ScanInlineStep(line, [], [], tail, f, Screw);
    assert [line] + [] == [line];
    assert [Screw] + Scan([], []) == [Screw];
  }

  lemma ShortLineIsDescription(line: string)
    requires |Words(line)| < 4
    ensures Classify(line) == Description
  {
  }

  lemma FirstDescriptionLine(l1: string)
    requires l1 == "Vis inox"
    ensures IsLine(l1) && !IsTotalHtLine(l1) && Classify(l1) == Description
  {
    Sentence2("Vis", "inox");
    assert "Vis" + " " + "inox" == l1;
    ShortLineIsDescription(l1);
    NotTotal(l1);
  }

  lemma SecondDescriptionLine(l2: string)
    requires l2 == "M6x20"
    ensures IsLine(l2) && !IsTotalHtLine(l2) && Classify(l2) == Description
  {
    Sentence1(l2);
    ShortLineIsDescription(l2);
    NotTotal(l2);
  }

  lemma ScrewDescriptionLines(l1: string, l2: string)
    requires l1 == "Vis inox" && l2 == "M6x20"
    ensures IsLine(l1) && IsLine(l2) && !IsTotalHtLine(l1) && !IsTotalHtLine(l2)
    ensures Classify(l1) == Description && Classify(l2) == Description
    ensures JoinDescriptionParts([l1, l2]) == "Vis inox M6x20"
  {
    FirstDescriptionLine(l1);
    SecondDescriptionLine(l2);
    DescriptionOfLines([l1, l2]);
    JoinCons(l1, [l2], " ");
    assert [l1] + [l2] == [l1, l2];
  }

  lemma ScrewFiguresLine(l3: string, f: Figures)
    requires l3 == "10 2,50 20% 25,00" && f == ScrewFigures
    ensures l3 != [] && !IsTotalHtLine(l3) && Classify(l3) == Alone(f)
  {
    ScrewFiguresShape();
    ClassifyAlone(f);
    NotTotal(l3);
  }

  /** Two description lines go to the buffer, in order. */
  lemma TwoDescriptionLines(l1: string, l2: string, tail: seq<string>)
    requires l1 != [] && !IsTotalHtLine(l1) && Classify(l1) == Description
    requires l2 != [] && !IsTotalHtLine(l2) && Classify(l2) == Description
    ensures Scan([l1, l2] + tail, []) == Scan(tail, [l1, l2])
  {
    var t2 := [l2] + tail;
    assert [l1, l2] + tail == [l1] + t2;
    ScanDescriptionStep(l1, t2, []);
    assert [] + [l1] == [l1];
    ScanDescriptionStep(l2, tail, [l1]);
    assert [l1] + [l2] == [l1, l2];
  }

  /** Two description lines, then a figures line: one article made from
      both description lines, and the scan goes on with an empty buffer. */
  lemma DescribedFigures(l1: string, l2: string, l3: string, rest: seq<string>, f: Figures, it: Item)
    requires l1 != [] && !IsTotalHtLine(l1) && Classify(l1) == Description
    requires l2 != [] && !IsTotalHtLine(l2) && Classify(l2) == Description
    requires l3 != [] && !IsTotalHtLine(l3) && Classify(l3) == Alone(f)
    requires MakeItem(JoinDescriptionParts([l1, l2]), f) == Some(it)
    ensures Scan([l1, l2] + ([l3] + rest), []) == [it] + Scan(rest, [])
  {
    var tail := [l3] + rest;
    TwoDescriptionLines(l1, l2, tail);
    FiguresWithItem(l3, rest, [l1, l2], f, it);
  }

  /** A figures line whose buffered description makes an article. */
  lemma FiguresWithItem(line: string, rest: seq<string>, parts: seq<string>, f: Figures, it: Item)
    requires line != [] && !IsTotalHtLine(line) && Classify(line) == Alone(f)
    requires MakeItem(JoinDescriptionParts(parts), f) == Some(it)
    ensures Scan([line] + rest, parts) == [it] + Scan(rest, [])
  {
    ScanAloneStep(line, rest, parts, f);
  }

  /** The description spread over two lines, the figures alone on a third. */
  lemma MultiLineArticle(l1: string, l2: string, l3: string, f: Figures)
    requires l1 == "Vis inox" && l2 == "M6x20" && l3 == "10 2,50 20% 25,00"
    requires f == ScrewFigures
    ensures Scan([l1, l2, l3], []) == [Screw]
  {
    ScrewDescriptionLines(l1, l2);
    ScrewFiguresLine(l3, f);
    ScrewItem(JoinDescriptionParts([l1, l2]), f);
    DescribedFigures(l1, l2, l3, [], f, Screw);
    assert [l1, l2] + ([l3] + []) == [l1, l2, l3];
    assert Scan([], []) == [];
  }

  lemma OrphanFigures(l3: string, f: Figures)
    requires l3 == "10 2,50 20% 25,00" && f == ScrewFigures
    ensures Scan([l3], []) == []
  {
    ScrewFiguresLine(l3, f);
    DescriptionOfLines([]);
    ScanAloneStep(l3, [], [], f);
    assert [l3] + [] == [l3];
  }

  /** A figures line right after an article has no description left to use:
      the buffer was emptied, and the line yields nothing. */
  lemma FiguresWithoutDescription(l1: string, l2: string, l3: string, f: Figures)
    requires l1 == "Vis inox" && l2 == "M6x20" && l3 == "10 2,50 20% 25,00"
    requires f == ScrewFigures
    ensures Scan([l1, l2, l3, l3], []) == [Screw]
  {
    ScrewDescriptionLines(l1, l2);
    ScrewFiguresLine(l3, f);
    ScrewItem(JoinDescriptionParts([l1, l2]), f);
    DescribedFigures(l1, l2, l3, [l3], f, Screw);
    assert [l1, l2] + ([l3] + [l3]) == [l1, l2, l3, l3];
    OrphanFigures(l3, f);
  }
}
