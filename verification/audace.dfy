/** The "Audace" quote profile: on the normalised lines of a quote, find the
    column header, then read articles until the "TOTAL HT" line.  A line that
    ends with the four figures (quantity, unit price, VAT rate, total) closes
    an article; the description lines buffered since the previous article,
    plus any text in front of the figures, form its description. */
module Audace {

  import opened Wrappers
  import opened Text
  import opened Numbers
  import opened Subsequences

  /** An article of the quote.  `unitPrice` and `tva` are `None` where the
      source gets NaN; quantity and total are always numbers. */
  datatype Item = Item(description: string, qty: real, unitPrice: Option<real>, tva: Option<real>, total: real)

  /** The four figures of a quantity line as text; `tva` without its '%'. */
  datatype Figures = Figures(qty: string, unitPrice: string, tva: string, total: string)

  /** How a table line reads: description text followed by the figures, the
      figures alone, or description text only. */
  datatype QtyLine = Inline(descTail: string, figures: Figures) | Alone(figures: Figures) | Description

  // ---------------------------------------------------------------------------
  // Case-insensitive fixed patterns (header and end of table)

  /** One set of accepted characters per position. */
  type Pattern = seq<set<char>>

  /** Both cases of an ASCII letter, as the `i` flag accepts. */
  function CaseSet(c: char): set<char> {
    if 'A' <= c <= 'Z' then {c, (c as int + 32) as char}
    else if 'a' <= c <= 'z' then {c, (c as int - 32) as char}
    else {c}
  }

  function Caseless(s: string): (p: Pattern)
    ensures |p| == |s|
  {
    if s == [] then [] else [CaseSet(s[0])] + Caseless(s[1..])
  }

  /** `ARTICLES\s+QT[ÉE]\s+PU\s+TVA\s+TOTAL` with the `i` flag, on a
      normalised line (where every `\s+` is one ' '). */
  const HeaderPattern: Pattern :=
    Caseless("ARTICLES QT") + [{'E', 'e', '\U{00C9}', '\U{00E9}'}] + Caseless(" PU TVA TOTAL")

  /** `TOTAL\s+HT` with the `i` flag, on a normalised line. */
  const TotalHtPattern: Pattern := Caseless("TOTAL HT")

  predicate MatchesAt(line: string, i: nat, p: Pattern) {
    i + |p| <= |line| && forall j :: 0 <= j < |p| ==> line[i + j] in p[j]
  }

  /** The pattern occurs somewhere in the line (`RegExp.test`). */
  predicate Occurs(line: string, p: Pattern) {
    exists i: nat :: i <= |line| && MatchesAt(line, i, p)
  }

  predicate IsHeaderLine(line: string) {
    Occurs(line, HeaderPattern)
  }

  predicate IsTotalHtLine(line: string) {
    Occurs(line, TotalHtPattern)
  }

  // ---------------------------------------------------------------------------
  // Quantity lines

  /** `\d+` */
  predicate IsDigits(t: string) {
    t != [] && forall i :: 0 <= i < |t| ==> IsDigit(t[i])
  }

  /** `\d+[\d.,]*` */
  predicate IsAmount(t: string) {
    t != [] && IsDigit(t[0]) && forall i :: 0 <= i < |t| ==> IsDigit(t[i]) || t[i] == '.' || t[i] == ','
  }

  /** `\d+%` */
  predicate IsRate(t: string) {
    |t| >= 2 && t[|t| - 1] == '%' && IsDigits(t[..|t| - 1])
  }

  /** Four words shaped as quantity, unit price, rate and total. */
  predicate AreFigures(ws: seq<string>) {
    |ws| == 4 && IsDigits(ws[0]) && IsAmount(ws[1]) && IsRate(ws[2]) && IsAmount(ws[3])
  }

  function FiguresOf(ws: seq<string>): Figures
    requires AreFigures(ws)
  {
    Figures(ws[0], ws[1], ws[2][..|ws[2]| - 1], ws[3])
  }

  /** `QTY_LINE_INLINE`, then `QTY_LINE_ALONE`, on a normalised line: the
      figures are its last four words, and the inline form needs at least
      one word of description in front of them. */
  function Classify(line: string): QtyLine {
    var ws := Words(line);
    var n := |ws|;
    if n >= 5 && AreFigures(ws[n - 4..]) then Inline(Join(ws[..n - 4], " "), FiguresOf(ws[n - 4..]))
    else if n == 4 && AreFigures(ws) then Alone(FiguresOf(ws))
    else Description
  }

  /** The figures as they appear on a quantity line. */
  function FiguresText(f: Figures): string {
    f.qty + " " + f.unitPrice + " " + f.tva + "%" + " " + f.total
  }

  ghost predicate WellShaped(f: Figures) {
    IsDigits(f.qty) && IsAmount(f.unitPrice) && IsDigits(f.tva) && IsAmount(f.total)
  }

  // ---------------------------------------------------------------------------
  // Descriptions

  function TrimEach(parts: seq<string>): (r: seq<string>)
    ensures |r| == |parts|
  {
    if parts == [] then [] else [Trim(parts[0])] + TrimEach(parts[1..])
  }

  /** `filter(Boolean)` on strings: the empty ones dropped. */
  function DropEmpty(parts: seq<string>): seq<string> {
    if parts == [] then []
    else if parts[0] == [] then DropEmpty(parts[1..])
    else [parts[0]] + DropEmpty(parts[1..])
  }

  function EndsWithDash(s: string): bool {
    s != [] && s[|s| - 1] == '-'
  }

  /** The `reduce` of `joinDescriptionParts`: the first piece as is, every
      later one after a space (both branches of the dash test add the same
      space). */
  function JoinReduce(acc: string, parts: seq<string>): string
    decreases |parts|
  {
    if parts == [] then acc
    else if acc == [] then JoinReduce(parts[0], parts[1..])
    else if EndsWithDash(acc) then JoinReduce(acc + " " + parts[0], parts[1..])
    else JoinReduce(acc + " " + parts[0], parts[1..])
  }

  /** Length of the leading run of white space. */
  function SpaceRun(s: string): (k: nat)
    ensures k <= |s|
  {
    if s != [] && IsSpace(s[0]) then 1 + SpaceRun(s[1..]) else 0
  }

  /** `s.replace(/\s+-\s+/g, " - ")`: scanning left to right, a dash with
      white space on both sides becomes " - ". */
  function SpacedDashes(s: string): string
    decreases |s|
  {
    if s == [] then []
    else
      var a := SpaceRun(s);
      if 0 < a < |s| && s[a] == '-' && 0 < SpaceRun(s[a + 1..]) then
        " - " + SpacedDashes(s[a + 1 + SpaceRun(s[a + 1..])..])
      else
        [s[0]] + SpacedDashes(s[1..])
  }

  /** `joinDescriptionParts`. */
  function JoinDescriptionParts(parts: seq<string>): string {
    Trim(SpacedDashes(JoinReduce("", DropEmpty(TrimEach(parts)))))
  }

  // ---------------------------------------------------------------------------
  // Items

  /** `makeItem`: the description must be non-empty, the quantity a positive
      number and the total a number. */
  function MakeItem(description: string, f: Figures): (r: Option<Item>)
    ensures r.Some? ==> r.value.description == description && description != []
    ensures r.Some? ==> r.value.qty > 0.0
  {
    var qty := ToNumber(f.qty);
    var total := ToNumber(f.total);
    if description == [] || qty.None? || qty.value <= 0.0 || total.None? then None
    else Some(Item(description, qty.value, ToNumber(f.unitPrice), ParseFloat(f.tva), total.value))
  }

  /** The loop of `extractItemsFromAudaceQuote` over the lines after the
      header, with the buffered description lines `parts`. */
  function Scan(lines: seq<string>, parts: seq<string>): seq<Item>
    decreases |lines|
  {
    if lines == [] then []
    else
      var line := lines[0];
      if line == [] then Scan(lines[1..], parts)
      else if IsTotalHtLine(line) then []
      else match Classify(line)
        case Inline(tail, f) =>
          var item := MakeItem(JoinDescriptionParts(parts + [tail]), f);
          if item.Some? then [item.value] + Scan(lines[1..], []) else Scan(lines[1..], [])
        case Alone(f) =>
          var item := MakeItem(JoinDescriptionParts(parts), f);
          if item.Some? then [item.value] + Scan(lines[1..], []) else Scan(lines[1..], [])
        case Description =>
          Scan(lines[1..], parts + [line])
  }

  function NormalizeAll(lines: seq<string>): (r: seq<string>)
    ensures |r| == |lines|
  {
    if lines == [] then [] else [NormalizeLine(lines[0])] + NormalizeAll(lines[1..])
  }

  /** `findIndex` of the first line where the pattern occurs. */
  function FirstMatch(ls: seq<string>, p: Pattern): (r: Option<nat>)
    ensures r.Some? ==> r.value < |ls|
  {
    if ls == [] then None
    else if Occurs(ls[0], p) then Some(0)
    else match FirstMatch(ls[1..], p)
      case None => None
      case Some(i) => Some(i + 1)
  }

  /** The articles of the lines after the first line where `header` occurs;
      none when it occurs nowhere. */
  function ItemsAfter(norm: seq<string>, header: Pattern): seq<Item> {
    match FirstMatch(norm, header)
    case None => []
    case Some(h) => Scan(norm[h + 1..], [])
  }

  /** `extractItemsFromAudaceQuote`. */
  function ExtractItemsFromAudaceQuote(lines: seq<string>): seq<Item> {
    ItemsAfter(NormalizeAll(lines), HeaderPattern)
  }

  /** `extractItemsFromLines`: the Audace profile, with no other profile to
      fall back on. */
  function ExtractItemsFromLines(lines: seq<string>): (r: seq<Item>)
    ensures r == ExtractItemsFromAudaceQuote(lines)
  {
    var items := ExtractItemsFromAudaceQuote(lines);
    if |items| > 0 then items else []
  }

  // ---------------------------------------------------------------------------
  // Descriptions of reconstructed lines

  lemma {:induction false} TrimEachOfLines(ps: seq<string>)
    requires AllLines(ps)
    ensures TrimEach(ps) == ps
    decreases |ps|
  {
    if ps != [] {
      TrimOfNormal(ps[0]);
      TrimEachOfLines(ps[1..]);
    }
  }

  lemma {:induction false} DropEmptyOfLines(ps: seq<string>)
    requires AllLines(ps)
    ensures DropEmpty(ps) == ps
    decreases |ps|
  {
    if ps != [] {
      DropEmptyOfLines(ps[1..]);
    }
  }

  lemma {:induction false} JoinReduceFrom(acc: string, ps: seq<string>)
    requires acc != []
    requires forall i :: 0 <= i < |ps| ==> ps[i] != []
    ensures ps == [] ==> JoinReduce(acc, ps) == acc
    ensures ps != [] ==> JoinReduce(acc, ps) == acc + " " + Join(ps, " ")
    decreases |ps|
  {
    if ps != [] {
      var next := acc + " " + ps[0];
      assert JoinReduce(acc, ps) == JoinReduce(next, ps[1..]);
      JoinReduceFrom(next, ps[1..]);
      if |ps| > 1 {
        JoinCons(ps[0], ps[1..], " ");
        assert [ps[0]] + ps[1..] == ps;
      }
    }
  }

  /** The `reduce` joins the (non-empty) pieces with single spaces. */
  lemma JoinReduceIsJoin(ps: seq<string>)
    requires forall i :: 0 <= i < |ps| ==> ps[i] != []
    ensures JoinReduce("", ps) == Join(ps, " ")
  {
    if ps != [] {
      JoinReduceFrom(ps[0], ps[1..]);
      if |ps| > 1 {
        JoinCons(ps[0], ps[1..], " ");
        assert [ps[0]] + ps[1..] == ps;
      }
    }
  }

  lemma SpaceRunOne(s: string)
    requires SingleSpaced(s) && s != [] && IsSpace(s[0])
    ensures SpaceRun(s) == 1
  {
    if |s| > 1 {
      assert !IsSpace(s[1]);
    }
  }

  /** Single-spaced text has no dash to respace. */
  lemma {:induction false} SpacedDashesOfSingleSpaced(s: string)
    requires SingleSpaced(s)
    ensures SpacedDashes(s) == s
    decreases |s|
  {
    if s != [] {
      var a := SpaceRun(s);
      if 0 < a < |s| && s[a] == '-' && 0 < SpaceRun(s[a + 1..]) {
        SpaceRunOne(s);
        SingleSpacedSlice(s, 2, |s|);
        assert s[2..] == s[a + 1..];
        SpaceRunOne(s[2..]);
        assert s[0] == ' ' && s[1] == '-' && s[2] == ' ';
        SingleSpacedSlice(s, 3, |s|);
        SpacedDashesOfSingleSpaced(s[3..]);
        assert s == s[..3] + s[3..];
        assert s[..3] == " - ";
      } else {
        SingleSpacedSlice(s, 1, |s|);
        SpacedDashesOfSingleSpaced(s[1..]);
        assert s == [s[0]] + s[1..];
      }
    }
  }

  /** On reconstructed lines, `joinDescriptionParts` is the plain join with
      single spaces: it neither loses nor rewrites any word. */
  lemma DescriptionOfLines(parts: seq<string>)
    requires AllLines(parts)
    ensures JoinDescriptionParts(parts) == Join(parts, " ")
    ensures Words(JoinDescriptionParts(parts)) == WordsOf(parts)
    ensures parts != [] ==> IsLine(JoinDescriptionParts(parts))
  {
    TrimEachOfLines(parts);
    DropEmptyOfLines(parts);
    JoinReduceIsJoin(parts);
    var j := Join(parts, " ");
    JoinNormal(parts);
    SpacedDashesOfSingleSpaced(j);
    TrimOfNormal(j);
    WordsOfJoin(parts);
  }

  // ---------------------------------------------------------------------------
  // Quantity lines: the classifier and its inverse, `FiguresText`

  function FigureWords(f: Figures): seq<string> {
    [f.qty, f.unitPrice, f.tva + "%", f.total]
  }

  lemma AmountIsWord(t: string)
    requires IsDigits(t) || IsAmount(t)
    ensures IsWord(t)
  {
  }

  lemma RateIsWord(d: string)
    requires IsDigits(d)
    ensures IsWord(d + "%") && IsRate(d + "%") && (d + "%")[..|d|] == d
  {
    var t := d + "%";
    forall i | 0 <= i < |t|
      ensures !IsSpace(t[i])
    {
      if i < |d| {
        assert t[i] == d[i];
      }
    }
    assert t[..|t| - 1] == d;
  }

  lemma JoinFour(a: string, b: string, c: string, d: string)
    ensures Join([a, b, c, d], " ") == a + " " + b + " " + c + " " + d
  {
    JoinCons(c, [d], " ");
    assert [c] + [d] == [c, d];
    JoinCons(b, [c, d], " ");
    assert [b] + [c, d] == [b, c, d];
    JoinCons(a, [b, c, d], " ");
    assert [a] + [b, c, d] == [a, b, c, d];
  }

  lemma FigureWordsShape(f: Figures)
    requires WellShaped(f)
    ensures forall i :: 0 <= i < |FigureWords(f)| ==> IsWord(FigureWords(f)[i])
    ensures AreFigures(FigureWords(f)) && FiguresOf(FigureWords(f)) == f
    ensures FiguresText(f) == Join(FigureWords(f), " ")
  {
    AmountIsWord(f.qty);
    AmountIsWord(f.unitPrice);
    RateIsWord(f.tva);
    AmountIsWord(f.total);
    JoinFour(f.qty, f.unitPrice, f.tva + "%", f.total);
  }

  lemma FiguresOfShape(ws: seq<string>)
    requires AreFigures(ws)
    ensures WellShaped(FiguresOf(ws)) && FigureWords(FiguresOf(ws)) == ws
  {
    assert ws[2] == ws[2][..|ws[2]| - 1] + "%";
  }

  /** A figures-only line is read back as its figures. */
  lemma ClassifyAlone(f: Figures)
    requires WellShaped(f)
    ensures Classify(FiguresText(f)) == Alone(f)
  {
    FigureWordsShape(f);
    Sentence(FigureWords(f));
  }

  /** Description text followed by figures is read back as that text and
      those figures. */
  lemma ClassifyInline(tail: string, f: Figures)
    requires IsLine(tail) && WellShaped(f)
    ensures Classify(tail + " " + FiguresText(f)) == Inline(tail, f)
  {
    var ft := FiguresText(f);
    var line := tail + " " + ft;
    FigureWordsShape(f);
    Sentence(FigureWords(f));
    assert line == tail + (" " + ft);
    WordsAppendSpace(tail, " " + ft);
    assert (" " + ft)[1..] == ft;
    WordsOfSpaceStart(" " + ft);
    var tw := Words(tail);
    WordsOfWordStart(tail);
    NormalIsJoinOfWords(tail);
    var ws := Words(line);
    assert ws == tw + FigureWords(f);
    assert ws[|ws| - 4..] == FigureWords(f);
    assert ws[..|ws| - 4] == tw;
  }

  /** Every line the classifier accepts is one of the two forms above, with
      well-shaped figures (so, with `ClassifyAlone` and `ClassifyInline`, a
      line is a quantity line exactly when it has one of these forms). */
  lemma ClassifySound(line: string)
    requires IsNormal(line)
    ensures Classify(line).Alone? ==>
      WellShaped(Classify(line).figures) && line == FiguresText(Classify(line).figures)
    ensures Classify(line).Inline? ==>
      WellShaped(Classify(line).figures) && IsLine(Classify(line).descTail)
      && line == Classify(line).descTail + " " + FiguresText(Classify(line).figures)
  {
    var ws := Words(line);
    var n := |ws|;
    NormalIsJoinOfWords(line);
    WordsAreWords(line);
    if n >= 5 && AreFigures(ws[n - 4..]) {
      var f := FiguresOf(ws[n - 4..]);
      FiguresOfShape(ws[n - 4..]);
      FigureWordsShape(f);
      assert ws == ws[..n - 4] + ws[n - 4..];
      JoinAppend(ws[..n - 4], ws[n - 4..], " ");
      Sentence(ws[..n - 4]);
    } else if n == 4 && AreFigures(ws) {
      FiguresOfShape(ws);
      FigureWordsShape(FiguresOf(ws));
    }
  }

  // ---------------------------------------------------------------------------
  // Items

  /** With figures of the shapes the quantity patterns accept, an item is
      made exactly when the description is non-empty and the quantity is not
      zero; its numbers are the figures' values, and neither the unit price
      nor the rate is NaN. */
  lemma MakeItemOfShape(d: string, f: Figures)
    requires WellShaped(f)
    ensures MakeItem(d, f).Some? <==> d != [] && Value(f.qty) > 0
    ensures MakeItem(d, f).Some? ==>
      && MakeItem(d, f).value.qty == Value(f.qty) as real
      && MakeItem(d, f).value.unitPrice == ToNumber(f.unitPrice)
      && MakeItem(d, f).value.unitPrice.Some?
      && MakeItem(d, f).value.tva == Some(Value(f.tva) as real)
      && ToNumber(f.total) == Some(MakeItem(d, f).value.total)
  {
    FiguresConvert(f);
  }

  lemma FiguresConvert(f: Figures)
    requires WellShaped(f)
    ensures ToNumber(f.qty) == Some(Value(f.qty) as real)
    ensures ToNumber(f.unitPrice).Some? && ToNumber(f.total).Some?
    ensures ParseFloat(f.tva) == Some(Value(f.tva) as real)
  {
    DigitsConvert(f.qty);
    AmountConverts(f.unitPrice);
    AmountConverts(f.total);
    RateConverts(f.tva);
  }

  lemma DigitsConvert(t: string)
    requires IsDigits(t)
    ensures ToNumber(t) == Some(Value(t) as real)
  {
    assert AllDigits(t);
    ToNumberOfDigits(t);
  }

  lemma AmountConverts(t: string)
    requires IsAmount(t)
    ensures ToNumber(t).Some?
  {
    assert AmountChars(t);
    ToNumberOfAmount(t);
  }

  lemma RateConverts(t: string)
    requires IsDigits(t)
    ensures ParseFloat(t) == Some(Value(t) as real)
  {
    assert AllDigits(t);
    ParseInteger(t);
    DecimalWhole(t);
  }

  /** One step of the scan on a line with description text and figures. */
  lemma ScanInlineStep(line: string, rest: seq<string>, parts: seq<string>, tail: string, f: Figures, it: Item)
    requires line != [] && !IsTotalHtLine(line) && Classify(line) == Inline(tail, f)
    requires MakeItem(JoinDescriptionParts(parts + [tail]), f) == Some(it)
    ensures Scan([line] + rest, parts) == [it] + Scan(rest, [])
  {
    assert ([line] + rest)[1..] == rest;
  }

  /** One step of the scan on a line with figures only. */
  lemma ScanAloneStep(line: string, rest: seq<string>, parts: seq<string>, f: Figures)
    requires line != [] && !IsTotalHtLine(line) && Classify(line) == Alone(f)
    ensures MakeItem(JoinDescriptionParts(parts), f).Some? ==>
      Scan([line] + rest, parts) == [MakeItem(JoinDescriptionParts(parts), f).value] + Scan(rest, [])
    ensures MakeItem(JoinDescriptionParts(parts), f).None? ==> Scan([line] + rest, parts) == Scan(rest, [])
  {
    assert ([line] + rest)[1..] == rest;
  }

  /** One step of the scan on a description line. */
  lemma ScanDescriptionStep(line: string, rest: seq<string>, parts: seq<string>)
    requires line != [] && !IsTotalHtLine(line) && Classify(line) == Description
    ensures Scan([line] + rest, parts) == Scan(rest, parts + [line])
  {
    assert ([line] + rest)[1..] == rest;
  }

  /** The buffer after reading a non-blank line that is not a total line. */
  function NextParts(line: string, parts: seq<string>): seq<string> {
    if Classify(line).Description? then parts + [line] else []
  }

  /** The article read from a non-blank line that is not a total line. */
  function Emitted(line: string, parts: seq<string>): Option<Item> {
    match Classify(line)
    case Inline(tail, f) => MakeItem(JoinDescriptionParts(parts + [tail]), f)
    case Alone(f) => MakeItem(JoinDescriptionParts(parts), f)
    case Description => None
  }

  /** One step of the scan on any non-blank line that is not a total line. */
  lemma ScanCons(line: string, rest: seq<string>, parts: seq<string>)
    requires line != [] && !IsTotalHtLine(line)
    ensures Emitted(line, parts).Some? ==>
      Scan([line] + rest, parts) == [Emitted(line, parts).value] + Scan(rest, NextParts(line, parts))
    ensures Emitted(line, parts).None? ==> Scan([line] + rest, parts) == Scan(rest, NextParts(line, parts))
  {
    assert ([line] + rest)[1..] == rest;
  }

  /** A blank line is skipped. */
  lemma ScanBlank(rest: seq<string>, parts: seq<string>)
    ensures Scan([""] + rest, parts) == Scan(rest, parts)
  {
    assert ([""] + rest)[1..] == rest;
  }

  ghost predicate ValidItem(it: Item) {
    it.description != [] && it.qty > 0.0
  }

  /** An article read from one line has a description and a positive
      quantity. */
  lemma EmittedValid(line: string, parts: seq<string>)
    ensures Emitted(line, parts).Some? ==> ValidItem(Emitted(line, parts).value)
  {
  }

  lemma ValidCons(v: Item, items: seq<Item>)
    requires ValidItem(v) && forall i :: 0 <= i < |items| ==> ValidItem(items[i])
    ensures forall i :: 0 <= i < |[v] + items| ==> ValidItem(([v] + items)[i])
  {
  }

  /** One step of the scan, stated on the head of the lines. */
  lemma ScanHead(lines: seq<string>, parts: seq<string>)
    requires lines != [] && lines[0] != [] && !IsTotalHtLine(lines[0])
    ensures Emitted(lines[0], parts).Some? ==>
      Scan(lines, parts) == [Emitted(lines[0], parts).value] + Scan(lines[1..], NextParts(lines[0], parts))
    ensures Emitted(lines[0], parts).None? ==> Scan(lines, parts) == Scan(lines[1..], NextParts(lines[0], parts))
  {
  }

  /** Every article read has a description and a positive quantity. */
  lemma {:induction false} ScanItemsValid(lines: seq<string>, parts: seq<string>)
    ensures forall i :: 0 <= i < |Scan(lines, parts)| ==> ValidItem(Scan(lines, parts)[i])
    decreases |lines|
  {
    if lines != [] {
      var l := lines[0];
      if l == [] {
        ScanItemsValid(lines[1..], parts);
      } else if !IsTotalHtLine(l) {
        var e := Emitted(l, parts);
        var tail := Scan(lines[1..], NextParts(l, parts));
        ScanHead(lines, parts);
        EmittedValid(l, parts);
        ScanItemsValid(lines[1..], NextParts(l, parts));
        if e.Some? {
          ValidCons(e.value, tail);
        }
      }
    }
  }

  /** The scan reads strictly before a "TOTAL HT" line: neither that line
      nor anything after it is read. */
  lemma {:induction false} ScanStopsAtTotal(pre: seq<string>, t: string, rest: seq<string>, parts: seq<string>)
    requires t != [] && IsTotalHtLine(t)
    ensures Scan(pre + [t] + rest, parts) == Scan(pre + [t], parts)
    ensures Scan(pre + [t] + rest, parts) == Scan(pre, parts)
    decreases |pre|
  {
    if pre == [] {
      ScanAtTotal(t, rest, parts);
      ScanAtTotal(t, [], parts);
      assert pre + [t] + rest == [t] + rest;
      assert pre + [t] == [t] + [];
    } else {
      var l := pre[0];
      var long := pre[1..] + [t] + rest;
      var short := pre[1..] + [t];
      assert pre + [t] + rest == [l] + long;
      assert pre + [t] == [l] + short;
      assert pre == [l] + pre[1..];
      if l == [] {
        ScanBlank(long, parts);
        ScanBlank(short, parts);
        ScanBlank(pre[1..], parts);
        ScanStopsAtTotal(pre[1..], t, rest, parts);
      } else if IsTotalHtLine(l) {
        ScanAtTotal(l, long, parts);
        ScanAtTotal(l, short, parts);
        ScanAtTotal(l, pre[1..], parts);
      } else {
        ScanCons(l, long, parts);
        ScanCons(l, short, parts);
        ScanCons(l, pre[1..], parts);
        ScanStopsAtTotal(pre[1..], t, rest, NextParts(l, parts));
      }
    }
  }

  /** A total line ends the scan. */
  lemma ScanAtTotal(t: string, rest: seq<string>, parts: seq<string>)
    requires t != [] && IsTotalHtLine(t)
    ensures Scan([t] + rest, parts) == []
  {
  }

  /** The words of the descriptions, in order. */
  function DescriptionWords(items: seq<Item>): seq<string> {
    if items == [] then [] else Words(items[0].description) + DescriptionWords(items[1..])
  }

  /** The text in front of the figures is the line's leading words. */
  lemma InlineTail(line: string)
    requires Classify(line).Inline?
    ensures IsLine(Classify(line).descTail)
    ensures Words(line) == Words(Classify(line).descTail) + Words(line)[|Words(line)| - 4..]
  {
    var ws := Words(line);
    WordsAreWords(line);
    Sentence(ws[..|ws| - 4]);
    assert ws == ws[..|ws| - 4] + ws[|ws| - 4..];
  }

  lemma EmitWords(item: Option<Item>, later: seq<Item>)
    ensures item.Some? ==>
      DescriptionWords([item.value] + later) == Words(item.value.description) + DescriptionWords(later)
  {
    if item.Some? {
      assert ([item.value] + later)[1..] == later;
    }
  }

  lemma AppendLine(parts: seq<string>, line: string)
    requires AllLines(parts) && IsLine(line)
    ensures AllLines(parts + [line])
    ensures WordsOf(parts + [line]) == WordsOf(parts) + Words(line)
  {
    var all := parts + [line];
    forall i | 0 <= i < |all|
      ensures IsLine(all[i])
    {
      if i < |parts| {
        assert all[i] == parts[i];
      }
    }
    WordsOfSnoc(parts, line);
  }

  /** The words of an inline item's description: the buffered words, then
      the words in front of the figures. */
  lemma InlineItemWords(tail: string, figures: seq<string>, parts: seq<string>)
    requires AllLines(parts) && IsLine(tail)
    ensures IsSubseq(Words(JoinDescriptionParts(parts + [tail])), WordsOf(parts) + (Words(tail) + figures))
  {
    AppendLine(parts, tail);
    DescriptionOfLines(parts + [tail]);
    SubseqOfPrefix(WordsOf(parts) + Words(tail), figures);
    SubseqRegroup(WordsOf(parts) + Words(tail), WordsOf(parts), Words(tail), figures);
  }

  lemma WordsOfSnoc(parts: seq<string>, line: string)
    ensures WordsOf(parts + [line]) == WordsOf(parts) + Words(line)
  {
    WordsOfAppend(parts, [line]);
    WordsOfCons(line, []);
    assert Words(line) + WordsOf([]) == Words(line);
  }

  lemma WordsOfCons(line: string, rest: seq<string>)
    ensures WordsOf([line] + rest) == Words(line) + WordsOf(rest)
  {
    assert ([line] + rest)[1..] == rest;
  }

  /** The article read from an inline quantity line is described by the
      buffered words and the words in front of the figures. */
  lemma InlineEmitWords(line: string, parts: seq<string>)
    requires AllLines(parts) && Classify(line).Inline?
    ensures Emitted(line, parts).Some? ==>
      IsSubseq(Words(Emitted(line, parts).value.description), WordsOf(parts) + Words(line))
  {
    var ws := Words(line);
    var tail := Classify(line).descTail;
    InlineTail(line);
    InlineItemWords(tail, ws[|ws| - 4..], parts);
    assert Emitted(line, parts) == MakeItem(JoinDescriptionParts(parts + [tail]), Classify(line).figures);
  }

  /** The article read from a line of figures alone is described by the
      buffered words. */
  lemma AloneEmitWords(line: string, parts: seq<string>)
    requires AllLines(parts) && Classify(line).Alone?
    ensures Emitted(line, parts).Some? ==>
      IsSubseq(Words(Emitted(line, parts).value.description), WordsOf(parts) + Words(line))
  {
    DescriptionOfLines(parts);
    SubseqOfPrefix(WordsOf(parts), Words(line));
    assert Emitted(line, parts) == MakeItem(JoinDescriptionParts(parts), Classify(line).figures);
  }

  /** The description words of one scan step. */
  lemma ScanConsWords(line: string, rest: seq<string>, parts: seq<string>)
    requires line != [] && !IsTotalHtLine(line)
    ensures Emitted(line, parts).Some? ==>
      DescriptionWords(Scan([line] + rest, parts))
      == Words(Emitted(line, parts).value.description) + DescriptionWords(Scan(rest, NextParts(line, parts)))
    ensures Emitted(line, parts).None? ==>
      DescriptionWords(Scan([line] + rest, parts)) == DescriptionWords(Scan(rest, NextParts(line, parts)))
  {
    ScanCons(line, rest, parts);
    EmitWords(Emitted(line, parts), Scan(rest, NextParts(line, parts)));
  }

  /** Scan step for a quantity line, given where its article's words come
      from. */
  lemma FiguresLineWords(line: string, rest: seq<string>, parts: seq<string>)
    requires line != [] && !IsTotalHtLine(line) && !Classify(line).Description?
    requires Emitted(line, parts).Some? ==>
      IsSubseq(Words(Emitted(line, parts).value.description), WordsOf(parts) + Words(line))
    requires IsSubseq(DescriptionWords(Scan(rest, [])), WordsOf(rest))
    ensures IsSubseq(DescriptionWords(Scan([line] + rest, parts)), WordsOf(parts) + WordsOf([line] + rest))
  {
    var item := Emitted(line, parts);
    var head := if item.Some? then Words(item.value.description) else [];
    assert NextParts(line, parts) == [];
    ScanConsWords(line, rest, parts);
    if item.None? {
      assert IsSubseq(head, WordsOf(parts) + Words(line));
    }
    WordsOfCons(line, rest);
    ConsSubseq(DescriptionWords(Scan([line] + rest, parts)), head, DescriptionWords(Scan(rest, [])),
      WordsOf(parts), Words(line), WordsOf(rest));
  }

  /** Scan step for a description line: it joins the buffer. */
  lemma DescriptionLineWords(line: string, rest: seq<string>, parts: seq<string>)
    requires line != [] && !IsTotalHtLine(line) && Classify(line).Description?
    requires IsSubseq(DescriptionWords(Scan(rest, parts + [line])), WordsOf(parts + [line]) + WordsOf(rest))
    ensures IsSubseq(DescriptionWords(Scan([line] + rest, parts)), WordsOf(parts) + WordsOf([line] + rest))
  {
    ScanCons(line, rest, parts);
    WordsOfSnoc(parts, line);
    WordsOfCons(line, rest);
    SubseqRegroup(DescriptionWords(Scan(rest, parts + [line])), WordsOf(parts), Words(line), WordsOf(rest));
  }

  /** Scan step for an empty line: skipped. */
  lemma EmptyLineWords(rest: seq<string>, parts: seq<string>)
    requires IsSubseq(DescriptionWords(Scan(rest, parts)), WordsOf(parts) + WordsOf(rest))
    ensures IsSubseq(DescriptionWords(Scan([""] + rest, parts)), WordsOf(parts) + WordsOf([""] + rest))
  {
    ScanBlank(rest, parts);
    WordsOfCons("", rest);
    assert Words("") == [];
    assert [] + WordsOf(rest) == WordsOf(rest);
  }

  /** Descriptions are made of the table's text: their words, in order, are
      a selection from the words of the buffered lines and of the lines
      read, each word used at most once. */
  lemma {:induction false} ScanDescriptionWords(lines: seq<string>, parts: seq<string>)
    requires AllNormal(lines)
    requires AllLines(parts)
    ensures IsSubseq(DescriptionWords(Scan(lines, parts)), WordsOf(parts) + WordsOf(lines))
    decreases |lines|
  {
    if lines != [] {
      var line, rest := lines[0], lines[1..];
      assert lines == [line] + rest;
      if line == [] {
        ScanDescriptionWords(rest, parts);
        EmptyLineWords(rest, parts);
      } else if IsTotalHtLine(line) {
        assert Scan(lines, parts) == [];
      } else {
        match Classify(line)
        case Inline(_, _) =>
          ScanDescriptionWords(rest, []);
          assert WordsOf([]) + WordsOf(rest) == WordsOf(rest);
          InlineEmitWords(line, parts);
          FiguresLineWords(line, rest, parts);
        case Alone(_) =>
          ScanDescriptionWords(rest, []);
          assert WordsOf([]) + WordsOf(rest) == WordsOf(rest);
          AloneEmitWords(line, parts);
          FiguresLineWords(line, rest, parts);
        case Description =>
          ScanDescriptionWords(rest, parts + [line]);
          DescriptionLineWords(line, rest, parts);
      }
    }
  }

  // ---------------------------------------------------------------------------
  // The whole quote

  lemma {:induction false} NormalizeAllAppend(a: seq<string>, b: seq<string>)
    ensures NormalizeAll(a + b) == NormalizeAll(a) + NormalizeAll(b)
    decreases |a|
  {
    if a == [] {
      assert a + b == b;
    } else {
      assert (a + b)[1..] == a[1..] + b;
      NormalizeAllAppend(a[1..], b);
    }
  }

  lemma {:induction false} NormalizeAllAt(ls: seq<string>)
    ensures forall i :: 0 <= i < |ls| ==> NormalizeAll(ls)[i] == NormalizeLine(ls[i])
    decreases |ls|
  {
    if ls != [] {
      NormalizeAllAt(ls[1..]);
    }
  }

  lemma {:induction false} NormalizeAllFacts(ls: seq<string>)
    ensures AllNormal(NormalizeAll(ls))
    ensures WordsOf(NormalizeAll(ls)) == WordsOf(ls)
    decreases |ls|
  {
    if ls != [] {
      NormalizeAllFacts(ls[1..]);
      NormalizeLineIsNormalize(ls[0]);
      NormalizeIsNormal(ls[0]);
      NormalizeWords(ls[0]);
    }
  }

  lemma {:induction false} FirstMatchSpec(ls: seq<string>, p: Pattern)
    ensures FirstMatch(ls, p).None? <==> forall i :: 0 <= i < |ls| ==> !Occurs(ls[i], p)
    ensures FirstMatch(ls, p).Some? ==>
      Occurs(ls[FirstMatch(ls, p).value], p)
      && forall j :: 0 <= j < FirstMatch(ls, p).value ==> !Occurs(ls[j], p)
    decreases |ls|
  {
    if ls != [] && !Occurs(ls[0], p) {
      FirstMatchSpec(ls[1..], p);
      assert forall i :: 1 <= i < |ls| ==> ls[i] == ls[1..][i - 1];
    }
  }

  lemma {:induction false} FirstMatchBefore(a: seq<string>, b: seq<string>, p: Pattern)
    requires FirstMatch(a, p).Some?
    ensures FirstMatch(a + b, p) == FirstMatch(a, p)
    decreases |a|
  {
    if !Occurs(a[0], p) {
      assert (a + b)[1..] == a[1..] + b;
      FirstMatchBefore(a[1..], b, p);
    }
  }

  lemma {:induction false} FirstMatchAfter(a: seq<string>, b: seq<string>, p: Pattern)
    requires forall i :: 0 <= i < |a| ==> !Occurs(a[i], p)
    ensures FirstMatch(b, p).None? ==> FirstMatch(a + b, p).None?
    ensures FirstMatch(b, p).Some? ==> FirstMatch(a + b, p) == Some(|a| + FirstMatch(b, p).value)
    decreases |a|
  {
    if a == [] {
      assert a + b == b;
    } else {
      assert (a + b)[1..] == a[1..] + b;
      assert (a + b)[0] == a[0];
      FirstMatchAfter(a[1..], b, p);
    }
  }

  lemma ItemsAfterNoHeader(norm: seq<string>, p: Pattern)
    requires forall i :: 0 <= i < |norm| ==> !Occurs(norm[i], p)
    ensures ItemsAfter(norm, p) == []
  {
    FirstMatchSpec(norm, p);
  }

  lemma ItemsAfterPreamble(np: seq<string>, nl: seq<string>, p: Pattern)
    requires forall i :: 0 <= i < |np| ==> !Occurs(np[i], p)
    ensures ItemsAfter(np + nl, p) == ItemsAfter(nl, p)
  {
    FirstMatchAfter(np, nl, p);
    if FirstMatch(nl, p).Some? {
      var h := FirstMatch(nl, p).value;
      assert (np + nl)[|np| + h + 1..] == nl[h + 1..];
    }
  }

  lemma ItemsAfterTotal(n: seq<string>, h: nat, r: seq<string>, p: Pattern)
    requires h < |n| - 1 && Occurs(n[h], p)
    requires IsTotalHtLine(n[|n| - 1])
    ensures ItemsAfter(n + r, p) == ItemsAfter(n, p)
  {
    FirstMatchSpec(n, p);
    FirstMatchBefore(n, r, p);
    var h0 := FirstMatch(n, p).value;
    assert h0 <= h;
    var t := n[|n| - 1];
    OccursIsLongEnough(t, TotalHtPattern);
    var mid := n[h0 + 1..|n| - 1];
    assert n[h0 + 1..] == mid + [t];
    assert (n + r)[h0 + 1..] == mid + [t] + r;
    ScanStopsAtTotal(mid, t, r, []);
  }

  lemma ItemsAfterValid(norm: seq<string>, p: Pattern)
    ensures forall i :: 0 <= i < |ItemsAfter(norm, p)| ==> ValidItem(ItemsAfter(norm, p)[i])
  {
    if FirstMatch(norm, p).Some? {
      ScanItemsValid(norm[FirstMatch(norm, p).value + 1..], []);
    }
  }

  lemma AllNormalSuffix(norm: seq<string>, k: nat)
    requires k <= |norm|
    requires AllNormal(norm)
    ensures AllNormal(norm[k..])
  {
    forall i | 0 <= i < |norm[k..]|
      ensures IsNormal(norm[k..][i])
    {
      assert norm[k..][i] == norm[k + i];
    }
  }

  lemma BodyWords(norm: seq<string>, h: nat)
    requires h < |norm|
    requires AllNormal(norm)
    ensures IsSubseq(DescriptionWords(Scan(norm[h + 1..], [])), WordsOf(norm))
  {
    AllNormalSuffix(norm, h + 1);
    ScanFreshWords(norm[h + 1..]);
    SubseqOfSuffixWords(DescriptionWords(Scan(norm[h + 1..], [])), norm, h + 1);
  }

  lemma SubseqOfSuffixWords(x: seq<string>, ls: seq<string>, k: nat)
    requires k <= |ls|
    requires IsSubseq(x, WordsOf(ls[k..]))
    ensures IsSubseq(x, WordsOf(ls))
  {
    WordsOfSuffix(ls, k);
    SubseqPadLeft(x, WordsOf(ls[..k]), WordsOf(ls[k..]));
  }

  lemma ScanFreshWords(body: seq<string>)
    requires AllNormal(body)
    ensures IsSubseq(DescriptionWords(Scan(body, [])), WordsOf(body))
  {
    ScanDescriptionWords(body, []);
    assert WordsOf([]) + WordsOf(body) == WordsOf(body);
  }

  lemma ItemsAfterWords(norm: seq<string>, p: Pattern)
    requires AllNormal(norm)
    ensures IsSubseq(DescriptionWords(ItemsAfter(norm, p)), WordsOf(norm))
  {
    if FirstMatch(norm, p).Some? {
      BodyWords(norm, FirstMatch(norm, p).value);
    }
  }

  lemma OccursIsLongEnough(line: string, p: Pattern)
    requires Occurs(line, p)
    ensures |p| <= |line|
  {
  }

  lemma {:induction false} WordsOfSuffix(ls: seq<string>, k: nat)
    requires k <= |ls|
    ensures WordsOf(ls) == WordsOf(ls[..k]) + WordsOf(ls[k..])
  {
    WordsOfAppend(ls[..k], ls[k..]);
    assert ls[..k] + ls[k..] == ls;
  }

  /** A quote without the column header yields no article. */
  lemma ExtractNoHeader(lines: seq<string>)
    requires forall i :: 0 <= i < |lines| ==> !IsHeaderLine(NormalizeLine(lines[i]))
    ensures ExtractItemsFromAudaceQuote(lines) == []
  {
    NormalizeAllAt(lines);
    ItemsAfterNoHeader(NormalizeAll(lines), HeaderPattern);
  }

  /** Lines before the header, none of which is a header, change nothing. */
  lemma ExtractIgnoresPreamble(pre: seq<string>, lines: seq<string>)
    requires forall i :: 0 <= i < |pre| ==> !IsHeaderLine(NormalizeLine(pre[i]))
    ensures ExtractItemsFromAudaceQuote(pre + lines) == ExtractItemsFromAudaceQuote(lines)
  {
    NormalizeAllAppend(pre, lines);
    NormalizeAllAt(pre);
    ItemsAfterPreamble(NormalizeAll(pre), NormalizeAll(lines), HeaderPattern);
  }

  /** The articles are read from the lines strictly after the first header
      line, with an empty description buffer. */
  lemma ExtractAfterHeader(pre: seq<string>, h: string, rest: seq<string>)
    requires forall i :: 0 <= i < |pre| ==> !IsHeaderLine(NormalizeLine(pre[i]))
    requires IsHeaderLine(NormalizeLine(h))
    ensures ExtractItemsFromAudaceQuote(pre + ([h] + rest)) == Scan(NormalizeAll(rest), [])
  {
    ExtractIgnoresPreamble(pre, [h] + rest);
    NormalizeAllCons(h, rest);
    ItemsAfterHeader(NormalizeLine(h), NormalizeAll(rest), HeaderPattern);
  }

  lemma NormalizeAllCons(h: string, rest: seq<string>)
    ensures NormalizeAll([h] + rest) == [NormalizeLine(h)] + NormalizeAll(rest)
  {
    assert ([h] + rest)[1..] == rest;
  }

  lemma ItemsAfterHeader(h: string, rest: seq<string>, p: Pattern)
    requires Occurs(h, p)
    ensures ItemsAfter([h] + rest, p) == Scan(rest, [])
  {
    assert ([h] + rest)[1..] == rest;
  }

  /** Once the table has ended with a "TOTAL HT" line after the header,
      whatever follows changes nothing. */
  lemma ExtractStopsAtTotal(lines: seq<string>, h: nat, rest: seq<string>)
    requires h < |lines| - 1
    requires IsHeaderLine(NormalizeLine(lines[h]))
    requires IsTotalHtLine(NormalizeLine(lines[|lines| - 1]))
    ensures ExtractItemsFromAudaceQuote(lines + rest) == ExtractItemsFromAudaceQuote(lines)
  {
    NormalizeAllAppend(lines, rest);
    NormalizeAllAt(lines);
    ItemsAfterTotal(NormalizeAll(lines), h, NormalizeAll(rest), HeaderPattern);
  }

  /** The articles of a quote are read from the lines strictly between the
      first header line and the next "TOTAL HT" line: the total line and
      everything after it are never read. */
  lemma ExtractBetweenHeaderAndTotal(pre: seq<string>, h: string, mid: seq<string>, t: string, rest: seq<string>)
    requires forall i :: 0 <= i < |pre| ==> !IsHeaderLine(NormalizeLine(pre[i]))
    requires IsHeaderLine(NormalizeLine(h))
    requires IsTotalHtLine(NormalizeLine(t))
    ensures ExtractItemsFromAudaceQuote(pre + ([h] + (mid + [t] + rest))) == Scan(NormalizeAll(mid), [])
  {
    var nt := NormalizeLine(t);
    ExtractAfterHeader(pre, h, mid + [t] + rest);
    NormalizeAllAppend(mid + [t], rest);
    NormalizeAllAppend(mid, [t]);
    assert NormalizeAll([t]) == [nt];
    OccursIsLongEnough(nt, TotalHtPattern);
    ScanStopsAtTotal(NormalizeAll(mid), nt, NormalizeAll(rest), []);
  }

  /** Every article of a quote has a description and a positive quantity. */
  lemma ExtractItemsValid(lines: seq<string>)
    ensures forall i :: 0 <= i < |ExtractItemsFromAudaceQuote(lines)| ==> ValidItem(ExtractItemsFromAudaceQuote(lines)[i])
  {
    ItemsAfterValid(NormalizeAll(lines), HeaderPattern);
  }

  /** The descriptions of a quote are taken from its text: their words, in
      order, are a selection from the words of the input lines. */
  lemma ExtractDescriptionWords(lines: seq<string>)
    ensures IsSubseq(DescriptionWords(ExtractItemsFromAudaceQuote(lines)), WordsOf(lines))
  {
    NormalizeAllFacts(lines);
    ItemsAfterWords(NormalizeAll(lines), HeaderPattern);
  }
}
