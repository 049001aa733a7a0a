/** Line reconstruction: the text items of one PDF page, each with a baseline
    and a height, are grouped into whitespace-normalised lines.  A line ends
    when an item's baseline jumps by more than a tolerance from the line's
    baseline, or after an item flagged as ending a line. */
module LineBuilder {

  import opened Wrappers
  import opened Text

  /** The two entries of a text item's transform matrix `[a, b, c, d, e, f]`
      that the builder reads: the vertical scale `d` (fallback height) and
      the baseline `f`. */
  datatype Transform = Transform(d: real, f: real)

  /** One item of a page's text content. */
  datatype TextItem = TextItem(str: string, height: real, transform: Option<Transform>, hasEOL: bool)

  /** The builder's state: the lines emitted so far, the parts of the line in
      progress, and the baseline of that line (absent until a positioned item
      arrives, and again after an end-of-line item). */
  datatype Builder = Builder(lines: seq<string>, parts: seq<string>, baseline: Option<real>)

  const Start: Builder := Builder([], [], None)

  function Abs(x: real): real {
    if x < 0.0 then -x else x
  }

  /** The item's text with no-break spaces replaced, runs collapsed, trimmed. */
  function ItemText(it: TextItem): string {
    NormalizeLine(it.str)
  }

  function ItemBaseline(it: TextItem): Option<real> {
    match it.transform
    case Some(t) => Some(t.f)
    case None => None
  }

  /** The item's own height when non-zero, else the magnitude of the
      transform's vertical scale, else 0. */
  function ItemHeight(it: TextItem): real {
    if it.height != 0.0 then it.height
    else match it.transform
      case Some(t) => Abs(t.d)
      case None => 0.0
  }

  /** The largest baseline difference still read as the same line: 0.6 of the
      height (9 when the height is 0), and never less than 2. */
  function Tolerance(it: TextItem): (tol: real)
    ensures tol >= 2.0
    ensures tol >= (if ItemHeight(it) != 0.0 then ItemHeight(it) else 9.0) * 0.6
    ensures tol == 2.0 || tol == (if ItemHeight(it) != 0.0 then ItemHeight(it) else 9.0) * 0.6
  {
    var h := ItemHeight(it);
    var scaled := (if h != 0.0 then h else 9.0) * 0.6;
    if scaled > 2.0 then scaled else 2.0
  }

  /** The builder's invariant: every emitted line and every pending part is
      non-empty and normal. */
  ghost predicate Wellformed(b: Builder) {
    AllLines(b.lines) && AllLines(b.parts)
  }

  /** `pushLine`: the pending parts, joined by spaces, collapsed and trimmed,
      become a new line unless that is empty; the parts are emptied in every
      case, and no word is lost or reordered. */
  function Flush(b: Builder): (r: Builder)
    ensures r.parts == [] && r.baseline == b.baseline
    ensures r.lines == b.lines || (|r.lines| == |b.lines| + 1 && r.lines[..|b.lines|] == b.lines && IsLine(r.lines[|b.lines|]))
    ensures WordsOf(r.lines) == WordsOf(b.lines) + WordsOf(b.parts)
    ensures AllLines(b.parts) && b.parts != [] ==> r.lines == b.lines + [Join(b.parts, " ")]
  {
    if b.parts == [] then b
    else
      var joined := Normalize(Join(b.parts, " "));
      PushedLineFacts(b.lines, b.parts);
      if joined != "" then Builder(b.lines + [joined], [], b.baseline)
      else Builder(b.lines, [], b.baseline)
  }

  /** The line in progress has parts, both baselines are known, and they
      differ by more than the item's tolerance. */
  predicate Jump(b: Builder, it: TextItem) {
    && b.parts != []
    && b.baseline.Some?
    && ItemBaseline(it).Some?
    && Abs(ItemBaseline(it).value - b.baseline.value) > Tolerance(it)
  }

  /** Before an item's text is added: a jump flushes the line in progress and
      adopts the item's baseline; otherwise a missing line baseline is taken
      from the item. */
  function Place(b: Builder, it: TextItem): Builder {
    if Jump(b, it) then Flush(b).(baseline := ItemBaseline(it))
    else b.(baseline := if b.baseline.None? then ItemBaseline(it) else b.baseline)
  }

  /** One iteration of the loop of `buildLinesFromTextContent`: blank items
      are skipped; otherwise the text joins the line (after a possible
      break), and an end-of-line item then closes the line and forgets its
      baseline. */
  function Step(b: Builder, it: TextItem): Builder {
    if it.str == "" then b
    else
      var text := ItemText(it);
      if text == "" then b
      else
        var placed := Place(b, it);
        var appended := placed.(parts := placed.parts + [text]);
        if it.hasEOL then Flush(appended).(baseline := None) else appended
  }

  function Feed(b: Builder, items: seq<TextItem>): Builder
    decreases |items|
  {
    if items == [] then b else Feed(Step(b, items[0]), items[1..])
  }

  /** `buildLinesFromTextContent`: every item folded in, then the line in
      progress flushed. */
  function BuildLines(items: seq<TextItem>): seq<string> {
    Flush(Feed(Start, items)).lines
  }

  /** The non-empty cleaned texts of the items, in order: what the lines are
      made of. */
  function Texts(items: seq<TextItem>): seq<string> {
    if items == [] then []
    else if ItemText(items[0]) == "" then Texts(items[1..])
    else [ItemText(items[0])] + Texts(items[1..])
  }

  /** The items whose cleaned text is not empty. */
  function NonBlank(items: seq<TextItem>): (r: seq<TextItem>)
    ensures |r| <= |items|
    ensures forall i :: 0 <= i < |r| ==> ItemText(r[i]) != ""
  {
    if items == [] then []
    else if ItemText(items[0]) == "" then NonBlank(items[1..])
    else [items[0]] + NonBlank(items[1..])
  }

  // ---------------------------------------------------------------------------
  // Lemmas

  /** What `Flush` needs about the line it may push. */
  lemma PushedLineFacts(lines: seq<string>, parts: seq<string>)
    ensures IsNormal(Normalize(Join(parts, " ")))
    ensures Words(Normalize(Join(parts, " "))) == WordsOf(parts)
    ensures WordsOf(lines + [Normalize(Join(parts, " "))]) == WordsOf(lines) + WordsOf(parts)
    ensures Normalize(Join(parts, " ")) == [] ==> WordsOf(parts) == []
    ensures AllLines(parts) && parts != [] ==> Normalize(Join(parts, " ")) == Join(parts, " ")
  {
    var joined := Normalize(Join(parts, " "));
    NormalizeIsNormal(Join(parts, " "));
    NormalizeWords(Join(parts, " "));
    WordsOfJoin(parts);
    WordsOfAppend(lines, [joined]);
    assert WordsOf([joined]) == Words(joined);
    if AllLines(parts) && parts != [] {
      JoinNormal(parts);
      NormalizeOfNormal(Join(parts, " "));
    }
  }

  lemma ItemTextIsNormal(it: TextItem)
    ensures IsNormal(ItemText(it))
  {
    NormalizeIsNormal(ReplaceNbsp(it.str));
  }

  lemma PlaceKeepsText(b: Builder, it: TextItem)
    requires Wellformed(b)
    ensures Wellformed(Place(b, it))
    ensures WordsOf(Place(b, it).lines) + WordsOf(Place(b, it).parts) == WordsOf(b.lines) + WordsOf(b.parts)
  {
  }

  lemma AppendKeepsText(b: Builder, text: string)
    requires Wellformed(b) && IsLine(text)
    ensures Wellformed(b.(parts := b.parts + [text]))
    ensures WordsOf(b.lines) + WordsOf(b.parts + [text]) == WordsOf(b.lines) + WordsOf(b.parts) + Words(text)
  {
    WordsOfAppend(b.parts, [text]);
    assert WordsOf([text]) == Words(text);
  }

  lemma BlankText(it: TextItem)
    requires it.str == "" || ItemText(it) == ""
    ensures ItemText(it) == "" && Texts([it]) == []
  {
    if it.str == "" {
      NormalizeIsJoinOfWords(ReplaceNbsp(""));
    }
  }

  /** One item moves its cleaned text, whole, to the end of the builder's
      content, and keeps the builder well formed. */
  lemma StepKeepsText(b: Builder, it: TextItem)
    requires Wellformed(b)
    ensures Wellformed(Step(b, it))
    ensures WordsOf(Step(b, it).lines) + WordsOf(Step(b, it).parts)
         == WordsOf(b.lines) + WordsOf(b.parts) + WordsOf(Texts([it]))
  {
    if it.str == "" || ItemText(it) == "" {
      BlankText(it);
    } else {
      var text := ItemText(it);
      ItemTextIsNormal(it);
      assert Texts([it]) == [text];
      assert WordsOf([text]) == Words(text);
      var placed := Place(b, it);
      PlaceKeepsText(b, it);
      AppendKeepsText(placed, text);
    }
  }

  lemma {:induction false} FeedKeepsText(b: Builder, items: seq<TextItem>)
    requires Wellformed(b)
    ensures Wellformed(Feed(b, items))
    ensures WordsOf(Feed(b, items).lines) + WordsOf(Feed(b, items).parts)
         == WordsOf(b.lines) + WordsOf(b.parts) + WordsOf(Texts(items))
    decreases |items|
  {
    if items != [] {
      var next := Step(b, items[0]);
      assert Feed(b, items) == Feed(next, items[1..]);
      StepKeepsText(b, items[0]);
      FeedKeepsText(next, items[1..]);
      var first, rest := Texts([items[0]]), Texts(items[1..]);
      TextsCons(items);
      WordsOfAppend(first, rest);
      assert WordsOf(Texts(items)) == WordsOf(first) + WordsOf(rest);
    }
  }

  lemma TextsCons(items: seq<TextItem>)
    requires items != []
    ensures Texts(items) == Texts([items[0]]) + Texts(items[1..])
  {
    assert [items[0]][1..] == [];
  }

  lemma TextsAreLines(items: seq<TextItem>)
    ensures AllLines(Texts(items))
  {
    if items != [] {
      ItemTextIsNormal(items[0]);
      TextsAreLines(items[1..]);
    }
  }

  /** Every reconstructed line is non-empty, trimmed and single-spaced. */
  lemma BuildLinesWellformed(items: seq<TextItem>)
    ensures AllLines(BuildLines(items))
  {
    FeedKeepsText(Start, items);
  }

  /** No text is lost, added or reordered: the lines joined by single spaces
      equal the items' non-empty cleaned texts joined by single spaces. */
  lemma BuildLinesKeepsText(items: seq<TextItem>)
    ensures Join(BuildLines(items), " ") == Join(Texts(items), " ")
  {
    var lines := BuildLines(items);
    FeedKeepsText(Start, items);
    assert WordsOf(lines) == WordsOf(Texts(items));
    TextsAreLines(items);
    JoinNormal(lines);
    JoinNormal(Texts(items));
    WordsOfJoin(lines);
    WordsOfJoin(Texts(items));
    NormalEqualByWords(Join(lines, " "), Join(Texts(items), " "));
  }

  /** Items whose text is empty or blank after clean-up change nothing, not
      even when they carry an end-of-line flag. */
  lemma {:induction false} FeedSkipsBlank(b: Builder, items: seq<TextItem>)
    ensures Feed(b, items) == Feed(b, NonBlank(items))
    decreases |items|
  {
    if items != [] {
      FeedSkipsBlank(Step(b, items[0]), items[1..]);
      if ItemText(items[0]) == "" {
        assert NonBlank(items) == NonBlank(items[1..]);
        FeedSkipsBlank(b, items[1..]);
      } else {
        assert NonBlank(items) == [items[0]] + NonBlank(items[1..]);
        assert NonBlank(items)[1..] == NonBlank(items[1..]);
      }
    }
  }

  lemma BlankItemsIgnored(items: seq<TextItem>)
    ensures BuildLines(items) == BuildLines(NonBlank(items))
  {
    FeedSkipsBlank(Start, items);
  }

  /** Within a line, a non-blank item without an end-of-line flag starts a new
      line exactly when its baseline jumps by more than the tolerance. */
  lemma LineBreakIffJump(b: Builder, it: TextItem)
    requires Wellformed(b) && b.parts != []
    requires ItemText(it) != "" && !it.hasEOL
    ensures Step(b, it).lines != b.lines <==> Jump(b, it)
    ensures Jump(b, it) ==> Step(b, it).parts == [ItemText(it)]
    ensures !Jump(b, it) ==> Step(b, it).parts == b.parts + [ItemText(it)]
  {
    if it.str == "" {
      BlankText(it);
    }
    if Jump(b, it) {
      assert |Flush(b).lines| == |b.lines| + 1;
    }
  }

  /** A baseline wobble of at most 2 never splits a line, whatever the height. */
  lemma SmallJitterStaysOnLine(b: Builder, it: TextItem)
    requires Wellformed(b) && b.parts != []
    requires ItemText(it) != "" && !it.hasEOL
    requires b.baseline.Some? && ItemBaseline(it).Some?
    requires Abs(ItemBaseline(it).value - b.baseline.value) <= 2.0
    ensures Step(b, it).lines == b.lines
    ensures Step(b, it).parts == b.parts + [ItemText(it)]
  {
    LineBreakIffJump(b, it);
  }

  /** An item flagged as ending a line closes the line in progress, its own
      text last, and forgets the baseline. */
  lemma EndOfLineClosesLine(b: Builder, it: TextItem)
    requires Wellformed(b)
    requires ItemText(it) != "" && it.hasEOL
    ensures Step(b, it).parts == [] && Step(b, it).baseline.None?
    ensures Jump(b, it) ==> Step(b, it).lines == b.lines + [Join(b.parts, " "), ItemText(it)]
    ensures !Jump(b, it) ==> Step(b, it).lines == b.lines + [Join(b.parts + [ItemText(it)], " ")]
  {
    if it.str == "" {
      BlankText(it);
    }
    ItemTextIsNormal(it);
    var placed := Place(b, it);
    PlaceKeepsText(b, it);
    AppendKeepsText(placed, ItemText(it));
    if Jump(b, it) {
      assert Join([ItemText(it)], " ") == ItemText(it);
    }
  }

  /** After a line has been closed, the next non-blank item begins a line of
      its own whatever its position. */
  lemma ClosedLineStartsFresh(b: Builder, next: TextItem)
    requires b.parts == [] && b.baseline.None?
    requires ItemText(next) != "" && !next.hasEOL
    ensures Step(b, next).lines == b.lines
    ensures Step(b, next).parts == [ItemText(next)]
  {
    if next.str == "" {
      BlankText(next);
    }
  }

  /** Together: after an end-of-line item, the next non-blank item starts a
      new line. */
  lemma EndOfLineStartsNewLine(b: Builder, it: TextItem, next: TextItem)
    requires Wellformed(b)
    requires ItemText(it) != "" && it.hasEOL
    requires ItemText(next) != "" && !next.hasEOL
    ensures Step(Step(b, it), next).lines == Step(b, it).lines
    ensures Step(Step(b, it), next).parts == [ItemText(next)]
  {
    EndOfLineClosesLine(b, it);
    ClosedLineStartsFresh(Step(b, it), next);
  }
}
