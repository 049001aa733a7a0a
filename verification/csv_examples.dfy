/** Worked exports: quoting and ordering on small tables. */
module CsvExamples {

  import opened Wrappers
  import opened Text
  import opened Aggregate
  import opened Csv

  /** Ties on the total are broken by description; larger totals come first. */
  lemma ExportOrder(a: Entry, b: Entry, c: Entry)
    requires a == Entry("Vis", 1.0) && b == Entry("Ecrou", 1.0) && c == Entry("Rondelle", 2.0)
    ensures SortEntries([a, b, c]) == [c, b, a]
  {
    assert Before(b, a) && Before(c, b) && Before(c, a);
    assert [a, b, c][1..] == [b, c] && [b, c][1..] == [c] && [c][1..] == [];
    assert SortEntries([c]) == [c];
    assert Insert(b, [c]) == [c, b];
    assert SortEntries([b, c]) == [c, b];
    assert Insert(a, [b]) == [b, a];
    assert Insert(a, [c, b]) == [c] + Insert(a, [b]);
  }

  /** A description holding one quoted word has its quotes doubled inside
      the quoted field, and the decimal point of the total becomes a comma:
      `Vis "inox"` with total 2.5 gives `"Vis ""inox""",2,5`. */
  lemma QuotedWordRow(e: Entry, show: real -> string, pre: string, w: string, ip: string, fs: string)
    requires '"' !in pre && '"' !in w && '.' !in ip
    requires e.article == pre + "\"" + w + "\"" && show(e.qty) == ip + "." + fs
    ensures CsvRow(show, e) == "\"" + pre + "\"\"" + w + "\"\"\"," + ip + "," + fs
  {
    EscapeInnerQuotes(pre, w);
    RenderQtyDecimal(show, e.qty, ip, fs);
  }

  lemma EscapeInnerQuotes(pre: string, w: string)
    requires '"' !in pre && '"' !in w
    ensures EscapeQuotes(pre + "\"" + w + "\"") == pre + "\"\"" + w + "\"\""
  {
    EscapePlain(pre);
    EscapePlain(w);
    assert EscapeQuotes("\"") == "\"\"" by {
      assert "\""[1..] == [];
    }
    var t := "\"" + (w + "\"");
    EscapeAppend(pre, t);
    EscapeAppend("\"", w + "\"");
    EscapeAppend(w, "\"");
    assert pre + "\"" + w + "\"" == pre + t;
    assert pre + ("\"\"" + (w + "\"\"")) == pre + "\"\"" + w + "\"\"";
  }

  lemma {:induction false} EscapePlain(s: string)
    requires '"' !in s
    ensures EscapeQuotes(s) == s
    decreases |s|
  {
    if s != [] {
      EscapePlain(s[1..]);
    }
  }

  lemma {:induction false} EscapeAppend(a: string, b: string)
    ensures EscapeQuotes(a + b) == EscapeQuotes(a) + EscapeQuotes(b)
    decreases |a|
  {
    if a == [] {
      assert a + b == b;
    } else {
      assert (a + b)[0] == a[0];
      assert (a + b)[1..] == a[1..] + b;
      EscapeAppend(a[1..], b);
    }
  }

  /** A table of one entry exports as the header and that entry's row. */
  lemma OneEntryExport(e: Entry, show: real -> string)
    ensures BuildCsvContent([e], show) == Some(CsvHeader + "\n" + CsvRow(show, e))
  {
    assert SortEntries([e]) == Insert(e, []);
    assert CsvRows(show, [e]) == [CsvRow(show, e)];
    assert [CsvHeader] + [CsvRow(show, e)] == [CsvHeader, CsvRow(show, e)];
    JoinCons(CsvHeader, [CsvRow(show, e)], "\n");
  }
}
