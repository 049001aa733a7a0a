/** The CSV export of the article totals: a header line, then one line per
    article, largest total first and ties in description order, each
    description quoted with its inner quotes doubled. */
module Csv {

  import opened Wrappers
  import opened Text
  import opened Numbers
  import opened Aggregate
  import opened Analyzer

  const CsvHeader := "designation,quantite_totale"

  // ---------------------------------------------------------------------------
  // Order

  /** The order used to break ties between equal totals: character-code
      lexicographic order, standing in for the French collation of the
      browser. */
  predicate LexLess(a: string, b: string)
    decreases |a|
  {
    if a == [] then b != []
    else b != [] && (a[0] < b[0] || (a[0] == b[0] && LexLess(a[1..], b[1..])))
  }

  /** `x` is listed before `y`: a larger total, or the same total and an
      earlier description. */
  predicate Before(x: Entry, y: Entry) {
    x.qty > y.qty || (x.qty == y.qty && LexLess(x.article, y.article))
  }

  /** No entry is listed after one that should follow it. */
  ghost predicate Sorted(s: seq<Entry>) {
    forall i, j :: 0 <= i < j < |s| ==> !Before(s[j], s[i])
  }

  /** Insert `e` in front of the first entry it is not listed after. */
  function Insert(e: Entry, s: seq<Entry>): (r: seq<Entry>)
    ensures |r| == |s| + 1
  {
    if s == [] || !Before(s[0], e) then [e] + s
    else [s[0]] + Insert(e, s[1..])
  }

  /** The entries in export order. */
  function SortEntries(s: seq<Entry>): (r: seq<Entry>)
    ensures |r| == |s|
  {
    if s == [] then [] else Insert(s[0], SortEntries(s[1..]))
  }

  // ---------------------------------------------------------------------------
  // Text

  /** Every `"` doubled. */
  function EscapeQuotes(s: string): (r: string)
    ensures |r| >= |s|
  {
    if s == [] then []
    else if s[0] == '"' then "\"\"" + EscapeQuotes(s[1..])
    else [s[0]] + EscapeQuotes(s[1..])
  }

  function Quote(s: string): string {
    "\"" + EscapeQuotes(s) + "\""
  }

  /** Read a quoted field whose opening quote is already consumed: `""`
      stands for one quote, a lone `"` closes the field.  Gives the field
      and what follows it. */
  function ReadQuotedBody(s: string): Option<(string, string)>
    decreases |s|
  {
    if s == [] then None
    else if s[0] == '"' then
      if |s| >= 2 && s[1] == '"' then
        match ReadQuotedBody(s[2..])
        case None => None
        case Some(fr) => Some(("\"" + fr.0, fr.1))
      else Some(("", s[1..]))
    else
      match ReadQuotedBody(s[1..])
      case None => None
      case Some(fr) => Some(([s[0]] + fr.0, fr.1))
  }

  /** Read a quoted field at the start of `s`. */
  function ReadQuoted(s: string): Option<(string, string)> {
    if s != [] && s[0] == '"' then ReadQuotedBody(s[1..]) else None
  }

  /** `qty.toString().replace(".", ",")`: the number's text (given by
      `show`) with its first point turned into a decimal comma. */
  function RenderQty(show: real -> string, q: real): string {
    ReplaceFirst(show(q), '.', ',')
  }

  function CsvRow(show: real -> string, e: Entry): string {
    Quote(e.article) + "," + RenderQty(show, e.qty)
  }

  function CsvRows(show: real -> string, es: seq<Entry>): (rows: seq<string>)
    ensures |rows| == |es|
  {
    if es == [] then [] else [CsvRow(show, es[0])] + CsvRows(show, es[1..])
  }

  /** `buildCsvContent`: nothing for an empty table, else the header and one
      row per entry in export order, joined by newlines. */
  function BuildCsvContent(agg: seq<Entry>, show: real -> string): (r: Option<string>)
    ensures r.None? <==> agg == []
  {
    if agg == [] then None
    else Some(Join([CsvHeader] + CsvRows(show, SortEntries(agg)), "\n"))
  }

  // ---------------------------------------------------------------------------
  // The order is total on distinct entries

  lemma {:induction false} LexLessIrreflexive(a: string)
    ensures !LexLess(a, a)
    decreases |a|
  {
    if a != [] {
      LexLessIrreflexive(a[1..]);
    }
  }

  lemma {:induction false} LexLessTotal(a: string, b: string)
    requires a != b
    ensures LexLess(a, b) || LexLess(b, a)
    decreases |a|
  {
    if a != [] && b != [] && a[0] == b[0] {
      assert a == [a[0]] + a[1..] && b == [b[0]] + b[1..];
      LexLessTotal(a[1..], b[1..]);
    }
  }

  lemma {:induction false} LexLessTransitive(a: string, b: string, c: string)
    requires LexLess(a, b) && LexLess(b, c)
    ensures LexLess(a, c)
    decreases |a|
  {
    if a != [] && a[0] == b[0] && b[0] == c[0] {
      LexLessTransitive(a[1..], b[1..], c[1..]);
    }
  }

  lemma LexLessAsymmetric(a: string, b: string)
    requires LexLess(a, b)
    ensures !LexLess(b, a)
  {
    if LexLess(b, a) {
      LexLessTransitive(a, b, a);
      LexLessIrreflexive(a);
    }
  }

  /** Of two different entries, exactly one is listed first. */
  lemma BeforeTotal(x: Entry, y: Entry)
    requires x != y
    ensures Before(x, y) != Before(y, x)
  {
    if x.qty == y.qty {
      assert x.article != y.article;
      LexLessTotal(x.article, y.article);
      if LexLess(x.article, y.article) {
        LexLessAsymmetric(x.article, y.article);
      } else {
        LexLessAsymmetric(y.article, x.article);
      }
    }
  }

  lemma BeforeAsymmetric(x: Entry, y: Entry)
    requires Before(x, y)
    ensures !Before(y, x)
  {
    if x.qty == y.qty {
      LexLessAsymmetric(x.article, y.article);
    }
  }

  lemma BeforeIrreflexive(x: Entry)
    ensures !Before(x, x)
  {
    LexLessIrreflexive(x.article);
  }

  /** "Not listed after" is transitive. */
  lemma NotBeforeTransitive(x: Entry, y: Entry, z: Entry)
    requires !Before(y, x) && !Before(z, y)
    ensures !Before(z, x)
  {
    if Before(z, x) {
      if x == y {
      } else if y == z {
      } else {
        BeforeTotal(x, y);
        BeforeTotal(y, z);
        if z.qty == x.qty && y.qty == x.qty {
          LexLessTransitive(z.article, x.article, y.article);
        }
      }
    }
  }

  // ---------------------------------------------------------------------------
  // Sorting

  lemma {:induction false} InsertPermutes(e: Entry, s: seq<Entry>)
    ensures multiset(Insert(e, s)) == multiset{e} + multiset(s)
    decreases |s|
  {
    if s != [] && Before(s[0], e) {
      InsertPermutes(e, s[1..]);
      assert s == [s[0]] + s[1..];
    }
  }

  lemma {:induction false} InsertSorted(e: Entry, s: seq<Entry>)
    requires Sorted(s)
    ensures Sorted(Insert(e, s))
    decreases |s|
  {
    if s == [] {
    } else if !Before(s[0], e) {
      var r := [e] + s;
      forall i, j | 0 <= i < j < |r|
        ensures !Before(r[j], r[i])
      {
        if i == 0 {
          assert r[j] == s[j - 1];
          if j > 1 {
            NotBeforeTransitive(e, s[0], s[j - 1]);
          }
        } else {
          assert r[i] == s[i - 1] && r[j] == s[j - 1];
        }
      }
    } else {
      var t := Insert(e, s[1..]);
      InsertSorted(e, s[1..]);
      InsertPermutes(e, s[1..]);
      var r := [s[0]] + t;
      forall i, j | 0 <= i < j < |r|
        ensures !Before(r[j], r[i])
      {
        if i == 0 {
          var x := t[j - 1];
          assert x in multiset(t);
          if x == e {
            BeforeAsymmetric(s[0], e);
          } else {
            assert x in multiset(s[1..]);
            var k :| 0 <= k < |s[1..]| && s[1..][k] == x;
            assert s[k + 1] == x;
          }
        } else {
          assert r[i] == t[i - 1] && r[j] == t[j - 1];
        }
      }
    }
  }

  /** The export order lists the same entries, sorted. */
  lemma {:induction false} SortEntriesSpec(s: seq<Entry>)
    ensures multiset(SortEntries(s)) == multiset(s)
    ensures Sorted(SortEntries(s))
    decreases |s|
  {
    if s != [] {
      SortEntriesSpec(s[1..]);
      InsertPermutes(s[0], SortEntries(s[1..]));
      InsertSorted(s[0], SortEntries(s[1..]));
      assert s == [s[0]] + s[1..];
    }
  }

  /** Two sorted lists of the same entries are the same list: the order of
      the table does not depend on the order the entries came in. */
  lemma {:induction false} SortedUnique(a: seq<Entry>, b: seq<Entry>)
    requires Sorted(a) && Sorted(b) && multiset(a) == multiset(b)
    ensures a == b
    decreases |a|
  {
    if a == [] {
      assert |b| == |multiset(b)| == 0;
    } else {
      assert |b| == |multiset(b)| == |multiset(a)| == |a|;
      if a[0] != b[0] {
        assert b[0] in multiset(a);
        var k :| 0 <= k < |a| && a[k] == b[0];
        assert a[0] in multiset(b);
        var m :| 0 <= m < |b| && b[m] == a[0];
        assert k > 0 && m > 0;
        assert !Before(b[0], a[0]) && !Before(a[0], b[0]);
        BeforeTotal(a[0], b[0]);
        assert false;
      }
      assert a == [a[0]] + a[1..] && b == [b[0]] + b[1..];
      assert multiset(a[1..]) == multiset(a) - multiset{a[0]};
      assert multiset(b[1..]) == multiset(b) - multiset{b[0]};
      SortedUnique(a[1..], b[1..]);
    }
  }

  /** Entries with distinct articles occur at most once each. */
  lemma {:induction false} DistinctOnce(a: seq<Entry>, x: Entry)
    requires DistinctArticles(a)
    ensures multiset(a)[x] <= 1
    decreases |a|
  {
    if a != [] {
      assert a == [a[0]] + a[1..];
      DistinctOnce(a[1..], x);
      if x == a[0] {
        assert x !in a[1..];
      }
    }
  }

  /** Lists with distinct articles and the same entries hold them equally
      often. */
  lemma SameEntriesSameMultiset(a: seq<Entry>, b: seq<Entry>)
    requires DistinctArticles(a) && DistinctArticles(b)
    requires forall e :: e in a <==> e in b
    ensures multiset(a) == multiset(b)
  {
    forall x
      ensures multiset(a)[x] == multiset(b)[x]
    {
      DistinctOnce(a, x);
      DistinctOnce(b, x);
      assert x in a <==> x in multiset(a);
      assert x in b <==> x in multiset(b);
    }
  }

  /** Tables holding the same totals for the same articles export the same
      text, whatever order their entries were inserted in. */
  lemma SameTotalsSameCsv(a: seq<Entry>, b: seq<Entry>, show: real -> string)
    requires DistinctArticles(a) && DistinctArticles(b)
    requires forall k :: k in Articles(a) <==> k in Articles(b)
    requires forall k :: Get(a, k) == Get(b, k)
    ensures BuildCsvContent(a, show) == BuildCsvContent(b, show)
  {
    SameTotalsSameEntries(a, b);
    SameEntriesSameMultiset(a, b);
    SortedOrder(a, b);
  }

  lemma SortedOrder(a: seq<Entry>, b: seq<Entry>)
    requires multiset(a) == multiset(b)
    ensures SortEntries(a) == SortEntries(b)
  {
    SortEntriesSpec(a);
    SortEntriesSpec(b);
    SortedUnique(SortEntries(a), SortEntries(b));
  }

  /** The export of an analysis does not depend on the order in which its
      rows were committed. */
  lemma CsvIgnoresRowOrder(a: seq<Row>, b: seq<Row>, show: real -> string)
    requires multiset(a) == multiset(b)
    ensures BuildCsvContent(CommitAll(Session([], 0, 0), a).aggregated, show) ==
            BuildCsvContent(CommitAll(Session([], 0, 0), b).aggregated, show)
  {
    var s0 := Session([], 0, 0);
    CommitAllTotals(s0, a);
    CommitAllTotals(s0, b);
    CommitOrderIrrelevant(a, b);
    SameTotalsSameCsv(CommitAll(s0, a).aggregated, CommitAll(s0, b).aggregated, show);
  }

  // ---------------------------------------------------------------------------
  // Quoting

  lemma ReadBodyClose(rest: string)
    requires rest == [] || rest[0] != '"'
    ensures ReadQuotedBody(['"'] + rest) == Some(([], rest))
  {
    assert (['"'] + rest)[1..] == rest;
  }

  lemma ReadBodyPair(t: string)
    ensures ReadQuotedBody(['"', '"'] + t) ==
      match ReadQuotedBody(t)
      case None => None
      case Some(fr) => Some((['"'] + fr.0, fr.1))
  {
    assert (['"', '"'] + t)[2..] == t;
  }

  lemma ReadBodyOther(c: char, t: string)
    requires c != '"'
    ensures ReadQuotedBody([c] + t) ==
      match ReadQuotedBody(t)
      case None => None
      case Some(fr) => Some(([c] + fr.0, fr.1))
  {
    assert ([c] + t)[1..] == t;
  }

  lemma {:induction false} ReadEscaped(s: string, rest: string)
    requires rest == [] || rest[0] != '"'
    ensures ReadQuotedBody(EscapeQuotes(s) + ['"'] + rest) == Some((s, rest))
    decreases |s|
  {
    if s == [] {
      assert EscapeQuotes(s) + ['"'] + rest == ['"'] + rest;
      ReadBodyClose(rest);
    } else {
      ReadEscaped(s[1..], rest);
      var e := EscapeQuotes(s[1..]);
      var t := e + ['"'] + rest;
      EscapeCons(s);
      if s[0] == '"' {
        Regroup(['"', '"'], e, ['"'], rest);
        ReadBodyPair(t);
      } else {
        Regroup([s[0]], e, ['"'], rest);
        ReadBodyOther(s[0], t);
      }
      assert [s[0]] + s[1..] == s;
    }
  }

  lemma EscapeCons(s: string)
    requires s != []
    ensures EscapeQuotes(s) == (if s[0] == '"' then ['"', '"'] else [s[0]]) + EscapeQuotes(s[1..])
  {
  }

  lemma Regroup(x: string, e: string, q: string, r: string)
    ensures x + e + q + r == x + (e + q + r)
  {
  }

  /** Unquoting a field gives back the description, and the rest of the row
      after it. */
  lemma QuoteRoundTrip(s: string, rest: string)
    requires rest == [] || rest[0] != '"'
    ensures ReadQuoted(Quote(s) + rest) == Some((s, rest))
  {
    ReadEscaped(s, rest);
    assert Quote(s) + rest == ['"'] + (EscapeQuotes(s) + ['"'] + rest);
  }

  /** Each row reads back as its description followed by the rendered total. */
  lemma RowRoundTrip(show: real -> string, e: Entry)
    ensures ReadQuoted(CsvRow(show, e)) == Some((e.article, "," + RenderQty(show, e.qty)))
  {
    QuoteRoundTrip(e.article, "," + RenderQty(show, e.qty));
    assert CsvRow(show, e) == Quote(e.article) + ("," + RenderQty(show, e.qty));
  }

  lemma {:induction false} EscapeKeepsOthers(s: string, c: char)
    requires c != '"' && c !in s
    ensures c !in EscapeQuotes(s)
    decreases |s|
  {
    if s != [] {
      EscapeKeepsOthers(s[1..], c);
    }
  }

  lemma {:induction false} ReplaceFirstKeepsOthers(s: string, c: char, d: char, x: char)
    requires x != d && x !in s
    ensures x !in ReplaceFirst(s, c, d)
    decreases |s|
  {
    if s != [] && s[0] != c {
      ReplaceFirstKeepsOthers(s[1..], c, d, x);
    }
  }

  /** The total as rendered: the number's text with its first point turned
      into a comma. */
  lemma RenderQtyDecimal(show: real -> string, q: real, ip: string, fs: string)
    requires show(q) == ip + "." + fs && '.' !in ip
    ensures RenderQty(show, q) == ip + "," + fs
  {
    ReplaceFirstAfterPrefix(ip, "." + fs, '.', ',');
    assert ip + "." + fs == ip + ("." + fs);
  }

  lemma RowHasNoNewline(show: real -> string, e: Entry)
    requires '\n' !in e.article && '\n' !in show(e.qty)
    ensures '\n' !in CsvRow(show, e)
  {
    EscapeKeepsOthers(e.article, '\n');
    ReplaceFirstKeepsOthers(show(e.qty), '.', ',', '\n');
  }

  lemma {:induction false} RowsAt(show: real -> string, es: seq<Entry>)
    ensures forall i :: 0 <= i < |es| ==> CsvRows(show, es)[i] == CsvRow(show, es[i])
    decreases |es|
  {
    if es != [] {
      RowsAt(show, es[1..]);
    }
  }

  /** When no description and no rendered total contains a newline, the
      export splits into the header and one row per entry, in export order,
      each of which reads back as its entry's description. */
  lemma CsvLines(agg: seq<Entry>, show: real -> string)
    requires agg != []
    requires forall e :: e in agg ==> '\n' !in e.article && '\n' !in show(e.qty)
    ensures var lines := Split(BuildCsvContent(agg, show).value, '\n');
      && |lines| == |agg| + 1
      && lines[0] == CsvHeader
      && (forall i :: 1 <= i < |lines| ==> lines[i] == CsvRow(show, SortEntries(agg)[i - 1]))
      && (forall i :: 1 <= i < |lines| ==>
            ReadQuoted(lines[i]).Some? && ReadQuoted(lines[i]).value.0 == SortEntries(agg)[i - 1].article)
  {
    var sorted := SortEntries(agg);
    SortEntriesSpec(agg);
    var ls := [CsvHeader] + CsvRows(show, sorted);
    RowsAt(show, sorted);
    forall i | 0 <= i < |ls|
      ensures '\n' !in ls[i]
    {
      if i > 0 {
        var e := sorted[i - 1];
        assert e in multiset(agg);
        RowHasNoNewline(show, e);
      }
    }
    SplitJoin(ls, '\n');
    forall i | 1 <= i < |ls|
      ensures ReadQuoted(ls[i]).Some? && ReadQuoted(ls[i]).value.0 == sorted[i - 1].article
    {
      RowRoundTrip(show, sorted[i - 1]);
    }
  }
}
