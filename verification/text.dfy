/** Strings as the quote extractor sees them: JavaScript white space, the
    words of a line, `join`, `split`, `trim` and the `replace(/\s+/g, " ")`
    collapse.  The collapse-then-trim normalisation the source applies to
    every line is defined literally (`Normalize`) and proved equal to a
    reference definition (`Join(Words(s), " ")`). */
module Text {

  /** The characters matched by JavaScript's `\s` class; `String.prototype.trim`
      strips exactly the same set.  U+00A0 (no-break space) is one of them. */
  predicate IsSpace(c: char) {
    || c == ' ' || c == '\t' || c == '\n' || c == '\U{000B}' || c == '\U{000C}' || c == '\r'
    || c == '\U{00A0}' || c == '\U{1680}' || ('\U{2000}' <= c <= '\U{200A}')
    || c == '\U{2028}' || c == '\U{2029}' || c == '\U{202F}' || c == '\U{205F}'
    || c == '\U{3000}' || c == '\U{FEFF}'
  }

  /** A word: a non-empty run of non-space characters. */
  ghost predicate IsWord(w: string) {
    w != [] && forall i :: 0 <= i < |w| ==> !IsSpace(w[i])
  }

  /** Every space is a plain ' ' and is followed by a non-space (if anything). */
  ghost predicate SingleSpaced(s: string) {
    && (forall i :: 0 <= i < |s| && IsSpace(s[i]) ==> s[i] == ' ')
    && (forall i, j :: 0 <= i && j == i + 1 && j < |s| ==> !IsSpace(s[i]) || !IsSpace(s[j]))
  }

  /** The shape of a normalised line: single plain spaces between words, none
      at either end. */
  ghost predicate IsNormal(s: string) {
    SingleSpaced(s) && (s != [] ==> !IsSpace(s[0]) && !IsSpace(s[|s| - 1]))
  }

  /** A non-empty normal string: what a reconstructed line looks like. */
  ghost predicate IsLine(s: string) {
    s != [] && IsNormal(s)
  }

  ghost predicate AllLines(ss: seq<string>) {
    forall i :: 0 <= i < |ss| ==> IsLine(ss[i])
  }

  ghost predicate AllNormal(ss: seq<string>) {
    forall i :: 0 <= i < |ss| ==> IsNormal(ss[i])
  }

  // ---------------------------------------------------------------------------
  // Words: the reference reading of a line

  /** Length of the leading run of non-space characters. */
  function TokenLen(s: string): (k: nat)
    ensures k <= |s|
  {
    if s == [] || IsSpace(s[0]) then 0 else 1 + TokenLen(s[1..])
  }

  /** The maximal runs of non-space characters of `s`, left to right. */
  function Words(s: string): seq<string>
    decreases |s|
  {
    if s == [] then []
    else if IsSpace(s[0]) then Words(s[1..])
    else
      var k := TokenLen(s);
      [s[..k]] + Words(s[k..])
  }

  /** The words of a sequence of strings, concatenated in order. */
  function WordsOf(ss: seq<string>): seq<string> {
    if ss == [] then [] else Words(ss[0]) + WordsOf(ss[1..])
  }

  /** `Array.prototype.join(sep)`. */
  function Join(ss: seq<string>, sep: string): string {
    if |ss| == 0 then ""
    else if |ss| == 1 then ss[0]
    else ss[0] + sep + Join(ss[1..], sep)
  }

  /** `String.prototype.split(sep)` for a one-character separator. */
  function Split(s: string, sep: char): (parts: seq<string>)
    ensures |parts| >= 1
  {
    if s == [] then [""]
    else if s[0] == sep then [""] + Split(s[1..], sep)
    else
      var rest := Split(s[1..], sep);
      [[s[0]] + rest[0]] + rest[1..]
  }

  // ---------------------------------------------------------------------------
  // The source's normalisation, written as the source computes it

  /** `s.replace(/\s+/g, " ")`: every maximal run of white space becomes one ' '. */
  function Collapse(s: string): (r: string)
    ensures |r| <= |s|
    ensures r == [] <==> s == []
    ensures r != [] ==> IsSpace(r[0]) == IsSpace(s[0])
  {
    if s == [] then []
    else if IsSpace(s[0]) then
      if |s| > 1 && IsSpace(s[1]) then Collapse(s[1..]) else " " + Collapse(s[1..])
    else [s[0]] + Collapse(s[1..])
  }

  /** Leading white space removed. */
  function TrimStart(s: string): (r: string)
    ensures |r| <= |s|
    ensures r != [] ==> !IsSpace(r[0])
  {
    if s != [] && IsSpace(s[0]) then TrimStart(s[1..]) else s
  }

  /** Trailing white space removed. */
  function TrimEnd(s: string): (r: string)
    ensures |r| <= |s|
    ensures r != [] ==> !IsSpace(r[|r| - 1])
  {
    if s != [] && IsSpace(s[|s| - 1]) then TrimEnd(s[..|s| - 1]) else s
  }

  /** `String.prototype.trim()`. */
  function Trim(s: string): string {
    TrimEnd(TrimStart(s))
  }

  /** `s.replace(/\s+/g, " ").trim()`, the normalisation applied to every line. */
  function Normalize(s: string): string {
    Trim(Collapse(s))
  }

  /** `s.replace(/ /g, " ")`. */
  function ReplaceNbsp(s: string): (r: string)
    ensures |r| == |s|
  {
    if s == [] then [] else [if s[0] == '\U{00A0}' then ' ' else s[0]] + ReplaceNbsp(s[1..])
  }

  /** `normalizeLine` of pdf-parser.js, and the per-fragment text clean-up of
      `buildLinesFromTextContent`: NBSP replaced, runs collapsed, trimmed. */
  function NormalizeLine(s: string): string {
    Normalize(ReplaceNbsp(s))
  }

  // ---------------------------------------------------------------------------
  // Lemmas

  /** `TokenLen` is the index of the first space, or the length. */
  lemma {:induction false} TokenLenSpec(s: string)
    ensures forall i :: 0 <= i < TokenLen(s) ==> !IsSpace(s[i])
    ensures TokenLen(s) < |s| ==> IsSpace(s[TokenLen(s)])
    decreases |s|
  {
    if s != [] && !IsSpace(s[0]) {
      TokenLenSpec(s[1..]);
    }
  }

  /** Every element of `Words(s)` is a word. */
  lemma {:induction false} WordsAreWords(s: string)
    ensures forall i :: 0 <= i < |Words(s)| ==> IsWord(Words(s)[i])
    decreases |s|
  {
    if s != [] {
      if IsSpace(s[0]) {
        WordsAreWords(s[1..]);
      } else {
        var k := TokenLen(s);
        TokenLenSpec(s);
        WordsAreWords(s[k..]);
      }
    }
  }

  /** The collapse leaves single plain spaces only. */
  lemma {:induction false} CollapseSingleSpaced(s: string)
    ensures SingleSpaced(Collapse(s))
    decreases |s|
  {
    if s != [] {
      CollapseSingleSpaced(s[1..]);
      var t := Collapse(s[1..]);
      var r := Collapse(s);
      if IsSpace(s[0]) && !(|s| > 1 && IsSpace(s[1])) {
        assert r == " " + t;
        forall i, j | 0 <= i && j == i + 1 && j < |r|
          ensures !IsSpace(r[i]) || !IsSpace(r[j])
        {
          if i > 0 {
            assert r[i] == t[i - 1] && r[j] == t[j - 1];
          }
        }
      } else if !IsSpace(s[0]) {
        assert r == [s[0]] + t;
        forall i, j | 0 <= i && j == i + 1 && j < |r|
          ensures !IsSpace(r[i]) || !IsSpace(r[j])
        {
          if i > 0 {
            assert r[i] == t[i - 1] && r[j] == t[j - 1];
          }
        }
      }
    }
  }

  lemma {:induction false} TrimStartIsSuffix(s: string)
    ensures TrimStart(s) == s[|s| - |TrimStart(s)|..]
    decreases |s|
  {
    if s != [] && IsSpace(s[0]) {
      TrimStartIsSuffix(s[1..]);
    }
  }

  lemma {:induction false} TrimEndIsPrefix(s: string)
    ensures TrimEnd(s) == s[..|TrimEnd(s)|]
    decreases |s|
  {
    if s != [] && IsSpace(s[|s| - 1]) {
      TrimEndIsPrefix(s[..|s| - 1]);
    }
  }

  /** Trimming a single-spaced string yields a normal string. */
  lemma TrimSingleSpaced(c: string)
    requires SingleSpaced(c)
    ensures IsNormal(Trim(c))
  {
    var t := TrimStart(c);
    TrimStartIsSuffix(c);
    SingleSpacedSlice(c, |c| - |t|, |c|);
    TrimEndOfSingleSpaced(t);
  }

  lemma TrimEndOfSingleSpaced(t: string)
    requires SingleSpaced(t)
    requires t != [] ==> !IsSpace(t[0])
    ensures IsNormal(TrimEnd(t))
  {
    var r := TrimEnd(t);
    TrimEndIsPrefix(t);
    SingleSpacedSlice(t, 0, |r|);
    if r != [] {
      assert r[0] == t[0];
    }
  }

  /** The source's normalisation yields a normal string. */
  lemma NormalizeIsNormal(s: string)
    ensures IsNormal(Normalize(s))
  {
    CollapseSingleSpaced(s);
    TrimSingleSpaced(Collapse(s));
  }

  lemma SingleSpacedSlice(s: string, i: nat, j: nat)
    requires i <= j <= |s|
    requires SingleSpaced(s)
    ensures SingleSpaced(s[i..j])
  {
    var t := s[i..j];
    forall k | 0 <= k < |t| && IsSpace(t[k])
      ensures t[k] == ' '
    {
      assert t[k] == s[i + k];
    }
    forall k, l | 0 <= k && l == k + 1 && l < |t|
      ensures !IsSpace(t[k]) || !IsSpace(t[l])
    {
      assert t[k] == s[i + k] && t[l] == s[i + l];
    }
  }

  /** Text after white space does not lengthen the first word. */
  lemma {:induction false} TokenLenAppendSpace(a: string, b: string)
    requires b != [] && IsSpace(b[0])
    ensures TokenLen(a + b) == TokenLen(a)
    decreases |a|
  {
    if a == [] {
      assert a + b == b;
    } else {
      assert (a + b)[0] == a[0];
      if !IsSpace(a[0]) {
        assert (a + b)[1..] == a[1..] + b;
        TokenLenAppendSpace(a[1..], b);
      }
    }
  }

  /** Splitting at a white-space character never merges or loses words. */
  lemma {:induction false} WordsAppendSpace(a: string, b: string)
    requires b != [] && IsSpace(b[0])
    ensures Words(a + b) == Words(a) + Words(b)
    decreases |a|
  {
    if a == [] {
      assert a + b == b;
    } else if IsSpace(a[0]) {
      assert (a + b)[0] == a[0];
      assert (a + b)[1..] == a[1..] + b;
      WordsAppendSpace(a[1..], b);
    } else {
      var k := TokenLen(a);
      assert (a + b)[0] == a[0];
      TokenLenAppendSpace(a, b);
      assert (a + b)[..k] == a[..k];
      assert (a + b)[k..] == a[k..] + b;
      WordsAppendSpace(a[k..], b);
    }
  }

  /** The words of a string that starts with a non-space character `c`. */
  lemma WordsCons(c: char, t: string)
    requires !IsSpace(c)
    ensures t == [] || IsSpace(t[0]) ==> Words([c] + t) == [[c]] + Words(t)
    ensures t != [] && !IsSpace(t[0]) ==>
      Words(t) != [] && Words([c] + t) == [[c] + Words(t)[0]] + Words(t)[1..]
  {
    var s := [c] + t;
    assert s[1..] == t;
    var k := TokenLen(t);
    assert TokenLen(s) == 1 + k;
    assert s[..1 + k] == [c] + t[..k];
    assert s[1 + k..] == t[k..];
  }

  lemma {:induction false} CollapseWords(s: string)
    ensures Words(Collapse(s)) == Words(s)
    decreases |s|
  {
    if s == [] {
    } else if IsSpace(s[0]) {
      CollapseWords(s[1..]);
      if |s| > 1 && IsSpace(s[1]) {
      } else {
        assert (" " + Collapse(s[1..]))[1..] == Collapse(s[1..]);
      }
    } else {
      CollapseWords(s[1..]);
      WordsCons(s[0], s[1..]);
      WordsCons(s[0], Collapse(s[1..]));
      assert [s[0]] + s[1..] == s;
    }
  }

  lemma {:induction false} TrimStartWords(s: string)
    ensures Words(TrimStart(s)) == Words(s)
    decreases |s|
  {
    if s != [] && IsSpace(s[0]) {
      TrimStartWords(s[1..]);
    }
  }

  lemma {:induction false} TrimEndWords(s: string)
    ensures Words(TrimEnd(s)) == Words(s)
    decreases |s|
  {
    if s != [] && IsSpace(s[|s| - 1]) {
      var p := s[..|s| - 1];
      TrimEndWords(p);
      WordsAppendSpace(p, [s[|s| - 1]]);
      assert p + [s[|s| - 1]] == s;
    }
  }

  /** Trimming and collapsing keep every word, in order. */
  lemma NormalizeWords(s: string)
    ensures Words(Normalize(s)) == Words(s)
  {
    CollapseWords(s);
    TrimStartWords(Collapse(s));
    TrimEndWords(TrimStart(Collapse(s)));
  }

  /** The part of a normal string after its first word and the space that
      follows it is again normal and non-empty. */
  lemma NormalAfterFirstWord(r: string, k: nat)
    requires IsNormal(r) && r != [] && k == TokenLen(r) && k < |r|
    ensures r[k] == ' ' && k + 1 < |r|
    ensures r[k + 1..] != [] && IsNormal(r[k + 1..])
  {
    TokenLenSpec(r);
    assert IsSpace(r[k]);
    assert k + 1 < |r|;
    SingleSpacedSlice(r, k + 1, |r|);
    assert r[k + 1..][0] == r[k + 1];
    assert r[k + 1..][|r| - k - 2] == r[|r| - 1];
  }

  /** The words of a string that starts with a non-space character. */
  lemma WordsOfWordStart(r: string)
    requires r != [] && !IsSpace(r[0])
    ensures Words(r) == [r[..TokenLen(r)]] + Words(r[TokenLen(r)..])
    ensures Words(r) != []
  {
  }

  lemma WordsOfSpaceStart(r: string)
    requires r != [] && IsSpace(r[0])
    ensures Words(r) == Words(r[1..])
  {
  }

  lemma JoinCons(w: string, ws: seq<string>, sep: string)
    requires ws != []
    ensures Join([w] + ws, sep) == w + sep + Join(ws, sep)
  {
    assert ([w] + ws)[1..] == ws;
  }

  /** A normal string is its own words joined by single spaces. */
  lemma {:induction false} NormalIsJoinOfWords(r: string)
    requires IsNormal(r)
    ensures r == Join(Words(r), " ")
    decreases |r|
  {
    if r != [] {
      var k := TokenLen(r);
      WordsOfWordStart(r);
      if k < |r| {
        NormalAfterFirstWord(r, k);
        var rest := r[k + 1..];
        NormalIsJoinOfWords(rest);
        assert r[k..][1..] == rest;
        WordsOfSpaceStart(r[k..]);
        WordsOfWordStart(rest);
        JoinCons(r[..k], Words(rest), " ");
        assert r == r[..k] + " " + rest;
      } else {
        assert r[..k] == r;
        assert Words(r[k..]) == [];
      }
    }
  }

  /** The source's collapse-then-trim equals the reference definition: the
      words of `s` joined by single spaces. */
  lemma NormalizeIsJoinOfWords(s: string)
    ensures Normalize(s) == Join(Words(s), " ")
  {
    NormalizeWords(s);
    NormalizeIsNormal(s);
    NormalIsJoinOfWords(Normalize(s));
  }

  /** Two normal strings with the same words are equal. */
  lemma NormalEqualByWords(a: string, b: string)
    requires IsNormal(a) && IsNormal(b) && Words(a) == Words(b)
    ensures a == b
  {
    NormalIsJoinOfWords(a);
    NormalIsJoinOfWords(b);
  }

  /** A normal string is already trimmed. */
  lemma TrimOfNormal(s: string)
    requires IsNormal(s)
    ensures Trim(s) == s
  {
    assert TrimStart(s) == s;
  }

  /** Normalising a normal string changes nothing. */
  lemma NormalizeOfNormal(s: string)
    requires IsNormal(s)
    ensures Normalize(s) == s
  {
    NormalizeWords(s);
    NormalizeIsNormal(s);
    NormalEqualByWords(Normalize(s), s);
  }

  /** U+00A0 is already white space for `\s`, so the NBSP replacement that
      precedes the collapse never changes the result. */
  lemma {:induction false} CollapseIgnoresNbsp(s: string)
    ensures Collapse(ReplaceNbsp(s)) == Collapse(s)
    decreases |s|
  {
    if s != [] {
      CollapseIgnoresNbsp(s[1..]);
      assert ReplaceNbsp(s)[1..] == ReplaceNbsp(s[1..]);
    }
  }

  lemma NormalizeLineIsNormalize(s: string)
    ensures NormalizeLine(s) == Normalize(s)
  {
    CollapseIgnoresNbsp(s);
  }

  lemma {:induction false} WordsOfAppend(a: seq<string>, b: seq<string>)
    ensures WordsOf(a + b) == WordsOf(a) + WordsOf(b)
    decreases |a|
  {
    if a == [] {
      assert a + b == b;
    } else {
      assert (a + b)[1..] == a[1..] + b;
      WordsOfAppend(a[1..], b);
    }
  }

  /** Joining with single spaces keeps every word of every part, in order. */
  lemma {:induction false} WordsOfJoin(ss: seq<string>)
    ensures Words(Join(ss, " ")) == WordsOf(ss)
    decreases |ss|
  {
    if |ss| == 1 {
      assert WordsOf(ss[1..]) == [];
    } else if |ss| > 1 {
      WordsOfJoin(ss[1..]);
      WordsAppendSpace(ss[0], " " + Join(ss[1..], " "));
      assert ss[0] + " " + Join(ss[1..], " ") == ss[0] + (" " + Join(ss[1..], " "));
      assert (" " + Join(ss[1..], " "))[1..] == Join(ss[1..], " ");
    }
  }

  /** Non-empty normal strings joined by single spaces give a normal string. */
  lemma {:induction false} JoinNormal(ss: seq<string>)
    requires forall i :: 0 <= i < |ss| ==> ss[i] != [] && IsNormal(ss[i])
    ensures IsNormal(Join(ss, " "))
    ensures ss != [] ==> Join(ss, " ") != []
    decreases |ss|
  {
    if |ss| > 1 {
      JoinNormal(ss[1..]);
      var a, b := ss[0], Join(ss[1..], " ");
      var r := a + " " + b;
      assert r == ss[0] + " " + Join(ss[1..], " ");
      forall i | 0 <= i < |r| && IsSpace(r[i])
        ensures r[i] == ' ' && (i + 1 < |r| ==> !IsSpace(r[i + 1]))
      {
        if i < |a| {
          assert r[i] == a[i];
          if i + 1 < |a| {
            assert r[i + 1] == a[i + 1];
          }
        } else if i == |a| {
          assert r[i + 1] == b[0];
        } else {
          assert r[i] == b[i - |a| - 1];
          if i + 1 < |r| {
            assert r[i + 1] == b[i - |a|];
          }
        }
      }
      assert r[0] == a[0];
      assert r[|r| - 1] == b[|b| - 1];
    }
  }

  /** A string without `sep` followed by anything: its characters head the
      first piece. */
  lemma {:induction false} SplitNoSepPrefix(w: string, rest: string, sep: char)
    requires forall i :: 0 <= i < |w| ==> w[i] != sep
    ensures Split(w + rest, sep) == [w + Split(rest, sep)[0]] + Split(rest, sep)[1..]
    decreases |w|
  {
    if w != [] {
      assert (w + rest)[1..] == w[1..] + rest;
      SplitNoSepPrefix(w[1..], rest, sep);
      assert [w[0]] + (w[1..] + Split(rest, sep)[0]) == w + Split(rest, sep)[0];
    } else {
      assert w + rest == rest;
      assert w + Split(rest, sep)[0] == Split(rest, sep)[0];
      assert [Split(rest, sep)[0]] + Split(rest, sep)[1..] == Split(rest, sep);
    }
  }

  /** `split` undoes `join` when no piece contains the separator. */
  lemma {:induction false} SplitJoin(ls: seq<string>, sep: char)
    requires |ls| >= 1
    requires forall i, j :: 0 <= i < |ls| && 0 <= j < |ls[i]| ==> ls[i][j] != sep
    ensures Split(Join(ls, [sep]), sep) == ls
    decreases |ls|
  {
    if |ls| == 1 {
      SplitNoSepPrefix(ls[0], "", sep);
      assert ls[0] + "" == ls[0];
    } else {
      SplitJoin(ls[1..], sep);
      var tail := [sep] + Join(ls[1..], [sep]);
      assert Join(ls, [sep]) == ls[0] + tail;
      SplitNoSepPrefix(ls[0], tail, sep);
      assert tail[1..] == Join(ls[1..], [sep]);
      assert Split(tail, sep) == [""] + ls[1..];
      assert ls[0] + "" == ls[0];
      assert [ls[0]] + ls[1..] == ls;
    }
  }

  lemma {:induction false} TokenLenOfWord(w: string)
    requires IsWord(w)
    ensures TokenLen(w) == |w|
    decreases |w|
  {
    if |w| > 1 {
      TokenLenOfWord(w[1..]);
    }
  }

  /** A word reads as itself. */
  lemma WordsOfWord(w: string)
    requires IsWord(w)
    ensures Words(w) == [w]
  {
    TokenLenOfWord(w);
    WordsOfWordStart(w);
    assert w[..|w|] == w;
    assert Words(w[|w|..]) == [];
  }

  lemma {:induction false} WordsOfWords(ws: seq<string>)
    requires forall i :: 0 <= i < |ws| ==> IsWord(ws[i])
    ensures WordsOf(ws) == ws
    decreases |ws|
  {
    if ws != [] {
      WordsOfWord(ws[0]);
      WordsOfWords(ws[1..]);
    }
  }

  lemma WordIsLine(w: string)
    requires IsWord(w)
    ensures IsLine(w)
  {
  }

  /** Words joined by single spaces form a line whose words they are. */
  lemma Sentence(ws: seq<string>)
    requires ws != []
    requires forall i :: 0 <= i < |ws| ==> IsWord(ws[i])
    ensures IsLine(Join(ws, " "))
    ensures Words(Join(ws, " ")) == ws
  {
    forall i | 0 <= i < |ws|
      ensures ws[i] != [] && IsNormal(ws[i])
    {
      WordIsLine(ws[i]);
    }
    JoinNormal(ws);
    WordsOfJoin(ws);
    WordsOfWords(ws);
  }

  lemma {:induction false} JoinAppend(a: seq<string>, b: seq<string>, sep: string)
    requires a != [] && b != []
    ensures Join(a + b, sep) == Join(a, sep) + sep + Join(b, sep)
    decreases |a|
  {
    if |a| == 1 {
      JoinCons(a[0], b, sep);
      assert [a[0]] + b == a + b;
    } else {
      JoinAppend(a[1..], b, sep);
      assert (a + b)[1..] == a[1..] + b;
      JoinCons(a[0], a[1..] + b, sep);
      assert [a[0]] + (a[1..] + b) == a + b;
      JoinCons(a[0], a[1..], sep);
      assert [a[0]] + a[1..] == a;
    }
  }
}
