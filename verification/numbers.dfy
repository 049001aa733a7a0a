/** The number conversion of the quote parser: `toNumber` strips white space
    and every '.', turns the first ',' into '.', and hands the result to
    `parseFloat`.  `parseFloat` is modelled for what it can be given here
    (digits, '.', ','): it reads the longest prefix of the form
    digits [ '.' digits ], and yields no number when that prefix has no digit. */
module Numbers {

  import opened Wrappers
  import opened Text

  predicate IsDigit(c: char) {
    '0' <= c <= '9'
  }

  ghost predicate AllDigits(s: string) {
    forall i :: 0 <= i < |s| ==> IsDigit(s[i])
  }

  /** Length of the leading run of digits. */
  function DigitRun(s: string): (k: nat)
    ensures k <= |s|
  {
    if s != [] && IsDigit(s[0]) then 1 + DigitRun(s[1..]) else 0
  }

  /** The decimal value of a digit string, most significant digit first. */
  function Value(s: string): nat {
    if s == [] then 0
    else Value(s[..|s| - 1]) * 10 + (if IsDigit(s[|s| - 1]) then s[|s| - 1] as int - '0' as int else 0)
  }

  function Pow10(n: nat): (p: nat)
    ensures p >= 1
  {
    if n == 0 then 1 else 10 * Pow10(n - 1)
  }

  /** The value of `ip.fs` for digit strings `ip` and `fs`. */
  function Decimal(ip: string, fs: string): real {
    Value(ip) as real + Value(fs) as real / Pow10(|fs|) as real
  }

  /** The fraction digits after a leading '.', if any. */
  function FractionDigits(rest: string): string {
    if rest != [] && rest[0] == '.' then rest[1..][..DigitRun(rest[1..])] else []
  }

  /** `parseFloat` over strings of digits, '.' and ',' (after leading white
      space): integer digits, then an optional '.' and fraction digits. */
  function ParseFloat(s: string): Option<real> {
    var t := TrimStart(s);
    var ip := t[..DigitRun(t)];
    var fs := FractionDigits(t[DigitRun(t)..]);
    if ip == [] && fs == [] then None else Some(Decimal(ip, fs))
  }

  /** `s.replace(/\s/g, "")`. */
  function RemoveSpaces(s: string): (r: string)
    ensures |r| <= |s|
  {
    if s == [] then []
    else if IsSpace(s[0]) then RemoveSpaces(s[1..])
    else [s[0]] + RemoveSpaces(s[1..])
  }

  /** Every occurrence of `c` removed. */
  function RemoveChar(s: string, c: char): (r: string)
    ensures |r| <= |s|
  {
    if s == [] then []
    else if s[0] == c then RemoveChar(s[1..], c)
    else [s[0]] + RemoveChar(s[1..], c)
  }

  /** The first occurrence of `c` replaced by `d` (a string `replace` with a
      string pattern replaces only the first match). */
  function ReplaceFirst(s: string, c: char, d: char): (r: string)
    ensures |r| == |s|
  {
    if s == [] then []
    else if s[0] == c then [d] + s[1..]
    else [s[0]] + ReplaceFirst(s[1..], c, d)
  }

  /** `toNumber` of `makeItem`: no value stands for NaN. */
  function ToNumber(s: string): Option<real> {
    ParseFloat(ReplaceFirst(RemoveChar(RemoveSpaces(s), '.'), ',', '.'))
  }

  // ---------------------------------------------------------------------------
  // Lemmas

  ghost predicate NoneOf(s: string, c: char) {
    forall i :: 0 <= i < |s| ==> s[i] != c
  }

  ghost predicate NoSpaces(s: string) {
    forall i :: 0 <= i < |s| ==> !IsSpace(s[i])
  }

  lemma {:induction false} RemoveSpacesOfNoSpaces(s: string)
    requires NoSpaces(s)
    ensures RemoveSpaces(s) == s
    decreases |s|
  {
    if s != [] {
      RemoveSpacesOfNoSpaces(s[1..]);
    }
  }

  lemma {:induction false} RemoveCharAppend(a: string, b: string, c: char)
    ensures RemoveChar(a + b, c) == RemoveChar(a, c) + RemoveChar(b, c)
    decreases |a|
  {
    if a == [] {
      assert a + b == b;
    } else {
      assert (a + b)[1..] == a[1..] + b;
      RemoveCharAppend(a[1..], b, c);
    }
  }

  lemma {:induction false} RemoveCharAbsent(s: string, c: char)
    requires NoneOf(s, c)
    ensures RemoveChar(s, c) == s
    decreases |s|
  {
    if s != [] {
      RemoveCharAbsent(s[1..], c);
    }
  }

  lemma {:induction false} RemoveCharRemoves(s: string, c: char)
    ensures NoneOf(RemoveChar(s, c), c)
    decreases |s|
  {
    if s != [] {
      RemoveCharRemoves(s[1..], c);
    }
  }

  /** Removing '.' from digits and dots leaves only digits, and keeps a
      leading digit. */
  lemma {:induction false} RemoveDotsOfDigitsAndDots(s: string)
    requires forall i :: 0 <= i < |s| ==> IsDigit(s[i]) || s[i] == '.'
    ensures AllDigits(RemoveChar(s, '.'))
    ensures s != [] && IsDigit(s[0]) ==> RemoveChar(s, '.') != [] && RemoveChar(s, '.')[0] == s[0]
    decreases |s|
  {
    if s != [] {
      RemoveDotsOfDigitsAndDots(s[1..]);
    }
  }

  lemma {:induction false} ReplaceFirstAfterPrefix(a: string, b: string, c: char, d: char)
    requires NoneOf(a, c)
    ensures ReplaceFirst(a + b, c, d) == a + ReplaceFirst(b, c, d)
    decreases |a|
  {
    if a == [] {
      assert a + b == b;
    } else {
      assert (a + b)[1..] == a[1..] + b;
      ReplaceFirstAfterPrefix(a[1..], b, c, d);
    }
  }

  lemma {:induction false} DigitRunOfDigits(a: string, b: string)
    requires AllDigits(a)
    requires b == [] || !IsDigit(b[0])
    ensures DigitRun(a + b) == |a|
    decreases |a|
  {
    if a == [] {
      assert a + b == b;
    } else {
      assert (a + b)[1..] == a[1..] + b;
      DigitRunOfDigits(a[1..], b);
    }
  }

  lemma DigitsHaveNoSpaces(s: string)
    requires AllDigits(s)
    ensures NoSpaces(s) && NoneOf(s, '.') && NoneOf(s, ',')
  {
  }

  /** `parseFloat` of `D.F` with digit strings `D` (non-empty) and `F`. */
  lemma ParseDecimal(ds: string, fs: string)
    requires ds != [] && AllDigits(ds) && AllDigits(fs)
    ensures ParseFloat(ds + "." + fs) == Some(Decimal(ds, fs))
  {
    var s := ds + "." + fs;
    assert s[0] == ds[0];
    assert TrimStart(s) == s;
    assert s == ds + ("." + fs);
    DigitRunOfDigits(ds, "." + fs);
    assert s[..|ds|] == ds;
    assert s[|ds|..] == "." + fs;
    assert ("." + fs)[1..] == fs;
    DigitRunOfDigits(fs, "");
    assert fs + "" == fs;
    assert fs[..|fs|] == fs;
  }

  /** A number without fraction digits is its integer part. */
  lemma DecimalWhole(ip: string)
    ensures Decimal(ip, "") == Value(ip) as real
  {
    assert Value("") == 0 && Pow10(0) == 1;
  }

  /** `parseFloat` of a digit string is its decimal value. */
  lemma ParseInteger(ds: string)
    requires ds != [] && AllDigits(ds)
    ensures ParseFloat(ds) == Some(Decimal(ds, ""))
  {
    assert TrimStart(ds) == ds;
    DigitRunOfDigits(ds, "");
    assert ds + "" == ds;
    assert ds[..|ds|] == ds;
    assert ds[|ds|..] == [];
  }

  /** A digit string converts to its decimal value. */
  lemma ToNumberOfDigits(ds: string)
    requires ds != [] && AllDigits(ds)
    ensures ToNumber(ds) == Some(Value(ds) as real)
  {
    assert Decimal(ds, "") == Value(ds) as real;
    DigitsHaveNoSpaces(ds);
    RemoveSpacesOfNoSpaces(ds);
    RemoveCharAbsent(ds, '.');
    assert ReplaceFirst(ds, ',', '.') == ds by {
      ReplaceFirstAfterPrefix(ds, "", ',', '.');
      assert ds + "" == ds;
    }
    ParseInteger(ds);
  }

  ghost predicate AmountChars(s: string) {
    forall i :: 0 <= i < |s| ==> IsDigit(s[i]) || s[i] == '.' || s[i] == ','
  }

  lemma AmountHasNoSpaces(s: string)
    requires AmountChars(s)
    ensures NoSpaces(s)
  {
  }

  lemma AmountCharsAppend(ip: string, fs: string)
    requires forall i :: 0 <= i < |ip| ==> IsDigit(ip[i]) || ip[i] == '.'
    requires AllDigits(fs)
    ensures AmountChars(ip + "," + fs)
  {
    var s := ip + "," + fs;
    forall i | 0 <= i < |s|
      ensures IsDigit(s[i]) || s[i] == '.' || s[i] == ','
    {
      if i < |ip| {
        assert s[i] == ip[i];
      } else if i > |ip| {
        assert s[i] == fs[i - |ip| - 1];
      }
    }
  }

  lemma RemoveDotsOfAmount(ip: string, fs: string)
    requires forall i :: 0 <= i < |ip| ==> IsDigit(ip[i]) || ip[i] == '.'
    requires AllDigits(fs)
    ensures RemoveChar(ip + "," + fs, '.') == RemoveChar(ip, '.') + ("," + fs)
  {
    assert ip + "," + fs == ip + ("," + fs);
    RemoveCharAppend(ip, "," + fs, '.');
    RemoveCharAppend(",", fs, '.');
    DigitsHaveNoSpaces(fs);
    RemoveCharAbsent(fs, '.');
    assert RemoveChar(",", '.') == ",";
  }

  lemma ReplaceCommaOfAmount(ds: string, fs: string)
    requires AllDigits(ds)
    ensures ReplaceFirst(ds + ("," + fs), ',', '.') == ds + "." + fs
  {
    DigitsHaveNoSpaces(ds);
    ReplaceFirstAfterPrefix(ds, "," + fs, ',', '.');
    assert ReplaceFirst("," + fs, ',', '.') == "." + fs;
    assert ds + ("." + fs) == ds + "." + fs;
  }

  /** The French amount format: '.' groups thousands and is ignored, ','
      marks the decimals.  `ip` holds the digits and dots before the comma
      (starting with a digit) and `fs` the decimal digits. */
  lemma ToNumberFrenchDecimal(ip: string, fs: string)
    requires ip != [] && IsDigit(ip[0])
    requires forall i :: 0 <= i < |ip| ==> IsDigit(ip[i]) || ip[i] == '.'
    requires AllDigits(fs)
    ensures ToNumber(ip + "," + fs) == Some(Decimal(RemoveChar(ip, '.'), fs))
  {
    var s := ip + "," + fs;
    AmountCharsAppend(ip, fs);
    AmountHasNoSpaces(s);
    RemoveSpacesOfNoSpaces(s);
    var ds := RemoveChar(ip, '.');
    RemoveDotsOfDigitsAndDots(ip);
    RemoveDotsOfAmount(ip, fs);
    ReplaceCommaOfAmount(ds, fs);
    ParseDecimal(ds, fs);
  }

  /** Any token of digits, '.' and ',' that starts with a digit converts to
      a number: the quote amounts `\d+[\d.,]*` never give NaN. */
  lemma ToNumberOfAmount(t: string)
    requires t != [] && IsDigit(t[0]) && AmountChars(t)
    ensures ToNumber(t).Some?
  {
    AmountHasNoSpaces(t);
    RemoveSpacesOfNoSpaces(t);
    var a := RemoveChar(t, '.');
    assert a != [] && a[0] == t[0];
    var b := ReplaceFirst(a, ',', '.');
    assert b != [] && b[0] == t[0];
    assert TrimStart(b) == b;
    assert DigitRun(b) >= 1;
    assert b[..DigitRun(b)] != [];
  }

  lemma ValueExamples()
    ensures Value("2") == 2 && Value("50") == 50 && Value("10") == 10
  {
    assert "50"[..1] == "5";
    assert "10"[..1] == "1";
  }

  /** The amounts of a quote line: "2,50" reads as 2.5. */
  lemma ToNumberExample()
    ensures ToNumber("2,50") == Some(2.5)
  {
    assert "2,50" == "2" + "," + "50";
    ToNumberFrenchDecimal("2", "50");
    assert RemoveChar("2", '.') == "2";
    ValueExamples();
    assert Decimal("2", "50") == 2.5;
  }

  lemma RemoveDotExample()
    ensures RemoveChar("1.234", '.') == "1234"
  {
    assert "1.234"[1..] == ".234";
    assert ".234"[1..] == "234";
    assert "234"[1..] == "34";
    assert "34"[1..] == "4";
  }

  lemma ValueThousandsExample()
    ensures Value("1234") == 1234
  {
    assert "1234"[..3] == "123";
    assert "123"[..2] == "12";
    assert "12"[..1] == "1";
  }

  /** '.' separates thousands: "1.234,5" reads as 1234.5. */
  lemma ToNumberThousandsExample()
    ensures ToNumber("1.234,5") == Some(1234.5)
  {
    assert "1.234,5" == "1.234" + "," + "5";
    ToNumberFrenchDecimal("1.234", "5");
    RemoveDotExample();
    ValueThousandsExample();
    assert Value("5") == 5;
    assert Decimal("1234", "5") == 1234.5;
  }
}
