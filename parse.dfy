/**
 * The two number readers of the cleaners: `clean_df`, which keeps only the digits and dots of
 * a value's text and reads what is left with `float`, and `pd.to_numeric(errors='coerce')`,
 * which reads a signed decimal and turns anything else into a gap.
 */
module Parse {
  import opened Wrappers
  import opened Strings
  import opened Seqs
  import opened Frames

  predicate IsNumChar(c: char) {
    IsDigit(c) || c == '.'
  }

  predicate AllDigits(s: string) {
    forall i :: 0 <= i < |s| ==> IsDigit(s[i])
  }

  predicate AllNumChars(s: string) {
    forall i :: 0 <= i < |s| ==> IsNumChar(s[i])
  }

  /** `''.join(ch for ch in s if ch.isdigit() or ch == '.')`. */
  function KeepNumeric(s: string): (r: string)
    ensures AllNumChars(r) && |r| <= |s|
  {
    if s == [] then [] else (if IsNumChar(s[0]) then [s[0]] else []) + KeepNumeric(s[1..])
  }

  /** The generator is the order-preserving filter of the digits and dots, and nothing else. */
  lemma {:induction false} KeepNumericIsFilter(s: string)
    ensures KeepNumeric(s) == Where(s, IsNumChar)
  {
    if s != [] {
      KeepNumericIsFilter(s[1..]);
    }
  }

  /** The filter keeps what it is given when every character is a digit or a dot. */
  lemma KeepNumericKeeps(s: string)
    requires AllNumChars(s)
    ensures KeepNumeric(s) == s
  {
    KeepNumericIsFilter(s);
    WhereAll(s, IsNumChar);
  }

  lemma {:induction false} KeepNumericAppend(a: string, b: string)
    ensures KeepNumeric(a + b) == KeepNumeric(a) + KeepNumeric(b)
  {
    if a != [] {
      assert (a + b)[0] == a[0] && (a + b)[1..] == a[1..] + b;
      KeepNumericAppend(a[1..], b);
    } else {
      assert a + b == b;
    }
  }

  // ---------------------------------------------------------------- digit strings

  function DigitValue(c: char): nat
    requires IsDigit(c)
  {
    c as int - '0' as int
  }

  /** Ten to the `k`, the divisor of a fraction with `k` digits. */
  function Pow10(k: nat): (p: nat)
    ensures p >= 1
  {
    if k == 0 then 1 else 10 * Pow10(k - 1)
  }

  /** The number a string of decimal digits denotes. */
  function DigitsValue(s: string): nat
    requires AllDigits(s)
  {
    if s == [] then 0 else 10 * DigitsValue(s[..|s| - 1]) + DigitValue(s[|s| - 1])
  }

  /** `str(n)` for a natural number. */
  function DigitString(n: nat): (s: string)
    ensures AllDigits(s) && s != []
    ensures DigitsValue(s) == n
  {
    var d := ['0' + (n % 10) as char];
    if n < 10 then d
    else
      var s := DigitString(n / 10) + d;
      assert s[..|s| - 1] == DigitString(n / 10);
      s
  }

  // ---------------------------------------------------------------- float() on digits and dots

  function DotCount(s: string): nat {
    if s == [] then 0 else (if s[0] == '.' then 1 else 0) + DotCount(s[1..])
  }

  lemma {:induction false} DotCountNone(s: string)
    ensures DotCount(s) == 0 <==> forall i :: 0 <= i < |s| ==> s[i] != '.'
  {
    if s != [] {
      DotCountNone(s[1..]);
      assert forall i :: 1 <= i < |s| ==> s[i] == s[1..][i - 1];
    }
  }

  predicate HasDigit(s: string) {
    exists i :: 0 <= i < |s| && IsDigit(s[i])
  }

  /** The position of the first dot, or `|s|` when there is none. */
  function DotPos(s: string): (d: nat)
    ensures d <= |s|
    ensures forall k :: 0 <= k < d ==> s[k] != '.'
    ensures d < |s| ==> s[d] == '.'
  {
    if s == [] then 0
    else if s[0] == '.' then 0
    else
      var d := DotPos(s[1..]);
      assert forall k :: 0 <= k < d ==> s[k + 1] == s[1..][k];
      d + 1
  }

  /** The first dot is the only one exactly when no dot follows it. */
  lemma {:induction false} DotPosCount(s: string)
    ensures DotPos(s) < |s| ==> DotCount(s[DotPos(s) + 1..]) == DotCount(s) - 1
    ensures DotPos(s) == |s| ==> DotCount(s) == 0
  {
    if s != [] && s[0] != '.' {
      DotPosCount(s[1..]);
      var d := DotPos(s[1..]);
      if d < |s[1..]| {
        assert s[1..][d + 1..] == s[d + 2..];
      }
    }
  }

  /** What Python's `float` accepts among strings of digits and dots. */
  predicate IsDecimal(s: string) {
    AllNumChars(s) && DotCount(s) <= 1 && HasDigit(s)
  }

  /** The digits of a decimal before and after its dot. */
  function IntPart(s: string): string {
    s[..DotPos(s)]
  }

  function FracPart(s: string): string {
    var d := DotPos(s);
    if d < |s| then s[d + 1..] else []
  }

  lemma IntPartDigits(s: string)
    requires AllNumChars(s)
    ensures AllDigits(IntPart(s))
  {
    var ip := IntPart(s);
    forall k | 0 <= k < |ip| ensures IsDigit(ip[k]) {
      assert ip[k] == s[k];
    }
  }

  lemma FracPartDigits(s: string)
    requires AllNumChars(s) && DotCount(s) <= 1
    ensures AllDigits(FracPart(s))
  {
    var d := DotPos(s);
    DotPosCount(s);
    if d < |s| {
      var fp := s[d + 1..];
      DotCountNone(fp);
      forall k | 0 <= k < |fp| ensures IsDigit(fp[k]) {
        assert fp[k] == s[d + 1 + k];
      }
    }
  }

  lemma SplitAt(s: string, d: nat)
    requires d < |s| && s[d] == '.'
    ensures s == s[..d] + "." + s[d + 1..]
  {
    assert s == s[..d] + [s[d]] + s[d + 1..];
  }

  lemma PartsJoin(s: string)
    ensures s == if DotPos(s) < |s| then IntPart(s) + "." + FracPart(s) else IntPart(s)
  {
    if DotPos(s) < |s| {
      SplitAt(s, DotPos(s));
    }
  }

  lemma PartsAreDigits(s: string)
    requires AllNumChars(s) && DotCount(s) <= 1
    ensures AllDigits(IntPart(s)) && AllDigits(FracPart(s))
    ensures s == if DotPos(s) < |s| then IntPart(s) + "." + FracPart(s) else IntPart(s)
  {
    IntPartDigits(s);
    FracPartDigits(s);
    PartsJoin(s);
  }

  /** The number with integer digits `ip` and fraction digits `fp`. */
  function DecimalValue(ip: string, fp: string): (v: real)
    requires AllDigits(ip) && AllDigits(fp)
    ensures v >= 0.0
  {
    DigitsValue(ip) as real + DigitsValue(fp) as real / Pow10(|fp|) as real
  }

  /**
   * `float(cleaned)` for a string of digits and dots: a value exactly when there is at most one
   * dot and at least one digit, and then a value that is never negative.
   */
  function ParseDecimal(s: string): (o: Option<real>)
    requires AllNumChars(s)
    ensures o.Some? <==> IsDecimal(s)
    ensures o.Some? ==> o.value >= 0.0
  {
    if DotCount(s) > 1 || !HasDigit(s) then None
    else
      PartsAreDigits(s);
      Some(DecimalValue(IntPart(s), FracPart(s)))
  }

  /** `float(str(n)) == n`. */
  lemma ParseDigitString(n: nat)
    ensures AllNumChars(DigitString(n))
    ensures ParseDecimal(DigitString(n)) == Some(n as real)
  {
    var s := DigitString(n);
    DotCountNone(s);
    assert IsDigit(s[0]);
    assert DotPos(s) == |s|;
    assert IntPart(s) == s;
  }

  /** A decimal text is its integer digits, a dot and its fraction digits. */
  lemma DecimalWithFraction(a: string, b: string)
    requires AllDigits(a) && AllDigits(b) && (a != [] || b != [])
    ensures AllNumChars(a + "." + b)
    ensures ParseDecimal(a + "." + b) == Some(DecimalValue(a, b))
  {
    var s := a + "." + b;
    assert s[|a|] == '.';
    assert forall k :: 0 <= k < |a| ==> s[k] == a[k];
    assert forall k :: 0 <= k < |b| ==> s[|a| + 1 + k] == b[k];
    assert DotPos(s) == |a|;
    assert s[..|a|] == a && s[|a| + 1..] == b;
    DotPosCount(s);
    DotCountNone(b);
    assert DotCount(s) == 1;
    if a != [] {
      assert IsDigit(s[0]);
    } else {
      assert IsDigit(s[1]);
    }
    assert IntPart(s) == a && FracPart(s) == b;
  }

  /** `float` rejects the empty string, a lone dot and a second dot. */
  lemma ParseDecimalRejects()
    ensures ParseDecimal("") == None
    ensures ParseDecimal(".") == None
    ensures ParseDecimal("1.2.3") == None
  {
    assert DotCount("1.2.3") == 2 by {
      assert "1.2.3"[1..] == ".2.3" && ".2.3"[1..] == "2.3" && "2.3"[1..] == ".3";
      assert ".3"[1..] == "3" && "3"[1..] == "";
    }
  }

  // ---------------------------------------------------------------- clean_df

  /**
   * `clean_df(value)`: `None` for a missing value; otherwise the float read from the digits and
   * dots of `str(value)`, or `None` when they do not form a decimal. A number's own text is
   * read back as its absolute value: the filter drops the sign.
   */
  function CleanDf(v: Cell): (o: Option<real>)
    ensures v == Missing ==> o == None
    ensures v.Num? ==> o == Some(if v.x < 0.0 then -v.x else v.x)
    ensures v.Text? ==> (o.Some? <==> IsDecimal(KeepNumeric(v.s)))
    ensures o.Some? ==> o.value >= 0.0
  {
    match v
    case Missing => None
    case Num(x) => Some(if x < 0.0 then -x else x)
    case Text(s) => ParseDecimal(KeepNumeric(s))
  }

  /** The column `apply(clean_df)` builds: `None` becomes a gap. */
  function CleanCell(v: Cell): (c: Cell)
    ensures !c.Text?
    ensures c == Missing <==> CleanDf(v).None?
    ensures c.Num? ==> c.x >= 0.0 && CleanDf(v) == Some(c.x)
  {
    match CleanDf(v)
    case None => Missing
    case Some(x) => Num(x)
  }

  lemma CleanDfExamples()
    ensures CleanDf(Text("$12,345.67")) == Some(12345.67)
    ensures CleanDf(Text("N/A")) == None
  {
    KeepNumericExample();
    DecimalExample();
    assert KeepNumeric("N/A") == "";
  }

  lemma KeepNumericExample()
    ensures KeepNumeric("$12,345.67") == "12345.67"
  {
    KeepNumericAppend("$12,", "345.67");
    assert "$12,345.67" == "$12," + "345.67";
    KeepNumericHead();
    KeepNumericTail();
    assert "12" + "345.67" == "12345.67";
  }

  lemma KeepNumericHead()
    ensures KeepNumeric("$12,") == "12"
  {
  }

  lemma KeepNumericTail()
    ensures KeepNumeric("345.67") == "345.67"
  {
  }

  lemma DecimalExample()
    ensures ParseDecimal("12345.67") == Some(12345.67)
  {
    DecimalWithFraction("12345", "67");
    assert "12345" + "." + "67" == "12345.67";
    DigitsExamples();
  }

  lemma DigitsExamples()
    ensures DecimalValue("12345", "67") == 12345.67
  {
    DigitStringExamples();
    assert Pow10(2) == 100;
  }

  lemma DigitStringExamples()
    ensures DigitString(12345) == "12345" && DigitString(67) == "67"
  {
    DigitStringFive();
    DigitStringTwo();
  }

  lemma DigitStringTwo()
    ensures DigitString(67) == "67"
  {
    assert DigitString(6) == "6";
  }

  lemma DigitStringFive()
    ensures DigitString(12345) == "12345"
  {
    assert DigitString(1) == "1";
    assert DigitString(12) == "12";
    assert DigitString(123) == "123";
    assert DigitString(1234) == "1234";
  }

  // ---------------------------------------------------------------- to_numeric

  /** An unsigned text: a gap unless it is a decimal. */
  function Unsigned(s: string): (c: Cell)
    ensures c == Missing || (c.Num? && c.x >= 0.0)
    ensures c.Num? <==> IsDecimal(s)
  {
    if !AllNumChars(s) then Missing
    else
      match ParseDecimal(s)
      case None => Missing
      case Some(x) => Num(x)
  }

  function Negated(c: Cell): Cell {
    if c.Num? then Num(-c.x) else c
  }

  /**
   * `pd.to_numeric(value, errors='coerce')` on one cell: numbers and gaps stay, a text that is
   * an optionally signed decimal is read, any other text becomes a gap.
   */
  function ToNumeric(v: Cell): (c: Cell)
    ensures !c.Text?
    ensures v.Num? ==> c == v
    ensures v == Missing ==> c == Missing
  {
    match v
    case Missing => Missing
    case Num(x) => v
    case Text(s) =>
      if s != [] && s[0] == '-' then Negated(Unsigned(s[1..]))
      else if s != [] && s[0] == '+' then Unsigned(s[1..])
      else Unsigned(s)
  }

  /** A decimal text, with or without a sign, reads as its value; without one it is positive. */
  lemma ToNumericReadsDecimal(s: string)
    requires IsDecimal(s)
    ensures ToNumeric(Text(s)) == Num(ParseDecimal(s).value)
    ensures ToNumeric(Text("+" + s)) == Num(ParseDecimal(s).value)
    ensures ToNumeric(Text("-" + s)) == Num(-ParseDecimal(s).value)
  {
    assert IsNumChar(s[0]);
    var u := Unsigned(s);
    assert u == Num(ParseDecimal(s).value);
    assert ("+" + s)[0] == '+' && ("+" + s)[1..] == s;
    assert ("-" + s)[0] == '-' && ("-" + s)[1..] == s;
  }

  /** A text with a character that is neither a digit nor a dot, past the sign, is a gap. */
  lemma ToNumericRejects(s: string, i: nat)
    requires 0 < i < |s| && !IsNumChar(s[i])
    ensures ToNumeric(Text(s)) == Missing
  {
    if s[0] == '-' || s[0] == '+' {
      assert s[1..][i - 1] == s[i];
    }
  }
}
