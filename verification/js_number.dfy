/** JavaScript's `Number(string)` conversion. Numbers are exact reals: rounding to a double,
    overflow to Infinity and underflow to 0 are not modelled. */
module JsNumber {
  import opened Wrappers
  import opened JsString

  datatype Number = NaN | Infinity(negative: bool) | Finite(value: real)

  /** `!Number.isNaN(n) && n > 0` */
  predicate IsPositive(n: Number) {
    match n
    case NaN => false
    case Infinity(negative) => !negative
    case Finite(v) => v > 0.0
  }

  function Pow10(e: nat): (r: nat)
    ensures r >= 1
  {
    if e == 0 then 1 else 10 * Pow10(e - 1)
  }

  /** 10 raised to an integer power, as a real. */
  function Scale(e: int): (r: real)
    ensures r > 0.0
  {
    if e >= 0 then Pow10(e) as real else 1.0 / (Pow10(-e) as real)
  }

  /** The value of `c` as a digit in base `radix` (2, 8 or 16), if it is one. */
  function RadixDigit(c: char, radix: nat): Option<nat> {
    var d :=
      if '0' <= c <= '9' then c as int - '0' as int
      else if 'a' <= c <= 'f' then c as int - 'a' as int + 10
      else if 'A' <= c <= 'F' then c as int - 'A' as int + 10
      else 99;
    if 0 <= d < radix then Some(d) else None
  }

  /** The value of a non-empty run of base-`radix` digits (the `0x`, `0o`, `0b` literals). */
  function RadixValue(ds: string, radix: nat): Option<nat> {
    if ds == [] then None
    else
      match RadixDigit(ds[|ds| - 1], radix)
      case None => None
      case Some(d) =>
        if |ds| == 1 then Some(d)
        else match RadixValue(ds[..|ds| - 1], radix)
          case None => None
          case Some(v) => Some(v * radix + d)
  }

  /** The exponent part `[eE][+-]?\d+` of a decimal literal, or 0 when there is none. */
  function ExponentPart(s: string): Option<int> {
    if s == [] then Some(0)
    else if s[0] != 'e' && s[0] != 'E' then None
    else
      var t := s[1..];
      var neg := t != [] && t[0] == '-';
      var ds := if t != [] && (t[0] == '-' || t[0] == '+') then t[1..] else t;
      if ds == [] || !AllDigits(ds) then None
      else Some(if neg then -(DigitsValue(ds) as int) else DigitsValue(ds))
  }

  /** A text cut where a decimal literal's pieces end: the integer digits, an optional
      `.`, the fraction digits, and whatever follows. */
  datatype DecimalCut = DecimalCut(intDigits: string, hasDot: bool, fracDigits: string, tail: string)

  /** `s` is the text before position `i`, the character at `i`, the text up to `j`, and
      the rest. */
  lemma SplitAround(s: string, i: nat, j: nat)
    requires i < j <= |s|
    ensures s == s[..i] + [s[i]] + s[i + 1..j] + s[j..]
  {
    assert s[..i] + [s[i]] == s[..i + 1];
    assert s[..i + 1] + s[i + 1..j] == s[..j];
  }

  function CutDecimal(s: string): (r: DecimalCut)
    ensures AllDigits(r.intDigits) && AllDigits(r.fracDigits)
    ensures s == r.intDigits + (if r.hasDot then "." else "") + r.fracDigits + r.tail
    ensures r.tail == [] || !IsDigit(r.tail[0])
    ensures !r.hasDot ==> r.fracDigits == [] && (r.tail == [] || r.tail[0] != '.')
  {
    var ip := CountWhile(s, IsDigit);
    if ip < |s| && s[ip] == '.' then
      var e := ip + 1 + RunFrom(s, ip + 1, IsDigit);
      SplitAround(s, ip, e);
      DecimalCut(s[..ip], true, s[ip + 1..e], s[e..])
    else
      assert s[..ip] + "" + [] + s[ip..] == s;
      DecimalCut(s[..ip], false, [], s[ip..])
  }

  lemma NonNegativeProduct(a: real, b: real)
    requires a >= 0.0 && b > 0.0
    ensures a * b >= 0.0
  {
  }

  /** An unsigned decimal literal: digits, an optional `.` with optional digits (at least one
      digit in all), and an optional exponent. */
  function UnsignedDecimal(s: string): (r: Option<real>)
    ensures r.Some? ==> r.value >= 0.0
  {
    var cut := CutDecimal(s);
    if |cut.intDigits| + |cut.fracDigits| == 0 then None
    else
      match ExponentPart(cut.tail)
      case None => None
      case Some(e) =>
        var m := DigitsValue(cut.intDigits + cut.fracDigits) as real;
        var k := Scale(e - |cut.fracDigits|);
        assert m * k >= 0.0 by { NonNegativeProduct(m, k); }
        Some(m * k)
  }

  /** `Number(s)` for a string `s` (ECMAScript's StringToNumber). */
  function ToNumber(s: string): Number {
    TrimmedToNumber(Trim(s))
  }

  /** StringToNumber once the surrounding white space is gone. */
  function TrimmedToNumber(t: string): Number {
    if t == [] then Finite(0.0)
    else if |t| > 2 && t[0] == '0' && (t[1] == 'x' || t[1] == 'X') then RadixNumber(t[2..], 16)
    else if |t| > 2 && t[0] == '0' && (t[1] == 'o' || t[1] == 'O') then RadixNumber(t[2..], 8)
    else if |t| > 2 && t[0] == '0' && (t[1] == 'b' || t[1] == 'B') then RadixNumber(t[2..], 2)
    else SignedDecimal(t)
  }

  /** An optionally signed `Infinity` or unsigned decimal literal. */
  function SignedDecimal(t: string): Number
    requires t != []
  {
    var negative := t[0] == '-';
    var body := if t[0] == '-' || t[0] == '+' then t[1..] else t;
    if body == "Infinity" then Infinity(negative)
    else match UnsignedDecimal(body)
      case None => NaN
      case Some(v) => Finite(if negative then -v else v)
  }

  function RadixNumber(ds: string, radix: nat): Number {
    match RadixValue(ds, radix)
    case None => NaN
    case Some(v) => Finite(v as real)
  }

  function DotCount(s: string): nat {
    if s == [] then 0 else (if s[0] == '.' then 1 else 0) + DotCount(s[1..])
  }

  lemma {:induction false} DotCountConcat(a: string, b: string)
    ensures DotCount(a + b) == DotCount(a) + DotCount(b)
  {
    if a != [] {
      assert (a + b)[0] == a[0];
      assert (a + b)[1..] == a[1..] + b;
      DotCountConcat(a[1..], b);
    } else {
      assert a + b == b;
    }
  }

  lemma {:induction false} DotCountDigits(s: string)
    requires AllDigits(s)
    ensures DotCount(s) == 0
  {
    if s != [] {
      DotCountDigits(s[1..]);
    }
  }

  predicate IsDigitOrDot(c: char) { IsDigit(c) || c == '.' }

  /** For a trimmed text that starts like an unsigned decimal literal, `Number` is the
      literal's value, or NaN when it is not one. */
  lemma ToNumberUnsigned(s: string)
    requires s != [] && IsTrimmed(s)
    requires IsDigit(s[0]) || s[0] == '.'
    requires |s| > 1 ==> IsDigitOrDot(s[1])
    ensures ToNumber(s) == match UnsignedDecimal(s) case None => NaN case Some(v) => Finite(v)
  {
    TrimTrimmed(s);
    NoRadixPrefix(s);
    NoSign(s);
  }

  lemma NoRadixPrefix(s: string)
    requires s != []
    requires |s| > 1 ==> IsDigitOrDot(s[1])
    ensures TrimmedToNumber(s) == SignedDecimal(s)
  {
  }

  lemma NoSign(s: string)
    requires s != []
    requires IsDigit(s[0]) || s[0] == '.'
    ensures SignedDecimal(s) == match UnsignedDecimal(s) case None => NaN case Some(v) => Finite(v)
  {
    assert s != "Infinity" by { assert s[0] != 'I'; }
  }

  lemma UnsignedDecimalFails(s: string)
    ensures var cut := CutDecimal(s);
      UnsignedDecimal(s).None? <==>
        |cut.intDigits| + |cut.fracDigits| == 0 || ExponentPart(cut.tail).None?
  {
  }

  lemma CutDotCount(s: string)
    ensures DotCount(s) == (if CutDecimal(s).hasDot then 1 else 0) + DotCount(CutDecimal(s).tail)
  {
    var cut := CutDecimal(s);
    var dot := if cut.hasDot then "." else "";
    DotCountConcat(cut.intDigits + dot + cut.fracDigits, cut.tail);
    DotCountConcat(cut.intDigits + dot, cut.fracDigits);
    DotCountConcat(cut.intDigits, dot);
    DotCountDigits(cut.intDigits);
    DotCountDigits(cut.fracDigits);
  }

  /** In a text of digits and dots, whatever follows the literal's pieces starts with a
      second dot. */
  lemma CutTail(s: string)
    requires forall i :: 0 <= i < |s| ==> IsDigitOrDot(s[i])
    ensures var cut := CutDecimal(s);
      cut.tail != [] ==> cut.hasDot && cut.tail[0] == '.' && DotCount(cut.tail) >= 1
  {
    var cut := CutDecimal(s);
    if cut.tail != [] {
      var k := |s| - |cut.tail|;
      assert s[k..] == cut.tail;
      assert IsDigitOrDot(s[k]);
      assert cut.tail == [cut.tail[0]] + cut.tail[1..];
      DotCountConcat([cut.tail[0]], cut.tail[1..]);
    }
  }

  lemma SecondDotFails(s: string)
    requires forall i :: 0 <= i < |s| ==> IsDigitOrDot(s[i])
    requires CutDecimal(s).tail != []
    ensures UnsignedDecimal(s).None? && DotCount(s) > 1
  {
    CutTail(s);
    SecondDotNone(s);
    CutDotCount(s);
  }

  lemma SecondDotNone(s: string)
    requires CutDecimal(s).tail != [] && CutDecimal(s).tail[0] == '.'
    ensures UnsignedDecimal(s).None?
  {
    UnsignedDecimalFails(s);
    assert ExponentPart(CutDecimal(s).tail).None?;
  }

  lemma NoSecondDot(s: string)
    requires CutDecimal(s).tail == []
    ensures UnsignedDecimal(s).None? <==> s == "." || s == []
    ensures DotCount(s) <= 1
  {
    var cut := CutDecimal(s);
    UnsignedDecimalFails(s);
    CutDotCount(s);
    if |cut.intDigits| + |cut.fracDigits| == 0 {
      assert s == if cut.hasDot then "." else "";
    } else {
      assert s != "." && s != [];
    }
  }

  /** The decimal-literal reading of a text of digits and dots fails exactly when there are
      two or more dots or the text has no digit. */
  lemma UnsignedDigitsAndDots(s: string)
    requires forall i :: 0 <= i < |s| ==> IsDigitOrDot(s[i])
    ensures UnsignedDecimal(s).None? <==> DotCount(s) > 1 || s == "." || s == []
  {
    if CutDecimal(s).tail != [] {
      SecondDotFails(s);
    } else {
      NoSecondDot(s);
    }
  }

  /** `Number` of a text of digits and dots (what is left of `[\d,.]+` once the commas are
      gone): NaN exactly when there are two or more dots or the text is a lone dot;
      otherwise a finite value that is never negative ("" gives 0). */
  lemma DigitsAndDots(s: string)
    requires forall i :: 0 <= i < |s| ==> IsDigitOrDot(s[i])
    ensures ToNumber(s) == NaN <==> DotCount(s) > 1 || s == "."
    ensures ToNumber(s) != NaN ==> ToNumber(s).Finite? && ToNumber(s).value >= 0.0
  {
    if s == [] {
      assert Trim(s) == [];
    } else {
      ToNumberUnsigned(s);
      UnsignedDigitsAndDots(s);
    }
  }

  /** `Number` of a run of decimal digits is its decimal value. */
  lemma DigitsNumber(s: string)
    requires s != [] && AllDigits(s)
    ensures ToNumber(s) == Finite(DigitsValue(s) as real)
  {
    ToNumberUnsigned(s);
    UnsignedDigits(s);
  }

  lemma UnsignedDigits(s: string)
    requires s != [] && AllDigits(s)
    ensures UnsignedDecimal(s) == Some(DigitsValue(s) as real)
  {
    CutDigits(s);
    assert s + [] == s;
    assert Scale(0) == 1.0;
  }

  lemma CutDigits(s: string)
    requires AllDigits(s)
    ensures CutDecimal(s) == DecimalCut(s, false, [], [])
  {
  }

  /** Text that starts with a lower-case letter is not a number. */
  lemma LetterIsNaN(s: string)
    requires s != [] && IsTrimmed(s) && IsLowerLetter(s[0])
    ensures ToNumber(s) == NaN
  {
    TrimTrimmed(s);
    assert s != "Infinity" by { assert s[0] != 'I'; }
    assert TrimmedToNumber(s) == SignedDecimal(s);
    NoLeadingDigit(s);
  }

  /** A decimal literal starts with a digit or a dot. */
  lemma NoLeadingDigit(s: string)
    requires s != [] && !IsDigit(s[0]) && s[0] != '.'
    ensures UnsignedDecimal(s) == None
  {
    assert CountWhile(s, IsDigit) == 0;
    assert CutDecimal(s) == DecimalCut([], false, [], s);
  }
}
