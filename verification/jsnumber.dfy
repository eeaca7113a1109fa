/** The two ECMAScript global functions the timeline code relies on,
    `parseInt` with no radix argument and `parseFloat`, as ECMA-262
    defines them.  Numbers are exact reals here:
    rounding to IEEE-754 doubles is not modelled. */
module JsNumber {
  import opened Wrappers
  import opened Text

  /** A JavaScript number as far as the timeline code can observe it. */
  datatype JsNum = NaN | Finite(x: real) | Infinity(negative: bool)

  /** WhiteSpace and LineTerminator code points (as ECMA-262's lexical
      grammar lists them), which both parse functions skip at the start of their argument. */
  predicate IsJsSpace(c: char) {
    || c == '\t' || c == '\n' || c == '\U{000B}' || c == '\U{000C}' || c == '\r'
    || c == ' ' || c == '\U{00A0}' || c == '\U{1680}'
    || ('\U{2000}' <= c <= '\U{200A}')
    || c == '\U{2028}' || c == '\U{2029}' || c == '\U{202F}' || c == '\U{205F}'
    || c == '\U{3000}' || c == '\U{FEFF}'
  }

  /** The argument after its leading white space. */
  function TrimStart(s: string): string {
    TrimLeft(s, IsJsSpace)
  }

  /** Text that does not start with white space is its own TrimStart. */
  lemma TrimStartNone(s: string)
    requires |s| == 0 || !IsJsSpace(s[0])
    ensures TrimStart(s) == s
  {
  }

  /** The text after an optional leading `+` or `-`. */
  function Unsigned(t: string): string {
    if |t| > 0 && (t[0] == '-' || t[0] == '+') then t[1..] else t
  }

  predicate IsNegated(t: string) {
    |t| > 0 && t[0] == '-'
  }

  /** `0x` or `0X` at the head, which switches `parseInt` to radix 16. */
  predicate HasHexPrefix(u: string) {
    |u| >= 2 && u[0] == '0' && (u[1] == 'x' || u[1] == 'X')
  }

  /** The unsigned part of `parseInt`: a `0x` prefix selects radix 16,
      otherwise radix 10, and the value is that of the longest run of digits.
      No digits means NaN, returned here as None. */
  function UnsignedInt(u: string): Option<nat> {
    if HasHexPrefix(u) then LeadingValue(u[2..], 16) else LeadingValue(u, 10)
  }

  /** The value of the run of radix-`radix` digits at the head of `body`,
      or None when `body` does not start with one. */
  function LeadingValue(body: string, radix: nat): Option<nat> {
    var n := DigitRun(body, radix);
    if n == 0 then None else Some(DigitsValue(body[..n], radix))
  }

  /** `parseInt(s)`: skip white space, read an optional sign, then read the
      unsigned integer that follows. */
  function ParseInt(s: string): Option<int> {
    var t := TrimStart(s);
    match UnsignedInt(Unsigned(t))
    case None => None
    case Some(v) => Some(if IsNegated(t) then -(v as int) else v)
  }

  /** Decimal digits not followed by a digit read as their value, provided
      they do not form a `0x` prefix. */
  lemma UnsignedIntDigits(ds: string, t: string)
    requires |ds| > 0 && AllDigits(ds, 10)
    requires |t| == 0 || !IsDigit(t[0], 10)
    requires !(ds == "0" && |t| > 0 && (t[0] == 'x' || t[0] == 'X'))
    ensures UnsignedInt(ds + t) == Some(DigitsValue(ds, 10))
  {
    var u := ds + t;
    if |ds| > 1 {
      assert u[1] == ds[1];
    } else if |t| > 0 {
      assert u[1] == t[0];
    }
    assert !HasHexPrefix(u);
    DigitRunOf(ds, t, 10);
    assert u[..|ds|] == ds;
  }

  /** Where an optional sign sits in front of text that starts with neither
      white space nor another sign: nothing is trimmed, the sign is read off,
      and the text after it is the unsigned part. */
  lemma SignLayout(s: string, sign: string, u: string)
    requires |sign| == 0 || (|sign| == 1 && (sign[0] == '+' || sign[0] == '-'))
    requires s == sign + u
    requires |u| > 0 && !IsJsSpace(u[0]) && u[0] != '+' && u[0] != '-'
    ensures TrimStart(s) == s && Unsigned(s) == u
    ensures IsNegated(s) <==> |sign| == 1 && sign[0] == '-'
  {
    assert s[0] == if |sign| == 0 then u[0] else sign[0];
    TrimStartNone(s);
    if |sign| == 1 {
      assert s[1..] == u;
    }
  }

  /** A sign (empty, `+` or `-`) at the head of text that does not start
      with white space or another sign applies to the unsigned integer after it. */
  lemma SignedParse(s: string, sign: string, u: string, v: nat)
    requires |sign| == 0 || (|sign| == 1 && (sign[0] == '+' || sign[0] == '-'))
    requires s == sign + u
    requires |u| > 0 && !IsJsSpace(u[0]) && u[0] != '+' && u[0] != '-'
    requires UnsignedInt(u) == Some(v)
    ensures ParseInt(s) == Some(if |sign| == 1 && sign[0] == '-' then -(v as int) else v)
  {
    SignLayout(s, sign, u);
  }

  /** Text that starts with a digit starts with neither white space nor a sign. */
  lemma LeadsWithDigit(ds: string, t: string)
    requires |ds| > 0 && IsDigit(ds[0], 10)
    ensures var u := ds + t; |u| > 0 && !IsJsSpace(u[0]) && u[0] != '+' && u[0] != '-'
  {
    assert (ds + t)[0] == ds[0];
  }

  /** `parseInt` reads the leading decimal digits `ds` of `sign + ds + t`,
      where `sign` is empty, `+` or `-`, and stops at the first non-digit:
      the result is the number `v` that `ds` writes, negated after a `-`. */
  lemma ParseIntDigits(sign: string, ds: string, t: string, v: nat)
    requires |sign| == 0 || (|sign| == 1 && (sign[0] == '+' || sign[0] == '-'))
    requires |ds| > 0 && AllDigits(ds, 10)
    requires |t| == 0 || !IsDigit(t[0], 10)
    requires !(ds == "0" && |t| > 0 && (t[0] == 'x' || t[0] == 'X'))
    requires v == DigitsValue(ds, 10)
    ensures ParseInt(sign + ds + t) == Some(if |sign| == 1 && sign[0] == '-' then -(v as int) else v)
  {
    UnsignedIntDigits(ds, t);
    LeadsWithDigit(ds, t);
    var s := sign + ds + t;
    assert s == sign + (ds + t);
    SignedParse(s, sign, ds + t, v);
  }

  /** A string of decimal digits parses to the number `v` it writes. */
  lemma ParseIntPlain(ds: string, v: nat)
    requires |ds| > 0 && AllDigits(ds, 10)
    requires v == DigitsValue(ds, 10)
    ensures ParseInt(ds) == Some(v)
  {
    ParseIntDigits("", ds, "", v);
    assert "" + ds + "" == ds;
  }

  /** Printing a natural number and parsing it back gives the number. */
  lemma ParseIntDecimal(n: nat)
    ensures ParseInt(Decimal(n)) == Some(n)
  {
    DecimalValue(n);
    ParseIntPlain(Decimal(n), n);
  }

  /** Text that, after white space, starts with neither a digit nor a sign
      does not parse: `parseInt` gives NaN. */
  lemma ParseIntNoDigits(s: string)
    requires var t := TrimStart(s);
             |t| == 0 || (!IsDigit(t[0], 10) && t[0] != '+' && t[0] != '-')
    ensures ParseInt(s) == None
  {
  }

  /** `x * 10 ^ e`, computed by repeated multiplication or division by ten. */
  function ScaleBy(x: real, e: int): real
    decreases if e < 0 then -e else e
  {
    if e == 0 then x
    else if e > 0 then 10.0 * ScaleBy(x, e - 1)
    else ScaleBy(x, e + 1) / 10.0
  }

  /** The value of the fraction digits `fs`, read as `0.fs`. */
  function FractionValue(fs: string): real
    requires AllDigits(fs, 10)
    decreases |fs|
  {
    if |fs| == 0 then 0.0
    else (DigitValue(fs[0]).value as real + FractionValue(fs[1..])) / 10.0
  }

  /** The value of an ExponentPart (`e` or `E`, optional sign, digits) at the
      head of `s`, or 0 when there is none: `parseFloat("1e")` is 1. */
  function ExponentOf(s: string): int {
    if |s| > 0 && (s[0] == 'e' || s[0] == 'E') then
      var u := Unsigned(s[1..]);
      var n := DigitRun(u, 10);
      if n == 0 then 0
      else
        var v: int := DigitsValue(u[..n], 10);
        if IsNegated(s[1..]) then -v else v
    else 0
  }

  /** `Infinity` at the head of the unsigned part. */
  predicate StartsWithInfinity(u: string) {
    |u| >= 8 && u[..8] == "Infinity"
  }

  /** The unsigned decimal part of `parseFloat`: the longest prefix of the
      form digits, optional `.` and fraction digits, optional exponent, with
      at least one digit before the exponent.  None when there is no digit. */
  function UnsignedDecimal(u: string): Option<real> {
    var ni := DigitRun(u, 10);
    var rest := u[ni..];
    var hasDot := |rest| > 0 && rest[0] == '.';
    var nf := if hasDot then DigitRun(rest[1..], 10) else 0;
    if ni == 0 && nf == 0 then None
    else
      var frac := if hasDot then rest[1..][..nf] else "";
      var tail := if hasDot then rest[1 + nf..] else rest;
      Some(ScaleBy(DigitsValue(u[..ni], 10) as real + FractionValue(frac), ExponentOf(tail)))
  }

  /** `parseFloat(s)`: skip white space, read an optional sign, then read
      `Infinity` or an unsigned decimal literal.  Anything else is NaN. */
  function ParseFloat(s: string): JsNum {
    var t := TrimStart(s);
    var u := Unsigned(t);
    if StartsWithInfinity(u) then Infinity(IsNegated(t))
    else
      match UnsignedDecimal(u)
      case None => NaN
      case Some(m) => Finite(if IsNegated(t) then -m else m)
  }

  /** Digits followed by text that continues no number read as their value. */
  lemma UnsignedDecimalWhole(ds: string, t: string, m: real)
    requires |ds| > 0 && AllDigits(ds, 10)
    requires |t| == 0 || (!IsDigit(t[0], 10) && t[0] != '.' && t[0] != 'e' && t[0] != 'E')
    requires m == DigitsValue(ds, 10) as real
    ensures UnsignedDecimal(ds + t) == Some(m)
  {
    var u := ds + t;
    DigitRunOf(ds, t, 10);
    assert u[..|ds|] == ds;
    assert u[|ds|..] == t;
    assert ExponentOf(t) == 0;
  }

  /** `ds.fs` followed by text that continues no number reads as the
      decimal fraction it writes. */
  lemma UnsignedDecimalFraction(ds: string, fs: string, t: string, m: real)
    requires |ds| > 0 && AllDigits(ds, 10) && AllDigits(fs, 10)
    requires |t| == 0 || (!IsDigit(t[0], 10) && t[0] != 'e' && t[0] != 'E')
    requires m == DigitsValue(ds, 10) as real + FractionValue(fs)
    ensures UnsignedDecimal(ds + "." + fs + t) == Some(m)
  {
    var u := ds + "." + fs + t;
    FractionLayout(ds, fs, t);
    assert ExponentOf(t) == 0;
    DecimalAt(u, |ds|, |fs|);
  }

  /** UnsignedDecimal on text with `ni` integer digits, a `.` and `nf`
      fraction digits: the value of those digits, scaled by the exponent
      that follows. */
  lemma DecimalAt(u: string, ni: nat, nf: nat)
    requires ni > 0 && ni == DigitRun(u, 10)
    requires |u[ni..]| > 0 && u[ni..][0] == '.'
    requires nf == DigitRun(u[ni..][1..], 10)
    ensures UnsignedDecimal(u) == Some(ScaleBy(DigitsValue(u[..ni], 10) as real + FractionValue(u[ni..][1..][..nf]),
                                               ExponentOf(u[ni..][1 + nf..])))
  {
  }

  /** Where the pieces of `ds.fs` followed by `t` sit in the string. */
  lemma FractionLayout(ds: string, fs: string, t: string)
    requires AllDigits(ds, 10) && AllDigits(fs, 10)
    requires |t| == 0 || !IsDigit(t[0], 10)
    ensures var u := ds + "." + fs + t;
            var r := u[DigitRun(u, 10)..];
            && DigitRun(u, 10) == |ds| && u[..|ds|] == ds
            && |r| > 0 && r[0] == '.'
            && DigitRun(r[1..], 10) == |fs| && r[1..][..|fs|] == fs && r[1 + |fs|..] == t
  {
    var ft := fs + t;
    var r := ['.'] + ft;
    assert ds + "." + fs + t == ds + r;
    DigitsThen(ds, r);
    assert r[1..] == ft;
    DigitsThen(fs, t);
    assert r[1 + |fs|..] == t;
  }

  /** Splitting `ds + t` at its leading run of digits recovers `ds` and `t`. */
  lemma DigitsThen(ds: string, t: string)
    requires AllDigits(ds, 10)
    requires |t| == 0 || !IsDigit(t[0], 10)
    ensures DigitRun(ds + t, 10) == |ds|
    ensures (ds + t)[..|ds|] == ds && (ds + t)[|ds|..] == t
  {
    DigitRunOf(ds, t, 10);
    assert (ds + t)[..|ds|] == ds;
  }

  /** A sign (empty, `+` or `-`) in front of a decimal literal that starts
      with a digit applies to the literal's value. */
  lemma SignedFloat(s: string, sign: string, u: string, m: real)
    requires |sign| == 0 || (|sign| == 1 && (sign[0] == '+' || sign[0] == '-'))
    requires s == sign + u
    requires |u| > 0 && IsDigit(u[0], 10)
    requires UnsignedDecimal(u) == Some(m)
    ensures ParseFloat(s) == Finite(if |sign| == 1 && sign[0] == '-' then -m else m)
  {
    SignLayout(s, sign, u);
    assert |u| >= 8 ==> u[..8][0] == u[0];
  }

  /** A decimal numeral with an optional sign and a fraction parses to the
      number `m` it writes, whatever follows that is not part of a number. */
  lemma ParseFloatFraction(sign: string, ds: string, fs: string, t: string, m: real)
    requires |sign| == 0 || (|sign| == 1 && (sign[0] == '+' || sign[0] == '-'))
    requires |ds| > 0 && AllDigits(ds, 10) && AllDigits(fs, 10)
    requires |t| == 0 || (!IsDigit(t[0], 10) && t[0] != 'e' && t[0] != 'E')
    requires m == DigitsValue(ds, 10) as real + FractionValue(fs)
    ensures ParseFloat(sign + ds + "." + fs + t) == Finite(if |sign| == 1 && sign[0] == '-' then -m else m)
  {
    var u := ds + "." + fs + t;
    var s := sign + ds + "." + fs + t;
    Regroup(sign, ds, fs, t);
    UnsignedDecimalFraction(ds, fs, t, m);
    SignedFloat(s, sign, u, m);
  }

  lemma Regroup(sign: string, ds: string, fs: string, t: string)
    requires |ds| > 0
    ensures sign + ds + "." + fs + t == sign + (ds + "." + fs + t)
    ensures (ds + "." + fs + t)[0] == ds[0]
  {
  }

  /** A whole decimal numeral parses to its value. */
  lemma ParseFloatWhole(n: nat)
    ensures ParseFloat(Decimal(n)) == Finite(n as real)
  {
    var ds := Decimal(n);
    DecimalValue(n);
    UnsignedDecimalWhole(ds, "", n as real);
    assert ds + "" == ds;
    SignedFloat(ds, "", ds, n as real);
  }

  /** Text that, after white space, starts with none of a digit, a sign, a
      `.` or the `I` of `Infinity` does not parse: `parseFloat` gives NaN. */
  lemma ParseFloatNoNumber(s: string)
    requires var t := TrimStart(s);
             |t| == 0 || (!IsDigit(t[0], 10) && t[0] !in "+-.I")
    ensures ParseFloat(s) == NaN
  {
    var t := TrimStart(s);
    assert Unsigned(t) == t;
    assert |t| >= 8 ==> t[..8][0] == t[0];
  }
}
