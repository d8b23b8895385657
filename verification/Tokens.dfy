/**
 * Printing base units as a decimal token amount and parsing it back
 * (`base_units_to_tokens` and `tokens_to_base_units`, crates/rust-client/src/utils.rs). The largest
 * number of decimals a faucet may have is a constant of another crate and a parameter here.
 */
module Tokens {
  import opened Common

  const U64_LIMIT := 0x1_0000_0000_0000_0000

  datatype TokenParseError = MaxDecimals(n: nat) | MultipleDecimalPoints | ParseU64 | TooManyDecimals(n: nat)

  // ---------------------------------------------------------------- decimal numerals

  predicate IsDigit(c: char) { '0' <= c <= '9' }

  function DigitValue(c: char): nat
    requires IsDigit(c)
  {
    c as nat - '0' as nat
  }

  function Digit(d: nat): (c: char)
    requires d < 10
    ensures IsDigit(c) && DigitValue(c) == d
  {
    (d + '0' as nat) as char
  }

  predicate AllDigits(s: string) {
    forall i :: 0 <= i < |s| ==> IsDigit(s[i])
  }

  /** The number a string of digits stands for. */
  function ValueOf(s: string): nat
    requires AllDigits(s)
  {
    if s == "" then 0 else 10 * ValueOf(s[..|s| - 1]) + DigitValue(s[|s| - 1])
  }

  function Pow10(k: nat): (p: nat)
    ensures p > 0
  {
    if k == 0 then 1 else 10 * Pow10(k - 1)
  }

  /** v shifted left by k decimal places. */
  function Shifted(v: nat, k: nat): nat { v * Pow10(k) }

  lemma {:induction false} PowAdd(a: nat, b: nat)
    ensures Pow10(a + b) == Pow10(a) * Pow10(b)
  {
    if b > 0 {
      PowAdd(a, b - 1);
      calc {
        Pow10(a + b);
        10 * Pow10(a + b - 1);
        10 * (Pow10(a) * Pow10(b - 1));
        Pow10(a) * (10 * Pow10(b - 1));
      }
    }
  }

  lemma ShiftAdd(x: nat, p: nat, y: nat, d: nat)
    ensures 10 * (x * p + y) + d == x * (10 * p) + (10 * y + d)
  {
  }

  /** Appending digits shifts and adds. */
  lemma {:induction false} ValueAppend(a: string, b: string)
    requires AllDigits(a) && AllDigits(b)
    ensures AllDigits(a + b) && ValueOf(a + b) == ValueOf(a) * Pow10(|b|) + ValueOf(b)
  {
    if b == "" {
      assert a + b == a;
    } else {
      var b0, c := b[..|b| - 1], b[|b| - 1];
      ValueAppend(a, b0);
      assert (a + b)[..|a + b| - 1] == a + b0;
      ShiftAdd(ValueOf(a), Pow10(|b0|), ValueOf(b0), DigitValue(c));
    }
  }

  function Zeros(k: nat): (z: string)
    ensures |z| == k && AllDigits(z) && forall i :: 0 <= i < k ==> z[i] == '0'
  {
    seq(k, _ => '0')
  }

  lemma {:induction false} ZerosValue(k: nat)
    ensures ValueOf(Zeros(k)) == 0
  {
    if k > 0 {
      ZerosValue(k - 1);
      assert Zeros(k)[..k - 1] == Zeros(k - 1);
    }
  }

  lemma ValuePadded(s: string, k: nat)
    requires AllDigits(s)
    ensures AllDigits(s + Zeros(k)) && ValueOf(s + Zeros(k)) == Shifted(ValueOf(s), k)
  {
    ValueAppend(s, Zeros(k));
    ZerosValue(k);
  }

  /** Parsing an unsigned 64-bit number: an optional plus sign, then at least one digit, and no overflow. */
  function ParseNumber(s: string): Option<nat> {
    var digits := if |s| > 1 && s[0] == '+' then s[1..] else s;
    if digits == "" || !AllDigits(digits) then None
    else if ValueOf(digits) < U64_LIMIT then Some(ValueOf(digits)) else None
  }

  // ---------------------------------------------------------------- the printer

  function Numeral(u: nat): (s: string)
    ensures s != "" && AllDigits(s) && ValueOf(s) == u
  {
    if u < 10 then [Digit(u)]
    else
      var front := Numeral(u / 10);
      var s := front + [Digit(u % 10)];
      assert s[..|s| - 1] == front;
      s
  }

  function BaseUnitsToTokens(units: nat, decimals: nat): string {
    var text := Numeral(units);
    if decimals == 0 then text
    else if decimals >= |text| then "0." + Zeros(decimals - |text|) + text
    else text[..|text| - decimals] + "." + text[|text| - decimals..]
  }

  // ---------------------------------------------------------------- the parser

  function IndexOf(s: string, c: char): (i: nat)
    ensures i <= |s| && (i < |s| ==> s[i] == c) && forall j :: 0 <= j < i ==> s[j] != c
  {
    if s == "" || s[0] == c then 0
    else
      var i := IndexOf(s[1..], c);
      assert forall j :: 0 < j < i + 1 ==> s[j] == s[1..][j - 1];
      i + 1
  }

  /** The parts between decimal points; always at least one. */
  function SplitAtDots(s: string): (parts: seq<string>)
    ensures |parts| > 0
    decreases |s|
  {
    var i := IndexOf(s, '.');
    if i == |s| then [s] else [s[..i]] + SplitAtDots(s[i + 1..])
  }

  function TrimZeros(s: string): (t: string)
    ensures |t| <= |s| && t == s[..|t|]
    ensures forall i :: |t| <= i < |s| ==> s[i] == '0'
    ensures t == "" || t[|t| - 1] != '0'
  {
    if s == "" || s[|s| - 1] != '0' then s
    else
      var front := s[..|s| - 1];
      var t := TrimZeros(front);
      assert t == s[..|t|];
      t
  }

  lemma TrimmedAndZeros(s: string)
    ensures s == TrimZeros(s) + Zeros(|s| - |TrimZeros(s)|)
  {
    hide TrimZeros, Zeros;
  }

  /** The number that the two parts of an amount make once the fraction has exactly n digits. */
  function Combined(whole: string, fraction: string, n: nat): Result<nat, TokenParseError> {
    var trimmed := TrimZeros(fraction);
    if |trimmed| > n then Err(TooManyDecimals(n))
    else
      match ParseNumber(whole + (trimmed + Zeros(n - |trimmed|)))
      case None => Err(ParseU64)
      case Some(v) => Ok(v)
  }

  /** What the parser computes, clause by clause. */
  function TokensToBaseUnits(s: string, n: nat, maxDecimals: nat): Result<nat, TokenParseError> {
    var parts := SplitAtDots(s);
    if n > maxDecimals then Err(MaxDecimals(n))
    else if |parts| > 2 then Err(MultipleDecimalPoints)
    else if exists i :: 0 <= i < |parts| && ParseNumber(parts[i]).None? then Err(ParseU64)
    else Combined(parts[0], if |parts| > 1 then parts[1] else "", n)
  }

  /** The loop that pushes zeros until the fraction has n digits. */
  method Pad(trimmed: string, n: nat) returns (fraction: string)
    requires |trimmed| <= n
    ensures fraction == trimmed + Zeros(n - |trimmed|)
  {
    fraction := trimmed;
    while |fraction| < n
      invariant |trimmed| <= |fraction| <= n
      invariant fraction == trimmed + Zeros(|fraction| - |trimmed|)
    {
      assert Zeros(|fraction| - |trimmed|) + "0" == Zeros(|fraction| + 1 - |trimmed|);
      assert trimmed + (Zeros(|fraction| - |trimmed|) + "0") == fraction + "0";
      fraction := fraction + "0";
    }
  }

  /** The parser as it is written: a validation loop, then a loop that pads the fraction. */
  method ParseTokens(s: string, n: nat, maxDecimals: nat) returns (r: Result<nat, TokenParseError>)
    ensures r == TokensToBaseUnits(s, n, maxDecimals)
  {
    hide SplitAtDots, ParseNumber, TrimZeros, Zeros;
    if n > maxDecimals {
      return Err(MaxDecimals(n));
    }
    var parts := SplitAtDots(s);
    if |parts| > 2 {
      return Err(MultipleDecimalPoints);
    }
    for i := 0 to |parts|
      invariant forall j :: 0 <= j < i ==> ParseNumber(parts[j]).Some?
    {
      if ParseNumber(parts[i]).None? {
        return Err(ParseU64);
      }
    }
    var fraction := TrimZeros(if |parts| > 1 then parts[1] else "");
    if |fraction| > n {
      return Err(TooManyDecimals(n));
    }
    fraction := Pad(fraction, n);
    assert fraction[0..n] == fraction;
    var number := ParseNumber(parts[0] + fraction[0..n]);
    return if number.None? then Err(ParseU64) else Ok(number.value);
  }

  // ---------------------------------------------------------------- exactness

  predicate NoDots(s: string) { forall i :: 0 <= i < |s| ==> s[i] != '.' }

  lemma SplitPlain(s: string)
    requires NoDots(s)
    ensures SplitAtDots(s) == [s]
  {
  }

  lemma SplitDotted(whole: string, fraction: string)
    requires NoDots(whole) && NoDots(fraction)
    ensures SplitAtDots(whole + "." + fraction) == [whole, fraction]
  {
    var s := whole + "." + fraction;
    assert s[|whole|] == '.';
    assert forall j :: 0 <= j < |whole| ==> s[j] == whole[j];
    assert IndexOf(s, '.') == |whole|;
    assert s[..|whole|] == whole && s[|whole| + 1..] == fraction;
    SplitPlain(fraction);
  }

  lemma SplitSingle(s: string)
    requires |SplitAtDots(s)| == 1
    ensures SplitAtDots(s) == [s] && NoDots(s)
  {
    assert IndexOf(s, '.') == |s|;
  }

  lemma SplitPair(s: string)
    requires |SplitAtDots(s)| == 2
    ensures var parts := SplitAtDots(s);
            NoDots(parts[0]) && NoDots(parts[1]) && s == parts[0] + "." + parts[1]
  {
    hide NoDots;
    var i := IndexOf(s, '.');
    var rest := s[i + 1..];
    assert SplitAtDots(s) == [s[..i]] + SplitAtDots(rest);
    SplitSingle(rest);
    assert NoDots(s[..i]) by { PrefixNoDots(s); }
    assert s == s[..i] + "." + rest;
  }

  lemma PrefixNoDots(s: string)
    ensures NoDots(s[..IndexOf(s, '.')])
  {
  }

  /** A written amount: an optional sign, digits, and possibly a point followed by digits. */
  datatype Amount = Amount(plus: bool, whole: string, point: bool, fraction: string) {
    predicate WellFormed() {
      && whole != "" && AllDigits(whole)
      && AllDigits(fraction)
      && (fraction != "" <==> point)
    }

    function Signed(): string { (if plus then "+" else "") + whole }

    function Text(): string { if point then Signed() + "." + fraction else Signed() }

    /** All digits, as one whole number: the amount times 10^|fraction|. */
    function Scaled(): nat
      requires WellFormed()
    {
      ValueOf(whole + fraction)
    }
  }

  /** Each part fits 64 bits, no digit after the n-th decimal counts, and v is the amount times 10^n. */
  predicate Denotes(a: Amount, n: nat, v: nat)
    requires a.WellFormed()
  {
    && ValueOf(a.whole) < U64_LIMIT
    && ValueOf(a.fraction) < U64_LIMIT
    && (forall i :: n <= i < |a.fraction| ==> a.fraction[i] == '0')
    && v < U64_LIMIT
    && Shifted(v, |a.fraction|) == Shifted(a.Scaled(), n)
  }

  lemma ParseSigned(plus: bool, digits: string)
    requires digits != "" && AllDigits(digits)
    ensures ParseNumber((if plus then "+" else "") + digits)
            == if ValueOf(digits) < U64_LIMIT then Some(ValueOf(digits)) else None
  {
    var s := (if plus then "+" else "") + digits;
    if plus {
      assert s[0] == '+' && s[1..] == digits;
    } else {
      assert s == digits && IsDigit(s[0]);
    }
  }

  /** A string that parses is a signed numeral. */
  lemma ParsedIsSigned(s: string) returns (plus: bool, digits: string)
    requires ParseNumber(s).Some?
    ensures digits != "" && AllDigits(digits) && s == (if plus then "+" else "") + digits
    ensures ValueOf(digits) < U64_LIMIT
  {
    hide ValueOf;
    if |s| > 1 && s[0] == '+' {
      plus, digits := true, s[1..];
      assert s == "+" + digits;
    } else {
      plus, digits := false, s;
      assert s == "" + digits;
    }
  }

  lemma TrimFits(f: string, n: nat)
    ensures |TrimZeros(f)| <= n <==> forall i :: n <= i < |f| ==> f[i] == '0'
  {
    hide TrimZeros;
    var t := TrimZeros(f);
    if |t| > n {
      assert f[|t| - 1] == t[|t| - 1];
    }
  }

  lemma Associate(v: nat, p: nat, q: nat)
    ensures (v * p) * q == v * (p * q)
  {
  }

  lemma ShiftedTwice(v: nat, j: nat, k: nat)
    ensures Shifted(Shifted(v, j), k) == Shifted(v, j + k)
  {
    PowAdd(j, k);
    Associate(v, Pow10(j), Pow10(k));
  }

  lemma DigitsTogether(a: string, b: string)
    requires AllDigits(a) && AllDigits(b)
    ensures AllDigits(a + b)
  {
  }

  /** The digits, kept whole or trimmed and padded, are the trimmed digits followed by zeros. */
  lemma BothPadded(w: string, f: string, n: nat)
    requires AllDigits(w) && AllDigits(f) && |TrimZeros(f)| <= n
    ensures var t := TrimZeros(f);
            && AllDigits(w + t) && AllDigits(w + (t + Zeros(n - |t|))) && AllDigits(w + f)
            && ValueOf(w + (t + Zeros(n - |t|))) == Shifted(ValueOf(w + t), n - |t|)
            && ValueOf(w + f) == Shifted(ValueOf(w + t), |f| - |t|)
  {
    hide TrimZeros, Zeros, ValueOf, Shifted, AllDigits;
    var t := TrimZeros(f);
    assert AllDigits(t) by { TrimmedDigits(f); }
    DigitsTogether(w, t);
    ValuePadded(w + t, |f| - |t|);
    ValuePadded(w + t, n - |t|);
    TrimmedAndZeros(f);
    assert w + f == w + t + Zeros(|f| - |t|);
    assert w + (t + Zeros(n - |t|)) == w + t + Zeros(n - |t|);
  }

  lemma TrimmedDigits(f: string)
    requires AllDigits(f)
    ensures AllDigits(TrimZeros(f))
  {
  }

  /** Trimming and padding rescale the digits from |f| decimals to n. */
  lemma PaddedScales(w: string, f: string, n: nat)
    requires AllDigits(w) && AllDigits(f) && |TrimZeros(f)| <= n
    ensures var padded := TrimZeros(f) + Zeros(n - |TrimZeros(f)|);
            && AllDigits(w + padded) && AllDigits(w + f)
            && Shifted(ValueOf(w + padded), |f|) == Shifted(ValueOf(w + f), n)
  {
    hide *;
    BothPadded(w, f, n);
    var t := TrimZeros(f);
    ShiftedTwice(ValueOf(w + t), n - |t|, |f|);
    ShiftedTwice(ValueOf(w + t), |f| - |t|, n);
  }

  lemma ShiftIsStrict(x: nat, y: nat, k: nat)
    requires x < y
    ensures Shifted(x, k) < Shifted(y, k)
  {
    assert (y - x) * Pow10(k) > 0;
  }

  lemma ShiftIsInjective(x: nat, y: nat, k: nat)
    requires Shifted(x, k) == Shifted(y, k)
    ensures x == y
  {
    if x < y {
      ShiftIsStrict(x, y, k);
    } else if x > y {
      ShiftIsStrict(y, x, k);
    }
  }

  /** The combined number is the amount times 10^n, when that fits. */
  lemma CombinedExact(a: Amount, n: nat, v: nat)
    requires a.WellFormed() && ValueOf(a.whole) < U64_LIMIT && ValueOf(a.fraction) < U64_LIMIT
    ensures Combined(a.Signed(), a.fraction, n) == Ok(v) <==> Denotes(a, n, v)
  {
    hide TrimZeros, Zeros, ValueOf, Shifted, ParseNumber;
    TrimFits(a.fraction, n);
    var t := TrimZeros(a.fraction);
    if |t| <= n {
      var padded := t + Zeros(n - |t|);
      PaddedScales(a.whole, a.fraction, n);
      ParseSigned(a.plus, a.whole + padded);
      assert a.Signed() + padded == (if a.plus then "+" else "") + (a.whole + padded);
      var c := ValueOf(a.whole + padded);
      if Denotes(a, n, v) {
        ShiftIsInjective(v, c, |a.fraction|);
      }
    }
  }

  lemma TextSplits(a: Amount)
    requires a.WellFormed()
    ensures SplitAtDots(a.Text()) == if a.point then [a.Signed(), a.fraction] else [a.Signed()]
  {
    hide SplitAtDots;
    if a.point {
      SplitDotted(a.Signed(), a.fraction);
    } else {
      SplitPlain(a.Signed());
    }
  }

  /** On every well-formed amount the parser answers exactly as the amount's value says. */
  lemma ParsesAmount(a: Amount, n: nat, maxDecimals: nat, v: nat)
    requires a.WellFormed()
    ensures TokensToBaseUnits(a.Text(), n, maxDecimals) == Ok(v) <==> n <= maxDecimals && Denotes(a, n, v)
  {
    hide SplitAtDots, ParseNumber, Combined, ValueOf, Shifted;
    TextSplits(a);
    ParseSigned(a.plus, a.whole);
    if a.point {
      ParseSigned(false, a.fraction);
      assert "" + a.fraction == a.fraction;
    } else {
      EmptyValue();
    }
    if ValueOf(a.whole) < U64_LIMIT && ValueOf(a.fraction) < U64_LIMIT {
      CombinedExact(a, n, v);
    }
  }

  lemma EmptyValue()
    ensures ValueOf("") == 0
  {
  }

  lemma CombinedParses(whole: string, f: string, n: nat)
    requires Combined(whole, f, n).Ok?
    ensures |TrimZeros(f)| <= n && ParseNumber(whole + (TrimZeros(f) + Zeros(n - |TrimZeros(f)|))).Some?
  {
    hide TrimZeros, Zeros, ParseNumber;
  }

  /** After an optional sign only digits parse. */
  lemma DigitsAfterSign(plus: bool, rest: string)
    requires rest != "" && IsDigit(rest[0]) && ParseNumber((if plus then "+" else "") + rest).Some?
    ensures AllDigits(rest)
  {
    hide ValueOf;
    var s := (if plus then "+" else "") + rest;
    if plus {
      assert s[0] == '+' && s[1..] == rest;
    } else {
      assert s == rest;
    }
  }

  lemma DigitsInside(a: string, b: string, c: string)
    requires AllDigits(a + (b + c))
    ensures AllDigits(b)
  {
    forall i | 0 <= i < |b|
      ensures IsDigit(b[i])
    {
      assert b[i] == (a + (b + c))[|a| + i];
    }
  }

  /** The padded fraction of an accepted string is made of digits, so the fraction was: a sign there never survives. */
  lemma FractionIsDigits(plus: bool, whole: string, f: string, n: nat)
    requires whole != "" && AllDigits(whole)
    requires Combined((if plus then "+" else "") + whole, f, n).Ok?
    ensures AllDigits(f)
  {
    hide TrimZeros, Zeros, ValueOf, ParseNumber, Combined, AllDigits;
    var sign, t := if plus then "+" else "", TrimZeros(f);
    CombinedParses(sign + whole, f, n);
    var padded := t + Zeros(n - |t|);
    assert sign + whole + padded == sign + (whole + padded);
    assert IsDigit((whole + padded)[0]) by { FirstDigit(whole); }
    DigitsAfterSign(plus, whole + padded);
    DigitsInside(whole, t, Zeros(n - |t|));
    TrimmedAndZeros(f);
    DigitsTogether(t, Zeros(|f| - |t|));
  }

  lemma FirstDigit(s: string)
    requires s != "" && AllDigits(s)
    ensures IsDigit(s[0])
  {
  }

  /** Whatever the parser accepts is a well-formed amount. */
  lemma AcceptedIsAmount(s: string, n: nat, maxDecimals: nat) returns (a: Amount)
    requires TokensToBaseUnits(s, n, maxDecimals).Ok?
    ensures a.WellFormed() && a.Text() == s
  {
    hide SplitAtDots, ParseNumber, Combined, ValueOf;
    var parts := SplitAtDots(s);
    if |parts| == 1 {
      SplitSingle(s);
    } else {
      SplitPair(s);
    }
    assert ParseNumber(parts[0]).Some?;
    var plus, whole := ParsedIsSigned(parts[0]);
    if |parts| == 1 {
      a := Amount(plus, whole, false, "");
    } else {
      assert ParseNumber(parts[1]).Some?;
      FractionIsDigits(plus, whole, parts[1], n);
      var _, fraction := ParsedIsSigned(parts[1]);
      a := Amount(plus, whole, true, parts[1]);
    }
  }

  /**
   * Exactness on every string: the parser returns v just when the string is a well-formed amount
   * whose parts fit, and v is that amount times 10^n.
   */
  lemma ParserExact(s: string, n: nat, maxDecimals: nat, v: nat)
    ensures TokensToBaseUnits(s, n, maxDecimals) == Ok(v)
            <==> n <= maxDecimals && exists a: Amount :: a.WellFormed() && a.Text() == s && Denotes(a, n, v)
  {
    hide TokensToBaseUnits, Denotes;
    if TokensToBaseUnits(s, n, maxDecimals) == Ok(v) {
      var a := AcceptedIsAmount(s, n, maxDecimals);
      ParsesAmount(a, n, maxDecimals, v);
    }
    if n <= maxDecimals && exists a: Amount :: a.WellFormed() && a.Text() == s && Denotes(a, n, v) {
      var a: Amount :| a.WellFormed() && a.Text() == s && Denotes(a, n, v);
      ParsesAmount(a, n, maxDecimals, v);
    }
  }

  /** How many decimal points a string holds. */
  function Dots(s: string): nat {
    if s == "" then 0 else Dots(s[..|s| - 1]) + if s[|s| - 1] == '.' then 1 else 0
  }

  lemma {:induction false} DotsAppend(a: string, b: string)
    ensures Dots(a + b) == Dots(a) + Dots(b)
  {
    if b == "" {
      assert a + b == a;
    } else {
      DotsAppend(a, b[..|b| - 1]);
      assert (a + b)[..|a + b| - 1] == a + b[..|b| - 1];
    }
  }

  lemma {:induction false} NoDotsCount(s: string)
    requires NoDots(s)
    ensures Dots(s) == 0
  {
    if s != "" {
      NoDotsCount(s[..|s| - 1]);
    }
  }

  lemma {:induction false} SplitCounts(s: string)
    ensures |SplitAtDots(s)| == Dots(s) + 1
    decreases |s|
  {
    var i := IndexOf(s, '.');
    PrefixNoDots(s);
    NoDotsCount(s[..i]);
    if i == |s| {
      assert s[..i] == s;
    } else {
      var rest := s[i + 1..];
      SplitCounts(rest);
      assert s == s[..i] + "." + rest;
      DotsAppend(s[..i] + ".", rest);
      DotsAppend(s[..i], ".");
      OneDot();
    }
  }

  lemma OneDot()
    ensures Dots(".") == 1
  {
    assert "."[..0] == "";
  }

  /** The error for points is given exactly to the strings with two of them or more. */
  lemma PointsErrorIff(s: string, n: nat, maxDecimals: nat)
    ensures TokensToBaseUnits(s, n, maxDecimals) == Err(MultipleDecimalPoints) <==> n <= maxDecimals && Dots(s) >= 2
  {
    hide SplitAtDots, Combined, ParseNumber, Dots;
    SplitCounts(s);
    CombinedErrors(SplitAtDots(s)[0], if |SplitAtDots(s)| > 1 then SplitAtDots(s)[1] else "", n);
  }

  lemma CombinedErrors(whole: string, f: string, n: nat)
    ensures Combined(whole, f, n) != Err(MultipleDecimalPoints)
  {
    hide TrimZeros, Zeros, ParseNumber;
  }

  function WithSign(plus: bool, digits: string): string { (if plus then "+" else "") + digits }

  /** A part of an amount that is a number of its own: an optional sign, digits, and a value that fits. */
  ghost predicate IsNumber(s: string) {
    exists plus: bool, digits: string ::
      && digits != "" && AllDigits(digits) && ValueOf(digits) < U64_LIMIT
      && s == WithSign(plus, digits)
  }

  lemma ParsesIffNumber(s: string)
    ensures ParseNumber(s).Some? <==> IsNumber(s)
  {
    hide ParseNumber, ValueOf;
    if ParseNumber(s).Some? {
      var plus, digits := ParsedIsSigned(s);
      assert s == WithSign(plus, digits);
    }
    if IsNumber(s) {
      var plus: bool, digits: string :|
        && digits != "" && AllDigits(digits) && ValueOf(digits) < U64_LIMIT
        && s == WithSign(plus, digits);
      ParseSigned(plus, digits);
    }
  }

  /** The string is two numbers around one point, and something other than a zero follows the n-th decimal. */
  ghost predicate TooLong(s: string, n: nat) {
    exists whole: string, fraction: string ::
      && NoDots(whole) && NoDots(fraction) && s == whole + "." + fraction
      && IsNumber(whole) && IsNumber(fraction)
      && exists i :: n <= i < |fraction| && fraction[i] != '0'
  }

  /** The error for decimals, on every string. */
  lemma DecimalsErrorIff(s: string, n: nat, maxDecimals: nat)
    ensures TokensToBaseUnits(s, n, maxDecimals) == Err(TooManyDecimals(n)) <==> n <= maxDecimals && TooLong(s, n)
  {
    hide SplitAtDots, ParseNumber, Combined, NoDots, IsNumber;
    var parts := SplitAtDots(s);
    if TokensToBaseUnits(s, n, maxDecimals) == Err(TooManyDecimals(n)) {
      TooLongSplits(s, n);
    }
    if TooLong(s, n) {
      var whole: string, fraction: string :|
        && NoDots(whole) && NoDots(fraction) && s == whole + "." + fraction
        && IsNumber(whole) && IsNumber(fraction)
        && exists i :: n <= i < |fraction| && fraction[i] != '0';
      SplitDotted(whole, fraction);
      ParsesIffNumber(whole);
      ParsesIffNumber(fraction);
      CombinedTooLong(whole, fraction, n);
    }
  }

  lemma TooLongSplits(s: string, n: nat)
    requires var parts := SplitAtDots(s);
             && |parts| <= 2 && (forall i :: 0 <= i < |parts| ==> ParseNumber(parts[i]).Some?)
             && Combined(parts[0], if |parts| > 1 then parts[1] else "", n) == Err(TooManyDecimals(n))
    ensures TooLong(s, n)
  {
    hide SplitAtDots, ParseNumber, Combined, NoDots, IsNumber;
    var parts := SplitAtDots(s);
    CombinedTooLong(parts[0], if |parts| > 1 then parts[1] else "", n);
    assert |parts| == 2;
    SplitPair(s);
    ParsesIffNumber(parts[0]);
    ParsesIffNumber(parts[1]);
  }

  lemma CombinedTooLong(whole: string, f: string, n: nat)
    ensures Combined(whole, f, n) == Err(TooManyDecimals(n)) <==> exists i :: n <= i < |f| && f[i] != '0'
  {
    hide TrimZeros, Zeros, ParseNumber;
    TrimFits(f, n);
  }

  /** The printed form, read as an amount. */
  function Printed(units: nat, decimals: nat): Amount {
    var text := Numeral(units);
    if decimals == 0 then Amount(false, text, false, "")
    else if decimals >= |text| then Amount(false, "0", true, Zeros(decimals - |text|) + text)
    else Amount(false, text[..|text| - decimals], true, text[|text| - decimals..])
  }

  lemma PartsBelowWhole(x: nat, p: nat, y: nat)
    requires p > 0
    ensures x <= x * p + y && y <= x * p + y
  {
    assert x * (p - 1) >= 0;
  }

  lemma PrintedMeans(units: nat, decimals: nat)
    ensures var a := Printed(units, decimals);
            && a.WellFormed() && a.Text() == BaseUnitsToTokens(units, decimals)
            && |a.fraction| == decimals && a.Scaled() == units
            && ValueOf(a.whole) <= units && ValueOf(a.fraction) <= units
  {
    hide Zeros, Numeral, ValueOf, Pow10;
    var text := Numeral(units);
    var a := Printed(units, decimals);
    EmptyValue();
    if decimals == 0 {
      assert text + "" == text;
    } else if decimals >= |text| {
      var z := Zeros(decimals - |text|);
      ValueAppend(z, text);
      ZerosValue(decimals - |text|);
      ZeroDigit();
      ValueAppend("0", z + text);
      assert a.Text() == "0." + z + text;
    } else {
      assert a.whole + a.fraction == text;
      ValueAppend(a.whole, a.fraction);
      PartsBelowWhole(ValueOf(a.whole), Pow10(decimals), ValueOf(a.fraction));
    }
  }

  lemma {:induction false} NoLeadingZero(u: nat)
    requires u > 0
    ensures Numeral(u)[0] != '0'
  {
    if u >= 10 {
      NoLeadingZero(u / 10);
      assert Numeral(u)[0] == Numeral(u / 10)[0];
    } else {
      assert DigitValue(Numeral(u)[0]) == u;
    }
  }

  /**
   * The printed form is the plain one: no sign, no superfluous leading zero, and a point exactly if there are decimals.
   * With the decimals and the value, that leaves no choice.
   */
  lemma PrintedIsPlain(units: nat, decimals: nat)
    ensures var a := Printed(units, decimals);
            && !a.plus && (a.point <==> decimals > 0)
            && (|a.whole| > 1 ==> a.whole[0] != '0')
  {
    hide Zeros, Numeral, ValueOf, Pow10;
    var text := Numeral(units);
    if |text| > 1 {
      LongIsPositive(units);
      NoLeadingZero(units);
    }
  }

  lemma LongIsPositive(units: nat)
    requires |Numeral(units)| > 1
    ensures units > 0
  {
  }

  /** An error for too many decimals names the number allowed; the one for the limit is given exactly above it. */
  lemma LimitErrorIff(s: string, n: nat, maxDecimals: nat)
    ensures TokensToBaseUnits(s, n, maxDecimals) == Err(MaxDecimals(n)) <==> n > maxDecimals
    ensures var r := TokensToBaseUnits(s, n, maxDecimals);
            r.Err? && (r.error.MaxDecimals? || r.error.TooManyDecimals?) ==> r.error.n == n
  {
    hide SplitAtDots, ParseNumber, TrimZeros, Zeros;
  }

  lemma ZeroDigit()
    ensures AllDigits("0") && ValueOf("0") == 0
  {
    assert "0"[..0] == "";
  }

  /** Parsing a printed amount gives it back, for every 64-bit amount and every accepted number of decimals. */
  lemma TokensRoundTrip(units: nat, decimals: nat, maxDecimals: nat)
    requires units < U64_LIMIT && decimals <= maxDecimals
    ensures TokensToBaseUnits(BaseUnitsToTokens(units, decimals), decimals, maxDecimals) == Ok(units)
  {
    hide TokensToBaseUnits, BaseUnitsToTokens, Printed, ValueOf, Shifted;
    PrintedMeans(units, decimals);
    ParsesAmount(Printed(units, decimals), decimals, maxDecimals, units);
  }
}
