/**
 USD amounts as texts: the strict parser of the authority fixture, the looser one of the qualification
 tool, and the decimal text usdNumber builds before it is turned into a double.
 */
module Decimal {
  import opened Wrappers

  const MICROS := 1_000_000

  predicate IsDigit(c: char) { '0' <= c <= '9' }

  predicate AllDigits(s: string) {
    forall i :: 0 <= i < |s| ==> IsDigit(s[i])
  }

  function DigitOf(n: int): (c: char)
    requires 0 <= n < 10
    ensures IsDigit(c)
  {
    '0' + (n as char)
  }

  function DigitValue(c: char): (n: nat)
    requires IsDigit(c)
    ensures n < 10
  {
    c as int - '0' as int
  }

  // BigInt.toString of a non-negative number.
  function NatText(n: nat): (s: string)
    ensures s != "" && AllDigits(s)
  {
    if n < 10 then [DigitOf(n)] else NatText(n / 10) + [DigitOf(n % 10)]
  }

  function IntText(m: int): string {
    if m < 0 then "-" + NatText(-m) else NatText(m)
  }

  function DigitsValue(s: string): nat
    requires AllDigits(s)
  {
    if s == "" then 0 else DigitsValue(s[..|s| - 1]) * 10 + DigitValue(s[|s| - 1])
  }

  function Zeros(n: nat): (s: string)
    ensures |s| == n && AllDigits(s)
  {
    if n == 0 then "" else Zeros(n - 1) + "0"
  }

  function PadEnd(s: string): string {
    if |s| < 6 then s + Zeros(6 - |s|) else s
  }

  function PadStart(s: string): string {
    if |s| < 6 then Zeros(6 - |s|) + s else s
  }

  function DotIndex(s: string): (k: nat)
    ensures k <= |s|
    ensures '.' !in s[..k] && (k < |s| ==> s[k] == '.')
  {
    if s == "" || s[0] == '.' then 0 else 1 + DotIndex(s[1..])
  }

  predicate IsFraction(s: string) { 1 <= |s| <= 6 && AllDigits(s) }

  predicate NoLeadingZero(s: string) { |s| == 1 || (s != "" && s[0] != '0') }

  function Amount(whole: string, fraction: string): nat
    requires AllDigits(whole) && AllDigits(fraction)
  {
    Total(DigitsValue(whole), DigitsValue(PadEnd(fraction)))
  }

  function Total(dollars: nat, rest: nat): nat { dollars * MICROS + rest }

  function Signed(negative: bool, n: nat): int { if negative then 0 - n else n }

  datatype Parts = Parts(negative: bool, whole: string, fraction: string) {
    predicate Valid() { ValidBody(whole, fraction) }

    function Magnitude(): nat
      requires Valid()
    {
      Amount(whole, fraction)
    }

    function Micros(): int
      requires Valid()
    {
      Signed(negative, Magnitude())
    }

    function Text(): string {
      (if negative then "-" else "") + (whole + Tail(fraction))
    }
  }

  function Tail(fraction: string): string {
    if fraction == "" then "" else "." + fraction
  }

  predicate ValidBody(whole: string, fraction: string) {
    whole != "" && AllDigits(whole) && (fraction == "" || IsFraction(fraction))
  }

  function MatchBody(body: string): (r: Option<(string, string)>)
    ensures r.Some? ==> ValidBody(r.value.0, r.value.1)
  {
    var k := DotIndex(body);
    if !ValidBody(body[..k], "") then None
    else if k == |body| then Some((body, ""))
    else if IsFraction(body[k + 1..]) then Some((body[..k], body[k + 1..]))
    else None
  }

  // ^(-?)([0-9]+)(?:\.([0-9]{1,6}))?$
  function Match(text: string): (r: Option<Parts>)
    ensures r.Some? ==> r.value.Valid()
  {
    var negative := text != "" && text[0] == '-';
    match MatchBody(if negative then text[1..] else text)
    case Some(m) => Some(Parts(negative, m.0, m.1))
    case None => None
  }

  // usdMicrosFromDecimal of the authority; the result is what BigInt.toString prints.
  function ParseStrict(text: string): Option<int> {
    match Match(text)
    case Some(p) => if NoLeadingZero(p.whole) then Some(p.Micros()) else None
    case None => None
  }

  predicate IsTrimmed(c: char) {
    var u := c as int;
    9 <= u <= 13 || u == 0x20 || u == 0xA0 || u == 0x1680 || 0x2000 <= u <= 0x200A || u == 0x2028 || u == 0x2029
    || u == 0x202F || u == 0x205F || u == 0x3000 || u == 0xFEFF
  }

  function TrimStart(s: string): string {
    if s != "" && IsTrimmed(s[0]) then TrimStart(s[1..]) else s
  }

  function TrimEnd(s: string): string {
    if s != "" && IsTrimmed(s[|s| - 1]) then TrimEnd(s[..|s| - 1]) else s
  }

  // text.trim()
  function Trim(s: string): string { TrimEnd(TrimStart(s)) }

  predicate AllTrimmed(s: string) { forall i :: 0 <= i < |s| ==> IsTrimmed(s[i]) }

  lemma {:induction false} TrimStartOf(s: string) returns (before: string)
    ensures AllTrimmed(before) && s == before + TrimStart(s)
    ensures TrimStart(s) == "" || !IsTrimmed(TrimStart(s)[0])
  {
    before := "";
    if s != "" && IsTrimmed(s[0]) {
      var more := TrimStartOf(s[1..]);
      before := [s[0]] + more;
      assert s == [s[0]] + s[1..];
    }
  }

  lemma {:induction false} TrimEndOf(s: string) returns (after: string)
    ensures AllTrimmed(after) && s == TrimEnd(s) + after
    ensures TrimEnd(s) == "" || !IsTrimmed(TrimEnd(s)[|TrimEnd(s)| - 1])
  {
    after := "";
    if s != "" && IsTrimmed(s[|s| - 1]) {
      var more := TrimEndOf(s[..|s| - 1]);
      after := more + [s[|s| - 1]];
      assert s == s[..|s| - 1] + [s[|s| - 1]];
    }
  }

  ghost predicate TrimsTo(s: string, core: string) {
    && (core == "" || (!IsTrimmed(core[0]) && !IsTrimmed(core[|core| - 1])))
    && exists before: string, after: string :: AllTrimmed(before) && AllTrimmed(after) && s == before + core + after
  }

  /** Trimming takes white space off both ends and nothing else; a text is blank exactly when it is all white space. */
  lemma {:induction false} TrimIff(s: string)
    ensures TrimsTo(s, Trim(s))
    ensures Trim(s) == "" <==> AllTrimmed(s)
  {
    var before := TrimStartOf(s);
    var after := TrimEndOf(TrimStart(s));
    assert s == before + Trim(s) + after;
    if Trim(s) != "" {
      assert TrimStart(s)[0] == Trim(s)[0];
      assert s[|before|] == Trim(s)[0];
    }
  }

  // usdMicrosFromDecimal of the qualification tool: leading zeros pass, and the sign is kept as text.
  function ParseLoose(text: string): Option<string> {
    match Match(Trim(text))
    case Some(p) => Some((if p.negative then "-" else "") + NatText(p.Magnitude()))
    case None => None
  }

  // The decimal text usdNumber passes to Number.
  function UsdText(micros: int): string {
    var magnitude := if micros < 0 then -micros else micros;
    (if micros < 0 then "-" else "") + NatText(magnitude / MICROS) + "." + PadStart(NatText(magnitude % MICROS))
  }

  /******* Matching *******/

  lemma {:induction false} DotIndexOf(a: string, b: string)
    requires '.' !in a && (b == "" || b[0] == '.')
    ensures DotIndex(a + b) == |a|
  {
    if a == "" {
      assert a + b == b;
    } else {
      assert (a + b)[1..] == a[1..] + b;
      DotIndexOf(a[1..], b);
    }
  }

  lemma {:induction false} MatchBodyOf(whole: string, fraction: string)
    requires ValidBody(whole, fraction)
    ensures MatchBody(whole + Tail(fraction)) == Some((whole, fraction))
  {
    var body := whole + Tail(fraction);
    DotIndexOf(whole, Tail(fraction));
    assert body[..|whole|] == whole;
    if fraction == "" {
      assert body == whole;
    } else {
      assert body[|whole| + 1..] == fraction;
    }
  }

  lemma {:induction false} MatchBodyText(body: string)
    requires MatchBody(body).Some?
    ensures body == MatchBody(body).value.0 + Tail(MatchBody(body).value.1)
  {
    var k := DotIndex(body);
    if k < |body| {
      SplitAtDot(body, k);
      assert MatchBody(body).value == (body[..k], body[k + 1..]);
    } else {
      assert MatchBody(body).value == (body, "");
      assert body + "" == body;
    }
  }

  lemma {:induction false} SplitAtDot(body: string, k: nat)
    requires k < |body| && body[k] == '.'
    ensures body == body[..k] + ("." + body[k + 1..])
  {
  }

  lemma {:induction false} MatchText(text: string)
    requires Match(text).Some?
    ensures text == Match(text).value.Text()
  {
    var negative := text != "" && text[0] == '-';
    var body := if negative then text[1..] else text;
    MatchBodyText(body);
    assert text == (if negative then "-" else "") + body;
  }

  lemma {:induction false} MatchOf(p: Parts)
    requires p.Valid()
    ensures Match(p.Text()) == Some(p)
  {
    var body := p.whole + Tail(p.fraction);
    assert body[0] == p.whole[0] && IsDigit(p.whole[0]);
    MatchBodyOf(p.whole, p.fraction);
    if p.negative {
      assert p.Text()[1..] == body;
    } else {
      assert p.Text() == body;
    }
  }

  /** The pattern matches exactly the texts sign, digits, and possibly a point with one to six digits. */
  lemma {:induction false} MatchIff(text: string, p: Parts)
    ensures Match(text) == Some(p) <==> p.Valid() && text == p.Text()
  {
    if Match(text) == Some(p) {
      MatchText(text);
    }
    if p.Valid() {
      MatchOf(p);
    }
  }

  /******* Digits *******/

  lemma {:induction false} NatTextValue(n: nat)
    ensures DigitsValue(NatText(n)) == n
  {
    if n >= 10 {
      NatTextValue(n / 10);
      var s := NatText(n / 10) + [DigitOf(n % 10)];
      assert s[..|s| - 1] == NatText(n / 10);
    }
  }

  lemma {:induction false} NatTextLeading(n: nat)
    ensures NoLeadingZero(NatText(n))
    ensures NatText(n)[0] == '0' ==> n == 0
  {
    if n >= 10 { NatTextLeading(n / 10); }
  }

  lemma {:induction false} NatTextInjective(a: nat, b: nat)
    requires NatText(a) == NatText(b)
    ensures a == b
  {
    NatTextValue(a);
    NatTextValue(b);
  }

  lemma {:induction false} MinusIff(m: int)
    ensures IntText(m) != "" && (IntText(m)[0] == '-' <==> m < 0)
  {
    if m >= 0 { assert IsDigit(NatText(m)[0]); }
  }

  lemma {:induction false} IntTextInjective(a: int, b: int)
    requires IntText(a) == IntText(b)
    ensures a == b
  {
    MinusIff(a);
    MinusIff(b);
    if a < 0 {
      assert NatText(-a) == IntText(a)[1..] == IntText(b)[1..] == NatText(-b);
      NatTextInjective(-a, -b);
    } else {
      NatTextInjective(a, b);
    }
  }

  function Pow10(k: nat): nat { if k == 0 then 1 else 10 * Pow10(k - 1) }

  lemma {:induction false} NatTextLength(n: nat, k: nat)
    requires k > 0 && n < Pow10(k)
    ensures |NatText(n)| <= k
  {
    if n >= 10 {
      assert k > 1 by { assert Pow10(1) == 10; }
      NatTextLength(n / 10, k - 1);
    }
  }

  lemma {:induction false} ZerosValue(k: nat, s: string)
    requires AllDigits(s)
    ensures DigitsValue(Zeros(k) + s) == DigitsValue(s)
  {
    if s == "" {
      assert Zeros(k) + s == Zeros(k);
      ZerosAreZero(k);
      ZeroIff(Zeros(k));
    } else {
      var t := Zeros(k) + s;
      assert t[..|t| - 1] == Zeros(k) + s[..|s| - 1];
      ZerosValue(k, s[..|s| - 1]);
    }
  }

  lemma {:induction false} PadStartDigits(t: string)
    requires t != "" && AllDigits(t) && |t| <= 6
    ensures IsFraction(PadStart(t)) && PadEnd(PadStart(t)) == PadStart(t) && DigitsValue(PadStart(t)) == DigitsValue(t)
  {
    ZerosValue(6 - |t|, t);
    assert |t| == 6 ==> PadStart(t) == t;
  }

  // The six digits after the point stand for the remainder.
  lemma {:induction false} FractionOf(r: nat)
    requires r < MICROS
    ensures var f := PadStart(NatText(r)); IsFraction(f) && PadEnd(f) == f && DigitsValue(f) == r
  {
    assert Pow10(6) == MICROS by {
      assert Pow10(3) == 1000;
    }
    NatTextLength(r, 6);
    NatTextValue(r);
    PadStartDigits(NatText(r));
  }

  lemma {:induction false} DecimalTextRoundTrip(negative: bool, whole: nat, rest: nat)
    requires rest < MICROS
    ensures ParseStrict(Parts(negative, NatText(whole), PadStart(NatText(rest))).Text())
         == Some(Signed(negative, Total(whole, rest)))
  {
    var w, f := NatText(whole), PadStart(NatText(rest));
    assert NoLeadingZero(w) by { NatTextLeading(whole); }
    assert DigitsValue(w) == whole by { NatTextValue(whole); }
    assert IsFraction(f) && PadEnd(f) == f && DigitsValue(f) == rest by { FractionOf(rest); }
    StrictOf(negative, w, f);
  }

  lemma {:induction false} StrictOf(negative: bool, w: string, f: string)
    requires w != "" && AllDigits(w) && NoLeadingZero(w) && IsFraction(f) && PadEnd(f) == f
    ensures ParseStrict(Parts(negative, w, f).Text())
         == Some(Signed(negative, Total(DigitsValue(w), DigitsValue(f))))
  {
    MatchOf(Parts(negative, w, f));
  }

  lemma {:induction false} UsdTextParts(m: int)
    ensures var magnitude := if m < 0 then -m else m;
      UsdText(m) == Parts(m < 0, NatText(magnitude / MICROS), PadStart(NatText(magnitude % MICROS))).Text()
  {
    var magnitude := if m < 0 then -m else m;
    var w, f := NatText(magnitude / MICROS), PadStart(NatText(magnitude % MICROS));
    assert f != "" by { FractionOf(magnitude % MICROS); }
    assert (if m < 0 then "-" else "") + w + "." + f == (if m < 0 then "-" else "") + (w + ("." + f));
  }

  lemma {:induction false} Quotient(n: nat)
    ensures n == n / MICROS * MICROS + n % MICROS
  {
  }

  /** Parsing the decimal text of any integer number of micros gives it back. */
  lemma {:induction false} UsdTextRoundTrip(m: int)
    ensures ParseStrict(UsdText(m)) == Some(m)
  {
    var magnitude := if m < 0 then -m else m;
    var whole, rest := magnitude / MICROS, magnitude % MICROS;
    assert magnitude == Total(whole, rest) by { Quotient(magnitude); }
    var text := Parts(m < 0, NatText(whole), PadStart(NatText(rest))).Text();
    assert UsdText(m) == text by { UsdTextParts(m); }
    assert ParseStrict(text) == Some(m) by { DecimalTextRoundTrip(m < 0, whole, rest); }
  }

  /******* What a decimal text means *******/

  lemma {:induction false} JoinedValue(w: string, f: string)
    requires AllDigits(w) && AllDigits(f)
    ensures DigitsValue(w + f) == DigitsValue(w) * Pow10(|f|) + DigitsValue(f)
  {
    if f == "" {
      assert w + f == w;
    } else {
      var init, last := f[..|f| - 1], f[|f| - 1];
      JoinedValue(w, init);
      assert (w + f)[..|w + f| - 1] == w + init && (w + f)[|w + f| - 1] == last;
      OneDigitMore(DigitsValue(w), DigitsValue(init), DigitsValue(w + init), Pow10(|init|), DigitValue(last));
    }
  }

  lemma {:induction false} OneDigitMore(a: nat, b: nat, c: nat, p: nat, d: nat)
    requires c == a * p + b
    ensures c * 10 + d == a * (10 * p) + (b * 10 + d)
  {
    assert a * (10 * p) == a * p * 10;
  }

  lemma {:induction false} ZerosHaveNoValue(n: nat)
    ensures DigitsValue(Zeros(n)) == 0
  {
    if n > 0 {
      ZerosHaveNoValue(n - 1);
      assert (Zeros(n - 1) + "0")[..n - 1] == Zeros(n - 1);
    }
  }

  lemma {:induction false} PaddedValue(f: string)
    requires AllDigits(f) && |f| <= 6
    ensures DigitsValue(PadEnd(f)) == DigitsValue(f) * Pow10(6 - |f|)
  {
    JoinedValue(f, Zeros(6 - |f|));
    ZerosHaveNoValue(6 - |f|);
    if |f| == 6 { assert f + "" == f; }
  }

  // m millionths are what the digits say: m * 10^k = (all digits) * 10^6, with k digits after the point.
  predicate Means(p: Parts, m: int)
    requires p.Valid()
  {
    m * Pow10(|p.fraction|) == Signed(p.negative, DigitsValue(p.whole + p.fraction)) * 1_000_000
  }

  lemma {:induction false} Powers()
    ensures Pow10(0) == 1 && Pow10(1) == 10 && Pow10(2) == 100 && Pow10(3) == 1_000 && Pow10(4) == 10_000
    ensures Pow10(5) == 100_000 && Pow10(6) == 1_000_000
  {
  }

  lemma {:induction false} MicrosMean(p: Parts, m: int)
    requires p.Valid()
    ensures Means(p, m) <==> m == p.Micros()
  {
    Powers();
    JoinedValue(p.whole, p.fraction);
    PaddedValue(p.fraction);
    ScaleIff(DigitsValue(p.whole), DigitsValue(p.fraction), |p.fraction|, p.negative, m);
  }

  lemma {:induction false} ScaleIff(w: nat, f: nat, k: nat, negative: bool, m: int)
    requires k <= 6
    ensures m * Pow10(k) == Signed(negative, w * Pow10(k) + f) * 1_000_000 <==>
      m == Signed(negative, w * 1_000_000 + f * Pow10(6 - k))
  {
    Powers();
    match k
    case 0 =>
    case 1 =>
    case 2 =>
    case 3 =>
    case 4 =>
    case 5 =>
    case 6 =>
  }

  const DIGITS := "0123456789"

  // The text is an optional sign, digits, and possibly a point and one to six digits.
  predicate Reads(text: string, p: Parts) {
    && p.whole != "" && (forall i :: 0 <= i < |p.whole| ==> p.whole[i] in DIGITS)
    && |p.fraction| <= 6 && (forall i :: 0 <= i < |p.fraction| ==> p.fraction[i] in DIGITS)
    && text == (if p.negative then "-" else "") + p.whole + (if p.fraction == "" then "" else "." + p.fraction)
  }

  lemma {:induction false} DigitIff(c: char)
    ensures IsDigit(c) <==> c in DIGITS
  {
    if IsDigit(c) { assert DIGITS[c as int - '0' as int] == c; }
  }

  lemma {:induction false} ReadsIff(text: string, p: Parts)
    ensures Reads(text, p) <==> p.Valid() && text == p.Text()
  {
    forall c: char ensures IsDigit(c) <==> c in DIGITS { DigitIff(c); }
    var sign, tail := if p.negative then "-" else "", Tail(p.fraction);
    assert sign + p.whole + tail == sign + (p.whole + tail);
  }

  predicate LooselyMeans(text: string, p: Parts, n: nat, s: string) {
    && Reads(Trim(text), p) && p.Valid() && Means(p.(negative := false), n)
    && s == (if p.negative then "-" else "") + NatText(n)
  }

  /** Loose parsing takes white space and leading zeros, and prints exactly the millionths that the digits say. */
  lemma {:induction false} LooseMeansIff(text: string, s: string)
    ensures ParseLoose(text) == Some(s) <==> exists p: Parts, n: nat :: LooselyMeans(text, p, n, s)
  {
    if ParseLoose(text) == Some(s) {
      var p := Match(Trim(text)).value;
      MatchIff(Trim(text), p);
      ReadsIff(Trim(text), p);
      MicrosMean(p.(negative := false), p.Magnitude());
      assert LooselyMeans(text, p, p.Magnitude(), s);
    }
    if p: Parts, n: nat :| LooselyMeans(text, p, n, s) {
      MatchIff(Trim(text), p);
      ReadsIff(Trim(text), p);
      MicrosMean(p.(negative := false), n);
    }
  }

  predicate StrictlyMeans(text: string, p: Parts, m: int) {
    Reads(text, p) && (p.whole[0] == '0' ==> p.whole == "0") && p.Valid() && Means(p, m)
  }

  /**
   Strict parsing succeeds exactly on decimals without leading zeros, and with exactly the number of millionths that the
   digits say, however many of them stand after the point.
   */
  lemma {:induction false} StrictMeansIff(text: string, m: int)
    ensures ParseStrict(text) == Some(m) <==> exists p: Parts :: StrictlyMeans(text, p, m)
  {
    if ParseStrict(text) == Some(m) {
      var p := Match(text).value;
      MatchIff(text, p);
      ReadsIff(text, p);
      MicrosMean(p, m);
      assert p.whole[0] == '0' ==> p.whole == "0";
      assert StrictlyMeans(text, p, m);
    }
    if p: Parts :| StrictlyMeans(text, p, m) {
      MatchIff(text, p);
      ReadsIff(text, p);
      MicrosMean(p, m);
    }
  }

  lemma {:induction false} NothingToTrim(s: string)
    requires s != "" && !IsTrimmed(s[0]) && !IsTrimmed(s[|s| - 1])
    ensures TrimEnd(TrimStart(s)) == s
  {
  }

  lemma {:induction false} EndsOfText(p: Parts)
    requires p.Valid()
    ensures var t := p.Text(); t != "" && !IsTrimmed(t[0]) && !IsTrimmed(t[|t| - 1])
  {
    var t := p.Text();
    var last := if p.fraction == "" then p.whole else p.fraction;
    assert IsDigit(p.whole[0]) && IsDigit(last[|last| - 1]);
    assert t[0] == if p.negative then '-' else p.whole[0];
    assert t[|t| - 1] == last[|last| - 1];
  }

  lemma {:induction false} StrictIsTrimmed(text: string)
    requires Match(text).Some?
    ensures TrimEnd(TrimStart(text)) == text
  {
    var p := Match(text).value;
    assert text == p.Text() by { MatchText(text); }
    TextIsTrimmed(p, text);
  }

  lemma {:induction false} TextIsTrimmed(p: Parts, text: string)
    requires p.Valid() && text == p.Text()
    ensures TrimEnd(TrimStart(text)) == text
  {
    EndsOfText(p);
    NothingToTrim(text);
  }

  predicate AllZero(s: string) { forall i :: 0 <= i < |s| ==> s[i] == '0' }

  // The text of zero with a sign: every digit it has is a zero.
  predicate NegativeZero(text: string) {
    text != "" && text[0] == '-' && forall i :: 0 <= i < |text| && IsDigit(text[i]) ==> text[i] == '0'
  }

  lemma {:induction false} ZeroIff(s: string)
    requires AllDigits(s)
    ensures DigitsValue(s) == 0 <==> AllZero(s)
  {
    if s != "" {
      ZeroIff(s[..|s| - 1]);
      assert DigitValue(s[|s| - 1]) == 0 <==> s[|s| - 1] == '0';
      assert s == s[..|s| - 1] + [s[|s| - 1]];
    }
  }

  lemma {:induction false} ZerosAreZero(n: nat)
    ensures AllZero(Zeros(n))
  {
    if n > 0 { ZerosAreZero(n - 1); }
  }

  lemma {:induction false} MagnitudeZeroIff(p: Parts)
    requires p.Valid()
    ensures p.Magnitude() == 0 <==> AllZero(p.whole) && AllZero(p.fraction)
  {
    ZeroIff(p.whole);
    ZeroIff(PadEnd(p.fraction));
    if |p.fraction| < 6 {
      ZerosAreZero(6 - |p.fraction|);
      assert p.fraction == PadEnd(p.fraction)[..|p.fraction|];
    }
  }

  lemma {:induction false} NegativeZeroIff(p: Parts)
    requires p.Valid()
    ensures NegativeZero(p.Text()) <==> p.negative && AllZero(p.whole) && AllZero(p.fraction)
  {
    var t, sign := p.Text(), if p.negative then 1 else 0;
    assert t[0] == '-' <==> p.negative by { assert IsDigit(p.whole[0]); }
    forall i | 0 <= i < |p.whole| ensures t[sign + i] == p.whole[i] && IsDigit(t[sign + i]) { }
    forall i | 0 <= i < |p.fraction|
      ensures t[sign + |p.whole| + 1 + i] == p.fraction[i] && IsDigit(t[sign + |p.whole| + 1 + i])
    {
    }
    if p.negative && AllZero(p.whole) && AllZero(p.fraction) {
      forall i | 0 <= i < |t| && IsDigit(t[i]) ensures t[i] == '0' {
        if i <= |p.whole| {
          assert t[i] == p.whole[i - 1];
        } else if i > |p.whole| + 1 {
          assert t[i] == p.fraction[i - |p.whole| - 2];
        }
      }
    }
  }

  /**
   On every text the strict parser accepts, both parsers print the same amount, except on exactly the signed
   zeros.
   */
  lemma {:induction false} LooseAgreesIff(text: string)
    requires ParseStrict(text).Some?
    ensures ParseLoose(text).Some?
    ensures ParseLoose(text).value == IntText(ParseStrict(text).value) <==> !NegativeZero(text)
  {
    StrictIsTrimmed(text);
    var p := Match(text).value;
    MatchText(text);
    NegativeZeroIff(p);
    MagnitudeZeroIff(p);
    SignedTexts(p.negative, p.Magnitude());
  }

  lemma {:induction false} SignedTexts(negative: bool, n: nat)
    ensures (if negative then "-" else "") + NatText(n) == IntText(Signed(negative, n)) <==> !(negative && n == 0)
  {
    if negative && n == 0 {
      assert |"-" + NatText(n)| == 1 + |NatText(n)|;
    }
    assert "" + NatText(n) == NatText(n);
  }

  /** So a non-zero amount written by the strict side reads the same on the loose side. */
  lemma {:induction false} LooseReadsUsdText(m: int)
    requires m != 0
    ensures ParseLoose(UsdText(m)) == Some(IntText(m))
  {
    UsdTextRoundTrip(m);
    var text := UsdText(m);
    LooseAgreesIff(text);
    MatchText(text);
    var p := Match(text).value;
    NegativeZeroIff(p);
    MagnitudeZeroIff(p);
  }

  /** An integer prints as digits only exactly when it is not negative. */
  lemma {:induction false} IntTextDigits(m: int)
    ensures AllDigits(IntText(m)) <==> m >= 0
  {
    if m < 0 {
      assert IntText(m)[0] == '-';
    }
  }
}
