/**
 The grammar of RFC 8259, as syntax trees, and the parser against it: a text parses to a value exactly when some tree
 spells the text and means the value.
 */
module JsonGrammar {
  import opened Wrappers
  import opened Json

  /******* Section 7: strings *******/

  // The letters after a backslash, and the units they stand for.
  const SHORT_LETTERS: Text := [0x22, 0x5C, 0x2F, 0x62, 0x66, 0x6E, 0x72, 0x74]
  const SHORT_UNITS: Text := [0x22, 0x5C, 0x2F, 0x08, 0x0C, 0x0A, 0x0D, 0x09]

  predicate IsHex(c: Unit) { 0x30 <= c <= 0x39 || 0x41 <= c <= 0x46 || 0x61 <= c <= 0x66 }

  function Nibble(c: Unit): (n: nat)
    requires IsHex(c)
    ensures n < 16
  {
    if c <= 0x39 then c - 0x30 else if c <= 0x46 then c - 0x41 + 10 else c - 0x61 + 10
  }

  // One unit of a string literal: itself, a backslash and a letter, or a backslash, u and four hexadecimal digits.
  datatype Piece = Plain(unit: Unit) | Short(i: nat) | Hex(a: Unit, b: Unit, c: Unit, d: Unit) {
    predicate Valid() {
      match this
      case Plain(unit) => unit >= 0x20 && unit != 0x22 && unit != 0x5C
      case Short(i) => i < 8
      case Hex(a, b, c, d) => IsHex(a) && IsHex(b) && IsHex(c) && IsHex(d)
    }

    function Spelling(): Text
      requires Valid()
    {
      match this
      case Plain(unit) => [unit]
      case Short(i) => [0x5C, SHORT_LETTERS[i]]
      case Hex(a, b, c, d) => [0x5C, 0x75, a, b, c, d]
    }

    function Reading(): Unit
      requires Valid()
    {
      match this
      case Plain(unit) => unit
      case Short(i) => SHORT_UNITS[i]
      case Hex(a, b, c, d) => 4096 * Nibble(a) + 256 * Nibble(b) + 16 * Nibble(c) + Nibble(d)
    }
  }

  predicate AllValid(ps: seq<Piece>) { forall i :: 0 <= i < |ps| ==> ps[i].Valid() }

  function Spelled(ps: seq<Piece>): Text
    requires AllValid(ps)
  {
    if ps == [] then [] else ps[0].Spelling() + Spelled(ps[1..])
  }

  function Read(ps: seq<Piece>): Text
    requires AllValid(ps)
  {
    if ps == [] then [] else [ps[0].Reading()] + Read(ps[1..])
  }

  lemma {:induction false} PieceStep(p: Piece, more: Text)
    requires p.Valid()
    ensures ParseChars(p.Spelling() + more) == PrependUnit(p.Reading(), ParseChars(more))
  {
    var s := p.Spelling() + more;
    match p
    case Plain(unit) => assert s[1..] == more;
    case Short(i) =>
      assert s[2..] == more;
      ShortRead(i);
    case Hex(a, b, c, d) =>
      assert s[6..] == more && s[2] == a && s[3] == b && s[4] == c && s[5] == d;
      assert HexValue(a) == Some(Nibble(a)) && HexValue(b) == Some(Nibble(b));
      assert HexValue(c) == Some(Nibble(c)) && HexValue(d) == Some(Nibble(d));
  }

  lemma {:induction false} ShortRead(i: nat)
    requires i < 8
    ensures Unescape(SHORT_LETTERS[i]) == Some(SHORT_UNITS[i]) && SHORT_LETTERS[i] != 0x75
  {
  }

  lemma {:induction false} CharsComplete(ps: seq<Piece>, rest: Text)
    requires AllValid(ps)
    ensures ParseChars(Spelled(ps) + ([QUOTE] + rest)) == Some((Read(ps), rest))
  {
    var s := Spelled(ps) + ([QUOTE] + rest);
    if ps == [] {
      assert s == [QUOTE] + rest && s[1..] == rest;
    } else {
      CharsComplete(ps[1..], rest);
      PieceStep(ps[0], Spelled(ps[1..]) + ([QUOTE] + rest));
      assert [ps[0]] + ps[1..] == ps;
      SpelledCons(ps[0], ps[1..], [QUOTE] + rest);
    }
  }

  lemma {:induction false} SpelledCons(p: Piece, more: seq<Piece>, after: Text)
    requires p.Valid() && AllValid(more)
    ensures AllValid([p] + more) && Spelled([p] + more) + after == p.Spelling() + (Spelled(more) + after)
    ensures Read([p] + more) == [p.Reading()] + Read(more)
  {
    assert ([p] + more)[1..] == more;
  }

  // The first unit of a literal that is not at its end.
  lemma {:induction false} FirstPiece(s: Text) returns (p: Piece)
    requires ParseChars(s).Some? && s[0] != QUOTE
    ensures p.Valid() && p.Spelling() <= s && s == p.Spelling() + s[|p.Spelling()|..]
    ensures p.Spelling() != [] && ParseChars(s[|p.Spelling()|..]).Some?
    ensures ParseChars(s) == PrependUnit(p.Reading(), ParseChars(s[|p.Spelling()|..]))
  {
    if s[0] != BACKSLASH {
      p := Plain(s[0]);
    } else if s[1] == 0x75 {
      p := Hex(s[2], s[3], s[4], s[5]);
      assert HexValue(s[2]).Some? && HexValue(s[3]).Some? && HexValue(s[4]).Some? && HexValue(s[5]).Some?;
    } else {
      p := Short(ShortIndex(s[1]));
    }
    assert s == p.Spelling() + s[|p.Spelling()|..];
    PieceStep(p, s[|p.Spelling()|..]);
  }

  function ShortIndex(letter: Unit): (i: nat)
    requires Unescape(letter).Some?
    ensures i < 8 && SHORT_LETTERS[i] == letter
  {
    if letter == 0x22 then 0 else if letter == 0x5C then 1 else if letter == 0x2F then 2 else if letter == 0x62 then 3
    else if letter == 0x66 then 4 else if letter == 0x6E then 5 else if letter == 0x72 then 6 else 7
  }

  lemma {:induction false} CharsSound(s: Text) returns (ps: seq<Piece>)
    requires ParseChars(s).Some?
    ensures AllValid(ps) && s == Spelled(ps) + ([QUOTE] + ParseChars(s).value.1) && Read(ps) == ParseChars(s).value.0
    decreases |s|
  {
    if s[0] == QUOTE {
      ps := [];
      assert s == [QUOTE] + s[1..];
    } else {
      var p := FirstPiece(s);
      var more := CharsSound(s[|p.Spelling()|..]);
      ps := [p] + more;
      SpelledCons(p, more, [QUOTE] + ParseChars(s).value.1);
    }
  }

  /******* Section 6: numbers *******/

  predicate Digits(t: Text) { t != [] && forall i :: 0 <= i < |t| ==> 0x30 <= t[i] <= 0x39 }

  const EXPONENT_MARKS: seq<Text> := [[0x65], [0x45], [0x65, 0x2B], [0x45, 0x2B], [0x65, 0x2D], [0x45, 0x2D]]

  datatype Exponent = Exponent(mark: nat, digits: Text)
  datatype Number = Number(minus: bool, whole: Text, fraction: Option<Text>, exponent: Option<Exponent>)

  predicate ValidExponent(e: Option<Exponent>) { e.Some? ==> e.value.mark < 6 && Digits(e.value.digits) }

  predicate ValidNumber(n: Number) {
    && Digits(n.whole) && (n.whole[0] == 0x30 ==> |n.whole| == 1)
    && (n.fraction.Some? ==> Digits(n.fraction.value)) && ValidExponent(n.exponent)
  }

  function Power(e: Option<Exponent>): Text
    requires ValidExponent(e)
  {
    if e.None? then [] else EXPONENT_MARKS[e.value.mark] + e.value.digits
  }

  function Fraction(f: Option<Text>): Text { if f.None? then [] else [0x2E] + f.value }

  function Sign(minus: bool): Text { if minus then [0x2D] else [] }

  function Tail(n: Number): Text
    requires ValidNumber(n)
  {
    Fraction(n.fraction) + Power(n.exponent)
  }

  function SpelledNumber(n: Number): Text
    requires ValidNumber(n)
  {
    Sign(n.minus) + (n.whole + Tail(n))
  }

  lemma {:induction false} RunOfDigits(d: Text, rest: Text)
    requires forall i :: 0 <= i < |d| ==> IsDigit(d[i])
    requires rest == [] || !IsDigit(rest[0])
    ensures DigitRun(d + rest) == |d|
  {
    if d == [] {
      assert d + rest == rest;
    } else {
      assert (d + rest)[1..] == d[1..] + rest;
      RunOfDigits(d[1..], rest);
    }
  }

  lemma {:induction false} RunIsDigits(s: Text)
    ensures forall i :: 0 <= i < DigitRun(s) ==> IsDigit(s[i])
    ensures DigitRun(s) < |s| ==> !IsDigit(s[DigitRun(s)])
  {
    if s != [] && IsDigit(s[0]) { RunIsDigits(s[1..]); }
  }

  lemma {:induction false} MarkShape(mark: nat)
    requires mark < 6
    ensures var m := EXPONENT_MARKS[mark];
      && 1 <= |m| <= 2 && (m[0] == 0x65 || m[0] == 0x45) && (|m| == 2 ==> m[1] == PLUS || m[1] == MINUS)
  {
  }

  lemma {:induction false} MarkedTail(mark: nat, d: Text)
    requires mark < 6 && Digits(d)
    ensures IsExponentTail(EXPONENT_MARKS[mark] + d)
  {
    var m := EXPONENT_MARKS[mark];
    MarkShape(mark);
    RunOfDigits(d, []);
    assert d + [] == d && (m + d)[|m|..] == d;
    if |m| == 1 { assert (m + d)[1] == d[0]; } else { assert (m + d)[1] == m[1]; }
  }

  lemma {:induction false} TailMark(s: Text) returns (mark: nat, d: Text)
    requires IsExponentTail(s) && s != []
    ensures mark < 6 && Digits(d) && s == EXPONENT_MARKS[mark] + d
  {
    var signed := |s| > 1 && (s[1] == PLUS || s[1] == MINUS);
    d := if signed then s[2..] else s[1..];
    RunIsDigits(d);
    mark := (if s[0] == 0x65 then 0 else 1) + (if !signed then 0 else if s[1] == PLUS then 2 else 4);
    if signed {
      assert EXPONENT_MARKS[mark] == [s[0], s[1]] && s == [s[0], s[1]] + d;
    } else {
      assert EXPONENT_MARKS[mark] == [s[0]] && s == [s[0]] + d;
    }
  }

  lemma {:induction false} PowerIsTail(e: Option<Exponent>)
    requires ValidExponent(e)
    ensures var p := Power(e); IsExponentTail(p) && (p == [] || (!IsDigit(p[0]) && p[0] != DOT))
  {
    if e.Some? {
      MarkedTail(e.value.mark, e.value.digits);
      MarkShape(e.value.mark);
    }
  }

  lemma {:induction false} TailIsFraction(f: Option<Text>, power: Text)
    requires (f.Some? ==> Digits(f.value)) && IsExponentTail(power)
    requires power == [] || (!IsDigit(power[0]) && power[0] != DOT)
    ensures var t := Fraction(f) + power; IsFractionTail(t) && (t == [] || !IsDigit(t[0]))
  {
    if f.Some? {
      var d, t := f.value, Fraction(f) + power;
      assert t[1..] == d + power;
      RunOfDigits(d, power);
      assert t[1 + |d|..] == power;
    } else {
      assert Fraction(f) + power == power;
    }
  }

  lemma {:induction false} SignedChars(minus: bool, u: Text)
    requires forall i :: 0 <= i < |u| ==> NumberChar(u[i])
    ensures forall i :: 0 <= i < |Sign(minus) + u| ==> NumberChar((Sign(minus) + u)[i])
  {
  }

  lemma {:induction false} JoinedChars(a: Text, b: Text)
    requires (forall i :: 0 <= i < |a| ==> NumberChar(a[i])) && (forall i :: 0 <= i < |b| ==> NumberChar(b[i]))
    ensures forall i :: 0 <= i < |a + b| ==> NumberChar((a + b)[i])
  {
  }

  lemma {:induction false} PowerChars(e: Option<Exponent>)
    requires ValidExponent(e)
    ensures forall i :: 0 <= i < |Power(e)| ==> NumberChar(Power(e)[i])
  {
    if e.Some? {
      var m := EXPONENT_MARKS[e.value.mark];
      MarkShape(e.value.mark);
      assert forall i :: 0 <= i < |m| ==> NumberChar(m[i]);
      JoinedChars(m, e.value.digits);
    }
  }

  lemma {:induction false} SpelledIsToken(n: Number)
    requires ValidNumber(n)
    ensures IsNumberToken(SpelledNumber(n))
  {
    PowerChars(n.exponent);
    JoinedChars(Fraction(n.fraction), Power(n.exponent));
    JoinedChars(n.whole, Tail(n));
    SignedChars(n.minus, n.whole + Tail(n));
    PowerIsTail(n.exponent);
    TailIsFraction(n.fraction, Power(n.exponent));
    TokenOf(n.minus, n.whole, Tail(n));
  }

  lemma {:induction false} TokenOf(minus: bool, whole: Text, tail: Text)
    requires Digits(whole) && (whole[0] == 0x30 ==> |whole| == 1)
    requires IsFractionTail(tail) && (tail == [] || !IsDigit(tail[0]))
    requires var t := Sign(minus) + (whole + tail); forall i :: 0 <= i < |t| ==> NumberChar(t[i])
    ensures IsNumberToken(Sign(minus) + (whole + tail))
  {
    var u := whole + tail;
    RunOfDigits(whole, tail);
    assert u[|whole|..] == tail && u[0] == whole[0];
    assert Unsigned(Sign(minus) + u) == u;
  }

  function Unsigned(t: Text): Text { if t != [] && t[0] == MINUS then t[1..] else t }

  lemma {:induction false} ExponentOf(s: Text) returns (e: Option<Exponent>)
    requires IsExponentTail(s)
    ensures ValidExponent(e) && Power(e) == s
  {
    e := None;
    if s != [] {
      var mark, d := TailMark(s);
      e := Some(Exponent(mark, d));
    }
  }

  lemma {:induction false} DotSplit(tail: Text, j: nat)
    requires j < |tail| && tail[0] == DOT
    ensures [0x2E] + tail[1..1 + j] + tail[1 + j..] == tail
  {
  }

  lemma {:induction false} DotDigits(s: Text)
    requires DigitRun(s) > 0
    ensures Digits(s[..DigitRun(s)])
  {
    RunIsDigits(s);
  }

  lemma {:induction false} FractionOf(tail: Text) returns (f: Option<Text>, e: Option<Exponent>)
    requires IsFractionTail(tail)
    ensures (f.Some? ==> Digits(f.value)) && ValidExponent(e) && Fraction(f) + Power(e) == tail
  {
    if tail != [] && tail[0] == DOT {
      var s := tail[1..];
      var j := DigitRun(s);
      assert IsExponentTail(tail[1 + j..]) && j > 0;
      DotDigits(s);
      assert s[..j] == tail[1..1 + j];
      f := Some(s[..j]);
      e := ExponentOf(tail[1 + j..]);
      DotSplit(tail, j);
    } else {
      f := None;
      e := ExponentOf(tail);
      assert Fraction(f) + Power(e) == Power(e);
    }
  }

  lemma {:induction false} TokenParts(t: Text) returns (whole: Text, tail: Text)
    requires IsNumberToken(t)
    ensures t != [] && t == Sign(t[0] == MINUS) + (whole + tail)
    ensures Digits(whole) && (whole[0] == 0x30 ==> |whole| == 1) && IsFractionTail(tail)
  {
    var u := Unsigned(t);
    var k := DigitRun(u);
    DotDigits(u);
    whole, tail := u[..k], u[k..];
    assert whole + tail == u && whole[0] == u[0];
    assert t == Sign(t[0] == MINUS) + u;
  }

  lemma {:induction false} TokenIsSpelled(t: Text) returns (n: Number)
    requires IsNumberToken(t)
    ensures ValidNumber(n) && SpelledNumber(n) == t
  {
    var whole, tail := TokenParts(t);
    n := Assemble(t[0] == MINUS, whole, tail);
  }

  lemma {:induction false} Assemble(minus: bool, whole: Text, tail: Text) returns (n: Number)
    requires Digits(whole) && (whole[0] == 0x30 ==> |whole| == 1) && IsFractionTail(tail)
    ensures ValidNumber(n) && SpelledNumber(n) == Sign(minus) + (whole + tail)
  {
    var f, e := FractionOf(tail);
    n := Number(minus, whole, f, e);
  }

  /**
   A number token is exactly an optional minus, digits without a leading zero, and an optional fraction and
   exponent.
   */
  lemma {:induction false} TokenIff(t: Text)
    ensures IsNumberToken(t) <==> exists n: Number :: ValidNumber(n) && SpelledNumber(n) == t
  {
    if IsNumberToken(t) {
      var n := TokenIsSpelled(t);
    }
    if n: Number :| ValidNumber(n) && SpelledNumber(n) == t { SpelledIsToken(n); }
  }

  /******* Sections 2 to 5: values *******/

  predicate Blank(ws: Text) { forall i :: 0 <= i < |ws| ==> ws[i] in [0x20, 0x09, 0x0A, 0x0D] }

  datatype Syntax =
    | Word(value: Json)
    | Numeral(number: Number)
    | Quoted(pieces: seq<Piece>)
    | List(items: seq<Padded>, gap: Text)
    | Record(entries: seq<Entry>, gap: Text)
  // A value and the white space around it.
  datatype Padded = Padded(before: Text, value: Syntax, after: Text)
  datatype Entry = Entry(before: Text, key: seq<Piece>, between: Text, value: Padded)

  // `gap` is the white space of an empty list or record.
  predicate Valid(s: Syntax)
    decreases s, 0
  {
    match s
    case Word(v) => v == Null || v == Bool(true) || v == Bool(false)
    case Numeral(n) => ValidNumber(n)
    case Quoted(ps) => AllValid(ps)
    case List(items, gap) => Blank(gap) && ValidItems(items)
    case Record(entries, gap) => Blank(gap) && ValidEntries(entries)
  }

  predicate ValidItems(items: seq<Padded>)
    decreases items, 1
  {
    items == [] || (ValidPadded(items[0]) && ValidItems(items[1..]))
  }

  predicate ValidEntries(entries: seq<Entry>)
    decreases entries, 1
  {
    entries == [] || (ValidEntry(entries[0]) && ValidEntries(entries[1..]))
  }

  predicate ValidPadded(p: Padded)
    decreases p, 0
  {
    Blank(p.before) && Blank(p.after) && Valid(p.value)
  }

  predicate ValidEntry(e: Entry)
    decreases e, 0
  {
    Blank(e.before) && Blank(e.between) && AllValid(e.key) && ValidPadded(e.value)
  }

  function WordText(v: Json): Text {
    if v == Null then [0x6E, 0x75, 0x6C, 0x6C] else if v == Bool(true) then [0x74, 0x72, 0x75, 0x65]
    else [0x66, 0x61, 0x6C, 0x73, 0x65]
  }

  function Spell(s: Syntax): Text
    requires Valid(s)
    decreases s, 0
  {
    match s
    case Word(v) => WordText(v)
    case Numeral(n) => SpelledNumber(n)
    case Quoted(ps) => [0x22] + (Spelled(ps) + [0x22])
    case List(items, gap) => [0x5B] + ((if items == [] then gap else SpellItems(items)) + [0x5D])
    case Record(entries, gap) => [0x7B] + ((if entries == [] then gap else SpellEntries(entries)) + [0x7D])
  }

  function SpellPadded(p: Padded): Text
    requires ValidPadded(p)
    decreases p, 0
  {
    p.before + (Spell(p.value) + p.after)
  }

  function SpellEntry(e: Entry): Text
    requires ValidEntry(e)
    decreases e, 0
  {
    e.before + ([0x22] + (Spelled(e.key) + ([0x22] + (e.between + ([0x3A] + SpellPadded(e.value))))))
  }

  function SpellItems(items: seq<Padded>): Text
    requires items != [] && ValidItems(items)
    decreases items, 1
  {
    SpellPadded(items[0]) + if |items| == 1 then [] else [0x2C] + SpellItems(items[1..])
  }

  function SpellEntries(entries: seq<Entry>): Text
    requires entries != [] && ValidEntries(entries)
    decreases entries, 1
  {
    SpellEntry(entries[0]) + if |entries| == 1 then [] else [0x2C] + SpellEntries(entries[1..])
  }

  function Meaning(s: Syntax, num: Text -> Json): Json
    requires Valid(s)
    decreases s, 0
  {
    match s
    case Word(v) => v
    case Numeral(n) => num(SpelledNumber(n))
    case Quoted(ps) => Str(Read(ps))
    case List(items, _) => Arr(MeaningItems(items, num))
    case Record(entries, _) => Obj(MeaningEntries([], entries, num))
  }

  function MeaningItems(items: seq<Padded>, num: Text -> Json): seq<Json>
    requires ValidItems(items)
    decreases items, 1
  {
    if items == [] then [] else [MeaningPadded(items[0], num)] + MeaningItems(items[1..], num)
  }

  function MeaningPadded(p: Padded, num: Text -> Json): Json
    requires ValidPadded(p)
    decreases p, 0
  {
    Meaning(p.value, num)
  }

  function MeaningEntry(e: Entry, num: Text -> Json): Member
    requires ValidEntry(e)
    decreases e, 0
  {
    Member(Read(e.key), MeaningPadded(e.value, num))
  }

  // A repeated name replaces the earlier value, in its place.
  function MeaningEntries(seen: seq<Member>, entries: seq<Entry>, num: Text -> Json): seq<Member>
    requires ValidEntries(entries)
    decreases entries, 1
  {
    if entries == [] then seen
    else
      var m := MeaningEntry(entries[0], num);
      MeaningEntries(Put(seen, m.key, m.value), entries[1..], num)
  }

  /******* Whatever is spelled is parsed *******/

  lemma {:induction false} SkipBlank(ws: Text, t: Text)
    requires Blank(ws) && (t == [] || !IsSpace(t[0]))
    ensures SkipSpace(ws + t) == t
  {
    if ws == [] {
      assert ws + t == t;
    } else {
      assert ws[0] in [0x20, 0x09, 0x0A, 0x0D] && IsSpace(ws[0]);
      assert (ws + t)[1..] == ws[1..] + t;
      SkipBlank(ws[1..], t);
    }
  }

  lemma {:induction false} SkipTwice(s: Text)
    ensures SkipSpace(SkipSpace(s)) == SkipSpace(s)
  {
    if s != [] && IsSpace(s[0]) { SkipTwice(s[1..]); }
  }

  lemma {:induction false} ValueSkips(ws: Text, s: Text, num: Text -> Json)
    requires Blank(ws)
    ensures ParseValue(ws + s, num) == ParseValue(s, num)
  {
    SkipMore(ws, s);
  }

  lemma {:induction false} SkipMore(ws: Text, s: Text)
    requires Blank(ws)
    ensures SkipSpace(ws + s) == SkipSpace(s)
  {
    if ws == [] {
      assert ws + s == s;
    } else {
      assert ws[0] in [0x20, 0x09, 0x0A, 0x0D] && IsSpace(ws[0]);
      assert (ws + s)[1..] == ws[1..] + s;
      SkipMore(ws[1..], s);
    }
  }

  lemma {:induction false} SpellHead(s: Syntax)
    requires Valid(s)
    ensures Spell(s) != [] && !IsSpace(Spell(s)[0]) && Spell(s)[0] != RBRACKET && Spell(s)[0] != RBRACE
  {
    if s.Numeral? { NumberHead(s.number); }
  }

  lemma {:induction false} NumberHead(n: Number)
    requires ValidNumber(n)
    ensures SpelledNumber(n) != [] && (IsDigit(SpelledNumber(n)[0]) || SpelledNumber(n)[0] == MINUS)
  {
    if n.minus { assert SpelledNumber(n)[0] == 0x2D; } else { assert SpelledNumber(n)[0] == n.whole[0]; }
  }

  lemma {:induction false} NumeralComplete(n: Number, rest: Text, num: Text -> Json)
    requires ValidNumber(n) && Terminated(rest)
    ensures ParseValue(SpelledNumber(n) + rest, num) == Some((num(SpelledNumber(n)), rest))
  {
    SpelledIsToken(n);
    NumberHead(n);
    NumberRunOf(SpelledNumber(n), rest);
    TokenRead(SpelledNumber(n), rest, num);
  }

  lemma {:induction false} TokenRead(t: Text, rest: Text, num: Text -> Json)
    requires IsNumberToken(t) && NumberRun(t + rest) == |t| > 0 && (IsDigit(t[0]) || t[0] == MINUS)
    ensures ParseValue(t + rest, num) == Some((num(t), rest))
  {
    var s := t + rest;
    assert s[0] == t[0];
    assert s[..|t|] == t && s[|t|..] == rest;
    NoWord(s);
    assert SkipSpace(s) == s;
  }

  lemma {:induction false} NoWord(s: Text)
    requires s != [] && (IsDigit(s[0]) || s[0] == MINUS)
    ensures !(NULL_TEXT <= s) && !(TRUE_TEXT <= s) && !(FALSE_TEXT <= s)
  {
    assert NULL_TEXT[0] != s[0] && TRUE_TEXT[0] != s[0] && FALSE_TEXT[0] != s[0];
  }

  lemma {:induction false} WordComplete(v: Json, rest: Text, num: Text -> Json)
    requires v == Null || v == Bool(true) || v == Bool(false)
    ensures ParseValue(WordText(v) + rest, num) == Some((v, rest))
  {
    var w := WordText(v);
    var s := w + rest;
    assert w <= s && s[|w|..] == rest && s[0] == w[0];
    assert w != NULL_TEXT ==> !(NULL_TEXT <= s) by { assert NULL_TEXT <= s ==> NULL_TEXT[0] == s[0]; }
    assert w == FALSE_TEXT ==> !(TRUE_TEXT <= s) by { assert TRUE_TEXT <= s ==> TRUE_TEXT[0] == s[0]; }
  }

  lemma {:induction false} QuotedComplete(ps: seq<Piece>, rest: Text, num: Text -> Json)
    requires AllValid(ps)
    ensures ParseValue([0x22] + (Spelled(ps) + [0x22]) + rest, num) == Some((Str(Read(ps)), rest))
  {
    var s := [0x22] + (Spelled(ps) + [0x22]) + rest;
    assert s[1..] == Spelled(ps) + ([QUOTE] + rest);
    CharsComplete(ps, rest);
  }

  lemma {:induction false} ValueComplete(s: Syntax, rest: Text, num: Text -> Json)
    requires Valid(s) && Terminated(rest)
    ensures ParseValue(Spell(s) + rest, num) == Some((Meaning(s, num), rest))
    decreases s, 0
  {
    match s
    case Word(v) => WordComplete(v, rest, num);
    case Numeral(n) => NumeralComplete(n, rest, num);
    case Quoted(ps) => QuotedComplete(ps, rest, num);
    case List(items, gap) =>
      if items == [] { EmptyList(gap, rest, num); } else { ListComplete(items, rest, num); }
    case Record(entries, gap) =>
      if entries == [] { EmptyRecord(gap, rest, num); } else { RecordComplete(entries, rest, num); }
  }

  lemma {:induction false} EmptyList(gap: Text, rest: Text, num: Text -> Json)
    requires Blank(gap)
    ensures ParseValue([0x5B] + (gap + [0x5D]) + rest, num) == Some((Arr([]), rest))
  {
    var s := [0x5B] + (gap + [0x5D]) + rest;
    assert s[1..] == gap + ([RBRACKET] + rest);
    SkipBlank(gap, [RBRACKET] + rest);
    assert ([RBRACKET] + rest)[1..] == rest;
  }

  lemma {:induction false} EmptyRecord(gap: Text, rest: Text, num: Text -> Json)
    requires Blank(gap)
    ensures ParseValue([0x7B] + (gap + [0x7D]) + rest, num) == Some((Obj([]), rest))
  {
    var s := [0x7B] + (gap + [0x7D]) + rest;
    assert s[1..] == gap + ([RBRACE] + rest);
    SkipBlank(gap, [RBRACE] + rest);
    assert ([RBRACE] + rest)[1..] == rest;
  }

  lemma {:induction false} PaddedComplete(p: Padded, d: Unit, tail: Text, num: Text -> Json)
    requires ValidPadded(p) && !NumberChar(d) && !IsSpace(d)
    ensures ParseValue(SpellPadded(p) + ([d] + tail), num) == Some((MeaningPadded(p, num), p.after + ([d] + tail)))
    ensures SkipSpace(p.after + ([d] + tail)) == [d] + tail
    decreases p, 0
  {
    var rest := p.after + ([d] + tail);
    PaddedRegroup(p, [d] + tail);
    BlankEnds(p.after, [d] + tail);
    ValueComplete(p.value, rest, num);
    ValueSkips(p.before, Spell(p.value) + rest, num);
    SkipBlank(p.after, [d] + tail);
  }

  lemma {:induction false} PaddedRegroup(p: Padded, rest: Text)
    requires ValidPadded(p)
    ensures SpellPadded(p) + rest == p.before + (Spell(p.value) + (p.after + rest))
  {
  }

  lemma {:induction false} BlankEnds(ws: Text, rest: Text)
    requires Blank(ws) && Terminated(rest)
    ensures Terminated(ws + rest)
  {
    if ws != [] {
      assert ws[0] in [0x20, 0x09, 0x0A, 0x0D] && (ws + rest)[0] == ws[0];
    } else {
      assert ws + rest == rest;
    }
  }

  lemma {:induction false} ItemsSkip(ws: Text, s: Text, seen: seq<Json>, num: Text -> Json)
    requires Blank(ws)
    ensures ParseItems(ws + s, seen, num) == ParseItems(s, seen, num)
  {
    ValueSkips(ws, s, num);
  }

  lemma {:induction false} MembersSkip(ws: Text, s: Text, seen: seq<Member>, num: Text -> Json)
    requires Blank(ws)
    ensures ParseMembers(ws + s, seen, num) == ParseMembers(s, seen, num)
  {
    SkipMore(ws, s);
  }

  lemma {:induction false} ItemsStep(
    s: Text, v: Json, after: Text, d: Unit, tail: Text, seen: seq<Json>, num: Text -> Json)
    requires ParseValue(s, num) == Some((v, after)) && SkipSpace(after) == [d] + tail
    requires d == COMMA || d == RBRACKET
    ensures ParseItems(s, seen, num)
      == if d == COMMA then ParseItems(tail, seen + [v], num) else Some((Arr(seen + [v]), tail))
  {
    assert ([d] + tail)[1..] == tail;
  }

  lemma {:induction false} ItemComplete(p: Padded, d: Unit, tail: Text, seen: seq<Json>, num: Text -> Json)
    requires ValidPadded(p) && (d == COMMA || d == RBRACKET)
    ensures var v := MeaningPadded(p, num);
      ParseItems(SpellPadded(p) + ([d] + tail), seen, num)
        == if d == COMMA then ParseItems(tail, seen + [v], num) else Some((Arr(seen + [v]), tail))
    decreases p, 1
  {
    PaddedComplete(p, d, tail, num);
    ItemsStep(SpellPadded(p) + ([d] + tail), MeaningPadded(p, num), p.after + ([d] + tail), d, tail, seen, num);
  }

  lemma {:induction false} ItemsRegroup(items: seq<Padded>, after: Text)
    requires items != [] && ValidItems(items)
    ensures |items| == 1 ==> SpellItems(items) + after == SpellPadded(items[0]) + after
    ensures |items| > 1 ==>
      SpellItems(items) + after == SpellPadded(items[0]) + ([COMMA] + (SpellItems(items[1..]) + after))
  {
    if |items| == 1 {
      assert SpellItems(items) == SpellPadded(items[0]) + [] == SpellPadded(items[0]);
    } else {
      Regrouped(SpellPadded(items[0]), SpellItems(items[1..]), after);
    }
  }

  lemma {:induction false} Regrouped(a: Text, b: Text, after: Text)
    ensures a + ([0x2C] + b) + after == a + ([COMMA] + (b + after))
  {
  }

  lemma {:induction false} MeaningsRegroup(seen: seq<Json>, items: seq<Padded>, num: Text -> Json)
    requires items != [] && ValidItems(items)
    ensures seen + [MeaningPadded(items[0], num)] + MeaningItems(items[1..], num) == seen + MeaningItems(items, num)
    ensures |items| == 1 ==> seen + [MeaningPadded(items[0], num)] == seen + MeaningItems(items, num)
  {
    var one, more := [MeaningPadded(items[0], num)], MeaningItems(items[1..], num);
    assert seen + one + more == seen + (one + more);
    if |items| == 1 { assert items[1..] == [] && one + [] == one; }
  }

  lemma {:induction false} ItemsComplete(items: seq<Padded>, seen: seq<Json>, rest: Text, num: Text -> Json)
    requires items != [] && ValidItems(items)
    ensures ParseItems(SpellItems(items) + ([RBRACKET] + rest), seen, num)
      == Some((Arr(seen + MeaningItems(items, num)), rest))
    decreases items, 1
  {
    ItemsRegroup(items, [RBRACKET] + rest);
    MeaningsRegroup(seen, items, num);
    if |items| == 1 {
      ItemComplete(items[0], RBRACKET, rest, seen, num);
    } else {
      ItemComplete(items[0], COMMA, SpellItems(items[1..]) + ([RBRACKET] + rest), seen, num);
      ItemsComplete(items[1..], seen + [MeaningPadded(items[0], num)], rest, num);
    }
  }

  lemma {:induction false} ListComplete(items: seq<Padded>, rest: Text, num: Text -> Json)
    requires items != [] && ValidItems(items)
    ensures ParseValue([0x5B] + (SpellItems(items) + [0x5D]) + rest, num) == Some((Arr(MeaningItems(items, num)), rest))
    decreases items, 2
  {
    var body := SpellItems(items) + ([RBRACKET] + rest);
    Closed(0x5B, SpellItems(items), RBRACKET, rest);
    ItemsComplete(items, [], rest, num);
    assert [] + MeaningItems(items, num) == MeaningItems(items, num);
    ItemsRegroup(items, [RBRACKET] + rest);
    var ws, u := BodyHead(items[0], body);
    OpenList(body, ws, u, num);
  }

  lemma {:induction false} OpenList(body: Text, ws: Text, u: Text, num: Text -> Json)
    requires Blank(ws) && body == ws + u && u != [] && !IsSpace(u[0]) && u[0] != RBRACKET
    ensures ParseValue([LBRACKET] + body, num) == ParseItems(body, [], num)
  {
    assert ([LBRACKET] + body)[1..] == body;
    SkipBlank(ws, u);
    ItemsSkip(ws, u, [], num);
  }

  lemma {:induction false} OpenRecord(body: Text, ws: Text, u: Text, num: Text -> Json)
    requires Blank(ws) && body == ws + u && u != [] && u[0] == QUOTE
    ensures ParseValue([LBRACE] + body, num) == ParseMembers(body, [], num)
  {
    assert ([LBRACE] + body)[1..] == body;
    SkipBlank(ws, u);
    MembersSkip(ws, u, [], num);
  }

  // What is left of a body after its first white space does not close it.
  lemma {:induction false} BodyHead(p: Padded, body: Text) returns (ws: Text, u: Text)
    requires ValidPadded(p) && SpellPadded(p) <= body
    ensures Blank(ws) && body == ws + u && u != [] && !IsSpace(u[0]) && u[0] != RBRACKET && u[0] != RBRACE
  {
    SpellHead(p.value);
    ws, u := p.before, body[|p.before|..];
    assert u[0] == SpellPadded(p)[|p.before|] == Spell(p.value)[0];
  }

  lemma {:induction false} EntryKey(e: Entry, after: Text)
    requires ValidEntry(e)
    ensures var s := SpellEntry(e) + after;
      var t := SkipSpace(s);
      && t != [] && t[0] == QUOTE
      && ParseChars(t[1..]) == Some((Read(e.key), e.between + ([COLON] + (SpellPadded(e.value) + after))))
  {
    var valued := e.between + ([COLON] + (SpellPadded(e.value) + after));
    var t := [QUOTE] + (Spelled(e.key) + ([QUOTE] + valued));
    EntryRegroup(e, after);
    SkipBlank(e.before, t);
    assert t[1..] == Spelled(e.key) + ([QUOTE] + valued);
    CharsComplete(e.key, valued);
  }

  lemma {:induction false} EntryRegroup(e: Entry, after: Text)
    requires ValidEntry(e)
    ensures SpellEntry(e) + after == e.before
      + ([QUOTE] + (Spelled(e.key) + ([QUOTE] + (e.between + ([COLON] + (SpellPadded(e.value) + after))))))
  {
    var x5 := [0x3A] + SpellPadded(e.value);
    var x4 := e.between + x5;
    var x3 := [0x22] + x4;
    var x2 := Spelled(e.key) + x3;
    Associate(e.before, [0x22] + x2, after);
    Associate([0x22], x2, after);
    Associate(Spelled(e.key), x3, after);
    Associate([0x22], x4, after);
    Associate(e.between, x5, after);
    Associate([0x3A], SpellPadded(e.value), after);
  }

  lemma {:induction false} Associate(a: Text, b: Text, c: Text)
    ensures (a + b) + c == a + (b + c)
  {
  }

  lemma {:induction false} EntryComplete(e: Entry, d: Unit, tail: Text, seen: seq<Member>, num: Text -> Json)
    requires ValidEntry(e) && (d == COMMA || d == RBRACE)
    ensures var now := Put(seen, MeaningEntry(e, num).key, MeaningEntry(e, num).value);
      ParseMembers(SpellEntry(e) + ([d] + tail), seen, num)
        == if d == COMMA then ParseMembers(tail, now, num) else Some((Obj(now), tail))
    decreases e, 0
  {
    EntryKey(e, [d] + tail);
    var c := [COLON] + (SpellPadded(e.value) + ([d] + tail));
    SkipBlank(e.between, c);
    assert c[1..] == SpellPadded(e.value) + ([d] + tail) && ([d] + tail)[1..] == tail;
    PaddedComplete(e.value, d, tail, num);
  }

  lemma {:induction false} EntriesRegroup(entries: seq<Entry>, after: Text)
    requires entries != [] && ValidEntries(entries)
    ensures |entries| == 1 ==> SpellEntries(entries) + after == SpellEntry(entries[0]) + after
    ensures |entries| > 1 ==>
      SpellEntries(entries) + after == SpellEntry(entries[0]) + ([COMMA] + (SpellEntries(entries[1..]) + after))
  {
    if |entries| == 1 {
      assert SpellEntries(entries) == SpellEntry(entries[0]) + [] == SpellEntry(entries[0]);
    } else {
      Regrouped(SpellEntry(entries[0]), SpellEntries(entries[1..]), after);
    }
  }

  lemma {:induction false} EntriesComplete(entries: seq<Entry>, seen: seq<Member>, rest: Text, num: Text -> Json)
    requires entries != [] && ValidEntries(entries)
    ensures ParseMembers(SpellEntries(entries) + ([RBRACE] + rest), seen, num)
      == Some((Obj(MeaningEntries(seen, entries, num)), rest))
    decreases entries, 1
  {
    var m := MeaningEntry(entries[0], num);
    EntriesRegroup(entries, [RBRACE] + rest);
    if |entries| == 1 {
      EntryComplete(entries[0], RBRACE, rest, seen, num);
      assert entries[1..] == [];
    } else {
      EntryComplete(entries[0], COMMA, SpellEntries(entries[1..]) + ([RBRACE] + rest), seen, num);
      EntriesComplete(entries[1..], Put(seen, m.key, m.value), rest, num);
    }
  }

  lemma {:induction false} RecordComplete(entries: seq<Entry>, rest: Text, num: Text -> Json)
    requires entries != [] && ValidEntries(entries)
    ensures ParseValue([0x7B] + (SpellEntries(entries) + [0x7D]) + rest, num)
      == Some((Obj(MeaningEntries([], entries, num)), rest))
    decreases entries, 2
  {
    var body := SpellEntries(entries) + ([RBRACE] + rest);
    Closed(0x7B, SpellEntries(entries), RBRACE, rest);
    EntriesComplete(entries, [], rest, num);
    EntriesRegroup(entries, [RBRACE] + rest);
    var ws, u := EntryHead(entries[0], body);
    OpenRecord(body, ws, u, num);
  }

  lemma {:induction false} EntryHead(e: Entry, body: Text) returns (ws: Text, u: Text)
    requires ValidEntry(e) && SpellEntry(e) <= body
    ensures Blank(ws) && body == ws + u && u != [] && u[0] == QUOTE
  {
    ws, u := e.before, body[|e.before|..];
    assert u[0] == SpellEntry(e)[|e.before|];
  }

  /******* Whatever is parsed was spelled *******/

  lemma {:induction false} SkipSound(s: Text) returns (ws: Text)
    ensures Blank(ws) && s == ws + SkipSpace(s)
  {
    if s != [] && IsSpace(s[0]) {
      var more := SkipSound(s[1..]);
      ws := [s[0]] + more;
      assert s == [s[0]] + s[1..];
    } else {
      ws := [];
      assert [] + s == s;
    }
  }

  // What a value read from s leaves, and what it was.
  ghost predicate ReadFrom(s: Text, v: Json, rest: Text, p: Padded, num: Text -> Json) {
    ValidPadded(p) && p.after == [] && MeaningPadded(p, num) == v && s == SpellPadded(p) + rest
  }

  lemma {:induction false} ReadAfter(ws: Text, y: Syntax, t: Text, rest: Text, num: Text -> Json)
    requires Blank(ws) && Valid(y) && t == Spell(y) + rest
    ensures ReadFrom(ws + t, Meaning(y, num), rest, Padded(ws, y, []), num)
  {
    assert Spell(y) + [] == Spell(y);
    assert ws + t == (ws + Spell(y)) + rest;
  }

  lemma {:induction false} ValueSound(s: Text, num: Text -> Json) returns (p: Padded)
    requires ParseValue(s, num).Some?
    ensures var r := ParseValue(s, num).value; ReadFrom(s, r.0, r.1, p, num)
    decreases |s|, 2
  {
    var ws := SkipSound(s);
    var t := SkipSpace(s);
    ValueSkips(ws, t, num);
    SkipTwice(s);
    var y := BareSound(t, num);
    ReadAfter(ws, y, t, ParseValue(s, num).value.1, num);
    p := Padded(ws, y, []);
  }

  lemma {:induction false} BareSound(t: Text, num: Text -> Json) returns (y: Syntax)
    requires ParseValue(t, num).Some? && SkipSpace(t) == t
    ensures var r := ParseValue(t, num).value; Valid(y) && Meaning(y, num) == r.0 && t == Spell(y) + r.1
    decreases |t|, 1
  {
    if t[0] == QUOTE {
      y := QuotedSound(t);
    } else if t[0] == LBRACKET {
      y := ListSound(t, num);
    } else if t[0] == LBRACE {
      y := RecordSound(t, num);
    } else {
      y := LeafSound(t, num);
    }
  }

  lemma {:induction false} QuotedSound(t: Text) returns (y: Syntax)
    requires t != [] && t[0] == QUOTE && ParseChars(t[1..]).Some?
    ensures y.Quoted? && Valid(y) && t == Spell(y) + ParseChars(t[1..]).value.1
    ensures Read(y.pieces) == ParseChars(t[1..]).value.0
  {
    var ps := CharsSound(t[1..]);
    y := Quoted(ps);
    HeadAndTail(t);
    Closed(QUOTE, Spelled(ps), QUOTE, ParseChars(t[1..]).value.1);
  }

  lemma {:induction false} LeafSound(t: Text, num: Text -> Json) returns (y: Syntax)
    requires ParseValue(t, num).Some? && t != [] && SkipSpace(t) == t
    requires t[0] != QUOTE && t[0] != LBRACE && t[0] != LBRACKET
    ensures var r := ParseValue(t, num).value; Valid(y) && Meaning(y, num) == r.0 && t == Spell(y) + r.1
  {
    if NULL_TEXT <= t || TRUE_TEXT <= t || FALSE_TEXT <= t {
      y := WordSound(t, num);
    } else {
      var k := NumberRun(t);
      y := NumeralSound(t, k, num);
    }
  }

  lemma {:induction false} WordSound(t: Text, num: Text -> Json) returns (y: Syntax)
    requires t != [] && SkipSpace(t) == t && t[0] != QUOTE && t[0] != LBRACE && t[0] != LBRACKET
    requires NULL_TEXT <= t || TRUE_TEXT <= t || FALSE_TEXT <= t
    ensures Valid(y) && ParseValue(t, num).Some?
    ensures var r := ParseValue(t, num).value; Meaning(y, num) == r.0 && t == Spell(y) + r.1
  {
    y := Word(if NULL_TEXT <= t then Null else Bool(TRUE_TEXT <= t));
  }

  lemma {:induction false} NumeralSound(t: Text, k: nat, num: Text -> Json) returns (y: Syntax)
    requires k <= |t| && IsNumberToken(t[..k])
    ensures Valid(y) && Meaning(y, num) == num(t[..k]) && t == Spell(y) + t[k..]
  {
    var n := TokenIsSpelled(t[..k]);
    y := Numeral(n);
  }

  // White space moves into the first item or entry.
  lemma {:induction false} GapItems(gap: Text, items: seq<Padded>, num: Text -> Json) returns (all: seq<Padded>)
    requires Blank(gap) && items != [] && ValidItems(items)
    ensures all != [] && ValidItems(all) && SpellItems(all) == gap + SpellItems(items)
    ensures MeaningItems(all, num) == MeaningItems(items, num)
  {
    var p := items[0];
    all := [p.(before := gap + p.before)] + items[1..];
    assert all[1..] == items[1..];
    assert SpellPadded(all[0]) == gap + SpellPadded(p);
  }

  lemma {:induction false} GapEntries(gap: Text, entries: seq<Entry>, num: Text -> Json) returns (all: seq<Entry>)
    requires Blank(gap) && entries != [] && ValidEntries(entries)
    ensures all != [] && ValidEntries(all) && SpellEntries(all) == gap + SpellEntries(entries)
    ensures MeaningEntries([], all, num) == MeaningEntries([], entries, num)
  {
    var e := entries[0];
    all := [e.(before := gap + e.before)] + entries[1..];
    assert all[1..] == entries[1..];
    assert SpellEntry(all[0]) == gap + SpellEntry(e);
  }

  lemma {:induction false} ListSound(t: Text, num: Text -> Json) returns (y: Syntax)
    requires ParseValue(t, num).Some? && t != [] && SkipSpace(t) == t && t[0] == LBRACKET
    ensures var r := ParseValue(t, num).value; Valid(y) && Meaning(y, num) == r.0 && t == Spell(y) + r.1
    decreases |t|, 0
  {
    var rest := ParseValue(t, num).value.1;
    var gap := SkipSound(t[1..]);
    var u := SkipSpace(t[1..]);
    assert t == [LBRACKET] + (gap + u);
    if u[0] == RBRACKET {
      y := List([], gap);
      assert u == [RBRACKET] + rest;
      Closed(LBRACKET, gap, RBRACKET, rest);
    } else {
      var items := ItemsSound(u, [], num);
      assert [] + MeaningItems(items, num) == MeaningItems(items, num);
      var all := GapItems(gap, items, num);
      y := List(all, []);
      Opened(LBRACKET, gap, SpellItems(items), RBRACKET, rest);
    }
  }

  lemma {:induction false} Closed(open: Unit, gap: Text, close: Unit, rest: Text)
    ensures [open] + (gap + ([close] + rest)) == [open] + (gap + [close]) + rest
  {
  }

  lemma {:induction false} Opened(open: Unit, gap: Text, inner: Text, close: Unit, rest: Text)
    ensures [open] + (gap + (inner + ([close] + rest))) == [open] + ((gap + inner) + [close]) + rest
  {
    assert gap + (inner + ([close] + rest)) == ((gap + inner) + [close]) + rest;
  }

  lemma {:induction false} RecordSound(t: Text, num: Text -> Json) returns (y: Syntax)
    requires ParseValue(t, num).Some? && t != [] && SkipSpace(t) == t && t[0] == LBRACE
    ensures var r := ParseValue(t, num).value; Valid(y) && Meaning(y, num) == r.0 && t == Spell(y) + r.1
    decreases |t|, 0
  {
    var rest := ParseValue(t, num).value.1;
    var gap := SkipSound(t[1..]);
    var u := SkipSpace(t[1..]);
    assert t == [LBRACE] + (gap + u);
    if u != [] && u[0] == RBRACE {
      y := Record([], gap);
      assert u == [RBRACE] + rest;
      Closed(LBRACE, gap, RBRACE, rest);
    } else {
      var entries := EntriesSound(u, [], num);
      var all := GapEntries(gap, entries, num);
      y := Record(all, []);
      Opened(LBRACE, gap, SpellEntries(entries), RBRACE, rest);
    }
  }

  // One item up to the comma or bracket after it.
  lemma {:induction false} ItemSound(s: Text, num: Text -> Json) returns (p: Padded, u: Text)
    requires ParseValue(s, num).Some?
    ensures var r := ParseValue(s, num).value;
      ValidPadded(p) && MeaningPadded(p, num) == r.0 && u == SkipSpace(r.1) && s == SpellPadded(p) + u
    decreases |s|, 3
  {
    var q := ValueSound(s, num);
    var after := SkipSound(ParseValue(s, num).value.1);
    p, u := q.(after := after), SkipSpace(ParseValue(s, num).value.1);
    Attached(q, after, u);
  }

  lemma {:induction false} Attached(q: Padded, after: Text, u: Text)
    requires ValidPadded(q) && q.after == [] && Blank(after)
    ensures SpellPadded(q) + (after + u) == SpellPadded(q.(after := after)) + u
  {
    assert Spell(q.value) + [] == Spell(q.value);
    assert (q.before + Spell(q.value)) + (after + u) == (q.before + (Spell(q.value) + after)) + u;
  }

  lemma {:induction false} ItemsSound(s: Text, seen: seq<Json>, num: Text -> Json) returns (items: seq<Padded>)
    requires ParseItems(s, seen, num).Some?
    ensures var r := ParseItems(s, seen, num).value;
      && items != [] && ValidItems(items) && s == SpellItems(items) + ([RBRACKET] + r.1)
      && r.0 == Arr(seen + MeaningItems(items, num))
    decreases |s|, 4
  {
    var p, u := ItemSound(s, num);
    assert u == [u[0]] + u[1..];
    if u[0] == COMMA {
      var after := [RBRACKET] + ParseItems(s, seen, num).value.1;
      var more := ItemsSound(u[1..], seen + [MeaningPadded(p, num)], num);
      items := ItemsMore(p, more, seen, after, num);
    } else {
      items := ItemsMore(p, [], seen, u, num);
    }
  }

  // An item put before those that follow its comma, if any.
  lemma {:induction false} ItemsMore(p: Padded, more: seq<Padded>, seen: seq<Json>, after: Text, num: Text -> Json)
    returns (items: seq<Padded>)
    requires ValidPadded(p) && ValidItems(more)
    ensures items != [] && ValidItems(items)
    ensures SpellItems(items) + after
      == SpellPadded(p) + if more == [] then after else [COMMA] + (SpellItems(more) + after)
    ensures seen + MeaningItems(items, num) == seen + [MeaningPadded(p, num)] + MeaningItems(more, num)
    ensures more == [] ==> seen + MeaningItems(items, num) == seen + [MeaningPadded(p, num)]
  {
    items := [p] + more;
    assert items[1..] == more;
    ItemsRegroup(items, after);
    MeaningsRegroup(seen, items, num);
  }

  lemma {:induction false} KeySound(s: Text, num: Text -> Json)
    returns (before: Text, key: seq<Piece>, between: Text, c: Text)
    requires var t := SkipSpace(s); t != [] && t[0] == QUOTE && ParseChars(t[1..]).Some?
    ensures Blank(before) && AllValid(key) && Blank(between)
    ensures var k := ParseChars(SkipSpace(s)[1..]).value; Read(key) == k.0 && c == SkipSpace(k.1)
    ensures s == before + ([QUOTE] + (Spelled(key) + ([QUOTE] + (between + c))))
  {
    before := SkipSound(s);
    var t := SkipSpace(s);
    key := CharsSound(t[1..]);
    between := SkipSound(ParseChars(t[1..]).value.1);
    c := SkipSpace(ParseChars(t[1..]).value.1);
    assert t == [QUOTE] + t[1..];
  }

  lemma {:induction false} EntrySound(s: Text, seen: seq<Member>, num: Text -> Json) returns (e: Entry, u: Text)
    requires ParseMembers(s, seen, num).Some?
    ensures ValidEntry(e) && u != [] && (u[0] == COMMA || u[0] == RBRACE) && s == SpellEntry(e) + u
    ensures var now := Put(seen, MeaningEntry(e, num).key, MeaningEntry(e, num).value);
      ParseMembers(s, seen, num) == if u[0] == COMMA then ParseMembers(u[1..], now, num) else Some((Obj(now), u[1..]))
    decreases |s|, 4
  {
    var before, key, between, c := KeySound(s, num);
    var p;
    p, u := ItemSound(c[1..], num);
    e := Entry(before, key, between, p);
    HeadAndTail(c);
    EntryRegroup(e, u);
  }

  lemma {:induction false} EntriesSound(s: Text, seen: seq<Member>, num: Text -> Json) returns (entries: seq<Entry>)
    requires ParseMembers(s, seen, num).Some?
    ensures var r := ParseMembers(s, seen, num).value;
      && entries != [] && ValidEntries(entries) && s == SpellEntries(entries) + ([RBRACE] + r.1)
      && r.0 == Obj(MeaningEntries(seen, entries, num))
    decreases |s|, 5
  {
    var e, u := EntrySound(s, seen, num);
    var m := MeaningEntry(e, num);
    if u[0] == COMMA {
      var more := EntriesSound(u[1..], Put(seen, m.key, m.value), num);
      entries := [e] + more;
      assert entries[1..] == more;
    } else {
      entries := [e];
      assert entries[1..] == [];
    }
    HeadAndTail(u);
    EntriesRegroup(entries, [RBRACE] + ParseMembers(s, seen, num).value.1);
  }

  lemma {:induction false} HeadAndTail(u: Text)
    requires u != []
    ensures u == [u[0]] + u[1..]
  {
  }

  // The text is one value with white space around it, and the value means v.
  ghost predicate Denotes(t: Text, v: Json, num: Text -> Json) {
    exists p: Padded :: ValidPadded(p) && SpellPadded(p) == t && MeaningPadded(p, num) == v
  }

  /** A text parses to a value exactly when, by the grammar, it is a JSON text for that value. */
  lemma {:induction false} ParseIff(t: Text, v: Json, num: Text -> Json)
    ensures Parse(t, num) == Some(v) <==> Denotes(t, v, num)
  {
    if Parse(t, num) == Some(v) {
      var q, u := ItemSound(t, num);
      assert SpellPadded(q) + [] == SpellPadded(q);
    }
    if p: Padded :| ValidPadded(p) && SpellPadded(p) == t && MeaningPadded(p, num) == v {
      WholeText(p, num);
    }
  }

  lemma {:induction false} WholeText(p: Padded, num: Text -> Json)
    requires ValidPadded(p)
    ensures Parse(SpellPadded(p), num) == Some(MeaningPadded(p, num))
  {
    BlankEnds(p.after, []);
    assert p.after + [] == p.after;
    ValueComplete(p.value, p.after, num);
    ValueSkips(p.before, Spell(p.value) + p.after, num);
    SkipBlank(p.after, []);
  }
}
