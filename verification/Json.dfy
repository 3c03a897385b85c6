/**
 The canonical JSON text of tools/cloud-candidate-receipt.ts and the JSON.parse it is read back with
 (RFC 8259).  A JavaScript string is a sequence of UTF-16 code units, lone surrogates included.
 A finite number is represented by the text JSON.stringify prints for it; `num` is the conversion
 from a number token to that value and stays uninterpreted (`NumberReader` is all that is asked of it).
 */
module Json {
  import opened Wrappers

  type Unit = x: int | 0 <= x < 0x1_0000
  type Text = seq<Unit>

  datatype Json =
    | Null
    | Bool(b: bool)
    | Num(text: Text)
    | Infinite(negative: bool)  // JSON.parse("1e999") is Infinity, and JSON.stringify(Infinity) is null
    | Str(s: Text)
    | Arr(items: seq<Json>)
    | Obj(members: seq<Member>)

  // Members are listed in the order Object.keys would give; `Wf` asks for distinct keys.
  datatype Member = Member(key: Text, value: Json)

  const TAB: Unit := 0x09
  const LF: Unit := 0x0A
  const CR: Unit := 0x0D
  const SPACE: Unit := 0x20
  const QUOTE: Unit := 0x22
  const PLUS: Unit := 0x2B
  const COMMA: Unit := 0x2C
  const MINUS: Unit := 0x2D
  const DOT: Unit := 0x2E
  const SLASH: Unit := 0x2F
  const ZERO: Unit := 0x30
  const COLON: Unit := 0x3A
  const LBRACKET: Unit := 0x5B
  const BACKSLASH: Unit := 0x5C
  const RBRACKET: Unit := 0x5D
  const LBRACE: Unit := 0x7B
  const RBRACE: Unit := 0x7D
  const NULL_TEXT: Text := [0x6E, 0x75, 0x6C, 0x6C]
  const TRUE_TEXT: Text := [0x74, 0x72, 0x75, 0x65]
  const FALSE_TEXT: Text := [0x66, 0x61, 0x6C, 0x73, 0x65]

  /******* Strings *******/

  predicate IsHigh(c: Unit) { 0xD800 <= c < 0xDC00 }
  predicate IsLow(c: Unit) { 0xDC00 <= c < 0xE000 }

  function HexDigit(n: int): Unit
    requires 0 <= n < 16
  {
    if n < 10 then 0x30 + n else 0x57 + n
  }

  function FromHex(a: int, b: int, c: int, d: int): Unit
    requires 0 <= a < 16 && 0 <= b < 16 && 0 <= c < 16 && 0 <= d < 16
  {
    a * 4096 + b * 256 + c * 16 + d
  }

  function HexValue(c: Unit): (r: Option<int>)
    ensures r.Some? ==> 0 <= r.value < 16
  {
    if 0x30 <= c <= 0x39 then Some(c - 0x30)
    else if 0x61 <= c <= 0x66 then Some(c - 0x57)
    else if 0x41 <= c <= 0x46 then Some(c - 0x37)
    else None
  }

  function UnicodeEscape(c: Unit): Text {
    [BACKSLASH, 0x75, HexDigit(c / 4096), HexDigit(c / 256 % 16), HexDigit(c / 16 % 16), HexDigit(c % 16)]
  }

  // One code unit of a JSON.stringify string, surrogate pairs aside.
  function EscapeUnit(c: Unit): Text {
    if c == QUOTE || c == BACKSLASH then [BACKSLASH, c]
    else if c == 0x08 then [BACKSLASH, 0x62]
    else if c == TAB then [BACKSLASH, 0x74]
    else if c == LF then [BACKSLASH, 0x6E]
    else if c == 0x0C then [BACKSLASH, 0x66]
    else if c == CR then [BACKSLASH, 0x72]
    else if c < 0x20 || IsHigh(c) || IsLow(c) then UnicodeEscape(c)
    else [c]
  }

  function Escape(s: Text): Text {
    if s == [] then []
    else if IsHigh(s[0]) && |s| > 1 && IsLow(s[1]) then s[..2] + Escape(s[2..])
    else EscapeUnit(s[0]) + Escape(s[1..])
  }

  function StringText(s: Text): Text {
    [QUOTE] + Escape(s) + [QUOTE]
  }

  // The body of a string literal, from after the opening quote to after the closing one.
  function ParseChars(s: Text): (r: Option<(Text, Text)>)
    ensures r.Some? ==> |r.value.1| < |s|
  {
    if s == [] || s[0] < 0x20 then None
    else if s[0] == QUOTE then Some(([], s[1..]))
    else if s[0] != BACKSLASH then PrependUnit(s[0], ParseChars(s[1..]))
    else if |s| < 2 then None
    else if s[1] == 0x75 then
      if |s| < 6 then None else
      match (HexValue(s[2]), HexValue(s[3]), HexValue(s[4]), HexValue(s[5]))
      case (Some(a), Some(b), Some(c), Some(d)) =>
        PrependUnit(FromHex(a, b, c, d), ParseChars(s[6..]))
      case _ => None
    else match Unescape(s[1])
      case Some(c) => PrependUnit(c, ParseChars(s[2..]))
      case None => None
  }

  function Unescape(c: Unit): Option<Unit> {
    if c == QUOTE || c == BACKSLASH || c == SLASH then Some(c)
    else if c == 0x62 then Some(0x08)
    else if c == 0x74 then Some(TAB)
    else if c == 0x6E then Some(LF)
    else if c == 0x66 then Some(0x0C)
    else if c == 0x72 then Some(CR)
    else None
  }

  function PrependUnit(c: Unit, r: Option<(Text, Text)>): Option<(Text, Text)> {
    match r case None => None case Some(p) => Some(([c] + p.0, p.1))
  }

  lemma {:induction false} ParsePlainUnit(c: Unit, more: Text)
    requires c >= 0x20 && c != QUOTE && c != BACKSLASH
    ensures ParseChars([c] + more) == PrependUnit(c, ParseChars(more))
  {
    assert ([c] + more)[1..] == more;
  }

  lemma {:induction false} ParseShortEscape(e: Unit, c: Unit, more: Text)
    requires Unescape(e) == Some(c)
    ensures ParseChars([BACKSLASH, e] + more) == PrependUnit(c, ParseChars(more))
  {
    assert ([BACKSLASH, e] + more)[2..] == more;
  }

  lemma {:induction false} HexRoundTrip(n: int)
    requires 0 <= n < 16
    ensures HexValue(HexDigit(n)) == Some(n)
  {
  }

  lemma {:induction false} HexDigitsOf(c: Unit)
    ensures c / 4096 < 16
    ensures c == c / 4096 * 4096 + c / 256 % 16 * 256 + c / 16 % 16 * 16 + c % 16
  {
    var x := c / 16;
    var y := x / 16;
    assert c == x * 16 + c % 16 && x == y * 16 + x % 16 && y == y / 16 * 16 + y % 16;
    assert y == c / 256 && y / 16 == c / 4096;
  }

  lemma {:induction false} ParseUnicodeEscape(c: Unit, more: Text)
    ensures ParseChars(UnicodeEscape(c) + more) == PrependUnit(c, ParseChars(more))
  {
    var whole := UnicodeEscape(c) + more;
    HexDigitsOf(c);
    var a, b, d, e := c / 4096, c / 256 % 16, c / 16 % 16, c % 16;
    HexRoundTrip(a);
    HexRoundTrip(b);
    HexRoundTrip(d);
    HexRoundTrip(e);
    assert whole[6..] == more;
    assert whole[0] == BACKSLASH && whole[1] == 0x75;
    assert whole[2] == HexDigit(a) && whole[3] == HexDigit(b) && whole[4] == HexDigit(d) && whole[5] == HexDigit(e);
  }

  lemma {:induction false} ParseEscapedUnit(c: Unit, more: Text)
    ensures ParseChars(EscapeUnit(c) + more) == PrependUnit(c, ParseChars(more))
  {
    if EscapeUnit(c) == [c] {
      ParsePlainUnit(c, more);
    } else if EscapeUnit(c) == UnicodeEscape(c) {
      ParseUnicodeEscape(c, more);
    } else {
      ParseShortEscape(EscapeUnit(c)[1], c, more);
      assert EscapeUnit(c) == [BACKSLASH, EscapeUnit(c)[1]];
    }
  }

  lemma {:induction false} Regroup(a: Text, b: Text, c: Text)
    ensures a + b + c == a + (b + c)
  {
  }

  lemma {:induction false} ParseEscapedStep(c: Unit, e: Text, s: Text, rest: Text)
    requires ParseChars(e + ([QUOTE] + rest)) == Some((s, rest))
    ensures ParseChars(EscapeUnit(c) + e + ([QUOTE] + rest)) == Some(([c] + s, rest))
  {
    var more := e + ([QUOTE] + rest);
    ParseEscapedUnit(c, more);
    Regroup(EscapeUnit(c), e, [QUOTE] + rest);
  }

  lemma {:induction false} ParsePairStep(h: Unit, l: Unit, e: Text, s: Text, rest: Text)
    requires IsHigh(h) && IsLow(l)
    requires ParseChars(e + ([QUOTE] + rest)) == Some((s, rest))
    ensures ParseChars([h, l] + e + ([QUOTE] + rest)) == Some(([h, l] + s, rest))
  {
    var more := e + ([QUOTE] + rest);
    PlainPair(h, l, more, s, rest);
    PairRegroup(h, l, e, [QUOTE] + rest);
    PairRegroup(h, l, s, []);
    assert [h, l] + s + [] == [h, l] + s && s + [] == s;
  }

  lemma {:induction false} PairRegroup(h: Unit, l: Unit, a: Text, b: Text)
    ensures [h, l] + a + b == [h] + ([l] + (a + b))
  {
  }

  lemma {:induction false} PlainPair(h: Unit, l: Unit, more: Text, s: Text, rest: Text)
    requires IsHigh(h) && IsLow(l) && ParseChars(more) == Some((s, rest))
    ensures ParseChars([h] + ([l] + more)) == Some(([h] + ([l] + s), rest))
  {
    var inner := [l] + more;
    ParsePlainUnit(l, more);
    ParsePlainUnit(h, inner);
  }

  /** Reading an escaped string back gives the string, whatever follows it. */
  lemma {:induction false} ParseEscaped(s: Text, rest: Text)
    ensures ParseChars(Escape(s) + ([QUOTE] + rest)) == Some((s, rest))
  {
    if s == [] {
      assert Escape(s) + ([QUOTE] + rest) == [QUOTE] + rest;
    } else if IsHigh(s[0]) && |s| > 1 && IsLow(s[1]) {
      ParseEscaped(s[2..], rest);
      ParsePairStep(s[0], s[1], Escape(s[2..]), s[2..], rest);
      SplitPair(s);
    } else {
      ParseEscaped(s[1..], rest);
      ParseEscapedStep(s[0], Escape(s[1..]), s[1..], rest);
      assert s == [s[0]] + s[1..];
    }
  }

  lemma {:induction false} SplitPair(s: Text)
    requires |s| > 1
    ensures s[..2] == [s[0], s[1]] && s == [s[0], s[1]] + s[2..]
  {
  }

  /******* Member order *******/

  predicate LexLess(a: Text, b: Text) {
    b != [] && (a == [] || a[0] < b[0] || (a[0] == b[0] && LexLess(a[1..], b[1..])))
  }

  lemma {:induction false} LexTotal(a: Text, b: Text)
    ensures a == b || LexLess(a, b) || LexLess(b, a)
    ensures !(LexLess(a, b) && LexLess(b, a))
    ensures !LexLess(a, a)
  {
    if a != [] {
      LexTotal(a[1..], a[1..]);
    }
    if a != [] && b != [] && a[0] == b[0] {
      LexTotal(a[1..], b[1..]);
      if a[1..] == b[1..] {
        assert a == [a[0]] + a[1..] && b == [b[0]] + b[1..];
      }
    }
  }

  lemma {:induction false} LexTransitive(a: Text, b: Text, c: Text)
    requires LexLess(a, b) && LexLess(b, c)
    ensures LexLess(a, c)
  {
    if a != [] && a[0] == b[0] && b[0] == c[0] {
      LexTransitive(a[1..], b[1..], c[1..]);
    }
  }

  function Size(v: Json): nat
    decreases v, 1
  {
    match v
    case Arr(items) => 1 + ItemsSize(items)
    case Obj(members) => 1 + MembersSize(members)
    case _ => 1
  }

  function ItemsSize(items: seq<Json>): nat
    decreases items, 0
  {
    if items == [] then 0 else 1 + Size(items[0]) + ItemsSize(items[1..])
  }

  function MembersSize(ms: seq<Member>): nat
    decreases ms, 0
  {
    if ms == [] then 0 else 1 + Size(ms[0].value) + MembersSize(ms[1..])
  }

  function Insert(m: Member, ms: seq<Member>): (r: seq<Member>)
    ensures MembersSize(r) == 1 + Size(m.value) + MembersSize(ms)
    ensures multiset(r) == multiset(ms) + multiset{m}
    ensures |r| == |ms| + 1
  {
    if ms == [] || !LexLess(ms[0].key, m.key) then
      var r := [m] + ms;
      assert r[1..] == ms;
      r
    else
      var t := Insert(m, ms[1..]);
      var r := [ms[0]] + t;
      assert r[1..] == t;
      assert ms == [ms[0]] + ms[1..];
      r
  }

  // Object.keys(value).sort(), carried by whole members.
  function SortMembers(ms: seq<Member>): (r: seq<Member>)
    ensures MembersSize(r) == MembersSize(ms)
    ensures multiset(r) == multiset(ms)
    ensures |r| == |ms|
  {
    if ms == [] then []
    else
      assert ms == [ms[0]] + ms[1..];
      Insert(ms[0], SortMembers(ms[1..]))
  }

  ghost predicate DistinctKeys(ms: seq<Member>) {
    forall i, j :: 0 <= i < j < |ms| ==> ms[i].key != ms[j].key
  }

  ghost predicate SortedKeys(ms: seq<Member>) {
    forall i, j :: 0 <= i < j < |ms| ==> LexLess(ms[i].key, ms[j].key)
  }

  lemma {:induction false} InsertFrom(m: Member, ms: seq<Member>, i: nat)
    requires i < |Insert(m, ms)|
    ensures Insert(m, ms)[i] == m || exists j :: 0 <= j < |ms| && ms[j] == Insert(m, ms)[i]
  {
    var r := Insert(m, ms);
    assert r[i] in multiset(r);
    assert r[i] == m || r[i] in multiset(ms);
    if r[i] != m {
      assert r[i] in ms;
    }
  }

  lemma {:induction false} InsertSorted(m: Member, ms: seq<Member>)
    requires SortedKeys(ms)
    requires forall i :: 0 <= i < |ms| ==> ms[i].key != m.key
    ensures SortedKeys(Insert(m, ms))
  {
    if ms != [] {
      LexTotal(ms[0].key, m.key);
      if !LexLess(ms[0].key, m.key) {
        InsertAtFront(m, ms);
      } else {
        InsertSorted(m, ms[1..]);
        InsertBehind(m, ms);
      }
    }
  }

  lemma {:induction false} InsertAtFront(m: Member, ms: seq<Member>)
    requires SortedKeys(ms) && ms != [] && LexLess(m.key, ms[0].key)
    ensures SortedKeys([m] + ms)
  {
    forall i | 0 <= i < |ms| ensures LexLess(m.key, ms[i].key) {
      if i > 0 { LexTransitive(m.key, ms[0].key, ms[i].key); }
    }
  }

  lemma {:induction false} InsertBehind(m: Member, ms: seq<Member>)
    requires SortedKeys(ms) && ms != [] && LexLess(ms[0].key, m.key)
    requires SortedKeys(Insert(m, ms[1..]))
    ensures SortedKeys([ms[0]] + Insert(m, ms[1..]))
  {
    var t := Insert(m, ms[1..]);
    forall i | 0 <= i < |t| ensures LexLess(ms[0].key, t[i].key) {
      InsertFrom(m, ms[1..], i);
      if t[i] != m {
        var j :| 0 <= j < |ms[1..]| && ms[1..][j] == t[i];
        assert ms[j + 1] == t[i];
      }
    }
  }

  lemma {:induction false} SortSorted(ms: seq<Member>)
    requires DistinctKeys(ms)
    ensures SortedKeys(SortMembers(ms))
  {
    if ms != [] {
      SortSorted(ms[1..]);
      var t := SortMembers(ms[1..]);
      forall i | 0 <= i < |t| ensures t[i].key != ms[0].key {
        assert t[i] in multiset(t);
        var j :| 0 <= j < |ms[1..]| && ms[1..][j] == t[i];
        assert ms[j + 1] == t[i];
      }
      InsertSorted(ms[0], t);
    }
  }

  // Sorting keeps exactly the same members, each as often.
  lemma {:induction false} SortKeepsMembers(ms: seq<Member>)
    ensures multiset(SortMembers(ms)) == multiset(ms)
    ensures forall m :: m in SortMembers(ms) <==> m in ms
  {
    forall m ensures m in SortMembers(ms) <==> m in ms {
      assert m in SortMembers(ms) <==> m in multiset(SortMembers(ms));
      assert m in ms <==> m in multiset(ms);
    }
  }

  lemma {:induction false} SortedPlace(ms: seq<Member>, i: nat) returns (k: nat)
    requires i < |ms|
    ensures k < |ms| && SortMembers(ms)[k] == ms[i]
  {
    SortKeepsMembers(ms);
    assert ms[i] in SortMembers(ms);
    k :| 0 <= k < |SortMembers(ms)| && SortMembers(ms)[k] == ms[i];
  }

  lemma {:induction false} UnsortedPlace(ms: seq<Member>, k: nat) returns (i: nat)
    requires k < |ms|
    ensures i < |ms| && ms[i] == SortMembers(ms)[k]
  {
    SortKeepsMembers(ms);
    assert SortMembers(ms)[k] in ms;
    i :| 0 <= i < |ms| && ms[i] == SortMembers(ms)[k];
  }

  lemma {:induction false} SortOfSorted(ms: seq<Member>)
    requires SortedKeys(ms)
    ensures SortMembers(ms) == ms
  {
    if ms != [] {
      SortOfSorted(ms[1..]);
      if |ms| > 1 {
        LexTotal(ms[0].key, ms[1].key);
      }
      assert ms == [ms[0]] + ms[1..];
    }
  }

  /******* Canonical text *******/

  function Canonical(v: Json): Text
    decreases Size(v), 0
  {
    match v
    case Null => NULL_TEXT
    case Bool(b) => if b then TRUE_TEXT else FALSE_TEXT
    case Num(t) => t
    case Infinite(_) => NULL_TEXT
    case Str(s) => StringText(s)
    case Arr(items) => [LBRACKET] + CanonicalItems(items) + [RBRACKET]
    case Obj(ms) => [LBRACE] + CanonicalMembers(SortMembers(ms)) + [RBRACE]
  }

  function CanonicalItems(items: seq<Json>): Text
    decreases ItemsSize(items)
  {
    if items == [] then []
    else if |items| == 1 then Canonical(items[0])
    else Canonical(items[0]) + [COMMA] + CanonicalItems(items[1..])
  }

  function MemberText(m: Member): Text
    decreases Size(m.value), 1
  {
    StringText(m.key) + [COLON] + Canonical(m.value)
  }

  function CanonicalMembers(ms: seq<Member>): Text
    decreases MembersSize(ms), 1
  {
    if ms == [] then []
    else if |ms| == 1 then MemberText(ms[0])
    else MemberText(ms[0]) + [COMMA] + CanonicalMembers(ms[1..])
  }

  // The value the canonical text denotes: members in key order, non-finite numbers turned to null.
  function Normal(v: Json): Json
    decreases Size(v)
  {
    match v
    case Infinite(_) => Null
    case Arr(items) => Arr(NormalItems(items))
    case Obj(ms) => Obj(NormalMembers(SortMembers(ms)))
    case _ => v
  }

  function NormalItems(items: seq<Json>): (r: seq<Json>)
    ensures |r| == |items|
    decreases ItemsSize(items)
  {
    if items == [] then [] else [Normal(items[0])] + NormalItems(items[1..])
  }

  function NormalMembers(ms: seq<Member>): (r: seq<Member>)
    ensures |r| == |ms|
    decreases MembersSize(ms)
  {
    if ms == [] then [] else [Member(ms[0].key, Normal(ms[0].value))] + NormalMembers(ms[1..])
  }

  lemma {:induction false} NormalItemsAt(items: seq<Json>, i: nat)
    requires i < |items|
    ensures NormalItems(items)[i] == Normal(items[i])
    ensures Size(items[i]) < ItemsSize(items)
  {
    if i > 0 { NormalItemsAt(items[1..], i - 1); }
  }

  lemma {:induction false} NormalMembersAt(ms: seq<Member>, i: nat)
    requires i < |ms|
    ensures NormalMembers(ms)[i] == Member(ms[i].key, Normal(ms[i].value))
    ensures Size(ms[i].value) < MembersSize(ms)
  {
    if i > 0 { NormalMembersAt(ms[1..], i - 1); }
  }

  /******* Numbers *******/

  predicate IsDigit(c: Unit) { 0x30 <= c <= 0x39 }

  predicate NumberChar(c: Unit) {
    IsDigit(c) || c == PLUS || c == MINUS || c == DOT || c == 0x65 || c == 0x45
  }

  function DigitRun(s: Text): (n: nat)
    ensures n <= |s|
  {
    if s == [] || !IsDigit(s[0]) then 0 else 1 + DigitRun(s[1..])
  }

  // "number" of RFC 8259 section 6.
  predicate IsNumberToken(t: Text) {
    && (forall i :: 0 <= i < |t| ==> NumberChar(t[i]))
    && var u := if t != [] && t[0] == MINUS then t[1..] else t;
    && var n := DigitRun(u);
    && n > 0
    && (u[0] == ZERO ==> n == 1)
    && IsFractionTail(u[n..])
  }

  predicate IsFractionTail(s: Text) {
    if s != [] && s[0] == DOT then
      var n := DigitRun(s[1..]);
      n > 0 && IsExponentTail(s[1 + n..])
    else IsExponentTail(s)
  }

  predicate IsExponentTail(s: Text) {
    s == [] ||
    ((s[0] == 0x65 || s[0] == 0x45) &&
     var d := if |s| > 1 && (s[1] == PLUS || s[1] == MINUS) then s[2..] else s[1..];
     d != [] && DigitRun(d) == |d|)
  }

  function NumberRun(s: Text): (n: nat)
    ensures n <= |s|
    ensures forall i :: 0 <= i < n ==> NumberChar(s[i])
  {
    if s == [] || !NumberChar(s[0]) then 0 else 1 + NumberRun(s[1..])
  }

  // What the text-to-double conversion is relied on for: a token reads as a number that prints as a
  // token reading as the same number, or overflows to an infinity.
  ghost predicate ReadsBack(num: Text -> Json, t: Text) {
    IsNumberToken(t) ==>
      num(t).Infinite? || (num(t).Num? && IsNumberToken(num(t).text) && num(num(t).text) == num(t))
  }

  ghost predicate NumberReader(num: Text -> Json) {
    forall t :: ReadsBack(num, t)
  }

  // A number ends where a character that cannot continue it stands.
  predicate Terminated(rest: Text) { rest == [] || !NumberChar(rest[0]) }

  lemma {:induction false} NumberRunOf(t: Text, rest: Text)
    requires forall i :: 0 <= i < |t| ==> NumberChar(t[i])
    requires Terminated(rest)
    ensures NumberRun(t + rest) == |t|
  {
    if t == [] {
      assert t + rest == rest;
    } else {
      assert (t + rest)[1..] == t[1..] + rest;
      NumberRunOf(t[1..], rest);
    }
  }

  /******* JSON.parse *******/

  predicate IsSpace(c: Unit) { c == SPACE || c == TAB || c == LF || c == CR }

  function SkipSpace(s: Text): (r: Text)
    ensures |r| <= |s|
    ensures r == [] || !IsSpace(r[0])
  {
    if s != [] && IsSpace(s[0]) then SkipSpace(s[1..]) else s
  }

  function ParseValue(s: Text, num: Text -> Json): (r: Option<(Json, Text)>)
    ensures r.Some? ==> |r.value.1| < |s|
    decreases |s|, 0
  {
    var t := SkipSpace(s);
    if t == [] then None
    else if t[0] == QUOTE then
      match ParseChars(t[1..])
      case Some(p) => Some((Str(p.0), p.1))
      case None => None
    else if t[0] == LBRACE then
      var u := SkipSpace(t[1..]);
      if u != [] && u[0] == RBRACE then Some((Obj([]), u[1..])) else ParseMembers(u, [], num)
    else if t[0] == LBRACKET then
      var u := SkipSpace(t[1..]);
      if u != [] && u[0] == RBRACKET then Some((Arr([]), u[1..])) else ParseItems(u, [], num)
    else if NULL_TEXT <= t then Some((Null, t[4..]))
    else if TRUE_TEXT <= t then Some((Bool(true), t[4..]))
    else if FALSE_TEXT <= t then Some((Bool(false), t[5..]))
    else
      var n := NumberRun(t);
      if n > 0 && IsNumberToken(t[..n]) then Some((num(t[..n]), t[n..])) else None
  }

  function ParseItems(s: Text, seen: seq<Json>, num: Text -> Json): (r: Option<(Json, Text)>)
    ensures r.Some? ==> |r.value.1| < |s|
    decreases |s|, 1
  {
    match ParseValue(s, num)
    case None => None
    case Some(p) =>
      var u := SkipSpace(p.1);
      if u != [] && u[0] == COMMA then ParseItems(u[1..], seen + [p.0], num)
      else if u != [] && u[0] == RBRACKET then Some((Arr(seen + [p.0]), u[1..]))
      else None
  }

  function ParseMembers(s: Text, seen: seq<Member>, num: Text -> Json): (r: Option<(Json, Text)>)
    ensures r.Some? ==> |r.value.1| < |s|
    decreases |s|, 1
  {
    var t := SkipSpace(s);
    if t == [] || t[0] != QUOTE then None else
    match ParseChars(t[1..])
    case None => None
    case Some(k) =>
      var c := SkipSpace(k.1);
      if c == [] || c[0] != COLON then None else
      match ParseValue(c[1..], num)
      case None => None
      case Some(p) =>
        var u := SkipSpace(p.1);
        var now := Put(seen, k.0, p.0);
        if u != [] && u[0] == COMMA then ParseMembers(u[1..], now, num)
        else if u != [] && u[0] == RBRACE then Some((Obj(now), u[1..]))
        else None
  }

  // A repeated member name replaces the earlier value.
  function Put(ms: seq<Member>, k: Text, v: Json): seq<Member> {
    if ms == [] then [Member(k, v)]
    else if ms[0].key == k then [Member(k, v)] + ms[1..]
    else [ms[0]] + Put(ms[1..], k, v)
  }

  function Parse(s: Text, num: Text -> Json): Option<Json> {
    match ParseValue(s, num)
    case Some(p) => if SkipSpace(p.1) == [] then Some(p.0) else None
    case None => None
  }

  /******* Well-formed values *******/

  ghost predicate Wf(v: Json, num: Text -> Json)
    decreases v, 0
  {
    match v
    case Num(t) => IsNumberToken(t) && num(t) == v
    case Arr(items) => forall i :: 0 <= i < |items| ==> Wf(items[i], num)
    case Obj(ms) => DistinctKeys(ms) && forall i :: 0 <= i < |ms| ==> Wf(ms[i].value, num)
    case _ => true
  }

  ghost predicate WfMembers(ms: seq<Member>, num: Text -> Json) {
    DistinctKeys(ms) && forall i :: 0 <= i < |ms| ==> Wf(ms[i].value, num)
  }

  lemma {:induction false} PutFresh(ms: seq<Member>, k: Text, v: Json)
    requires forall i :: 0 <= i < |ms| ==> ms[i].key != k
    ensures Put(ms, k, v) == ms + [Member(k, v)]
  {
    if ms != [] {
      PutFresh(ms[1..], k, v);
      assert ms == [ms[0]] + ms[1..];
    }
  }

  lemma {:induction false} PutWf(ms: seq<Member>, k: Text, v: Json, num: Text -> Json)
    requires WfMembers(ms, num) && Wf(v, num)
    ensures WfMembers(Put(ms, k, v), num)
  {
    if ms != [] && ms[0].key != k {
      var t := Put(ms[1..], k, v);
      PutWf(ms[1..], k, v, num);
      forall i | 0 <= i < |t| ensures t[i].key != ms[0].key {
        PutKeys(ms[1..], k, v, i);
        if t[i].key != k {
          var j :| 0 <= j < |ms[1..]| && ms[1..][j].key == t[i].key;
          assert ms[0].key != ms[j + 1].key;
        }
      }
      ConsWf(ms[0], t, num);
    }
  }

  lemma {:induction false} ConsWf(m: Member, t: seq<Member>, num: Text -> Json)
    requires WfMembers(t, num) && Wf(m.value, num) && forall i :: 0 <= i < |t| ==> t[i].key != m.key
    ensures WfMembers([m] + t, num)
  {
  }

  lemma {:induction false} PutKeys(ms: seq<Member>, k: Text, v: Json, i: nat)
    requires i < |Put(ms, k, v)|
    ensures Put(ms, k, v)[i].key == k || exists j :: 0 <= j < |ms| && ms[j].key == Put(ms, k, v)[i].key
  {
    if ms != [] {
      if ms[0].key == k {
        assert i > 0 ==> Put(ms, k, v)[i] == ms[i];
      } else if i == 0 {
        assert Put(ms, k, v)[0] == ms[0];
      } else {
        PutKeys(ms[1..], k, v, i - 1);
        if Put(ms, k, v)[i].key != k {
          var j :| 0 <= j < |ms[1..]| && ms[1..][j].key == Put(ms[1..], k, v)[i - 1].key;
          assert ms[j + 1].key == Put(ms, k, v)[i].key;
        }
      }
    }
  }

  // JSON.parse only builds well-formed values.
  lemma {:induction false} ParseValueWf(s: Text, num: Text -> Json)
    requires NumberReader(num)
    ensures ParseValue(s, num).Some? ==> Wf(ParseValue(s, num).value.0, num)
    decreases |s|, 0
  {
    var t := SkipSpace(s);
    if t != [] && t[0] == LBRACE {
      var u := SkipSpace(t[1..]);
      ParseMembersWf(u, [], num);
    } else if t != [] && t[0] == LBRACKET {
      var u := SkipSpace(t[1..]);
      ParseItemsWf(u, [], num);
    } else {
      assert ReadsBack(num, t[..NumberRun(t)]);
    }
  }

  lemma {:induction false} ParseItemsWf(s: Text, seen: seq<Json>, num: Text -> Json)
    requires NumberReader(num)
    requires forall i :: 0 <= i < |seen| ==> Wf(seen[i], num)
    ensures ParseItems(s, seen, num).Some? ==> Wf(ParseItems(s, seen, num).value.0, num)
    decreases |s|, 1
  {
    ParseValueWf(s, num);
    var v := ParseValue(s, num);
    if v.Some? {
      var u := SkipSpace(v.value.1);
      if u != [] && u[0] == COMMA {
        ParseItemsWf(u[1..], seen + [v.value.0], num);
      }
    }
  }

  lemma {:induction false} ParseMembersWf(s: Text, seen: seq<Member>, num: Text -> Json)
    requires NumberReader(num)
    requires WfMembers(seen, num)
    ensures ParseMembers(s, seen, num).Some? ==> Wf(ParseMembers(s, seen, num).value.0, num)
    decreases |s|, 1
  {
    var t := SkipSpace(s);
    if t != [] && t[0] == QUOTE && ParseChars(t[1..]).Some? {
      var k := ParseChars(t[1..]).value;
      var c := SkipSpace(k.1);
      if c != [] && c[0] == COLON {
        ParseValueWf(c[1..], num);
        var v := ParseValue(c[1..], num);
        if v.Some? {
          PutWf(seen, k.0, v.value.0, num);
          var u := SkipSpace(v.value.1);
          if u != [] && u[0] == COMMA {
            ParseMembersWf(u[1..], Put(seen, k.0, v.value.0), num);
          }
        }
      }
    }
  }

  lemma {:induction false} ParseWf(s: Text, num: Text -> Json)
    requires NumberReader(num)
    ensures Parse(s, num).Some? ==> Wf(Parse(s, num).value, num)
  {
    ParseValueWf(s, num);
  }
}
