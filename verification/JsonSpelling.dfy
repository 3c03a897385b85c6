/** How canonical JSON is spelled: no white space, names in order, every unit of a string as short as it can be. */
module JsonSpelling {
  import opened Wrappers
  import opened Json
  import opened JsonRoundTrip
  import opened JsonGrammar

  /******* Strings *******/

  predicate Surrogate(c: Unit) { 0xD800 <= c < 0xE000 }

  predicate LowerDigit(c: Unit) { 0x30 <= c <= 0x39 || 0x61 <= c <= 0x66 }

  // How a unit is written: the shortest way, and a control character without a letter or a surrogate on its own by its
  // number in lower case.
  function PieceOf(c: Unit): Piece {
    if c == 0x22 then Short(0) else if c == 0x5C then Short(1) else if c == 0x08 then Short(3)
    else if c == 0x0C then Short(4) else if c == 0x0A then Short(5) else if c == 0x0D then Short(6)
    else if c == 0x09 then Short(7)
    else if c < 0x20 || Surrogate(c) then HexPiece(c)
    else Plain(c)
  }

  function HexPiece(c: Unit): Piece {
    Hex(HexDigit(c / 4096), HexDigit(c / 256 % 16), HexDigit(c / 16 % 16), HexDigit(c % 16))
  }

  lemma {:induction false} LowerNibble(n: nat)
    requires n < 16
    ensures LowerDigit(HexDigit(n)) && IsHex(HexDigit(n)) && Nibble(HexDigit(n)) == n
  {
  }

  lemma {:induction false} HexUnit(c: Unit)
    ensures var p := HexPiece(c);
      && p.Valid() && p.Reading() == c && p.Spelling() == UnicodeEscape(c)
      && LowerDigit(p.a) && LowerDigit(p.b) && LowerDigit(p.c) && LowerDigit(p.d)
  {
    HexDigitsOf(c);
    LowerNibble(c / 4096);
    LowerNibble(c / 256 % 16);
    LowerNibble(c / 16 % 16);
    LowerNibble(c % 16);
  }

  lemma {:induction false} UnitWritten(c: Unit)
    ensures var p := PieceOf(c); p.Valid() && p.Reading() == c && p.Spelling() == EscapeUnit(c)
  {
    if PieceOf(c).Short? {
      ShortUnit(c);
    } else if PieceOf(c).Hex? {
      HexUnit(c);
      HexWritten(c);
    }
  }

  lemma {:induction false} ShortUnit(c: Unit)
    requires PieceOf(c).Short?
    ensures var p := PieceOf(c); p.Valid() && p.Reading() == c && p.Spelling() == EscapeUnit(c)
  {
  }

  lemma {:induction false} HexWritten(c: Unit)
    requires PieceOf(c).Hex?
    ensures EscapeUnit(c) == UnicodeEscape(c) && PieceOf(c) == HexPiece(c)
  {
  }

  predicate LowerHex(p: Piece) {
    p.Hex? && LowerDigit(p.a) && LowerDigit(p.b) && LowerDigit(p.c) && LowerDigit(p.d)
  }

  /** No unit but a lone surrogate has a shorter spelling than it is written by; numbers are in lower case. */
  lemma {:induction false} UnitIsShortest(c: Unit, q: Piece)
    requires q.Valid() && q.Reading() == c
    ensures if Surrogate(c) then LowerHex(PieceOf(c)) else |EscapeUnit(c)| <= |q.Spelling()|
    ensures PieceOf(c).Hex? ==> LowerHex(PieceOf(c))
  {
    UnitWritten(c);
    HexUnit(c);
    if q.Short? { assert c in [0x22, 0x5C, 0x2F, 0x08, 0x0C, 0x0A, 0x0D, 0x09]; }
  }

  // The pieces of a string as it is written: pairs of surrogates as they are, every other unit on its own.
  function Pieces(s: Text): seq<Piece> {
    if s == [] then []
    else if |s| > 1 && 0xD800 <= s[0] < 0xDC00 && 0xDC00 <= s[1] < 0xE000 then
      [Plain(s[0])] + ([Plain(s[1])] + Pieces(s[2..]))
    else [PieceOf(s[0])] + Pieces(s[1..])
  }

  lemma {:induction false} Prepended(p: Piece, more: seq<Piece>)
    requires p.Valid() && AllValid(more)
    ensures AllValid([p] + more) && Spelled([p] + more) == p.Spelling() + Spelled(more)
    ensures Read([p] + more) == [p.Reading()] + Read(more)
  {
    assert ([p] + more)[1..] == more;
  }

  lemma {:induction false} StringWritten(s: Text)
    ensures AllValid(Pieces(s)) && Spelled(Pieces(s)) == Escape(s) && Read(Pieces(s)) == s
  {
    if s == [] {
    } else if |s| > 1 && IsHigh(s[0]) && IsLow(s[1]) {
      StringWritten(s[2..]);
      Prepended(Plain(s[1]), Pieces(s[2..]));
      Prepended(Plain(s[0]), [Plain(s[1])] + Pieces(s[2..]));
      assert s[..2] + Escape(s[2..]) == [s[0]] + ([s[1]] + Escape(s[2..]));
      assert s == [s[0]] + ([s[1]] + s[2..]);
    } else {
      StringWritten(s[1..]);
      UnitWritten(s[0]);
      Prepended(PieceOf(s[0]), Pieces(s[1..]));
      assert s == [s[0]] + s[1..];
    }
  }

  /******* Trees *******/

  // No white space anywhere, strings as short as they can be, and the names of a record in order.
  predicate Tight(y: Syntax)
    requires Valid(y)
    decreases y, 0
  {
    match y
    case Word(_) => true
    case Numeral(_) => true
    case Quoted(ps) => ps == Pieces(Read(ps))
    case List(items, gap) => gap == [] && TightItems(items)
    case Record(entries, gap) => gap == [] && TightEntries(entries) && InOrder(entries)
  }

  predicate TightPadded(p: Padded)
    requires ValidPadded(p)
    decreases p, 0
  {
    p.before == [] && p.after == [] && Tight(p.value)
  }

  predicate TightItems(items: seq<Padded>)
    requires ValidItems(items)
    decreases items, 1
  {
    items == [] || (TightPadded(items[0]) && TightItems(items[1..]))
  }

  predicate TightEntry(e: Entry)
    requires ValidEntry(e)
    decreases e, 0
  {
    e.before == [] && e.between == [] && e.key == Pieces(Read(e.key)) && TightPadded(e.value)
  }

  predicate TightEntries(entries: seq<Entry>)
    requires ValidEntries(entries)
    decreases entries, 1
  {
    entries == [] || (TightEntry(entries[0]) && TightEntries(entries[1..]))
  }

  function Name(e: Entry): Text
    requires ValidEntry(e)
  {
    Read(e.key)
  }

  // Each name comes before the next one.
  predicate InOrder(entries: seq<Entry>)
    requires ValidEntries(entries)
    decreases entries, 0
  {
    |entries| < 2 || (Before(entries[0], entries[1..]) && InOrder(entries[1..]))
  }

  predicate Before(e: Entry, more: seq<Entry>)
    requires ValidEntry(e) && more != [] && ValidEntries(more)
  {
    LexLess(Name(e), Name(more[0]))
  }

  lemma {:induction false} StringTree(s: Text) returns (y: Syntax)
    ensures Valid(y) && Tight(y) && Spell(y) == StringText(s)
  {
    StringWritten(s);
    y := Quoted(Pieces(s));
    assert [0x22] + (Escape(s) + [0x22]) == [QUOTE] + Escape(s) + [QUOTE];
  }

  /** The canonical text of a value is the spelling of a tree without white space. */
  lemma {:induction false} CanonicalTree(v: Json, num: Text -> Json) returns (y: Syntax)
    requires Wf(v, num)
    ensures Valid(y) && Tight(y) && Spell(y) == Canonical(v)
    decreases Size(v), 0
  {
    match v
    case Null => y := Word(Null);
    case Infinite(_) => y := Word(Null);
    case Bool(b) => y := Word(Bool(b));
    case Num(t) =>
      var n := TokenIsSpelled(t);
      y := Numeral(n);
    case Str(s) => y := StringTree(s);
    case Arr(items) =>
      var trees := ItemTrees(items, num);
      y := List(trees, []);
      Between(LBRACKET, CanonicalItems(items), RBRACKET);
    case Obj(ms) =>
      SortedWf(ms, num);
      SortSorted(ms);
      var entries := MemberTrees(SortMembers(ms), num);
      y := Record(entries, []);
      Between(LBRACE, CanonicalMembers(SortMembers(ms)), RBRACE);
  }

  lemma {:induction false} Between(open: Unit, inner: Text, close: Unit)
    ensures [open] + (inner + [close]) == [open] + inner + [close]
  {
  }

  lemma {:induction false} ItemTrees(items: seq<Json>, num: Text -> Json) returns (trees: seq<Padded>)
    requires forall i :: 0 <= i < |items| ==> Wf(items[i], num)
    ensures ValidItems(trees) && TightItems(trees) && |trees| == |items|
    ensures items != [] ==> SpellItems(trees) == CanonicalItems(items)
    decreases ItemsSize(items), 1
  {
    trees := [];
    if items != [] {
      var y := CanonicalTree(items[0], num);
      var more := ItemTrees(items[1..], num);
      trees := [Padded([], y, [])] + more;
      assert trees[1..] == more;
      BareSpelled(y);
      if |items| > 1 { ListSpelled(Canonical(items[0]), CanonicalItems(items[1..])); }
    }
  }

  lemma {:induction false} BareSpelled(y: Syntax)
    requires Valid(y)
    ensures ValidPadded(Padded([], y, [])) && SpellPadded(Padded([], y, [])) == Spell(y)
  {
    assert [] + (Spell(y) + []) == Spell(y);
  }

  lemma {:induction false} ListSpelled(a: Text, b: Text)
    ensures a + ([0x2C] + b) == a + [COMMA] + b
  {
  }

  lemma {:induction false} MemberTree(m: Member, num: Text -> Json) returns (e: Entry)
    requires Wf(m.value, num)
    ensures ValidEntry(e) && TightEntry(e) && Read(e.key) == m.key && SpellEntry(e) == MemberText(m)
    decreases Size(m.value), 1
  {
    var y := CanonicalTree(m.value, num);
    StringWritten(m.key);
    BareSpelled(y);
    e := Entry([], Pieces(m.key), [], Padded([], y, []));
    MemberSpelled(Escape(m.key), Canonical(m.value));
  }

  lemma {:induction false} MemberSpelled(k: Text, v: Text)
    ensures [] + ([0x22] + (k + ([0x22] + ([] + ([0x3A] + v))))) == [QUOTE] + k + [QUOTE] + [COLON] + v
  {
    assert [] + ([0x3A] + v) == [0x3A] + v;
    assert ([QUOTE] + k + [QUOTE]) + ([COLON] + v) == [QUOTE] + (k + ([QUOTE] + ([COLON] + v)));
  }

  lemma {:induction false} MemberTrees(ms: seq<Member>, num: Text -> Json) returns (entries: seq<Entry>)
    requires WfMembers(ms, num) && SortedKeys(ms)
    ensures ValidEntries(entries) && TightEntries(entries) && |entries| == |ms| && InOrder(entries)
    ensures ms != [] ==> Name(entries[0]) == ms[0].key
    ensures ms != [] ==> SpellEntries(entries) == CanonicalMembers(ms)
    decreases MembersSize(ms), 1
  {
    entries := [];
    if ms != [] {
      WfTail(ms, num);
      var e := MemberTree(ms[0], num);
      var more := MemberTrees(ms[1..], num);
      entries := [e] + more;
      assert entries[1..] == more;
      if |ms| > 1 { ListSpelled(MemberText(ms[0]), CanonicalMembers(ms[1..])); }
    }
  }

  // y spells the text without white space, and means v.
  ghost predicate Writes(y: Syntax, t: Text, v: Json, num: Text -> Json) {
    Valid(y) && Tight(y) && Spell(y) == t && Meaning(y, num) == v
  }

  /**
   The canonical text of a value is the one JSON text of it, members sorted, that has no white space and spells every
   unit as short as it can be.
   */
  lemma {:induction false} CanonicalIsTight(v: Json, num: Text -> Json)
    requires Wf(v, num)
    ensures exists y: Syntax :: Writes(y, Canonical(v), Normal(v), num)
  {
    var y := CanonicalTree(v, num);
    BareSpelled(y);
    WholeText(Padded([], y, []), num);
    ParseCanonical(v, num);
    assert Writes(y, Canonical(v), Normal(v), num);
  }

  // The first k units agree, and then a ends or has the smaller unit.
  predicate BeforeAt(a: Text, b: Text, k: nat) {
    && k <= |a| && k < |b| && a[..k] == b[..k] && (k == |a| || a[k] < b[k])
  }

  /** The order of names is that of their units: by the first that differs, and a beginning before the whole. */
  lemma {:induction false} LexIff(a: Text, b: Text)
    ensures LexLess(a, b) <==> exists k: nat :: BeforeAt(a, b, k)
  {
    if LexLess(a, b) {
      if a == [] || a[0] < b[0] {
        assert BeforeAt(a, b, 0);
      } else {
        LexIff(a[1..], b[1..]);
        var k: nat :| BeforeAt(a[1..], b[1..], k);
        assert a[..k + 1] == [a[0]] + a[1..][..k] && b[..k + 1] == [b[0]] + b[1..][..k];
        assert BeforeAt(a, b, k + 1);
      }
    }
    if k: nat :| BeforeAt(a, b, k) {
      if k > 0 {
        assert a[0] == a[..k][0] == b[..k][0] == b[0];
        assert a[1..][..k - 1] == a[..k][1..] && b[1..][..k - 1] == b[..k][1..];
        assert BeforeAt(a[1..], b[1..], k - 1);
        LexIff(a[1..], b[1..]);
      }
    }
  }
}
