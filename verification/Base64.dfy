/**
 The base64 gate of decodeCandidateReceipt: a syntax check followed by "decoding and encoding again
 gives the same text" (RFC 4648, sections 4 and 3.5).
 */
module Base64 {
  import opened Json

  type Byte = x: int | 0 <= x < 256
  const PAD: Unit := 0x3D

  // The alphabet of section 4 of RFC 4648.
  function Symbol(n: int): Unit
    requires 0 <= n < 64
  {
    if n < 26 then 0x41 + n
    else if n < 52 then 0x61 + (n - 26)
    else if n < 62 then 0x30 + (n - 52)
    else if n == 62 then 0x2B
    else 0x2F
  }

  function SymbolValue(c: Unit): (n: int)
    ensures -1 <= n < 64
  {
    if 0x41 <= c <= 0x5A then c - 0x41
    else if 0x61 <= c <= 0x7A then c - 0x61 + 26
    else if 0x30 <= c <= 0x39 then c - 0x30 + 52
    else if c == 0x2B then 62
    else if c == 0x2F then 63
    else -1
  }

  predicate InAlphabet(c: Unit) { SymbolValue(c) >= 0 }

  lemma {:induction false} SymbolInverse(n: int)
    requires 0 <= n < 64
    ensures SymbolValue(Symbol(n)) == n && Symbol(n) != PAD
  {
  }

  lemma {:induction false} ValueInverse(c: Unit)
    requires InAlphabet(c)
    ensures Symbol(SymbolValue(c)) == c
  {
  }

  // Buffer.toString("base64").
  function Encode(b: seq<Byte>): Text {
    if b == [] then []
    else if |b| == 1 then [Symbol(b[0] / 4), Symbol(b[0] % 4 * 16), PAD, PAD]
    else if |b| == 2 then [Symbol(b[0] / 4), Symbol(b[0] % 4 * 16 + b[1] / 16), Symbol(b[1] % 16 * 4), PAD]
    else [Symbol(b[0] / 4), Symbol(b[0] % 4 * 16 + b[1] / 16), Symbol(b[1] % 16 * 4 + b[2] / 64), Symbol(b[2] % 64)]
         + Encode(b[3..])
  }

  // ^(?:[A-Za-z0-9+/]{4})*(?:[A-Za-z0-9+/]{2}==|[A-Za-z0-9+/]{3}=)?$
  predicate Shaped(s: Text) {
    s == [] ||
    (|s| >= 4 && InAlphabet(s[0]) && InAlphabet(s[1]) &&
     if |s| == 4 && s[3] == PAD then s[2] == PAD || InAlphabet(s[2])
     else InAlphabet(s[2]) && InAlphabet(s[3]) && Shaped(s[4..]))
  }

  // Buffer.from(s, "base64") on a shaped text; bits that do not fill a byte are dropped.
  function Decode(s: Text): seq<Byte>
    requires Shaped(s)
  {
    if s == [] then []
    else
      var a, b := SymbolValue(s[0]), SymbolValue(s[1]);
      if s[2] == PAD then [a * 4 + b / 16]
      else
        var c := SymbolValue(s[2]);
        if s[3] == PAD then [a * 4 + b / 16, b % 16 * 16 + c / 4]
        else [a * 4 + b / 16, b % 16 * 16 + c / 4, c % 4 * 64 + SymbolValue(s[3])] + Decode(s[4..])
  }

  // Section 3.5 of RFC 4648: the bits left over in the last symbol before the padding are zero.
  predicate ZeroPadBits(s: Text)
    requires Shaped(s)
  {
    s == [] ||
    if s[2] == PAD then SymbolValue(s[1]) % 16 == 0
    else if s[3] == PAD then SymbolValue(s[2]) % 4 == 0
    else ZeroPadBits(s[4..])
  }

  predicate Gate(s: Text) {
    s != [] && Shaped(s) && Encode(Decode(s)) == s
  }

  lemma {:induction false} TripleInverse(x: int, y: int, z: int)
    requires 0 <= x < 256 && 0 <= y < 256 && 0 <= z < 256
    ensures var a, b, c, d := x / 4, x % 4 * 16 + y / 16, y % 16 * 4 + z / 64, z % 64;
      a * 4 + b / 16 == x && b % 16 * 16 + c / 4 == y && c % 4 * 64 + d == z
  {
  }

  lemma {:induction false} QuadInverse(a: int, b: int, c: int, d: int)
    requires 0 <= a < 64 && 0 <= b < 64 && 0 <= c < 64 && 0 <= d < 64
    ensures var x, y, z := a * 4 + b / 16, b % 16 * 16 + c / 4, c % 4 * 64 + d;
      x / 4 == a && x % 4 * 16 + y / 16 == b && y % 16 * 4 + z / 64 == c && z % 64 == d
  {
  }

  lemma {:induction false} EncodedQuad(a: int, b: int, c: int, d: int, rest: Text)
    requires 0 <= a < 64 && 0 <= b < 64 && 0 <= c < 64 && 0 <= d < 64 && Shaped(rest)
    ensures var s := [Symbol(a), Symbol(b), Symbol(c), Symbol(d)] + rest;
      Shaped(s) && Decode(s) == [a * 4 + b / 16, b % 16 * 16 + c / 4, c % 4 * 64 + d] + Decode(rest)
  {
    var s := [Symbol(a), Symbol(b), Symbol(c), Symbol(d)] + rest;
    SymbolInverse(a);
    SymbolInverse(b);
    SymbolInverse(c);
    SymbolInverse(d);
    assert s[4..] == rest;
  }

  lemma {:induction false} EncodedTail(b: seq<Byte>)
    requires 1 <= |b| <= 2
    ensures Shaped(Encode(b)) && Decode(Encode(b)) == b
  {
    var last := if |b| == 1 then 0 else b[1];
    SymbolInverse(b[0] / 4);
    SymbolInverse(b[0] % 4 * 16 + last / 16);
    SymbolInverse(last % 16 * 4);
    TripleInverse(b[0], last, 0);
    assert b == if |b| == 1 then [b[0]] else [b[0], b[1]];
  }

  lemma {:induction false} DecodeEncodeTriple(x: Byte, y: Byte, z: Byte, rest: Text)
    requires Shaped(rest)
    ensures var s := [Symbol(x / 4), Symbol(x % 4 * 16 + y / 16), Symbol(y % 16 * 4 + z / 64), Symbol(z % 64)] + rest;
      Shaped(s) && Decode(s) == [x, y, z] + Decode(rest)
  {
    TripleInverse(x, y, z);
    EncodedQuad(x / 4, x % 4 * 16 + y / 16, y % 16 * 4 + z / 64, z % 64, rest);
  }

  /** Every byte string comes back from its encoding. */
  lemma {:induction false} DecodeEncode(b: seq<Byte>)
    ensures Shaped(Encode(b)) && Decode(Encode(b)) == b
  {
    if 1 <= |b| <= 2 {
      EncodedTail(b);
    } else if |b| >= 3 {
      DecodeEncode(b[3..]);
      DecodeEncodeFull(b[0], b[1], b[2], b[3..]);
      assert b == [b[0], b[1], b[2]] + b[3..];
    }
  }

  lemma {:induction false} DecodeEncodeFull(x: Byte, y: Byte, z: Byte, rest: seq<Byte>)
    requires Shaped(Encode(rest)) && Decode(Encode(rest)) == rest
    ensures var b := [x, y, z] + rest; Shaped(Encode(b)) && Decode(Encode(b)) == b
  {
    EncodeTriple(x, y, z, rest);
    DecodeEncodeTriple(x, y, z, Encode(rest));
  }

  lemma {:induction false} EncodeTriple(x: Byte, y: Byte, z: Byte, rest: seq<Byte>)
    ensures Encode([x, y, z] + rest)
         == [Symbol(x / 4), Symbol(x % 4 * 16 + y / 16), Symbol(y % 16 * 4 + z / 64), Symbol(z % 64)] + Encode(rest)
  {
    assert ([x, y, z] + rest)[3..] == rest;
  }

  lemma {:induction false} EncodeQuad(a: int, b: int, c: int, d: int, rest: seq<Byte>)
    requires 0 <= a < 64 && 0 <= b < 64 && 0 <= c < 64 && 0 <= d < 64
    ensures Encode([a * 4 + b / 16, b % 16 * 16 + c / 4, c % 4 * 64 + d] + rest)
         == [Symbol(a), Symbol(b), Symbol(c), Symbol(d)] + Encode(rest)
  {
    QuadInverse(a, b, c, d);
    EncodeTriple(a * 4 + b / 16, b % 16 * 16 + c / 4, c % 4 * 64 + d, rest);
  }

  lemma {:induction false} QuadRoundTrip(a: int, b: int, c: int, d: int, rest: Text)
    requires 0 <= a < 64 && 0 <= b < 64 && 0 <= c < 64 && 0 <= d < 64 && Shaped(rest)
    ensures var q := [Symbol(a), Symbol(b), Symbol(c), Symbol(d)];
      Shaped(q + rest) && Encode(Decode(q + rest)) == q + Encode(Decode(rest))
  {
    EncodedQuad(a, b, c, d, rest);
    EncodeQuad(a, b, c, d, Decode(rest));
  }

  lemma {:induction false} QuadSymbols(s: Text)
    requires |s| >= 4 && InAlphabet(s[0]) && InAlphabet(s[1]) && InAlphabet(s[2]) && InAlphabet(s[3])
    ensures s ==
      [ Symbol(SymbolValue(s[0])), Symbol(SymbolValue(s[1])), Symbol(SymbolValue(s[2])), Symbol(SymbolValue(s[3]))
      ] + s[4..]
  {
    ValueInverse(s[0]);
    ValueInverse(s[1]);
    ValueInverse(s[2]);
    ValueInverse(s[3]);
  }

  lemma {:induction false} EncodeDecodeFull(s: Text)
    requires Shaped(s) && |s| >= 4 && s[2] != PAD && s[3] != PAD
    ensures Encode(Decode(s)) == s[..4] + Encode(Decode(s[4..]))
  {
    QuadSymbols(s);
    QuadRoundTrip(SymbolValue(s[0]), SymbolValue(s[1]), SymbolValue(s[2]), SymbolValue(s[3]), s[4..]);
  }

  lemma {:induction false} PadTwo(a: int, b: int)
    requires 0 <= a < 64 && 0 <= b < 64
    ensures var x := a * 4 + b / 16; x / 4 == a && x % 4 * 16 == b / 16 * 16
    ensures b / 16 * 16 == b <==> b % 16 == 0
  {
  }

  lemma {:induction false} PadOne(a: int, b: int, c: int)
    requires 0 <= a < 64 && 0 <= b < 64 && 0 <= c < 64
    ensures var x, y := a * 4 + b / 16, b % 16 * 16 + c / 4;
      x / 4 == a && x % 4 * 16 + y / 16 == b && y % 16 * 4 == c / 4 * 4
    ensures c / 4 * 4 == c <==> c % 4 == 0
  {
  }

  lemma {:induction false} EncodeDecodeTwoPads(s: Text)
    requires Shaped(s) && |s| == 4 && s[2] == PAD
    ensures Encode(Decode(s)) == s <==> ZeroPadBits(s)
  {
    var a, b := SymbolValue(s[0]), SymbolValue(s[1]);
    ValueInverse(s[0]);
    ValueInverse(s[1]);
    PadTwo(a, b);
    SymbolInverse(b / 16 * 16);
    assert Decode(s) == [a * 4 + b / 16];
    assert Encode(Decode(s)) == [s[0], Symbol(b / 16 * 16), PAD, PAD];
    assert s == [s[0], s[1], PAD, PAD];
  }

  lemma {:induction false} EncodeDecodeOnePad(s: Text)
    requires Shaped(s) && |s| == 4 && s[2] != PAD && s[3] == PAD
    ensures Encode(Decode(s)) == s <==> ZeroPadBits(s)
  {
    var a, b, c := SymbolValue(s[0]), SymbolValue(s[1]), SymbolValue(s[2]);
    ValueInverse(s[0]);
    ValueInverse(s[1]);
    ValueInverse(s[2]);
    PadOne(a, b, c);
    SymbolInverse(c / 4 * 4);
    assert Decode(s) == [a * 4 + b / 16, b % 16 * 16 + c / 4];
    assert Encode(Decode(s)) == [s[0], s[1], Symbol(c / 4 * 4), PAD];
    assert s == [s[0], s[1], s[2], PAD];
  }

  lemma {:induction false} EncodeDecodeIff(s: Text)
    requires Shaped(s)
    ensures Encode(Decode(s)) == s <==> ZeroPadBits(s)
  {
    if s != [] {
      if s[2] == PAD {
        EncodeDecodeTwoPads(s);
      } else if s[3] == PAD {
        EncodeDecodeOnePad(s);
      } else {
        EncodeDecodeIff(s[4..]);
        EncodeDecodeFull(s);
        assert s == s[..4] + s[4..];
        assert (s[..4] + Encode(Decode(s[4..])))[4..] == Encode(Decode(s[4..]));
      }
    }
  }

  /** The gate passes exactly the encodings of non-empty byte strings: shaped texts whose pad bits are zero. */
  lemma {:induction false} GateIff(s: Text)
    ensures Gate(s) <==> exists b :: b != [] && s == Encode(b)
    ensures Gate(s) <==> s != [] && Shaped(s) && ZeroPadBits(s)
  {
    if Gate(s) {
      assert Decode(s) != [] && s == Encode(Decode(s));
    }
    if b :| b != [] && s == Encode(b) {
      DecodeEncode(b);
    }
    if Shaped(s) {
      EncodeDecodeIff(s);
    }
  }

  /** Distinct texts that pass decode to distinct bytes. */
  lemma {:induction false} GateIsInjective(s: Text, t: Text)
    requires Gate(s) && Gate(t) && s != t
    ensures Decode(s) != Decode(t)
  {
    assert s == Encode(Decode(s)) && t == Encode(Decode(t));
  }
}
