/** Python text and bytes: code points (surrogates included), UTF-8, decimal numbers and
    standard base64 (section 4 of RFC 4648). */
module PyText {
  import opened Wrappers

  type CodePoint = c: int | 0 <= c < 0x110000
  type Text = seq<CodePoint>
  type Byte = b: int | 0 <= b < 256
  type Bytes = seq<Byte>

  /** A literal. */
  function T(s: string): (t: Text)
    ensures |t| == |s| && forall i | 0 <= i < |s| :: t[i] == s[i] as int
  {
    seq(|s|, i requires 0 <= i < |s| => s[i] as int)
  }

  function Take<A>(s: seq<A>, n: nat): (r: seq<A>)
    ensures |r| <= n && r <= s
  {
    if |s| <= n then s else s[..n]
  }

  predicate HighSurrogate(c: CodePoint) { 0xD800 <= c < 0xDC00 }

  predicate LowSurrogate(c: CodePoint) { 0xDC00 <= c < 0xE000 }

  // ----- UTF-8 -----

  function Utf8Char(c: CodePoint): (b: Bytes)
    ensures 1 <= |b| <= 4
  {
    if c < 0x80 then [c]
    else if c < 0x800 then [0xC0 + c / 64, 0x80 + c % 64]
    else if c < 0x10000 then [0xE0 + c / 4096, 0x80 + c / 64 % 64, 0x80 + c % 64]
    else [0xF0 + c / 262144, 0x80 + c / 4096 % 64, 0x80 + c / 64 % 64, 0x80 + c % 64]
  }

  /** `str.encode("utf-8")`; None stands for UnicodeEncodeError. */
  function Utf8(t: Text): Option<Bytes> {
    if t == [] then Some([])
    else if HighSurrogate(t[0]) || LowSurrogate(t[0]) then None
    else match Utf8(t[1..])
      case None => None
      case Some(rest) => Some(Utf8Char(t[0]) + rest)
  }

  lemma {:induction false} Utf8Fails(t: Text)
    ensures Utf8(t).None? <==> exists i | 0 <= i < |t| :: HighSurrogate(t[i]) || LowSurrogate(t[i])
  {
    if t != [] {
      Utf8Fails(t[1..]);
      if i :| 0 <= i < |t| && (HighSurrogate(t[i]) || LowSurrogate(t[i])) {
        assert i > 0 ==> t[i] == t[1..][i - 1];
      }
    }
  }

  /** How many bytes the character of this first byte has (section 3 of RFC 3629). */
  function Utf8Length(b: Byte): nat {
    if b < 0x80 then 1 else if b < 0xE0 then 2 else if b < 0xF0 then 3 else 4
  }

  /** Reading UTF-8, where it is what some text was encoded to. */
  function FromUtf8(b: Bytes): seq<int>
    decreases |b|
  {
    if b == [] then []
    else
      var n := Utf8Length(b[0]);
      if |b| < n then []
      else
        [match n
         case 1 => b[0]
         case 2 => (b[0] - 0xC0) * 64 + (b[1] - 0x80)
         case 3 => (b[0] - 0xE0) * 4096 + (b[1] - 0x80) * 64 + (b[2] - 0x80)
         case _ => (b[0] - 0xF0) * 262144 + (b[1] - 0x80) * 4096 + (b[2] - 0x80) * 64 + (b[3] - 0x80)] + FromUtf8(b[n..])
  }

  lemma SixBitGroups(c: CodePoint)
    ensures c == c / 64 * 64 + c % 64
    ensures c == c / 4096 * 4096 + c / 64 % 64 * 64 + c % 64
    ensures c == c / 262144 * 262144 + c / 4096 % 64 * 4096 + c / 64 % 64 * 64 + c % 64
  {
    var d := c / 64;
    var e := d / 64;
    assert d == c / 64 && e == c / 4096 && e / 64 == c / 262144;
  }

  lemma ReadsUtf8Char(c: CodePoint, rest: Bytes)
    requires !HighSurrogate(c) && !LowSurrogate(c)
    ensures FromUtf8(Utf8Char(c) + rest) == [c] + FromUtf8(rest)
  {
    SixBitGroups(c);
    var b := Utf8Char(c) + rest;
    assert b[|Utf8Char(c)|..] == rest;
    assert Utf8Length(b[0]) == |Utf8Char(c)|;
    assert forall i | 0 <= i < |Utf8Char(c)| :: b[i] == Utf8Char(c)[i];
  }

  /** Encoded text is read back as it was. */
  lemma {:induction false} Utf8RoundTrip(t: Text)
    requires Utf8(t).Some?
    ensures FromUtf8(Utf8(t).value) == t
  {
    hide FromUtf8, Utf8Char;
    if t != [] {
      Utf8RoundTrip(t[1..]);
      ReadsUtf8Char(t[0], Utf8(t[1..]).value);
      assert t == [t[0]] + t[1..];
    } else {
      EmptyUtf8();
    }
  }

  lemma EmptyUtf8()
    ensures FromUtf8([]) == []
  {
  }

  // ----- Base64 -----

  function Sym(v: int): CodePoint
    requires 0 <= v < 64
  {
    if v < 26 then 65 + v
    else if v < 52 then 97 + v - 26
    else if v < 62 then 48 + v - 52
    else if v == 62 then 43
    else 47
  }

  function Val(c: CodePoint): (v: int)
    ensures -1 <= v < 64
    ensures v >= 0 ==> Sym(v) == c
  {
    if 65 <= c <= 90 then c - 65
    else if 97 <= c <= 122 then c - 97 + 26
    else if 48 <= c <= 57 then c - 48 + 52
    else if c == 43 then 62
    else if c == 47 then 63
    else -1
  }

  lemma ValSym(v: int)
    requires 0 <= v < 64
    ensures Val(Sym(v)) == v
  {
  }

  const PAD: CodePoint := 61

  predicate Symbols(s: Text) {
    forall i | 0 <= i < |s| :: Val(s[i]) >= 0
  }

  function EncodeThree(x: Byte, y: Byte, z: Byte): (s: Text)
    ensures |s| == 4
  {
    [Sym(x / 4), Sym(x % 4 * 16 + y / 16), Sym(y % 16 * 4 + z / 64), Sym(z % 64)]
  }

  function DecodeFour(p: CodePoint, q: CodePoint, r: CodePoint, s: CodePoint): (b: Bytes)
    requires Symbols([p, q, r, s])
    ensures |b| == 3
  {
    var t := [p, q, r, s];
    [Val(t[0]) * 4 + Val(t[1]) / 16, Val(t[1]) % 16 * 16 + Val(t[2]) / 4, Val(t[2]) % 4 * 64 + Val(t[3])]
  }

  /** Three bytes cut into four groups of six bits, and joined again. */
  lemma SixBits(x: Byte, y: Byte, z: Byte)
    ensures var p, q, r, t := x / 4, x % 4 * 16 + y / 16, y % 16 * 4 + z / 64, z % 64;
            && 0 <= p < 64 && 0 <= q < 64 && 0 <= r < 64 && 0 <= t < 64
            && p * 4 + q / 16 == x && q % 16 * 16 + r / 4 == y && r % 4 * 64 + t == z
  {
    var q, r := x % 4 * 16 + y / 16, y % 16 * 4 + z / 64;
    assert q / 16 == x % 4 && q % 16 == y / 16;
    assert r / 4 == y % 16 && r % 4 == z / 64;
  }

  lemma GroupRoundTrip(x: Byte, y: Byte, z: Byte)
    ensures var s := EncodeThree(x, y, z); Symbols(s) && DecodeFour(s[0], s[1], s[2], s[3]) == [x, y, z]
  {
    SixBits(x, y, z);
    var p, q, r, t := x / 4, x % 4 * 16 + y / 16, y % 16 * 4 + z / 64, z % 64;
    ValSym(p);
    ValSym(q);
    ValSym(r);
    ValSym(t);
    hide Sym, Val;
    assert EncodeThree(x, y, z) == [Sym(p), Sym(q), Sym(r), Sym(t)];
    assert DecodeFour(Sym(p), Sym(q), Sym(r), Sym(t)) == [p * 4 + q / 16, q % 16 * 16 + r / 4, r % 4 * 64 + t];
  }

  /** The symbols of the encoding, without the padding. */
  function EncodeSymbols(b: Bytes): (s: Text)
    ensures |s| == (4 * |b| + 2) / 3
  {
    if |b| == 0 then []
    else if |b| == 1 then [Sym(b[0] / 4), Sym(b[0] % 4 * 16)]
    else if |b| == 2 then [Sym(b[0] / 4), Sym(b[0] % 4 * 16 + b[1] / 16), Sym(b[1] % 16 * 4)]
    else EncodeThree(b[0], b[1], b[2]) + EncodeSymbols(b[3..])
  }

  function Padding(n: nat): (s: Text)
    ensures |s| == n && forall i | 0 <= i < n :: s[i] == PAD
  {
    seq(n, _ => PAD)
  }

  /** `base64.b64encode` */
  function Encode(b: Bytes): Text {
    EncodeSymbols(b) + Padding((3 - |b| % 3) % 3)
  }

  function DecodeSymbols(s: Text): (b: Bytes)
    requires Symbols(s)
    ensures |b| == 3 * |s| / 4
  {
    if |s| <= 1 then []
    else if |s| == 2 then [Val(s[0]) * 4 + Val(s[1]) / 16]
    else if |s| == 3 then [Val(s[0]) * 4 + Val(s[1]) / 16, Val(s[1]) % 16 * 16 + Val(s[2]) / 4]
    else DecodeFour(s[0], s[1], s[2], s[3]) + DecodeSymbols(s[4..])
  }

  /** `value.rstrip("=")` */
  function RStrip(s: Text): (r: Text)
    ensures r <= s && (forall i | |r| <= i < |s| :: s[i] == PAD) && (r != [] ==> r[|r| - 1] != PAD)
  {
    if s != [] && s[|s| - 1] == PAD then RStrip(s[..|s| - 1]) else s
  }

  /** `base64.b64decode(s, validate=True)`: after the last complete group any padding is let
      through, an incomplete group needs exactly its own. None stands for the error. */
  function Decode(s: Text): Option<Bytes> {
    var r := RStrip(s);
    var pads := |s| - |r|;
    if !Symbols(r) then None
    else if (|r| % 4 == 0 && (r != [] || pads == 0)) || (|r| % 4 == 2 && pads == 2) || (|r| % 4 == 3 && pads == 1)
    then Some(DecodeSymbols(r))
    else None
  }

  lemma {:induction false} SymbolsRoundTrip(b: Bytes)
    ensures Symbols(EncodeSymbols(b)) && DecodeSymbols(EncodeSymbols(b)) == b
  {
    hide Sym, Val, EncodeThree, DecodeFour;
    if |b| >= 3 {
      SymbolsRoundTrip(b[3..]);
      GroupRoundTrip(b[0], b[1], b[2]);
      var g, rest := EncodeThree(b[0], b[1], b[2]), EncodeSymbols(b[3..]);
      var s := g + rest;
      assert s[4..] == rest && s[0] == g[0] && s[1] == g[1] && s[2] == g[2] && s[3] == g[3];
      assert Symbols(s);
      assert b == [b[0], b[1], b[2]] + b[3..];
    } else {
      ShortRoundTrip(b);
    }
  }

  lemma {:induction false} ShortRoundTrip(b: Bytes)
    requires |b| < 3
    ensures Symbols(EncodeSymbols(b)) && DecodeSymbols(EncodeSymbols(b)) == b
  {
    if |b| == 1 {
      LastByteRoundTrip(b[0]);
      hide Sym, Val, EncodeSymbols, DecodeSymbols;
      assert b == [b[0]];
    } else if |b| == 2 {
      LastTwoRoundTrip(b[0], b[1]);
      hide Sym, Val, EncodeSymbols, DecodeSymbols;
      assert b == [b[0], b[1]];
    }
  }

  lemma LastByteRoundTrip(x: Byte)
    ensures Symbols(EncodeSymbols([x])) && DecodeSymbols(EncodeSymbols([x])) == [x]
  {
    SixBits(x, 0, 0);
    var p, q := x / 4, x % 4 * 16;
    ValSym(p);
    ValSym(q);
    hide Sym, Val;
    assert EncodeSymbols([x]) == [Sym(p), Sym(q)];
    assert DecodeSymbols([Sym(p), Sym(q)]) == [p * 4 + q / 16];
  }

  lemma LastTwoRoundTrip(x: Byte, y: Byte)
    ensures Symbols(EncodeSymbols([x, y])) && DecodeSymbols(EncodeSymbols([x, y])) == [x, y]
  {
    SixBits(x, y, 0);
    var p, q, r := x / 4, x % 4 * 16 + y / 16, y % 16 * 4;
    ValSym(p);
    ValSym(q);
    ValSym(r);
    hide Sym, Val;
    assert EncodeSymbols([x, y]) == [Sym(p), Sym(q), Sym(r)];
    assert DecodeSymbols([Sym(p), Sym(q), Sym(r)]) == [p * 4 + q / 16, q % 16 * 16 + r / 4];
  }

  lemma {:induction false} RStripOf(s: Text, n: nat)
    requires s != [] ==> s[|s| - 1] != PAD
    ensures RStrip(s + Padding(n)) == s
  {
    var t := s + Padding(n);
    if n == 0 {
      assert t == s;
    } else {
      assert t[..|t| - 1] == s + Padding(n - 1);
      RStripOf(s, n - 1);
    }
  }

  lemma FullGroups(n: nat)
    ensures var k, pads := (4 * n + 2) / 3, (3 - n % 3) % 3;
            && k + pads == 4 * ((n + 2) / 3)
            && ((k % 4 == 0 && pads == 0) || (k % 4 == 2 && pads == 2) || (k % 4 == 3 && pads == 1))
  {
    var m := n / 3;
    if n % 3 == 0 {
      assert n == 3 * m;
    } else if n % 3 == 1 {
      assert n == 3 * m + 1;
    } else {
      assert n == 3 * m + 2;
    }
  }

  /** Decoding undoes encoding, and the encoding has four characters for every three bytes begun. */
  lemma {:induction false} Base64RoundTrip(b: Bytes)
    ensures Decode(Encode(b)) == Some(b)
    ensures |Encode(b)| == 4 * ((|b| + 2) / 3)
  {
    hide EncodeSymbols, DecodeSymbols, RStrip;
    var s := EncodeSymbols(b);
    SymbolsRoundTrip(b);
    assert s != [] ==> Val(s[|s| - 1]) >= 0;
    assert Val(PAD) == -1;
    hide Sym, Val;
    RStripOf(s, (3 - |b| % 3) % 3);
    FullGroups(|b|);
  }

  /** `_decoded_b64_size`: length arithmetic instead of decoding. */
  function DecodedSize(s: Text): nat {
    |RStrip(s)| * 3 / 4
  }

  /** The arithmetic is exact for every string the decoder accepts. */
  lemma DecodedSizeIsExact(s: Text)
    requires Decode(s).Some?
    ensures |Decode(s).value| == DecodedSize(s)
  {
  }

  /** A padded string in the sense of the standard. */
  predicate WellFormed(s: Text) {
    && |s| % 4 == 0 && |s| - |RStrip(s)| <= 2 && Symbols(RStrip(s))
    && (RStrip(s) == [] ==> s == [])
  }

  lemma WellFormedIsAccepted(s: Text)
    requires WellFormed(s)
    ensures Decode(s).Some? && DecodedSize(s) == 3 * (|s| / 4) - (|s| - |RStrip(s)|)
  {
  }

  /** What the decoder accepts: symbols of the alphabet, then padding, none or any amount of it after complete
      groups, and exactly what is missing after an incomplete one. */
  ghost predicate Decodable(s: Text) {
    exists n: nat | n <= |s| :: DecodableAt(s, n)
  }

  predicate DecodableAt(s: Text, n: nat)
    requires n <= |s|
  {
    && (forall i | 0 <= i < n :: Val(s[i]) >= 0) && (forall i | n <= i < |s| :: s[i] == PAD)
    && match n % 4
       case 0 => n > 0 || |s| == 0
       case 2 => |s| == n + 2
       case 3 => |s| == n + 1
       case _ => false
  }

  lemma {:induction false} StripsAt(s: Text, n: nat)
    requires n <= |s| && (forall i | 0 <= i < n :: Val(s[i]) >= 0) && forall i | n <= i < |s| :: s[i] == PAD
    ensures RStrip(s) == s[..n]
    decreases |s|
  {
    assert Val(PAD) == -1;
    if n < |s| {
      StripsAt(s[..|s| - 1], n);
      assert s[..|s| - 1][..n] == s[..n];
    } else {
      assert s[..n] == s;
    }
  }

  lemma DecodesIff(s: Text)
    ensures Decode(s).Some? <==> Decodable(s)
  {
    var r := RStrip(s);
    hide Val, RStrip;
    if Decode(s).Some? {
      assert forall i | 0 <= i < |r| :: s[i] == r[i];
      assert DecodableAt(s, |r|);
    }
    if n: nat :| n <= |s| && DecodableAt(s, n) {
      StripsAt(s, n);
    }
  }

  // ----- Decimal numbers -----

  function ValueOf(digits: Text): int {
    if digits == [] then 0 else ValueOf(digits[..|digits| - 1]) * 10 + (digits[|digits| - 1] as int) - 48
  }

  function Digits(n: nat): (t: Text)
    ensures |t| >= 1 && forall i | 0 <= i < |t| :: 48 <= t[i] <= 57
  {
    if n < 10 then [48 + n] else Digits(n / 10) + [48 + n % 10]
  }

  lemma {:induction false} DigitsInjective(m: nat, n: nat)
    requires Digits(m) == Digits(n)
    ensures m == n
    decreases m
  {
    var s, t := Digits(m), Digits(n);
    assert s[|s| - 1] == 48 + m % 10 && t[|t| - 1] == 48 + n % 10;
    if m >= 10 {
      assert |s| >= 2;
      assert Digits(m / 10) == s[..|s| - 1] && Digits(n / 10) == t[..|t| - 1];
      DigitsInjective(m / 10, n / 10);
    }
  }

  /** The digits have the value of the number, and none is a leading zero. */
  lemma {:induction false} DigitsDenote(n: nat)
    ensures ValueOf(Digits(n)) == n && (Digits(n)[0] == 48 <==> n == 0)
    decreases n
  {
    if n >= 10 {
      DigitsDenote(n / 10);
      assert Digits(n)[..|Digits(n)| - 1] == Digits(n / 10);
    } else {
      assert Digits(n)[..0] == [];
    }
  }
}
