/** The captured output of a run, from the program's writes to the text a client of the broker receives:
    bounded buffers and JSON escapes (sandbox/runner.py), the final cut and the response
    (backend/app/sandbox_broker.py). */
module Streams {
  import opened PyText
  import opened Filenames
  import opened Artifacts
  import opened Wrappers

  const MAX_STREAM_CHARS := 200_000
  const MAX_RESULT_CHARS := 200_000

  // ----- The bounded buffer -----

  datatype Buffer = Buffer(text: Text, truncated: bool)

  function WriteTo(b: Buffer, limit: nat, value: Text): Buffer {
    var remaining := if limit > |b.text| then limit - |b.text| else 0;
    Buffer(b.text + Take(value, remaining), b.truncated || |value| > remaining)
  }

  /** `written` is everything the program wrote. */
  class BoundedTextIO {
    const limit: nat
    var text: Text
    var truncated: bool
    ghost var written: Text

    function View(): Buffer
      reads this
    {
      Buffer(text, truncated)
    }

    ghost predicate Valid()
      reads this
    {
      text == Take(written, limit) && (truncated <==> |written| > limit)
    }

    constructor (limit: nat)
      ensures Valid() && this.limit == limit && written == [] && View() == Buffer([], false)
    {
      this.limit, text, truncated, written := limit, [], false, [];
    }

    method Write(value: Text) returns (count: nat)
      requires Valid()
      modifies this
      ensures Valid() && written == old(written) + value && count == |value|
      ensures View() == WriteTo(old(View()), limit, value)
    {
      TakeOfSum(written, value, limit);
      var remaining := if limit - |text| > 0 then limit - |text| else 0;
      if |value| > remaining {
        truncated := true;
      }
      if remaining > 0 {
        text := text + if |value| <= remaining then value else value[..remaining];
      }
      written := written + value;
      count := |value|;
    }

    /** The first `limit` characters of all that was written, and the marker exactly when there
        were more. */
    method BoundedValue(marker: Text) returns (r: Text)
      requires Valid()
      ensures r == Take(written, limit) + if |written| > limit then marker else []
    {
      r := text + if truncated then marker else [];
    }
  }

  function Bounded(b: Buffer, marker: Text): Text {
    b.text + if b.truncated then marker else []
  }

  function Concat(writes: seq<Text>): Text {
    if writes == [] then [] else Concat(writes[..|writes| - 1]) + writes[|writes| - 1]
  }

  function AfterWrites(writes: seq<Text>, limit: nat): Buffer {
    if writes == [] then Buffer([], false)
    else WriteTo(AfterWrites(writes[..|writes| - 1], limit), limit, writes[|writes| - 1])
  }

  /** However the output was cut into writes, the buffer holds the first `limit` characters of all
      of it and knows whether there were more. */
  lemma {:induction false} BufferHoldsThePrefix(writes: seq<Text>, limit: nat)
    ensures AfterWrites(writes, limit) == Buffer(Take(Concat(writes), limit), |Concat(writes)| > limit)
  {
    if writes != [] {
      var before, last := writes[..|writes| - 1], writes[|writes| - 1];
      BufferHoldsThePrefix(before, limit);
      TakeOfSum(Concat(before), last, limit);
    }
  }

  lemma TakeOfSum(a: Text, b: Text, n: nat)
    ensures Take(a + b, n) == Take(a, n) + Take(b, n - |Take(a, n)|)
  {
  }

  /** `_emit` cuts a second time. */
  function EmitCut(s: Text, marker: Text): Text {
    if |s| > MAX_STREAM_CHARS then s[..MAX_STREAM_CHARS] + marker else s
  }

  /** The second cut changes nothing. */
  lemma EmitCutChangesNothing(writes: seq<Text>, marker: Text)
    ensures var v := Bounded(AfterWrites(writes, MAX_STREAM_CHARS), marker); EmitCut(v, marker) == v
  {
    BufferHoldsThePrefix(writes, MAX_STREAM_CHARS);
    hide AfterWrites, Concat;
    var b := AfterWrites(writes, MAX_STREAM_CHARS);
    if b.truncated {
      assert (b.text + marker)[..MAX_STREAM_CHARS] == b.text;
    }
  }

  // ----- JSON strings (section 7 of RFC 8259) -----

  function Hex(d: int): Byte
    requires 0 <= d < 16
  {
    if d < 10 then 48 + d else 87 + d
  }

  function HexVal(c: Byte): (d: int)
    ensures -1 <= d < 16
  {
    if 48 <= c <= 57 then c - 48
    else if 97 <= c <= 102 then c - 87
    else if 65 <= c <= 70 then c - 55
    else -1
  }

  const BACK: Byte := 92
  const QUOTE: Byte := 34
  const LETTER_U: Byte := 117

  /** A six-byte escape. */
  function U(c: int): (b: Bytes)
    requires 0 <= c < 0x10000
    ensures |b| == 6
  {
    [BACK, LETTER_U, Hex(c / 4096), Hex(c / 256 % 16), Hex(c / 16 % 16), Hex(c % 16)]
  }

  /** The value of a six-byte escape at the front, or -1. */
  function ReadU(s: Bytes): (c: int)
    ensures -1 <= c < 0x10000
    ensures c >= 0 ==> |s| >= 6
  {
    if |s| < 6 || s[0] != BACK || s[1] != LETTER_U then -1
    else
      var a, b, c, d := HexVal(s[2]), HexVal(s[3]), HexVal(s[4]), HexVal(s[5]);
      if a < 0 || b < 0 || c < 0 || d < 0 then -1 else a * 4096 + b * 256 + c * 16 + d
  }

  lemma HexRoundTrip(d: int)
    requires 0 <= d < 16
    ensures HexVal(Hex(d)) == d
  {
  }

  lemma FourDigits(c: int)
    requires 0 <= c < 0x10000
    ensures 0 <= c / 4096 < 16 && c == c / 4096 * 4096 + c / 256 % 16 * 256 + c / 16 % 16 * 16 + c % 16
  {
    var q, e := c / 16, c % 16;
    var r, d := q / 16, q % 16;
    var a, b := r / 16, r % 16;
    assert c == 256 * r + (16 * d + e) && c == 4096 * a + (256 * b + 16 * d + e);
    assert c / 256 == r && c / 4096 == a;
  }

  lemma ReadUOfU(c: int, rest: Bytes)
    requires 0 <= c < 0x10000
    ensures ReadU(U(c) + rest) == c
  {
    FourDigits(c);
    var a, b, d, e := c / 4096, c / 256 % 16, c / 16 % 16, c % 16;
    HexRoundTrip(a);
    HexRoundTrip(b);
    HexRoundTrip(d);
    HexRoundTrip(e);
    assert U(c) == [BACK, LETTER_U, Hex(a), Hex(b), Hex(d), Hex(e)];
    ReadDigits(a, b, d, e, rest);
  }

  lemma ReadDigits(a: int, b: int, d: int, e: int, rest: Bytes)
    requires 0 <= a < 16 && 0 <= b < 16 && 0 <= d < 16 && 0 <= e < 16
    ensures ReadU([BACK, LETTER_U, Hex(a), Hex(b), Hex(d), Hex(e)] + rest) == a * 4096 + b * 256 + d * 16 + e
  {
    HexRoundTrip(a);
    HexRoundTrip(b);
    HexRoundTrip(d);
    HexRoundTrip(e);
    hide Hex, HexVal;
    var s := [BACK, LETTER_U, Hex(a), Hex(b), Hex(d), Hex(e)] + rest;
    assert s[0] == BACK && s[1] == LETTER_U && s[2] == Hex(a) && s[3] == Hex(b) && s[4] == Hex(d) && s[5] == Hex(e);
  }

  /** The letter of a two-character escape, or 0. */
  function Short(c: CodePoint): Byte {
    if c == 34 || c == 92 then c
    else if c == 10 then 110
    else if c == 13 then 114
    else if c == 9 then 116
    else if c == 12 then 102
    else if c == 8 then 98
    else 0
  }

  function ReadShort(letter: Byte): (c: int)
    ensures -1 <= c < 256
  {
    if letter == 34 || letter == 92 || letter == 47 then letter
    else if letter == 110 then 10
    else if letter == 114 then 13
    else if letter == 116 then 9
    else if letter == 102 then 12
    else if letter == 98 then 8
    else -1
  }

  predicate Plain(c: int) {
    32 <= c < 127 && c != 34 && c != 92
  }

  function EscapeChar(c: CodePoint): (b: Bytes)
    ensures 1 <= |b| <= 12 && (c < 0x10000 ==> |b| <= 6) && (c >= 0x10000 ==> |b| == 12)
    ensures Plain(c) ==> |b| == 1
  {
    if Short(c) != 0 then [BACK, Short(c)]
    else if Plain(c) then [c]
    else if c < 0x10000 then U(c)
    else U(0xD800 + (c - 0x10000) / 1024) + U(0xDC00 + (c - 0x10000) % 1024)
  }

  /** The inside of a string as json.dumps writes it. */
  function Escape(t: Text): Bytes {
    if t == [] then [] else EscapeChar(t[0]) + Escape(t[1..])
  }

  function Join(h: int, l: int): CodePoint
    requires 0xD800 <= h < 0xDC00 && 0xDC00 <= l < 0xE000
  {
    0x10000 + (h - 0xD800) * 1024 + (l - 0xDC00)
  }

  function Prepend(c: CodePoint, t: Option<Text>): Option<Text> {
    match t
    case None => None
    case Some(rest) => Some([c] + rest)
  }

  /** The inside of a string as json.loads reads it: an escaped high surrogate takes an escaped low
      one after it along. */
  function Unescape(s: Bytes): Option<Text> {
    if s == [] then Some([])
    else if s[0] != BACK then (if s[0] == QUOTE || s[0] < 32 then None else Prepend(s[0], Unescape(s[1..])))
    else if |s| == 1 then None
    else if s[1] != LETTER_U then (if ReadShort(s[1]) < 0 then None else Prepend(ReadShort(s[1]), Unescape(s[2..])))
    else
      var c := ReadU(s);
      if c < 0 then None
      else
        var l := ReadU(s[6..]);
        if 0xD800 <= c < 0xDC00 && 0xDC00 <= l < 0xE000 then Prepend(Join(c, l), Unescape(s[12..]))
        else Prepend(c, Unescape(s[6..]))
  }

  predicate PairAt(t: Text, i: nat) {
    i + 1 < |t| && HighSurrogate(t[i]) && LowSurrogate(t[i + 1])
  }

  /** Adjacent surrogates joined, from the left. */
  function Merge(t: Text): Text {
    if t == [] then []
    else if PairAt(t, 0) then [Join(t[0], t[1])] + Merge(t[2..])
    else [t[0]] + Merge(t[1..])
  }

  lemma UnescapeEscaped(c: CodePoint, rest: Bytes)
    requires !HighSurrogate(c)
    ensures Unescape(EscapeChar(c) + rest) == Prepend(c, Unescape(rest))
  {
    var s := EscapeChar(c) + rest;
    if Short(c) != 0 {
      assert s[1] == Short(c) && s[2..] == rest;
    } else if Plain(c) {
      assert s[1..] == rest;
    } else if c < 0x10000 {
      hide Hex, HexVal, Unescape;
      ReadUOfU(c, rest);
      assert s[6..] == rest;
      UnescapeU(s);
    } else {
      UnescapeAstral(c, rest);
    }
  }

  lemma UnescapeU(s: Bytes)
    requires ReadU(s) >= 0
    ensures var c, l := ReadU(s), ReadU(s[6..]);
            Unescape(s) == if 0xD800 <= c < 0xDC00 && 0xDC00 <= l < 0xE000
                           then Prepend(Join(c, l), Unescape(s[12..]))
                           else Prepend(c, Unescape(s[6..]))
  {
    hide HexVal;
  }

  lemma UnescapePair(h: int, l: int, rest: Bytes)
    requires 0xD800 <= h < 0xDC00 && 0xDC00 <= l < 0xE000
    ensures Unescape(U(h) + U(l) + rest) == Prepend(Join(h, l), Unescape(rest))
  {
    hide U, ReadU, Unescape, Join;
    var s := U(h) + U(l) + rest;
    assert s == U(h) + (U(l) + rest);
    ReadUOfU(h, U(l) + rest);
    assert s[6..] == U(l) + rest && s[12..] == rest;
    ReadUOfU(l, rest);
    UnescapeU(s);
  }

  lemma UnescapeAstral(c: CodePoint, rest: Bytes)
    requires c >= 0x10000
    ensures Unescape(EscapeChar(c) + rest) == Prepend(c, Unescape(rest))
  {
    var h, l := 0xD800 + (c - 0x10000) / 1024, 0xDC00 + (c - 0x10000) % 1024;
    assert Join(h, l) == c;
    hide U, ReadU, Unescape, Join;
    UnescapePair(h, l, rest);
  }

  /** What follows does not begin with the escape of a low surrogate unless the text does. */
  lemma NoLowAhead(t: Text)
    requires t != [] ==> !LowSurrogate(t[0])
    ensures !(0xDC00 <= ReadU(Escape(t)) < 0xE000)
  {
    hide ReadU, Escape, EscapeChar;
    if t == [] {
      NothingAhead();
    } else {
      EscapeStep(t);
      CharAhead(t[0], Escape(t[1..]));
    }
  }

  lemma NothingAhead()
    ensures ReadU(Escape([])) == -1
  {
  }

  lemma CharAhead(c: CodePoint, rest: Bytes)
    requires !LowSurrogate(c)
    ensures !(0xDC00 <= ReadU(EscapeChar(c) + rest) < 0xE000)
  {
    hide Hex, HexVal, U;
    if Short(c) != 0 || Plain(c) {
      assert (EscapeChar(c) + rest)[0] == EscapeChar(c)[0];
      assert Short(c) != 0 ==> (EscapeChar(c) + rest)[1] == Short(c);
    } else if c < 0x10000 {
      ReadUOfU(c, rest);
    } else {
      var h, l := 0xD800 + (c - 0x10000) / 1024, 0xDC00 + (c - 0x10000) % 1024;
      ReadUOfU(h, U(l) + rest);
      assert EscapeChar(c) + rest == U(h) + (U(l) + rest);
    }
  }

  lemma EscapeStep(t: Text)
    requires t != []
    ensures Escape(t) == EscapeChar(t[0]) + Escape(t[1..])
  {
  }

  /** Reading back what was written joins adjacent surrogates and changes nothing else. */
  lemma {:induction false} JsonRoundTrip(t: Text)
    ensures Unescape(Escape(t)) == Some(Merge(t))
  {
    hide U, ReadU, Unescape, EscapeChar, Join;
    if t == [] {
      UnescapeNothing();
    } else if !HighSurrogate(t[0]) {
      JsonRoundTrip(t[1..]);
      UnescapeEscaped(t[0], Escape(t[1..]));
    } else if PairAt(t, 0) {
      JsonRoundTrip(t[2..]);
      EscapeOfSurrogates(t[0]);
      EscapeOfSurrogates(t[1]);
      assert t[1..][0] == t[1] && t[1..][1..] == t[2..];
      assert Escape(t) == U(t[0]) + U(t[1]) + Escape(t[2..]);
      UnescapePair(t[0], t[1], Escape(t[2..]));
    } else {
      JsonRoundTrip(t[1..]);
      EscapeOfSurrogates(t[0]);
      NoLowAhead(t[1..]);
      ReadUOfU(t[0], Escape(t[1..]));
      UnescapeU(Escape(t));
      assert Escape(t)[6..] == Escape(t[1..]);
    }
  }

  lemma UnescapeNothing()
    ensures Unescape([]) == Some([])
  {
  }

  lemma EscapeOfSurrogates(c: CodePoint)
    requires HighSurrogate(c) || LowSurrogate(c)
    ensures EscapeChar(c) == U(c)
  {
  }

  // ----- What the broker reports -----

  const OUT_MARKER: Text := T("\n[\U{2026}output truncated in sandbox\U{2026}]")
  const ERR_MARKER: Text := T("\n[\U{2026}stderr truncated in sandbox\U{2026}]")

  /** A stream as `_emit` prints it. */
  function Sent(writes: seq<Text>, marker: Text): Text {
    EmitCut(Bounded(AfterWrites(writes, MAX_STREAM_CHARS), marker), marker)
  }

  /** A stream through the buffer, `_emit`, the JSON string, its reading and the broker's cut. For the
      standard output this is what the result holds. */
  function Reported(writes: seq<Text>, marker: Text): Option<Text> {
    match Unescape(Escape(Sent(writes, marker)))
    case None => None
    case Some(read) => Some(Take(read, MAX_RESULT_CHARS))
  }

  predicate NoSplitPair(t: Text) {
    forall i | 0 <= i < |t| :: !PairAt(t, i)
  }

  /** Joining surrogates changes a text exactly when it has adjacent ones, and then it changes a
      character that is still there. */
  lemma {:induction false} MergeIsIdentityIff(t: Text)
    ensures |Merge(t)| <= |t|
    ensures NoSplitPair(t) ==> Merge(t) == t
    ensures !NoSplitPair(t) ==> |Merge(t)| < |t| && exists i | 0 <= i < |Merge(t)| :: Merge(t)[i] != t[i]
  {
    if t != [] {
      if PairAt(t, 0) {
        MergeIsIdentityIff(t[2..]);
        assert Merge(t)[0] != t[0];
      } else {
        MergeIsIdentityIff(t[1..]);
        assert forall i | 0 <= i < |t| - 1 :: PairAt(t[1..], i) == PairAt(t, i + 1);
        if !NoSplitPair(t) {
          var k :| 0 <= k < |t| && PairAt(t, k);
          assert PairAt(t[1..], k - 1);
          var i :| 0 <= i < |Merge(t[1..])| && Merge(t[1..])[i] != t[1..][i];
          assert Merge(t)[i + 1] != t[i + 1];
        }
      }
    }
  }

  lemma MergeStep(t: Text)
    requires t != []
    ensures PairAt(t, 0) ==> Merge(t) == [Join(t[0], t[1])] + Merge(t[2..])
    ensures !PairAt(t, 0) ==> Merge(t) == [t[0]] + Merge(t[1..])
  {
  }

  lemma Regroup(a: Text, b: Text, c: Text)
    ensures a + (b + c) == (a + b) + c
  {
  }

  lemma {:induction false} MergeOfSum(a: Text, b: Text)
    requires b != [] ==> !LowSurrogate(b[0])
    ensures Merge(a + b) == Merge(a) + Merge(b)
  {
    hide Join, Merge;
    if a == [] {
      MergeOfNothing();
      assert a + b == b;
    } else {
      MergeStep(a);
      MergeStep(a + b);
      assert PairAt(a + b, 0) == PairAt(a, 0);
      if PairAt(a, 0) {
        assert (a + b)[2..] == a[2..] + b;
        MergeOfSum(a[2..], b);
        Regroup([Join(a[0], a[1])], Merge(a[2..]), Merge(b));
      } else {
        assert (a + b)[1..] == a[1..] + b;
        MergeOfSum(a[1..], b);
        Regroup([a[0]], Merge(a[1..]), Merge(b));
      }
    }
  }

  /** What comes through is exactly the first 200000 characters written if and only if no high surrogate
      among them is directly followed by a low one. */
  lemma ReportIsThePrefixIff(writes: seq<Text>, marker: Text)
    requires marker != [] ==> !LowSurrogate(marker[0])
    ensures Reported(writes, marker).Some?
    ensures Reported(writes, marker) == Some(Take(Concat(writes), MAX_RESULT_CHARS))
       <==> NoSplitPair(Take(Concat(writes), MAX_RESULT_CHARS))
  {
    hide Unescape, Escape, Merge, AfterWrites, Concat, EmitCut, NoSplitPair;
    var p := Take(Concat(writes), MAX_STREAM_CHARS);
    var tail := if |Concat(writes)| > MAX_STREAM_CHARS then marker else [];
    BufferHoldsThePrefix(writes, MAX_STREAM_CHARS);
    EmitCutChangesNothing(writes, marker);
    JsonRoundTrip(p + tail);
    MergeOfSum(p, tail);
    MergeIsIdentityIff(p);
    var read := Merge(p) + Merge(tail);
    assert Reported(writes, marker) == Some(Take(read, MAX_RESULT_CHARS));
    if NoSplitPair(p) {
      MergeOfNothing();
      assert Take(p + Merge(tail), MAX_RESULT_CHARS) == p;
    } else {
      var i :| 0 <= i < |Merge(p)| && Merge(p)[i] != p[i];
      assert Take(read, MAX_RESULT_CHARS)[i] == Merge(p)[i];
    }
  }

  lemma MergeOfNothing()
    ensures Merge([]) == []
  {
  }

  // ----- The strings of an artifact -----

  /** A text without surrogates comes through the line unchanged. */
  lemma SurvivesWithoutSurrogates(t: Text)
    requires forall i | 0 <= i < |t| :: !HighSurrogate(t[i])
    ensures Unescape(Escape(t)) == Some(t)
  {
    hide Unescape, Escape, Merge;
    JsonRoundTrip(t);
    MergeIsIdentityIff(t);
  }

  lemma MimeTypesAreAscii(suffix: Text)
    requires MimeOf(suffix).Some?
    ensures forall i | 0 <= i < |MimeOf(suffix).value| :: MimeOf(suffix).value[i] < 128
  {
    var a, b, c, d, e := "application/pdf", "text/csv", "application/json", "text/plain", "text/markdown";
    assert forall i | 0 <= i < |a| :: a[i] < '\U{0080}';
    assert forall i | 0 <= i < |b| :: b[i] < '\U{0080}';
    assert forall i | 0 <= i < |c| :: c[i] < '\U{0080}';
    assert forall i | 0 <= i < |d| :: d[i] < '\U{0080}';
    assert forall i | 0 <= i < |e| :: e[i] < '\U{0080}';
  }

  lemma EncodingIsAscii(b: Bytes)
    ensures forall i | 0 <= i < |Encode(b)| :: Encode(b)[i] < 128
  {
    SymbolsRoundTrip(b);
    hide DecodeSymbols, EncodeSymbols;
    var e := Encode(b);
    forall i | 0 <= i < |e| ensures e[i] < 128 {
      assert i < |EncodeSymbols(b)| ==> Val(EncodeSymbols(b)[i]) >= 0;
    }
  }

  /** The strings of a sound artifact are plain text: only its name may hold more than ASCII. */
  lemma SoundStrings(p: Policy, inputs: set<Text>, a: Artifact)
    requires HexDigests(p) && Sound(p, inputs, a)
    ensures Utf8(a.name).Some?
    ensures forall i | 0 <= i < |a.mime| :: a.mime[i] < 128
    ensures forall i | 0 <= i < |a.sha| :: a.sha[i] < 128
    ensures forall i | 0 <= i < |a.encoded| :: a.encoded[i] < 128
  {
    hide Encode, MimeOf;
    var c: Bytes :| 0 < |c| == a.size <= MAX_ARTIFACT_BYTES && a.sha == p.sha256(c) && a.encoded == Encode(c)
                    && p.content(p.suffix(a.name), c) == Fine;
    MimeTypesAreAscii(p.suffix(a.name));
    DigestOf(p, c);
    assert forall i | 0 <= i < |a.sha| :: a.sha[i] in a.sha;
    EncodingIsAscii(c);
  }

  /** Every string of an artifact the runner reports is read back by the broker as it was. */
  lemma ArtifactStringsSurvive(p: Policy, inputs: set<Text>, a: Artifact)
    requires HexDigests(p) && Sound(p, inputs, a)
    ensures Unescape(Escape(a.name)) == Some(a.name)
    ensures Unescape(Escape(a.mime)) == Some(a.mime)
    ensures Unescape(Escape(a.sha)) == Some(a.sha)
    ensures Unescape(Escape(a.encoded)) == Some(a.encoded)
  {
    hide Unescape, Escape, Sound, HexDigests;
    SoundStrings(p, inputs, a);
    Utf8Fails(a.name);
    SurvivesWithoutSurrogates(a.name);
    SurvivesWithoutSurrogates(a.mime);
    SurvivesWithoutSurrogates(a.sha);
    SurvivesWithoutSurrogates(a.encoded);
  }

  /** What stands for an empty error stream when docker itself wrote to its own. */
  const RUNTIME_ERROR: Text := T("Sandbox runtime reported an error")

  /** The error stream in the result; `noise` tells whether docker wrote anything but white space. */
  function ReportedErr(err: seq<Text>, noise: bool): Option<Text> {
    match Reported(err, ERR_MARKER)
    case None => None
    case Some(report) => Some(if noise && report == [] then RUNTIME_ERROR else report)
  }

  lemma MarkersAreNoSurrogates()
    ensures OUT_MARKER != [] && !LowSurrogate(OUT_MARKER[0])
    ensures ERR_MARKER != [] && !LowSurrogate(ERR_MARKER[0])
    ensures RUNTIME_ERROR != []
  {
    assert OUT_MARKER[0] == 10 && ERR_MARKER[0] == 10;
    assert |RUNTIME_ERROR| == |"Sandbox runtime reported an error"|;
  }

  /** Something comes through exactly when something was written. */
  lemma NothingWrittenNothingRead(writes: seq<Text>, marker: Text)
    requires marker != [] && !LowSurrogate(marker[0])
    ensures Reported(writes, marker).Some?
    ensures Reported(writes, marker).value == [] <==> Concat(writes) == []
  {
    hide Unescape, Escape, Merge, AfterWrites, Concat, EmitCut;
    var p := Take(Concat(writes), MAX_STREAM_CHARS);
    var tail := if |Concat(writes)| > MAX_STREAM_CHARS then marker else [];
    BufferHoldsThePrefix(writes, MAX_STREAM_CHARS);
    EmitCutChangesNothing(writes, marker);
    JsonRoundTrip(p + tail);
    if Concat(writes) != [] {
      MergeStep(p + tail);
    } else {
      MergeOfNothing();
      assert p + tail == [];
    }
  }

  /** The error stream of the result is exactly the first 200000 characters written if and only if no high
      surrogate among them is directly followed by a low one, and something was written or docker was
      silent. */
  lemma ErrorReportIsThePrefixIff(err: seq<Text>, noise: bool)
    ensures ReportedErr(err, noise).Some?
    ensures ReportedErr(err, noise) == Some(Take(Concat(err), MAX_RESULT_CHARS))
       <==> NoSplitPair(Take(Concat(err), MAX_RESULT_CHARS)) && !(noise && Concat(err) == [])
  {
    hide Reported, Concat;
    MarkersAreNoSurrogates();
    ReportIsThePrefixIff(err, ERR_MARKER);
    NothingWrittenNothingRead(err, ERR_MARKER);
    hide RUNTIME_ERROR, ERR_MARKER;
  }

  // ----- What a client receives -----

  predicate HasSurrogate(t: Text) {
    exists i | 0 <= i < |t| :: HighSurrogate(t[i]) || LowSurrogate(t[i])
  }

  /** The artifact's strings have an encoding. */
  predicate Encodable(a: Artifact) {
    Utf8(a.name).Some? && Utf8(a.mime).Some? && Utf8(a.sha).Some? && Utf8(a.encoded).Some?
  }

  /** The streams in the answer of a status request, one body in UTF-8 that holds both streams and the
      artifacts: one text in it that cannot be encoded, and there is no answer. */
  function Answered(out: seq<Text>, err: seq<Text>, noise: bool, list: seq<Artifact>): Option<(Text, Text)> {
    var o, e := Reported(out, OUT_MARKER), ReportedErr(err, noise);
    if o.Some? && e.Some? && Utf8(o.value).Some? && Utf8(e.value).Some? && (forall a <- list :: Encodable(a))
    then Some((o.value, e.value)) else None
  }

  /** A client receives exactly the first 200000 characters of both streams if and only if none of them is a
      surrogate and no empty error stream was replaced. It receives nothing if and only if one of the
      two texts in the result holds a surrogate; the artifacts are never to blame. */
  lemma ClientGetsBothPrefixesIff(
    p: Policy, inputs: set<Text>, out: seq<Text>, err: seq<Text>, noise: bool, list: seq<Artifact>)
    requires HexDigests(p) && AllSound(p, inputs, list)
    ensures var o, e := Take(Concat(out), MAX_RESULT_CHARS), Take(Concat(err), MAX_RESULT_CHARS);
      Answered(out, err, noise, list) == Some((o, e))
      <==> !HasSurrogate(o) && !HasSurrogate(e) && !(noise && Concat(err) == [])
    ensures Reported(out, OUT_MARKER).Some? && ReportedErr(err, noise).Some?
    ensures Answered(out, err, noise, list).None?
       <==> HasSurrogate(Reported(out, OUT_MARKER).value) || HasSurrogate(ReportedErr(err, noise).value)
  {
    hide Reported, ReportedErr, Concat, Encodable, HasSurrogate, Sound, HexDigests, OUT_MARKER, NoSplitPair;
    var o, e := Take(Concat(out), MAX_RESULT_CHARS), Take(Concat(err), MAX_RESULT_CHARS);
    MarkersAreNoSurrogates();
    ReportIsThePrefixIff(out, OUT_MARKER);
    ErrorReportIsThePrefixIff(err, noise);
    PlainHasNoPair(o);
    PlainHasNoPair(e);
    EncodableIff(o);
    EncodableIff(e);
    EncodableIff(Reported(out, OUT_MARKER).value);
    EncodableIff(ReportedErr(err, noise).value);
    forall a | a in list ensures Encodable(a) {
      SoundIsEncodable(p, inputs, a);
    }
  }

  lemma EncodableIff(t: Text)
    ensures Utf8(t).Some? <==> !HasSurrogate(t)
  {
    Utf8Fails(t);
  }

  lemma PlainHasNoPair(t: Text)
    ensures !HasSurrogate(t) ==> NoSplitPair(t)
  {
  }

  lemma SoundIsEncodable(p: Policy, inputs: set<Text>, a: Artifact)
    requires HexDigests(p) && Sound(p, inputs, a)
    ensures Encodable(a)
  {
    hide Encode, MimeOf, Utf8, HexDigests;
    SoundStrings(p, inputs, a);
    AsciiIsEncodable(a.mime);
    AsciiIsEncodable(a.sha);
    AsciiIsEncodable(a.encoded);
  }

  lemma AsciiIsEncodable(t: Text)
    requires forall i | 0 <= i < |t| :: t[i] < 128
    ensures Utf8(t).Some?
  {
    Utf8Fails(t);
  }

  /** A program that prints `ok` and writes one lone surrogate to its error stream gets no answer. */
  lemma OtherStreamLosesThisOne()
    ensures Answered([T("ok")], [[0xDC80]], false, []) == None
  {
    var err: seq<Text> := [[0xDC80]];
    hide Reported, ReportedErr, ERR_MARKER;
    assert err[..0] == [] && Concat([]) == [] && [] + [0xDC80] == [0xDC80];
    assert Concat(err) == Concat(err[..0]) + err[0] == [0xDC80];
    ErrorReportIsThePrefixIff(err, false);
    LoneIsReported(err);
    EncodableIff([0xDC80]);
  }

  lemma LoneIsReported(err: seq<Text>)
    requires Concat(err) == [0xDC80]
    ensures Take(Concat(err), MAX_RESULT_CHARS) == [0xDC80] && NoSplitPair([0xDC80]) && HasSurrogate([0xDC80])
  {
    var t: Text := [0xDC80];
    assert LowSurrogate(t[0]);
  }
}
