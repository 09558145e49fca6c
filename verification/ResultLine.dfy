/** The length of the one line a run prints (sandbox/runner.py) against what the broker is willing to
    read (backend/app/sandbox_broker.py). */
module ResultLine {
  import opened PyText
  import opened Filenames
  import opened Artifacts
  import opened Streams
  import opened Wrappers

  const MAX_PROCESS_OUTPUT_BYTES := 16 * 1024 * 1024

  // ----- The result line -----

  function B(s: string): (b: Bytes)
    requires forall i | 0 <= i < |s| :: s[i] as int < 128
    ensures |b| == |s|
  {
    seq(|s|, i requires 0 <= i < |s| => s[i] as int)
  }

  function IntText(n: int): Bytes {
    if n < 0 then [45] + DigitBytes(-n) else DigitBytes(n)
  }

  function DigitBytes(n: nat): (b: Bytes)
    ensures |b| == |Digits(n)|
  {
    var d := Digits(n);
    seq(|d|, i requires 0 <= i < |d| => d[i])
  }

  function ArtifactJson(a: Artifact): Bytes {
    B("{\"name\": \"") + Escape(a.name) + B("\", \"mime_type\": \"") + Escape(a.mime)
    + B("\", \"size_bytes\": ") + IntText(a.size) + B(", \"sha256\": \"") + Escape(a.sha)
    + B("\", \"content_base64\": \"") + Escape(a.encoded) + B("\"}")
  }

  function ListJson(list: seq<Artifact>): Bytes {
    if list == [] then []
    else if |list| == 1 then ArtifactJson(list[0])
    else ListJson(list[..|list| - 1]) + B(", ") + ArtifactJson(list[|list| - 1])
  }

  /** The one line the runner prints. */
  function Line(stdout: Text, stderr: Text, code: int, list: seq<Artifact>): Bytes {
    B("{\"stdout\": \"") + Escape(stdout) + B("\", \"stderr\": \"") + Escape(stderr)
    + B("\", \"exit_code\": ") + IntText(code) + B(", \"artifacts\": [") + ListJson(list) + B("]}")
  }

  // ----- The cost of a text -----

  /** The bytes json.dumps spends on a character. */
  function Weight(c: CodePoint): nat {
    if Plain(c) then 1 else if Short(c) != 0 then 2 else if c < 0x10000 then 6 else 12
  }

  function Cost(t: Text): nat {
    if t == [] then 0 else Weight(t[0]) + Cost(t[1..])
  }

  /** The characters above U+FFFF. */
  function Astral(t: Text): nat {
    if t == [] then 0 else (if t[0] >= 0x10000 then 1 else 0) + Astral(t[1..])
  }

  lemma {:induction false} EscapeCost(t: Text)
    ensures |Escape(t)| == Cost(t)
  {
    if t != [] {
      EscapeCost(t[1..]);
    }
  }

  lemma {:induction false} CostOfSum(a: Text, b: Text)
    ensures Cost(a + b) == Cost(a) + Cost(b)
  {
    hide Weight;
    if a == [] {
      assert a + b == b;
    } else {
      CostOfSum(a[1..], b);
      assert (a + b)[1..] == a[1..] + b;
    }
  }

  lemma {:induction false} CostBounds(t: Text)
    ensures Cost(t) <= 6 * |t| + 6 * Astral(t) && Astral(t) <= |t|
    ensures (forall c <- t :: Plain(c)) ==> Cost(t) == |t|
    ensures (forall c <- t :: c >= 0x10000) ==> Cost(t) == 12 * |t|
    ensures (forall c <- t :: c < 0x10000) ==> Astral(t) == 0
  {
    if t != [] {
      CostBounds(t[1..]);
      assert t[0] in t && forall c <- t[1..] :: c in t;
    }
  }

  // ----- The length of an artifact -----

  lemma EncodingIsPlain(b: Bytes)
    ensures Cost(Encode(b)) == |Encode(b)|
  {
    SymbolsRoundTrip(b);
    var e := Encode(b);
    forall c | c in e ensures Plain(c) {
      var i :| 0 <= i < |e| && e[i] == c;
      assert i < |EncodeSymbols(b)| ==> Val(EncodeSymbols(b)[i]) >= 0;
    }
    CostBounds(e);
  }

  lemma HexIsPlain(t: Text)
    requires HexText(t)
    ensures Cost(t) == |t|
  {
    CostBounds(t);
  }

  predicate PlainChars(s: string) {
    forall i | 0 <= i < |s| :: ' ' <= s[i] < '\U{007F}' && s[i] != '"' && s[i] != '\\'
  }

  lemma LiteralIsPlain(s: string)
    requires PlainChars(s)
    ensures Cost(T(s)) == |s|
  {
    forall c | c in T(s) ensures Plain(c) {
      var i :| 0 <= i < |s| && T(s)[i] == c;
    }
    CostBounds(T(s));
  }

  lemma MimeIsPlain(suffix: Text)
    requires MimeOf(suffix).Some?
    ensures Cost(MimeOf(suffix).value) == |MimeOf(suffix).value| <= 16
  {
    hide Cost;
    LiteralIsPlain("application/pdf");
    LiteralIsPlain("text/csv");
    LiteralIsPlain("application/json");
    LiteralIsPlain("text/plain");
    LiteralIsPlain("text/markdown");
  }

  /** The bytes an artifact takes, from its name, its type and its size. */
  function ArtifactBytes(a: Artifact): int {
    81 + Cost(a.name) + |a.mime| + |IntText(a.size)| + 64 + 4 * ((a.size + 2) / 3)
  }

  lemma PartsOfArtifact(a: Artifact)
    ensures |ArtifactJson(a)| == 81 + Cost(a.name) + Cost(a.mime) + |IntText(a.size)| + Cost(a.sha) + Cost(a.encoded)
  {
    hide Escape, IntText, Cost;
    EscapeCost(a.name);
    EscapeCost(a.mime);
    EscapeCost(a.sha);
    EscapeCost(a.encoded);
  }

  lemma ArtifactLength(p: Policy, inputs: set<Text>, a: Artifact)
    requires HexDigests(p) && Sound(p, inputs, a)
    ensures |ArtifactJson(a)| == ArtifactBytes(a)
    ensures 4 * a.size <= 3 * ArtifactBytes(a) <= 4 * a.size + 5200
  {
    hide Cost, Encode, Judge, MimeOf, IntText, Decode, HexDigests, ArtifactJson;
    var c: Bytes :| 0 < |c| == a.size <= MAX_ARTIFACT_BYTES && a.sha == p.sha256(c) && a.encoded == Encode(c)
                    && p.content(p.suffix(a.name), c) == Fine;
    DigestOf(p, c);
    HexIsPlain(a.sha);
    Base64RoundTrip(c);
    EncodingIsPlain(c);
    SizeWidth(|c|);
    MimeIsPlain(p.suffix(a.name));
    NameIsShort(p, a.name);
    PartsOfArtifact(a);
  }

  lemma NameIsShort(p: Policy, name: Text)
    requires Judge(p, name).Safe?
    ensures Cost(name) <= 12 * MAX_FILENAME_CHARS
  {
    CostBounds(name);
    hide Utf8, Cost;
  }

  function Pow10(n: nat): nat {
    if n == 0 then 1 else 10 * Pow10(n - 1)
  }

  lemma {:induction false} DigitsWidth(n: nat, w: nat)
    requires w >= 1 && n < Pow10(w)
    ensures |Digits(n)| <= w
  {
    if n >= 10 {
      assert w > 1;
      DigitsWidth(n / 10, w - 1);
    }
  }

  lemma SizeWidth(n: nat)
    requires n <= MAX_ARTIFACT_BYTES
    ensures |IntText(n)| <= 7
  {
    assert Pow10(7) == 10000000 by {
      assert Pow10(3) == 1000 && Pow10(6) == 1000 * Pow10(3);
    }
    DigitsWidth(n, 7);
  }

  function ListBytes(list: seq<Artifact>): int {
    if list == [] then 0
    else ListBytes(list[..|list| - 1]) + (if |list| > 1 then 2 else 0) + ArtifactBytes(list[|list| - 1])
  }

  lemma {:induction false} ListLength(p: Policy, inputs: set<Text>, list: seq<Artifact>)
    requires HexDigests(p) && forall a <- list :: Sound(p, inputs, a)
    ensures |ListJson(list)| == ListBytes(list)
    ensures 4 * TotalSize(list) <= 3 * ListBytes(list) <= 4 * TotalSize(list) + 5206 * |list|
  {
    hide Sound, HexDigests, ArtifactJson, ArtifactBytes;
    if list != [] {
      var before, last := list[..|list| - 1], list[|list| - 1];
      ListLength(p, inputs, before);
      ArtifactLength(p, inputs, last);
      if |list| == 1 {
        assert list[0] == last && before == [];
      }
    }
  }

  // ----- The length of the line -----

  /** The bytes a stream takes: what was written up to the limit, and the marker if there was more. */
  function StreamBytes(written: Text, marker: Text): nat {
    Cost(Take(written, MAX_STREAM_CHARS)) + if |written| > MAX_STREAM_CHARS then Cost(marker) else 0
  }

  lemma SentLength(writes: seq<Text>, marker: Text)
    ensures |Escape(Sent(writes, marker))| == StreamBytes(Concat(writes), marker)
  {
    hide Escape, AfterWrites, Concat, Cost;
    BufferHoldsThePrefix(writes, MAX_STREAM_CHARS);
    EmitCutChangesNothing(writes, marker);
    var p := Take(Concat(writes), MAX_STREAM_CHARS);
    var tail := if |Concat(writes)| > MAX_STREAM_CHARS then marker else [];
    assert Sent(writes, marker) == p + tail;
    EscapeCost(p + tail);
    CostOfSum(p, tail);
    CostOfNothing();
  }

  lemma CostOfNothing()
    ensures Cost([]) == 0
  {
  }

  /** The line of a run that wrote these streams and left these artifacts. */
  function LineOf(out: seq<Text>, err: seq<Text>, code: int, list: seq<Artifact>): Bytes {
    Line(Sent(out, OUT_MARKER), Sent(err, ERR_MARKER), code, list)
  }

  /** What was written, with each character at its weight, the exit code, and the names and sizes of
      the artifacts stay within the limit. */
  predicate HasRoom(out: Text, err: Text, code: int, list: seq<Artifact>) {
    60 + StreamBytes(out, OUT_MARKER) + StreamBytes(err, ERR_MARKER) + |IntText(code)| + ListBytes(list)
    <= MAX_PROCESS_OUTPUT_BYTES
  }

  /** The broker reads the line whole if and only if the weighted characters of the streams and the
      artifacts leave room. */
  lemma LineFitsIff(p: Policy, inputs: set<Text>, out: seq<Text>, err: seq<Text>, code: int, list: seq<Artifact>)
    requires HexDigests(p) && AllSound(p, inputs, list)
    ensures |LineOf(out, err, code, list)| <= MAX_PROCESS_OUTPUT_BYTES <==> HasRoom(Concat(out), Concat(err), code, list)
  {
    hide Escape, ListJson, IntText, Sent, Concat, StreamBytes, ListBytes;
    SentLength(out, OUT_MARKER);
    SentLength(err, ERR_MARKER);
    ListLength(p, inputs, list);
  }

  lemma LiteralIsBmp(s: string)
    requires forall i | 0 <= i < |s| :: s[i] as int < 0x10000
    ensures Cost(T(s)) <= 6 * |s|
  {
    forall c | c in T(s) ensures c < 0x10000 {
      var i :| 0 <= i < |s| && T(s)[i] == c;
    }
    hide Cost;
    CostBounds(T(s));
  }

  lemma MarkersAreBmp()
    ensures Cost(OUT_MARKER) <= 192 && Cost(ERR_MARKER) <= 192
  {
    hide Cost;
    LiteralIsBmp("\n[\U{2026}output truncated in sandbox\U{2026}]");
    LiteralIsBmp("\n[\U{2026}stderr truncated in sandbox\U{2026}]");
  }

  /** With at most 63000 characters above U+FFFF among the kept ones there is always room, whatever
      artifacts the runner may collect. The exit code is one Python can print. */
  lemma FewAstralsFit(p: Policy, inputs: set<Text>, out: Text, err: Text, code: int, list: seq<Artifact>)
    requires HexDigests(p) && AllSound(p, inputs, list) && |IntText(code)| <= 4301
    requires Astral(Take(out, MAX_STREAM_CHARS)) + Astral(Take(err, MAX_STREAM_CHARS)) <= 63_000
    ensures HasRoom(out, err, code, list)
  {
    hide ListBytes, IntText, Cost, Astral;
    MarkersAreBmp();
    CostBounds(Take(out, MAX_STREAM_CHARS));
    CostBounds(Take(err, MAX_STREAM_CHARS));
    ListLength(p, inputs, list);
  }

  /** In particular with no such character at all. */
  lemma LineFits(p: Policy, inputs: set<Text>, out: seq<Text>, err: seq<Text>, code: int, list: seq<Artifact>)
    requires HexDigests(p) && AllSound(p, inputs, list) && |IntText(code)| <= 4301
    requires forall c <- Concat(out) + Concat(err) :: c < 0x10000
    ensures |LineOf(out, err, code, list)| <= MAX_PROCESS_OUTPUT_BYTES
  {
    hide Cost, Astral, HasRoom, Line, Sent, IntText, Concat;
    var o, e := Take(Concat(out), MAX_STREAM_CHARS), Take(Concat(err), MAX_STREAM_CHARS);
    assert forall c <- o :: c in Concat(out) + Concat(err);
    assert forall c <- e :: c in Concat(out) + Concat(err);
    CostBounds(o);
    CostBounds(e);
    FewAstralsFit(p, inputs, Concat(out), Concat(err), code, list);
    LineFitsIff(p, inputs, out, err, code, list);
  }

  // ----- A run that does not fit -----

  function Filled(n: nat): (b: Bytes)
    ensures |b| == n
  {
    seq(n, _ => 97)
  }

  const FIRST: Text := [97, 46, 116, 120, 116]
  const SECOND: Text := [98, 46, 116, 120, 116]

  /** The two names a.txt and b.txt are in order, and a text file of 5 MiB of letters passes. */
  ghost predicate Ordinary(p: Policy) {
    && HexDigests(p)
    && p.normalize(FIRST) == FIRST && p.normalize(SECOND) == SECOND
    && p.alnum(97) && p.alnum(98) && p.alnum(116) && p.alnum(120)
    && p.suffix(FIRST) == p.suffix(SECOND) == T(".txt")
    && p.content(T(".txt"), Filled(MAX_ARTIFACT_BYTES)) == Fine
  }

  function Smiles(): (t: Text)
    ensures |t| == MAX_STREAM_CHARS && forall c <- t :: c >= 0x10000
  {
    seq(MAX_STREAM_CHARS, _ => 0x1F600)
  }

  /** What the program leaves in its directory: two text files of 5 MiB. */
  function TwoFiles(): seq<DirEntry> {
    [DirEntry(FIRST, true, Some(Filled(MAX_ARTIFACT_BYTES))), DirEntry(SECOND, true, Some(Filled(MAX_ARTIFACT_BYTES)))]
  }

  lemma NamesAreSafe(p: Policy)
    requires Ordinary(p)
    ensures Judge(p, FIRST) == Safe && Judge(p, SECOND) == Safe
  {
    AsciiUtf8(FIRST);
    AsciiUtf8(SECOND);
    hide Utf8, Filled, HexDigests;
  }

  lemma {:induction false} AsciiUtf8(t: Text)
    requires forall c <- t :: c < 128
    ensures Utf8(t).Some? && |Utf8(t).value| == |t|
  {
    if t != [] {
      assert t[0] in t && forall c <- t[1..] :: c in t;
      AsciiUtf8(t[1..]);
    }
  }

  lemma TextSuffix()
    ensures MimeOf(T(".txt")) == Some(T("text/plain"))
  {
    assert T(".txt")[1] == 't' as int;
    assert T(".pdf")[1] == 'p' as int && T(".csv")[1] == 'c' as int && T(".json")[1] == 'j' as int;
  }

  lemma BothFilesAreCollected(p: Policy)
    requires Ordinary(p)
    ensures var h := Collect(p, {}, Some(TwoFiles()));
            h.Collected? && h.warnings == [] && TotalSize(h.artifacts) == MAX_TOTAL_ARTIFACT_BYTES
  {
    NamesAreSafe(p);
    TextSuffix();
    hide Judge, MimeOf, Filled, HexDigests, Encode;
    var files := TwoFiles();
    var a := Built(p, FIRST, Filled(MAX_ARTIFACT_BYTES));
    var b := Built(p, SECOND, Filled(MAX_ARTIFACT_BYTES));
    assert CollectFirst(p, {}, files, 0) == Collected([], []);
    assert TotalSize([]) == 0 && [a][..0] == [] && TotalSize([a]) == MAX_ARTIFACT_BYTES;
    assert CollectFirst(p, {}, files, 1) == Collected([a], []);
    assert SkipReason(p, [a], files[1]) == None;
    assert CollectFirst(p, {}, files, 2) == Collected([a] + [b], []);
    assert ([a] + [b])[..1] == [a];
  }

  /** A program that prints 200000 emoji to each stream and leaves these two files is a legal run
      under every ordinary policy, and its line is one the broker refuses. */
  lemma OrdinaryRunOverflows(p: Policy)
    requires Ordinary(p)
    ensures var h := Collect(p, {}, Some(TwoFiles()));
            && h.Collected? && AllSound(p, {}, h.artifacts)
            && |LineOf([Smiles()], [Smiles()], 0, h.artifacts)| > MAX_PROCESS_OUTPUT_BYTES
  {
    BothFilesAreCollected(p);
    hide Ordinary, TwoFiles, Smiles, Cost, ListBytes, LineOf, CollectFirst, IntText;
    var list := Collect(p, {}, Some(TwoFiles())).artifacts;
    CollectedAreSound(p, {}, TwoFiles(), |TwoFiles()|);
    HexOf(p);
    assert [Smiles()][..0] == [] && Concat([Smiles()]) == Concat([]) + Smiles() == Smiles();
    CostBounds(Smiles());
    ListLength(p, {}, list);
    LineFitsIff(p, {}, [Smiles()], [Smiles()], 0, list);
  }

  lemma HexOf(p: Policy)
    requires Ordinary(p)
    ensures HexDigests(p)
  {
  }

  /** There are such policies. */
  lemma OrdinaryPoliciesExist()
    ensures exists p :: Ordinary(p)
  {
    var p := Policy(t => t, c => 48 <= c <= 122, c => false, t => t, t => T(".txt"), c => seq(64, _ => 97), (s, c) => Fine);
    assert Ordinary(p);
  }

  // ----- The limited read -----

  /** What the pipe delivers, chunk by chunk; an empty chunk is its end. */
  function Delivered(chunks: seq<Bytes>): Bytes {
    if chunks == [] || chunks[0] == [] then [] else chunks[0] + Delivered(chunks[1..])
  }

  /** `_read_limited`: None is the limit being exceeded. */
  method ReadLimited(chunks: seq<Bytes>, limit: nat) returns (r: Option<Bytes>)
    ensures r == if |Delivered(chunks)| <= limit then Some(Delivered(chunks)) else None
  {
    var output: Bytes := [];
    var i := 0;
    while i < |chunks|
      invariant i <= |chunks| && |output| <= limit
      invariant Delivered(chunks) == output + Delivered(chunks[i..])
    {
      var chunk := chunks[i];
      if chunk == [] {
        assert Delivered(chunks[i..]) == [] && output + [] == output;
        return Some(output);
      }
      assert chunks[i..][1..] == chunks[i + 1..];
      output := output + chunk;
      if |output| > limit {
        return None;
      }
      i := i + 1;
    }
    assert chunks[i..] == [] && output + [] == output;
    r := Some(output);
  }
}
