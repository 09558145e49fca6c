/** Files a run leaves behind: what the runner collects (sandbox/runner.py) and what the broker
    then checks again (backend/app/sandbox_broker.py). */
module Artifacts {
  import opened PyText
  import opened Filenames
  import opened Wrappers

  const MAX_ARTIFACTS := 5
  const MAX_ARTIFACT_BYTES := 5 * 1024 * 1024
  const MAX_TOTAL_ARTIFACT_BYTES := 10 * 1024 * 1024

  /** The reported MIME type of each suffix that may leave the sandbox. */
  function MimeOf(suffix: Text): Option<Text> {
    if suffix == T(".pdf") then Some(T("application/pdf"))
    else if suffix == T(".csv") then Some(T("text/csv"))
    else if suffix == T(".json") then Some(T("application/json"))
    else if suffix == T(".txt") then Some(T("text/plain"))
    else if suffix == T(".md") then Some(T("text/markdown"))
    else None
  }

  datatype Artifact = Artifact(name: Text, mime: Text, size: int, sha: Text, encoded: Text)

  /** A directory entry: `regular` is neither a link nor anything but a file, `content` what can
      be read from it, None after an OSError. */
  datatype DirEntry = DirEntry(name: Text, regular: bool, content: Option<Bytes>)

  datatype Skip = ScanFailed | UnsafeName | NotRegular | TooMany | ReadFailed | EmptyFile | TooBig | Aggregate | BadContent
  datatype Warning = Warning(reason: Skip, name: Text)

  datatype Harvest = Raised | Collected(artifacts: seq<Artifact>, warnings: seq<Warning>)

  function TotalSize(a: seq<Artifact>): int {
    if a == [] then 0 else TotalSize(a[..|a| - 1]) + a[|a| - 1].size
  }

  // ----- The runner -----

  /** Neither an input under either spelling nor a file of an unlisted kind. */
  predicate Candidate(p: Policy, inputs: set<Text>, e: DirEntry) {
    var name := p.normalize(e.name);
    e.name !in inputs && name !in inputs && MimeOf(p.suffix(name)).Some?
  }

  function Built(p: Policy, name: Text, content: Bytes): Artifact
    requires MimeOf(p.suffix(name)).Some?
  {
    Artifact(name, MimeOf(p.suffix(name)).value, |content|, p.sha256(content), Encode(content))
  }

  /** Why a candidate is left out, if it is; None for one that is taken. */
  function SkipReason(p: Policy, taken: seq<Artifact>, e: DirEntry): Option<Skip> {
    if Judge(p, p.normalize(e.name)) != Safe then Some(UnsafeName)
    else if !e.regular then Some(NotRegular)
    else if |taken| >= MAX_ARTIFACTS then Some(TooMany)
    else if e.content.None? then Some(ReadFailed)
    else if e.content.value == [] then Some(EmptyFile)
    else if |e.content.value| > MAX_ARTIFACT_BYTES then Some(TooBig)
    else if TotalSize(taken) + |e.content.value| > MAX_TOTAL_ARTIFACT_BYTES then Some(Aggregate)
    else if p.content(p.suffix(p.normalize(e.name)), e.content.value) != Fine then Some(BadContent)
    else None
  }

  /** The parser gives up in a way the runner does not expect. */
  predicate GivesUp(f: Finding) {
    f.LongNumber? || f.TooDeep?
  }

  /** The checks raise on a name that cannot be encoded, and on contents the parser gives up on. */
  predicate CheckRaises(p: Policy, taken: seq<Artifact>, e: DirEntry) {
    || Judge(p, p.normalize(e.name)) == Raises
    || (SkipReason(p, taken, e) == Some(BadContent)
        && GivesUp(p.content(p.suffix(p.normalize(e.name)), e.content.value)))
  }

  function CollectOne(p: Policy, inputs: set<Text>, h: Harvest, e: DirEntry): Harvest {
    if h.Raised? || !Candidate(p, inputs, e) then h
    else if CheckRaises(p, h.artifacts, e) then Raised
    else
      match SkipReason(p, h.artifacts, e)
      case Some(reason) => h.(warnings := h.warnings + [Warning(reason, p.normalize(e.name))])
      case None => h.(artifacts := h.artifacts + [Built(p, p.normalize(e.name), e.content.value)])
  }

  function CollectFirst(p: Policy, inputs: set<Text>, entries: seq<DirEntry>, n: nat): Harvest
    requires n <= |entries|
  {
    if n == 0 then Collected([], [])
    else CollectOne(p, inputs, CollectFirst(p, inputs, entries, n - 1), entries[n - 1])
  }

  function Collect(p: Policy, inputs: set<Text>, scan: Option<seq<DirEntry>>): Harvest {
    match scan
    case None => Collected([], [Warning(ScanFailed, [])])
    case Some(entries) => CollectFirst(p, inputs, entries, |entries|)
  }

  lemma {:induction false} RaisingStays(p: Policy, inputs: set<Text>, entries: seq<DirEntry>, m: nat, n: nat)
    requires m <= n <= |entries| && CollectFirst(p, inputs, entries, m).Raised?
    ensures CollectFirst(p, inputs, entries, n).Raised?
  {
    hide Candidate, CheckRaises, SkipReason, Built;
    if m < n {
      RaisingStays(p, inputs, entries, m, n - 1);
    }
  }

  /** `_collect_artifacts`, on the entries in the order the scan was sorted into. */
  method CollectArtifacts(p: Policy, inputs: set<Text>, scan: Option<seq<DirEntry>>) returns (r: Harvest)
    ensures r == Collect(p, inputs, scan)
  {
    hide Judge, MimeOf, Encode;
    if scan.None? {
      return Collected([], [Warning(ScanFailed, [])]);
    }
    var entries := scan.value;
    var artifacts: seq<Artifact>, warnings: seq<Warning>, total := [], [], 0;
    for k := 0 to |entries|
      invariant CollectFirst(p, inputs, entries, k) == Collected(artifacts, warnings)
      invariant total == TotalSize(artifacts)
    {
      var e := entries[k];
      var name := p.normalize(e.name);
      var suffix := p.suffix(name);
      if e.name in inputs || name in inputs || MimeOf(suffix).None? {
        continue;
      }
      var verdict := Judge(p, name);
      if verdict == Raises {
        RaisingStays(p, inputs, entries, k + 1, |entries|);
        return Raised;
      }
      if verdict == Unsafe {
        warnings := warnings + [Warning(UnsafeName, name)];
        continue;
      }
      if !e.regular {
        warnings := warnings + [Warning(NotRegular, name)];
        continue;
      }
      if |artifacts| >= MAX_ARTIFACTS {
        warnings := warnings + [Warning(TooMany, name)];
        continue;
      }
      if e.content.None? {
        warnings := warnings + [Warning(ReadFailed, name)];
        continue;
      }
      var content := Take(e.content.value, MAX_ARTIFACT_BYTES + 1);
      if content == [] {
        warnings := warnings + [Warning(EmptyFile, name)];
        continue;
      }
      if |content| > MAX_ARTIFACT_BYTES {
        warnings := warnings + [Warning(TooBig, name)];
        continue;
      }
      if total + |content| > MAX_TOTAL_ARTIFACT_BYTES {
        warnings := warnings + [Warning(Aggregate, name)];
        continue;
      }
      var checked := p.content(suffix, content);
      if GivesUp(checked) {
        RaisingStays(p, inputs, entries, k + 1, |entries|);
        return Raised;
      }
      if checked == Malformed {
        warnings := warnings + [Warning(BadContent, name)];
        continue;
      }
      total := total + |content|;
      artifacts := artifacts + [Artifact(name, MimeOf(suffix).value, |content|, p.sha256(content), Encode(content))];
    }
    r := Collected(artifacts, warnings);
  }

  // ----- The broker -----

  datatype Json =
    | Null
    | Bool(b: bool)
    | Int(i: int)
    | Float
    | Str(s: Text)
    | List(items: seq<Json>)
    | Object(fields: map<Text, Json>)

  /** The broker's answer: a list, a ValueError, or what is none: the TypeError that comparing a digest with
      characters outside ASCII gives, and the RecursionError of a content nested too deeply. */
  datatype Review = Valid(artifacts: seq<Artifact>) | Rejected | Throws

  function Get(item: Json, key: Text): Json
    requires item.Object?
  {
    if key in item.fields then item.fields[key] else Null
  }

  predicate Ascii(t: Text) {
    forall c <- t :: c < 128
  }

  /** The typed fields of an entry, or None when one is missing, of another type or not allowed. */
  function Fields(p: Policy, item: Json): Option<Artifact> {
    if !item.Object? then None
    else
      var name, mime, encoded := Get(item, T("name")), Get(item, T("mime_type")), Get(item, T("content_base64"));
      var digest, size := Get(item, T("sha256")), Get(item, T("size_bytes"));
      if !name.Str? || Judge(p, name.s) != Safe then None
      else if MimeOf(p.suffix(name.s)).None? || mime != Str(MimeOf(p.suffix(name.s)).value) then None
      else if !encoded.Str? || !digest.Str? || !size.Int? then None
      else Some(Artifact(name.s, mime.s, size.i, digest.s, encoded.s))
  }

  /** One more entry after the accepted ones. */
  function ReviewOne(p: Policy, r: Review, item: Json): Review {
    if !r.Valid? then r
    else if Fields(p, item).None? then Rejected
    else
      var a := Fields(p, item).value;
      match Decode(a.encoded)
      case None => Rejected
      case Some(content) =>
        if content == [] || |content| != a.size || |content| > MAX_ARTIFACT_BYTES then Rejected
        else if TotalSize(r.artifacts) + |content| > MAX_TOTAL_ARTIFACT_BYTES then Rejected
        else if !Ascii(p.lower(a.sha)) then Throws
        else if p.lower(a.sha) != p.sha256(content) then Rejected
        else if p.content(p.suffix(a.name), content).TooDeep? then Throws
        else if p.content(p.suffix(a.name), content) != Fine then Rejected
        else Valid(r.artifacts + [Artifact(a.name, a.mime, |content|, p.sha256(content), Encode(content))])
  }

  function ReviewFirst(p: Policy, items: seq<Json>, n: nat): Review
    requires n <= |items|
  {
    if n == 0 then Valid([]) else ReviewOne(p, ReviewFirst(p, items, n - 1), items[n - 1])
  }

  function Reviewed(p: Policy, value: Json): Review {
    match value
    case Null => Valid([])
    case List(items) => if |items| > MAX_ARTIFACTS then Rejected else ReviewFirst(p, items, |items|)
    case _ => Rejected
  }

  lemma {:induction false} RefusalStays(p: Policy, items: seq<Json>, m: nat, n: nat)
    requires m <= n <= |items| && !ReviewFirst(p, items, m).Valid?
    ensures ReviewFirst(p, items, n) == ReviewFirst(p, items, m)
  {
    hide Fields, Ascii, Encode, Decode, TotalSize;
    if m < n {
      RefusalStays(p, items, m, n - 1);
    }
  }

  lemma Refuses(p: Policy, items: seq<Json>, k: nat)
    requires k < |items| && !ReviewOne(p, ReviewFirst(p, items, k), items[k]).Valid?
    ensures ReviewFirst(p, items, |items|) == ReviewOne(p, ReviewFirst(p, items, k), items[k])
  {
    hide ReviewOne;
    RefusalStays(p, items, k + 1, |items|);
  }

  lemma NextReview(p: Policy, items: seq<Json>, k: nat)
    requires k < |items|
    ensures ReviewFirst(p, items, k + 1) == ReviewOne(p, ReviewFirst(p, items, k), items[k])
  {
  }

  lemma NoReview(p: Policy, items: seq<Json>)
    ensures ReviewFirst(p, items, 0) == Valid([])
  {
  }

  /** `_validated_artifacts` */
  method ValidatedArtifacts(p: Policy, value: Json) returns (r: Review)
    ensures r == Reviewed(p, value)
  {
    hide Fields, Ascii, Encode, Decode, ReviewFirst;
    if value == Null {
      return Valid([]);
    }
    if !value.List? || |value.items| > MAX_ARTIFACTS {
      return Rejected;
    }
    var items := value.items;
    NoReview(p, items);
    var validated: seq<Artifact>, total := [], 0;
    for k := 0 to |items|
      invariant ReviewFirst(p, items, k) == Valid(validated)
      invariant total == TotalSize(validated)
    {
      var checked := Fields(p, items[k]);
      if checked.None? {
        Refuses(p, items, k);
        return Rejected;
      }
      var a := checked.value;
      var content := Decode(a.encoded);
      if content.None? || content.value == [] || |content.value| != a.size || |content.value| > MAX_ARTIFACT_BYTES {
        Refuses(p, items, k);
        return Rejected;
      }
      total := total + |content.value|;
      if total > MAX_TOTAL_ARTIFACT_BYTES {
        Refuses(p, items, k);
        return Rejected;
      }
      if !Ascii(p.lower(a.sha)) {
        Refuses(p, items, k);
        return Throws;
      }
      var actual := p.sha256(content.value);
      if p.lower(a.sha) != actual {
        Refuses(p, items, k);
        return Rejected;
      }
      var finding := p.content(p.suffix(a.name), content.value);
      if finding != Fine {
        Refuses(p, items, k);
        return if finding.TooDeep? then Throws else Rejected;
      }
      ghost var before := validated;
      validated := validated + [Artifact(a.name, a.mime, |content.value|, actual, Encode(content.value))];
      assert ReviewOne(p, Valid(before), items[k]) == Valid(validated);
      NextReview(p, items, k);
    }
    r := Valid(validated);
  }

  // ----- The two sides agree -----

  function AsJson(a: Artifact): Json {
    Object(map[
      T("name") := Str(a.name),
      T("mime_type") := Str(a.mime),
      T("size_bytes") := Int(a.size),
      T("sha256") := Str(a.sha),
      T("content_base64") := Str(a.encoded)
    ])
  }

  function Report(artifacts: seq<Artifact>): Json {
    List(seq(|artifacts|, i requires 0 <= i < |artifacts| => AsJson(artifacts[i])))
  }

  /** Hexadecimal digits in lower case. */
  predicate HexText(t: Text) {
    forall c <- t :: 48 <= c <= 57 || 97 <= c <= 102
  }

  /** A digest is 64 hexadecimal digits, which lower-casing leaves alone. */
  ghost predicate HexDigests(p: Policy) {
    forall c: Bytes :: p.lower(p.sha256(c)) == p.sha256(c) && HexText(p.sha256(c)) && |p.sha256(c)| == 64
  }

  lemma FieldsOfReport(p: Policy, a: Artifact)
    requires Judge(p, a.name).Safe? && MimeOf(p.suffix(a.name)) == Some(a.mime)
    ensures Fields(p, AsJson(a)) == Some(a)
  {
    hide Judge, MimeOf;
    assert T("name")[0] == 110 && T("mime_type")[0] == 109 && T("content_base64")[0] == 99;
    assert T("size_bytes")[0] == 115 && T("sha256")[0] == 115;
    assert T("size_bytes")[1] == 105 && T("sha256")[1] == 104;
  }

  /** What a collected list is, entry by entry. */
  ghost predicate Sound(p: Policy, inputs: set<Text>, a: Artifact) {
    && a.name !in inputs && Judge(p, a.name).Safe? && MimeOf(p.suffix(a.name)) == Some(a.mime)
    && exists c: Bytes ::
         && 0 < |c| == a.size <= MAX_ARTIFACT_BYTES && a.sha == p.sha256(c) && a.encoded == Encode(c)
         && p.content(p.suffix(a.name), c) == Fine
  }

  ghost predicate AllSound(p: Policy, inputs: set<Text>, artifacts: seq<Artifact>) {
    && |artifacts| <= MAX_ARTIFACTS && TotalSize(artifacts) <= MAX_TOTAL_ARTIFACT_BYTES
    && forall a <- artifacts :: Sound(p, inputs, a)
  }

  lemma {:induction false} CollectedAreSound(p: Policy, inputs: set<Text>, entries: seq<DirEntry>, n: nat)
    requires n <= |entries| && CollectFirst(p, inputs, entries, n).Collected?
    ensures AllSound(p, inputs, CollectFirst(p, inputs, entries, n).artifacts)
  {
    hide Judge, MimeOf, Encode, Candidate, SkipReason, CheckRaises, Sound;
    if n > 0 {
      CollectedAreSound(p, inputs, entries, n - 1);
      var h, e := CollectFirst(p, inputs, entries, n - 1), entries[n - 1];
      if Candidate(p, inputs, e) && SkipReason(p, h.artifacts, e).None? {
        TakenIsSound(p, inputs, h.artifacts, e);
        var a := Built(p, p.normalize(e.name), e.content.value);
        assert (h.artifacts + [a])[..|h.artifacts|] == h.artifacts;
      }
    }
  }

  lemma TakenIsSound(p: Policy, inputs: set<Text>, taken: seq<Artifact>, e: DirEntry)
    requires Candidate(p, inputs, e) && SkipReason(p, taken, e).None?
    ensures MimeOf(p.suffix(p.normalize(e.name))).Some? && e.content.Some?
    ensures Sound(p, inputs, Built(p, p.normalize(e.name), e.content.value))
    ensures |taken| < MAX_ARTIFACTS && TotalSize(taken) + |e.content.value| <= MAX_TOTAL_ARTIFACT_BYTES
  {
    hide Judge, MimeOf, Encode, TotalSize;
  }

  lemma {:induction false} PrefixIsSmaller(p: Policy, inputs: set<Text>, artifacts: seq<Artifact>, n: nat)
    requires n <= |artifacts| && forall a <- artifacts :: Sound(p, inputs, a)
    ensures TotalSize(artifacts[..n]) <= TotalSize(artifacts)
    decreases |artifacts| - n
  {
    hide Judge, MimeOf, Encode;
    if n < |artifacts| {
      PrefixIsSmaller(p, inputs, artifacts, n + 1);
      assert artifacts[..n + 1][..n] == artifacts[..n];
      assert Sound(p, inputs, artifacts[n]);
    } else {
      assert artifacts[..n] == artifacts;
    }
  }

  lemma EntryIsKept(p: Policy, taken: seq<Artifact>, item: Json, a: Artifact, c: Bytes)
    requires Fields(p, item) == Some(a) && Decode(a.encoded) == Some(c)
    requires 0 < |c| == a.size <= MAX_ARTIFACT_BYTES && TotalSize(taken) + a.size <= MAX_TOTAL_ARTIFACT_BYTES
    requires Ascii(p.lower(a.sha)) && p.lower(a.sha) == p.sha256(c) && p.content(p.suffix(a.name), c) == Fine
    ensures ReviewOne(p, Valid(taken), item)
         == Valid(taken + [Artifact(a.name, a.mime, |c|, p.sha256(c), Encode(c))])
  {
    hide Fields, Ascii, Decode, Encode, TotalSize;
  }

  lemma ReviewKeeps(p: Policy, inputs: set<Text>, taken: seq<Artifact>, a: Artifact)
    requires HexDigests(p) && Sound(p, inputs, a) && TotalSize(taken) + a.size <= MAX_TOTAL_ARTIFACT_BYTES
    ensures ReviewOne(p, Valid(taken), AsJson(a)) == Valid(taken + [a])
  {
    hide Judge, MimeOf, Encode, Decode, Fields, Ascii, AsJson, TotalSize, HexDigests, ReviewOne;
    FieldsOfReport(p, a);
    var c: Bytes :| 0 < |c| == a.size <= MAX_ARTIFACT_BYTES && a.sha == p.sha256(c) && a.encoded == Encode(c)
                    && p.content(p.suffix(a.name), c) == Fine;
    Base64RoundTrip(c);
    DigestOf(p, c);
    EntryIsKept(p, taken, AsJson(a), a, c);
  }

  lemma DigestOf(p: Policy, c: Bytes)
    requires HexDigests(p)
    ensures p.lower(p.sha256(c)) == p.sha256(c) && Ascii(p.lower(p.sha256(c)))
    ensures HexText(p.sha256(c)) && |p.sha256(c)| == 64
  {
  }

  lemma {:induction false} ReportIsAccepted(p: Policy, inputs: set<Text>, artifacts: seq<Artifact>, n: nat)
    requires HexDigests(p) && AllSound(p, inputs, artifacts) && n <= |artifacts|
    ensures ReviewFirst(p, Report(artifacts).items, n) == Valid(artifacts[..n])
  {
    hide Judge, MimeOf, Encode, Decode, Fields, ReviewOne, Sound, HexDigests, AsJson, TotalSize;
    if n > 0 {
      ReportIsAccepted(p, inputs, artifacts, n - 1);
      var a := artifacts[n - 1];
      PrefixIsSmaller(p, inputs, artifacts, n);
      PrefixTotal(artifacts, n - 1);
      ReviewKeeps(p, inputs, artifacts[..n - 1], a);
      assert artifacts[..n] == artifacts[..n - 1] + [a];
    }
  }

  lemma PrefixTotal(artifacts: seq<Artifact>, n: nat)
    requires n < |artifacts|
    ensures TotalSize(artifacts[..n + 1]) == TotalSize(artifacts[..n]) + artifacts[n].size
  {
    assert artifacts[..n + 1][..n] == artifacts[..n];
  }

  /** Whatever the run left in its directory, the broker accepts the collected list and returns it
      unchanged; no input is in it under either spelling, and the limits hold. */
  lemma CollectedIsAcceptedUnchanged(p: Policy, inputs: set<Text>, scan: Option<seq<DirEntry>>)
    requires HexDigests(p) && Collect(p, inputs, scan).Collected?
    ensures var list := Collect(p, inputs, scan).artifacts;
            && Reviewed(p, Report(list)) == Valid(list)
            && (forall a <- list :: a.name !in inputs)
            && |list| <= MAX_ARTIFACTS && TotalSize(list) <= MAX_TOTAL_ARTIFACT_BYTES
  {
    hide CollectFirst, ReviewFirst, HexDigests;
    var list := Collect(p, inputs, scan).artifacts;
    if scan.Some? {
      CollectedAreSound(p, inputs, scan.value, |scan.value|);
    }
    assert AllSound(p, inputs, list);
    assert forall a <- list :: Sound(p, inputs, a);
    ReportIsAccepted(p, inputs, list, |list|);
    assert list[..|list|] == list;
  }

  // ----- What is lost -----

  function Candidates(p: Policy, inputs: set<Text>, entries: seq<DirEntry>, n: nat): nat
    requires n <= |entries|
  {
    if n == 0 then 0
    else Candidates(p, inputs, entries, n - 1) + if Candidate(p, inputs, entries[n - 1]) then 1 else 0
  }

  /** No candidate disappears silently: each is an artifact or has its own warning. */
  lemma {:induction false} EveryCandidateIsAccountedFor(p: Policy, inputs: set<Text>, entries: seq<DirEntry>, n: nat)
    requires n <= |entries| && CollectFirst(p, inputs, entries, n).Collected?
    ensures var h := CollectFirst(p, inputs, entries, n);
            |h.artifacts| + |h.warnings| == Candidates(p, inputs, entries, n)
  {
    hide Candidate, SkipReason, CheckRaises, Built;
    if n > 0 {
      EveryCandidateIsAccountedFor(p, inputs, entries, n - 1);
    }
  }

  /** The name of a candidate cannot be encoded: the directory held bytes that are not UTF-8. */
  predicate Undecodable(p: Policy, inputs: set<Text>, e: DirEntry) {
    Candidate(p, inputs, e) && Judge(p, p.normalize(e.name)).Raises?
  }

  /** The content check gives up instead of answering, as for an integer of over 4300 digits. */
  predicate Unparsable(p: Policy, inputs: set<Text>, e: DirEntry) {
    Candidate(p, inputs, e) && e.content.Some? && GivesUp(p.content(p.suffix(p.normalize(e.name)), e.content.value))
  }

  /** A candidate that is read and parsed if there is room for it. */
  predicate Eligible(p: Policy, inputs: set<Text>, e: DirEntry) {
    && Candidate(p, inputs, e) && Judge(p, p.normalize(e.name)).Safe? && e.regular
    && e.content.Some? && 0 < |e.content.value| <= MAX_ARTIFACT_BYTES
  }

  predicate Fits(used: (nat, nat), e: DirEntry)
    requires e.content.Some?
  {
    used.0 < MAX_ARTIFACTS && used.1 + |e.content.value| <= MAX_TOTAL_ARTIFACT_BYTES
  }

  /** The files and bytes taken up when the first n entries are packed in order: each eligible one with a
      fine content takes its room if there is enough left. */
  function Packed(p: Policy, inputs: set<Text>, entries: seq<DirEntry>, n: nat): (nat, nat)
    requires n <= |entries|
  {
    if n == 0 then (0, 0)
    else
      var used, e := Packed(p, inputs, entries, n - 1), entries[n - 1];
      if Eligible(p, inputs, e) && Fits(used, e) && p.content(p.suffix(p.normalize(e.name)), e.content.value).Fine?
      then (used.0 + 1, used.1 + |e.content.value|) else used
  }

  /** An entry whose own check raises: its name cannot be encoded, or its content defeats the parser and
      there is room left for it. */
  predicate Fatal(p: Policy, inputs: set<Text>, entries: seq<DirEntry>, i: nat)
    requires i < |entries|
  {
    var e := entries[i];
    || Undecodable(p, inputs, e)
    || (Eligible(p, inputs, e) && Unparsable(p, inputs, e) && Fits(Packed(p, inputs, entries, i), e))
  }

  lemma PackedStep(p: Policy, inputs: set<Text>, taken: seq<Artifact>, e: DirEntry, used: (nat, nat))
    requires Candidate(p, inputs, e) && used == (|taken|, TotalSize(taken))
    ensures CheckRaises(p, taken, e) <==>
            (|| Undecodable(p, inputs, e)
             || (Eligible(p, inputs, e) && Unparsable(p, inputs, e) && Fits(used, e)))
    ensures SkipReason(p, taken, e).None? <==>
            (&& Eligible(p, inputs, e) && Fits(used, e)
             && p.content(p.suffix(p.normalize(e.name)), e.content.value).Fine?)
  {
    hide Judge, Candidate, TotalSize;
  }

  /** Until a check raises, what is collected is what is packed. */
  lemma {:induction false} CollectedIsPacked(p: Policy, inputs: set<Text>, entries: seq<DirEntry>, n: nat)
    requires n <= |entries|
    ensures var h := CollectFirst(p, inputs, entries, n);
      && (h.Raised? <==> exists i: nat | i < n :: Fatal(p, inputs, entries, i))
      && (h.Collected? ==> Packed(p, inputs, entries, n) == (|h.artifacts|, TotalSize(h.artifacts)))
  {
    hide Candidate, SkipReason, CheckRaises, Eligible, Undecodable, Unparsable, Fits, Built;
    if n > 0 {
      CollectedIsPacked(p, inputs, entries, n - 1);
      var h, e := CollectFirst(p, inputs, entries, n - 1), entries[n - 1];
      if !Candidate(p, inputs, e) {
        OnlyCandidatesMatter(p, inputs, e);
      }
      if h.Collected? && Candidate(p, inputs, e) {
        PackedStep(p, inputs, h.artifacts, e, Packed(p, inputs, entries, n - 1));
        if SkipReason(p, h.artifacts, e).None? {
          BuiltSize(p, inputs, h.artifacts, e);
        }
      }
      assert (exists i: nat | i < n :: Fatal(p, inputs, entries, i))
          <==> (exists i: nat | i < n - 1 :: Fatal(p, inputs, entries, i)) || Fatal(p, inputs, entries, n - 1);
    }
  }

  lemma OnlyCandidatesMatter(p: Policy, inputs: set<Text>, e: DirEntry)
    requires !Candidate(p, inputs, e)
    ensures !Eligible(p, inputs, e) && !Undecodable(p, inputs, e)
  {
  }

  lemma BuiltSize(p: Policy, inputs: set<Text>, taken: seq<Artifact>, e: DirEntry)
    requires Candidate(p, inputs, e) && SkipReason(p, taken, e).None?
    ensures MimeOf(p.suffix(p.normalize(e.name))).Some? && e.content.Some?
    ensures TotalSize(taken + [Built(p, p.normalize(e.name), e.content.value)]) == TotalSize(taken) + |e.content.value|
  {
    hide Judge, MimeOf, Encode;
    TakenIsSound(p, inputs, taken, e);
    var a := Built(p, p.normalize(e.name), e.content.value);
    assert (taken + [a])[..|taken|] == taken;
  }

  /** A run is lost if and only if a candidate's name cannot be encoded, or a candidate's content defeats the
      parser and the files before it leave room for it. */
  lemma RunLostIffFatalEntry(p: Policy, inputs: set<Text>, entries: seq<DirEntry>)
    ensures Collect(p, inputs, Some(entries)).Raised? <==> exists i: nat | i < |entries| :: Fatal(p, inputs, entries, i)
  {
    CollectedIsPacked(p, inputs, entries, |entries|);
  }

  /** One candidate with an undecodable name loses the whole run, whatever else is there. */
  lemma UndecodableNameLosesTheRun(p: Policy, inputs: set<Text>, entries: seq<DirEntry>, i: nat)
    requires i < |entries| && Undecodable(p, inputs, entries[i])
    ensures Collect(p, inputs, Some(entries)).Raised?
  {
    hide Judge, SkipReason, Candidate;
    assert CollectFirst(p, inputs, entries, i + 1).Raised?;
    RaisingStays(p, inputs, entries, i + 1, |entries|);
  }

  lemma {:induction false} NoBadNameNoRaise(p: Policy, inputs: set<Text>, entries: seq<DirEntry>, n: nat)
    requires n <= |entries|
    requires forall i | 0 <= i < n :: !Undecodable(p, inputs, entries[i]) && !Unparsable(p, inputs, entries[i])
    ensures CollectFirst(p, inputs, entries, n).Collected?
  {
    hide Judge, Candidate;
    if n > 0 {
      NoBadNameNoRaise(p, inputs, entries, n - 1);
      assert !Undecodable(p, inputs, entries[n - 1]) && !Unparsable(p, inputs, entries[n - 1]);
    }
  }

  /** A run is lost exactly when some candidate's own checks raise once its turn comes. */
  lemma {:induction false} RunLostIff(p: Policy, inputs: set<Text>, entries: seq<DirEntry>, n: nat)
    requires n <= |entries|
    ensures CollectFirst(p, inputs, entries, n).Raised? <==>
            exists i | 0 <= i < n :: var h := CollectFirst(p, inputs, entries, i);
              h.Collected? && Candidate(p, inputs, entries[i]) && CheckRaises(p, h.artifacts, entries[i])
  {
    hide Candidate, CheckRaises, SkipReason, Built;
    if n > 0 {
      RunLostIff(p, inputs, entries, n - 1);
    }
  }

  /** Where every file's content can be parsed, the run is lost exactly by an undecodable name. */
  lemma RunLostIffUndecodableName(p: Policy, inputs: set<Text>, entries: seq<DirEntry>)
    requires forall e <- entries :: !Unparsable(p, inputs, e)
    ensures Collect(p, inputs, Some(entries)).Raised? <==> exists e <- entries :: Undecodable(p, inputs, e)
  {
    hide Undecodable, Unparsable, CollectFirst;
    if e :| e in entries && Undecodable(p, inputs, e) {
      var i :| 0 <= i < |entries| && entries[i] == e;
      UndecodableNameLosesTheRun(p, inputs, entries, i);
    } else {
      NoBadNameNoRaise(p, inputs, entries, |entries|);
    }
  }

  /** Such a name has a lone surrogate in it. */
  lemma UndecodableNamesHoldSurrogates(p: Policy, inputs: set<Text>, e: DirEntry)
    requires Undecodable(p, inputs, e)
    ensures exists c <- p.normalize(e.name) :: HighSurrogate(c) || LowSurrogate(c)
  {
    var name := p.normalize(e.name);
    Utf8Fails(name);
    var i :| 0 <= i < |name| && (HighSurrogate(name[i]) || LowSurrogate(name[i]));
    assert name[i] in name;
  }
}
