/** Which artifact lists the broker accepts (backend/app/sandbox_broker.py), entry by entry, and which files
    the runner collects (sandbox/runner.py), file by file. */
module ArtifactReview {
  import opened Artifacts
  import opened Filenames
  import opened PyText
  import opened Wrappers

  // ----- One entry -----

  /** The entry is an object with a safe name, the type listed for its suffix, and two strings and an integer
      for the rest. */
  predicate WellTyped(p: Policy, item: Json) {
    && item.Object?
    && Get(item, T("name")).Str? && Judge(p, Get(item, T("name")).s) == Safe
    && MimeOf(p.suffix(Get(item, T("name")).s)).Some?
    && Get(item, T("mime_type")) == Str(MimeOf(p.suffix(Get(item, T("name")).s)).value)
    && Get(item, T("content_base64")).Str? && Get(item, T("sha256")).Str? && Get(item, T("size_bytes")).Int?
  }

  /** Its content decodes to as many bytes as it says, at least one and no more than an artifact may have. */
  predicate RightSize(p: Policy, item: Json)
    requires WellTyped(p, item)
  {
    var c := Decode(Get(item, T("content_base64")).s);
    c.Some? && 1 <= |c.value| <= MAX_ARTIFACT_BYTES && Get(item, T("size_bytes")).i == |c.value|
  }

  function ContentOf(p: Policy, item: Json): Bytes
    requires WellTyped(p, item) && RightSize(p, item)
  {
    Decode(Get(item, T("content_base64")).s).value
  }

  function LoweredDigest(p: Policy, item: Json): Text
    requires WellTyped(p, item)
  {
    p.lower(Get(item, T("sha256")).s)
  }

  function FindingOf(p: Policy, item: Json): Finding
    requires WellTyped(p, item) && RightSize(p, item)
  {
    p.content(p.suffix(Get(item, T("name")).s), ContentOf(p, item))
  }

  /** An entry that is accepted on its own. */
  predicate Acceptable(p: Policy, item: Json) {
    && WellTyped(p, item) && RightSize(p, item)
    && LoweredDigest(p, item) == p.sha256(ContentOf(p, item)) && FindingOf(p, item) == Fine
  }

  /** What is returned for it: the digest and the content are the broker's own. */
  function Returned(p: Policy, item: Json): Artifact
    requires WellTyped(p, item) && RightSize(p, item)
  {
    var c := ContentOf(p, item);
    Artifact(Get(item, T("name")).s, Get(item, T("mime_type")).s, |c|, p.sha256(c), Encode(c))
  }

  lemma FieldsIff(p: Policy, item: Json)
    ensures Fields(p, item).Some? <==> WellTyped(p, item)
    ensures WellTyped(p, item) ==>
              Fields(p, item) == Some(Artifact(Get(item, T("name")).s, Get(item, T("mime_type")).s,
                Get(item, T("size_bytes")).i, Get(item, T("sha256")).s, Get(item, T("content_base64")).s))
  {
    hide Judge, MimeOf, T;
  }

  /** The answer to one more entry after the accepted ones. */
  lemma OneEntry(p: Policy, taken: seq<Artifact>, item: Json)
    requires HexDigests(p)
    ensures var r := ReviewOne(p, Valid(taken), item);
      && (r.Valid? <==> Acceptable(p, item) && TotalSize(taken) + |ContentOf(p, item)| <= MAX_TOTAL_ARTIFACT_BYTES)
      && (r.Valid? ==> r == Valid(taken + [Returned(p, item)]))
      && (r == Throws <==>
            && WellTyped(p, item) && RightSize(p, item)
            && TotalSize(taken) + |ContentOf(p, item)| <= MAX_TOTAL_ARTIFACT_BYTES
            && (|| !Ascii(LoweredDigest(p, item))
                || (LoweredDigest(p, item) == p.sha256(ContentOf(p, item)) && FindingOf(p, item) == TooDeep)))
  {
    hide Judge, MimeOf, T, Decode, Encode, Fields, Ascii, TotalSize, WellTyped, HexDigests;
    FieldsIff(p, item);
    if WellTyped(p, item) && RightSize(p, item) {
      DigestOf(p, ContentOf(p, item));
      DigestIsAscii(p, ContentOf(p, item));
    }
  }

  lemma DigestIsAscii(p: Policy, c: Bytes)
    requires HexDigests(p)
    ensures Ascii(p.sha256(c))
  {
  }

  // ----- A list -----

  /** The bytes of the first n entries. */
  function DecodedTotal(p: Policy, items: seq<Json>, n: nat): nat
    requires n <= |items| && forall i | 0 <= i < n :: WellTyped(p, items[i]) && RightSize(p, items[i])
  {
    if n == 0 then 0 else DecodedTotal(p, items, n - 1) + |ContentOf(p, items[n - 1])|
  }

  ghost predicate AcceptableUpTo(p: Policy, items: seq<Json>, n: nat)
    requires n <= |items|
  {
    && (forall i | 0 <= i < n :: Acceptable(p, items[i]))
    && DecodedTotal(p, items, n) <= MAX_TOTAL_ARTIFACT_BYTES
  }

  lemma UpToStep(p: Policy, items: seq<Json>, n: nat)
    requires n < |items|
    ensures AcceptableUpTo(p, items, n + 1) <==>
            (&& AcceptableUpTo(p, items, n) && Acceptable(p, items[n])
             && DecodedTotal(p, items, n) + |ContentOf(p, items[n])| <= MAX_TOTAL_ARTIFACT_BYTES)
  {
    hide WellTyped, RightSize, ContentOf, LoweredDigest, FindingOf;
    if forall i | 0 <= i < n + 1 :: Acceptable(p, items[i]) {
      assert DecodedTotal(p, items, n + 1) == DecodedTotal(p, items, n) + |ContentOf(p, items[n])|;
    }
  }

  lemma {:induction false} FirstEntries(p: Policy, items: seq<Json>, n: nat)
    requires HexDigests(p) && n <= |items|
    ensures var r := ReviewFirst(p, items, n);
      && (r.Valid? <==> AcceptableUpTo(p, items, n))
      && (r.Valid? ==>
            && |r.artifacts| == n && TotalSize(r.artifacts) == DecodedTotal(p, items, n)
            && forall i | 0 <= i < n :: r.artifacts[i] == Returned(p, items[i]))
  {
    hide WellTyped, RightSize, ContentOf, Returned, ReviewOne, HexDigests, LoweredDigest, FindingOf, TotalSize;
    assert TotalSize([]) == 0 by {
      NoSize();
    }
    if n > 0 {
      FirstEntries(p, items, n - 1);
      UpToStep(p, items, n - 1);
      var before := ReviewFirst(p, items, n - 1);
      if before.Valid? {
        OneEntry(p, before.artifacts, items[n - 1]);
        if ReviewFirst(p, items, n).Valid? {
          ReturnedSize(p, items[n - 1]);
          OneMore(before.artifacts, Returned(p, items[n - 1]));
        }
      } else {
        RefusalStays(p, items, n - 1, n);
      }
    }
  }

  lemma NoSize()
    ensures TotalSize([]) == 0
  {
  }

  lemma OneMore(before: seq<Artifact>, a: Artifact)
    ensures TotalSize(before + [a]) == TotalSize(before) + a.size
  {
    assert (before + [a])[..|before|] == before;
  }

  lemma ReturnedSize(p: Policy, item: Json)
    requires WellTyped(p, item) && RightSize(p, item)
    ensures Returned(p, item).size == |ContentOf(p, item)|
  {
  }

  /** A list is accepted if and only if it has no more entries than allowed, each of them is acceptable, and
      together they decode to no more bytes than allowed. */
  lemma AcceptedIff(p: Policy, items: seq<Json>)
    requires HexDigests(p)
    ensures Reviewed(p, List(items)).Valid? <==>
            |items| <= MAX_ARTIFACTS && AcceptableUpTo(p, items, |items|)
  {
    hide AcceptableUpTo, HexDigests, ReviewFirst;
    FirstEntries(p, items, |items|);
  }

  /** Each entry of an accepted list is returned with the broker's own digest and encoding of its content. */
  lemma AcceptedEntries(p: Policy, items: seq<Json>, i: nat)
    requires HexDigests(p) && Reviewed(p, List(items)).Valid? && i < |items|
    ensures |Reviewed(p, List(items)).artifacts| == |items| && Acceptable(p, items[i])
    ensures Reviewed(p, List(items)).artifacts[i] == Returned(p, items[i])
  {
    hide HexDigests, ReviewFirst, Acceptable, Returned;
    FirstEntries(p, items, |items|);
  }

  /** Anything but a list is refused, except for null. */
  lemma OnlyListsAndNull(p: Policy, value: Json)
    requires !value.List?
    ensures Reviewed(p, value) == if value == Null then Valid([]) else Rejected
  {
  }

  /** The entry at which a list is not refused but fails with another error than a ValueError. */
  ghost predicate FailsAt(p: Policy, items: seq<Json>, k: nat) {
    && k < |items| && AcceptableUpTo(p, items, k)
    && var item := items[k];
       && WellTyped(p, item) && RightSize(p, item)
       && DecodedTotal(p, items, k) + |ContentOf(p, item)| <= MAX_TOTAL_ARTIFACT_BYTES
       && (|| !Ascii(LoweredDigest(p, item))
           || (LoweredDigest(p, item) == p.sha256(ContentOf(p, item)) && FindingOf(p, item) == TooDeep))
  }

  lemma {:induction false} FirstFailure(p: Policy, items: seq<Json>, n: nat)
    requires HexDigests(p) && n <= |items|
    ensures ReviewFirst(p, items, n) == Throws <==> exists k: nat | k < n :: FailsAt(p, items, k)
  {
    hide WellTyped, RightSize, ContentOf, ReviewOne, HexDigests, LoweredDigest, FindingOf, Acceptable, AcceptableUpTo, Ascii, Returned;
    if n > 0 {
      FirstFailure(p, items, n - 1);
      FirstEntries(p, items, n - 1);
      NextReview(p, items, n - 1);
      var before := ReviewFirst(p, items, n - 1);
      if before.Valid? {
        OneEntry(p, before.artifacts, items[n - 1]);
      } else {
        RefusalStays(p, items, n - 1, n);
      }
      assert (exists k: nat | k < n :: FailsAt(p, items, k))
          <==> (exists k: nat | k < n - 1 :: FailsAt(p, items, k)) || FailsAt(p, items, n - 1);
    }
  }

  /** A review ends in another error exactly when the first entry that is not accepted has a digest outside
      ASCII, or all its fields are right and its content is nested too deeply. */
  lemma FailsIff(p: Policy, items: seq<Json>)
    requires HexDigests(p)
    ensures Reviewed(p, List(items)) == Throws <==>
            |items| <= MAX_ARTIFACTS && exists k: nat | k < |items| :: FailsAt(p, items, k)
  {
    hide FailsAt, HexDigests, ReviewFirst;
    FirstFailure(p, items, |items|);
  }

  // ----- What the runner collects -----

  /** The entry is packed when its turn comes. */
  predicate IsPacked(p: Policy, inputs: set<Text>, entries: seq<DirEntry>, i: nat)
    requires i < |entries|
  {
    && Eligible(p, inputs, entries[i]) && Fits(Packed(p, inputs, entries, i), entries[i])
    && p.content(p.suffix(p.normalize(entries[i].name)), entries[i].content.value).Fine?
  }

  /** The artifacts of the packed entries among the first n: the canonical name, the listed type, and size,
      digest and encoding of the very content of the file. */
  function Expected(p: Policy, inputs: set<Text>, entries: seq<DirEntry>, n: nat): seq<Artifact>
    requires n <= |entries|
  {
    if n == 0 then []
    else if IsPacked(p, inputs, entries, n - 1) then
      var name, c := p.normalize(entries[n - 1].name), entries[n - 1].content.value;
      Expected(p, inputs, entries, n - 1) + [Artifact(name, MimeOf(p.suffix(name)).value, |c|, p.sha256(c), Encode(c))]
    else Expected(p, inputs, entries, n - 1)
  }

  lemma {:induction false} CollectedAreExpected(p: Policy, inputs: set<Text>, entries: seq<DirEntry>, n: nat)
    requires n <= |entries| && CollectFirst(p, inputs, entries, n).Collected?
    ensures CollectFirst(p, inputs, entries, n).artifacts == Expected(p, inputs, entries, n)
  {
    hide Candidate, SkipReason, CheckRaises, Eligible, Undecodable, Unparsable, Fits, MimeOf, Encode, Packed;
    if n > 0 {
      CollectedAreExpected(p, inputs, entries, n - 1);
      CollectedIsPacked(p, inputs, entries, n - 1);
      var h, e := CollectFirst(p, inputs, entries, n - 1), entries[n - 1];
      if Candidate(p, inputs, e) {
        PackedStep(p, inputs, h.artifacts, e, Packed(p, inputs, entries, n - 1));
      } else {
        OnlyCandidatesMatter(p, inputs, e);
      }
    }
  }

  /** If no entry makes collecting raise, exactly the packed entries are collected, in their order. */
  lemma CollectsWhatIsPacked(p: Policy, inputs: set<Text>, entries: seq<DirEntry>)
    requires forall i: nat | i < |entries| :: !Fatal(p, inputs, entries, i)
    ensures var h := Collect(p, inputs, Some(entries));
      h.Collected? && h.artifacts == Expected(p, inputs, entries, |entries|)
  {
    hide Fatal, CollectFirst, Expected;
    RunLostIffFatalEntry(p, inputs, entries);
    CollectedAreExpected(p, inputs, entries, |entries|);
  }

  /** Neither spelling of the name is an input's, and the suffix of the canonical one is listed. */
  predicate Outgoing(p: Policy, inputs: set<Text>, e: DirEntry) {
    && !(e.name in inputs || p.normalize(e.name) in inputs)
    && p.suffix(p.normalize(e.name)) in {T(".pdf"), T(".csv"), T(".json"), T(".txt"), T(".md")}
  }

  predicate IsCollected(artifacts: seq<Artifact>, name: Text) {
    exists a <- artifacts :: a.name == name
  }

  predicate IsReported(warnings: seq<Warning>, name: Text) {
    exists w <- warnings :: w.name == name
  }

  /** Every file that may leave is collected or reported under its canonical name, and no other file is. */
  lemma {:induction false} NoFileIsLostSilently(p: Policy, inputs: set<Text>, entries: seq<DirEntry>, n: nat, name: Text)
    requires n <= |entries| && CollectFirst(p, inputs, entries, n).Collected?
    ensures var h := CollectFirst(p, inputs, entries, n);
      (IsCollected(h.artifacts, name) || IsReported(h.warnings, name)) <==>
        (exists i: nat | i < n :: Outgoing(p, inputs, entries[i]) && p.normalize(entries[i].name) == name)
  {
    hide Outgoing, Candidate, SkipReason, CheckRaises, MimeOf, Encode;
    if n > 0 {
      NoFileIsLostSilently(p, inputs, entries, n - 1, name);
      OutgoingIff(p, inputs, entries[n - 1]);
      var g, h := CollectFirst(p, inputs, entries, n - 1), CollectFirst(p, inputs, entries, n);
      assert (IsCollected(h.artifacts, name) || IsReported(h.warnings, name)) <==>
        (IsCollected(g.artifacts, name) || IsReported(g.warnings, name)
         || (Outgoing(p, inputs, entries[n - 1]) && p.normalize(entries[n - 1].name) == name)) by {
        ListsGrow(g, h, name);
      }
    }
  }

  lemma OutgoingIff(p: Policy, inputs: set<Text>, e: DirEntry)
    ensures Outgoing(p, inputs, e) <==> Candidate(p, inputs, e)
  {
  }

  lemma ListsGrow(g: Harvest, h: Harvest, name: Text)
    requires g.Collected? && h.Collected?
    ensures |h.artifacts| == |g.artifacts| + 1 && h.artifacts[..|g.artifacts|] == g.artifacts ==>
      (IsCollected(h.artifacts, name) <==>
        (IsCollected(g.artifacts, name) || h.artifacts[|g.artifacts|].name == name))
    ensures |h.warnings| == |g.warnings| + 1 && h.warnings[..|g.warnings|] == g.warnings ==>
      (IsReported(h.warnings, name) <==>
        (IsReported(g.warnings, name) || h.warnings[|g.warnings|].name == name))
  {
    if |h.artifacts| == |g.artifacts| + 1 && h.artifacts[..|g.artifacts|] == g.artifacts {
      assert h.artifacts == g.artifacts + [h.artifacts[|g.artifacts|]];
    }
    if |h.warnings| == |g.warnings| + 1 && h.warnings[..|g.warnings|] == g.warnings {
      assert h.warnings == g.warnings + [h.warnings[|g.warnings|]];
    }
  }
}
