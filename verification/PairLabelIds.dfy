/** Where the ids of the label codemod's output stand (scripts/codemods/pair-labels.py): what the
    insertions add to the ids of the source, and when two elements end up with one id. */
module PairLabelIds {
  import opened JsxIds
  import opened PairLabels
  import opened PyText
  import opened Wrappers

  // ----- What the insertions add -----

  /** The inserted htmlFor: no reading can go on in it, and none starts there. */
  lemma ForStops(id: Text, u: Text, a: Sought)
    ensures Stops(ForAttribute(id) + u, a)
    ensures (ForAttribute(id) + u)[0] == 32
  {
    var f := T(" htmlFor=\"");
    assert f == [32, 104, 116, 109, 108, 70, 111, 114, 61, 34];
    var t := ForAttribute(id) + u;
    assert t[0] == 32 && t[1..][0] == t[1] == 104;
    forall r | Live(r) ensures !Reads(r, t, a) {
      assert r.Inside? && r.rest != [] ==> r.rest[0] in r.rest;
      if Next(r, 32, a).Some? {
        assert Next(r, 32, a).value == r && Next(r, 104, a) == None;
      }
    }
  }

  lemma ForInsertion(m: Matchers, after: bool, id: Text, rest: Text, a: Sought)
    requires SlugText(id)
    ensures Places(m, after, ForAttribute(id) + rest, a) == Places(m, Joins(m, QUOTE), rest, a)
  {
    var f := T(" htmlFor=\"");
    assert f == [32, 104, 116, 109, 108, 70, 111, 114, 61, 34];
    assert T("\"") == [QUOTE];
    QuietSlug(f, id);
    assert ForAttribute(id) == f + id + [QUOTE];
    hide Quiet, Joins;
    QuietHasNoPlace(m, after, ForAttribute(id), rest, a);
  }

  lemma IdInsertion(m: Matchers, after: bool, id: Text, rest: Text, a: Sought)
    requires Plausible(a) && SlugText(id) && !m.word(32)
    ensures Places(m, after, IdAttribute(id) + rest, a)
         == (if a.id == id then 1 else 0) + Places(m, Joins(m, QUOTE), rest, a)
  {
    var b := Attribute(id);
    var tail := [100, 61, 34] + id + [QUOTE];
    assert T(" id=\"") == [32, 105, 100, 61, 34] && T("\"") == [QUOTE];
    assert IdAttribute(id) + rest == [32] + (b + rest);
    assert (b + rest)[0] == 105 && (b + rest)[1..] == tail + rest;
    ReadsAttribute(id, rest, a);
    QuietSlug([100, 61, 34], id);
    hide Reads, Plausible, Quiet, Attribute, IdAttribute;
    QuietSpace();
    QuietHasNoPlace(m, after, [32], b + rest, a);
    QuietHasNoPlace(m, Joins(m, 105), tail, rest, a);
  }

  lemma QuietSpace()
    ensures Quiet([32])
  {
  }

  lemma QuietTag(tag: Text)
    requires tag in TAGS
    ensures Quiet([LT] + tag)
  {
    var a, b, c := T("input"), T("select"), T("textarea");
    assert a == [105, 110, 112, 117, 116] && b == [115, 101, 108, 101, 99, 116];
    assert c == [116, 101, 120, 116, 97, 114, 101, 97];
  }

  // ----- From the source to the output -----

  /** One pair, as pure text: `done` and `left` are what follows it in the output and in the source. */
  lemma PairAdds(m: Matchers, after: bool, x: Text, y: Text, tag: Text, z: Text, done: Text, left: Text,
                 id: Text, a: Sought, n: nat)
    requires Plausible(a) && SlugText(id) && tag in TAGS && m.word(105) && !m.word(32)
    requires y != [] && y[0] == GT && done != [] && done[0] == GT && left != [] && left[0] == GT
    requires z == [] || !m.word(z[0])
    requires forall w :: Places(m, w, done, a) == Places(m, w, left, a) + n
    ensures Places(m, after, x + (ForAttribute(id) + (y + (([LT] + tag) + (IdAttribute(id) + (z + done))))), a)
         == Places(m, after, x + (y + (([LT] + tag) + (z + left))), a)
            + n + (if a.id == id then 1 else 0)
  {
    var w0 := JoinsUpTo(m, after, x);
    var w1 := JoinsUpTo(m, w0, y);
    var wt := JoinsUpTo(m, w1, [LT] + tag);
    var q := Joins(m, QUOTE);
    var inner, inner' := IdAttribute(id) + (z + done), z + left;
    var outer, outer' := ([LT] + tag) + inner, ([LT] + tag) + inner';
    QuietTag(tag);
    hide Places, Quiet, Plausible;
    SplitBefore(m, after, x, y + outer', a);
    SplitBefore(m, w0, y, outer', a);
    SplitFor(m, after, x, id, y + outer, a);
    SplitBefore(m, q, y, outer, a);
    assert JoinsUpTo(m, q, y) == w1;
    BeforeIsIrrelevant(m, q, w0, y, a);
    QuietHasNoPlace(m, w1, [LT] + tag, inner, a);
    QuietHasNoPlace(m, w1, [LT] + tag, inner', a);
    IdInsertion(m, wt, id, z + done, a);
    TailAdds(m, wt, z, done, left, a, n);
  }

  /** A text that begins with a bracket stands apart from what precedes it. */
  lemma SplitBefore(m: Matchers, after: bool, t: Text, u: Text, a: Sought)
    requires Plausible(a) && u != [] && (u[0] == LT || u[0] == GT)
    ensures Places(m, after, t + u, a) == Places(m, after, t, a) + Places(m, JoinsUpTo(m, after, t), u, a)
  {
    AngleStops(u, a);
    PlacesOfSum(m, after, t, u, a);
  }

  lemma SplitFor(m: Matchers, after: bool, x: Text, id: Text, u: Text, a: Sought)
    requires Plausible(a) && SlugText(id)
    ensures Places(m, after, x + (ForAttribute(id) + u), a) == Places(m, after, x, a) + Places(m, Joins(m, QUOTE), u, a)
  {
    ForStops(id, u, a);
    hide ForAttribute, Plausible, Places, Stops;
    PlacesOfSum(m, after, x, ForAttribute(id) + u, a);
    ForInsertion(m, JoinsUpTo(m, after, x), id, u, a);
  }

  lemma TailAdds(m: Matchers, w: bool, z: Text, done: Text, left: Text, a: Sought, n: nat)
    requires Plausible(a) && m.word(105)
    requires done != [] && done[0] == GT && left != [] && left[0] == GT && (z == [] || !m.word(z[0]))
    requires forall v :: Places(m, v, done, a) == Places(m, v, left, a) + n
    ensures Places(m, Joins(m, QUOTE), z + done, a) == Places(m, w, z + left, a) + n
  {
    var q := Joins(m, QUOTE);
    SplitBefore(m, q, z, done, a);
    SplitBefore(m, w, z, left, a);
    BeforeIsIrrelevant(m, q, w, z, a);
    if z == [] {
      BeforeIsIrrelevant(m, q, w, left, a);
    }
  }

  /** How many pairs got the id. */
  function Given(ids: seq<Text>, id: Text): nat {
    if ids == [] then 0 else (if ids[0] == id then 1 else 0) + Given(ids[1..], id)
  }

  lemma {:induction false} FirstIsKept(m: Matchers, s: Text, i: nat, used: set<Text>)
    requires Shapes(m) && i < |s| && s[i] != LT
    ensures Joined(Rewritten(m, s, i, used).pieces) != [] && Joined(Rewritten(m, s, i, used).pieces)[0] == s[i]
  {
    hide PairPieces, TheControl, TheFreshId, Contains;
    var r := Rewritten(m, s, i, used);
    if m.nextLabel(s, i).Some? {
      LabelIsLong(m, s, i);
      var l := m.nextLabel(s, i).value;
      assert LabelAt(s, i, l) && LABEL_OPEN[0] == LT;
      assert s[l.start..l.end][0] == LT;
      assert s[l.start] == LT && l.start != i;
      assert r.pieces[0] == Copied(s[i..l.start]);
    } else {
      assert r.pieces[0] == Copied(s[i..]);
    }
  }

  lemma FreshIsSlug(base: Text, used: set<Text>)
    requires SlugText(base) && base != []
    ensures SlugText(TheFreshId(base, used)) && TheFreshId(base, used) != []
  {
    TheFreshIdIsFresh(base, used);
    hide TheFreshId, FreshAt;
    var id := TheFreshId(base, used);
    var k :| k >= 1 && FreshAt(base, used, k) && id == Candidate(base, k);
    forall c | c in id ensures 97 <= c <= 122 || 48 <= c <= 57 || c == DASH {
      assert c in base || c == DASH || c in Digits(k);
    }
  }

  lemma JoinedPair(before: Text, p: seq<Piece>, rest: seq<Piece>)
    requires |p| == 7
    ensures Joined([Copied(before)] + p + rest)
         == (before + p[0].text) + (p[1].text + ((p[2].text + p[3].text) + (p[4].text + (p[5].text + (p[6].text + Joined(rest))))))
  {
    SevenPieces(p, PieceText);
    FlatOfOne(Copied(before), PieceText);
    FlatOfSum([Copied(before)], p, PieceText);
    FlatOfSum([Copied(before)] + p, rest, PieceText);
    hide Flat;
    RegroupRight(before, p[0].text, p[1].text, p[2].text, p[3].text, p[4].text, p[5].text, p[6].text, Joined(rest));
  }

  lemma RegroupRight(a: Text, b: Text, c: Text, d: Text, e: Text, f: Text, g: Text, h: Text, r: Text)
    ensures (a + (b + c + d + e + f + g + h)) + r == (a + b) + (c + ((d + e) + (f + (g + (h + r)))))
  {
  }

  /** The source from a label to the end, in the parts the rewriting keeps. */
  lemma SourcePair(s: Text, i: nat, l: LabelMatch, c: Control)
    requires i <= l.start <= l.end <= c.start && c.start + 1 + |c.tag| <= c.tagEnd <= |s|
    requires s[l.start..l.end] == LABEL_OPEN + l.attrs + [GT] + l.text + LABEL_CLOSE
    requires s[c.start..c.start + 1 + |c.tag|] == [LT] + c.tag
    ensures var k := c.start + 1 + |c.tag|;
            s[i..] == (s[i..l.start] + (LABEL_OPEN + l.attrs))
                      + ((([GT] + l.text + LABEL_CLOSE) + s[l.end..c.start])
                         + (([LT] + c.tag) + (s[k..c.tagEnd] + s[c.tagEnd..])))
  {
    var k := c.start + 1 + |c.tag|;
    var open, close := LABEL_OPEN + l.attrs, [GT] + l.text + LABEL_CLOSE;
    LabelParts(LABEL_OPEN, l.attrs, l.text, LABEL_CLOSE);
    hide LABEL_OPEN, LABEL_CLOSE;
    Glue(s, i, l.start, l.end);
    Glue(s, i, l.end, c.start);
    Glue(s, i, c.start, k);
    Glue(s, i, k, c.tagEnd);
    Glue(s, i, c.tagEnd, |s|);
    SourceRegroup(s[i..l.start], open, close, s[l.end..c.start], [LT] + c.tag, s[k..c.tagEnd], s[c.tagEnd..]);
  }

  lemma SourceRegroup(a: Text, b: Text, c: Text, d: Text, e: Text, f: Text, g: Text)
    ensures ((((a + (b + c)) + d) + e) + f) + g == (a + b) + ((c + d) + (e + (f + g)))
  {
  }

  /** The places of an attribute in the output are those in the source, and one more for every pair
      that was given the id. */
  lemma {:induction false} OutputPlaces(m: Matchers, s: Text, i: nat, used: set<Text>, after: bool, a: Sought)
    requires Shapes(m) && i <= |s| && Plausible(a)
    ensures var r := Rewritten(m, s, i, used);
            Places(m, after, Joined(r.pieces), a) == Places(m, after, s[i..], a) + Given(r.ids, a.id)
    decreases |s| - i
  {
    hide Flat, PairPieces, TheFreshId, Contains, IsControl, TheControl, Places, Plausible;
    match m.nextLabel(s, i)
    case None =>
      FlatOfOne(Copied(s[i..]), PieceText);
    case Some(l) =>
      LabelIsLong(m, s, i);
      var c := TheControl(m, s, l.end);
      if Contains(l.attrs, T("htmlFor=")) || c.None? || m.hasId(s[c.value.start..c.value.tagEnd]) {
        KeptPlaces(m, s, i, l, used, after, a);
        forall w ensures Places(m, w, Joined(Rewritten(m, s, l.end, used).pieces), a)
                      == Places(m, w, s[l.end..], a) + Given(Rewritten(m, s, l.end, used).ids, a.id) {
          OutputPlaces(m, s, l.end, used, w, a);
        }
      } else {
        var id := TheFreshId(m.base(l.text), used);
        forall w ensures Places(m, w, Joined(Rewritten(m, s, c.value.tagEnd, used + {id}).pieces), a)
                      == Places(m, w, s[c.value.tagEnd..], a) + Given(Rewritten(m, s, c.value.tagEnd, used + {id}).ids, a.id) {
          OutputPlaces(m, s, c.value.tagEnd, used + {id}, w, a);
        }
        PairedPlaces(m, s, i, l, c.value, used, after, a);
      }
  }

  lemma KeptPlaces(m: Matchers, s: Text, i: nat, l: LabelMatch, used: set<Text>, after: bool, a: Sought)
    requires Shapes(m) && i <= |s| && Plausible(a) && m.nextLabel(s, i) == Some(l)
    requires i <= l.start < l.end <= |s|
    ensures var kept := [Copied(s[i..l.start]), Copied(s[l.start..l.end])];
            var rest := Rewritten(m, s, l.end, used).pieces;
            exists w :: && Places(m, after, Joined(kept + rest), a) == Places(m, after, s[i..l.end], a) + Places(m, w, Joined(rest), a)
                        && Places(m, after, s[i..], a) == Places(m, after, s[i..l.end], a) + Places(m, w, s[l.end..], a)
  {
    hide Rewritten, Places, LabelAt, Shapes, Plausible, Joined;
    ShapeFacts(m, s, i, l);
    var head := s[i..l.end];
    LabelEnds(s, l, LABEL_OPEN + l.attrs + [GT] + l.text);
    assert head[|head| - 1] == GT;
    var rest := Rewritten(m, s, l.end, used).pieces;
    JoinedLabel(s, i, l.start, l.end, rest);
    assert s[i..] == head + s[l.end..];
    PlacesOfSum(m, after, head, Joined(rest), a);
    PlacesOfSum(m, after, head, s[l.end..], a);
  }

  /** A label that is copied, with what precedes it. */
  lemma JoinedLabel(s: Text, i: nat, j: nat, k: nat, rest: seq<Piece>)
    requires i <= j <= k <= |s|
    ensures Joined([Copied(s[i..j]), Copied(s[j..k])] + rest) == s[i..k] + Joined(rest)
  {
    FlatOfTwo(Copied(s[i..j]), Copied(s[j..k]), PieceText);
    FlatOfSum([Copied(s[i..j]), Copied(s[j..k])], rest, PieceText);
    Glue(s, i, j, k);
  }

  lemma LabelEnds(s: Text, l: LabelMatch, front: Text)
    requires l.start <= l.end <= |s| && s[l.start..l.end] == front + LABEL_CLOSE
    ensures l.end > l.start && s[l.end - 1] == GT
  {
    assert LABEL_CLOSE == [60, 47, 108, 97, 98, 101, 108, 62];
    var t := s[l.start..l.end];
    assert t[|t| - 1] == GT;
  }

  lemma PairedPlaces(m: Matchers, s: Text, i: nat, l: LabelMatch, c: Control, used: set<Text>, after: bool, a: Sought)
    requires Shapes(m) && i <= |s| && Plausible(a) && m.nextLabel(s, i) == Some(l) && IsControl(m, s, l.end, c)
    requires i <= l.start <= l.end <= c.start && c.start + 1 + |c.tag| <= c.tagEnd < |s|
    requires var id := TheFreshId(m.base(l.text), used);
             var r := Rewritten(m, s, c.tagEnd, used + {id});
             forall w :: Places(m, w, Joined(r.pieces), a) == Places(m, w, s[c.tagEnd..], a) + Given(r.ids, a.id)
    ensures var id := TheFreshId(m.base(l.text), used);
            var r := Rewritten(m, s, c.tagEnd, used + {id});
            Places(m, after, Joined([Copied(s[i..l.start])] + PairPieces(s, l, c, id) + r.pieces), a)
            == Places(m, after, s[i..], a) + Given(r.ids, a.id) + (if a.id == id then 1 else 0)
  {
    hide Rewritten, Shapes, IsControl, Places, Plausible, TheFreshId, LabelAt, Joined, ForAttribute, IdAttribute, SlugText;
    var id := TheFreshId(m.base(l.text), used);
    var r := Rewritten(m, s, c.tagEnd, used + {id});
    var k := c.start + 1 + |c.tag|;
    ShapeFacts(m, s, i, l);
    FreshIsSlug(m.base(l.text), used);
    ControlParts(m, s, l.end, c);
    FirstIsKept(m, s, c.tagEnd, used + {id});
    JoinedPair(s[i..l.start], PairPieces(s, l, c, id), r.pieces);
    SourcePair(s, i, l, c);
    var y := ([GT] + l.text + LABEL_CLOSE) + s[l.end..c.start];
    assert y[0] == GT;
    PairAdds(m, after, s[i..l.start] + (LABEL_OPEN + l.attrs), y, c.tag, s[k..c.tagEnd], Joined(r.pieces), s[c.tagEnd..],
             id, a, Given(r.ids, a.id));
  }

  lemma ShapeFacts(m: Matchers, s: Text, i: nat, l: LabelMatch)
    requires Shapes(m) && i <= |s| && m.nextLabel(s, i) == Some(l)
    ensures m.word(105) && !m.word(32) && m.base(l.text) != [] && SlugText(m.base(l.text))
    ensures l.start <= l.end <= |s| && s[l.start..l.end] == LABEL_OPEN + l.attrs + [GT] + l.text + LABEL_CLOSE
  {
    assert LabelAt(s, i, l);
  }

  lemma ControlParts(m: Matchers, s: Text, pos: nat, c: Control)
    requires IsControl(m, s, pos, c) && c.start + 1 + |c.tag| <= c.tagEnd < |s|
    ensures c.tag in TAGS && s[c.start..c.start + 1 + |c.tag|] == [LT] + c.tag && s[c.tagEnd] == GT
    ensures !m.word(s[c.start + 1 + |c.tag|])
  {
    assert OpensTag(m, s, c.start, c.tag);
  }

  // ----- Collisions -----

  /** The output for a file. */
  ghost function Output(m: Matchers, s: Text): Text
    requires Shapes(m)
  {
    Joined(Rewritten(m, s, 0, Ids(m, s)).pieces)
  }

  ghost function Inserted(m: Matchers, s: Text): seq<Text>
    requires Shapes(m)
  {
    Rewritten(m, s, 0, Ids(m, s)).ids
  }

  lemma {:induction false} GivenOnce(ids: seq<Text>, id: Text)
    requires Distinct(ids)
    ensures Given(ids, id) == if id in ids then 1 else 0
  {
    if ids != [] {
      GivenOnce(ids[1..], id);
      assert id in ids <==> id == ids[0] || id in ids[1..];
      assert id == ids[0] ==> id !in ids[1..];
    }
  }

  lemma {:induction false} InsertedAreSlugs(m: Matchers, s: Text, i: nat, used: set<Text>)
    requires Shapes(m) && i <= |s|
    ensures forall id <- Rewritten(m, s, i, used).ids :: SlugText(id) && id != []
    decreases |s| - i
  {
    hide PairPieces, TheFreshId, Contains, IsControl, TheControl, SlugText;
    if m.nextLabel(s, i).Some? {
      var l := m.nextLabel(s, i).value;
      LabelIsLong(m, s, i);
      var c := TheControl(m, s, l.end);
      InsertedAreSlugs(m, s, l.end, used);
      if c.Some? {
        var id := TheFreshId(m.base(l.text), used);
        FreshIsSlug(m.base(l.text), used);
        InsertedAreSlugs(m, s, c.value.tagEnd, used + {id});
      }
    }
  }

  /** Every inserted id has exactly one place in the output more than in the source, counted in every spelling
      or strictly; the places of every other id are as many as before. */
  lemma EachIdGainsOnePlace(m: Matchers, s: Text, id: Text, strict: bool)
    requires Shapes(m) && SlugText(id) && id != []
    ensures Places(m, false, Output(m, s), Sought(id, strict))
         == Places(m, false, s, Sought(id, strict)) + if id in Inserted(m, s) then 1 else 0
  {
    InsertedIdsAreFresh(m, s, 0, Ids(m, s));
    hide Rewritten, Places, Joined;
    GivenOnce(Rewritten(m, s, 0, Ids(m, s)).ids, id);
    assert s[0..] == s;
    OutputPlaces(m, s, 0, Ids(m, s), false, Sought(id, strict));
  }

  /** An inserted id has one place in the output if and only if it has none in the source, in any spelling:
      the scan looks at one spelling only. */
  lemma InsertedIdIsUniqueIff(m: Matchers, s: Text, id: Text)
    requires Shapes(m) && id in Inserted(m, s)
    ensures Places(m, false, Output(m, s), Sought(id, false)) == 1 <==> Places(m, false, s, Sought(id, false)) == 0
  {
    InsertedAreSlugs(m, s, 0, Ids(m, s));
    EachIdGainsOnePlace(m, s, id, false);
  }

  // ----- What the scan finds -----

  /** A double-quoted place of the id. */
  ghost predicate PlaceAt(m: Matchers, s: Text, k: nat, id: Text) {
    k <= |s| && Reads(Start, s[k..], Sought(id, true)) && (k > 0 ==> !Joins(m, s[k - 1]))
  }

  /** Position k lies inside what the scan takes for an id from position p. */
  predicate Swallows(m: Matchers, s: Text, p: nat, k: nat) {
    p < k < |s| && IdOpens(m, s, p) && p + 4 <= |s| && k < QuoteFrom(s, p + 4) < |s|
  }

  lemma QuoteIs(s: Text, i: nat, j: nat)
    requires i <= j < |s| && s[j] == QUOTE && forall k | i <= k < j :: s[k] != QUOTE
    ensures QuoteFrom(s, i) == j
  {
  }

  lemma PlaceSpells(m: Matchers, s: Text, k: nat, id: Text)
    requires PlaceAt(m, s, k, id)
    ensures k + 5 + |id| <= |s| && s[k] == 105 && s[k + 1] == 100 && s[k + 2] == 61 && s[k + 3] == QUOTE
    ensures (forall i | 0 <= i < |id| :: s[k + 4 + i] == id[i]) && s[k + 4 + |id|] == QUOTE
  {
    var t := s[k..];
    StrictSpells(t, id);
    hide Reads;
    forall i | 0 <= i < |id| ensures s[k + 4 + i] == id[i] {
      assert t[4 + i] == id[i];
    }
  }

  lemma OpensHere(m: Matchers, s: Text, k: nat)
    requires k + 4 <= |s| && s[k] == 105 && s[k + 1] == 100 && s[k + 2] == 61 && s[k + 3] == QUOTE
    requires k > 0 ==> !m.word(s[k - 1])
    ensures IdOpens(m, s, k)
  {
    assert s[k..k + 4] == ID_OPEN;
  }

  lemma QuotedHere(s: Text, i: nat, id: Text)
    requires i + |id| < |s| && s[i + |id|] == QUOTE && SlugText(id) && forall k | 0 <= k < |id| :: s[i + k] == id[k]
    ensures QuoteFrom(s, i) == i + |id| && s[i..i + |id|] == id
  {
    forall k | i <= k < i + |id| ensures s[k] != QUOTE {
      assert s[i + (k - i)] == id[k - i] && id[k - i] in id;
    }
    QuoteIs(s, i, i + |id|);
  }

  lemma PlaceIsMatch(m: Matchers, s: Text, k: nat, id: Text)
    requires PlaceAt(m, s, k, id) && SlugText(id) && id != []
    ensures k < |s| && IdOpens(m, s, k) && k + 4 < QuoteFrom(s, k + 4) < |s| && s[k + 4..QuoteFrom(s, k + 4)] == id
    ensures s[k] != QUOTE
  {
    hide Reads, SlugText, IdOpens, QuoteFrom;
    PlaceSpells(m, s, k, id);
    OpensHere(m, s, k);
    QuotedHere(s, k + 4, id);
  }

  /** The scan misses a double-quoted id only inside another match. */
  lemma {:induction false} ScanMissesOnlySwallowed(m: Matchers, s: Text, i: nat, k: nat, id: Text)
    requires i <= k && PlaceAt(m, s, k, id) && SlugText(id) && id != []
    ensures id in FindIds(m, s, i) || exists p :: Swallows(m, s, p, k)
    decreases |s| - i
  {
    PlaceIsMatch(m, s, k, id);
    hide PlaceAt, SlugText;
    if i < k {
      var matched := IdOpens(m, s, i) && i + 4 < QuoteFrom(s, i + 4) < |s|;
      if !matched {
        ScanMissesOnlySwallowed(m, s, i + 1, k, id);
      } else if QuoteFrom(s, i + 4) < k {
        ScanMissesOnlySwallowed(m, s, QuoteFrom(s, i + 4) + 1, k, id);
      } else {
        assert Swallows(m, s, i, k);
      }
    }
  }

  /** `id="…"` with the id between the quotes, and no word character before it. */
  predicate StandsAt(m: Matchers, s: Text, k: nat, id: Text) {
    && id != [] && QUOTE !in id && (k == 0 || (k <= |s| && !m.word(s[k - 1])))
    && StartsAt(s, k, T("id=\"") + id + T("\""))
  }

  /** What the scan finds stands in the text between quotes, after `id=` at the beginning of a word, and is not
      empty. */
  lemma {:induction false} FoundIdsStand(m: Matchers, s: Text, i: nat, id: Text)
    requires i <= |s| && id in FindIds(m, s, i)
    ensures exists k: nat | i <= k :: StandsAt(m, s, k, id)
    decreases |s| - i
  {
    hide IdOpens, StandsAt;
    if IdOpens(m, s, i) && i + 4 <= |s| && i + 4 < QuoteFrom(s, i + 4) < |s| {
      var j := QuoteFrom(s, i + 4);
      if id == s[i + 4..j] {
        OpensThere(m, s, i, j);
      } else {
        FoundIdsStand(m, s, j + 1, id);
      }
    } else {
      FoundIdsStand(m, s, i + 1, id);
    }
  }

  lemma OpensThere(m: Matchers, s: Text, i: nat, j: nat)
    requires IdOpens(m, s, i) && i + 4 < j < |s| && s[j] == QUOTE && forall k | i + 4 <= k < j :: s[k] != QUOTE
    ensures StandsAt(m, s, i, s[i + 4..j])
  {
    assert T("id=\"") == ID_OPEN && T("\"") == [QUOTE];
    assert s[i..j + 1] == s[i..i + 4] + s[i + 4..j] + [s[j]];
  }

  lemma {:induction false} PlacesMeanPlaceAt(m: Matchers, s: Text, k: nat, id: Text)
    requires k <= |s| && Places(m, k > 0 && Joins(m, s[k - 1]), s[k..], Sought(id, true)) > 0
    ensures exists j :: PlaceAt(m, s, j, id)
    decreases |s| - k
  {
    hide Reads;
    if k < |s| && !PlaceAt(m, s, k, id) {
      assert s[k..][1..] == s[k + 1..];
      PlacesMeanPlaceAt(m, s, k + 1, id);
    }
  }

  /** Where no double-quoted id of the source is hidden in another match, each inserted id stands once
      among the double-quoted ids of the output. */
  lemma InsertedIdStandsOnce(m: Matchers, s: Text, id: Text)
    requires Shapes(m) && id in Inserted(m, s)
    requires forall k, p :: PlaceAt(m, s, k, id) ==> !Swallows(m, s, p, k)
    ensures Places(m, false, Output(m, s), Sought(id, true)) == 1
  {
    InsertedAreSlugs(m, s, 0, Ids(m, s));
    InsertedIdsAreFresh(m, s, 0, Ids(m, s));
    EachIdGainsOnePlace(m, s, id, true);
    hide PlaceAt, Swallows, Rewritten;
    assert s[0..] == s;
    if Places(m, false, s, Sought(id, true)) > 0 {
      PlacesMeanPlaceAt(m, s, 0, id);
      var k :| PlaceAt(m, s, k, id);
      ScanMissesOnlySwallowed(m, s, 0, k, id);
    }
  }

  // ----- A collision -----

  const C_NAME: Text := [99, 45, 110, 97, 109, 101]
  const INPUT: Text := [105, 110, 112, 117, 116]

  const DIV_OPEN: Text := [60, 100, 105, 118, 32]
  const DIV_CLOSE: Text := [47, 62]
  const NAME_LABEL: Text := [60, 108, 97, 98, 101, 108, 62, 78, 97, 109, 101, 60, 47, 108, 97, 98, 101, 108, 62]
  const CONTROL: Text := [60, 105, 110, 112, 117, 116, 47, 62]

  /** A div with the given attribute and `<label>Name</label><input/>` */
  function Source(a: Text): Text {
    (DIV_OPEN + a + DIV_CLOSE) + NAME_LABEL + CONTROL
  }

  /** What the expressions find in that source, for a component whose slug is `c`. */
  ghost predicate ReadsSource(m: Matchers, a: Text) {
    var n := |a| + 7;
    && Shapes(m) && m.nextLabel(Source(a), 0) == Some(LabelMatch(n, n + 19, [], NAME_LABEL[7..11]))
    && m.blank(Source(a), n + 19) == n + 19 && !m.hasId(CONTROL[..7]) && m.base(NAME_LABEL[7..11]) == C_NAME
    && !m.word(47)
  }

  lemma SourceParts(a: Text)
    ensures |Source(a)| == |a| + 34 && Source(a)[|a| + 26..] == CONTROL
    ensures Source(a)[..5] == DIV_OPEN && Source(a)[5..] == a + (DIV_CLOSE + NAME_LABEL + CONTROL)
  {
    hide DIV_OPEN, DIV_CLOSE, NAME_LABEL, CONTROL;
    SourceLengths();
  }

  lemma SourceLengths()
    ensures |DIV_OPEN| == 5 && |DIV_CLOSE| == 2 && |NAME_LABEL| == 19 && |CONTROL| == 8
  {
  }

  lemma SourceControl(m: Matchers, a: Text)
    requires ReadsSource(m, a)
    ensures |Source(a)| == |a| + 34
    ensures TheControl(m, Source(a), |a| + 26) == Some(Control(|a| + 26, |a| + 33, T("input")))
  {
    SourceParts(a);
    var s, tag, n := Source(a), T("input"), |a| + 26;
    assert tag == INPUT && CONTROL[..6] == [LT] + INPUT;
    assert s[n..n + 6] == s[n..][..6] && s[n + 6] == s[n..][6] == 47 && s[n + 7] == s[n..][7] == GT;
    hide Source, CONTROL;
    var c := Control(n, n + 7, tag);
    assert OpensTag(m, s, n, TAGS[0]);
    assert Scanned(s, n + 6, n + 6) == Lex(0, None) && Scanned(s, n + 6, n + 7) == Lex(0, None);
    assert IsControl(m, s, n, c);
    ControlIsUnique(m, s, n, c, TheControl(m, s, n).value);
  }

  lemma SourceHasThePlace(m: Matchers, a: Text)
    requires !m.word(32) && Reads(Start, a, Sought(C_NAME, false))
    ensures Places(m, false, Source(a), Sought(C_NAME, false)) >= 1
  {
    SourceParts(a);
    var s := Source(a);
    assert s[..5][4] == 32;
    ReadsMore(Start, a, DIV_CLOSE + NAME_LABEL + CONTROL, Sought(C_NAME, false));
    hide Reads, Source, C_NAME, DIV_CLOSE, NAME_LABEL, CONTROL, DIV_OPEN;
    APlaceCounts(m, false, s, 5, Sought(C_NAME, false));
  }

  lemma SourceIsPaired(m: Matchers, a: Text)
    requires ReadsSource(m, a) && C_NAME !in Ids(m, Source(a))
    ensures C_NAME in Inserted(m, Source(a))
  {
    SourceParts(a);
    SourceControl(m, a);
    FirstCandidate(C_NAME, Ids(m, Source(a)));
    assert Source(a)[|a| + 26..|a| + 33] == Source(a)[|a| + 26..][..7] == CONTROL[..7];
    hide Source, IsControl, TheControl, TheFreshId, PairPieces, LabelAt, C_NAME, CONTROL, NAME_LABEL, Ids;
    assert !Contains([], T("htmlFor="));
    assert Inserted(m, Source(a))[0] == C_NAME;
  }

  /** Whatever way the div of component `c` spells its id `c-name`, if the scan does not know that way, the
      input gets the same id. */
  lemma OtherSpellingCollides(m: Matchers, a: Text)
    requires ReadsSource(m, a) && Reads(Start, a, Sought(C_NAME, false)) && C_NAME !in Ids(m, Source(a))
    ensures C_NAME in Inserted(m, Source(a))
    ensures Places(m, false, Output(m, Source(a)), Sought(C_NAME, false)) >= 2
  {
    hide Source, Shapes, Places, Output, Inserted, Reads, Ids, C_NAME;
    SourceIsPaired(m, a);
    SpacesEndWords(m);
    SourceHasThePlace(m, a);
    NameIsSlug();
    EachIdGainsOnePlace(m, Source(a), C_NAME, false);
  }

  lemma NameIsSlug()
    ensures SlugText(C_NAME) && C_NAME != []
  {
  }

  lemma SpacesEndWords(m: Matchers)
    requires Shapes(m)
    ensures !m.word(32)
  {
  }

  lemma FirstCandidate(base: Text, used: set<Text>)
    requires base !in used
    ensures TheFreshId(base, used) == base
  {
    assert FreshAt(base, used, 1) && Candidate(base, 1) == base;
    assert IsFresh(base, used, base);
    FreshIsUnique(base, used, base, TheFreshId(base, used));
  }

  lemma {:induction false} WithoutQuotesNoIds(m: Matchers, s: Text, i: nat)
    requires i <= |s| && QUOTE !in s
    ensures FindIds(m, s, i) == []
    decreases |s| - i
  {
    if i < |s| {
      assert IdOpens(m, s, i) ==> s[QuoteFrom(s, i + 4) - 1] in s;
      WithoutQuotesNoIds(m, s, i + 1);
    }
  }

  lemma NothingToFind(m: Matchers, a: Text)
    requires QUOTE !in a
    ensures Ids(m, Source(a)) == {}
  {
    assert QUOTE !in DIV_OPEN && QUOTE !in DIV_CLOSE && QUOTE !in NAME_LABEL && QUOTE !in CONTROL;
    hide DIV_OPEN, DIV_CLOSE, NAME_LABEL, CONTROL;
    WithoutQuotesNoIds(m, Source(a), 0);
  }

  lemma {:induction false} ReadsTheId(id: Text, close: CodePoint, u: Text, a: Sought)
    ensures Reads(Inside(id, close, false), id + [close] + u, a)
    decreases |id|
  {
    var t := id + [close] + u;
    if id != [] {
      assert t[1..] == id[1..] + [close] + u;
      ReadsTheId(id[1..], close, u, a);
    }
  }

  /** `id='c-name'` */
  lemma SingleQuotedIdCollides(m: Matchers)
    requires ReadsSource(m, ID_EQUALS + ([SINGLE] + C_NAME + [SINGLE]))
    ensures var s := Source(ID_EQUALS + ([SINGLE] + C_NAME + [SINGLE]));
      C_NAME in Inserted(m, s) && Places(m, false, Output(m, s), Sought(C_NAME, false)) >= 2
  {
    var a, q := ID_EQUALS + ([SINGLE] + C_NAME + [SINGLE]), Sought(C_NAME, false);
    assert a[..3] == ID_EQUALS && a[3..][0] == SINGLE && a[3..][1..] == C_NAME + [SINGLE] + [];
    assert QUOTE !in a;
    ReadsEquals(a, q);
    ReadsTheId(C_NAME, SINGLE, [], q);
    NothingToFind(m, a);
    hide ReadsSource, Source, Places, Output, Inserted, C_NAME, Ids;
    OtherSpellingCollides(m, a);
  }

  const SPACED: Text := [105, 100, 32, 61, 32, 39]

  /** `id = 'c-name'` */
  lemma SpacedIdCollides(m: Matchers)
    requires ReadsSource(m, SPACED + C_NAME + [SINGLE])
    ensures var s := Source(SPACED + C_NAME + [SINGLE]);
      C_NAME in Inserted(m, s) && Places(m, false, Output(m, s), Sought(C_NAME, false)) >= 2
  {
    var a, q := SPACED + C_NAME + [SINGLE], Sought(C_NAME, false);
    assert a[..6] == SPACED && a[6..] == C_NAME + [SINGLE] + [];
    assert QUOTE !in a;
    ReadsSpaced(a, q);
    ReadsTheId(C_NAME, SINGLE, [], q);
    NothingToFind(m, a);
    hide ReadsSource, Source, Places, Output, Inserted, C_NAME, Ids;
    OtherSpellingCollides(m, a);
  }

  lemma ReadsSpaced(t: Text, a: Sought)
    requires |t| >= 6 && t[..6] == SPACED && !a.strict
    ensures Reads(Start, t, a) == Reads(Inside(a.id, SINGLE, false), t[6..], a)
  {
    assert forall k | 0 <= k < 6 :: t[k] == SPACED[k];
    assert Reads(Start, t, a) == Reads(Letter, t[1..], a);
    assert t[1..][0] == t[1] && t[1..][1..] == t[2..];
    assert Reads(Letter, t[1..], a) == Reads(Name, t[2..], a);
    assert t[2..][0] == t[2] && t[2..][1..] == t[3..];
    assert Reads(Name, t[2..], a) == Reads(Name, t[3..], a);
    assert t[3..][0] == t[3] && t[3..][1..] == t[4..];
    assert Reads(Name, t[3..], a) == Reads(Value, t[4..], a);
    assert t[4..][0] == t[4] && t[4..][1..] == t[5..];
    assert Reads(Value, t[4..], a) == Reads(Value, t[5..], a);
    assert t[5..][0] == t[5] && t[5..][1..] == t[6..];
  }

  /** `data-id='c-name'` is no id. */
  lemma DataIdIsNoPlace(m: Matchers, after: bool, a: Sought)
    ensures Places(m, after, [100, 97, 116, 97, DASH] + ID_EQUALS + [SINGLE] + C_NAME + [SINGLE], a) == 0
  {
    var t := [100, 97, 116, 97, DASH] + ID_EQUALS + [SINGLE] + C_NAME + [SINGLE];
    assert t == [100, 97, 116, 97, 45, 105, 100, 61, 39, 99, 45, 110, 97, 109, 101, 39];
    forall k | 0 <= k < |t| ensures NoName(m, after, t, k) {
      assert t[..5][4] == 45;
    }
    NoPlaceWithoutName(m, after, t, a);
  }
}
