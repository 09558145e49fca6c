/** The label-pairing codemod (scripts/codemods/pair-labels.py): each plain label gets an htmlFor and
    the control right after it the matching id. */
module PairLabels {
  import opened PyText
  import opened Sets
  import opened Wrappers

  datatype LabelMatch = LabelMatch(start: nat, end: nat, attrs: Text, text: Text)

  /** The regular expressions. `nextLabel` is LABEL.search, `blank` the end of the whitespace and
      comments at a position, `hasId` the search for an id attribute, `word` the characters of a
      word and `base` the component slug, a dash and the slug of a label's text. */
  datatype Matchers = Matchers(
    nextLabel: (Text, nat) -> Option<LabelMatch>,
    blank: (Text, nat) -> nat,
    hasId: Text -> bool,
    word: CodePoint -> bool,
    base: Text -> Text)

  const LABEL_OPEN: Text := T("<label")
  const LABEL_CLOSE: Text := T("</label>")
  const LT: CodePoint := 60
  const GT: CodePoint := 62
  const DASH: CodePoint := 45

  /** What the expressions match, as far as the rewriting relies on it. */
  ghost predicate Shapes(m: Matchers) {
    && (forall s: Text, i: nat :: i <= |s| && m.nextLabel(s, i).Some? ==> LabelAt(s, i, m.nextLabel(s, i).value))
    && (forall s: Text, i: nat :: i <= |s| ==> i <= m.blank(s, i) <= |s|)
    && (forall t: Text :: m.base(t) != [] && SlugText(m.base(t)))
    && m.word(105) && !m.word(32)
  }

  /** Lower-case letters, digits and dashes. */
  predicate SlugText(t: Text) {
    forall c <- t :: 97 <= c <= 122 || 48 <= c <= 57 || c == DASH
  }

  predicate LabelAt(s: Text, i: nat, l: LabelMatch) {
    && i <= l.start <= l.end <= |s|
    && s[l.start..l.end] == LABEL_OPEN + l.attrs + [GT] + l.text + LABEL_CLOSE
  }

  // ----- The ids already there -----

  const QUOTE: CodePoint := 34
  const ID_OPEN: Text := [105, 100, 61, 34]

  /** `id="` at the beginning of a word. */
  predicate IdOpens(m: Matchers, s: Text, i: nat) {
    StartsAt(s, i, ID_OPEN) && (i > 0 ==> !m.word(s[i - 1]))
  }

  function QuoteFrom(s: Text, i: nat): (j: nat)
    requires i <= |s|
    ensures i <= j <= |s| && (j < |s| ==> s[j] == QUOTE) && forall k | i <= k < j :: s[k] != QUOTE
    decreases |s| - i
  {
    if i == |s| || s[i] == QUOTE then i else QuoteFrom(s, i + 1)
  }

  /** The scan for double-quoted ids from position i; a match goes up to its closing quote. */
  function FindIds(m: Matchers, s: Text, i: nat): seq<Text>
    requires i <= |s|
    decreases |s| - i
  {
    if i == |s| then []
    else if IdOpens(m, s, i) && i + 4 < QuoteFrom(s, i + 4) < |s| then
      [s[i + 4..QuoteFrom(s, i + 4)]] + FindIds(m, s, QuoteFrom(s, i + 4) + 1)
    else FindIds(m, s, i + 1)
  }

  /** `used` at the start. */
  function Ids(m: Matchers, s: Text): set<Text> {
    set id | id in FindIds(m, s, 0)
  }

  // ----- Finding the control -----

  const TAGS: seq<Text> := [T("input"), T("select"), T("textarea")]

  predicate StartsAt(s: Text, i: nat, p: Text) {
    i + |p| <= |s| && s[i..i + |p|] == p
  }

  /** `<tag` and the end of a word. */
  predicate OpensTag(m: Matchers, s: Text, i: nat, tag: Text) {
    StartsAt(s, i, [LT] + tag) && (i + 1 + |tag| == |s| || !m.word(s[i + 1 + |tag|]))
  }

  function TagAt(m: Matchers, s: Text, i: nat): (r: Option<Text>)
    ensures r.Some? ==> OpensTag(m, s, i, r.value) && r.value in TAGS
    ensures r.None? ==> forall t <- TAGS :: !OpensTag(m, s, i, t)
  {
    if OpensTag(m, s, i, TAGS[0]) then Some(TAGS[0])
    else if OpensTag(m, s, i, TAGS[1]) then Some(TAGS[1])
    else if OpensTag(m, s, i, TAGS[2]) then Some(TAGS[2])
    else None
  }

  /** The scanner inside an opening tag: brace depth, and the quote it is inside of. */
  datatype Lex = Lex(depth: int, quote: Option<CodePoint>)

  function Step(l: Lex, c: CodePoint): Lex {
    if l.quote.Some? then (if c == l.quote.value then l.(quote := None) else l)
    else if c == 34 || c == 39 then l.(quote := Some(c))
    else if c == 123 then l.(depth := l.depth + 1)
    else if c == 125 then l.(depth := l.depth - 1)
    else l
  }

  function Scanned(s: Text, a: nat, j: nat): Lex
    requires a <= j <= |s|
    decreases j
  {
    if j == a then Lex(0, None) else Step(Scanned(s, a, j - 1), s[j - 1])
  }

  /** A `>` outside every quote and every brace. */
  predicate Closes(s: Text, a: nat, j: nat) {
    a <= j < |s| && s[j] == GT && Scanned(s, a, j) == Lex(0, None)
  }

  predicate OpenUntil(s: Text, a: nat, end: nat) {
    forall j: nat | j < end :: !Closes(s, a, j)
  }

  ghost predicate NeverClosed(s: Text, a: nat) {
    forall j: nat :: !Closes(s, a, j)
  }

  datatype Control = Control(start: nat, tagEnd: nat, tag: Text)

  /** The control that follows a position: blank up to an opening tag that ends. */
  ghost predicate IsControl(m: Matchers, s: Text, pos: nat, c: Control) {
    && c.start == m.blank(s, pos) < |s|
    && TagAt(m, s, c.start) == Some(c.tag)
    && Closes(s, c.start + 1 + |c.tag|, c.tagEnd)
    && OpenUntil(s, c.start + 1 + |c.tag|, c.tagEnd)
  }

  /** The end of the opening tag, respecting braces and quotes. */
  method FindTagEnd(s: Text, a: nat) returns (r: Option<nat>)
    requires a <= |s|
    ensures r.Some? ==> Closes(s, a, r.value) && OpenUntil(s, a, r.value)
    ensures r.None? ==> OpenUntil(s, a, |s|)
  {
    var j, depth: int, quote: Option<CodePoint> := a, 0, None;
    while j < |s|
      invariant a <= j <= |s|
      invariant Scanned(s, a, j) == Lex(depth, quote)
      invariant OpenUntil(s, a, j)
    {
      var c := s[j];
      if quote.Some? {
        if c == quote.value {
          quote := None;
        }
      } else if c == 34 || c == 39 {
        quote := Some(c);
      } else if c == 123 {
        depth := depth + 1;
      } else if c == 125 {
        depth := depth - 1;
      } else if c == GT && depth == 0 {
        return Some(j);
      }
      j := j + 1;
    }
    r := None;
  }

  /** `find_control_after` */
  method FindControlAfter(m: Matchers, s: Text, pos: nat) returns (r: Option<Control>)
    requires Shapes(m) && pos <= |s|
    ensures r.Some? ==> IsControl(m, s, pos, r.value)
    ensures r.None? ==> forall c :: !IsControl(m, s, pos, c)
  {
    hide Closes, OpenUntil;
    r := None;
    if pos < |s| {
      var i := m.blank(s, pos);
      if i < |s| && s[i] == LT {
        var tag := TagAt(m, s, i);
        if tag.Some? {
          var end := FindTagEnd(s, i + 1 + |tag.value|);
          if end.Some? {
            return Some(Control(i, end.value, tag.value));
          }
          NeverCloses(s, i + 1 + |tag.value|);
        }
      }
    }
    NoControlThere(m, s, pos);
  }

  /** Where there is no control: at the end of the file, at a character that opens no tag, or at a tag that
      never ends. */
  lemma NoControlThere(m: Matchers, s: Text, pos: nat)
    requires pos <= |s|
    requires var i := m.blank(s, pos);
      || i >= |s| || s[i] != LT || TagAt(m, s, i).None?
      || NeverClosed(s, i + 1 + |TagAt(m, s, i).value|)
    ensures forall c :: !IsControl(m, s, pos, c)
  {
    forall c ensures !IsControl(m, s, pos, c) {
      NotThisControl(m, s, pos, c);
    }
  }

  lemma NotThisControl(m: Matchers, s: Text, pos: nat, c: Control)
    requires pos <= |s|
    requires var i := m.blank(s, pos);
      || i >= |s| || s[i] != LT || TagAt(m, s, i).None?
      || NeverClosed(s, i + 1 + |TagAt(m, s, i).value|)
    ensures !IsControl(m, s, pos, c)
  {
    hide Closes, OpenUntil, OpensTag, TagAt;
    TagBegins(m, s, c.start, c.tag);
  }

  lemma TagBegins(m: Matchers, s: Text, i: nat, tag: Text)
    ensures TagAt(m, s, i) == Some(tag) ==> i < |s| && s[i] == LT
  {
    assert ([LT] + tag)[0] == LT;
    hide TAGS;
  }

  lemma NeverCloses(s: Text, a: nat)
    requires OpenUntil(s, a, |s|)
    ensures NeverClosed(s, a)
  {
  }

  lemma ControlIsUnique(m: Matchers, s: Text, pos: nat, c: Control, d: Control)
    requires IsControl(m, s, pos, c) && IsControl(m, s, pos, d)
    ensures c == d
  {
    assert !(c.tagEnd < d.tagEnd) && !(d.tagEnd < c.tagEnd);
  }

  // ----- A fresh id -----

  /** base, base-2, base-3, … */
  function Candidate(base: Text, k: nat): Text {
    if k <= 1 then base else base + [DASH] + Digits(k)
  }

  lemma CandidatesDiffer(base: Text, j: nat, k: nat)
    requires 1 <= j < k
    ensures Candidate(base, j) != Candidate(base, k)
  {
    if j > 1 && Digits(j) == Digits(k) {
      DigitsInjective(j, k);
      assert false;
    }
    var x, y := Candidate(base, j), Candidate(base, k);
    assert y[|base| + 1..] == Digits(k);
    assert j > 1 ==> x[|base| + 1..] == Digits(j);
  }

  ghost predicate IsFresh(base: Text, used: set<Text>, id: Text) {
    exists k :: k >= 1 && FreshAt(base, used, k) && id == Candidate(base, k)
  }

  ghost predicate FreshAt(base: Text, used: set<Text>, k: nat) {
    Candidate(base, k) !in used && forall j :: 1 <= j < k ==> Candidate(base, j) in used
  }

  lemma FreshIsUnique(base: Text, used: set<Text>, a: Text, b: Text)
    requires IsFresh(base, used, a) && IsFresh(base, used, b)
    ensures a == b
  {
    var j :| j >= 1 && FreshAt(base, used, j) && a == Candidate(base, j);
    var k :| k >= 1 && FreshAt(base, used, k) && b == Candidate(base, k);
    assert !(j < k) && !(k < j);
  }

  /** The suffix loop. It ends because the candidates it has tried are distinct members of a
      finite set. */
  method FreshId(base: Text, used: set<Text>) returns (ident: Text)
    ensures IsFresh(base, used, ident) && ident !in used
  {
    ident := base;
    var n := 2;
    ghost var tried: set<Text> := {};
    while ident in used
      invariant n >= 2 && ident == Candidate(base, n - 1)
      invariant |tried| == n - 2 && tried <= used
      invariant forall t <- tried :: exists j :: 1 <= j < n - 1 && t == Candidate(base, j)
      invariant forall j :: 1 <= j < n - 1 ==> Candidate(base, j) in used
      decreases |used| + 2 - n
    {
      if ident in tried {
        var j :| 1 <= j < n - 1 && ident == Candidate(base, j);
        CandidatesDiffer(base, j, n - 1);
        assert false;
      }
      tried := tried + {ident};
      SubsetSize(tried, used);
      ident, n := base + [DASH] + Digits(n), n + 1;
    }
    assert FreshAt(base, used, n - 1);
  }

  // ----- The rewriting -----

  /** The output in the pieces it is put together from: copied source, or an insertion. */
  datatype Piece = Copied(text: Text) | Inserted(text: Text)

  datatype Reason = NoControl | HasId
  datatype Skipped = Skipped(at: nat, reason: Reason)
  datatype Rewriting = Rewriting(pieces: seq<Piece>, ids: seq<Text>, skipped: seq<Skipped>)

  function Flat<A>(pieces: seq<Piece>, f: Piece -> seq<A>): seq<A> {
    if pieces == [] then [] else f(pieces[0]) + Flat(pieces[1..], f)
  }

  function Joined(pieces: seq<Piece>): Text {
    Flat(pieces, PieceText)
  }

  function PieceText(p: Piece): Text {
    p.text
  }

  /** The output with the insertions erased. */
  function Erased(pieces: seq<Piece>): Text {
    Flat(pieces, CopiedText)
  }

  function CopiedText(p: Piece): Text {
    if p.Copied? then p.text else []
  }

  function Insertions(pieces: seq<Piece>): seq<Text> {
    Flat(pieces, InsertedTexts)
  }

  function InsertedTexts(p: Piece): seq<Text> {
    if p.Inserted? then [p.text] else []
  }

  function ForAttribute(id: Text): Text {
    T(" htmlFor=\"") + id + T("\"")
  }

  function IdAttribute(id: Text): Text {
    T(" id=\"") + id + T("\"")
  }

  predicate Contains(s: Text, p: Text) {
    exists i | 0 <= i <= |s| :: StartsAt(s, i, p)
  }

  ghost function TheControl(m: Matchers, s: Text, pos: nat): (r: Option<Control>)
    requires Shapes(m) && pos <= |s|
    ensures r.Some? ==> IsControl(m, s, pos, r.value) && pos <= r.value.start
    ensures r.Some? ==> r.value.start + 1 + |r.value.tag| <= r.value.tagEnd < |s|
    ensures r.None? ==> forall c :: !IsControl(m, s, pos, c)
  {
    if c :| IsControl(m, s, pos, c) then Some(c) else None
  }

  ghost function TheFreshId(base: Text, used: set<Text>): Text {
    if id :| IsFresh(base, used, id) then id else []
  }

  function PairPieces(s: Text, l: LabelMatch, c: Control, id: Text): seq<Piece>
    requires l.end <= c.start && c.start + 1 + |c.tag| <= c.tagEnd <= |s|
  {
    [Copied(LABEL_OPEN + l.attrs), Inserted(ForAttribute(id)), Copied([GT] + l.text + LABEL_CLOSE),
     Copied(s[l.end..c.start]), Copied([LT] + c.tag), Inserted(IdAttribute(id)),
     Copied(s[c.start + 1 + |c.tag|..c.tagEnd])]
  }

  /** The rewriting of the source from position i, with these ids taken. */
  ghost function Rewritten(m: Matchers, s: Text, i: nat, used: set<Text>): Rewriting
    requires Shapes(m) && i <= |s|
    decreases |s| - i
  {
    match m.nextLabel(s, i)
    case None => Rewriting([Copied(s[i..])], [], [])
    case Some(l) =>
      LabelIsLong(m, s, i);
      var before := Copied(s[i..l.start]);
      var kept := [before, Copied(s[l.start..l.end])];
      if Contains(l.attrs, T("htmlFor=")) then
        var rest := Rewritten(m, s, l.end, used);
        rest.(pieces := kept + rest.pieces)
      else
        match TheControl(m, s, l.end)
        case None =>
          var rest := Rewritten(m, s, l.end, used);
          rest.(pieces := kept + rest.pieces, skipped := [Skipped(l.start, NoControl)] + rest.skipped)
        case Some(c) =>
          if m.hasId(s[c.start..c.tagEnd]) then
            var rest := Rewritten(m, s, l.end, used);
            rest.(pieces := kept + rest.pieces, skipped := [Skipped(l.start, HasId)] + rest.skipped)
          else
            var id := TheFreshId(m.base(l.text), used);
            var rest := Rewritten(m, s, c.tagEnd, used + {id});
            Rewriting([before] + PairPieces(s, l, c, id) + rest.pieces, [id] + rest.ids, rest.skipped)
  }

  lemma LabelIsLong(m: Matchers, s: Text, i: nat)
    requires Shapes(m) && i <= |s| && m.nextLabel(s, i).Some?
    ensures var l := m.nextLabel(s, i).value; i <= l.start && l.start < l.end <= |s|
  {
    var l := m.nextLabel(s, i).value;
    assert LabelAt(s, i, l);
    assert |s[l.start..l.end]| >= 1;
  }

  lemma {:induction false} FlatOfSum<A>(a: seq<Piece>, b: seq<Piece>, f: Piece -> seq<A>)
    ensures Flat(a + b, f) == Flat(a, f) + Flat(b, f)
  {
    if a == [] {
      assert a + b == b;
    } else {
      FlatOfSum(a[1..], b, f);
      assert (a + b)[1..] == a[1..] + b;
      assert f(a[0]) + (Flat(a[1..], f) + Flat(b, f)) == (f(a[0]) + Flat(a[1..], f)) + Flat(b, f);
    }
  }

  lemma FlatOfTwo<A>(p: Piece, q: Piece, f: Piece -> seq<A>)
    ensures Flat([p, q], f) == f(p) + f(q)
  {
    assert [p, q][1..] == [q];
    FlatOfOne(q, f);
  }

  lemma FlatOfOne<A>(p: Piece, f: Piece -> seq<A>)
    ensures Flat([p], f) == f(p)
  {
    assert f(p) + [] == f(p);
  }

  lemma ErasedPair(s: Text, l: LabelMatch, c: Control, id: Text)
    requires l.start <= l.end <= c.start && c.start + 1 + |c.tag| <= c.tagEnd <= |s|
    requires s[l.start..l.end] == LABEL_OPEN + l.attrs + [GT] + l.text + LABEL_CLOSE
    requires s[c.start..c.start + 1 + |c.tag|] == [LT] + c.tag
    ensures Erased(PairPieces(s, l, c, id)) == s[l.start..c.tagEnd]
    ensures Insertions(PairPieces(s, l, c, id)) == [ForAttribute(id), IdAttribute(id)]
  {
    var p := PairPieces(s, l, c, id);
    SevenPieces(p, CopiedText);
    SevenPieces(p, InsertedTexts);
    hide Flat;
    var k := c.start + 1 + |c.tag|;
    Five(LABEL_OPEN + l.attrs, [GT] + l.text + LABEL_CLOSE, s[l.end..c.start], [LT] + c.tag, s[k..c.tagEnd]);
    LabelParts(LABEL_OPEN, l.attrs, l.text, LABEL_CLOSE);
    Glue(s, l.start, l.end, c.start);
    Glue(s, l.start, c.start, k);
    Glue(s, l.start, k, c.tagEnd);
  }

  lemma LabelParts(open: Text, attrs: Text, text: Text, close: Text)
    ensures (open + attrs) + ([GT] + text + close) == open + attrs + [GT] + text + close
  {
  }

  lemma Five(a: Text, b: Text, c: Text, d: Text, e: Text)
    ensures a + [] + b + c + d + [] + e == (a + b) + c + d + e
  {
  }

  lemma Glue(s: Text, a: nat, b: nat, c: nat)
    requires a <= b <= c <= |s|
    ensures s[a..b] + s[b..c] == s[a..c]
  {
  }

  lemma FlatFrom<A>(p: seq<Piece>, k: nat, f: Piece -> seq<A>)
    requires k < |p|
    ensures Flat(p[k..], f) == f(p[k]) + Flat(p[k + 1..], f)
  {
    assert p[k..][1..] == p[k + 1..];
  }

  lemma SevenPieces<A>(p: seq<Piece>, f: Piece -> seq<A>)
    requires |p| == 7
    ensures Flat(p, f) == f(p[0]) + f(p[1]) + f(p[2]) + f(p[3]) + f(p[4]) + f(p[5]) + f(p[6])
  {
    FlatFrom(p, 0, f);
    FlatFrom(p, 1, f);
    FlatFrom(p, 2, f);
    FlatFrom(p, 3, f);
    FlatFrom(p, 4, f);
    FlatFrom(p, 5, f);
    FlatFrom(p, 6, f);
    assert p[0..] == p && p[7..] == [] && Flat(p[7..], f) == [];
    hide Flat;
    Regroup(f(p[0]), f(p[1]), f(p[2]), f(p[3]), f(p[4]), f(p[5]), f(p[6]));
  }

  lemma Regroup<A>(a: seq<A>, b: seq<A>, c: seq<A>, d: seq<A>, e: seq<A>, g: seq<A>, h: seq<A>)
    ensures a + (b + (c + (d + (e + (g + (h + [])))))) == a + b + c + d + e + g + h
  {
  }

  /** Erasing the insertions gives the source back. */
  lemma {:induction false} ErasureRestores(m: Matchers, s: Text, i: nat, used: set<Text>)
    requires Shapes(m) && i <= |s|
    ensures Erased(Rewritten(m, s, i, used).pieces) == s[i..]
    decreases |s| - i
  {
    hide Flat, PairPieces, TheFreshId, Contains, IsControl, TheControl;
    match m.nextLabel(s, i)
    case None =>
      FlatOfOne(Copied(s[i..]), CopiedText);
    case Some(l) =>
      LabelIsLong(m, s, i);
      var before, kept := Copied(s[i..l.start]), [Copied(s[i..l.start]), Copied(s[l.start..l.end])];
      FlatOfTwo(before, Copied(s[l.start..l.end]), CopiedText);
      assert s[i..l.start] + s[l.start..l.end] + s[l.end..] == s[i..];
      var c := TheControl(m, s, l.end);
      if Contains(l.attrs, T("htmlFor=")) || c.None? || m.hasId(s[c.value.start..c.value.tagEnd]) {
        ErasureRestores(m, s, l.end, used);
        FlatOfSum(kept, Rewritten(m, s, l.end, used).pieces, CopiedText);
      } else {
        var id := TheFreshId(m.base(l.text), used);
        ErasureRestores(m, s, c.value.tagEnd, used + {id});
        PairErasure(m, s, i, l, c.value, id, Rewritten(m, s, c.value.tagEnd, used + {id}).pieces);
      }
  }

  lemma PairErasure(m: Matchers, s: Text, i: nat, l: LabelMatch, c: Control, id: Text, rest: seq<Piece>)
    requires Shapes(m) && i <= |s| && m.nextLabel(s, i) == Some(l) && IsControl(m, s, l.end, c)
    requires i <= l.start <= l.end <= c.start && c.start + 1 + |c.tag| <= c.tagEnd <= |s|
    requires Erased(rest) == s[c.tagEnd..]
    ensures Erased([Copied(s[i..l.start])] + PairPieces(s, l, c, id) + rest) == s[i..]
  {
    assert LabelAt(s, i, l);
    assert StartsAt(s, c.start, [LT] + c.tag);
    ErasedPair(s, l, c, id);
    hide Flat, PairPieces, IsControl, LabelAt, Shapes, StartsAt, Insertions;
    var before, pair := Copied(s[i..l.start]), PairPieces(s, l, c, id);
    FlatOfOne(before, CopiedText);
    FlatOfSum([before], pair, CopiedText);
    FlatOfSum([before] + pair, rest, CopiedText);
    Glue(s, i, l.start, c.tagEnd);
    Glue(s, i, c.tagEnd, |s|);
  }

  function Attributes(ids: seq<Text>): seq<Text> {
    if ids == [] then [] else [ForAttribute(ids[0]), IdAttribute(ids[0])] + Attributes(ids[1..])
  }

  predicate Distinct(ids: seq<Text>) {
    forall i, j | 0 <= i < j < |ids| :: ids[i] != ids[j]
  }

  lemma {:induction false} FreshExists(base: Text, used: set<Text>, k: nat, tried: set<Text>)
    requires k >= 1 && tried <= used && |tried| == k - 1
    requires forall j :: 1 <= j < k ==> Candidate(base, j) in tried
    requires forall t <- tried :: exists j :: 1 <= j < k && t == Candidate(base, j)
    ensures exists id :: IsFresh(base, used, id)
    decreases |used| + 1 - k
  {
    SubsetSize(tried, used);
    if Candidate(base, k) !in used {
      assert FreshAt(base, used, k);
      assert IsFresh(base, used, Candidate(base, k));
    } else {
      forall j | 1 <= j < k ensures Candidate(base, j) != Candidate(base, k) {
        CandidatesDiffer(base, j, k);
      }
      SubsetSize(tried + {Candidate(base, k)}, used);
      FreshExists(base, used, k + 1, tried + {Candidate(base, k)});
    }
  }

  lemma TheFreshIdIsFresh(base: Text, used: set<Text>)
    ensures IsFresh(base, used, TheFreshId(base, used)) && TheFreshId(base, used) !in used
  {
    FreshExists(base, used, 1, {});
    hide FreshAt, Candidate;
    var id := TheFreshId(base, used);
    FreshIsUnused(base, used, id);
  }

  lemma FreshIsUnused(base: Text, used: set<Text>, id: Text)
    requires IsFresh(base, used, id)
    ensures id !in used
  {
  }

  /** The inserted ids are new and pairwise distinct, and the insertions are exactly, pair by pair,
      the label's htmlFor and the control's id. */
  lemma {:induction false} InsertedIdsAreFresh(m: Matchers, s: Text, i: nat, used: set<Text>)
    requires Shapes(m) && i <= |s|
    ensures var r := Rewritten(m, s, i, used);
            && Distinct(r.ids) && (forall id <- r.ids :: id !in used)
            && Insertions(r.pieces) == Attributes(r.ids)
    decreases |s| - i
  {
    hide Flat, PairPieces, TheFreshId, Contains, IsControl, TheControl, ForAttribute, IdAttribute;
    match m.nextLabel(s, i)
    case None =>
      FlatOfOne(Copied(s[i..]), InsertedTexts);
    case Some(l) =>
      LabelIsLong(m, s, i);
      var before, kept := Copied(s[i..l.start]), [Copied(s[i..l.start]), Copied(s[l.start..l.end])];
      var c := TheControl(m, s, l.end);
      if Contains(l.attrs, T("htmlFor=")) || c.None? || m.hasId(s[c.value.start..c.value.tagEnd]) {
        InsertedIdsAreFresh(m, s, l.end, used);
        FlatOfTwo(before, Copied(s[l.start..l.end]), InsertedTexts);
        FlatOfSum(kept, Rewritten(m, s, l.end, used).pieces, InsertedTexts);
        assert [] + Insertions(Rewritten(m, s, l.end, used).pieces) == Insertions(Rewritten(m, s, l.end, used).pieces);
      } else {
        var id := TheFreshId(m.base(l.text), used);
        TheFreshIdIsFresh(m.base(l.text), used);
        InsertedIdsAreFresh(m, s, c.value.tagEnd, used + {id});
        var rest := Rewritten(m, s, c.value.tagEnd, used + {id});
        PairInsertions(s, i, l, c.value, id, rest.pieces);
        DistinctPrepend(id, rest.ids);
      }
  }

  lemma DistinctPrepend(id: Text, ids: seq<Text>)
    requires Distinct(ids) && id !in ids
    ensures Distinct([id] + ids) && Attributes([id] + ids) == [ForAttribute(id), IdAttribute(id)] + Attributes(ids)
  {
    assert ([id] + ids)[1..] == ids;
  }

  lemma PairInsertions(s: Text, i: nat, l: LabelMatch, c: Control, id: Text, rest: seq<Piece>)
    requires i <= l.start <= l.end <= c.start && c.start + 1 + |c.tag| <= c.tagEnd <= |s|
    ensures Insertions([Copied(s[i..l.start])] + PairPieces(s, l, c, id) + rest)
         == [ForAttribute(id), IdAttribute(id)] + Insertions(rest)
  {
    var before, pair := Copied(s[i..l.start]), PairPieces(s, l, c, id);
    SevenPieces(pair, InsertedTexts);
    hide Flat;
    assert Insertions(pair) == [ForAttribute(id), IdAttribute(id)];
    hide PairPieces, Insertions;
    assert Insertions([before] + pair + rest) == InsertedTexts(before) + Insertions(pair) + Insertions(rest) by {
      FlatOfOne(before, InsertedTexts);
      FlatOfSum([before], pair, InsertedTexts);
      FlatOfSum([before] + pair, rest, InsertedTexts);
      InsertionsAreFlat([before]);
      InsertionsAreFlat(pair);
      InsertionsAreFlat(rest);
      InsertionsAreFlat([before] + pair + rest);
    }
  }

  lemma InsertionsAreFlat(p: seq<Piece>)
    ensures Insertions(p) == Flat(p, InsertedTexts)
  {
  }

  /** For every file: erasing the inserted attributes gives the source back exactly; the ids are
      pairwise distinct and none of them is among the double-quoted ids the scan found; and the
      insertions are the htmlFor and the id of one pair after the other. */
  lemma RewritingIsReversibleAndFresh(m: Matchers, s: Text)
    requires Shapes(m)
    ensures var r := Rewritten(m, s, 0, Ids(m, s));
            && Erased(r.pieces) == s && Insertions(r.pieces) == Attributes(r.ids)
            && Distinct(r.ids) && forall id <- r.ids :: id !in Ids(m, s)
  {
    ErasureRestores(m, s, 0, Ids(m, s));
    InsertedIdsAreFresh(m, s, 0, Ids(m, s));
    assert s[0..] == s;
  }

  // ----- The loop -----

  function Before(done: Rewriting, rest: Rewriting): Rewriting {
    Rewriting(done.pieces + rest.pieces, done.ids + rest.ids, done.skipped + rest.skipped)
  }

  lemma BeforeAssociates(a: Rewriting, b: Rewriting, c: Rewriting)
    ensures Before(Before(a, b), c) == Before(a, Before(b, c))
  {
  }

  lemma TheControlIs(m: Matchers, s: Text, pos: nat, found: Option<Control>)
    requires Shapes(m) && pos <= |s|
    requires found.Some? ==> IsControl(m, s, pos, found.value)
    requires found.None? ==> forall c :: !IsControl(m, s, pos, c)
    ensures TheControl(m, s, pos) == found
  {
    if found.Some? {
      ControlIsUnique(m, s, pos, found.value, TheControl(m, s, pos).value);
    }
  }

  lemma TheFreshIdIs(base: Text, used: set<Text>, id: Text)
    requires IsFresh(base, used, id)
    ensures TheFreshId(base, used) == id
  {
    FreshIsUnique(base, used, id, TheFreshId(base, used));
  }

  /** `rewrite`: the output text, the number of pairs and the labels left to a person. */
  method Rewrite(m: Matchers, s: Text) returns (out: Text, paired: nat, skipped: seq<Skipped>)
    requires Shapes(m)
    ensures var r := Rewritten(m, s, 0, Ids(m, s));
            out == Joined(r.pieces) && paired == |r.ids| && skipped == r.skipped
  {
    hide Shapes, Flat, Joined, IsControl, IsFresh, TheControl, TheFreshId, Contains, Rewritten;
    var used := Ids(m, s);
    var pieces: seq<Piece>, i := [], 0;
    paired, skipped := 0, [];
    ghost var ids: seq<Text> := [];
    while true
      invariant i <= |s| && |ids| == paired
      invariant Rewritten(m, s, 0, Ids(m, s)) == Before(Rewriting(pieces, ids, skipped), Rewritten(m, s, i, used))
      decreases |s| - i
    {
      ghost var done := Rewriting(pieces, ids, skipped);
      var found := m.nextLabel(s, i);
      if found.None? {
        LastPiece(m, s, i, used);
        pieces := pieces + [Copied(s[i..])];
        break;
      }
      var l := found.value;
      LabelIsLong(m, s, i);
      var open := pieces + [Copied(s[i..l.start])];
      if Contains(l.attrs, T("htmlFor=")) {
        KeepLabel(m, s, i, used, done, []);
        pieces, i := open + [Copied(s[l.start..l.end])], l.end;
        continue;
      }
      var control := FindControlAfter(m, s, l.end);
      TheControlIs(m, s, l.end, control);
      if control.None? {
        KeepLabel(m, s, i, used, done, [Skipped(l.start, NoControl)]);
        skipped := skipped + [Skipped(l.start, NoControl)];
        pieces, i := open + [Copied(s[l.start..l.end])], l.end;
        continue;
      }
      var c := control.value;
      if m.hasId(s[c.start..c.tagEnd]) {
        KeepLabel(m, s, i, used, done, [Skipped(l.start, HasId)]);
        skipped := skipped + [Skipped(l.start, HasId)];
        pieces, i := open + [Copied(s[l.start..l.end])], l.end;
        continue;
      }
      var ident := FreshId(m.base(l.text), used);
      TheFreshIdIs(m.base(l.text), used, ident);
      PairLabel(m, s, i, used, done);
      used := used + {ident};
      pieces := open + PairPieces(s, l, c, ident);
      i := c.tagEnd;
      paired, ids := paired + 1, ids + [ident];
    }
    out := Joined(pieces);
  }

  lemma LastPiece(m: Matchers, s: Text, i: nat, used: set<Text>)
    requires Shapes(m) && i <= |s| && m.nextLabel(s, i).None?
    ensures Rewritten(m, s, i, used) == Rewriting([Copied(s[i..])], [], [])
  {
  }

  /** The label is copied, with or without a remark. */
  lemma KeepLabel(m: Matchers, s: Text, i: nat, used: set<Text>, done: Rewriting, remark: seq<Skipped>)
    requires Shapes(m) && i <= |s| && m.nextLabel(s, i).Some?
    requires var l := m.nextLabel(s, i).value;
             l.end <= |s| &&
             if Contains(l.attrs, T("htmlFor=")) then remark == []
             else match TheControl(m, s, l.end)
               case None => remark == [Skipped(l.start, NoControl)]
               case Some(c) => m.hasId(s[c.start..c.tagEnd]) && remark == [Skipped(l.start, HasId)]
    ensures var l := m.nextLabel(s, i).value;
            && i <= l.start <= l.end <= |s|
            && Before(done, Rewritten(m, s, i, used))
            == Before(Rewriting(done.pieces + [Copied(s[i..l.start])] + [Copied(s[l.start..l.end])], done.ids,
                                done.skipped + remark),
                      Rewritten(m, s, l.end, used))
  {
    LabelIsLong(m, s, i);
    var l := m.nextLabel(s, i).value;
    var kept := Rewriting([Copied(s[i..l.start]), Copied(s[l.start..l.end])], [], remark);
    var rest := Rewritten(m, s, l.end, used);
    assert Rewritten(m, s, i, used) == Before(kept, rest);
    hide Rewritten, Shapes, TheControl;
    BeforeAssociates(done, kept, rest);
    assert done.pieces + kept.pieces == done.pieces + [Copied(s[i..l.start])] + [Copied(s[l.start..l.end])];
    assert done.ids + [] == done.ids;
  }

  lemma PairLabel(m: Matchers, s: Text, i: nat, used: set<Text>, done: Rewriting)
    requires Shapes(m) && i <= |s| && m.nextLabel(s, i).Some?
    requires m.nextLabel(s, i).value.end <= |s| && !Contains(m.nextLabel(s, i).value.attrs, T("htmlFor="))
    requires var c := TheControl(m, s, m.nextLabel(s, i).value.end); c.Some? && !m.hasId(s[c.value.start..c.value.tagEnd])
    ensures var l := m.nextLabel(s, i).value;
            var c := TheControl(m, s, l.end).value;
            var id := TheFreshId(m.base(l.text), used);
            && i <= l.start <= l.end
            && Before(done, Rewritten(m, s, i, used))
            == Before(Rewriting(done.pieces + [Copied(s[i..l.start])] + PairPieces(s, l, c, id), done.ids + [id], done.skipped),
                      Rewritten(m, s, c.tagEnd, used + {id}))
  {
    LabelIsLong(m, s, i);
    var l := m.nextLabel(s, i).value;
    var c := TheControl(m, s, l.end).value;
    var id := TheFreshId(m.base(l.text), used);
    var step := Rewriting([Copied(s[i..l.start])] + PairPieces(s, l, c, id), [id], []);
    var rest := Rewritten(m, s, c.tagEnd, used + {id});
    assert Rewritten(m, s, i, used) == Before(step, rest);
    hide Rewritten, Shapes, TheControl, PairPieces, TheFreshId;
    BeforeAssociates(done, step, rest);
    assert done.pieces + step.pieces == done.pieces + [Copied(s[i..l.start])] + PairPieces(s, l, c, id);
    assert done.skipped + [] == done.skipped;
  }
}