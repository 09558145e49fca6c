/** What the label codemod makes of each label (scripts/codemods/pair-labels.py), in terms of the text: where a
    control's opening tag ends, which labels are paired, and what is then written. */
module PairLabelSteps {
  import opened PairLabelIds
  import opened PairLabels
  import opened PyText
  import opened Wrappers

  // ----- The end of an opening tag -----

  predicate IsQuote(c: CodePoint) {
    c == 34 || c == 39
  }

  /** The place of the quote in the text, or its length. */
  function FindQuote(t: Text, q: CodePoint): (k: nat)
    ensures k <= |t| && (k < |t| ==> t[k] == q) && forall i | 0 <= i < k :: t[i] != q
  {
    if t == [] || t[0] == q then 0 else 1 + FindQuote(t[1..], q)
  }

  /** Opening less closing braces outside quoted strings; None if a string is still open at the end. */
  function Braces(t: Text): Option<int>
    decreases |t|
  {
    if t == [] then Some(0)
    else if IsQuote(t[0]) then
      var k := FindQuote(t[1..], t[0]);
      if k < |t| - 1 then Braces(t[1..][k + 1..]) else None
    else
      match Braces(t[1..])
      case None => None
      case Some(d) => Some(d + if t[0] == 123 then 1 else if t[0] == 125 then -1 else 0)
  }

  /** The scanner, run from a state over a text. */
  function Lexed(l: Lex, t: Text): Lex
    decreases |t|
  {
    if t == [] then l else Lexed(Step(l, t[0]), t[1..])
  }

  lemma {:induction false} LexedEnds(l: Lex, t: Text, c: CodePoint)
    ensures Lexed(l, t + [c]) == Step(Lexed(l, t), c)
    decreases |t|
  {
    if t == [] {
      assert t + [c] == [c];
    } else {
      assert (t + [c])[1..] == t[1..] + [c];
      LexedEnds(Step(l, t[0]), t[1..], c);
    }
  }

  lemma {:induction false} ScannedIsLexed(s: Text, a: nat, j: nat)
    requires a <= j <= |s|
    ensures Scanned(s, a, j) == Lexed(Lex(0, None), s[a..j])
    decreases j
  {
    if j > a {
      ScannedIsLexed(s, a, j - 1);
      assert s[a..j] == s[a..j - 1] + [s[j - 1]];
      LexedEnds(Lex(0, None), s[a..j - 1], s[j - 1]);
    }
  }

  lemma {:induction false} LexedInString(d: int, q: CodePoint, t: Text)
    requires IsQuote(q)
    ensures var k := FindQuote(t, q);
      Lexed(Lex(d, Some(q)), t) == if k < |t| then Lexed(Lex(d, None), t[k + 1..]) else Lex(d, Some(q))
    decreases |t|
  {
    if t != [] && t[0] != q {
      LexedInString(d, q, t[1..]);
      var k := FindQuote(t[1..], q);
      assert k < |t| - 1 ==> t[1..][k + 1..] == t[k + 2..];
    }
  }

  lemma {:induction false} LexedIsBraces(d: int, t: Text)
    ensures var l := Lexed(Lex(d, None), t);
      (l.quote.None? <==> Braces(t).Some?) && (Braces(t).Some? ==> l.depth == d + Braces(t).value)
    decreases |t|
  {
    if t != [] {
      if IsQuote(t[0]) {
        LexedInString(d, t[0], t[1..]);
        var k := FindQuote(t[1..], t[0]);
        if k < |t| - 1 {
          LexedIsBraces(d, t[1..][k + 1..]);
        }
      } else {
        LexedIsBraces(if t[0] == 123 then d + 1 else if t[0] == 125 then d - 1 else d, t[1..]);
      }
    }
  }

  /** A `>` ends the tag exactly if every string before it is closed and braces are balanced outside strings. */
  lemma ClosesIff(s: Text, a: nat, j: nat)
    ensures Closes(s, a, j) <==> a <= j < |s| && s[j] == GT && Braces(s[a..j]) == Some(0)
  {
    if a <= j < |s| {
      ScannedIsLexed(s, a, j);
      LexedIsBraces(0, s[a..j]);
    }
  }

  // ----- Which labels are paired -----

  /** The text has the part somewhere. */
  ghost predicate Holds(t: Text, part: Text) {
    exists before, after :: t == before + part + after
  }

  lemma ContainsIff(t: Text, part: Text)
    ensures Contains(t, part) <==> Holds(t, part)
  {
    if Contains(t, part) {
      var i :| 0 <= i <= |t| && StartsAt(t, i, part);
      assert t == t[..i] + part + t[i + |part|..];
    }
    if before, after :| t == before + part + after {
      assert t[|before|..|before| + |part|] == part;
      assert StartsAt(t, |before|, part);
    }
  }

  function Numbered(base: Text, k: nat): Text {
    base + T("-") + Digits(k)
  }

  ghost predicate NumberedBelow(base: Text, used: set<Text>, k: nat) {
    forall j | 2 <= j < k :: Numbered(base, j) in used
  }

  /** The new id is the base if that is unused, and otherwise the base with a hyphen and the first number from 2 on
      that makes it unused. */
  lemma FreshIff(base: Text, used: set<Text>, id: Text)
    ensures IsFresh(base, used, id) <==>
            (if base !in used then id == base
             else exists k: nat | k >= 2 :: id == Numbered(base, k) && id !in used && NumberedBelow(base, used, k))
  {
    hide Digits;
    assert T("-") == [DASH];
    assert forall k | k >= 2 :: Candidate(base, k) == Numbered(base, k);
    assert Candidate(base, 1) == base;
    if IsFresh(base, used, id) {
      var k :| k >= 1 && FreshAt(base, used, k) && id == Candidate(base, k);
      assert k > 1 ==> Candidate(base, 1) in used;
    }
    if base !in used {
      assert FreshAt(base, used, 1);
    } else if k: nat :| k >= 2 && id == Numbered(base, k) && id !in used && NumberedBelow(base, used, k) {
      assert FreshAt(base, used, k);
    }
  }

  /** The label may be paired: it has no htmlFor anywhere in its attributes, and a control without an id follows
      it directly. */
  ghost predicate Pairs(m: Matchers, s: Text, l: LabelMatch, c: Control)
    requires l.end <= |s|
  {
    !Holds(l.attrs, T("htmlFor=")) && IsControl(m, s, l.end, c) && c.start <= c.tagEnd <= |s| && !m.hasId(s[c.start..c.tagEnd])
  }

  lemma PairedRewriting(m: Matchers, s: Text, i: nat, used: set<Text>, l: LabelMatch, c: Control)
    requires Shapes(m) && i <= |s| && m.nextLabel(s, i) == Some(l) && l.end <= |s| && Pairs(m, s, l, c)
    ensures i <= l.start <= l.end <= c.start && c.start + 1 + |c.tag| <= c.tagEnd < |s|
    ensures var id := TheFreshId(m.base(l.text), used);
      var rest := Rewritten(m, s, c.tagEnd, used + {id});
      Rewritten(m, s, i, used)
      == Rewriting([Copied(s[i..l.start])] + PairPieces(s, l, c, id) + rest.pieces, [id] + rest.ids, rest.skipped)
  {
    hide TheControl, TheFreshId, Contains, IsControl, PairPieces, Holds;
    LabelIsLong(m, s, i);
    ContainsIff(l.attrs, T("htmlFor="));
    TheControlIs(m, s, l.end, Some(c));
    hide Shapes;
  }

  /** The next label is paired: it gets the htmlFor and the control the same id, one that is not in use, and
      everything else is as it was. */
  lemma PairedLabel(m: Matchers, s: Text, i: nat, used: set<Text>, l: LabelMatch, c: Control)
    requires Shapes(m) && i <= |s| && m.nextLabel(s, i) == Some(l) && l.end <= |s| && Pairs(m, s, l, c)
    ensures i <= l.start <= l.end <= c.start && c.start + 1 + |c.tag| <= c.tagEnd < |s|
    ensures var id := TheFreshId(m.base(l.text), used);
      var rest := Rewritten(m, s, c.tagEnd, used + {id});
      var r := Rewritten(m, s, i, used);
      && id !in used && r.ids == [id] + rest.ids && r.skipped == rest.skipped
      && Joined(r.pieces)
      == (s[i..l.start] + (LABEL_OPEN + l.attrs))
         + (ForAttribute(id)
            + ((([GT] + l.text + LABEL_CLOSE) + s[l.end..c.start])
               + (([LT] + c.tag) + (IdAttribute(id) + (s[c.start + 1 + |c.tag|..c.tagEnd] + Joined(rest.pieces))))))
  {
    hide Shapes, TheFreshId, Joined, ForAttribute, IdAttribute, LABEL_OPEN, LABEL_CLOSE, IsFresh, Rewritten;
    PairedRewriting(m, s, i, used, l, c);
    TheFreshIdIsFresh(m.base(l.text), used);
    FreshIsUnused(m.base(l.text), used, TheFreshId(m.base(l.text), used));
    var id := TheFreshId(m.base(l.text), used);
    JoinedPair(s[i..l.start], PairPieces(s, l, c, id), Rewritten(m, s, c.tagEnd, used + {id}).pieces);
  }

  /** Any other label is copied with all that precedes it, and with a remark exactly if it has no htmlFor: that no
      control follows it, or that its control has an id. */
  lemma OtherLabel(m: Matchers, s: Text, i: nat, used: set<Text>, l: LabelMatch)
    requires Shapes(m) && i <= |s| && m.nextLabel(s, i) == Some(l) && l.end <= |s|
    requires forall c :: !Pairs(m, s, l, c)
    ensures i <= l.start <= l.end
    ensures var rest := Rewritten(m, s, l.end, used);
      var r := Rewritten(m, s, i, used);
      && r.ids == rest.ids && Joined(r.pieces) == s[i..l.end] + Joined(rest.pieces)
      && r.skipped == (if Holds(l.attrs, T("htmlFor=")) then []
                       else if exists c :: IsControl(m, s, l.end, c) then [Skipped(l.start, HasId)]
                       else [Skipped(l.start, NoControl)]) + rest.skipped
  {
    LabelIsLong(m, s, i);
    ContainsIff(l.attrs, T("htmlFor="));
    var c := TheControl(m, s, l.end);
    assert c.Some? ==> IsControl(m, s, l.end, c.value);
    assert c.Some? ==> !Pairs(m, s, l, c.value);
    hide Shapes, IsControl, TheControl, TheFreshId, Contains, Joined, PairPieces, Holds;
    JoinedLabel(s, i, l.start, l.end, Rewritten(m, s, l.end, used).pieces);
    assert [] + Rewritten(m, s, l.end, used).skipped == Rewritten(m, s, l.end, used).skipped;
  }

  /** After the last label everything is copied. */
  lemma NoMoreLabels(m: Matchers, s: Text, i: nat, used: set<Text>)
    requires Shapes(m) && i <= |s| && m.nextLabel(s, i) == None
    ensures var r := Rewritten(m, s, i, used); Joined(r.pieces) == s[i..] && r.ids == [] && r.skipped == []
  {
    FlatOfOne(Copied(s[i..]), PieceText);
  }
}
