/** Where an id attribute is spelled in a JSX text, in any of the ways JSX allows for a literal: white space
    around the equals sign, single or double quotes, or a string in braces. */
module JsxIds {
  import opened PairLabels
  import opened PyText
  import opened Wrappers

  // ----- Reading one attribute -----

  const SINGLE: CodePoint := 39
  const TICK: CodePoint := 96
  const OPEN_BRACE: CodePoint := 123
  const CLOSE_BRACE: CodePoint := 125

  /** White space and line ends between the tokens of JSX. */
  predicate Blank(c: CodePoint) {
    || 9 <= c <= 13 || c == 32 || c == 0xA0 || c == 0x1680 || 0x2000 <= c <= 0x200A || c == 0x2028 || c == 0x2029
    || c == 0x202F || c == 0x205F || c == 0x3000 || c == 0xFEFF
  }

  /** The id to look for; `strict` allows `id="…"` only, the spelling the codemod knows. */
  datatype Sought = Sought(id: Text, strict: bool)

  ghost predicate Plausible(a: Sought) {
    SlugText(a.id) && a.id != []
  }

  /** How far the reading of an attribute has come: nothing, the `i`, the name, the equals sign, the brace,
      the string with what is left of the id, the string in braces, everything. */
  datatype Reader = Start | Letter | Name | Value | Brace | Inside(rest: Text, close: CodePoint, braced: bool) | After | Whole

  function Next(r: Reader, c: CodePoint, a: Sought): Option<Reader> {
    match r
    case Start => if c == 105 then Some(Letter) else None
    case Letter => if c == 100 then Some(Name) else None
    case Name => if c == 61 then Some(Value) else if Blank(c) && !a.strict then Some(Name) else None
    case Value =>
      if c == QUOTE then Some(Inside(a.id, QUOTE, false))
      else if a.strict then None
      else if c == SINGLE then Some(Inside(a.id, SINGLE, false))
      else if c == OPEN_BRACE then Some(Brace)
      else if Blank(c) then Some(Value) else None
    case Brace =>
      if c == QUOTE || c == SINGLE || c == TICK then Some(Inside(a.id, c, true))
      else if Blank(c) then Some(Brace) else None
    case Inside(rest, close, braced) =>
      if rest != [] then if c == rest[0] then Some(Inside(rest[1..], close, braced)) else None
      else if c == close then Some(if braced then After else Whole) else None
    case After => if c == CLOSE_BRACE then Some(Whole) else if Blank(c) then Some(After) else None
    case Whole => None
  }

  /** The rest of the attribute stands at the beginning of the text. */
  predicate Reads(r: Reader, t: Text, a: Sought)
    decreases |t|
  {
    r.Whole? || (t != [] && Next(r, t[0], a).Some? && Reads(Next(r, t[0], a).value, t[1..], a))
  }

  /** A character that makes a following `id` part of a longer name, such as the dash of `data-id`. */
  predicate Joins(m: Matchers, c: CodePoint) {
    m.word(c) || c == DASH || c == 36 || c == 46 || c == 58
  }

  /** The places of an attribute; `after` tells whether a name runs up to the text. */
  function Places(m: Matchers, after: bool, t: Text, a: Sought): nat
    decreases |t|
  {
    if t == [] then 0
    else (if !after && Reads(Start, t, a) then 1 else 0) + Places(m, Joins(m, t[0]), t[1..], a)
  }

  function JoinsUpTo(m: Matchers, after: bool, t: Text): bool {
    if t == [] then after else Joins(m, t[|t| - 1])
  }

  lemma {:induction false} ReadsMore(r: Reader, t: Text, u: Text, a: Sought)
    requires Reads(r, t, a)
    ensures Reads(r, t + u, a)
    decreases |t|
  {
    if !r.Whole? {
      assert (t + u)[1..] == t[1..] + u;
      ReadsMore(Next(r, t[0], a).value, t[1..], u, a);
    }
  }

  // ----- Texts that no place can span -----

  /** In the middle of an attribute. */
  ghost predicate Live(r: Reader) {
    && !r.Start? && !r.Whole?
    && (r.Inside? ==> SlugText(r.rest) && (r.close == QUOTE || r.close == SINGLE || r.close == TICK))
  }

  lemma SlugTail(t: Text)
    requires SlugText(t) && t != []
    ensures SlugText(t[1..]) && t[0] in t && t[0] != QUOTE
  {
    assert forall c <- t[1..] :: c in t;
  }

  lemma NextIsLive(r: Reader, c: CodePoint, a: Sought)
    requires Plausible(a) && (Live(r) || r.Start?) && Next(r, c, a).Some?
    ensures Live(Next(r, c, a).value) || Next(r, c, a).value.Whole?
  {
    if r.Inside? && r.rest != [] {
      SlugTail(r.rest);
    }
  }

  /** No attribute goes on in the text. */
  ghost predicate Stops(u: Text, a: Sought) {
    forall r | Live(r) :: !Reads(r, u, a)
  }

  ghost predicate Apart(t: Text, u: Text, a: Sought) {
    t == [] || t[|t| - 1] == GT || Stops(u, a)
  }

  lemma AngleEndsReading(r: Reader, c: CodePoint, a: Sought)
    requires (Live(r) || r.Start?) && (c == LT || c == GT)
    ensures Next(r, c, a) == None
  {
    assert r.Inside? && r.rest != [] ==> r.rest[0] in r.rest;
  }

  lemma AngleStops(u: Text, a: Sought)
    requires u != [] && (u[0] == LT || u[0] == GT)
    ensures Stops(u, a)
  {
    forall r | Live(r) ensures !Reads(r, u, a) {
      AngleEndsReading(r, u[0], a);
    }
  }

  lemma {:induction false} SpanHolds(r: Reader, t: Text, u: Text, a: Sought)
    requires Plausible(a) && Apart(t, u, a) && (Live(r) || (r.Start? && t != []))
    requires t == [] ==> Stops(u, a)
    ensures Reads(r, t + u, a) == Reads(r, t, a)
    decreases |t|
  {
    if t == [] {
      assert t + u == u;
    } else {
      assert (t + u)[1..] == t[1..] + u;
      hide Live, Plausible, Stops;
      if Next(r, t[0], a).Some? {
        NextIsLive(r, t[0], a);
        if t[0] == GT {
          AngleEndsReading(r, t[0], a);
        } else if !Next(r, t[0], a).value.Whole? {
          SpanHolds(Next(r, t[0], a).value, t[1..], u, a);
        }
      }
    }
  }

  lemma {:induction false} PlacesOfSum(m: Matchers, after: bool, t: Text, u: Text, a: Sought)
    requires Plausible(a) && Apart(t, u, a)
    ensures Places(m, after, t + u, a) == Places(m, after, t, a) + Places(m, JoinsUpTo(m, after, t), u, a)
    decreases |t|
  {
    if t == [] {
      assert t + u == u;
    } else {
      assert (t + u)[1..] == t[1..] + u;
      SpanHolds(Start, t, u, a);
      hide Reads;
      PlacesOfSum(m, Joins(m, t[0]), t[1..], u, a);
    }
  }

  /** What no place starts in does not count. */
  lemma {:induction false} NoPlaceIn(m: Matchers, after: bool, t: Text, u: Text, a: Sought)
    requires forall k | 0 <= k < |t| :: !Reads(Start, t[k..] + u, a)
    ensures Places(m, after, t + u, a) == Places(m, JoinsUpTo(m, after, t), u, a)
    decreases |t|
  {
    hide Reads;
    if t == [] {
      assert t + u == u;
    } else {
      assert (t + u)[1..] == t[1..] + u && t[0..] == t;
      assert forall k | 0 <= k < |t[1..]| :: t[1..][k..] == t[k + 1..];
      NoPlaceIn(m, Joins(m, t[0]), t[1..], u, a);
    }
  }

  /** What precedes matters only to an `i`. */
  lemma BeforeIsIrrelevant(m: Matchers, after: bool, after': bool, t: Text, a: Sought)
    requires t == [] || t[0] != 105
    ensures Places(m, after, t, a) == Places(m, after', t, a)
  {
  }

  // ----- Texts without places -----

  /** No `id` with an equals sign starts here, whatever follows the text. */
  predicate QuietAt(t: Text, k: nat)
    requires k < |t|
  {
    t[k] != 105 || (k + 1 < |t| && t[k + 1] != 100) || (k + 2 < |t| && t[k + 2] != 61 && !Blank(t[k + 2]))
  }

  predicate Quiet(t: Text) {
    forall k | 0 <= k < |t| :: QuietAt(t, k)
  }

  lemma NoStart(t: Text, k: nat, u: Text, a: Sought)
    requires k < |t| && QuietAt(t, k)
    ensures !Reads(Start, t[k..] + u, a)
  {
    var v := t[k..] + u;
    assert v[0] == t[k] && (k + 1 < |t| ==> v[1] == t[k + 1]) && (k + 2 < |t| ==> v[2] == t[k + 2]);
    if Reads(Start, v, a) {
      StartSpells(v, a);
    }
  }

  lemma StartSpells(t: Text, a: Sought)
    requires Reads(Start, t, a)
    ensures |t| >= 3 && t[0] == 105 && t[1] == 100 && (t[2] == 61 || Blank(t[2]))
  {
    assert Reads(Letter, t[1..], a);
    assert Reads(Name, t[1..][1..], a);
  }

  lemma QuietHasNoPlace(m: Matchers, after: bool, t: Text, u: Text, a: Sought)
    requires Quiet(t)
    ensures Places(m, after, t + u, a) == Places(m, JoinsUpTo(m, after, t), u, a)
  {
    hide Reads, QuietAt;
    forall k | 0 <= k < |t| ensures !Reads(Start, t[k..] + u, a) {
      NoStart(t, k, u, a);
    }
    NoPlaceIn(m, after, t, u, a);
  }

  /** A slug and its closing quote are quiet. */
  lemma QuietSlug(before: Text, id: Text)
    requires SlugText(id) && 105 !in before
    ensures Quiet(before + id + [QUOTE])
  {
    var t := before + id + [QUOTE];
    forall k | 0 <= k < |t| ensures QuietAt(t, k) {
      if k < |before| {
        assert t[k] in before;
      } else if k + 2 < |t| && k + 2 - |before| < |id| {
        assert t[k + 2] == id[k + 2 - |before|] && id[k + 2 - |before|] in id;
      }
    }
  }

  // ----- The double-quoted spelling -----

  const ID_EQUALS: Text := [105, 100, 61]

  function Attribute(id: Text): Text {
    ID_EQUALS + ([QUOTE] + id + [QUOTE])
  }

  lemma ReadsEquals(t: Text, a: Sought)
    requires |t| >= 3 && t[..3] == ID_EQUALS
    ensures Reads(Start, t, a) == Reads(Value, t[3..], a)
  {
    assert t[0] == t[..3][0] && t[1] == t[..3][1] && t[2] == t[..3][2];
    assert t[1..][1..][1..] == t[3..];
    assert Reads(Start, t, a) == Reads(Letter, t[1..], a);
    assert Reads(Letter, t[1..], a) == Reads(Name, t[1..][1..], a);
  }

  lemma {:induction false} ReadsRest(rest: Text, id: Text, u: Text, a: Sought)
    requires SlugText(rest) && SlugText(id)
    ensures Reads(Inside(rest, QUOTE, false), id + [QUOTE] + u, a) <==> rest == id
    decreases |id|
  {
    var t := id + [QUOTE] + u;
    if rest != [] {
      SlugTail(rest);
    }
    if id != [] {
      SlugTail(id);
      assert t[0] == id[0] && t[1..] == id[1..] + [QUOTE] + u;
      if rest != [] {
        ReadsRest(rest[1..], id[1..], u, a);
        assert rest == [rest[0]] + rest[1..] && id == [id[0]] + id[1..];
      }
    }
  }

  /** A double-quoted attribute is read as the one of its id, and no other. */
  lemma ReadsAttribute(id: Text, u: Text, a: Sought)
    requires Plausible(a) && SlugText(id)
    ensures Reads(Start, Attribute(id) + u, a) <==> a.id == id
  {
    var t := Attribute(id) + u;
    assert t[..3] == ID_EQUALS && t[3..][0] == QUOTE;
    ReadsEquals(t, a);
    assert t[3..][1..] == id + [QUOTE] + u;
    ReadsRest(a.id, id, u, a);
  }

  lemma {:induction false} RestSpells(rest: Text, t: Text, a: Sought)
    requires Reads(Inside(rest, QUOTE, false), t, a)
    ensures |t| > |rest| && t[|rest|] == QUOTE && forall i | 0 <= i < |rest| :: t[i] == rest[i]
    decreases |rest|
  {
    if rest != [] {
      RestSpells(rest[1..], t[1..], a);
      assert forall i | 0 < i < |rest| :: t[i] == t[1..][i - 1] && rest[i] == rest[1..][i - 1];
    }
  }

  /** What a strict place looks like. */
  lemma StrictSpells(t: Text, id: Text)
    requires Reads(Start, t, Sought(id, true))
    ensures |t| >= 5 + |id| && t[0] == 105 && t[1] == 100 && t[2] == 61 && t[3] == QUOTE
    ensures (forall i | 0 <= i < |id| :: t[4 + i] == id[i]) && t[4 + |id|] == QUOTE
  {
    var a := Sought(id, true);
    assert Reads(Letter, t[1..], a);
    assert Reads(Name, t[1..][1..], a);
    assert Reads(Value, t[1..][1..][1..], a);
    assert t[1..][1..][1..][1..] == t[4..];
    RestSpells(id, t[4..], a);
  }

  // ----- A text without the letter -----

  /** An `i` here is part of a longer name. */
  predicate NoName(m: Matchers, after: bool, t: Text, k: nat)
    requires k < |t|
  {
    t[k] == 105 ==> JoinsUpTo(m, after, t[..k])
  }

  lemma {:induction false} NoPlaceWithoutName(m: Matchers, after: bool, t: Text, a: Sought)
    requires forall k | 0 <= k < |t| :: NoName(m, after, t, k)
    ensures Places(m, after, t, a) == 0
    decreases |t|
  {
    if t != [] {
      forall k | 0 <= k < |t| - 1 ensures NoName(m, Joins(m, t[0]), t[1..], k) {
        assert NoName(m, after, t, k + 1);
        assert k > 0 ==> t[1..][..k][k - 1] == t[..k + 1][k];
      }
      assert NoName(m, after, t, 0);
      if Reads(Start, t, a) {
        StartSpells(t, a);
      }
      NoPlaceWithoutName(m, Joins(m, t[0]), t[1..], a);
    }
  }

  lemma {:induction false} APlaceCounts(m: Matchers, after: bool, t: Text, k: nat, a: Sought)
    requires k < |t| && Reads(Start, t[k..], a) && !JoinsUpTo(m, after, t[..k])
    ensures Places(m, after, t, a) >= 1
    decreases k
  {
    hide Reads;
    if k == 0 {
      assert t[0..] == t;
    } else {
      assert t[1..][k - 1..] == t[k..];
      assert k > 1 ==> t[1..][..k - 1][k - 2] == t[..k][k - 1];
      APlaceCounts(m, Joins(m, t[0]), t[1..], k - 1, a);
    }
  }
}
