/** What the fallback codemod makes of each call (scripts/codemods/strip-token-fallbacks.py), in terms of the
    parts of its argument. */
module StripCalls {
  import opened CssText
  import opened StripFallbacks
  import opened StripTheorems
  import opened Wrappers

  // ----- The parts of an argument -----

  predicate AllOf(s: string, p: char -> bool) {
    forall i | 0 <= i < |s| :: p(s[i])
  }

  /** `--` and at least one letter of ASCII, digit or hyphen, and nothing else. */
  predicate TokenName(s: string) {
    && |s| > 2 && s[0] == '-' && s[1] == '-'
    && forall c <- s :: 'a' <= c <= 'z' || 'A' <= c <= 'Z' || '0' <= c <= '9' || c == '-'
  }

  lemma TokenNameIff(s: string)
    ensures TokenName(s) <==> |s| > 2 && s[0] == '-' && s[1] == '-' && AllOf(s, NameChar)
  {
    assert forall i | 0 <= i < |s| :: s[i] in s;
  }

  /** The argument is white space, a token name, white space, and then a comma with the fallback, if there is
      one. */
  ghost predicate Consists(inner: string, name: string, fallback: Option<string>) {
    exists before, after :: ConsistsOf(inner, before, name, after, fallback)
  }

  predicate ConsistsOf(inner: string, before: string, name: string, after: string, fallback: Option<string>) {
    && TokenName(name) && AllOf(before, PySpace) && AllOf(after, PySpace)
    && inner == before + name + after + (if fallback.Some? then "," + fallback.value else "")
  }

  lemma PartsParse(inner: string, before: string, name: string, after: string, fallback: Option<string>)
    requires ConsistsOf(inner, before, name, after, fallback)
    ensures PyArgument(inner) == Ref(name, fallback)
  {
    hide PySpace, NameChar, SpanEnd, TokenName;
    TokenNameIff(name);
    var a := |before|;
    var b := a + |name|;
    var c := b + |after|;
    assert forall i | 0 <= i < a :: inner[i] == before[i];
    assert forall i | a <= i < b :: inner[i] == name[i - a];
    assert forall i | b <= i < c :: inner[i] == after[i - b];
    assert c < |inner| ==> inner[c] == ',';
    SpacesAreNoNames();
    assert inner[a] == name[0] && inner[a + 1] == name[1];
    SpanIs(inner, 0, PySpace, a);
    SpanIs(inner, a + 2, NameChar, b);
    SpanIs(inner, b, PySpace, c);
    assert inner[a..b] == name;
    assert fallback.Some? ==> inner[c + 1..] == fallback.value;
  }

  lemma SpacesAreNoNames()
    ensures forall c: char :: PySpace(c) ==> !NameChar(c)
    ensures !PySpace('-') && !PySpace(',') && !NameChar(',')
  {
  }

  /** Where the parts of an argument begin. */
  lemma ArgumentSpans(inner: string) returns (a: nat, b: nat, c: nat)
    requires PyArgument(inner).Ref?
    ensures a + 2 < b <= c <= |inner| && PyArgument(inner).name == inner[a..b]
    ensures (forall i | 0 <= i < a :: PySpace(inner[i])) && inner[a] == '-' && inner[a + 1] == '-'
    ensures (forall i | a + 2 <= i < b :: NameChar(inner[i])) && forall i | b <= i < c :: PySpace(inner[i])
    ensures if c == |inner| then PyArgument(inner).fallback.None?
            else inner[c] == ',' && PyArgument(inner).fallback == Some(inner[c + 1..])
  {
    hide PySpace, NameChar;
    a := SpanEnd(inner, 0, PySpace);
    b := SpanEnd(inner, a + 2, NameChar);
    c := SpanEnd(inner, b, PySpace);
  }

  lemma FourParts(s: string, a: nat, b: nat, c: nat)
    requires a <= b <= c <= |s|
    ensures s == s[..a] + s[a..b] + s[b..c] + s[c..]
    ensures c < |s| && s[c] == ',' ==> s[c..] == "," + s[c + 1..]
    ensures c == |s| ==> s[c..] == ""
  {
  }

  lemma ParseParts(inner: string)
    requires PyArgument(inner).Ref?
    ensures Consists(inner, PyArgument(inner).name, PyArgument(inner).fallback)
  {
    hide PyArgument, PySpace, NameChar, TokenName;
    var a, b, c := ArgumentSpans(inner);
    FourParts(inner, a, b, c);
    DashesAreNameChars();
    var name := inner[a..b];
    assert forall i | 0 <= i < |name| :: name[i] == inner[a + i];
    assert forall i | 0 <= i < c - b :: inner[b..c][i] == inner[b + i];
    TokenNameIff(name);
    assert ConsistsOf(inner, inner[..a], name, inner[b..c], PyArgument(inner).fallback);
  }

  lemma DashesAreNameChars()
    ensures NameChar('-')
  {
  }

  /** The regular expression matches exactly the arguments of this shape, and reads their parts. */
  lemma PyArgumentIff(inner: string, name: string, fallback: Option<string>)
    ensures PyArgument(inner) == Ref(name, fallback) <==> Consists(inner, name, fallback)
  {
    hide PyArgument, ConsistsOf;
    if PyArgument(inner) == Ref(name, fallback) {
      ParseParts(inner);
    }
    if before, after :| ConsistsOf(inner, before, name, after, fallback) {
      PartsParse(inner, before, name, after, fallback);
    }
  }

  // ----- One call -----

  /** What precedes the fallback in the argument. */
  function Prefix(inner: string, fallback: string): string
    requires |fallback| <= |inner|
  {
    inner[..|inner| - |fallback|]
  }

  lemma HeadIsPrefix(inner: string, name: string, fallback: string)
    requires PyArgument(inner) == Ref(name, Some(fallback))
    ensures |fallback| < |inner| && Head(inner) == Prefix(inner, fallback) && inner == Head(inner) + fallback
  {
    assert Head(inner) + fallback == inner;
  }

  lemma {:induction false} RemovedAfterHead(head: string, y: string, defined: set<string>)
    requires forall i | 0 <= i < |head| :: head[i] != '('
    requires head != "" ==> head[|head| - 1] == ','
    ensures Removed(head + y, defined) == Removed(y, defined)
  {
    hide RemovedIn, CallInner, CallRest;
    if head == "" {
      assert head + y == y;
    } else {
      var t := head + y;
      assert t[|head| - 1] == ',' && (|head| >= 4 ==> t[3] == head[3]);
      assert t[1..] == head[1..] + y;
      RemovedAfterHead(head[1..], y, defined);
    }
  }

  lemma StripOfCall(inner: string, rest: string, defined: set<string>)
    requires Balanced(inner)
    ensures Strip(VAR + inner + ")" + rest, defined) == VAR + NewInner(inner, defined) + ")" + Strip(rest, defined)
    ensures Removed(VAR + inner + ")" + rest, defined) == RemovedIn(inner, defined) + Removed(rest, defined)
  {
    CallOf(inner, rest);
    hide CallInner, CallRest, CloseAt, Walk, NewInner, RemovedIn;
  }

  /** A call of a token that is not defined is kept, and its fallback is rewritten like any text. */
  lemma UndefinedCallKeepsRewrittenFallback(inner: string, name: string, fallback: string, rest: string, defined: set<string>)
    requires Balanced(inner) && Consists(inner, name, Some(fallback)) && name !in defined
    ensures |fallback| < |inner|
    ensures Strip(VAR + inner + ")" + rest, defined)
         == VAR + (Prefix(inner, fallback) + Strip(fallback, defined)) + ")" + Strip(rest, defined)
    ensures Removed(VAR + inner + ")" + rest, defined) == Removed(fallback, defined) + Removed(rest, defined)
  {
    PyArgumentIff(inner, name, Some(fallback));
    HeadIsPrefix(inner, name, fallback);
    hide PyArgument, Consists, Head, Walk, Strip, Removed;
    StripOfCall(inner, rest, defined);
    StripAfterHead(Head(inner), fallback, defined);
    RemovedAfterHead(Head(inner), fallback, defined);
  }

  /** A call of a defined token loses its fallback and the white space around its name. */
  lemma DefinedCallLosesFallback(inner: string, name: string, fallback: string, rest: string, defined: set<string>)
    requires Balanced(inner) && Consists(inner, name, Some(fallback)) && name in defined
    ensures Strip(VAR + inner + ")" + rest, defined) == VAR + name + ")" + Strip(rest, defined)
    ensures Removed(VAR + inner + ")" + rest, defined) == 1 + Removed(rest, defined)
  {
    PyArgumentIff(inner, name, Some(fallback));
    hide PyArgument, Consists, Walk, Strip, Removed;
    StripOfCall(inner, rest, defined);
  }

  /** Any other call is copied. */
  lemma OtherCallIsCopied(inner: string, rest: string, defined: set<string>)
    requires Balanced(inner) && forall name, fallback :: !Consists(inner, name, Some(fallback))
    ensures Strip(VAR + inner + ")" + rest, defined) == VAR + inner + ")" + Strip(rest, defined)
    ensures Removed(VAR + inner + ")" + rest, defined) == Removed(rest, defined)
  {
    if HasFallback(PyArgument(inner)) {
      PyArgumentIff(inner, PyArgument(inner).name, PyArgument(inner).fallback);
    }
    hide PyArgument, Consists, Walk, Strip, Removed;
    StripOfCall(inner, rest, defined);
  }

  /** A character outside calls is copied. */
  lemma OtherCharIsCopied(c: char, rest: string, defined: set<string>)
    requires !StartsCall([c] + rest)
    ensures Strip([c] + rest, defined) == [c] + Strip(rest, defined)
    ensures Removed([c] + rest, defined) == Removed(rest, defined)
  {
    assert ([c] + rest)[1..] == rest;
  }

  // ----- Nothing is left -----

  /** A call of a defined token with a fallback stands in the text, or in the fallback of a call in the text,
      however deep. */
  predicate HoldsFallback(t: string, defined: set<string>)
    decreases |t|
  {
    if t == "" then false
    else if StartsCall(t) then
      var a := PyArgument(CallInner(t));
      || (a.Ref? && a.fallback.Some? && (a.name in defined || HoldsFallback(a.fallback.value, defined)))
      || HoldsFallback(CallRest(t), defined)
    else HoldsFallback(t[1..], defined)
  }

  /** A fallback is counted exactly when there is such a call. */
  lemma {:induction false} RemovedIff(t: string, defined: set<string>)
    ensures Removed(t, defined) > 0 <==> HoldsFallback(t, defined)
    decreases |t|
  {
    hide PyArgument;
    if t != "" {
      if StartsCall(t) {
        var inner := CallInner(t);
        RemovedIff(CallRest(t), defined);
        if HasFallback(PyArgument(inner)) {
          var fb := PyArgument(inner).fallback.value;
          HeadIsPrefix(inner, PyArgument(inner).name, fb);
          RemovedIff(fb, defined);
          RemovedAfterHead(Head(inner), fb, defined);
        }
      } else {
        RemovedIff(t[1..], defined);
      }
    }
  }

  /** After one pass no call of a defined token has a fallback, at any depth, on every text. */
  lemma NoFallbackIsLeft(t: string, defined: set<string>)
    ensures !HoldsFallback(Strip(t, defined), defined)
  {
    hide HoldsFallback, Removed, Strip;
    SecondPassRemovesNothing(t, defined);
    RemovedIff(Strip(t, defined), defined);
  }
}
