/** The fallback codemod and the syntax of CSS (scripts/codemods/strip-token-fallbacks.py): how CSS reads
    the arguments that the code rewrites, and which calls are well formed afterwards. */
module StripSyntax {
  import opened CssText
  import opened StripFallbacks
  import opened StripTheorems
  import opened Wrappers

  // ----- Closed text, once more -----

  /** Every `var(` anywhere in the text has its closing parenthesis. */
  predicate AllClosed(t: string) {
    t == "" || ((StartsCall(t) ==> CloseAt(t[4..], 1) < |t| - 4) && AllClosed(t[1..]))
  }

  lemma {:induction false} AllClosedSuffix(t: string, k: nat)
    requires AllClosed(t) && k <= |t|
    ensures AllClosed(t[k..])
  {
    if k > 0 {
      AllClosedSuffix(t[1..], k - 1);
      assert t[1..][k - 1..] == t[k..];
    } else {
      assert t[0..] == t;
    }
  }

  lemma {:induction false} BalancedThenClosed(a: string, k: nat, b: string)
    requires k >= 1 && Walk(a, k) == Some(1) && AllClosed(b)
    ensures AllClosed(a + ")" + b)
    decreases |a|
  {
    var t := a + ")" + b;
    if a == "" {
      assert t[1..] == b;
    } else {
      assert t[1..] == a[1..] + ")" + b;
      if StartsCall(t) {
        assert StartsCall(a);
        WalkIntoCall(a, k);
        CloseWithin(a[4..], 1, k);
        CloseAppend(a[4..], ")" + b, 1);
        assert t[4..] == a[4..] + (")" + b);
      }
      BalancedThenClosed(a[1..], if a[0] == '(' then k + 1 else if a[0] == ')' then k - 1 else k, b);
    }
  }

  lemma AllClosedCall(t: string)
    requires StartsCall(t) && CloseAt(t[4..], 1) < |t| - 4 && AllClosed(t[4..])
    ensures AllClosed(t)
  {
    hide CloseAt;
    var t1, t2, t3 := t[1..], t[2..], t[3..];
    assert t1[1..] == t2 && t2[1..] == t3 && t3[1..] == t[4..];
    assert AllClosed(t3) && AllClosed(t2) && AllClosed(t1);
  }

  lemma {:induction false} ClosedEverywhere(t: string)
    requires Closed(t)
    ensures AllClosed(t)
    decreases |t|
  {
    hide CloseAt, Walk, CallInner, CallRest;
    if t != "" {
      if StartsCall(t) {
        CallShape(t);
        ClosedEverywhere(CallRest(t));
        BalancedThenClosed(CallInner(t), 1, CallRest(t));
        assert t[4..] == CallInner(t) + ")" + CallRest(t);
        AllClosedCall(t);
      } else {
        ClosedEverywhere(t[1..]);
      }
    }
  }

  lemma {:induction false} AllClosedIsClosed(t: string)
    requires AllClosed(t)
    ensures Closed(t)
    decreases |t|
  {
    if t != "" {
      if StartsCall(t) {
        CallShape(t);
        var n := |CallInner(t)| + 5;
        assert CallRest(t) == t[n..];
        AllClosedSuffix(t, n);
        AllClosedIsClosed(CallRest(t));
      } else {
        AllClosedIsClosed(t[1..]);
      }
    }
  }

  // ----- The same head, read by CSS -----

  /** The part of a custom property name that the code's regular expression matches. */
  function NamePart(name: string): string {
    name[..if |name| >= 2 then SpanEnd(name, 2, NameChar) else 0]
  }

  lemma {:induction false} SpanAgrees(s: string, t: string, i: nat, p: char -> bool, c: nat)
    requires i <= c < |s| && c < |t| && s[c] == t[c] && !p(s[c])
    requires forall k | i <= k < c :: s[k] == t[k]
    ensures SpanEnd(s, i, p) == SpanEnd(t, i, p) <= c
    decreases c - i
  {
    if i < c && p(s[i]) {
      SpanAgrees(s, t, i + 1, p, c);
    }
  }

  lemma CharClasses()
    ensures forall c: char :: CssSpace(c) ==> PySpace(c)
    ensures forall c: char :: CssSpace(c) ==> !IdentChar(c)
    ensures forall c: char :: NameChar(c) ==> IdentChar(c)
    ensures forall c: char :: NameChar(c) ==> !PySpace(c)
    ensures !IdentChar(',') && !PySpace(',') && !PySpace('-') && NameChar('-')
  {
  }

  /** What CSS reads when the fallback of `inner` is `y`. */
  function CssWith(inner: string, y: string): Argument {
    if CssArgument(inner).Ref? then Ref(CssArgument(inner).name, Some(y)) else NoMatch
  }

  /** The code's name is the part of CSS's name that its expression matches. */
  lemma NameWithin(s: string, a: nat, b: nat, b': nat)
    requires a + 2 < b <= b' < |s| && !NameChar(s[b])
    requires forall k | a + 2 <= k < b :: NameChar(s[k])
    ensures NamePart(s[a..b']) == s[a..b]
  {
    var name := s[a..b'];
    assert forall k | 2 <= k < b - a :: name[k] == s[a + k];
    assert b < b' ==> name[b - a] == s[b];
    assert name[..b - a] == s[a..b];
    hide NameChar;
    SpanIs(name, 2, NameChar, b - a);
  }

  /** How an argument is read whose leading white space ends at `a` and whose name ends at `b`. */
  lemma ReadsFrom(t: string, a: nat, b: nat, c: nat)
    requires a + 2 < b <= c < |t| && t[a] == '-' && t[a + 1] == '-'
    requires SpanEnd(t, 0, CssSpace) == a && SpanEnd(t, a + 2, IdentChar) == b && SpanEnd(t, b, CssSpace) == c
    ensures CssArgument(t) == if t[c] == ',' then Ref(t[a..b], Some(t[c + 1..])) else NoMatch
  {
    hide SpanEnd, CssSpace, IdentChar;
  }

  /** Two texts that agree up to the comma at `c` are read alike, each with its own fallback. */
  lemma CssReads(s: string, t: string, a: nat, b: nat, c: nat)
    requires a + 2 < b <= c < |s| && c < |t| && forall k | 0 <= k <= c :: s[k] == t[k]
    requires (forall k | 0 <= k < a :: PySpace(s[k])) && s[a] == '-' && s[a + 1] == '-'
    requires forall k | a + 2 <= k < b :: NameChar(s[k])
    requires !NameChar(s[b]) && (forall k | b <= k < c :: PySpace(s[k])) && s[c] == ','
    ensures var x := CssArgument(s);
      if x.NoMatch? then CssArgument(t) == NoMatch
      else x.fallback == Some(s[c + 1..]) && CssArgument(t) == Ref(x.name, Some(t[c + 1..])) && NamePart(x.name) == s[a..b]
  {
    hide PySpace, CssSpace, NameChar, IdentChar, NamePart, CssArgument, SpanEnd;
    CharClasses();
    SpanAgrees(s, t, 0, CssSpace, c);
    var a' := SpanEnd(s, 0, CssSpace);
    if a' == a {
      SpanAgrees(s, t, a + 2, IdentChar, c);
      var b' := SpanEnd(s, a + 2, IdentChar);
      SpanAgrees(s, t, b', CssSpace, c);
      var c' := SpanEnd(s, b', CssSpace);
      assert b <= b' && (c' < c ==> !CssSpace(s[c']) && PySpace(s[c']));
      NameWithin(s, a, b, b');
      ReadsFrom(s, a, b', c');
      ReadsFrom(t, a, b', c');
      assert t[a..b'] == s[a..b'];
    } else {
      assert a' < a;
      NotAReference(s, a');
      NotAReference(t, a');
    }
  }

  lemma NotAReference(s: string, a: nat)
    requires a < |s| && SpanEnd(s, 0, CssSpace) == a && s[a] != '-'
    ensures CssArgument(s) == NoMatch
  {
  }

  lemma CssHead(inner: string, y: string)
    requires HasFallback(PyArgument(inner))
    ensures CssArgument(Head(inner) + y) == CssWith(inner, y)
    ensures CssWith(inner, PyArgument(inner).fallback.value) == CssArgument(inner)
    ensures CssArgument(inner).Ref? ==> NamePart(CssArgument(inner).name) == PyArgument(inner).name
  {
    var a, b, c := HeadParts(inner);
    var t := inner[..c + 1] + y;
    assert forall k | 0 <= k <= c :: t[k] == inner[k];
    assert t[c + 1..] == y;
    assert inner[c + 1..] == PyArgument(inner).fallback.value;
    hide PyArgument, CssArgument, Head, PySpace, NameChar, NamePart;
    CssReads(inner, t, a, b, c);
  }

  /** The fallback of a balanced argument can be rewritten on its own. */
  lemma FallbackFacts(inner: string, defined: set<string>)
    requires HasFallback(PyArgument(inner)) && Balanced(inner)
    ensures var fb := PyArgument(inner).fallback.value;
      && |fb| < |inner| && Closed(fb)
      && CssArgument(inner) == CssWith(inner, fb)
      && CssArgument(Strip(inner, defined)) == CssWith(inner, Strip(fb, defined))
  {
    var fb := PyArgument(inner).fallback.value;
    var h := Head(inner);
    assert inner == h + fb && inner[|h|..] == fb;
    BalancedIsClosed(inner, 1);
    ClosedEverywhere(inner);
    AllClosedSuffix(inner, |h|);
    AllClosedIsClosed(fb);
    hide PyArgument, CssArgument, CssWith, Closed, AllClosed, Walk, Strip;
    StripAfterHead(h, fb, defined);
    CssHead(inner, Strip(fb, defined));
  }

  // ----- One step of the rewriting -----

  /** The rewriting of a closed text that begins with a call ... */
  lemma RewrittenCall(t: string, defined: set<string>)
    requires StartsCall(t) && Closed(t)
    ensures var inner, rest := CallInner(t), CallRest(t);
      && t == VAR + inner + ")" + rest && |inner| < |t| && |rest| < |t|
      && Strip(t, defined) == VAR + NewInner(inner, defined) + ")" + Strip(rest, defined)
      && Balanced(inner) && Balanced(NewInner(inner, defined)) && Closed(inner) && Closed(rest)
  {
    var inner := CallInner(t);
    CallShape(t);
    hide Walk, CloseAt, NewInner;
    NewInnerBalanced(inner, defined);
    BalancedIsClosed(inner, 1);
  }

  /** ... and with any other character. */
  lemma RewrittenChar(t: string, defined: set<string>)
    requires t != "" && !StartsCall(t) && Closed(t)
    ensures t == [t[0]] + t[1..] && Strip(t, defined) == [t[0]] + Strip(t[1..], defined)
    ensures !StartsCall([t[0]] + Strip(t[1..], defined)) && Closed(t[1..])
  {
    NoNewCall(t, 0, defined);
    assert Strip(t, defined) + Parens(0) == Strip(t, defined);
  }

  // ----- Brackets of calls -----

  function Then(open: Option<string>, c: char): Option<string> {
    if open.Some? then Step(open.value, c) else None
  }

  function BracketsFrom(t: string, open: Option<string>): Option<string> {
    if open.Some? then Brackets(t, false, open.value) else None
  }

  lemma BracketsOfCall(inner: string, rest: string, open: string)
    requires Balanced(inner)
    ensures Brackets(VAR + inner + ")" + rest, false, open)
         == if WellFormed(inner) then Brackets(rest, false, open) else None
  {
    CallOf(inner, rest);
    hide WellFormed, CallInner, CallRest, CloseAt, Step;
  }

  lemma BracketsOfChar(c: char, s: string, glued: bool, open: string)
    requires glued || !StartsCall([c] + s)
    ensures Brackets([c] + s, glued, open)
         == if Step(open, c).Some? then Brackets(s, Continues(c), Step(open, c).value) else None
  {
    hide WellFormed, CallInner, CallRest, Step;
    assert ([c] + s)[1..] == s;
  }

  /** Up to a closing parenthesis that belongs to none of its calls, a text has its own brackets. */
  lemma {:induction false} BracketsClose(a: string, b: string, glued: bool, open: string)
    requires AllClosed(a)
    ensures Brackets(a + (")" + b), glued, open) == BracketsFrom(b, Then(Brackets(a, glued, open), ')'))
    decreases |a|
  {
    hide WellFormed, CallInner, CallRest, CloseAt, Walk, Step, Continues;
    var tail := ")" + b;
    if a == "" {
      assert a + tail == tail;
      BracketsOfChar(')', b, glued, open);
      assert !Continues(')') by { Unglued(); }
    } else if StartsCall(a) && !glued {
      var inner, rest := CallInner(a), CallRest(a);
      CallShape(a);
      assert rest == a[|inner| + 5..];
      AllClosedSuffix(a, |inner| + 5);
      BracketsClose(rest, b, false, open);
      hide Brackets, AllClosed;
      BracketsOfCall(inner, rest, open);
      BracketsOfCall(inner, rest + tail, open);
      Associates(VAR + inner + ")", rest, tail);
    } else {
      var c, s := a[0], a[1..];
      if Step(open, c).Some? {
        BracketsClose(s, b, Continues(c), Step(open, c).value);
      }
      assert glued || !StartsCall([c] + (s + tail));
      hide Brackets, AllClosed;
      assert a == [c] + s;
      BracketsOfChar(c, s, glued, open);
      Associates([c], s, tail);
      BracketsOfChar(c, s + tail, glued, open);
    }
  }

  lemma Unglued()
    ensures !Continues(')') && !Continues('(') && !Continues(',')
    ensures Continues('v') && Continues('a') && Continues('r')
  {
  }

  lemma BracketsOfGlued(s: string, open: string)
    ensures Brackets(VAR + s, true, open) == Brackets(s, false, ")" + open)
  {
    hide WellFormed, CallInner, CallRest;
    var t := VAR + s;
    assert t[1..][1..][1..][1..] == s;
    assert Brackets(t, true, open) == Brackets(t[1..], true, open);
    assert Brackets(t[1..], true, open) == Brackets(t[1..][1..], true, open);
    assert Brackets(t[1..][1..], true, open) == Brackets(t[1..][1..][1..], true, open);
  }

  lemma BracketsOfGluedCall(inner: string, rest: string, open: string)
    requires Balanced(inner)
    ensures Brackets(VAR + inner + ")" + rest, true, open)
         == BracketsFrom(rest, Then(Brackets(inner, false, ")" + open), ')'))
  {
    hide Brackets, AllClosed, Closed, Step;
    BalancedIsClosed(inner, 1);
    ClosedEverywhere(inner);
    BracketsClose(inner, rest, false, ")" + open);
    BracketsOfGlued(inner + (")" + rest), open);
    Regroups(VAR, inner, ")", rest);
  }

  /** A custom property name holds no brackets. */
  lemma {:induction false} BracketsOfName(s: string, glued: bool, open: string)
    requires forall i | 0 <= i < |s| :: NameChar(s[i])
    ensures Brackets(s, glued, open) == Some(open)
  {
    hide WellFormed, CallInner, CallRest;
    if s != "" {
      assert !StartsCall(s);
      BracketsOfName(s[1..], Continues(s[0]), open);
    }
  }

  // ----- Brackets after the rewriting -----

  /** The brackets of the text after the rewriting, read off the text before it. */
  function BracketsKept(t: string, glued: bool, open: string, defined: set<string>): Option<string>
    decreases |t|, 0
  {
    if t == "" then Some(open)
    else if StartsCall(t) then
      var inner, rest := CallInner(t), CallRest(t);
      var o := if glued then Then(InnerKept(inner, ")" + open, defined), ')')
               else if WellFormedKept(inner, defined) then Some(open) else None;
      if o.Some? then BracketsKept(rest, false, o.value, defined) else None
    else if Step(open, t[0]).Some? then BracketsKept(t[1..], Continues(t[0]), Step(open, t[0]).value, defined)
    else None
  }

  function InnerKept(inner: string, open: string, defined: set<string>): Option<string>
    decreases |inner|, 1
  {
    if Drops(inner, defined) then Some(open)
    else if Descends(inner, defined) then BracketsKept(inner, false, open, defined)
    else Brackets(inner, false, open)
  }

  /** The call is well formed after the rewriting. */
  predicate WellFormedKept(inner: string, defined: set<string>)
    decreases |inner|, 1
  {
    if Drops(inner, defined) then true
    else if Descends(inner, defined) then
      CssArgument(inner).Ref? && BracketsKept(PyArgument(inner).fallback.value, false, "", defined) == Some("")
    else WellFormed(inner)
  }

  lemma NameHasNameChars(inner: string)
    requires PyArgument(inner).Ref?
    ensures var name := PyArgument(inner).name; forall i | 0 <= i < |name| :: NameChar(name[i])
  {
    var a := SpanEnd(inner, 0, PySpace);
    var b := SpanEnd(inner, a + 2, NameChar);
    assert PyArgument(inner).name == inner[a..b];
    assert forall i | a <= i < b :: NameChar(inner[i]);
  }

  lemma NameIsWellFormed(inner: string, open: string)
    requires PyArgument(inner).Ref?
    ensures var name := PyArgument(inner).name;
      WellFormed(name) && CssArgument(name) == Ref(name, None) && Brackets(name, false, open) == Some(open)
  {
    hide PyArgument, CssArgument, Brackets, NameChar;
    NameParses(inner);
    NameHasNameChars(inner);
    BracketsOfName(PyArgument(inner).name, false, open);
  }

  lemma {:induction false} WellFormedOfNewInner(inner: string, defined: set<string>)
    requires Balanced(inner)
    ensures WellFormed(NewInner(inner, defined)) == WellFormedKept(inner, defined)
    decreases |inner|, 2
  {
    hide PyArgument, CssArgument, Brackets, BracketsKept, Strip, Closed, Walk;
    if Drops(inner, defined) {
      NameIsWellFormed(inner, "");
    } else if Descends(inner, defined) {
      FallbackFacts(inner, defined);
      BracketsOfStrip(PyArgument(inner).fallback.value, false, "", defined);
    }
  }

  lemma {:induction false} BracketsOfNewInner(inner: string, open: string, defined: set<string>)
    requires Balanced(inner)
    ensures Brackets(NewInner(inner, defined), false, open) == InnerKept(inner, open, defined)
    decreases |inner|, 2
  {
    hide PyArgument, CssArgument, Brackets, BracketsKept, Strip;
    if Drops(inner, defined) {
      NameIsWellFormed(inner, open);
    } else if Descends(inner, defined) {
      BalancedIsClosed(inner, 1);
      BracketsOfStrip(inner, false, open, defined);
    }
  }

  /** The rewritten text has the brackets that were read off the original. */
  lemma {:induction false} BracketsOfStrip(t: string, glued: bool, open: string, defined: set<string>)
    requires Closed(t)
    ensures Brackets(Strip(t, defined), glued, open) == BracketsKept(t, glued, open, defined)
    decreases |t|, 0
  {
    hide Strip, CallInner, CallRest, Closed, Walk, Brackets, NewInner, Step, Continues, WellFormed, WellFormedKept, InnerKept;
    if t == "" {
      BracketsOfNothing(glued, open, defined);
    } else if StartsCall(t) {
      var inner, rest := CallInner(t), CallRest(t);
      RewrittenCall(t, defined);
      if glued {
        BracketsOfGluedCall(NewInner(inner, defined), Strip(rest, defined), open);
        BracketsOfNewInner(inner, ")" + open, defined);
        var o := Then(InnerKept(inner, ")" + open, defined), ')');
        if o.Some? {
          BracketsOfStrip(rest, false, o.value, defined);
        }
      } else {
        BracketsOfCall(NewInner(inner, defined), Strip(rest, defined), open);
        WellFormedOfNewInner(inner, defined);
        BracketsOfStrip(rest, false, open, defined);
      }
    } else {
      RewrittenChar(t, defined);
      if Step(open, t[0]).Some? {
        BracketsOfStrip(t[1..], Continues(t[0]), Step(open, t[0]).value, defined);
      }
      BracketsOfChar(t[0], Strip(t[1..], defined), glued, open);
    }
  }

  lemma BracketsOfNothing(glued: bool, open: string, defined: set<string>)
    ensures Brackets(Strip("", defined), glued, open) == Some(open)
  {
  }

  // ----- What is well formed stays so -----

  /** How many closing parentheses are expected. */
  function Closers(open: string): nat {
    if open == "" then 0 else (if open[0] == ')' then 1 else 0) + Closers(open[1..])
  }

  lemma Pushes(c: char, y: string, base: string)
    ensures Closers([c] + y) == Closers(y) + if c == ')' then 1 else 0
    ensures [c] + (y + base) == ([c] + y) + base
    ensures y != "" ==> (y + base)[0] == y[0] && (y + base)[1..] == y[1..] + base
    ensures y == "" ==> y + base == base
  {
    assert ([c] + y)[1..] == y;
  }

  /** One character moves the brackets above `base` and the depth alike. */
  lemma StepAbove(c: char, d: nat, y: string, base: string) returns (y': string)
    requires base != "" && base[0] == ')' && d >= 1 && Closers(y) == d - 1
    requires c == ')' ==> d > 1
    requires Step(y + base, c).Some?
    ensures Step(y + base, c) == Some(y' + base)
    ensures Closers(y') == (if c == '(' then d + 1 else if c == ')' then d - 1 else d) - 1
  {
    Pushes(if c == '(' then ')' else if c == '[' then ']' else '}', y, base);
    if c == '(' || c == '[' || c == '{' {
      y' := [if c == '(' then ')' else if c == '[' then ']' else '}'] + y;
    } else if c == ')' || c == ']' || c == '}' {
      y' := y[1..];
    } else {
      y' := y;
    }
  }

  /** While the first of `d` parentheses stays open, so do the brackets from its closing one down. */
  lemma {:induction false} BracketsAbove(a: string, d: nat, glued: bool, y: string, base: string) returns (y': string)
    requires base != "" && base[0] == ')' && d >= 1 && Closers(y) == d - 1
    requires AllClosed(a) && Walk(a, d).Some? && Brackets(a, glued, y + base).Some?
    ensures Brackets(a, glued, y + base) == Some(y' + base) && Closers(y') == Walk(a, d).value - 1
    decreases |a|
  {
    hide WellFormed, CallInner, CallRest, CloseAt, Step, Continues, Closers;
    if a == "" {
      y' := y;
    } else if StartsCall(a) && !glued {
      var inner, rest := CallInner(a), CallRest(a);
      CallShape(a);
      assert rest == a[|inner| + 5..];
      AllClosedSuffix(a, |inner| + 5);
      WalkCall(inner, rest, d);
      y' := BracketsAbove(rest, d, false, y, base);
    } else {
      var c := a[0];
      var z := StepAbove(c, d, y, base);
      y' := BracketsAbove(a[1..], if c == '(' then d + 1 else if c == ')' then d - 1 else d, Continues(c), z, base);
    }
  }

  /** A function whose argument is bracketed properly leaves the brackets as they were. */
  lemma GluedLeavesBrackets(inner: string, open: string)
    requires Balanced(inner)
    ensures var o := Then(Brackets(inner, false, ")" + open), ')'); o.Some? ==> o.value == open
  {
    var base := ")" + open;
    if Brackets(inner, false, base).Some? {
      BalancedIsClosed(inner, 1);
      ClosedEverywhere(inner);
      hide AllClosed, Closed, Brackets;
      assert "" + base == base;
      var y := BracketsAbove(inner, 1, false, "", base);
      if y == "" {
        assert y + base == base && base[1..] == open;
      } else {
        assert (y + base)[0] == y[0] != ')';
      }
    }
  }

  lemma {:induction false} WellFormedStays(inner: string, defined: set<string>)
    requires Balanced(inner) && WellFormed(inner)
    ensures WellFormedKept(inner, defined)
    decreases |inner|, 2
  {
    hide PyArgument, CssArgument, Brackets, BracketsKept, Strip, Closed, Walk;
    if Descends(inner, defined) {
      FallbackFacts(inner, defined);
      BracketsStay(PyArgument(inner).fallback.value, false, "", defined);
    }
  }

  lemma {:induction false} InnerStays(inner: string, open: string, defined: set<string>)
    requires Balanced(inner) && Then(Brackets(inner, false, ")" + open), ')').Some?
    ensures Then(InnerKept(inner, ")" + open, defined), ')') == Some(open)
    decreases |inner|, 2
  {
    GluedLeavesBrackets(inner, open);
    hide PyArgument, CssArgument, Brackets, BracketsKept, Strip;
    if Drops(inner, defined) {
      assert (")" + open)[1..] == open;
    } else if Descends(inner, defined) {
      BalancedIsClosed(inner, 1);
      BracketsStay(inner, false, ")" + open, defined);
    }
  }

  /** The rewriting does not make a well-formed text malformed. */
  lemma {:induction false} BracketsStay(t: string, glued: bool, open: string, defined: set<string>)
    requires Closed(t) && Brackets(t, glued, open).Some?
    ensures BracketsKept(t, glued, open, defined) == Brackets(t, glued, open)
    decreases |t|, 0
  {
    if t != "" {
      if StartsCall(t) {
        var inner, rest := CallInner(t), CallRest(t);
        CallShape(t);
        assert |inner| < |t| && |rest| < |t|;
        hide CallInner, CallRest, Walk, Brackets, Step, WellFormed, WellFormedKept, InnerKept;
        if glued {
          BracketsOfGluedCall(inner, rest, open);
          GluedLeavesBrackets(inner, open);
          InnerStays(inner, open, defined);
        } else {
          BracketsOfCall(inner, rest, open);
          WellFormedStays(inner, defined);
        }
        BracketsStay(rest, false, open, defined);
      } else {
        BracketsStay(t[1..], Continues(t[0]), Step(open, t[0]).value, defined);
      }
    }
  }
}
