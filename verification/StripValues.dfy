/** The fallback codemod and the value of a text (scripts/codemods/strip-token-fallbacks.py): for every
    closed text, exactly when its value survives in every environment that sets the defined tokens. */
module StripValues {
  import opened CssText
  import opened StripFallbacks
  import opened StripSyntax
  import opened StripTheorems
  import opened Wrappers

  // ----- The condition -----

  /** The rewriting keeps the value of `t`. `glued` tells whether a name runs up to `t`. */
  predicate Keeps(t: string, glued: bool, defined: set<string>)
    decreases |t|, 0
  {
    if t == "" then true
    else if StartsCall(t) then
      && (if glued then KeepsGlued(CallInner(t), defined) else KeepsCall(CallInner(t), defined))
      && Keeps(CallRest(t), false, defined)
    else Keeps(t[1..], Continues(t[0]), defined)
  }

  /** The `var(` of `myvar(` loses no fallback. */
  predicate KeepsGlued(inner: string, defined: set<string>)
    decreases |inner|, 1
  {
    !Drops(inner, defined) && (Descends(inner, defined) ==> Keeps(inner, false, defined))
  }

  /** A call that loses its fallback is well formed, and CSS reads the same name in it. A call that is
      searched, if well formed, keeps the value of its fallback, unless CSS reads a defined name, and
      that fallback is never used; if malformed, it is so still. */
  predicate KeepsCall(inner: string, defined: set<string>)
    decreases |inner|, 1
  {
    if Drops(inner, defined) then
      WellFormed(inner) && CssArgument(inner).name == PyArgument(inner).name
    else if Descends(inner, defined) then
      if WellFormed(inner) then
        CssArgument(inner).name in defined || Keeps(PyArgument(inner).fallback.value, false, defined)
      else !WellFormedKept(inner, defined)
    else true
  }

  // ----- Values of texts and calls -----

  /** A text without parentheses stands for itself. */
  lemma {:induction false} ValueOfPlain(s: string, glued: bool, env: Env)
    requires forall i | 0 <= i < |s| :: s[i] != '('
    ensures Value(s, glued, env) == Chars(s)
  {
    if s != "" {
      ValueOfPlain(s[1..], Continues(s[0]), env);
      assert Chars(s) == [Ch(s[0])] + Chars(s[1..]);
    }
  }

  lemma ValueOfCall(inner: string, rest: string, env: Env)
    requires Balanced(inner)
    ensures Value(VAR + inner + ")" + rest, false, env) == CallValue(inner, env) + Value(rest, false, env)
  {
    CallOf(inner, rest);
    hide CallValue, CallInner, CallRest, CloseAt;
  }

  lemma ValueOfChar(c: char, s: string, glued: bool, env: Env)
    requires glued || !StartsCall([c] + s)
    ensures Value([c] + s, glued, env) == [Ch(c)] + Value(s, Continues(c), env)
  {
    hide CallValue, CallInner, CallRest;
    assert ([c] + s)[1..] == s;
  }

  /** No call starts in a head that ends in a comma. */
  lemma NoCallInHead(head: string, y: string)
    requires head != "" && head[|head| - 1] == ',' && forall i | 0 <= i < |head| :: head[i] != '('
    ensures !StartsCall(head + y)
  {
    var t := head + y;
    assert t[|head| - 1] == ',' && (|head| >= 4 ==> t[3] == head[3]);
  }

  lemma {:induction false} ValueAfterHead(head: string, y: string, glued: bool, env: Env)
    requires head != "" && head[|head| - 1] == ',' && forall i | 0 <= i < |head| :: head[i] != '('
    ensures Value(head + y, glued, env) == Chars(head) + Value(y, false, env)
  {
    hide Value, StartsCall;
    NoCallInHead(head, y);
    var c, s := head[0], head[1..];
    Associates([c], s, y);
    assert head == [c] + s;
    ValueOfChar(c, s + y, glued, env);
    if s != "" {
      ValueAfterHead(s, y, Continues(c), env);
      assert Chars(head) == [Ch(c)] + Chars(s);
    } else {
      assert s + y == y;
      assert Chars(head) == [Ch(',')];
    }
  }

  /** Up to a closing parenthesis that belongs to none of its calls, a text has its own value. */
  lemma {:induction false} ValueClose(a: string, b: string, glued: bool, env: Env)
    requires AllClosed(a)
    ensures Value(a + (")" + b), glued, env) == Value(a, glued, env) + ([Ch(')')] + Value(b, false, env))
    decreases |a|
  {
    hide CallValue, CallInner, CallRest, CloseAt, Walk;
    var tail := ")" + b;
    if a == "" {
      assert a + tail == tail;
      ValueOfChar(')', b, glued, env);
    } else if StartsCall(a) && !glued {
      var inner, rest := CallInner(a), CallRest(a);
      CallShape(a);
      assert rest == a[|inner| + 5..];
      AllClosedSuffix(a, |inner| + 5);
      ValueClose(rest, b, false, env);
      hide Value, AllClosed, Continues;
      ValueOfCall(inner, rest, env);
      ValueOfCall(inner, rest + tail, env);
      Associates(VAR + inner + ")", rest, tail);
      Associates(CallValue(inner, env), Value(rest, false, env), [Ch(')')] + Value(b, false, env));
    } else {
      var c, s := a[0], a[1..];
      ValueClose(s, b, Continues(c), env);
      assert glued || !StartsCall([c] + (s + tail));
      hide Value, AllClosed, Continues;
      assert a == [c] + s;
      ValueOfChar(c, s, glued, env);
      Associates([c], s, tail);
      ValueOfChar(c, s + tail, glued, env);
      Associates([Ch(c)], Value(s, Continues(c), env), [Ch(')')] + Value(b, false, env));
    }
  }

  /** In `myvar(`, the parenthesis opens an ordinary function. */
  lemma ValueOfGlued(s: string, env: Env)
    ensures Value(VAR + s, true, env) == Chars(VAR) + Value(s, false, env)
  {
    hide CallValue, CallInner, CallRest;
    var t := VAR + s;
    assert t[1..][1..][1..][1..] == s;
    assert Value(t, true, env) == [Ch('v')] + Value(t[1..], true, env);
    assert Value(t[1..], true, env) == [Ch('a')] + Value(t[1..][1..], true, env);
    assert Value(t[1..][1..], true, env) == [Ch('r')] + Value(t[1..][1..][1..], true, env);
    assert Value(t[1..][1..][1..], true, env) == [Ch('(')] + Value(s, false, env);
    assert Chars(VAR) == [Ch('v'), Ch('a'), Ch('r'), Ch('(')];
  }

  lemma ValueOfGluedCall(inner: string, rest: string, env: Env)
    requires Balanced(inner)
    ensures Value(VAR + inner + ")" + rest, true, env)
         == Chars(VAR) + (Value(inner, false, env) + ([Ch(')')] + Value(rest, false, env)))
  {
    hide Value, AllClosed, Closed;
    BalancedIsClosed(inner, 1);
    ClosedEverywhere(inner);
    ValueClose(inner, rest, false, env);
    ValueOfGlued(inner + (")" + rest), env);
    Regroups(VAR, inner, ")", rest);
  }

  // ----- The rewriting keeps values -----

  lemma {:induction false} CallPreserved(inner: string, defined: set<string>, env: Env)
    requires Balanced(inner) && KeepsCall(inner, defined) && defined <= env.Keys
    ensures CallValue(NewInner(inner, defined), env) == CallValue(inner, env)
    decreases |inner|, 1
  {
    hide PyArgument, CssArgument, WellFormed, WellFormedKept, Closed, Walk, Keeps, Strip, Value;
    WellFormedOfNewInner(inner, defined);
    if Drops(inner, defined) {
      NameIsWellFormed(inner, "");
    } else if Descends(inner, defined) {
      FallbackFacts(inner, defined);
      if WellFormed(inner) {
        WellFormedStays(inner, defined);
        WellFormedIsRef(inner);
        if CssArgument(inner).name !in defined {
          ValuePreserved(PyArgument(inner).fallback.value, false, defined, env);
        }
      }
    }
  }

  lemma WellFormedIsRef(inner: string)
    requires WellFormed(inner)
    ensures CssArgument(inner).Ref?
    ensures var fb := CssArgument(inner).fallback; fb.Some? ==> Brackets(fb.value, false, "") == Some("")
  {
  }

  /** The value is kept in every environment that sets the defined tokens. */
  lemma {:induction false} ValuePreserved(t: string, glued: bool, defined: set<string>, env: Env)
    requires Closed(t) && Keeps(t, glued, defined) && defined <= env.Keys
    ensures Value(Strip(t, defined), glued, env) == Value(t, glued, env)
    decreases |t|, 0
  {
    hide Strip, CallInner, CallRest, Closed, Walk, Value, CallValue, NewInner, PyArgument, KeepsCall, Continues;
    if t == "" {
      ValueOfNothing(glued, defined, env);
    } else if StartsCall(t) {
      var inner, rest := CallInner(t), CallRest(t);
      RewrittenCall(t, defined);
      ValuePreserved(rest, false, defined, env);
      if glued {
        GluedPreserved(inner, defined, env);
        ValueOfGluedCall(inner, rest, env);
        ValueOfGluedCall(NewInner(inner, defined), Strip(rest, defined), env);
      } else {
        CallPreserved(inner, defined, env);
        ValueOfCall(inner, rest, env);
        ValueOfCall(NewInner(inner, defined), Strip(rest, defined), env);
      }
    } else {
      RewrittenChar(t, defined);
      ValuePreserved(t[1..], Continues(t[0]), defined, env);
      ValueOfChar(t[0], t[1..], glued, env);
      ValueOfChar(t[0], Strip(t[1..], defined), glued, env);
    }
  }

  lemma ValueOfNothing(glued: bool, defined: set<string>, env: Env)
    ensures Value(Strip("", defined), glued, env) == Value("", glued, env) == []
  {
  }

  lemma {:induction false} GluedPreserved(inner: string, defined: set<string>, env: Env)
    requires Balanced(inner) && Closed(inner) && KeepsGlued(inner, defined) && defined <= env.Keys
    ensures Value(NewInner(inner, defined), false, env) == Value(inner, false, env)
    decreases |inner|, 1
  {
    hide Strip, Closed, Walk, Value, Keeps, PyArgument;
    if Descends(inner, defined) {
      ValuePreserved(inner, false, defined, env);
    }
  }

  // ----- Any other rewriting shows -----

  ghost predicate Differ(x: seq<Piece>, y: seq<Piece>) {
    exists i :: DifferAt(x, y, i)
  }

  predicate DifferAt(x: seq<Piece>, y: seq<Piece>, i: nat) {
    i < |x| && i < |y| && x[i] != y[i]
  }

  lemma DifferWithin(p: seq<Piece>, x: seq<Piece>, y: seq<Piece>, s: seq<Piece>, s': seq<Piece>)
    requires Differ(x, y)
    ensures Differ(p + (x + s), p + (y + s'))
  {
    var i :| DifferAt(x, y, i);
    assert DifferAt(p + (x + s), p + (y + s'), |p| + i);
  }

  lemma DifferBehind(p: seq<Piece>, x: seq<Piece>, y: seq<Piece>)
    requires Differ(x, y)
    ensures Differ(p + x, p + y)
  {
    var i :| DifferAt(x, y, i);
    assert DifferAt(p + x, p + y, |p| + i);
  }

  /** Where the comma or white space was, there is a parenthesis now. */
  lemma DroppedFallbackShows(inner: string, env: Env, s: seq<Piece>, s': seq<Piece>)
    requires HasFallback(PyArgument(inner))
    ensures var name := PyArgument(inner).name;
      Differ(Value(name, false, env) + ([Ch(')')] + s), Value(inner, false, env) + s')
  {
    var name, h, fb := PyArgument(inner).name, Head(inner), PyArgument(inner).fallback.value;
    assert |name| < |h|;
    NameHasNoParens(inner);
    ValueOfPlain(name, false, env);
    ValueAfterHead(h, fb, false, env);
    hide Value, PyArgument, Head;
    var x, y := Chars(name) + ([Ch(')')] + s), Chars(h) + Value(fb, false, env) + s';
    assert x[|name|] == Ch(')') && y[|name|] == Ch(h[|name|]);
    assert DifferAt(x, y, |name|);
  }

  /** An environment that sets the defined tokens and `name`, and tells `name` from all others. */
  function Telling(defined: set<string>, name: string): (env: Env)
    ensures env.Keys == defined + {name}
    ensures forall n <- env.Keys :: env[n] == if n == name then "b" else "a"
  {
    map n | n in defined + {name} :: if n == name then "b" else "a"
  }

  lemma DifferFirst(x: seq<Piece>, y: seq<Piece>)
    requires x != [] && y != [] && x[0] != y[0]
    ensures Differ(x, y)
  {
    assert DifferAt(x, y, 0);
  }

  /** A token that the environment tells apart has a value that no other piece can be mistaken for. */
  lemma TokenDiverges(n: string, name: string, defined: set<string>)
    requires n in defined + {name}
    ensures Differ(Chars(Telling(defined, name)[n]), [Malformed])
    ensures n != name ==> Differ(Chars(Telling(defined, name)[n]), Chars(Telling(defined, name)[name]))
  {
    var env := Telling(defined, name);
    DifferFirst(Chars(env[n]), [Malformed]);
    if n != name {
      DifferFirst(Chars(env[n]), Chars(env[name]));
    }
  }

  lemma ValueOfReference(inner: string, env: Env)
    requires CssArgument(inner).Ref? && WellFormed(inner)
    ensures CssArgument(inner).name in env ==> CallValue(inner, env) == Chars(env[CssArgument(inner).name])
    ensures var a := CssArgument(inner);
      a.name !in env && a.fallback.Some? ==> CallValue(inner, env) == Value(a.fallback.value, false, env)
  {
  }

  /** A call that is not kept shows in an environment that tells some name from all others: inside a
      well-formed call, a name that the code takes for a defined token. */
  lemma {:induction false} CallDiverges(inner: string, defined: set<string>) returns (name: string)
    requires Balanced(inner) && !KeepsCall(inner, defined)
    ensures WellFormed(inner) ==> NamePart(name) in defined
    ensures var env := Telling(defined, name); Differ(CallValue(NewInner(inner, defined), env), CallValue(inner, env))
    decreases |inner|, 1
  {
    hide PyArgument, CssArgument, WellFormed, WellFormedKept, Closed, Walk, Keeps, Strip, Value, NamePart, Telling, CallValue;
    WellFormedOfNewInner(inner, defined);
    var kept := NewInner(inner, defined);
    if Drops(inner, defined) {
      name := DropDiverges(inner, defined);
    } else {
      FallbackFacts(inner, defined);
      var fb := PyArgument(inner).fallback.value;
      if WellFormed(inner) {
        WellFormedStays(inner, defined);
        WellFormedIsRef(inner);
        name := Diverges(fb, false, defined, "");
        CssHead(inner, fb);
        assert CssArgument(inner).name != name;
        ValueOfReference(inner, Telling(defined, name));
        ValueOfReference(kept, Telling(defined, name));
      } else {
        WellFormedIsRef(kept);
        name := CssArgument(inner).name;
        ValueOfReference(kept, Telling(defined, name));
        TokenDiverges(name, name, defined);
        ValueOfMalformed(inner, Telling(defined, name));
      }
    }
  }

  lemma ValueOfMalformed(inner: string, env: Env)
    ensures !WellFormed(inner) ==> CallValue(inner, env) == [Malformed]
  {
  }

  lemma {:induction false} DropDiverges(inner: string, defined: set<string>) returns (name: string)
    requires Drops(inner, defined) && !KeepsCall(inner, defined)
    ensures WellFormed(inner) ==> NamePart(name) in defined
    ensures var env := Telling(defined, name); Differ(CallValue(PyArgument(inner).name, env), CallValue(inner, env))
  {
    hide PyArgument, CssArgument, WellFormed, NamePart, Telling, CallValue;
    var n := PyArgument(inner).name;
    NameIsWellFormed(inner, "");
    ValueOfMalformed(inner, Telling(defined, n));
    if WellFormed(inner) {
      WellFormedIsRef(inner);
      CssHead(inner, PyArgument(inner).fallback.value);
      name := CssArgument(inner).name;
      ValueOfReference(inner, Telling(defined, name));
    } else {
      name := n;
    }
    ValueOfReference(n, Telling(defined, name));
    TokenDiverges(n, name, defined);
  }

  lemma {:induction false} GluedDiverges(t: string, defined: set<string>, open: string) returns (name: string)
    requires StartsCall(t) && Closed(t) && !Keeps(t, true, defined)
    ensures Brackets(t, true, open).Some? ==> NamePart(name) in defined
    ensures var env := Telling(defined, name); Differ(Value(Strip(t, defined), true, env), Value(t, true, env))
    decreases |t|, 0
  {
    hide Strip, CallInner, CallRest, Closed, Walk, Value, CallValue, PyArgument, CssArgument, Brackets, Telling, NamePart;
    var inner, rest := CallInner(t), CallRest(t);
    var kept := NewInner(inner, defined);
    RewrittenCall(t, defined);
    BracketsOfGluedCall(inner, rest, open);
    if Drops(inner, defined) {
      name := PyArgument(inner).name;
      DroppedNamePart(inner);
    } else if !KeepsGlued(inner, defined) {
      name := Diverges(inner, false, defined, ")" + open);
    } else {
      GluedLeavesBrackets(inner, open);
      name := Diverges(rest, false, defined, open);
    }
    var env := Telling(defined, name);
    ValueOfGluedCall(inner, rest, env);
    ValueOfGluedCall(kept, Strip(rest, defined), env);
    var v, v' := Value(kept, false, env), Value(inner, false, env);
    var s, s' := [Ch(')')] + Value(Strip(rest, defined), false, env), [Ch(')')] + Value(rest, false, env);
    if Drops(inner, defined) {
      DroppedFallbackShows(inner, env, Value(Strip(rest, defined), false, env), s');
      DifferBehind(Chars(VAR), v + s, v' + s');
    } else if !KeepsGlued(inner, defined) {
      DifferWithin(Chars(VAR), v, v', s, s');
    } else {
      GluedPreserved(inner, defined, env);
      DifferBehind([Ch(')')], Value(Strip(rest, defined), false, env), Value(rest, false, env));
      DifferBehind(v, s, s');
      DifferBehind(Chars(VAR), v + s, v' + s');
    }
  }

  lemma DroppedNamePart(inner: string)
    requires HasFallback(PyArgument(inner))
    ensures NamePart(PyArgument(inner).name) == PyArgument(inner).name
  {
    var a, b, c := HeadParts(inner);
    NameWithin(inner, a, b, b);
  }

  lemma {:induction false} PlainDiverges(t: string, defined: set<string>, open: string) returns (name: string)
    requires StartsCall(t) && Closed(t) && !Keeps(t, false, defined)
    ensures Brackets(t, false, open).Some? ==> NamePart(name) in defined
    ensures var env := Telling(defined, name); Differ(Value(Strip(t, defined), false, env), Value(t, false, env))
    decreases |t|, 0
  {
    hide Strip, CallInner, CallRest, Closed, Walk, Value, CallValue, PyArgument, CssArgument, Brackets, Telling, NamePart;
    var inner, rest := CallInner(t), CallRest(t);
    var kept := NewInner(inner, defined);
    RewrittenCall(t, defined);
    BracketsOfCall(inner, rest, open);
    if !KeepsCall(inner, defined) {
      name := CallDiverges(inner, defined);
    } else {
      name := Diverges(rest, false, defined, open);
    }
    var env := Telling(defined, name);
    ValueOfCall(inner, rest, env);
    ValueOfCall(kept, Strip(rest, defined), env);
    var v, v' := CallValue(kept, env), CallValue(inner, env);
    var s, s' := Value(Strip(rest, defined), false, env), Value(rest, false, env);
    if !KeepsCall(inner, defined) {
      DifferWithin([], v, v', s, s');
      assert [] + (v + s) == v + s && [] + (v' + s') == v' + s';
    } else {
      CallPreserved(inner, defined, env);
      DifferBehind(v, s, s');
    }
  }

  lemma {:induction false} Diverges(t: string, glued: bool, defined: set<string>, open: string) returns (name: string)
    requires Closed(t) && !Keeps(t, glued, defined)
    ensures Brackets(t, glued, open).Some? ==> NamePart(name) in defined
    ensures var env := Telling(defined, name); Differ(Value(Strip(t, defined), glued, env), Value(t, glued, env))
    decreases |t|, 1
  {
    hide Strip, Value, Closed, Brackets, Step, Continues, Telling, NamePart, KeepsCall, KeepsGlued, CallInner, CallRest;
    if StartsCall(t) {
      if glued {
        name := GluedDiverges(t, defined, open);
      } else {
        name := PlainDiverges(t, defined, open);
      }
    } else {
      RewrittenChar(t, defined);
      var o := Step(open, t[0]);
      name := Diverges(t[1..], Continues(t[0]), defined, if o.Some? then o.value else open);
      var env := Telling(defined, name);
      BracketsOfChar(t[0], t[1..], glued, open);
      ValueOfChar(t[0], t[1..], glued, env);
      ValueOfChar(t[0], Strip(t[1..], defined), glued, env);
      DifferBehind([Ch(t[0])], Value(Strip(t[1..], defined), Continues(t[0]), env), Value(t[1..], Continues(t[0]), env));
    }
  }

  // ----- The exact condition -----

  ghost predicate KeepsEveryValue(t: string, defined: set<string>) {
    forall env: Env | defined <= env.Keys :: Value(Strip(t, defined), false, env) == Value(t, false, env)
  }

  /** The codemod keeps the value of a closed text in every environment that sets the defined tokens if
      and only if every call that loses its fallback is a well-formed var() reference to the same name,
      and no malformed call around one becomes well formed. Calls inside a fallback that is never used,
      because CSS reads a defined name before it, are exempt. */
  lemma ValueKeptIff(t: string, defined: set<string>)
    requires Closed(t)
    ensures KeepsEveryValue(t, defined) <==> Keeps(t, false, defined)
  {
    hide Value, Strip, Keeps, Closed;
    if Keeps(t, false, defined) {
      forall env: Env | defined <= env.Keys ensures Value(Strip(t, defined), false, env) == Value(t, false, env) {
        ValuePreserved(t, false, defined, env);
      }
    } else {
      var name := Diverges(t, false, defined, "");
      var env := Telling(defined, name);
      assert defined <= env.Keys;
      assert Value(Strip(t, defined), false, env) != Value(t, false, env);
    }
  }

  // ----- Where it fails -----

  lemma SingleCall(inner: string, defined: set<string>)
    requires Balanced(inner)
    ensures var t := VAR + inner + ")" + "";
      && Closed(t)
      && Keeps(t, false, defined) == KeepsCall(inner, defined) && Keeps(t, true, defined) == KeepsGlued(inner, defined)
  {
    hide KeepsCall, KeepsGlued, CallInner, CallRest, CloseAt, Walk;
    CallOf(inner, "");
  }

  /** A function whose name ends in `var`, a hash or an at-keyword loses what follows the comma. */
  lemma GluedCallIsBroken(c: char, inner: string, defined: set<string>)
    requires Continues(c) && Balanced(inner) && Drops(inner, defined)
    ensures !KeepsEveryValue([c] + (VAR + inner + ")" + ""), defined)
  {
    var call := VAR + inner + ")" + "";
    var t := [c] + call;
    SingleCall(inner, defined);
    CallOf(inner, "");
    hide Drops, PyArgument, CallInner, CallRest, Walk, KeepsCall;
    assert t[1..] == call;
    assert !StartsCall(t);
    ValueKeptIff(t, defined);
  }

  /** A malformed call becomes a valid reference. */
  lemma MalformedCallIsBroken(inner: string, defined: set<string>)
    requires Balanced(inner) && Drops(inner, defined) && !WellFormed(inner)
    ensures !KeepsEveryValue(VAR + inner + ")" + "", defined)
  {
    hide Drops, WellFormed, Walk, Closed, Keeps;
    SingleCall(inner, defined);
    ValueKeptIff(VAR + inner + ")" + "", defined);
  }

  /** A reference to one property becomes a reference to another. */
  lemma OtherNameIsBroken(inner: string, defined: set<string>)
    requires Balanced(inner) && Drops(inner, defined)
    requires CssArgument(inner).Ref? && CssArgument(inner).name != PyArgument(inner).name
    ensures !KeepsEveryValue(VAR + inner + ")" + "", defined)
  {
    hide Drops, WellFormed, Walk, Closed, Keeps, CssArgument, PyArgument;
    SingleCall(inner, defined);
    ValueKeptIff(VAR + inner + ")" + "", defined);
  }

  lemma ExoticSpaceParses(inner: string)
    requires inner != "" && PySpace(inner[0]) && !CssSpace(inner[0])
    ensures !WellFormed(inner)
  {
    SpanIs(inner, 0, CssSpace, 0);
    hide PySpace, CssSpace;
  }

  /** In particular one that begins with white space only Python knows. */
  lemma ExoticSpaceIsBroken(inner: string, defined: set<string>)
    requires Balanced(inner) && Drops(inner, defined)
    requires inner != "" && PySpace(inner[0]) && !CssSpace(inner[0])
    ensures !KeepsEveryValue(VAR + inner + ")" + "", defined)
  {
    hide Drops, WellFormed, Walk, KeepsEveryValue, PySpace, CssSpace;
    ExoticSpaceParses(inner);
    MalformedCallIsBroken(inner, defined);
  }

  lemma ReadsToken(fb: string)
    ensures var inner := "--a," + fb;
      PyArgument(inner) == Ref("--a", Some(fb)) && CssArgument(inner) == Ref("--a", Some(fb))
  {
    var inner := "--a," + fb;
    assert forall k | 2 <= k < 3 :: NameChar(inner[k]) && IdentChar(inner[k]);
    assert inner[0..3] == "--a" && inner[3 + 1..] == fb;
    hide ParseArgument;
    ParsesAs(inner, PySpace, NameChar, 0, 3, 3);
    ParsesAs(inner, CssSpace, IdentChar, 0, 3, 3);
  }

  lemma OneIsNoReference()
    ensures !WellFormed("1") && Balanced("1")
  {
    SpanIs("1", 0, CssSpace, 0);
    NoParens("1", 1);
  }

  lemma NestedIsMalformed()
    ensures !WellFormed("--a," + (VAR + "1" + ")" + ""))
  {
    OneIsNoReference();
    ReadsToken(VAR + "1" + ")" + "");
    hide CssArgument, Walk, Brackets;
    BracketsOfCall("1", "", "");
  }

  lemma NestedIsBalanced()
    ensures Balanced("--a," + (VAR + "1" + ")" + ""))
  {
    OneIsNoReference();
    NoParens("--a,", 1);
    assert Walk("", 1) == Some(1);
    hide Walk;
    WalkAppend("--a,", VAR + "1" + ")" + "", 1);
    WalkCall("1", "", 1);
  }

  /** `var(--a,var(1))`: the malformed call in the fallback makes the declaration invalid, until it is
      dropped. */
  lemma NestedMalformedCall()
    ensures !KeepsEveryValue("var(--a,var(1))", {"--a"})
  {
    hide Walk, Brackets, WellFormed, PyArgument, CssArgument, KeepsEveryValue;
    var fb := VAR + "1" + ")" + "";
    ReadsToken(fb);
    NestedIsMalformed();
    NestedIsBalanced();
    assert VAR + ("--a," + fb) + ")" + "" == "var(--a,var(1))";
    MalformedCallIsBroken("--a," + fb, {"--a"});
  }

  lemma NoExclamationMark()
    ensures Brackets(" !", false, "") == None
  {
    assert Step("", ' ') == Some("") && Step("", '!') == None;
    assert [' '] + "!" == " !" && ['!'] + "" == "!";
    hide Brackets, Step;
    BracketsOfChar(' ', "!", false, "");
    BracketsOfChar('!', "", false, "");
  }

  lemma ExclamationIsMalformed()
    ensures !WellFormed("--a," + " !")
  {
    hide CssArgument, Brackets;
    ReadsToken(" !");
    NoExclamationMark();
  }

  /** `var(--a, !)`: no fallback may hold a `!` outside brackets. */
  lemma ExclamationMark()
    ensures !KeepsEveryValue("var(--a, !)", {"--a"})
  {
    hide Walk, Brackets, WellFormed, PyArgument, CssArgument, KeepsEveryValue;
    var inner := "--a," + " !";
    ReadsToken(" !");
    ExclamationIsMalformed();
    NoParens(inner, 1);
    assert VAR + inner + ")" + "" == "var(--a, !)";
    MalformedCallIsBroken(inner, {"--a"});
  }

  /** `#var(--a,b)`: a hash and a block in parentheses. */
  lemma HashIsNoReference()
    ensures !KeepsEveryValue("#var(--a,b)", {"--a"})
  {
    hide Walk, PyArgument, CssArgument, KeepsEveryValue;
    var inner := "--a," + "b";
    ReadsToken("b");
    NoParens(inner, 1);
    GluedCallIsBroken('#', inner, {"--a"});
    assert ['#'] + (VAR + inner + ")" + "") == "#var(--a,b)";
  }

  lemma PyReadsNoBreakSpace(inner: string)
    requires inner == "--a\U{00A0},b"
    ensures PyArgument(inner) == Ref("--a", Some("b"))
  {
    assert inner[0..3] == "--a" && inner[4 + 1..] == "b";
    assert forall k | 2 <= k < 3 :: NameChar(inner[k]);
    assert forall k | 3 <= k < 4 :: PySpace(inner[k]);
    hide ParseArgument;
    ParsesAs(inner, PySpace, NameChar, 0, 3, 4);
  }

  lemma CssReadsNoBreakSpace(inner: string)
    requires inner == "--a\U{00A0},b"
    ensures CssArgument(inner) == Ref("--a\U{00A0}", Some("b"))
  {
    assert inner[0..4] == "--a\U{00A0}" && inner[4 + 1..] == "b";
    assert forall k | 2 <= k < 4 :: IdentChar(inner[k]);
    hide ParseArgument;
    ParsesAs(inner, CssSpace, IdentChar, 0, 4, 4);
  }

  /** `var(--a<U+00A0>,b)`: the no-break space is white space for the code and part of the name for CSS. */
  lemma NoBreakSpaceIsPartOfTheName()
    ensures !KeepsEveryValue("var(--a\U{00A0},b)", {"--a"})
  {
    hide Walk, PyArgument, CssArgument, WellFormed, KeepsEveryValue;
    var inner := "--a\U{00A0},b";
    NoParens(inner, 1);
    PyReadsNoBreakSpace(inner);
    CssReadsNoBreakSpace(inner);
    OtherNameIsBroken(inner, {"--a"});
    assert VAR + inner + ")" + "" == "var(--a\U{00A0},b)";
  }
}
