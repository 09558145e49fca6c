/** What the fallback codemod keeps (scripts/codemods/strip-token-fallbacks.py): it is the identity when it
    removes nothing, its parentheses keep their depth, and a second pass removes nothing. */
module StripTheorems {
  import opened CssText
  import opened StripFallbacks
  import opened Wrappers

  // ----- Closed text -----

  /** Every `var(` met by a left-to-right scan has its closing parenthesis. */
  predicate Closed(t: string)
    decreases |t|
  {
    if t == "" then true
    else if StartsCall(t) then CloseAt(t[4..], 1) < |t| - 4 && Closed(CallRest(t))
    else Closed(t[1..])
  }

  lemma {:induction false} CloseWithin(s: string, d: nat, k: nat)
    requires d >= 1 && k >= 1 && Walk(s, d + k) == Some(1)
    ensures CloseAt(s, d) < |s| && Walk(s[CloseAt(s, d) + 1..], k) == Some(1)
  {
    var t := s[1..];
    if s[0] == ')' && d == 1 {
    } else {
      var d' := if s[0] == '(' then d + 1 else if s[0] == ')' then d - 1 else d;
      CloseWithin(t, d', k);
      var c := CloseAt(t, d');
      assert CloseAt(s, d) == c + 1;
      assert s[c + 1 + 1..] == t[c + 1..];
    }
  }

  lemma WalkIntoCall(t: string, k: nat)
    requires StartsCall(t) && k >= 1
    ensures Walk(t, k) == Walk(t[4..], k + 1)
  {
    assert t[1..][1..][1..][1..] == t[4..];
    assert Walk(t, k) == Walk(t[1..], k) == Walk(t[1..][1..], k) == Walk(t[1..][1..][1..], k);
  }

  /** In balanced text nothing is left open, at any nesting. */
  lemma {:induction false} BalancedIsClosed(t: string, k: nat)
    requires k >= 1 && Walk(t, k) == Some(1)
    ensures Closed(t)
    decreases |t|
  {
    if t != "" {
      if StartsCall(t) {
        WalkIntoCall(t, k);
        CloseWithin(t[4..], 1, k);
        BalancedIsClosed(CallRest(t), k);
      } else if t[0] == '(' {
        BalancedIsClosed(t[1..], k + 1);
      } else if t[0] == ')' {
        BalancedIsClosed(t[1..], k - 1);
      } else {
        BalancedIsClosed(t[1..], k);
      }
    }
  }

  // ----- The rewriting and parentheses -----

  lemma NameHasNoParens(inner: string)
    requires PyArgument(inner).Ref?
    ensures forall i | 0 <= i < |PyArgument(inner).name| :: PyArgument(inner).name[i] != '(' && PyArgument(inner).name[i] != ')'
    ensures Balanced(PyArgument(inner).name)
  {
    NoParens(PyArgument(inner).name, 1);
  }

  /** The text after the rewriting has the same depth as before. */
  lemma {:induction false} StripKeepsDepth(t: string, d: nat, defined: set<string>)
    requires d >= 1 && Closed(t)
    ensures Walk(Strip(t, defined), d) == Walk(t, d)
    decreases |t|, 0
  {
    hide Drops, Descends, PyArgument, ParseArgument;
    if t != "" {
      if StartsCall(t) {
        var inner, rest := CallInner(t), CallRest(t);
        CallShape(t);
        StripKeepsDepth(rest, d, defined);
        NewInnerBalanced(inner, defined);
        WalkCall(inner, rest, d);
        WalkCall(NewInner(inner, defined), Strip(rest, defined), d);
      } else {
        var s := Strip(t, defined);
        assert s[1..] == Strip(t[1..], defined);
        if t[0] == '(' {
          StripKeepsDepth(t[1..], d + 1, defined);
        } else if t[0] == ')' {
          if d > 1 {
            StripKeepsDepth(t[1..], d - 1, defined);
          }
        } else {
          StripKeepsDepth(t[1..], d, defined);
        }
      }
    }
  }

  lemma {:induction false} NewInnerBalanced(inner: string, defined: set<string>)
    requires Balanced(inner)
    ensures Balanced(NewInner(inner, defined))
    decreases |inner|, 1
  {
    if Drops(inner, defined) {
      NameHasNoParens(inner);
    } else if Descends(inner, defined) {
      BalancedIsClosed(inner, 1);
      StripKeepsDepth(inner, 1, defined);
    }
  }

  // ----- Identity when nothing is removed -----

  lemma {:induction false} NothingRemoved(t: string, defined: set<string>)
    requires Removed(t, defined) == 0
    ensures |Strip(t, defined)| >= |t|
    ensures Closed(t) ==> Strip(t, defined) == t
    ensures !Closed(t) ==> |Strip(t, defined)| > |t|
    decreases |t|
  {
    hide Drops, Descends, PyArgument, ParseArgument;
    if t != "" {
      if StartsCall(t) {
        var inner, rest := CallInner(t), CallRest(t);
        NothingRemoved(rest, defined);
        if Descends(inner, defined) {
          NothingRemoved(inner, defined);
        }
        assert |NewInner(inner, defined)| >= |inner|;
        assert |Strip(t, defined)| == 5 + |NewInner(inner, defined)| + |Strip(rest, defined)|;
        if CloseAt(t[4..], 1) < |t| - 4 {
          CallShape(t);
          BalancedIsClosed(inner, 1);
          assert NewInner(inner, defined) == inner;
        }
      } else {
        NothingRemoved(t[1..], defined);
      }
    }
  }

  /** When nothing is removed, the text is untouched exactly if every `var(` is closed; otherwise
      the missing parentheses are added. */
  lemma IdentityIffClosed(t: string, defined: set<string>)
    requires Removed(t, defined) == 0
    ensures Strip(t, defined) == t <==> Closed(t)
  {
    NothingRemoved(t, defined);
  }

  // ----- A second pass removes nothing -----

  function Parens(k: nat): (s: string)
    ensures |s| == k && forall i | 0 <= i < k :: s[i] == ')'
  {
    if k == 0 then "" else ")" + Parens(k - 1)
  }

  lemma {:induction false} ParensClose(k: nat, e: nat, defined: set<string>)
    requires e >= 1
    ensures CloseAt(Parens(k), e) == if e <= k then e - 1 else k
    ensures Removed(Parens(k), defined) == 0
  {
    if k > 0 {
      assert Parens(k)[1..] == Parens(k - 1);
      ParensClose(k - 1, if e > 1 then e - 1 else 1, defined);
    }
  }

  lemma {:induction false} StripStaysOpen(t: string, d: nat, defined: set<string>)
    requires d >= 1 && Walk(t, d).Some?
    ensures Walk(Strip(t, defined), d).Some?
    decreases |t|, 0
  {
    hide Drops, Descends, PyArgument, ParseArgument;
    if t != "" {
      if StartsCall(t) {
        WalkIntoCall(t, d);
        var c := CloseAt(t[4..], 1);
        var inner, rest := CallInner(t), CallRest(t);
        ClosedPart(t[4..], 1);
        NewInnerStaysOpen(inner, defined);
        var kept := NewInner(inner, defined);
        WalkShift(kept, 1, d);
        WalkAppend(kept, ")" + Strip(rest, defined), d + 1);
        if c < |t| - 4 {
          CallShape(t);
          WalkCall(inner, rest, d);
          NewInnerBalanced(inner, defined);
          WalkCall(kept, Strip(rest, defined), d);
          StripStaysOpen(rest, d, defined);
        } else {
          var u := Strip(t, defined);
          assert Strip(rest, defined) == "" && u == Call(inner, defined);
          WalkIntoCall(u, d);
          assert u[4..] == kept + (")" + Strip(rest, defined));
        }
      } else {
        var s := Strip(t, defined);
        assert s[1..] == Strip(t[1..], defined);
        StripStaysOpen(t[1..], if t[0] == '(' then d + 1 else if t[0] == ')' then d - 1 else d, defined);
      }
    }
  }

  lemma {:induction false} NewInnerStaysOpen(inner: string, defined: set<string>)
    requires Walk(inner, 1).Some?
    ensures Walk(NewInner(inner, defined), 1).Some?
    decreases |inner|, 1
  {
    if Drops(inner, defined) {
      NameHasNoParens(inner);
    } else if Descends(inner, defined) {
      StripStaysOpen(inner, 1, defined);
    }
  }

  /** The first character survives, and so does everything before the first call. */
  lemma StripFirst(s: string, defined: set<string>)
    requires s != ""
    ensures Strip(s, defined) != "" && Strip(s, defined)[0] == s[0]
    ensures !StartsCall(s) ==> Strip(s, defined)[1..] == Strip(s[1..], defined)
  {
  }

  lemma {:induction false} StripPrefix(p: string, s: string, k: nat, defined: set<string>)
    requires |p| <= |Strip(s, defined) + Parens(k)|
    requires forall i | 0 <= i < |p| :: p[i] != ')' && p[i] != 'v' && (Strip(s, defined) + Parens(k))[i] == p[i]
    ensures |p| <= |s| && forall i | 0 <= i < |p| :: s[i] == p[i]
  {
    hide Drops, Descends, PyArgument, ParseArgument, CallInner, CallRest, Call;
    if p != "" {
      var u := Strip(s, defined) + Parens(k);
      assert u[0] == p[0];
      assert s == "" ==> u == Parens(k);
      StripFirst(s, defined);
      var u1 := Strip(s[1..], defined) + Parens(k);
      assert u1 == u[1..];
      StripPrefix(p[1..], s[1..], k, defined);
      assert s[0] == p[0] && forall i | 0 <= i < |p| - 1 :: s[1..][i] == p[1..][i];
    }
  }

  /** Joining the pieces never makes a new `var(`. */
  lemma NoNewCall(s: string, k: nat, defined: set<string>)
    requires s != "" && !StartsCall(s)
    ensures !StartsCall(Strip(s, defined) + Parens(k))
  {
    hide Drops, Descends, PyArgument, ParseArgument, CallInner, CallRest, Call;
    var u := Strip(s, defined) + Parens(k);
    if StartsCall(u) {
      StripFirst(s, defined);
      var u1 := Strip(s[1..], defined) + Parens(k);
      assert u1 == u[1..];
      StripPrefix("ar(", s[1..], k, defined);
    }
  }

  predicate HasFallback(a: Argument) {
    a.Ref? && a.fallback.Some?
  }

  /** The part of a call's argument before its fallback: it ends in the comma. */
  function Head(inner: string): (h: string)
    requires HasFallback(PyArgument(inner))
    ensures h + PyArgument(inner).fallback.value == inner
    ensures h != "" && h[|h| - 1] == ',' && forall i | 0 <= i < |h| :: h[i] != '(' && h[i] != ')'
  {
    var b := SpanEnd(inner, SpanEnd(inner, 0, PySpace) + 2, NameChar);
    inner[..SpanEnd(inner, b, PySpace) + 1]
  }

  /** Where the parts of an argument with a fallback begin. */
  lemma HeadParts(inner: string) returns (a: nat, b: nat, c: nat)
    requires HasFallback(PyArgument(inner))
    ensures a + 2 < b <= c < |inner| && Head(inner) == inner[..c + 1] && PyArgument(inner).name == inner[a..b]
    ensures (forall i | 0 <= i < a :: PySpace(inner[i])) && inner[a] == '-' && inner[a + 1] == '-'
    ensures forall i | a + 2 <= i < b :: NameChar(inner[i])
    ensures !NameChar(inner[b]) && (forall i | b <= i < c :: PySpace(inner[i])) && inner[c] == ','
  {
    a := SpanEnd(inner, 0, PySpace);
    b := SpanEnd(inner, a + 2, NameChar);
    c := SpanEnd(inner, b, PySpace);
  }

  /** Parsing by given positions. */
  lemma ParsesAs(t: string, space: char -> bool, nameChar: char -> bool, a: nat, b: nat, c: nat)
    requires a + 2 < b <= c < |t|
    requires (forall i | 0 <= i < a :: space(t[i])) && !space(t[a]) && t[a] == '-' && t[a + 1] == '-'
    requires (forall i | a + 2 <= i < b :: nameChar(t[i])) && !nameChar(t[b])
    requires (forall i | b <= i < c :: space(t[i])) && !space(t[c]) && t[c] == ','
    ensures ParseArgument(t, space, nameChar) == Ref(t[a..b], Some(t[c + 1..]))
  {
    SpanIs(t, 0, space, a);
    SpanIs(t, a + 2, nameChar, b);
    SpanIs(t, b, space, c);
  }

  /** Another fallback after the same head is parsed as that fallback. */
  lemma HeadParses(inner: string, y: string)
    requires HasFallback(PyArgument(inner))
    ensures PyArgument(Head(inner) + y) == Ref(PyArgument(inner).name, Some(y))
  {
    var a, b, c := HeadParts(inner);
    var t := inner[..c + 1] + y;
    assert !PySpace('-') && !PySpace(',');
    hide PySpace, NameChar, Head;
    assert forall i | 0 <= i <= c :: t[i] == inner[i];
    hide ParseArgument;
    ParsesAs(t, PySpace, NameChar, a, b, c);
    assert t[a..b] == inner[a..b] && t[c + 1..] == y;
  }

  /** A bare name is a reference without a fallback. */
  lemma NameParses(inner: string)
    requires PyArgument(inner).Ref?
    ensures PyArgument(PyArgument(inner).name) == Ref(PyArgument(inner).name, None)
    ensures CssArgument(PyArgument(inner).name) == Ref(PyArgument(inner).name, None)
  {
    var name := PyArgument(inner).name;
    SpanIs(name, 0, PySpace, 0);
    SpanIs(name, 0, CssSpace, 0);
    SpanIs(name, 2, NameChar, |name|);
    SpanIs(name, 2, IdentChar, |name|);
    assert name[0..] == name;
  }

  /** Closing parentheses at the end never turn an argument without fallback into one with a fallback. */
  lemma ParensMakeNoFallback(a: string, k: nat)
    requires !HasFallback(PyArgument(a))
    ensures !HasFallback(PyArgument(a + Parens(k)))
  {
    hide PyArgument;
    var t := a + Parens(k);
    if HasFallback(PyArgument(t)) {
      var c := |Head(t)| - 1;
      assert t[c] == ',' && forall i | |a| <= i < |t| :: t[i] == Parens(k)[i - |a|];
      assert Head(t) == t[..c + 1] == a[..c + 1];
      assert a == Head(t) + a[c + 1..];
      HeadParses(t, a[c + 1..]);
    }
  }

  lemma ParensSplit(k: nat, m: nat)
    requires m <= k
    ensures Parens(k)[..m] == Parens(m) && Parens(k)[m..] == Parens(k - m)
  {
  }

  lemma CallSplit(s: string)
    ensures var c := CloseAt(s, 1);
      && StartsCall(VAR + s) && CallInner(VAR + s) == s[..c]
      && CallRest(VAR + s) == if c < |s| then s[c + 1..] else ""
  {
    hide CloseAt;
    assert (VAR + s)[4..] == s;
  }

  lemma ConcatSlices(a: string, b: string, m: nat)
    requires m <= |b|
    ensures (a + b)[..|a| + m] == a + b[..m] && (a + b)[|a| + m..] == b[m..]
  {
  }

  lemma OpenSlices(kept: string, k: nat, m: nat)
    requires m <= k
    ensures (kept + Parens(k))[..|kept| + m] == kept + Parens(m)
    ensures m < k ==> (kept + Parens(k))[|kept| + m + 1..] == Parens(k - m - 1)
  {
    ConcatSlices(kept, Parens(k), m);
    ParensSplit(k, m);
    if m < k {
      ConcatSlices(kept, Parens(k), m + 1);
      ParensSplit(k, m + 1);
    }
  }

  /** A call followed only by closing parentheses. */
  lemma OpenCall(kept: string, k: nat)
    requires Walk(kept, 1).Some?
    ensures var e := Walk(kept, 1).value;
      var t := VAR + kept + Parens(k);
      var m := if e <= k then e - 1 else k;
      StartsCall(t) && CallInner(t) == kept + Parens(m) && CallRest(t) == Parens(k - (if e <= k then e else k))
  {
    hide Walk, CloseAt, Parens, CallInner, CallRest, StartsCall;
    var e := Walk(kept, 1).value;
    var m := if e <= k then e - 1 else k;
    CloseAppend(kept, Parens(k), 1);
    ParensClose(k, e, {});
    var s := kept + Parens(k);
    CallSplit(s);
    Associates(VAR, kept, Parens(k));
    OpenSlices(kept, k, m);
  }

  lemma OpenCallRemoved(kept: string, k: nat, defined: set<string>)
    requires Walk(kept, 1).Some?
    requires forall m | 0 <= m <= k :: RemovedIn(kept + Parens(m), defined) == 0
    ensures Removed(VAR + kept + Parens(k), defined) == 0
  {
    hide Walk, CloseAt, RemovedIn, CallInner, CallRest;
    OpenCall(kept, k);
    var e := Walk(kept, 1).value;
    var m := if e <= k then e - 1 else k;
    assert 0 <= m <= k;
    ParensClose(k - (if e <= k then e else k), 1, defined);
  }

  lemma ClosedCallRemoved(kept: string, rest: string, defined: set<string>)
    requires Balanced(kept) && RemovedIn(kept, defined) == 0 && Removed(rest, defined) == 0
    ensures Removed(VAR + kept + ")" + rest, defined) == 0
  {
    hide Walk, CloseAt, RemovedIn, CallInner, CallRest;
    CallOf(kept, rest);
  }

  lemma {:induction false} SettledInside(inner: string, k: nat, defined: set<string>)
    ensures RemovedIn(NewInner(inner, defined) + Parens(k), defined) == 0
    decreases |inner|, 1
  {
    hide ParseArgument;
    var kept := NewInner(inner, defined);
    if Drops(inner, defined) {
      NameParses(inner);
      ParensMakeNoFallback(kept, k);
    } else if Descends(inner, defined) {
      var fb := PyArgument(inner).fallback.value;
      StripAfterHead(Head(inner), fb, defined);
      assert kept + Parens(k) == Head(inner) + (Strip(fb, defined) + Parens(k));
      HeadParses(inner, Strip(fb, defined) + Parens(k));
      SecondPass(inner, k, defined);
    } else {
      ParensMakeNoFallback(kept, k);
    }
  }

  /** The head of an argument is copied. */
  lemma {:induction false} StripAfterHead(head: string, y: string, defined: set<string>)
    requires forall i | 0 <= i < |head| :: head[i] != '('
    requires head != "" ==> head[|head| - 1] == ','
    ensures Strip(head + y, defined) == head + Strip(y, defined)
  {
    hide Call, CallInner, CallRest;
    if head == "" {
      assert head + y == y;
    } else {
      var t := head + y;
      assert t[|head| - 1] == ',' && (|head| >= 4 ==> t[3] == head[3]);
      assert t[1..] == head[1..] + y;
      StripAfterHead(head[1..], y, defined);
      assert head == [head[0]] + head[1..];
    }
  }

  lemma {:induction false} SecondPass(t: string, k: nat, defined: set<string>)
    ensures Removed(Strip(t, defined) + Parens(k), defined) == 0
    decreases |t|, 0
  {
    hide Drops, Descends, PyArgument, ParseArgument, RemovedIn, NewInner, CallInner, CallRest;
    if t == "" {
      ParensClose(k, 1, defined);
      assert Strip(t, defined) + Parens(k) == Parens(k);
    } else if StartsCall(t) {
      SecondPassCall(t, k, defined);
    } else {
      var u := Strip(t, defined) + Parens(k);
      StripFirst(t, defined);
      assert u[1..] == Strip(t[1..], defined) + Parens(k);
      NoNewCall(t, k, defined);
      SecondPass(t[1..], k, defined);
    }
  }

  lemma TailClosed(kept: string, rest: string, tail: string)
    ensures (VAR + kept + ")" + rest) + tail == VAR + kept + ")" + (rest + tail)
  {
  }

  lemma TailOpen(kept: string, k: nat)
    ensures (VAR + kept + ")" + "") + Parens(k) == VAR + kept + Parens(k + 1)
  {
    assert Parens(k + 1) == ")" + Parens(k);
  }

  lemma {:induction false} SecondPassCall(t: string, k: nat, defined: set<string>)
    requires StartsCall(t)
    ensures Removed(Strip(t, defined) + Parens(k), defined) == 0
    decreases |t|, 0, 0
  {
    var inner, rest := CallInner(t), CallRest(t);
    var kept := NewInner(inner, defined);
    ClosedPart(t[4..], 1);
    assert Strip(t, defined) == VAR + kept + ")" + Strip(rest, defined);
    if CloseAt(t[4..], 1) < |t| - 4 {
      hide Drops, Descends, PyArgument, ParseArgument, RemovedIn, NewInner, CallInner, CallRest, Walk, CloseAt, Strip, Removed;
      NewInnerBalanced(inner, defined);
      SettledInside(inner, 0, defined);
      assert kept + Parens(0) == kept;
      SecondPass(rest, k, defined);
      ClosedCallRemoved(kept, Strip(rest, defined) + Parens(k), defined);
      TailClosed(kept, Strip(rest, defined), Parens(k));
    } else {
      assert Strip(rest, defined) == "";
      hide Drops, Descends, PyArgument, ParseArgument, RemovedIn, NewInner, CallInner, CallRest, Walk, CloseAt, Strip, Removed;
      NewInnerStaysOpen(inner, defined);
      forall m | 0 <= m <= k + 1 ensures RemovedIn(kept + Parens(m), defined) == 0 {
        SettledInside(inner, m, defined);
      }
      OpenCallRemoved(kept, k + 1, defined);
      TailOpen(kept, k);
    }
  }

  /** After one pass the gate is clean, on every text. */
  lemma SecondPassRemovesNothing(t: string, defined: set<string>)
    ensures Removed(Strip(t, defined), defined) == 0
  {
    SecondPass(t, 0, defined);
    assert Strip(t, defined) + Parens(0) == Strip(t, defined);
  }
}
