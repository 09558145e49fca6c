/** The codemod that turns `var(--x, fallback)` into `var(--x)` for defined tokens
    (scripts/codemods/strip-token-fallbacks.py): the rewriting as a function, the loop that
    computes it, and what it keeps. */
module StripFallbacks {
  import opened CssText
  import opened Wrappers

  // ----- The rewriting -----

  /** The call is rewritten: it has a fallback and its token is defined. */
  predicate Drops(inner: string, defined: set<string>) {
    var a := PyArgument(inner);
    a.Ref? && a.fallback.Some? && a.name in defined
  }

  /** The call is kept, and its inside is searched. */
  predicate Descends(inner: string, defined: set<string>) {
    var a := PyArgument(inner);
    a.Ref? && a.fallback.Some? && a.name !in defined
  }

  function Strip(t: string, defined: set<string>): string
    decreases |t|, 0
  {
    if t == "" then ""
    else if StartsCall(t) then Call(CallInner(t), defined) + Strip(CallRest(t), defined)
    else [t[0]] + Strip(t[1..], defined)
  }

  function Call(inner: string, defined: set<string>): string
    decreases |inner|, 2
  {
    VAR + NewInner(inner, defined) + ")"
  }

  function NewInner(inner: string, defined: set<string>): string
    decreases |inner|, 1
  {
    if Drops(inner, defined) then PyArgument(inner).name
    else if Descends(inner, defined) then Strip(inner, defined)
    else inner
  }

  /** How many fallbacks are dropped. */
  function Removed(t: string, defined: set<string>): nat
    decreases |t|, 0
  {
    if t == "" then 0
    else if StartsCall(t) then RemovedIn(CallInner(t), defined) + Removed(CallRest(t), defined)
    else Removed(t[1..], defined)
  }

  function RemovedIn(inner: string, defined: set<string>): nat
    decreases |inner|, 1
  {
    if Drops(inner, defined) then 1
    else if Descends(inner, defined) then Removed(inner, defined)
    else 0
  }

  // ----- The loop -----

  predicate CallAt(text: string, k: nat) {
    k + 4 <= |text| && text[k] == 'v' && text[k + 1] == 'a' && text[k + 2] == 'r' && text[k + 3] == '('
  }

  /** `text.find(VAR, i)` */
  method FindVar(text: string, i: nat) returns (start: int)
    ensures start == -1 || (i <= start && CallAt(text, start))
    ensures forall k | i <= k < (if start == -1 then |text| else start) :: !CallAt(text, k)
  {
    start := i;
    while start < |text|
      invariant i <= start
      invariant forall k | i <= k < start :: !CallAt(text, k)
    {
      if CallAt(text, start) {
        return;
      }
      start := start + 1;
    }
    start := -1;
  }

  /** Where the scan for the matching parenthesis stops. */
  function Scan(text: string, j: nat, depth: nat): nat
    requires j <= |text|
    decreases |text| - j
  {
    if j == |text| then j
    else if text[j] == '(' then Scan(text, j + 1, depth + 1)
    else if text[j] == ')' && depth == 1 then j
    else Scan(text, j + 1, if text[j] == ')' && depth > 0 then depth - 1 else depth)
  }

  lemma {:induction false} ScanIsClose(text: string, j: nat, depth: nat)
    requires j <= |text| && depth >= 1
    ensures Scan(text, j, depth) == j + CloseAt(text[j..], depth)
    decreases |text| - j
  {
    if j < |text| {
      var t := text[j..];
      assert t[0] == text[j] && t[1..] == text[j + 1..];
      if text[j] == '(' {
        ScanIsClose(text, j + 1, depth + 1);
      } else if text[j] != ')' || depth > 1 {
        ScanIsClose(text, j + 1, if text[j] == ')' then depth - 1 else depth);
      }
    }
  }

  lemma ScanCall(text: string, start: nat)
    requires CallAt(text, start)
    ensures Scan(text, start, 0) == start + 4 + CloseAt(text[start + 4..], 1)
  {
    assert Scan(text, start, 0) == Scan(text, start + 1, 0) == Scan(text, start + 2, 0) == Scan(text, start + 3, 0);
    ScanIsClose(text, start + 4, 1);
  }

  /** The close parenthesis that matches the one of `var(` at `start`, or the end of the text. */
  method MatchingClose(text: string, start: nat) returns (j: nat)
    requires CallAt(text, start)
    ensures j == Scan(text, start, 0) && start + 4 <= j <= |text|
  {
    ScanCall(text, start);
    var depth: int := 0;
    j := start;
    while j < |text|
      invariant start <= j <= |text| && 0 <= depth
      invariant Scan(text, j, depth) == Scan(text, start, 0)
      invariant j < start + 4 ==> depth == 0
      invariant j >= start + 4 ==> depth >= 1
    {
      if text[j] == '(' {
        depth := depth + 1;
      } else if text[j] == ')' {
        depth := depth - 1;
        if depth == 0 {
          break;
        }
      }
      j := j + 1;
    }
  }

  method RewriteCall(inner: string, defined: set<string>) returns (call: string, n: nat)
    ensures call == Call(inner, defined) && n == RemovedIn(inner, defined)
    decreases |inner|, 1
  {
    if Drops(inner, defined) {
      return VAR + PyArgument(inner).name + ")", 1;
    }
    var rewritten;
    if Descends(inner, defined) {
      rewritten, n := StripText(inner, defined);
    } else {
      rewritten, n := inner, 0;
    }
    call := VAR + rewritten + ")";
  }

  // ----- The same rewriting by positions in the text -----

  function StripFrom(text: string, i: nat, defined: set<string>): string
    decreases |text| - i
  {
    if i >= |text| then ""
    else if CallAt(text, i) then
      var j := Scan(text, i, 0);
      if i + 4 <= j <= |text| then Call(text[i + 4..j], defined) + StripFrom(text, j + 1, defined) else ""
    else [text[i]] + StripFrom(text, i + 1, defined)
  }

  function RemovedFrom(text: string, i: nat, defined: set<string>): nat
    decreases |text| - i
  {
    if i >= |text| then 0
    else if CallAt(text, i) then
      var j := Scan(text, i, 0);
      if i + 4 <= j <= |text| then RemovedIn(text[i + 4..j], defined) + RemovedFrom(text, j + 1, defined) else 0
    else RemovedFrom(text, i + 1, defined)
  }

  lemma CallParts(text: string, i: nat)
    requires CallAt(text, i)
    ensures var j := Scan(text, i, 0);
      && i + 4 <= j <= |text|
      && CallInner(text[i..]) == text[i + 4..j] && CallRest(text[i..]) == text[if j < |text| then j + 1 else j..]
  {
    ScanCall(text, i);
    hide CloseAt, Scan;
    var s := text[i + 4..];
    var c := CloseAt(s, 1);
    assert text[i..][4..] == s;
    assert s[..c] == text[i + 4..i + 4 + c];
    assert c < |s| ==> s[c + 1..] == text[i + 4 + c + 1..];
  }

  lemma {:induction false} StripByPosition(text: string, i: nat, defined: set<string>)
    requires i <= |text|
    ensures Strip(text[i..], defined) == StripFrom(text, i, defined)
    ensures Removed(text[i..], defined) == RemovedFrom(text, i, defined)
    decreases |text| - i
  {
    hide Call, RemovedIn, NewInner, Drops, Descends, CloseAt, CallInner, CallRest, Scan;
    if CallAt(text, i) {
      CallParts(text, i);
      var j := Scan(text, i, 0);
      StripByPosition(text, if j < |text| then j + 1 else j, defined);
    } else if i < |text| {
      StripByPosition(text, i + 1, defined);
      assert text[i..][1..] == text[i + 1..];
    }
  }

  lemma StripChar(text: string, i: nat, defined: set<string>)
    requires i < |text| && !CallAt(text, i)
    ensures StripFrom(text, i, defined) == [text[i]] + StripFrom(text, i + 1, defined)
    ensures RemovedFrom(text, i, defined) == RemovedFrom(text, i + 1, defined)
  {
  }

  lemma StripCall(text: string, i: nat, j: nat, defined: set<string>)
    requires i < |text| && CallAt(text, i) && j == Scan(text, i, 0) && i + 4 <= j <= |text|
    ensures StripFrom(text, i, defined) == Call(text[i + 4..j], defined) + StripFrom(text, j + 1, defined)
    ensures RemovedFrom(text, i, defined) == RemovedIn(text[i + 4..j], defined) + RemovedFrom(text, j + 1, defined)
  {
    hide Call, RemovedIn, NewInner, Strip, Removed, Drops, Descends;
  }

  lemma StripEnd(text: string, i: nat, defined: set<string>)
    requires i >= |text|
    ensures StripFrom(text, i, defined) == "" && RemovedFrom(text, i, defined) == 0
  {
  }

  lemma {:induction false} SkipToVar(text: string, i: nat, j: nat, defined: set<string>)
    requires i <= j <= |text|
    requires forall k | i <= k < j :: !CallAt(text, k)
    ensures StripFrom(text, i, defined) == text[i..j] + StripFrom(text, j, defined)
    ensures RemovedFrom(text, i, defined) == RemovedFrom(text, j, defined)
    decreases j - i
  {
    hide Call, RemovedIn, NewInner, Strip, Removed, Drops, Descends;
    if i < j {
      SkipToVar(text, i + 1, j, defined);
      StripChar(text, i, defined);
      assert text[i..j] == [text[i]] + text[i + 1..j];
      Associates([text[i]], text[i + 1..j], StripFrom(text, j, defined));
    } else {
      assert text[i..j] == "";
    }
  }

  method StripText(text: string, defined: set<string>) returns (result: string, removed: nat)
    ensures result == Strip(text, defined) && removed == Removed(text, defined)
    decreases |text|, 0
  {
    hide Call, RemovedIn, NewInner, Strip, Removed, Drops, Descends, StripFrom, RemovedFrom, Scan;
    result, removed := "", 0;
    var i := 0;
    while i <= |text|
      invariant 0 <= i <= |text| + 1
      invariant result + StripFrom(text, i, defined) == StripFrom(text, 0, defined)
      invariant removed + RemovedFrom(text, i, defined) == RemovedFrom(text, 0, defined)
    {
      ghost var before := result;
      var start := FindVar(text, i);
      if start == -1 {
        SkipToVar(text, i, |text|, defined);
        StripEnd(text, |text|, defined);
        result := result + text[i..];
        break;
      }
      SkipToVar(text, i, start, defined);
      result := result + text[i..start];
      Associates(before, text[i..start], StripFrom(text, start, defined));
      var j := MatchingClose(text, start);
      StripCall(text, start, j, defined);
      var call, n := RewriteCall(text[start + 4..j], defined);
      Associates(result, call, StripFrom(text, j + 1, defined));
      result := result + call;
      removed := removed + n;
      i := j + 1;
    }
    if i > |text| {
      StripEnd(text, i, defined);
    }
    StripByPosition(text, 0, defined);
    assert text[0..] == text;
  }
}
