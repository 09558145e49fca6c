/** CSS text as far as var() is concerned: balanced parentheses, the argument of var(), when a call is
    well formed, and the value a text has once its references are substituted (section 3 of CSS Custom
    Properties for Cascading Variables Module Level 1). Strings, comments, url() tokens and escapes are
    outside this model. */
module CssText {
  import opened Wrappers

  const VAR := "var("

  predicate StartsCall(t: string) {
    |t| >= 4 && t[0] == 'v' && t[1] == 'a' && t[2] == 'r' && t[3] == '('
  }

  lemma Associates<T>(a: seq<T>, b: seq<T>, c: seq<T>)
    ensures a + (b + c) == (a + b) + c
  {
  }

  lemma Regroups<T>(a: seq<T>, b: seq<T>, c: seq<T>, d: seq<T>)
    ensures a + b + c + d == a + (b + (c + d))
  {
  }

  // ----- Characters -----

  predicate CssSpace(c: char) {
    c == ' ' || c == '\t' || c == '\n' || c == '\r' || c == '\U{000C}'
  }

  /** What `\s` matches in Python: CSS white space and more. */
  predicate PySpace(c: char) {
    || CssSpace(c) || c == '\U{000B}' || '\U{001C}' <= c <= '\U{001F}' || c == '\U{0085}' || c == '\U{00A0}'
    || c == '\U{1680}' || '\U{2000}' <= c <= '\U{200A}' || c == '\U{2028}' || c == '\U{2029}' || c == '\U{202F}'
    || c == '\U{205F}' || c == '\U{3000}'
  }

  /** `[a-zA-Z0-9-]` */
  predicate NameChar(c: char) {
    'a' <= c <= 'z' || 'A' <= c <= 'Z' || '0' <= c <= '9' || c == '-'
  }

  /** A character that continues a CSS identifier. */
  predicate IdentChar(c: char) {
    NameChar(c) || c == '_' || c >= '\U{0080}'
  }

  /** A character after which `var(` is no function of its own: it belongs to an identifier, a hash or
      an at-keyword. */
  predicate Continues(c: char) {
    IdentChar(c) || c == '#' || c == '@'
  }

  // ----- Parentheses -----

  /** Where the parenthesis that closes `depth` open ones stands, or |s|. */
  function CloseAt(s: string, depth: nat): (c: nat)
    requires depth >= 1
    ensures c <= |s| && (c < |s| ==> s[c] == ')')
  {
    if s == "" then 0
    else if s[0] == '(' then 1 + CloseAt(s[1..], depth + 1)
    else if s[0] == ')' then if depth == 1 then 0 else 1 + CloseAt(s[1..], depth - 1)
    else 1 + CloseAt(s[1..], depth)
  }

  /** The depth after `s`, if the first of `depth` open parentheses stays open all along. */
  function Walk(s: string, depth: nat): (e: Option<nat>)
    requires depth >= 1
    ensures e.Some? ==> e.value >= 1
  {
    if s == "" then Some(depth)
    else if s[0] == '(' then Walk(s[1..], depth + 1)
    else if s[0] == ')' then if depth == 1 then None else Walk(s[1..], depth - 1)
    else Walk(s[1..], depth)
  }

  predicate Balanced(s: string) {
    Walk(s, 1) == Some(1)
  }

  lemma {:induction false} WalkAppend(a: string, b: string, d: nat)
    requires d >= 1
    ensures Walk(a + b, d) == if Walk(a, d).Some? then Walk(b, Walk(a, d).value) else None
  {
    if a == "" {
      assert a + b == b;
    } else {
      assert (a + b)[1..] == a[1..] + b;
      if a[0] == '(' {
        WalkAppend(a[1..], b, d + 1);
      } else if a[0] == ')' {
        if d > 1 {
          WalkAppend(a[1..], b, d - 1);
        }
      } else {
        WalkAppend(a[1..], b, d);
      }
    }
  }

  lemma {:induction false} WalkShift(a: string, d: nat, k: nat)
    requires d >= 1 && Walk(a, d).Some?
    ensures Walk(a, d + k) == Some(Walk(a, d).value + k)
  {
    if a != "" {
      if a[0] == '(' {
        WalkShift(a[1..], d + 1, k);
      } else if a[0] == ')' {
        WalkShift(a[1..], d - 1, k);
      } else {
        WalkShift(a[1..], d, k);
      }
    }
  }

  lemma {:induction false} CloseAppend(a: string, b: string, d: nat)
    requires d >= 1
    ensures CloseAt(a, d) < |a| ==> CloseAt(a + b, d) == CloseAt(a, d)
    ensures Walk(a, d).Some? ==> CloseAt(a + b, d) == |a| + CloseAt(b, Walk(a, d).value)
  {
    if a == "" {
      assert a + b == b;
    } else {
      assert (a + b)[1..] == a[1..] + b;
      if a[0] == '(' {
        CloseAppend(a[1..], b, d + 1);
      } else if a[0] == ')' {
        if d > 1 {
          CloseAppend(a[1..], b, d - 1);
        }
      } else {
        CloseAppend(a[1..], b, d);
      }
    }
  }

  /** Up to the closing parenthesis the text is balanced; without one it stays open. */
  lemma {:induction false} ClosedPart(s: string, d: nat)
    requires d >= 1
    ensures var c := CloseAt(s, d); Walk(s[..c], d).Some? && (c < |s| ==> Walk(s[..c], d) == Some(1))
  {
    var c := CloseAt(s, d);
    if s != "" && c > 0 {
      assert s[..c] == [s[0]] + s[1..][..c - 1];
      assert s[..c][1..] == s[1..][..c - 1];
      if s[0] == '(' {
        ClosedPart(s[1..], d + 1);
      } else if s[0] == ')' {
        ClosedPart(s[1..], d - 1);
      } else {
        ClosedPart(s[1..], d);
      }
    }
  }

  lemma {:induction false} NoParens(s: string, d: nat)
    requires d >= 1 && forall i | 0 <= i < |s| :: s[i] != '(' && s[i] != ')'
    ensures Walk(s, d) == Some(d)
  {
    if s != "" {
      NoParens(s[1..], d);
    }
  }

  /** Reading `var(` + inner + `)` leaves the depth as it was. */
  lemma WalkCall(inner: string, rest: string, d: nat)
    requires d >= 1 && Balanced(inner)
    ensures CloseAt(inner + ")" + rest, 1) == |inner|
    ensures Walk(VAR + inner + ")" + rest, d) == Walk(rest, d)
  {
    WalkShift(inner, 1, d);
    assert inner + ")" + rest == inner + (")" + rest);
    CloseAppend(inner, ")" + rest, 1);
    WalkAppend(inner, ")" + rest, d + 1);
    assert (")" + rest)[1..] == rest;
    var t := VAR + inner + ")" + rest;
    assert t[4..] == inner + (")" + rest);
    assert t[1..][1..][1..][1..] == t[4..];
    assert Walk(t, d) == Walk(t[1..], d) == Walk(t[1..][1..], d) == Walk(t[1..][1..][1..], d);
  }

  // ----- The argument of var() -----

  datatype Argument = NoMatch | Ref(name: string, fallback: Option<string>)

  /** The end of the run of `p` characters from position `i`. */
  function SpanEnd(s: string, i: nat, p: char -> bool): (j: nat)
    requires i <= |s|
    ensures i <= j <= |s| && (forall k | i <= k < j :: p(s[k])) && (j < |s| ==> !p(s[j]))
    decreases |s| - i
  {
    if i == |s| || !p(s[i]) then i else SpanEnd(s, i + 1, p)
  }

  lemma SpanIs(s: string, i: nat, p: char -> bool, j: nat)
    requires i <= j <= |s| && (forall k | i <= k < j :: p(s[k])) && (j < |s| ==> !p(s[j]))
    ensures SpanEnd(s, i, p) == j
  {
  }

  /** White space, a dashed name, white space, then nothing or a comma and the fallback. */
  function ParseArgument(s: string, space: char -> bool, nameChar: char -> bool): Argument {
    var a := SpanEnd(s, 0, space);
    if !(a + 2 <= |s| && s[a] == '-' && s[a + 1] == '-') then NoMatch else
    var b := SpanEnd(s, a + 2, nameChar);
    var c := SpanEnd(s, b, space);
    if b == a + 2 then NoMatch
    else if c == |s| then Ref(s[a..b], None)
    else if s[c] == ',' then Ref(s[a..b], Some(s[c + 1..]))
    else NoMatch
  }

  /** The code's regular expression `\s*(--[a-zA-Z0-9-]+)\s*(,\s*(.*))?$`. */
  function PyArgument(s: string): Argument {
    ParseArgument(s, PySpace, NameChar)
  }

  /** The grammar of var(): a custom property name and an optional fallback. */
  function CssArgument(s: string): Argument {
    ParseArgument(s, CssSpace, IdentChar)
  }

  // ----- Calls -----

  function CallInner(t: string): string
    requires StartsCall(t)
  {
    t[4..][..CloseAt(t[4..], 1)]
  }

  function CallRest(t: string): string
    requires StartsCall(t)
  {
    var s := t[4..];
    var c := CloseAt(s, 1);
    if c < |s| then s[c + 1..] else ""
  }

  lemma CallShape(t: string)
    requires StartsCall(t) && CloseAt(t[4..], 1) < |t| - 4
    ensures t == VAR + CallInner(t) + ")" + CallRest(t) && Balanced(CallInner(t))
  {
    var s := t[4..];
    ClosedPart(s, 1);
    hide CloseAt, Walk;
    var c := CloseAt(s, 1);
    assert t[..4] == VAR && t == t[..4] + s;
    assert s[c..c + 1] == ")" && s == s[..c] + s[c..c + 1] + s[c + 1..];
    Regroups(VAR, s[..c], ")", s[c + 1..]);
    assert s[..c] + ")" + s[c + 1..] == s[..c] + (")" + s[c + 1..]);
  }

  lemma CallOf(inner: string, rest: string)
    requires Balanced(inner)
    ensures var t := VAR + inner + ")" + rest;
      StartsCall(t) && CallInner(t) == inner && CallRest(t) == rest && CloseAt(t[4..], 1) < |t| - 4
  {
    WalkCall(inner, rest, 1);
    hide CloseAt, Walk;
    var t := VAR + inner + ")" + rest;
    var s := inner + ")" + rest;
    assert t[4..] == s && s[..|inner|] == inner && s[|inner| + 1..] == rest;
  }

  // ----- Well-formed calls -----

  /** The closing brackets still expected after `c`; none if `c` closes what is not open, or is a `;`
      or `!` outside all brackets. */
  function Step(open: string, c: char): Option<string> {
    if c == '(' then Some(")" + open)
    else if c == '[' then Some("]" + open)
    else if c == '{' then Some("}" + open)
    else if c == ')' || c == ']' || c == '}' then
      if open != "" && open[0] == c then Some(open[1..]) else None
    else if (c == ';' || c == '!') && open == "" then None
    else Some(open)
  }

  /** The closing brackets expected after `t`, if all its characters and calls may stand there. A function
      name that merely ends in `var` is not var(), so `glued` tells whether the character before `t`
      continues a name. */
  function Brackets(t: string, glued: bool, open: string): Option<string>
    decreases |t|
  {
    if t == "" then Some(open)
    else if StartsCall(t) && !glued then
      if WellFormed(CallInner(t)) then Brackets(CallRest(t), false, open) else None
    else
      match Step(open, t[0])
      case None => None
      case Some(o) => Brackets(t[1..], Continues(t[0]), o)
  }

  /** The argument follows the grammar of var(), and so does every call in its fallback, used or not. */
  predicate WellFormed(inner: string)
    decreases |inner|
  {
    match CssArgument(inner)
    case NoMatch => false
    case Ref(_, fallback) => fallback.None? || Brackets(fallback.value, false, "") == Some("")
  }

  // ----- Values -----

  /** A piece of a substituted value: a character, the mark of a reference to nothing, which makes the
      declaration invalid when it is computed, or the mark of a call that is not well formed, which makes
      it invalid when it is parsed. */
  datatype Piece = Ch(c: char) | Unset | Malformed

  type Env = map<string, string>

  function Chars(s: string): seq<Piece> {
    seq(|s|, i requires 0 <= i < |s| => Ch(s[i]))
  }

  function Value(t: string, glued: bool, env: Env): seq<Piece>
    decreases |t|
  {
    if t == "" then []
    else if StartsCall(t) && !glued then
      CallValue(CallInner(t), env) + Value(CallRest(t), false, env)
    else
      [Ch(t[0])] + Value(t[1..], Continues(t[0]), env)
  }

  function CallValue(inner: string, env: Env): seq<Piece>
    decreases |inner|
  {
    if !WellFormed(inner) then [Malformed] else
    var a := CssArgument(inner);
    if a.name in env then Chars(env[a.name])
    else if a.fallback.Some? then Value(a.fallback.value, false, env)
    else [Unset]
  }
}
