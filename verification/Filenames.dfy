/** The filename policy that the broker and the in-container runner each carry a copy of
    (backend/app/sandbox/filenames.py, sandbox/runner.py). Unicode tables are parameters. */
module Filenames {
  import opened PyText
  import opened Wrappers

  /** `normalize` is NFC followed by strip; `alnum` and `mark` are str.isalnum and the categories
      Mn and Mc; `lower` is str.lower; `suffix` is the lower-cased os.path.splitext(name)[1];
      `sha256` the hexadecimal digest; `content` the per-suffix content check. */
  datatype Policy = Policy(
    normalize: Text -> Text,
    alnum: CodePoint -> bool,
    mark: CodePoint -> bool,
    lower: Text -> Text,
    suffix: Text -> Text,
    sha256: Bytes -> Text,
    content: (Text, Bytes) -> Finding
  )

  /** What a check written in Python can do: hold, fail, or raise. */
  datatype Verdict = Safe | Unsafe | Raises

  /** What the content check finds: nothing wrong, a content it refuses, a JSON number with more digits
      than int() converts (a ValueError of its own), or nesting too deep for the parser (a RecursionError). */
  datatype Finding = Fine | Malformed | LongNumber | TooDeep

  const MAX_FILENAME_CHARS := 128
  const MAX_FILENAME_BYTES := 255
  const SLASH: CodePoint := 47
  const BACKSLASH: CodePoint := 92
  const DOT: CodePoint := 46
  const DASH: CodePoint := 45
  const SPACE: CodePoint := 32

  predicate Allowed(p: Policy, c: CodePoint) {
    c in [DOT, 95, DASH, SPACE, 40, 41] || c in [0x200C, 0x200D] || p.alnum(c) || p.mark(c)
  }

  /** `is_safe_filename`. The byte count encodes the name, and encoding a surrogate raises. */
  function Judge(p: Policy, name: Text): Verdict {
    if name == [] || name != p.normalize(name) || name == [DOT] || name == [DOT, DOT] then Unsafe
    else if SLASH in name || BACKSLASH in name then Unsafe
    else if name[0] in [DASH, DOT] || name[|name| - 1] in [SPACE, DOT] || |name| > MAX_FILENAME_CHARS then Unsafe
    else match Utf8(name)
      case None => Raises
      case Some(b) =>
        if |b| <= MAX_FILENAME_BYTES && forall c <- name :: Allowed(p, c) then Safe else Unsafe
  }

  /** Which names the policy accepts. */
  lemma SafeIff(p: Policy, name: Text)
    ensures Judge(p, name) == Safe <==>
            (&& 1 <= |name| <= MAX_FILENAME_CHARS && p.normalize(name) == name
             && name != T(".") && name != T("..")
             && (forall c <- name :: c != SLASH && c != BACKSLASH && Allowed(p, c))
             && name[0] != DASH && name[0] != DOT && name[|name| - 1] != SPACE && name[|name| - 1] != DOT
             && Utf8(name).Some? && |Utf8(name).value| <= MAX_FILENAME_BYTES)
  {
    hide Utf8, Allowed;
    assert T(".") == [DOT] && T("..") == [DOT, DOT];
  }

  /** `os.path.basename`: what follows the last slash. */
  function Basename(name: Text): (r: Text)
    ensures |r| <= |name| && r == name[|name| - |r|..]
    ensures SLASH !in r && (|r| < |name| ==> name[|name| - |r| - 1] == SLASH)
  {
    if name == [] || name[|name| - 1] == SLASH then []
    else Basename(name[..|name| - 1]) + [name[|name| - 1]]
  }

  lemma {:induction false} WithoutSlash(name: Text)
    requires SLASH !in name
    ensures Basename(name) == name
  {
    if name != [] {
      assert name[|name| - 1] in name;
      WithoutSlash(name[..|name| - 1]);
    }
  }

  /** A name the policy accepts is written under exactly that name. */
  lemma SafeNamesAreTheirOwnPath(p: Policy, name: Text)
    requires Judge(p, name).Safe?
    ensures p.normalize(Basename(name)) == name
  {
    hide Basename, Utf8;
    WithoutSlash(name);
  }
}
