/** The workspace contract: what the broker accepts (backend/app/sandbox_broker.py) and what the
    runner then writes into its working directory (sandbox/runner.py). */
module Workspace {
  import opened PyText
  import opened Filenames
  import opened Wrappers

  /** A Python dictionary of strings: insertion order, no key twice. */
  datatype Entry = Entry(name: Text, content: Text)
  type Dict = d: seq<Entry> | DistinctNames(d)

  predicate DistinctNames(d: seq<Entry>) {
    forall i, j | 0 <= i < j < |d| :: d[i].name != d[j].name
  }

  datatype Limits = Limits(fileCount: nat, fileBytes: nat, totalBytes: nat)

  function Names(d: seq<Entry>): set<Text> {
    set i | 0 <= i < |d| :: d[i].name
  }

  // ----- What the broker accepts -----

  /** The bytes an entry stands for; nothing when it cannot be encoded or decoded. */
  function Written(e: Entry): Bytes {
    if Utf8(e.content).Some? then Utf8(e.content).value else []
  }

  function Unpacked(e: Entry): Bytes {
    if Decode(e.content).Some? then Decode(e.content).value else []
  }

  /** Bytes of the first n text files, and of the first n decoded binary files. */
  function TextBytes(d: seq<Entry>, n: nat): nat
    requires n <= |d|
  {
    if n == 0 then 0 else TextBytes(d, n - 1) + |Written(d[n - 1])|
  }

  function BinaryBytes(d: seq<Entry>, n: nat): nat
    requires n <= |d|
  {
    if n == 0 then 0 else BinaryBytes(d, n - 1) + |Unpacked(d[n - 1])|
  }

  predicate TextFile(p: Policy, lim: Limits, e: Entry) {
    Judge(p, e.name).Safe? && Utf8(e.content).Some? && |Utf8(e.content).value| <= lim.fileBytes
  }

  predicate BinaryFile(p: Policy, lim: Limits, e: Entry) {
    Judge(p, e.name).Safe? && Decode(e.content).Some? && |Decode(e.content).value| <= lim.fileBytes
  }

  predicate AcceptedFiles(p: Policy, lim: Limits, files: Dict) {
    && |files| <= lim.fileCount
    && (forall i | 0 <= i < |files| :: TextFile(p, lim, files[i]))
    && TextBytes(files, |files|) <= lim.totalBytes
  }

  predicate AcceptedFilesB64(p: Policy, lim: Limits, files: Dict) {
    && |files| <= lim.fileCount
    && (forall i | 0 <= i < |files| :: BinaryFile(p, lim, files[i]))
    && BinaryBytes(files, |files|) <= lim.totalBytes
  }

  /** The request limits, stated on the bytes the files decode to. */
  predicate Accepted(p: Policy, lim: Limits, files: Dict, filesB64: Dict) {
    && AcceptedFiles(p, lim, files)
    && AcceptedFilesB64(p, lim, filesB64)
    && Names(files) !! Names(filesB64)
    && |files| + |filesB64| <= lim.fileCount
    && TextBytes(files, |files|) + BinaryBytes(filesB64, |filesB64|) <= lim.totalBytes
  }

  method ValidateFiles(p: Policy, lim: Limits, files: Dict) returns (ok: bool)
    ensures ok <==> AcceptedFiles(p, lim, files)
  {
    hide Utf8, Decode, Judge;
    if |files| > lim.fileCount {
      return false;
    }
    var total := 0;
    for k := 0 to |files|
      invariant forall i | 0 <= i < k :: TextFile(p, lim, files[i])
      invariant total == TextBytes(files, k)
    {
      if Judge(p, files[k].name) != Safe {
        return false;
      }
      var encoded := Utf8(files[k].content);
      if encoded.None? || |encoded.value| > lim.fileBytes {
        return false;
      }
      total := total + |encoded.value|;
    }
    ok := total <= lim.totalBytes;
  }

  method ValidateFilesB64(p: Policy, lim: Limits, files: Dict) returns (ok: bool)
    ensures ok <==> AcceptedFilesB64(p, lim, files)
  {
    hide Utf8, Decode, Judge;
    if |files| > lim.fileCount {
      return false;
    }
    var total := 0;
    for k := 0 to |files|
      invariant forall i | 0 <= i < k :: BinaryFile(p, lim, files[i])
      invariant total == BinaryBytes(files, k)
    {
      if Judge(p, files[k].name) != Safe {
        return false;
      }
      var decoded := Decode(files[k].content);
      if decoded.None? || |decoded.value| > lim.fileBytes {
        return false;
      }
      total := total + |decoded.value|;
    }
    ok := total <= lim.totalBytes;
  }

  lemma DisjointIffNoneShared(a: set<Text>, b: set<Text>)
    ensures a !! b <==> a * b == {}
  {
    if x :| x in a && x in b {
      assert x in a * b;
    }
  }

  /** The combined pass measures the binary files by `_decoded_b64_size`, without decoding them. */
  method ValidateCombined(p: Policy, lim: Limits, files: Dict, filesB64: Dict) returns (ok: bool)
    requires AcceptedFiles(p, lim, files) && AcceptedFilesB64(p, lim, filesB64)
    ensures ok <==> Accepted(p, lim, files, filesB64)
  {
    hide Utf8, Decode, Judge, DecodedSize;
    var duplicates := Names(files) * Names(filesB64);
    DisjointIffNoneShared(Names(files), Names(filesB64));
    if duplicates != {} || |files| + |filesB64| > lim.fileCount {
      return false;
    }
    var total := 0;
    for k := 0 to |files|
      invariant total == TextBytes(files, k)
    {
      assert TextFile(p, lim, files[k]);
      total := total + |Utf8(files[k].content).value|;
    }
    for k := 0 to |filesB64|
      invariant total == TextBytes(files, |files|) + BinaryBytes(filesB64, k)
    {
      assert BinaryFile(p, lim, filesB64[k]);
      DecodedSizeIsExact(filesB64[k].content);
      total := total + DecodedSize(filesB64[k].content);
    }
    ok := total <= lim.totalBytes;
  }

  method ValidateRequest(p: Policy, lim: Limits, files: Dict, filesB64: Dict) returns (ok: bool)
    ensures ok <==> Accepted(p, lim, files, filesB64)
  {
    ok := ValidateFiles(p, lim, files);
    if ok {
      ok := ValidateFilesB64(p, lim, filesB64);
      if ok {
        ok := ValidateCombined(p, lim, files, filesB64);
      }
    }
  }

  // ----- What the runner writes -----

  /** The working directory, and the names later kept out of the artifacts. */
  datatype Desk = Desk(work: map<Text, Bytes>, inputs: set<Text>)
  datatype Setup = Crashed | Ready(desk: Desk)

  /** A text that cannot be encoded leaves the file it had already opened empty. */
  function WriteText(p: Policy, d: Desk, e: Entry): Setup {
    var safe := p.normalize(Basename(e.name));
    match Judge(p, safe)
    case Raises => Crashed
    case Unsafe => Ready(d)
    case Safe =>
      Ready(Desk(d.work[safe := Written(e)], d.inputs + {safe}))
  }

  function WriteBinary(p: Policy, d: Desk, e: Entry): Setup {
    var safe := p.normalize(Basename(e.name));
    match Judge(p, safe)
    case Raises => Crashed
    case Unsafe => Ready(d)
    case Safe =>
      if safe in d.inputs || Decode(e.content).None? then Ready(d)
      else Ready(Desk(d.work[safe := Unpacked(e)], d.inputs + {safe}))
  }

  function WriteTexts(p: Policy, files: seq<Entry>, n: nat): Setup
    requires n <= |files|
  {
    if n == 0 then Ready(Desk(map[], {}))
    else match WriteTexts(p, files, n - 1)
      case Crashed => Crashed
      case Ready(d) => WriteText(p, d, files[n - 1])
  }

  function WriteBinaries(p: Policy, d: Desk, files: seq<Entry>, n: nat): Setup
    requires n <= |files|
  {
    if n == 0 then Ready(d)
    else match WriteBinaries(p, d, files, n - 1)
      case Crashed => Crashed
      case Ready(d') => WriteBinary(p, d', files[n - 1])
  }

  function Materialised(p: Policy, files: seq<Entry>, filesB64: seq<Entry>): Setup {
    match WriteTexts(p, files, |files|)
    case Crashed => Crashed
    case Ready(d) => WriteBinaries(p, d, filesB64, |filesB64|)
  }

  lemma {:induction false} CrashesStay(p: Policy, d: Desk, files: seq<Entry>, m: nat, n: nat)
    requires m <= n <= |files|
    ensures WriteTexts(p, files, m).Crashed? ==> WriteTexts(p, files, n).Crashed?
    ensures WriteBinaries(p, d, files, m).Crashed? ==> WriteBinaries(p, d, files, n).Crashed?
  {
    hide WriteText, WriteBinary;
    if m < n {
      CrashesStay(p, d, files, m, n - 1);
    }
  }

  lemma NoTexts(p: Policy, files: seq<Entry>)
    ensures WriteTexts(p, files, 0) == Ready(Desk(map[], {}))
  {
  }

  lemma NextText(p: Policy, files: seq<Entry>, n: nat)
    requires n < |files| && WriteTexts(p, files, n).Ready?
    ensures WriteTexts(p, files, n + 1) == WriteText(p, WriteTexts(p, files, n).desk, files[n])
  {
  }

  lemma NoBinaries(p: Policy, d: Desk, files: seq<Entry>)
    ensures WriteBinaries(p, d, files, 0) == Ready(d)
  {
  }

  lemma NextBinary(p: Policy, d: Desk, files: seq<Entry>, n: nat)
    requires n < |files| && WriteBinaries(p, d, files, n).Ready?
    ensures WriteBinaries(p, d, files, n + 1) == WriteBinary(p, WriteBinaries(p, d, files, n).desk, files[n])
  {
  }

  method WriteAllTexts(p: Policy, files: Dict) returns (r: Setup)
    ensures r == WriteTexts(p, files, |files|)
  {
    hide Basename, Utf8, Judge, DistinctNames, WriteTexts;
    var work: map<Text, Bytes>, inputs: set<Text> := map[], {};
    assert WriteTexts(p, files, 0) == Ready(Desk(work, inputs)) by {
      NoTexts(p, files);
    }
    for k := 0 to |files|
      invariant WriteTexts(p, files, k) == Ready(Desk(work, inputs))
    {
      ghost var before := Desk(work, inputs);
      var safe := p.normalize(Basename(files[k].name));
      var verdict := Judge(p, safe);
      if verdict == Raises {
        assert WriteText(p, before, files[k]) == Crashed;
        NextText(p, files, k);
        CrashesStay(p, before, files, k + 1, |files|);
        return Crashed;
      }
      if verdict == Safe {
        inputs := inputs + {safe};
        var encoded := Utf8(files[k].content);
        work := work[safe := if encoded.Some? then encoded.value else []];
      }
      assert WriteText(p, before, files[k]) == Ready(Desk(work, inputs));
      NextText(p, files, k);
    }
    r := Ready(Desk(work, inputs));
  }

  method WriteAllBinaries(p: Policy, d: Desk, filesB64: Dict) returns (r: Setup)
    ensures r == WriteBinaries(p, d, filesB64, |filesB64|)
  {
    hide Basename, Decode, Judge, DistinctNames, WriteBinaries;
    assert WriteBinaries(p, d, filesB64, 0) == Ready(d) by {
      NoBinaries(p, d, filesB64);
    }
    var work, inputs := d.work, d.inputs;
    for k := 0 to |filesB64|
      invariant WriteBinaries(p, d, filesB64, k) == Ready(Desk(work, inputs))
    {
      ghost var before := Desk(work, inputs);
      var safe := p.normalize(Basename(filesB64[k].name));
      var verdict := Judge(p, safe);
      if verdict == Raises {
        assert WriteBinary(p, before, filesB64[k]) == Crashed;
        NextBinary(p, d, filesB64, k);
        CrashesStay(p, d, filesB64, k + 1, |filesB64|);
        return Crashed;
      }
      if verdict == Safe && safe !in inputs {
        var decoded := Decode(filesB64[k].content);
        if decoded.Some? {
          inputs := inputs + {safe};
          work := work[safe := decoded.value];
        }
      }
      assert WriteBinary(p, before, filesB64[k]) == Ready(Desk(work, inputs));
      NextBinary(p, d, filesB64, k);
    }
    r := Ready(Desk(work, inputs));
  }

  method Materialise(p: Policy, files: Dict, filesB64: Dict) returns (r: Setup)
    ensures r == Materialised(p, files, filesB64)
  {
    r := WriteAllTexts(p, files);
    if r.Ready? {
      r := WriteAllBinaries(p, r.desk, filesB64);
    }
  }

  // ----- The two sides agree -----

  /** The bytes of a directory, whatever the order in which its files are counted. */
  ghost function DirectoryBytes(work: map<Text, Bytes>): nat
    decreases |work.Keys|
  {
    if work.Keys == {} then 0
    else
      var name :| name in work.Keys;
      assert (work - {name}).Keys == work.Keys - {name};
      |work[name]| + DirectoryBytes(work - {name})
  }

  lemma {:induction false} AnyOrder(work: map<Text, Bytes>, name: Text)
    requires name in work
    ensures DirectoryBytes(work) == |work[name]| + DirectoryBytes(work - {name})
    decreases |work.Keys|
  {
    var first :| first in work.Keys && DirectoryBytes(work) == |work[first]| + DirectoryBytes(work - {first});
    if first != name {
      var a, b := work - {first}, work - {name};
      assert a.Keys == work.Keys - {first} && b.Keys == work.Keys - {name};
      assert a - {name} == b - {first};
      AnyOrder(a, name);
      AnyOrder(b, first);
    }
  }

  lemma AddFile(work: map<Text, Bytes>, name: Text, content: Bytes)
    requires name !in work
    ensures DirectoryBytes(work[name := content]) == DirectoryBytes(work) + |content|
  {
    AnyOrder(work[name := content], name);
    assert work[name := content] - {name} == work;
  }

  /** The directory holds the first m text files and the first n binary files, and nothing else. */
  ghost predicate Holds(d: Desk, files: seq<Entry>, m: nat, filesB64: seq<Entry>, n: nat)
    requires m <= |files| && n <= |filesB64|
  {
    && d.work.Keys == d.inputs == FirstNames(files, m) + FirstNames(filesB64, n)
    && Carries(Written, d.work, files, m) && Carries(Unpacked, d.work, filesB64, n)
  }

  /** The directory holds the first n entries, each with its bytes. */
  ghost predicate Carries(bytesOf: Entry -> Bytes, work: map<Text, Bytes>, d: seq<Entry>, n: nat)
    requires n <= |d|
  {
    n > 0 ==>
      && d[n - 1].name in work && work[d[n - 1].name] == bytesOf(d[n - 1])
      && Carries(bytesOf, work, d, n - 1)
  }

  lemma {:induction false} CarriesAll(bytesOf: Entry -> Bytes, work: map<Text, Bytes>, d: seq<Entry>, n: nat)
    requires n <= |d| && Carries(bytesOf, work, d, n)
    ensures forall i | 0 <= i < n :: d[i].name in work && work[d[i].name] == bytesOf(d[i])
  {
    if n > 0 {
      CarriesAll(bytesOf, work, d, n - 1);
    }
  }

  lemma {:induction false} StillCarries(bytesOf: Entry -> Bytes, work: map<Text, Bytes>, d: seq<Entry>, n: nat, name: Text, content: Bytes)
    requires n <= |d| && Carries(bytesOf, work, d, n) && name !in work
    ensures Carries(bytesOf, work[name := content], d, n)
  {
    if n > 0 {
      StillCarries(bytesOf, work, d, n - 1, name, content);
    }
  }

  ghost function FirstNames(d: seq<Entry>, n: nat): set<Text>
    requires n <= |d|
  {
    if n == 0 then {} else FirstNames(d, n - 1) + {d[n - 1].name}
  }

  lemma {:induction false} FirstNamesAre(d: seq<Entry>, n: nat)
    requires n <= |d|
    ensures FirstNames(d, n) == set i | 0 <= i < n :: d[i].name
  {
    if n > 0 {
      FirstNamesAre(d, n - 1);
    }
  }

  lemma {:induction false} CountOfNames(d: Dict, n: nat)
    requires n <= |d|
    ensures |FirstNames(d, n)| == n
  {
    if n > 0 {
      CountOfNames(d, n - 1);
      NextNameIsFresh(d, n - 1);
    }
  }

  lemma NextNameIsFresh(d: Dict, n: nat)
    requires n < |d|
    ensures d[n].name !in FirstNames(d, n) && FirstNames(d, n) <= Names(d)
  {
    FirstNamesAre(d, n);
  }

  ghost predicate Wrote(r: Setup, files: seq<Entry>, m: nat, filesB64: seq<Entry>, n: nat, bytes: nat)
    requires m <= |files| && n <= |filesB64|
  {
    && r.Ready? && Holds(r.desk, files, m, filesB64, n)
    && DirectoryBytes(r.desk.work) == bytes
  }

  lemma NothingWritten(files: seq<Entry>)
    ensures Wrote(Ready(Desk(map[], {})), files, 0, [], 0, 0)
  {
  }

  /** A safe name not yet taken is written as it stands, on either channel. */
  lemma Lands(p: Policy, d: Desk, e: Entry)
    requires Judge(p, e.name).Safe? && e.name !in d.inputs
    ensures WriteText(p, d, e) == Ready(Desk(d.work[e.name := Written(e)], d.inputs + {e.name}))
    ensures Decode(e.content).Some?
            ==> WriteBinary(p, d, e) == Ready(Desk(d.work[e.name := Unpacked(e)], d.inputs + {e.name}))
  {
    SafeNamesAreTheirOwnPath(p, e.name);
    hide Basename, Judge, Utf8, Decode;
  }

  lemma KeysGrow(w: map<Text, Bytes>, x: set<Text>, a: set<Text>, b: set<Text>, name: Text, content: Bytes)
    requires w.Keys == x == a + b
    ensures w[name := content].Keys == x + {name} == a + (b + {name})
  {
  }

  lemma StoreText(d: Desk, files: seq<Entry>, n: nat, bytes: nat)
    requires n < |files| && files[n].name !in FirstNames(files, n)
    requires Wrote(Ready(d), files, n, [], 0, bytes)
    ensures files[n].name !in d.inputs
    ensures var e := files[n];
            Wrote(Ready(Desk(d.work[e.name := Written(e)], d.inputs + {e.name})),
                  files, n + 1, [], 0, bytes + |Written(e)|)
  {
    hide Written, Unpacked, DirectoryBytes;
    var e := files[n];
    AddFile(d.work, e.name, Written(e));
    StillCarries(Written, d.work, files, n, e.name, Written(e));
    var w, x := d.work[e.name := Written(e)], d.inputs + {e.name};
    assert x == FirstNames(files, n + 1) + FirstNames([], 0);
    assert Carries(Written, w, files, n + 1);
    assert Carries(Unpacked, w, [], 0);
    hide FirstNames, Carries;
    assert w.Keys == x;
    assert Holds(Desk(w, x), files, n + 1, [], 0);
    hide Holds;
  }

  lemma StoreBinary(d: Desk, files: seq<Entry>, filesB64: seq<Entry>, n: nat, bytes: nat)
    requires n < |filesB64| && filesB64[n].name !in FirstNames(files, |files|) + FirstNames(filesB64, n)
    requires Wrote(Ready(d), files, |files|, filesB64, n, bytes)
    ensures filesB64[n].name !in d.inputs
    ensures var e := filesB64[n];
            Wrote(Ready(Desk(d.work[e.name := Unpacked(e)], d.inputs + {e.name})),
                  files, |files|, filesB64, n + 1, bytes + |Unpacked(e)|)
  {
    hide Written, Unpacked, DirectoryBytes, TextBytes, BinaryBytes, Utf8, Decode;
    var e := filesB64[n];
    AddFile(d.work, e.name, Unpacked(e));
    hide DirectoryBytes;
    StillCarries(Written, d.work, files, |files|, e.name, Unpacked(e));
    StillCarries(Unpacked, d.work, filesB64, n, e.name, Unpacked(e));
    KeysGrow(d.work, d.inputs, FirstNames(files, |files|), FirstNames(filesB64, n), e.name, Unpacked(e));
    var w, x := d.work[e.name := Unpacked(e)], d.inputs + {e.name};
    assert x == FirstNames(files, |files|) + FirstNames(filesB64, n + 1);
    assert Carries(Written, w, files, |files|);
    assert Carries(Unpacked, w, filesB64, n + 1);
    hide FirstNames, Carries;
    assert w.Keys == x;
    assert Holds(Desk(w, x), files, |files|, filesB64, n + 1);
    hide Holds;
  }

  lemma TextStep(p: Policy, lim: Limits, d: Desk, files: Dict, n: nat, bytes: nat)
    requires n < |files| && TextFile(p, lim, files[n])
    requires Wrote(Ready(d), files, n, [], 0, bytes)
    ensures Wrote(WriteText(p, d, files[n]), files, n + 1, [], 0, bytes + |Written(files[n])|)
  {
    hide Wrote, Written, Judge, WriteText;
    NextNameIsFresh(files, n);
    StoreText(d, files, n, bytes);
    Lands(p, d, files[n]);
  }

  lemma BinaryStep(p: Policy, lim: Limits, d: Desk, files: Dict, filesB64: Dict, n: nat, bytes: nat)
    requires n < |filesB64| && BinaryFile(p, lim, filesB64[n]) && filesB64[n].name !in FirstNames(files, |files|)
    requires Wrote(Ready(d), files, |files|, filesB64, n, bytes)
    ensures Wrote(WriteBinary(p, d, filesB64[n]), files, |files|, filesB64, n + 1, bytes + |Unpacked(filesB64[n])|)
  {
    hide Wrote, Unpacked, Judge, WriteBinary;
    NextNameIsFresh(filesB64, n);
    StoreBinary(d, files, filesB64, n, bytes);
    Lands(p, d, filesB64[n]);
  }

  lemma {:induction false} TextsWritten(p: Policy, lim: Limits, files: Dict, n: nat)
    requires n <= |files| && forall i | 0 <= i < |files| :: TextFile(p, lim, files[i])
    ensures Wrote(WriteTexts(p, files, n), files, n, [], 0, TextBytes(files, n))
  {
    hide Utf8, Decode, Basename, Judge, WriteText, Holds;
    if n == 0 {
      NothingWritten(files);
    } else {
      TextsWritten(p, lim, files, n - 1);
      TextStep(p, lim, WriteTexts(p, files, n - 1).desk, files, n - 1, TextBytes(files, n - 1));
    }
  }

  lemma {:induction false} BinariesWritten(p: Policy, lim: Limits, d: Desk, files: Dict, filesB64: Dict, n: nat, bytes: nat)
    requires n <= |filesB64| && forall i | 0 <= i < |filesB64| :: BinaryFile(p, lim, filesB64[i])
    requires Names(files) !! Names(filesB64) && Wrote(Ready(d), files, |files|, filesB64, 0, bytes)
    ensures Wrote(WriteBinaries(p, d, filesB64, n), files, |files|, filesB64, n, bytes + BinaryBytes(filesB64, n))
  {
    hide Utf8, Decode, Basename, Judge, WriteBinary, Holds;
    if n > 0 {
      BinariesWritten(p, lim, d, files, filesB64, n - 1, bytes);
      assert filesB64[n - 1].name in Names(filesB64);
      FirstNamesAre(files, |files|);
      BinaryStep(p, lim, WriteBinaries(p, d, filesB64, n - 1).desk, files, filesB64, n - 1,
                 bytes + BinaryBytes(filesB64, n - 1));
    }
  }

  lemma FilesFound(p: Policy, lim: Limits, d: Desk, files: Dict, filesB64: Dict, bytes: nat)
    requires (forall i | 0 <= i < |files| :: TextFile(p, lim, files[i]))
    requires (forall i | 0 <= i < |filesB64| :: BinaryFile(p, lim, filesB64[i]))
    requires Names(files) !! Names(filesB64) && Wrote(Ready(d), files, |files|, filesB64, |filesB64|, bytes)
    ensures d.work.Keys == d.inputs == Names(files) + Names(filesB64)
    ensures |d.work| == |files| + |filesB64|
    ensures forall i | 0 <= i < |files| ::
              files[i].name in d.work && Utf8(files[i].content) == Some(d.work[files[i].name])
    ensures forall i | 0 <= i < |filesB64| ::
              filesB64[i].name in d.work && Decode(filesB64[i].content) == Some(d.work[filesB64[i].name])
  {
    hide Utf8, Decode, Judge, DirectoryBytes;
    var m, n := |files|, |filesB64|;
    FirstNamesAre(files, m);
    FirstNamesAre(filesB64, n);
    CountOfNames(files, m);
    CountOfNames(filesB64, n);
    CarriesAll(Written, d.work, files, m);
    CarriesAll(Unpacked, d.work, filesB64, n);
    assert |d.work| == |d.work.Keys|;
    assert forall i | 0 <= i < m :: TextFile(p, lim, files[i]) && Written(files[i]) == d.work[files[i].name];
    assert forall i | 0 <= i < n :: BinaryFile(p, lim, filesB64[i]) && Unpacked(filesB64[i]) == d.work[filesB64[i].name];
  }

  /** For every request the broker accepts the runner's directory is the text files encoded, the
      binary files decoded, one file for each entry and none besides, within the byte limit;
      exactly those names are kept out of the artifacts. */
  lemma WorkspaceIsTheRequest(p: Policy, lim: Limits, files: Dict, filesB64: Dict)
    requires Accepted(p, lim, files, filesB64)
    ensures Materialised(p, files, filesB64).Ready?
    ensures var d := Materialised(p, files, filesB64).desk;
            && d.work.Keys == d.inputs == Names(files) + Names(filesB64)
            && (forall i | 0 <= i < |files| :: Utf8(files[i].content) == Some(d.work[files[i].name]))
            && (forall i | 0 <= i < |filesB64| :: Decode(filesB64[i].content) == Some(d.work[filesB64[i].name]))
            && |d.work| == |files| + |filesB64| <= lim.fileCount
            && DirectoryBytes(d.work) <= lim.totalBytes
  {
    hide Utf8, Decode, Judge, Names, DirectoryBytes, Written, Unpacked, WriteTexts, WriteBinaries, TextBytes, BinaryBytes;
    var m, n := |files|, |filesB64|;
    TextsWritten(p, lim, files, m);
    var t := WriteTexts(p, files, m).desk;
    assert Wrote(Ready(t), files, m, filesB64, 0, TextBytes(files, m));
    BinariesWritten(p, lim, t, files, filesB64, n, TextBytes(files, m));
    var d := WriteBinaries(p, t, filesB64, n).desk;
    FilesFound(p, lim, d, files, filesB64, TextBytes(files, m) + BinaryBytes(filesB64, n));
  }

  // ----- Any payload -----

  /** The safe name an entry is written under. */
  predicate WrittenAs(p: Policy, e: Entry, name: Text) {
    p.normalize(Basename(e.name)) == name && Judge(p, name).Safe?
  }

  predicate NameRaises(p: Policy, e: Entry) {
    Judge(p, p.normalize(Basename(e.name))).Raises?
  }

  lemma TextCases(p: Policy, d: Desk, e: Entry, safe: Text)
    requires safe == p.normalize(Basename(e.name))
    ensures Judge(p, safe).Raises? ==> WriteText(p, d, e) == Crashed
    ensures Judge(p, safe).Unsafe? ==> WriteText(p, d, e) == Ready(d)
    ensures Judge(p, safe).Safe? ==> WriteText(p, d, e) == Ready(Desk(d.work[safe := Written(e)], d.inputs + {safe}))
  {
    hide Judge, Basename, Written;
  }

  lemma TextEffect(p: Policy, d: Desk, e: Entry, name: Text)
    ensures WriteText(p, d, e).Crashed? <==> NameRaises(p, e)
    ensures WriteText(p, d, e).Ready? ==>
              var f := WriteText(p, d, e).desk;
              && (name in f.inputs <==> name in d.inputs || WrittenAs(p, e, name))
              && (name in f.work <==> name in d.work || WrittenAs(p, e, name))
              && (name in f.work ==> f.work[name] == if WrittenAs(p, e, name) then Written(e) else d.work[name])
  {
    hide Judge, Basename, Written, WriteText;
    var safe := p.normalize(Basename(e.name));
    TextCases(p, d, e, safe);
    if Judge(p, safe).Safe? {
      Put(d.work, d.inputs, safe, Written(e), name);
    }
  }

  /** The last of the first n text files written under this name. */
  predicate Last(p: Policy, files: seq<Entry>, n: nat, i: nat, name: Text)
    requires i < n <= |files|
  {
    WrittenAs(p, files[i], name) && forall j | i < j < n :: !WrittenAs(p, files[j], name)
  }

  /** Of any payload, accepted or not, each text file with a safe name is there, and of those with the same name
      the last one. */
  lemma {:induction false} LastTextWins(p: Policy, files: seq<Entry>, n: nat, name: Text)
    requires n <= |files|
    ensures WriteTexts(p, files, n).Crashed? <==> exists i | 0 <= i < n :: NameRaises(p, files[i])
    ensures WriteTexts(p, files, n).Ready? ==>
              var d := WriteTexts(p, files, n).desk;
              && (name in d.inputs <==> name in d.work)
              && (name in d.work <==> exists i | 0 <= i < n :: WrittenAs(p, files[i], name))
              && forall i | 0 <= i < n && Last(p, files, n, i, name) :: name in d.work && d.work[name] == Written(files[i])
  {
    hide Judge, Basename, Written, WriteText, WrittenAs, NameRaises;
    if n > 0 {
      LastTextWins(p, files, n - 1, name);
      if WriteTexts(p, files, n - 1).Ready? {
        TextEffect(p, WriteTexts(p, files, n - 1).desk, files[n - 1], name);
        forall i | 0 <= i < n && Last(p, files, n, i, name) ensures i == n - 1 || Last(p, files, n - 1, i, name) {
        }
      }
    }
  }

  /** The binary file is written under this name if the name is not taken. */
  predicate UnpackedAs(p: Policy, e: Entry, name: Text) {
    WrittenAs(p, e, name) && Decode(e.content).Some?
  }

  lemma BinaryEffect(p: Policy, d: Desk, e: Entry, name: Text)
    ensures WriteBinary(p, d, e).Crashed? <==> NameRaises(p, e)
    ensures WriteBinary(p, d, e).Ready? ==>
              var f := WriteBinary(p, d, e).desk;
              && (name in f.inputs <==> name in d.inputs || UnpackedAs(p, e, name))
              && (name in d.inputs || !UnpackedAs(p, e, name) ==>
                    (name in f.work <==> name in d.work) && (name in d.work ==> f.work[name] == d.work[name]))
              && (name !in d.inputs && UnpackedAs(p, e, name) ==>
                    name in f.work && Some(f.work[name]) == Decode(e.content))
  {
    hide Judge, Basename, Decode;
    var safe := p.normalize(Basename(e.name));
    if Judge(p, safe).Safe? && safe !in d.inputs && Decode(e.content).Some? {
      Put(d.work, d.inputs, safe, Unpacked(e), name);
    }
  }

  lemma Put(work: map<Text, Bytes>, inputs: set<Text>, safe: Text, c: Bytes, name: Text)
    ensures var w := work[safe := c];
      && (name == safe ==> name in w && w[name] == c)
      && (name != safe ==> (name in w <==> name in work) && (name in work ==> w[name] == work[name]))
      && (name in inputs + {safe} <==> name in inputs || name == safe)
  {
  }

  /** No binary file replaces a text file, and of the binary files with the same safe name and a decodable content
      the first one is there. */
  lemma {:induction false} FirstBinaryWins(p: Policy, d: Desk, files: seq<Entry>, n: nat, name: Text)
    requires n <= |files|
    ensures WriteBinaries(p, d, files, n).Crashed? <==> exists i | 0 <= i < n :: NameRaises(p, files[i])
    ensures WriteBinaries(p, d, files, n).Ready? ==>
              var f := WriteBinaries(p, d, files, n).desk;
              && (name in f.inputs <==> name in d.inputs || exists i | 0 <= i < n :: UnpackedAs(p, files[i], name))
              && (name in d.inputs ==> (name in f.work <==> name in d.work) && (name in d.work ==> f.work[name] == d.work[name]))
              && (name !in d.inputs ==> forall i | 0 <= i < n && First(p, files, i, name) ::
                    name in f.work && Some(f.work[name]) == Decode(files[i].content))
  {
    hide Judge, Basename, Decode, WriteBinary, NameRaises, UnpackedAs;
    if n > 0 {
      FirstBinaryWins(p, d, files, n - 1, name);
      if WriteBinaries(p, d, files, n - 1).Ready? {
        BinaryEffect(p, WriteBinaries(p, d, files, n - 1).desk, files[n - 1], name);
      }
    }
  }

  predicate First(p: Policy, files: seq<Entry>, i: nat, name: Text)
    requires i < |files|
  {
    UnpackedAs(p, files[i], name) && forall j | 0 <= j < i :: !UnpackedAs(p, files[j], name)
  }
}
