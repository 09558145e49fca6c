/** The merged activity list: five audit tables, each cut to the limit by its own query, then one
    stable sort and one more cut (`list_activity` in backend/app/api/admin_agents.py). */
module Activity {
  import opened Sets
  import opened Wrappers

  datatype Source = Agent | Tool | Knowledge | Governance | Runtime

  /** `status` is the run status, used only by runtime events. */
  datatype Event = Event(source: Source, id: nat, at: int, status: string)

  /** The `source` argument once trimmed and lower-cased. */
  datatype SourceArg = Any | Named(source: Source) | Unknown

  type Tables = Source -> set<Event>

  /** `status` is trimmed and lower-cased, "" when absent; `since` the instant the window opens. */
  datatype Query = Query(limit: nat, source: SourceArg, status: string, since: Option<int>)

  const SOURCES: seq<Source> := [Agent, Tool, Knowledge, Governance, Runtime]

  ghost predicate Owned(t: Tables) {
    forall s: Source, e: Event :: e in t(s) ==> e.source == s
  }

  /** A run status asks for runtime events whatever the source said. */
  predicate Asks(q: Query, s: Source) {
    if q.status != "" then s == Runtime else q.source == Any || q.source == Named(s)
  }

  function Matching(t: Tables, q: Query, s: Source): set<Event> {
    if !Asks(q, s) then {}
    else set e | e in t(s) && (q.since.None? || e.at >= q.since.value)
                 && (s != Runtime || q.status == "" || e.status == q.status)
  }

  predicate Descending(s: seq<Event>) {
    forall i, j | 0 <= i < j < |s| :: s[i].at >= s[j].at
  }

  predicate NoRepeats(s: seq<Event>) {
    forall i, j | 0 <= i < j < |s| :: s[i] != s[j]
  }

  /** An answer the database may give to ORDER BY created_at DESC LIMIT n: ties fall anyhow. */
  predicate TopOf(rows: set<Event>, limit: nat, answer: seq<Event>) {
    && NoRepeats(answer) && Descending(answer)
    && (forall e <- answer :: e in rows)
    && |answer| == (if |rows| <= limit then |rows| else limit)
    && (forall e | e in rows && e !in answer :: forall a <- answer :: a.at >= e.at)
  }

  // ----- Stable sort, newest first -----

  /** After everything at least as new. */
  function Insert(s: seq<Event>, e: Event): (r: seq<Event>)
    ensures |r| == |s| + 1 && multiset(r) == multiset(s) + multiset{e}
  {
    if s == [] || s[|s| - 1].at >= e.at then s + [e]
    else
      var init, last := s[..|s| - 1], s[|s| - 1];
      assert s == init + [last];
      Insert(init, e) + [last]
  }

  function Sorted(s: seq<Event>): (r: seq<Event>)
    ensures |r| == |s| && multiset(r) == multiset(s)
  {
    if s == [] then []
    else
      var init, last := s[..|s| - 1], s[|s| - 1];
      assert s == init + [last];
      Insert(Sorted(init), last)
  }

  lemma {:induction false} InsertKeepsOrder(s: seq<Event>, e: Event)
    requires Descending(s)
    ensures Descending(Insert(s, e))
    ensures forall x <- Insert(s, e) :: x == e || x in s
  {
    if s != [] && s[|s| - 1].at < e.at {
      var init, last := s[..|s| - 1], s[|s| - 1];
      InsertKeepsOrder(init, e);
      var r := Insert(init, e);
      forall i | 0 <= i < |r| ensures r[i].at >= last.at {
        assert r[i] == e || r[i] in init;
      }
    }
  }

  lemma {:induction false} SortedIsDescending(s: seq<Event>)
    ensures Descending(Sorted(s))
  {
    if s != [] {
      SortedIsDescending(s[..|s| - 1]);
      InsertKeepsOrder(Sorted(s[..|s| - 1]), s[|s| - 1]);
    }
  }

  /** The events of one instant, in their order. */
  function AtInstant(s: seq<Event>, t: int): seq<Event> {
    if s == [] then []
    else AtInstant(s[..|s| - 1], t) + if s[|s| - 1].at == t then [s[|s| - 1]] else []
  }

  function IfAt(e: Event, t: int): seq<Event> {
    if e.at == t then [e] else []
  }

  lemma AtInstantOfLast(s: seq<Event>, e: Event, t: int)
    ensures AtInstant(s + [e], t) == AtInstant(s, t) + IfAt(e, t)
  {
    assert (s + [e])[..|s|] == s;
  }

  lemma {:induction false} InsertIsStable(s: seq<Event>, e: Event, t: int)
    requires Descending(s)
    ensures AtInstant(Insert(s, e), t) == AtInstant(s, t) + IfAt(e, t)
  {
    hide AtInstant;
    if s == [] || s[|s| - 1].at >= e.at {
      AtInstantOfLast(s, e, t);
    } else {
      var init, last := s[..|s| - 1], s[|s| - 1];
      assert s == init + [last];
      InsertIsStable(init, e, t);
      AtInstantOfLast(init, last, t);
      AtInstantOfLast(Insert(init, e), last, t);
      assert IfAt(e, t) == [] || IfAt(last, t) == [];
    }
  }

  /** Events of the same instant keep the order of the sources. */
  lemma {:induction false} SortIsStable(s: seq<Event>, t: int)
    ensures AtInstant(Sorted(s), t) == AtInstant(s, t)
  {
    if s != [] {
      var init, last := s[..|s| - 1], s[|s| - 1];
      SortIsStable(init, t);
      SortedIsDescending(init);
      InsertIsStable(Sorted(init), last, t);
    }
  }

  // ----- The endpoint -----

  /** `events[:limit]` */
  function Cut(s: seq<Event>, limit: nat): seq<Event> {
    if |s| <= limit then s else s[..limit]
  }

  /** What is reported; None is the refusal of an unknown source. */
  function Listed(answers: Source -> seq<Event>, q: Query): Option<seq<Event>> {
    if q.source == Unknown then None
    else
      Some(Cut(Sorted(Gathered(answers, q, |SOURCES|)), q.limit))
  }

  function Gathered(answers: Source -> seq<Event>, q: Query, n: nat): seq<Event>
    requires n <= |SOURCES|
  {
    if n == 0 then []
    else Gathered(answers, q, n - 1) + if Asks(q, SOURCES[n - 1]) then answers(SOURCES[n - 1]) else []
  }

  method ListActivity(answers: Source -> seq<Event>, q: Query) returns (items: Option<seq<Event>>)
    ensures items == Listed(answers, q)
  {
    if q.source == Unknown {
      return None;
    }
    var events: seq<Event> := [];
    for k := 0 to |SOURCES|
      invariant events == Gathered(answers, q, k)
    {
      if Asks(q, SOURCES[k]) {
        events := events + answers(SOURCES[k]);
      }
    }
    events := Sorted(events);
    items := Some(if |events| <= q.limit then events else events[..q.limit]);
  }

  // ----- A true top k -----

  function AllMatching(t: Tables, q: Query, n: nat): set<Event>
    requires n <= |SOURCES|
  {
    if n == 0 then {} else AllMatching(t, q, n - 1) + Matching(t, q, SOURCES[n - 1])
  }

  ghost predicate Answered(t: Tables, q: Query, answers: Source -> seq<Event>) {
    forall s: Source :: TopOf(Matching(t, q, s), q.limit, answers(s))
  }

  lemma {:induction false} CountOf(s: seq<Event>)
    requires NoRepeats(s)
    ensures |set e | e in s| == |s|
  {
    if s != [] {
      var init, last := s[..|s| - 1], s[|s| - 1];
      CountOf(init);
      assert (set e | e in s) == (set e | e in init) + {last};
    }
  }

  /** A query that left an event out filled its limit with events at least as new. */
  lemma OmittedMeansFull(rows: set<Event>, limit: nat, answer: seq<Event>, e: Event)
    requires TopOf(rows, limit, answer) && e in rows && e !in answer
    ensures |answer| == limit && forall a <- answer :: a.at >= e.at
  {
    var got := set a | a in answer;
    CountOf(answer);
    assert got + {e} <= rows;
    SubsetSize(got + {e}, rows);
  }

  function CountSince(s: seq<Event>, t: int): nat {
    if s == [] then 0 else CountSince(s[..|s| - 1], t) + if s[|s| - 1].at >= t then 1 else 0
  }

  lemma {:induction false} CountSinceBounds(s: seq<Event>, t: int)
    ensures CountSince(s, t) <= |s|
    ensures (forall e <- s :: e.at >= t) ==> CountSince(s, t) == |s|
    ensures Descending(s) ==> forall i | 0 <= i < CountSince(s, t) :: s[i].at >= t
  {
    if s != [] {
      CountSinceBounds(s[..|s| - 1], t);
    }
  }

  lemma {:induction false} CountSinceOfSum(a: seq<Event>, b: seq<Event>, t: int)
    ensures CountSince(a + b, t) == CountSince(a, t) + CountSince(b, t)
  {
    if b == [] {
      assert a + b == a;
    } else {
      CountSinceOfSum(a, b[..|b| - 1], t);
      assert (a + b)[..|a + b| - 1] == a + b[..|b| - 1];
    }
  }

  lemma {:induction false} CountSinceOfInsert(s: seq<Event>, e: Event, t: int)
    ensures CountSince(Insert(s, e), t) == CountSince(s, t) + if e.at >= t then 1 else 0
  {
    if s == [] || s[|s| - 1].at >= e.at {
      assert (s + [e])[..|s|] == s;
    } else {
      CountSinceOfInsert(s[..|s| - 1], e, t);
      var r := Insert(s[..|s| - 1], e);
      assert (r + [s[|s| - 1]])[..|r|] == r;
    }
  }

  lemma {:induction false} CountSinceOfSorted(s: seq<Event>, t: int)
    ensures CountSince(Sorted(s), t) == CountSince(s, t)
  {
    if s != [] {
      CountSinceOfSorted(s[..|s| - 1], t);
      CountSinceOfInsert(Sorted(s[..|s| - 1]), s[|s| - 1], t);
    }
  }

  lemma {:induction false} NoRepeatsIff(s: seq<Event>)
    ensures NoRepeats(s) <==> forall e :: multiset(s)[e] <= 1
  {
    if s != [] {
      var init, last := s[..|s| - 1], s[|s| - 1];
      assert s == init + [last];
      NoRepeatsIff(init);
      assert last in init <==> multiset(init)[last] >= 1;
      if NoRepeats(s) {
        assert NoRepeats(init);
        assert last !in init;
      } else if NoRepeats(init) {
        assert last in init;
        assert multiset(s)[last] >= 2;
      } else {
        var e :| multiset(init)[e] > 1;
        assert multiset(s)[e] > 1;
      }
    }
  }

  lemma {:induction false} MatchingSources(t: Tables, q: Query, n: nat)
    requires Owned(t) && n <= |SOURCES|
    ensures forall e | e in AllMatching(t, q, n) :: e.source in SOURCES[..n]
  {
    if n > 0 {
      MatchingSources(t, q, n - 1);
      assert SOURCES[..n] == SOURCES[..n - 1] + [SOURCES[n - 1]];
    }
  }

  lemma SourcesDiffer(n: nat)
    requires n < |SOURCES|
    ensures SOURCES[n] !in SOURCES[..n]
  {
  }

  lemma NewSourceIsDisjoint(t: Tables, q: Query, n: nat)
    requires Owned(t) && n < |SOURCES|
    ensures AllMatching(t, q, n) !! Matching(t, q, SOURCES[n])
  {
    MatchingSources(t, q, n);
    SourcesDiffer(n);
    hide AllMatching;
    forall e | e in Matching(t, q, SOURCES[n]) ensures e !in AllMatching(t, q, n) {
      assert e.source == SOURCES[n];
    }
  }

  lemma AnswerIsTop(t: Tables, q: Query, answers: Source -> seq<Event>, s: Source)
    requires Answered(t, q, answers)
    ensures TopOf(Matching(t, q, s), q.limit, if Asks(q, s) then answers(s) else [])
  {
    assert TopOf(Matching(t, q, s), q.limit, answers(s));
  }

  /** Distinct matching events, as many as could be needed, and for every event left out by its
      query a full limit of events at least as new. */
  predicate Enough(g: seq<Event>, all: set<Event>, limit: nat) {
    && NoRepeats(g) && (forall e <- g :: e in all)
    && |g| <= |all| && (|g| >= limit || |g| == |all|)
    && (forall e | e in all && e !in g :: CountSince(g, e.at) >= limit)
  }

  lemma {:induction false} GatheredEnough(t: Tables, q: Query, answers: Source -> seq<Event>, n: nat)
    requires Owned(t) && Answered(t, q, answers) && n <= |SOURCES|
    ensures Enough(Gathered(answers, q, n), AllMatching(t, q, n), q.limit)
  {
    hide Owned, Answered, TopOf, Matching, Enough;
    if n == 0 {
      NothingGathered(q.limit);
    } else {
      GatheredEnough(t, q, answers, n - 1);
      NewSourceIsDisjoint(t, q, n - 1);
      var src := SOURCES[n - 1];
      var rows, a := Matching(t, q, src), if Asks(q, src) then answers(src) else [];
      AnswerIsTop(t, q, answers, src);
      GatherOne(Gathered(answers, q, n - 1), AllMatching(t, q, n - 1), rows, a, q.limit);
    }
  }

  lemma NothingGathered(limit: nat)
    ensures Enough([], {}, limit)
  {
  }

  lemma GatherOne(g: seq<Event>, all: set<Event>, rows: set<Event>, a: seq<Event>, limit: nat)
    requires Enough(g, all, limit) && all !! rows && TopOf(rows, limit, a)
    ensures Enough(g + a, all + rows, limit)
  {
    var g' := g + a;
    assert |all + rows| == |all| + |rows|;
    forall e | e in all + rows && e !in g' ensures CountSince(g', e.at) >= limit {
      CountSinceOfSum(g, a, e.at);
      if e in rows {
        OmittedMeansFull(rows, limit, a, e);
        CountSinceBounds(a, e.at);
      }
    }
  }

  lemma LeftOutIsOlder(s: seq<Event>, limit: nat, e: Event)
    requires Descending(s) && e !in Cut(s, limit) && (e in s || CountSince(s, e.at) >= limit)
    ensures forall x <- Cut(s, limit) :: x.at >= e.at
  {
    if e in s {
      var k :| 0 <= k < |s| && s[k] == e;
      assert forall i | 0 <= i < |Cut(s, limit)| :: Cut(s, limit)[i] == s[i] && s[i] in Cut(s, limit);
    } else {
      CountSinceBounds(s, e.at);
    }
  }

  lemma CutIsTop(s: seq<Event>, all: set<Event>, limit: nat)
    requires Descending(s) && Enough(s, all, limit)
    ensures TopOf(all, limit, Cut(s, limit))
  {
    forall e | e in all && e !in Cut(s, limit) ensures forall x <- Cut(s, limit) :: x.at >= e.at {
      LeftOutIsOlder(s, limit, e);
    }
  }

  /** What the request asks for: an event in the window, and with a run status a run of that status, else an
      event of the named source or, without a source, any event. */
  ghost predicate Requested(t: Tables, q: Query, e: Event) {
    && e in t(e.source)
    && (q.since.Some? ==> e.at >= q.since.value)
    && (q.status != "" ==> e.source == Runtime && e.status == q.status)
    && (q.status == "" && q.source.Named? ==> e.source == q.source.source)
  }

  lemma {:induction false} MatchingOfFirst(t: Tables, q: Query, n: nat, e: Event)
    requires n <= |SOURCES|
    ensures e in AllMatching(t, q, n) <==> exists k | 0 <= k < n :: e in Matching(t, q, SOURCES[k])
  {
    hide Matching, SOURCES;
    if n > 0 {
      MatchingOfFirst(t, q, n - 1, e);
    }
  }

  lemma PlaceOf(s: Source) returns (k: nat)
    ensures k < |SOURCES| && SOURCES[k] == s
  {
    k := match s case Agent => 0 case Tool => 1 case Knowledge => 2 case Governance => 3 case Runtime => 4;
  }

  /** All that match in the five tables is what the request asks for. */
  lemma MatchingIsRequested(t: Tables, q: Query, e: Event)
    requires Owned(t) && q.source != Unknown
    ensures e in AllMatching(t, q, |SOURCES|) <==> Requested(t, q, e)
  {
    MatchingOfFirst(t, q, |SOURCES|, e);
    var k := PlaceOf(e.source);
    hide SOURCES, AllMatching;
    if Requested(t, q, e) {
      assert e in Matching(t, q, SOURCES[k]);
    }
  }

  /** An unknown source is refused, and nothing else. Otherwise the merged list is a legal answer to the request
      on all five tables together: it has min(limit, requested) distinct events, newest first, and no requested
      event that it leaves out is newer than one it holds. */
  lemma MergedListIsATrueTopK(t: Tables, q: Query, answers: Source -> seq<Event>, rows: set<Event>)
    requires Owned(t) && Answered(t, q, answers) && forall e :: e in rows <==> Requested(t, q, e)
    ensures Listed(answers, q).None? <==> q.source == Unknown
    ensures q.source != Unknown ==> TopOf(rows, q.limit, Listed(answers, q).value)
  {
    if q.source != Unknown {
      MergedListIsTopOfMatching(t, q, answers);
      forall e ensures e in rows <==> e in AllMatching(t, q, |SOURCES|) {
        MatchingIsRequested(t, q, e);
      }
      assert rows == AllMatching(t, q, |SOURCES|);
    }
  }

  lemma MergedListIsTopOfMatching(t: Tables, q: Query, answers: Source -> seq<Event>)
    requires Owned(t) && Answered(t, q, answers) && q.source != Unknown
    ensures Listed(answers, q).Some?
    ensures TopOf(AllMatching(t, q, |SOURCES|), q.limit, Listed(answers, q).value)
  {
    GatheredEnough(t, q, answers, |SOURCES|);
    hide Gathered, AllMatching, Owned, Answered, TopOf, Enough;
    var g, all := Gathered(answers, q, |SOURCES|), AllMatching(t, q, |SOURCES|);
    SortedIsDescending(g);
    SortedIsEnough(g, all, q.limit);
    CutIsTop(Sorted(g), all, q.limit);
  }

  lemma SortedIsEnough(g: seq<Event>, all: set<Event>, limit: nat)
    requires Enough(g, all, limit)
    ensures Enough(Sorted(g), all, limit)
  {
    hide CountSince, NoRepeats, Sorted;
    var s := Sorted(g);
    NoRepeatsIff(g);
    NoRepeatsIff(s);
    SameMembers(s, g);
    forall e | e in all && e !in s ensures CountSince(s, e.at) >= limit {
      CountSinceOfSorted(g, e.at);
    }
  }

  lemma SameMembers(s: seq<Event>, g: seq<Event>)
    requires multiset(s) == multiset(g)
    ensures forall e :: e in s <==> e in g
  {
    forall e ensures e in s <==> e in g {
      assert e in s <==> e in multiset(s);
      assert e in g <==> e in multiset(g);
    }
  }
}
