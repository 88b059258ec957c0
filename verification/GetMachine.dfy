// Any number of GET requests at once: each thread runs the handler, its cache
// operations are those of the concurrent cache, step by step, and the origin
// answers as it likes.
module GetMachine {
  import opened Bytes
  import opened CacheSpec
  import opened GetSpec
  import M = CacheMachine
  import L = CacheLocks
  import H = CacheHeap
  import R = CacheRuns

  /** Where a handler is, between and during its cache operations; `at` is the event of its lookup. */
  datatype Phase =
    | Idle
    | Looking(k: Key)
    | Asking(k: Key, gr: GetResponse, at: nat)
    | Clearing(k: Key, at: nat)
    | Fetching(k: Key, at: nat)
    | Deciding(k: Key, i: nat)
    | Storing(k: Key, i: nat)

  /** One response of an origin, when it came and what it came to. */
  datatype Record = Record(key: Key, stream: Bytes, junk: Bytes, f: Fetched, now: int)

  /** What a client was sent after the lookup that is event `at`: the entry from the cache; the
      response of the origin that is fetch `i`; or the timeout page. */
  datatype Served =
    | FromCache(key: Key, at: nat, revalidated: bool, bytes: Bytes)
    | FromOrigin(key: Key, at: nat, i: nat, bytes: Bytes)
    | Unreachable(key: Key, at: nat)

  datatype State = State(c: M.State, phase: map<M.Tid, Phase>, fetches: seq<Record>, served: seq<Served>)

  // ---------------------------------------------------------------------
  // Steps
  // ---------------------------------------------------------------------

  /** A request arrives and the cache is asked. */
  predicate Begin(s: State, t: M.Tid, k: Key, s': State) {
    && t in s.phase && s.phase[t] == Idle && t in s.c.pc && s.c.pc[t] == M.Idle
    && M.Step(s.c, t, M.StartRead(k), s'.c) && s' == s.(c := s'.c, phase := s.phase[t := Looking(k)])
  }

  /** A step inside a cache operation, or of writing a log line. */
  predicate Inside(s: State, t: M.Tid, ch: M.Choice, s': State) {
    && t in s.phase && t in s.c.pc && s.c.pc[t] != M.Idle && !M.Returning(s.c.pc[t])
    && M.Step(s.c, t, ch, s'.c) && s' == s.(c := s'.c)
  }

  predicate LogLine(s: State, t: M.Tid, s': State) {
    && t in s.phase && t in s.c.pc && s.c.pc[t] == M.Idle
    && M.Step(s.c, t, M.StartLog, s'.c) && s' == s.(c := s'.c)
  }

  /** The cache has answered: serve, ask the origin about the entry, or fetch. */
  predicate Answered(s: State, t: M.Tid, s': State) {
    && t in s.phase && s.phase[t].Looking? && t in s.c.pc && s.c.pc[t].Reading? && s.c.pc[t].r.Return?
    && M.Step(s.c, t, M.Go, s'.c)
    && var k, a, at := s.phase[t].k, s.c.pc[t].r.answer, s.c.pc[t].r.at;
       match a.status
       case Valid =>
         s' == s.(c := s'.c, phase := s.phase[t := Idle], served := s.served + [FromCache(k, at, false, a.gr.response)])
       case NotFound => s' == s.(c := s'.c, phase := s.phase[t := Fetching(k, at)])
       case NeedRevalidate => s' == s.(c := s'.c, phase := s.phase[t := Asking(k, a.gr, at)])
  }

  /** The origin confirms the entry. */
  predicate Confirmed(s: State, t: M.Tid, s': State) {
    && t in s.phase && s.phase[t].Asking? && t in s.c.pc && s.c.pc[t] == M.Idle
    && s' == s.(phase := s.phase[t := Idle],
                served := s.served + [FromCache(s.phase[t].k, s.phase[t].at, true, s.phase[t].gr.response)])
  }

  /** Or does not: the key is cleared. */
  predicate Refuted(s: State, t: M.Tid, s': State) {
    && t in s.phase && s.phase[t].Asking? && t in s.c.pc && s.c.pc[t] == M.Idle
    && M.Step(s.c, t, M.StartClear(s.phase[t].k), s'.c)
    && s' == s.(c := s'.c, phase := s.phase[t := Clearing(s.phase[t].k, s.phase[t].at)])
  }

  predicate Cleared(s: State, t: M.Tid, s': State) {
    && t in s.phase && s.phase[t].Clearing? && t in s.c.pc && M.Returning(s.c.pc[t])
    && M.Step(s.c, t, M.Go, s'.c)
    && s' == s.(c := s'.c, phase := s.phase[t := Fetching(s.phase[t].k, s.phase[t].at)])
  }

  predicate NoConnection(s: State, t: M.Tid, s': State) {
    && t in s.phase && s.phase[t].Fetching? && t in s.c.pc && s.c.pc[t] == M.Idle
    && s' == s.(phase := s.phase[t := Idle], served := s.served + [Unreachable(s.phase[t].k, s.phase[t].at)])
  }

  /** The origin's response is relayed, whatever it is and whatever the body buffer held. */
  predicate Fetches(s: State, t: M.Tid, r: Record, pages: Pages, s': State) {
    && t in s.phase && s.phase[t].Fetching? && t in s.c.pc && s.c.pc[t] == M.Idle
    && r.key == s.phase[t].k && r.f == Fetch(r.stream, r.junk, pages) && r.now == s.c.m.clock
    && |r.junk| >= Scan(EMPTY_HEAD, r.stream).0.contentLength
    && s' == s.(phase := s.phase[t := if r.f.discarded then Idle else Deciding(r.key, |s.fetches|)],
                fetches := s.fetches + [r],
                served := s.served + [FromOrigin(r.key, s.phase[t].at, |s.fetches|, r.f.sent)])
  }

  /** The policy forbids storing. */
  predicate Declines(s: State, t: M.Tid, s': State) {
    && t in s.phase && s.phase[t].Deciding? && s.phase[t].i < |s.fetches| && t in s.c.pc && s.c.pc[t] == M.Idle
    && var f := s.fetches[s.phase[t].i].f;
       Lifetime(f.cp, f.cacheTime).None? && s' == s.(phase := s.phase[t := Idle])
  }

  /** Or the response is stamped with the time and the write begins. */
  predicate Stores(s: State, t: M.Tid, s': State) {
    && t in s.phase && s.phase[t].Deciding? && s.phase[t].i < |s.fetches| && t in s.c.pc && s.c.pc[t] == M.Idle
    && var f := s.fetches[s.phase[t].i].f;
       && Lifetime(f.cp, f.cacheTime).Some?
       && M.Step(s.c, t, M.StartWrite(s.phase[t].k, Built(f, Lifetime(f.cp, f.cacheTime).value, s.c.m.clock)), s'.c)
       && s' == s.(c := s'.c, phase := s.phase[t := Storing(s.phase[t].k, s.phase[t].i)])
  }

  predicate Stored(s: State, t: M.Tid, s': State) {
    && t in s.phase && s.phase[t].Storing? && t in s.c.pc && M.Returning(s.c.pc[t])
    && M.Step(s.c, t, M.Go, s'.c) && s' == s.(c := s'.c, phase := s.phase[t := Idle])
  }

  ghost predicate ThreadStep(s: State, t: M.Tid, pages: Pages, s': State) {
    || (exists k :: Begin(s, t, k, s'))
    || (exists ch :: Inside(s, t, ch, s'))
    || LogLine(s, t, s') || Answered(s, t, s') || Confirmed(s, t, s') || Refuted(s, t, s') || Cleared(s, t, s')
    || NoConnection(s, t, s')
    || (exists r :: Fetches(s, t, r, pages, s'))
    || Declines(s, t, s') || Stores(s, t, s') || Stored(s, t, s')
  }

  predicate Tick(s: State, s': State) {
    M.Tick(s.c, s'.c) && s' == s.(c := s'.c)
  }

  ghost predicate NextState(s: State, pages: Pages, s': State) {
    Tick(s, s') || exists t :: ThreadStep(s, t, pages, s')
  }

  ghost predicate Init(s: State) {
    && M.Init(s.c) && s.phase.Keys == s.c.pc.Keys && (forall t :: t in s.phase ==> s.phase[t] == Idle)
    && s.fetches == [] && s.served == []
  }

  ghost predicate IsRun(run: seq<State>, pages: Pages) {
    && |run| > 0 && Init(run[0])
    && forall i :: 0 <= i < |run| - 1 ==> NextState(run[i], pages, run[i + 1])
  }

  // ---------------------------------------------------------------------
  // The invariant
  // ---------------------------------------------------------------------

  /** Fetch `i` was of this key, was not discarded, and its policy lets exactly this in, stamped
      no earlier than it came. */
  predicate AdmittedBy(fetches: seq<Record>, i: nat, k: Key, gr: GetResponse) {
    && i < |fetches| && fetches[i].key == k && !fetches[i].f.discarded
    && Lifetime(fetches[i].f.cp, fetches[i].f.cacheTime).Some?
    && gr == Built(fetches[i].f, Lifetime(fetches[i].f.cp, fetches[i].f.cacheTime).value, gr.writeTime)
    && fetches[i].now <= gr.writeTime
  }

  ghost predicate Admitted(fetches: seq<Record>, k: Key, gr: GetResponse) {
    exists i: nat :: AdmittedBy(fetches, i, k, gr)
  }

  /** The cache operation a handler is in is the one its phase says, and its lookup was what the
      phase makes of it. */
  ghost predicate Matches(fetches: seq<Record>, m: M.Memory, t: M.Tid, p: M.PC, phase: Phase) {
    match phase
    case Looking(k) => p.Reading? && p.k == k
    case Clearing(k, at) => p.Clearing? && p.k == k && WasStale(m.hist, t, k, at) && at < p.start
    case Storing(k, i) => p.Writing? && p.k == k && AdmittedBy(fetches, i, k, p.gr)
    case Asking(k, gr, at) =>
      (p.Idle? || p.Logging?) && WasStale(m.hist, t, k, at) && m.hist[at].answer.gr == gr
    case Fetching(k, at) => (p.Idle? || p.Logging?) && Forsaken(m.hist, t, k, at)
    case Deciding(k, i) =>
      && (p.Idle? || p.Logging?) && i < |fetches| && fetches[i].key == k
      && !fetches[i].f.discarded && fetches[i].now <= m.clock
    case Idle => p.Idle? || p.Logging?
  }

  /** Event `at` is a lookup of the key by the thread. */
  predicate LookedUp(hist: seq<Event>, t: M.Tid, k: Key, at: nat) {
    at < |hist| && hist[at].ERead? && hist[at].tid == t && hist[at].key == k
  }

  predicate WasStale(hist: seq<Event>, t: M.Tid, k: Key, at: nat) {
    LookedUp(hist, t, k, at) && hist[at].answer.status == NeedRevalidate
  }

  /** The lookup found nothing, or an entry that the origin refuted, and the thread has since
      cleared the key. */
  ghost predicate Forsaken(hist: seq<Event>, t: M.Tid, k: Key, at: nat) {
    && LookedUp(hist, t, k, at)
    && (hist[at].answer.status == NotFound || (WasStale(hist, t, k, at) && ClearedSince(hist, t, k, at)))
  }

  ghost predicate ClearedSince(hist: seq<Event>, t: M.Tid, k: Key, at: nat) {
    exists c :: at < c < |hist| && hist[c].EClear? && hist[c].tid == t && hist[c].key == k
  }

  ghost predicate WritesAdmitted(fetches: seq<Record>, hist: seq<Event>) {
    forall i :: 0 <= i < |hist| && hist[i].EWrite? ==> Admitted(fetches, hist[i].key, hist[i].gr)
  }

  predicate RecordsTrue(fetches: seq<Record>, pages: Pages) {
    forall i :: 0 <= i < |fetches| ==>
      && fetches[i].f == Fetch(fetches[i].stream, fetches[i].junk, pages)
      && |fetches[i].junk| >= Scan(EMPTY_HEAD, fetches[i].stream).0.contentLength
  }

  /** A serving was what the event or the fetch it names says. */
  ghost predicate ServedTrue(fetches: seq<Record>, hist: seq<Event>, v: Served) {
    && v.at < |hist| && LookedUp(hist, hist[v.at].tid, v.key, v.at)
    && match v
       case FromCache(k, at, revalidated, bytes) =>
         && bytes == hist[at].answer.gr.response
         && hist[at].answer.status == (if revalidated then NeedRevalidate else Valid)
       case FromOrigin(k, at, i, bytes) =>
         i < |fetches| && fetches[i].key == k && bytes == fetches[i].f.sent && Forsaken(hist, hist[at].tid, k, at)
       case Unreachable(k, at) => Forsaken(hist, hist[at].tid, k, at)
  }

  ghost predicate Inv(s: State, pages: Pages) {
    && R.Inv(s.c) && s.phase.Keys == s.c.pc.Keys
    && (forall t :: t in s.phase ==> Matches(s.fetches, s.c.m, t, s.c.pc[t], s.phase[t]))
    && WritesAdmitted(s.fetches, s.c.m.hist) && RecordsTrue(s.fetches, pages)
    && forall j :: 0 <= j < |s.served| ==> ServedTrue(s.fetches, s.c.m.hist, s.served[j])
  }

  // ---------------------------------------------------------------------
  // Preservation
  // ---------------------------------------------------------------------

  /** A step of the concurrent cache adds at most one event, and a write event is that of
      the thread's own call. */
  lemma CacheStepEvents(m: M.Memory, t: M.Tid, p: M.PC, ch: M.Choice, m': M.Memory, p': M.PC)
    requires M.ThreadStep(m, t, p, ch, m', p')
    ensures m.hist <= m'.hist && |m'.hist| <= |m.hist| + 1 && m'.clock == m.clock
    ensures |m'.hist| == |m.hist| + 1 && m'.hist[|m.hist|].EWrite? ==>
              p.Writing? && m'.hist[|m.hist|].key == p.k && m'.hist[|m.hist|].gr == p.gr
  {
  }

  lemma ForsakenGrows(hist: seq<Event>, hist': seq<Event>, t: M.Tid, k: Key, at: nat)
    requires Forsaken(hist, t, k, at) && hist <= hist'
    ensures Forsaken(hist', t, k, at)
  {
    if c :| at < c < |hist| && hist[c].EClear? && hist[c].tid == t && hist[c].key == k {
      assert hist'[c] == hist[c];
    }
  }

  lemma MatchesGrow(fetches: seq<Record>, m: M.Memory, t: M.Tid, p: M.PC, phase: Phase,
                    fetches': seq<Record>, m': M.Memory)
    requires Matches(fetches, m, t, p, phase) && fetches <= fetches' && m.hist <= m'.hist && m.clock <= m'.clock
    ensures Matches(fetches', m', t, p, phase)
  {
    if phase.Fetching? {
      ForsakenGrows(m.hist, m'.hist, t, phase.k, phase.at);
    }
  }

  lemma ServedGrow(fetches: seq<Record>, hist: seq<Event>, v: Served, fetches': seq<Record>, hist': seq<Event>)
    requires ServedTrue(fetches, hist, v) && fetches <= fetches' && hist <= hist'
    ensures ServedTrue(fetches', hist', v)
  {
    if !v.FromCache? {
      ForsakenGrows(hist, hist', hist[v.at].tid, v.key, v.at);
    }
  }

  lemma WritesGrow(fetches: seq<Record>, hist: seq<Event>, fetches': seq<Record>)
    requires WritesAdmitted(fetches, hist) && fetches <= fetches'
    ensures WritesAdmitted(fetches', hist)
  {
    forall i | 0 <= i < |hist| && hist[i].EWrite? ensures Admitted(fetches', hist[i].key, hist[i].gr) {
      var j: nat :| AdmittedBy(fetches, j, hist[i].key, hist[i].gr);
      assert AdmittedBy(fetches', j, hist[i].key, hist[i].gr);
    }
  }

  /** What is left to show of a step of `t`, given what it did to the cache. */
  lemma Reassemble(s: State, t: M.Tid, pages: Pages, s': State)
    requires Inv(s, pages) && t in s.phase && R.Inv(s'.c)
    requires t in s'.phase && s'.phase == s.phase[t := s'.phase[t]]
    requires t in s'.c.pc && s'.c.pc == s.c.pc[t := s'.c.pc[t]]
    requires s.c.m.hist <= s'.c.m.hist && s.fetches <= s'.fetches && s.served <= s'.served
    requires s.c.m.clock <= s'.c.m.clock
    requires WritesAdmitted(s'.fetches, s'.c.m.hist) && RecordsTrue(s'.fetches, pages)
    requires Matches(s'.fetches, s'.c.m, t, s'.c.pc[t], s'.phase[t])
    requires forall j :: |s.served| <= j < |s'.served| ==> ServedTrue(s'.fetches, s'.c.m.hist, s'.served[j])
    ensures Inv(s', pages)
  {
    forall u | u in s'.phase ensures Matches(s'.fetches, s'.c.m, u, s'.c.pc[u], s'.phase[u]) {
      if u != t {
        MatchesGrow(s.fetches, s.c.m, u, s.c.pc[u], s.phase[u], s'.fetches, s'.c.m);
      }
    }
    forall j | 0 <= j < |s'.served| ensures ServedTrue(s'.fetches, s'.c.m.hist, s'.served[j]) {
      if j < |s.served| {
        ServedGrow(s.fetches, s.c.m.hist, s.served[j], s'.fetches, s'.c.m.hist);
      }
    }
  }

  /** A step of the cache keeps the cache's invariant, and every write in the history admitted. */
  lemma CacheStepKeeps(s: State, t: M.Tid, pages: Pages, ch: M.Choice, c': M.State)
    requires Inv(s, pages) && t in s.phase && M.Step(s.c, t, ch, c')
    ensures R.Inv(c') && s.c.m.hist <= c'.m.hist && c'.m.clock == s.c.m.clock && WritesAdmitted(s.fetches, c'.m.hist)
  {
    R.StepKeepsInv(s.c, t, ch, c');
    CacheStepEvents(s.c.m, t, s.c.pc[t], ch, c'.m, c'.pc[t]);
    assert Matches(s.fetches, s.c.m, t, s.c.pc[t], s.phase[t]);
    forall i | 0 <= i < |c'.m.hist| && c'.m.hist[i].EWrite?
      ensures Admitted(s.fetches, c'.m.hist[i].key, c'.m.hist[i].gr)
    {
      if i == |s.c.m.hist| {
        assert AdmittedBy(s.fetches, s.phase[t].i, s.c.pc[t].k, s.c.pc[t].gr);
      }
    }
  }

  /** Steps that call, run, or leave a cache operation. */
  lemma CacheSideKeeps(s: State, t: M.Tid, pages: Pages, ch: M.Choice, s': State)
    requires Inv(s, pages) && t in s.phase && M.Step(s.c, t, ch, s'.c)
    requires t in s'.phase && s'.phase == s.phase[t := s'.phase[t]] && s'.fetches == s.fetches && s.served <= s'.served
    requires s.c.m.hist <= s'.c.m.hist && s'.c.m.clock == s.c.m.clock ==>
               Matches(s.fetches, s'.c.m, t, s'.c.pc[t], s'.phase[t])
    requires s.c.m.hist <= s'.c.m.hist ==>
               forall j :: |s.served| <= j < |s'.served| ==> ServedTrue(s'.fetches, s'.c.m.hist, s'.served[j])
    ensures Inv(s', pages)
  {
    CacheStepKeeps(s, t, pages, ch, s'.c);
    Reassemble(s, t, pages, s');
  }

  lemma BeginKeeps(s: State, t: M.Tid, pages: Pages, k: Key, s': State)
    requires Inv(s, pages) && Begin(s, t, k, s')
    ensures Inv(s', pages)
  {
    CacheSideKeeps(s, t, pages, M.StartRead(k), s');
  }

  lemma InsideKeeps(s: State, t: M.Tid, pages: Pages, ch: M.Choice, s': State)
    requires Inv(s, pages) && Inside(s, t, ch, s')
    ensures Inv(s', pages)
  {
    assert Matches(s.fetches, s.c.m, t, s.c.pc[t], s.phase[t]);
    CacheSideKeeps(s, t, pages, ch, s');
  }

  lemma LogLineKeeps(s: State, t: M.Tid, pages: Pages, s': State)
    requires Inv(s, pages) && LogLine(s, t, s')
    ensures Inv(s', pages)
  {
    assert Matches(s.fetches, s.c.m, t, s.c.pc[t], s.phase[t]);
    CacheSideKeeps(s, t, pages, M.StartLog, s');
  }

  lemma AnsweredKeeps(s: State, t: M.Tid, pages: Pages, s': State)
    requires Inv(s, pages) && Answered(s, t, s')
    ensures Inv(s', pages)
  {
    var p := s.c.pc[t];
    assert H.Knows(s.c.m, t, p);
    assert Matches(s.fetches, s.c.m, t, p, s.phase[t]);
    assert LookedUp(s.c.m.hist, t, p.k, p.r.at);
    CacheSideKeeps(s, t, pages, M.Go, s');
  }

  lemma RefutedKeeps(s: State, t: M.Tid, pages: Pages, s': State)
    requires Inv(s, pages) && Refuted(s, t, s')
    ensures Inv(s', pages)
  {
    CacheSideKeeps(s, t, pages, M.StartClear(s.phase[t].k), s');
  }

  /** A clear that has come to its return. */
  lemma ClearIsKnown(s: State, t: M.Tid, pages: Pages)
    requires Inv(s, pages) && t in s.phase && s.phase[t].Clearing? && M.Returning(s.c.pc[t])
    ensures Forsaken(s.c.m.hist, t, s.phase[t].k, s.phase[t].at)
  {
    var p := s.c.pc[t];
    assert H.Knows(s.c.m, t, p);
    assert Matches(s.fetches, s.c.m, t, p, s.phase[t]);
    assert s.phase[t].at < p.c.at < |s.c.m.hist| && s.c.m.hist[p.c.at].EClear?;
  }

  lemma ClearedKeeps(s: State, t: M.Tid, pages: Pages, s': State)
    requires Inv(s, pages) && Cleared(s, t, s')
    ensures Inv(s', pages)
  {
    assert Matches(s.fetches, s.c.m, t, s.c.pc[t], s.phase[t]);
    ClearIsKnown(s, t, pages);
    CacheSideKeeps(s, t, pages, M.Go, s');
  }

  lemma StoredKeeps(s: State, t: M.Tid, pages: Pages, s': State)
    requires Inv(s, pages) && Stored(s, t, s')
    ensures Inv(s', pages)
  {
    CacheSideKeeps(s, t, pages, M.Go, s');
  }

  lemma StoresKeeps(s: State, t: M.Tid, pages: Pages, s': State)
    requires Inv(s, pages) && Stores(s, t, s')
    ensures Inv(s', pages)
  {
    var f := s.fetches[s.phase[t].i].f;
    assert Matches(s.fetches, s.c.m, t, s.c.pc[t], s.phase[t]);
    var gr := Built(f, Lifetime(f.cp, f.cacheTime).value, s.c.m.clock);
    CacheSideKeeps(s, t, pages, M.StartWrite(s.phase[t].k, gr), s');
  }

  /** Steps that do not involve the cache. */
  lemma QuietKeeps(s: State, t: M.Tid, pages: Pages, s': State)
    requires Inv(s, pages) && (Confirmed(s, t, s') || NoConnection(s, t, s') || Declines(s, t, s'))
    ensures Inv(s', pages)
  {
    assert Matches(s.fetches, s.c.m, t, s.c.pc[t], s.phase[t]);
    Reassemble(s, t, pages, s');
  }

  lemma FetchesKeeps(s: State, t: M.Tid, r: Record, pages: Pages, s': State)
    requires Inv(s, pages) && Fetches(s, t, r, pages, s')
    ensures Inv(s', pages)
  {
    assert Matches(s.fetches, s.c.m, t, s.c.pc[t], s.phase[t]);
    WritesGrow(s.fetches, s.c.m.hist, s'.fetches);
    Reassemble(s, t, pages, s');
  }

  lemma TickKeeps(s: State, pages: Pages, s': State)
    requires Inv(s, pages) && Tick(s, s')
    ensures Inv(s', pages)
  {
    R.TickKeepsInv(s.c, s'.c);
    forall u | u in s'.phase ensures Matches(s'.fetches, s'.c.m, u, s'.c.pc[u], s'.phase[u]) {
      MatchesGrow(s.fetches, s.c.m, u, s.c.pc[u], s.phase[u], s'.fetches, s'.c.m);
    }
  }

  lemma ThreadStepKeeps(s: State, t: M.Tid, pages: Pages, s': State)
    requires Inv(s, pages) && ThreadStep(s, t, pages, s')
    ensures Inv(s', pages)
  {
    if k :| Begin(s, t, k, s') {
      BeginKeeps(s, t, pages, k, s');
    } else if ch :| Inside(s, t, ch, s') {
      InsideKeeps(s, t, pages, ch, s');
    } else if r :| Fetches(s, t, r, pages, s') {
      FetchesKeeps(s, t, r, pages, s');
    } else if LogLine(s, t, s') {
      LogLineKeeps(s, t, pages, s');
    } else if Answered(s, t, s') {
      AnsweredKeeps(s, t, pages, s');
    } else if Refuted(s, t, s') {
      RefutedKeeps(s, t, pages, s');
    } else if Cleared(s, t, s') {
      ClearedKeeps(s, t, pages, s');
    } else if Stored(s, t, s') {
      StoredKeeps(s, t, pages, s');
    } else if Stores(s, t, s') {
      StoresKeeps(s, t, pages, s');
    } else {
      QuietKeeps(s, t, pages, s');
    }
  }

  lemma {:induction false} RunKeepsInv(run: seq<State>, pages: Pages, i: nat)
    requires IsRun(run, pages) && i < |run|
    ensures Inv(run[i], pages)
  {
    if i == 0 {
      R.InitInv(run[0].c);
    } else {
      RunKeepsInv(run, pages, i - 1);
      var s, s' := run[i - 1], run[i];
      assert NextState(s, pages, s');
      if Tick(s, s') {
        TickKeeps(s, pages, s');
      } else {
        var t :| ThreadStep(s, t, pages, s');
        ThreadStepKeeps(s, t, pages, s');
      }
    }
  }

  // ---------------------------------------------------------------------
  // End to end
  // ---------------------------------------------------------------------

  /** The fetch that an answer of the cache goes back to. */
  lemma AnswerWasFetched(s: State, pages: Pages, at: nat) returns (i: nat)
    requires Inv(s, pages) && at < |s.c.m.hist| && s.c.m.hist[at].ERead? && s.c.m.hist[at].answer.status != NotFound
    ensures AdmittedBy(s.fetches, i, s.c.m.hist[at].key, s.c.m.hist[at].answer.gr)
  {
    var h, e := s.c.m.hist, s.c.m.hist[at];
    assert H.AtomicAt(h, at);
    FirstMatchIsEntry(Replay(h[..at]), e.key);
    StoredWasWritten(h[..at], Entry(e.key, e.answer.gr));
    var j :| 0 <= j < at && h[..at][j].EWrite? && h[..at][j].key == e.key && h[..at][j].gr == e.answer.gr;
    assert h[j].EWrite? && Admitted(s.fetches, h[j].key, h[j].gr);
    i :| AdmittedBy(s.fetches, i, h[j].key, h[j].gr);
  }

  /** Replay fidelity, for every interleaving, every origin and every splitting of its streams:
      what a client is served from the cache is the kept text of one earlier fetch of the same
      key, and is byte for byte what that fetch's client was sent exactly when the body had
      come whole and without a zero byte (or short, and cut by chance). */
  lemma ReplayFidelity(run: seq<State>, pages: Pages, i: nat, j: nat) returns (n: nat)
    requires IsRun(run, pages) && i < |run| && j < |run[i].served| && run[i].served[j].FromCache?
    ensures n < |run[i].fetches|
    ensures var v, r := run[i].served[j], run[i].fetches[n];
            && r.key == v.key && r.f == Fetch(r.stream, r.junk, pages) && !r.f.discarded && Storable(r.f)
            && v.bytes == r.f.text && NUL !in v.bytes
            && (v.bytes == r.f.sent <==> WholeTextBody(r.stream) || LuckyJunk(r.stream, r.junk))
  {
    RunKeepsInv(run, pages, i);
    var s, v := run[i], run[i].served[j];
    assert ServedTrue(s.fetches, s.c.m.hist, v);
    n := AnswerWasFetched(s, pages, v.at);
    var r := s.fetches[n];
    KeptIsSent(r.stream, r.junk, pages);
    KeptIsString(r.stream, r.junk, pages);
    LifetimeWhenStorable(r.stream, r.junk, pages);
  }

  /** The origin is the last resort: a client is sent its response, or the timeout page, only after
      a lookup that found nothing, or found an entry too old that the origin did not confirm, and
      then only once the same thread has cleared the key. What the client is sent is what the
      response of the fetch comes to. */
  lemma OriginIsLastResort(run: seq<State>, pages: Pages, i: nat, j: nat)
    requires IsRun(run, pages) && i < |run| && j < |run[i].served| && !run[i].served[j].FromCache?
    ensures var v, h := run[i].served[j], run[i].c.m.hist;
            && v.at < |h| && h[v.at].ERead? && h[v.at].key == v.key
            && (h[v.at].answer.status == NotFound
                || (h[v.at].answer.status == NeedRevalidate
                    && exists c :: v.at < c < |h| && h[c].EClear? && h[c].tid == h[v.at].tid && h[c].key == v.key))
    ensures var v := run[i].served[j];
            v.FromOrigin? ==>
              && v.i < |run[i].fetches| && run[i].fetches[v.i].key == v.key
              && v.bytes == Fetch(run[i].fetches[v.i].stream, run[i].fetches[v.i].junk, pages).sent
  {
    RunKeepsInv(run, pages, i);
    assert ServedTrue(run[i].fetches, run[i].c.m.hist, run[i].served[j]);
  }

  /** Whether it was asked about the entry or not, the cache serves the latest accepted write of the
      key, not cleared since, as of the lookup. */
  lemma ServedFromCacheIsLatest(run: seq<State>, pages: Pages, i: nat, j: nat) returns (w: nat)
    requires IsRun(run, pages) && i < |run| && j < |run[i].served| && run[i].served[j].FromCache?
    ensures var v, h := run[i].served[j], run[i].c.m.hist;
            && v.at < |h| && LastDecision(h[..v.at], v.key, w) && h[w].EWrite? && h[w].gr.response == v.bytes
            && h[w].gr.writeTime <= h[w].now <= h[v.at].now
  {
    RunKeepsInv(run, pages, i);
    var s, v := run[i], run[i].served[j];
    assert ServedTrue(s.fetches, s.c.m.hist, v);
    w := R.FoundReadsAreLatest(s.c.m.hist, s.c.m.clock, v.at);
  }

  /** Freshness over whole runs: a client answered with no contact to the origin gets the latest
      accepted write of its key, not cleared since, whose age at the lookup is below its lifetime. */
  lemma ServedWithoutContactIsFresh(run: seq<State>, pages: Pages, i: nat, j: nat) returns (w: nat)
    requires IsRun(run, pages) && i < |run| && j < |run[i].served|
    requires run[i].served[j].FromCache? && !run[i].served[j].revalidated
    ensures var v, h := run[i].served[j], run[i].c.m.hist;
            && v.at < |h| && LastDecision(h[..v.at], v.key, w) && h[w].EWrite? && h[w].gr.response == v.bytes
            && 0 <= h[v.at].now - h[w].gr.writeTime < h[w].gr.validTime
  {
    RunKeepsInv(run, pages, i);
    var s, v := run[i], run[i].served[j];
    assert ServedTrue(s.fetches, s.c.m.hist, v);
    w := R.ValidReadsAreFresh(s.c.m.hist, s.c.m.clock, v.at);
  }

  /** Where an entry of the history's replay came from. */
  lemma ReplayIsAdmitted(s: State, pages: Pages, e: Entry) returns (n: nat)
    requires Inv(s, pages) && e in Replay(s.c.m.hist)
    ensures AdmittedBy(s.fetches, n, e.key, e.gr) && Storable(s.fetches[n].f)
    ensures |e.gr.response| <= MAX_OBJECT_SIZE && NUL !in e.gr.response
  {
    var h := s.c.m.hist;
    StoredWasWritten(h, e);
    StoredObjectsAreBounded(h);
    var j :| 0 <= j < |h| && h[j].EWrite? && h[j].key == e.key && h[j].gr == e.gr;
    assert Admitted(s.fetches, e.key, e.gr);
    n :| AdmittedBy(s.fetches, n, e.key, e.gr);
    LifetimeWhenStorable(s.fetches[n].stream, s.fetches[n].junk, pages);
    KeptIsString(s.fetches[n].stream, s.fetches[n].junk, pages);
  }

  /** Admission: in every reachable state, with a writer inside or not, every node of the list in
      memory holds a response that was not discarded and whose final policy is need-revalidate, a
      positive max-age or immutable. */
  lemma EntriesAreAdmitted(run: seq<State>, pages: Pages, i: nat, a: M.Addr) returns (n: nat)
    requires IsRun(run, pages) && i < |run| && a in run[i].c.m.nodes && a != M.HEAD && a != M.TAIL
    ensures a in run[i].c.m.heap
    ensures var cell := run[i].c.m.heap[a];
            && AdmittedBy(run[i].fetches, n, cell.key, cell.gr) && Storable(run[i].fetches[n].f)
            && |cell.gr.response| <= MAX_OBJECT_SIZE && NUL !in cell.gr.response
  {
    RunKeepsInv(run, pages, i);
    var m := run[i].c.m;
    R.InvIsBacked(run[i].c);
    var j :| 0 <= j < |m.nodes| && m.nodes[j] == a;
    assert H.Contents(m)[j - 1] == H.EntryAt(m.heap, a);
    n := ReplayIsAdmitted(run[i], pages, H.EntryAt(m.heap, a));
  }

  /** A response that needs revalidation and came with no max-age is never served unasked. */
  lemma ServedWithoutContactHadLifetime(run: seq<State>, pages: Pages, i: nat, j: nat) returns (n: nat)
    requires IsRun(run, pages) && i < |run| && j < |run[i].served|
    requires run[i].served[j].FromCache? && !run[i].served[j].revalidated
    ensures n < |run[i].fetches| && run[i].fetches[n].key == run[i].served[j].key
    ensures run[i].fetches[n].f.text == run[i].served[j].bytes
    ensures run[i].fetches[n].f.cp == CpNeedRevalidate ==>
              exists l :: l in HeadLines(run[i].fetches[n].stream) && SetsAge(l)
  {
    RunKeepsInv(run, pages, i);
    var s, v := run[i], run[i].served[j];
    assert ServedTrue(s.fetches, s.c.m.hist, v);
    n := AnswerWasFetched(s, pages, v.at);
    var r, gr := s.fetches[n], s.c.m.hist[v.at].answer.gr;
    if r.f.cp == CpNeedRevalidate && forall l :: l in HeadLines(r.stream) ==> !SetsAge(l) {
      NeedRevalidateNeverValid(r.stream, r.junk, pages, gr.writeTime, s.c.m.hist[v.at].now);
      var w := R.ValidReadsAreFresh(s.c.m.hist, s.c.m.clock, v.at);
      assert false;
    }
  }

  // ---------------------------------------------------------------------
  // Progress
  // ---------------------------------------------------------------------

  /** A thread with something under way: a request, or a line of the log. */
  predicate Active(s: State, t: M.Tid) {
    t in s.phase && t in s.c.pc && (s.phase[t] != Idle || s.c.pc[t] != M.Idle)
  }

  /** A step that carries on what is under way: neither a new request nor a new log line. */
  ghost predicate Proceeds(s: State, t: M.Tid, pages: Pages, s': State) {
    || (exists ch :: Inside(s, t, ch, s'))
    || Answered(s, t, s') || Confirmed(s, t, s') || Refuted(s, t, s') || Cleared(s, t, s')
    || NoConnection(s, t, s')
    || (exists r :: Fetches(s, t, r, pages, s'))
    || Declines(s, t, s') || Stores(s, t, s') || Stored(s, t, s')
  }

  /** A step of a thread in the middle of a cache operation, or of a log line. */
  lemma BusyProceeds(s: State, pages: Pages, t: M.Tid) returns (s': State)
    requires Inv(s, pages) && t in s.phase && t in s.c.pc && s.c.pc[t] != M.Idle
    requires !M.Returning(s.c.pc[t]) && !M.Blocked(s.c.m, s.c.pc[t])
    ensures Proceeds(s, t, pages, s')
  {
    R.KnowsIsSafe(s.c.m, t, s.c.pc[t]);
    var c, m', p' := R.RunnableSteps(s.c.m, t, s.c.pc[t]);
    s' := s.(c := M.State(m', s.c.pc[t := p']));
    assert Inside(s, t, c, s');
  }

  /** The step that takes up the answer of a lookup. */
  lemma AnswerProceeds(s: State, t: M.Tid) returns (s': State)
    requires t in s.phase && t in s.c.pc && s.phase[t].Looking? && s.c.pc[t].Reading? && s.c.pc[t].r.Return?
    ensures Answered(s, t, s')
  {
    var k, a, at := s.phase[t].k, s.c.pc[t].r.answer, s.c.pc[t].r.at;
    var c := M.State(s.c.m, s.c.pc[t := M.Idle]);
    assert M.Step(s.c, t, M.Go, c);
    match a.status
    case Valid => s' := State(c, s.phase[t := Idle], s.fetches, s.served + [FromCache(k, at, false, a.gr.response)]);
    case NotFound => s' := s.(c := c, phase := s.phase[t := Fetching(k, at)]);
    case NeedRevalidate => s' := s.(c := c, phase := s.phase[t := Asking(k, a.gr, at)]);
  }

  /** The step that leaves a clear or a write. */
  lemma UpdateProceeds(s: State, t: M.Tid) returns (s': State)
    requires t in s.phase && t in s.c.pc && (s.phase[t].Clearing? || s.phase[t].Storing?) && M.Returning(s.c.pc[t])
    ensures Cleared(s, t, s') || Stored(s, t, s')
  {
    var c := M.State(s.c.m, s.c.pc[t := M.Idle]);
    assert M.Step(s.c, t, M.Go, c);
    var next := if s.phase[t].Clearing? then Fetching(s.phase[t].k, s.phase[t].at) else Idle;
    s' := s.(c := c, phase := s.phase[t := next]);
  }

  /** A step of a thread whose cache operation has come to its return. */
  lemma ReturnProceeds(s: State, pages: Pages, t: M.Tid) returns (s': State)
    requires Inv(s, pages) && t in s.phase && t in s.c.pc && M.Returning(s.c.pc[t])
    ensures Proceeds(s, t, pages, s')
  {
    assert Matches(s.fetches, s.c.m, t, s.c.pc[t], s.phase[t]);
    if s.phase[t].Looking? {
      s' := AnswerProceeds(s, t);
    } else {
      s' := UpdateProceeds(s, t);
    }
  }

  /** A step of a handler between cache operations. */
  lemma WaitingProceeds(s: State, pages: Pages, t: M.Tid) returns (s': State)
    requires Inv(s, pages) && t in s.phase && t in s.c.pc && s.c.pc[t] == M.Idle && s.phase[t] != Idle
    ensures Proceeds(s, t, pages, s')
  {
    assert Matches(s.fetches, s.c.m, t, s.c.pc[t], s.phase[t]);
    match s.phase[t]
    case Asking(k, gr, at) =>
      s' := s.(phase := s.phase[t := Idle], served := s.served + [FromCache(k, at, true, gr.response)]);
      assert Confirmed(s, t, s');
    case Fetching(k, at) =>
      s' := s.(phase := s.phase[t := Idle], served := s.served + [Unreachable(k, at)]);
      assert NoConnection(s, t, s');
    case Deciding(k, i) =>
      var f := s.fetches[i].f;
      match Lifetime(f.cp, f.cacheTime) {
        case None =>
          s' := s.(phase := s.phase[t := Idle]);
          assert Declines(s, t, s');
        case Some(lifetime) =>
          var gr := Built(f, lifetime, s.c.m.clock);
          var c := M.State(s.c.m, s.c.pc[t := M.Writing(k, |s.c.m.hist|, gr, M.WPW)]);
          s' := s.(c := c, phase := s.phase[t := Storing(k, i)]);
          assert M.Step(s.c, t, M.StartWrite(k, gr), c);
          assert Stores(s, t, s');
      }
  }

  /** Deadlock freedom of the whole handler: in every run, while any request or log line is under
      way, some thread with something under way can carry on. */
  lemma HandlersProceed(run: seq<State>, pages: Pages, i: nat, t: M.Tid) returns (u: M.Tid, s': State)
    requires IsRun(run, pages) && i < |run| && Active(run[i], t)
    ensures Active(run[i], u) && Proceeds(run[i], u, pages, s') && ThreadStep(run[i], u, pages, s')
  {
    RunKeepsInv(run, pages, i);
    var s := run[i];
    if v :| v in s.c.pc && s.c.pc[v] != M.Idle {
      u := L.SomeThreadRuns(s.c, v);
      if M.Returning(s.c.pc[u]) {
        s' := ReturnProceeds(s, pages, u);
      } else {
        s' := BusyProceeds(s, pages, u);
      }
    } else {
      u := t;
      s' := WaitingProceeds(s, pages, t);
    }
  }
}
