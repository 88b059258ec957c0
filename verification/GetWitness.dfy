// Runs of the proxy that show what can happen: an answer from the cache with no
// contact to the origin, and a cache that outgrows its documented bound.
module GetWitness {
  import opened Wrappers
  import opened Bytes
  import opened CacheSpec
  import opened GetSpec
  import opened GetMachine
  import opened Samples
  import M = CacheMachine
  import H = CacheHeap
  import R = CacheRuns
  import O = CacheOnce
  import S = CacheSolo

  function End(run: seq<State>): State
    requires |run| > 0
  {
    run[|run| - 1]
  }

  lemma Extend(run: seq<State>, pages: Pages, t: M.Tid, s': State) returns (run': seq<State>)
    requires IsRun(run, pages) && ThreadStep(End(run), t, pages, s')
    ensures IsRun(run', pages) && run' == run + [s'] && End(run') == s'
  {
    run' := run + [s'];
    forall i | 0 <= i < |run'| - 1 ensures NextState(run'[i], pages, run'[i + 1]) {
      if i < |run| - 1 {
        assert NextState(run[i], pages, run[i + 1]);
      } else {
        assert run'[i] == End(run) && run'[i + 1] == s';
      }
    }
  }

  // ---------------------------------------------------------------------
  // One cache operation, alone
  // ---------------------------------------------------------------------

  /** `s'` is `s` but for the cache, where only thread `t` has moved. */
  predicate OnlyCacheMoved(s: State, t: M.Tid, s': State) {
    && t in s.c.pc && t in s'.c.pc && s'.c.pc == s.c.pc[t := s'.c.pc[t]]
    && s' == s.(c := s'.c) && s'.c.m.clock == s.c.m.clock
  }

  /** Nothing goes on but, perhaps, at thread `t`. */
  predicate Alone(s: State, t: M.Tid) {
    t in s.phase && S.Alone(s.c, t)
  }

  lemma SoloInside(s: State, pages: Pages, t: M.Tid, h: seq<Event>) returns (s': State)
    requires Inv(s, pages) && Alone(s, t) && O.InCall(s.c.pc[t]) && !M.Returning(s.c.pc[t])
    requires S.SoFar(h, t, s.c.pc[t], s.c.m)
    ensures ThreadStep(s, t, pages, s') && Alone(s', t) && OnlyCacheMoved(s, t, s')
    ensures S.SameCall(s.c.pc[t], s'.c.pc[t]) && O.InCall(s'.c.pc[t]) && S.SoFar(h, t, s'.c.pc[t], s'.c.m)
    ensures S.Left(s'.c.pc[t], |s'.c.m.nodes|) < S.Left(s.c.pc[t], |s.c.m.nodes|)
  {
    var c, c' := S.SoloStep(s.c, t);
    S.SoFarKept(h, s.c.m, t, s.c.pc[t], c'.m, c'.pc[t]);
    s' := s.(c := c');
    assert Inside(s, t, c, s');
  }

  lemma MovedTwice(s: State, t: M.Tid, s': State, s'': State)
    requires OnlyCacheMoved(s, t, s') && OnlyCacheMoved(s', t, s'')
    ensures OnlyCacheMoved(s, t, s'')
  {
  }

  /** A cache operation, left to itself, comes to its return with the one effect it has. */
  lemma Finish(run: seq<State>, pages: Pages, t: M.Tid, h: seq<Event>) returns (run': seq<State>)
    requires IsRun(run, pages) && Alone(End(run), t) && O.InCall(End(run).c.pc[t])
    requires S.SoFar(h, t, End(run).c.pc[t], End(run).c.m)
    ensures IsRun(run', pages) && OnlyCacheMoved(End(run), t, End(run'))
    ensures M.Returning(End(run').c.pc[t]) && S.SameCall(End(run).c.pc[t], End(run').c.pc[t])
    ensures S.SoFar(h, t, End(run').c.pc[t], End(run').c.m)
    decreases S.Left(End(run).c.pc[t], |End(run).c.m.nodes|)
  {
    var s := End(run);
    if M.Returning(s.c.pc[t]) {
      run' := run;
    } else {
      RunKeepsInv(run, pages, |run| - 1);
      var s' := SoloInside(s, pages, t, h);
      var longer := Extend(run, pages, t, s');
      run' := Finish(longer, pages, t, h);
      MovedTwice(s, t, s', End(run'));
    }
  }

  /** The whole operation, from its call to its return, and the event it adds. */
  lemma Complete(run: seq<State>, pages: Pages, t: M.Tid) returns (run': seq<State>, e: Event)
    requires IsRun(run, pages) && Alone(End(run), t) && O.InCall(End(run).c.pc[t])
    requires O.Effect(End(run).c.pc[t]).None?
    ensures IsRun(run', pages) && OnlyCacheMoved(End(run), t, End(run'))
    ensures M.Returning(End(run').c.pc[t]) && S.SameCall(End(run).c.pc[t], End(run').c.pc[t])
    ensures End(run').c.m.hist == End(run).c.m.hist + [e]
    ensures O.Performs(End(run').c.pc[t], e) && e.now == End(run).c.m.clock
    ensures e.ERead? ==>
              && End(run').c.pc[t].r.answer == e.answer == Lookup(Replay(End(run).c.m.hist), e.key, e.now)
              && End(run').c.pc[t].r.at == |End(run).c.m.hist|
  {
    var h := End(run).c.m.hist;
    run' := Finish(run, pages, t, h);
    RunKeepsInv(run', pages, |run'| - 1);
    e := S.ReturnsWithEffect(h, End(run').c, t);
    if e.ERead? {
      S.LastIsLookup(h, e, End(run').c.m.clock);
    }
  }

  // ---------------------------------------------------------------------
  // One request, alone
  // ---------------------------------------------------------------------

  /** Thread `t` is between cache operations, in phase `ph`, and nothing else goes on. */
  predicate Between(s: State, t: M.Tid, ph: Phase) {
    Alone(s, t) && s.phase[t] == ph && s.c.pc[t] == M.Idle
  }

  /** The request's record so far, and the clock, stand still. */
  predicate SameRecords(s: State, s': State) {
    s'.fetches == s.fetches && s'.served == s.served && s'.c.m.clock == s.c.m.clock
  }

  /** A request arrives and the cache answers. */
  lemma LookUp(run: seq<State>, pages: Pages, t: M.Tid, k: Key) returns (run': seq<State>, e: Event)
    requires IsRun(run, pages) && Between(End(run), t, Idle)
    ensures IsRun(run', pages) && SameRecords(End(run), End(run')) && Alone(End(run'), t)
    ensures End(run').c.m.hist == End(run).c.m.hist + [e] && e.ERead?
    ensures End(run').phase[t] == Looking(k)
    ensures var p := End(run').c.pc[t];
            && p.Reading? && p.r.Return? && p.r.at == |End(run).c.m.hist|
            && p.r.answer == Lookup(Replay(End(run).c.m.hist), k, End(run).c.m.clock)
  {
    var s := End(run);
    var c := M.State(s.c.m, s.c.pc[t := M.Reading(k, |s.c.m.hist|, M.PMutexIn)]);
    var s' := s.(c := c, phase := s.phase[t := Looking(k)]);
    assert Begin(s, t, k, s');
    var longer := Extend(run, pages, t, s');
    run', e := Complete(longer, pages, t);
  }

  /** The lookup finds a valid entry, and the client gets it. */
  lemma GetHit(run: seq<State>, pages: Pages, t: M.Tid, k: Key, gr: GetResponse) returns (run': seq<State>)
    requires IsRun(run, pages) && Between(End(run), t, Idle)
    requires Lookup(Replay(End(run).c.m.hist), k, End(run).c.m.clock) == Answer(Valid, gr)
    ensures IsRun(run', pages) && Between(End(run'), t, Idle)
    ensures End(run').served == End(run).served + [FromCache(k, |End(run).c.m.hist|, false, gr.response)]
    ensures End(run').fetches == End(run).fetches
  {
    var looked, e := LookUp(run, pages, t, k);
    var s := End(looked);
    var served := s.served + [FromCache(k, s.c.pc[t].r.at, false, gr.response)];
    var s' := State(M.State(s.c.m, s.c.pc[t := M.Idle]), s.phase[t := Idle], s.fetches, served);
    assert M.Step(s.c, t, M.Go, s'.c);
    assert Answered(s, t, s');
    run' := Extend(looked, pages, t, s');
  }

  /** The lookup finds nothing, and the handler turns to the origin. */
  lemma GetMiss(run: seq<State>, pages: Pages, t: M.Tid, k: Key) returns (run': seq<State>)
    requires IsRun(run, pages) && Between(End(run), t, Idle) && FirstMatch(Replay(End(run).c.m.hist), k) == None
    ensures IsRun(run', pages) && SameRecords(End(run), End(run'))
    ensures Between(End(run'), t, Fetching(k, |End(run).c.m.hist|))
    ensures Replay(End(run').c.m.hist) == Replay(End(run).c.m.hist)
  {
    var looked, e := LookUp(run, pages, t, k);
    var s := End(looked);
    ReplayAppend(End(run).c.m.hist, e);
    var s' := s.(c := M.State(s.c.m, s.c.pc[t := M.Idle]), phase := s.phase[t := Fetching(k, s.c.pc[t].r.at)]);
    assert M.Step(s.c, t, M.Go, s'.c);
    assert Answered(s, t, s');
    run' := Extend(looked, pages, t, s');
  }

  /** The origin's response goes to the client. */
  lemma GetFetch(run: seq<State>, pages: Pages, t: M.Tid, r: Record, at: nat) returns (run': seq<State>)
    requires IsRun(run, pages) && Between(End(run), t, Fetching(r.key, at)) && r.now == End(run).c.m.clock
    requires r.f == Fetch(r.stream, r.junk, pages) && !r.f.discarded
    requires |r.junk| >= Scan(EMPTY_HEAD, r.stream).0.contentLength
    ensures IsRun(run', pages) && Between(End(run'), t, Deciding(r.key, |End(run).fetches|))
    ensures End(run').fetches == End(run).fetches + [r] && End(run').c == End(run).c
    ensures End(run').served == End(run).served + [FromOrigin(r.key, at, |End(run).fetches|, r.f.sent)]
  {
    var s := End(run);
    var i := |s.fetches|;
    var served := s.served + [FromOrigin(r.key, at, i, r.f.sent)];
    var s' := State(s.c, s.phase[t := Deciding(r.key, i)], s.fetches + [r], served);
    assert Fetches(s, t, r, pages, s');
    run' := Extend(run, pages, t, s');
  }

  /** And into the cache. */
  lemma GetStore(run: seq<State>, pages: Pages, t: M.Tid, k: Key, i: nat) returns (run': seq<State>)
    requires IsRun(run, pages) && Between(End(run), t, Deciding(k, i)) && i < |End(run).fetches|
    requires !End(run).fetches[i].f.discarded
    requires Lifetime(End(run).fetches[i].f.cp, End(run).fetches[i].f.cacheTime).Some?
    ensures IsRun(run', pages) && Between(End(run'), t, Idle) && SameRecords(End(run), End(run'))
    ensures Replay(End(run').c.m.hist) == Kept(Replay(End(run).c.m.hist), k, End(run).fetches[i].f, End(run).c.m.clock)
  {
    var s := End(run);
    var f := s.fetches[i].f;
    var gr := Built(f, Lifetime(f.cp, f.cacheTime).value, s.c.m.clock);
    var c := M.State(s.c.m, s.c.pc[t := M.Writing(k, |s.c.m.hist|, gr, M.WPW)]);
    var s' := s.(c := c, phase := s.phase[t := Storing(k, i)]);
    assert M.Step(s.c, t, M.StartWrite(k, gr), c);
    assert Stores(s, t, s');
    var longer := Extend(run, pages, t, s');
    var written, e := Complete(longer, pages, t);
    ReplayAppend(s.c.m.hist, e);
    var w := End(written);
    var w' := w.(c := M.State(w.c.m, w.c.pc[t := M.Idle]), phase := w.phase[t := Idle]);
    assert M.Step(w.c, t, M.Go, w'.c);
    assert Stored(w, t, w');
    run' := Extend(written, pages, t, w');
  }

  /** A request for a key that is not cached, answered by a response that can be stored. */
  lemma GetAndStore(run: seq<State>, pages: Pages, t: M.Tid, r: Record) returns (run': seq<State>)
    requires IsRun(run, pages) && Between(End(run), t, Idle) && FirstMatch(Replay(End(run).c.m.hist), r.key) == None
    requires r.f == Fetch(r.stream, r.junk, pages) && !r.f.discarded && Lifetime(r.f.cp, r.f.cacheTime).Some?
    requires r.now == End(run).c.m.clock
    requires |r.junk| >= Scan(EMPTY_HEAD, r.stream).0.contentLength
    ensures IsRun(run', pages) && Between(End(run'), t, Idle) && End(run').c.m.clock == End(run).c.m.clock
    ensures Replay(End(run').c.m.hist) == Kept(Replay(End(run).c.m.hist), r.key, r.f, End(run).c.m.clock)
    ensures End(run').served ==
            End(run).served + [FromOrigin(r.key, |End(run).c.m.hist|, |End(run).fetches|, r.f.sent)]
  {
    run' := GetMiss(run, pages, t, r.key);
    run' := GetFetch(run', pages, t, r, |End(run).c.m.hist|);
    run' := GetStore(run', pages, t, r.key, |End(run').fetches| - 1);
  }

  // ---------------------------------------------------------------------
  // What can happen
  // ---------------------------------------------------------------------

  /** The proxy with one worker and nothing to do. */
  lemma Start(pages: Pages) returns (run: seq<State>)
    ensures IsRun(run, pages) && Between(End(run), 0, Idle)
    ensures End(run).c.m.hist == [] && End(run).served == []
  {
    var head := M.Cell(Key("", ""), NO_RESPONSE, M.TAIL, M.NULL);
    var tail := M.Cell(Key("", ""), NO_RESPONSE, M.NULL, M.HEAD);
    var heap := map[M.HEAD := head, M.TAIL := tail];
    var m := M.Memory(1, 1, 1, 0, 0, heap, 0, false, [M.HEAD, M.TAIL], 0, []);
    run := [State(M.State(m, map[0 := M.Idle]), map[0 := Idle], [], [])];
    assert M.Init(End(run).c);
  }

  /** An answer from the cache with no contact to the origin: two requests for the same key, of
      which the first is answered by the origin, and the second by the cache with the same bytes. */
  lemma ServingIsReachable(k: Key, pages: Pages) returns (run: seq<State>)
    ensures IsRun(run, pages) && |End(run).served| == 2
    ensures End(run).served[0].FromOrigin? && End(run).served[1].FromCache? && !End(run).served[1].revalidated
    ensures End(run).served[0].key == k == End(run).served[1].key
    ensures End(run).served[0].bytes == End(run).served[1].bytes
  {
    var body := Ascii("hello");
    var s, head := SampleOf(body);
    SampleFetch(s, head, body, [], pages);
    var f := Fetch(s, [], pages);
    run := Start(pages);
    var clock := End(run).c.m.clock;
    run := GetAndStore(run, pages, 0, Record(k, s, [], f, clock));
    HelloIsText(body);
    FreshEntryIsValid(k, f, clock, pages);
    run := GetHit(run, pages, 0, k, Built(f, 9, clock));
  }

  lemma HelloIsText(body: Bytes)
    requires body == Ascii("hello")
    ensures NUL !in body
  {
  }

  lemma FreshEntryIsValid(k: Key, f: Fetched, clock: int, pages: Pages)
    requires !f.discarded && f.cp == CpCacheTimeDefined && f.cacheTime == 9 && |f.text| <= MAX_OBJECT_SIZE
    ensures Lookup(Kept([], k, f, clock), k, clock) == Answer(Valid, Built(f, 9, clock))
  {
  }

  /** Distinct resources of one host. */
  function Resource(n: nat): Key {
    Key("h", seq(n, _ => 'u'))
  }

  /** Requests for `n` resources of the largest accepted size: all are kept. */
  lemma {:induction false} Outgrow(pages: Pages, n: nat) returns (run: seq<State>)
    ensures IsRun(run, pages) && Between(End(run), 0, Idle)
    ensures TotalSize(Replay(End(run).c.m.hist)) == n * MAX_OBJECT_SIZE
    ensures forall i: nat :: i >= n ==> NoMatch(Replay(End(run).c.m.hist), Resource(i))
  {
    if n == 0 {
      run := Start(pages);
    } else {
      run := Outgrow(pages, n - 1);
      run := GrowByOne(run, pages, Replay(End(run).c.m.hist), n);
    }
  }

  lemma GrowByOne(run: seq<State>, pages: Pages, list: seq<Entry>, n: nat) returns (run': seq<State>)
    requires IsRun(run, pages) && Between(End(run), 0, Idle) && Replay(End(run).c.m.hist) == list && n > 0
    requires forall i: nat :: i >= n - 1 ==> NoMatch(list, Resource(i))
    ensures IsRun(run', pages) && Between(End(run'), 0, Idle)
    ensures TotalSize(Replay(End(run').c.m.hist)) == MAX_OBJECT_SIZE + TotalSize(list)
    ensures forall i: nat :: i >= n ==> NoMatch(Replay(End(run').c.m.hist), Resource(i))
  {
    var k, clock := Resource(n - 1), End(run).c.m.clock;
    var s := FullSample([], pages);
    var f := Fetch(s, [], pages);
    FirstMatchNone(list, k);
    run' := GetAndStore(run, pages, 0, Record(k, s, [], f, clock));
    FullEntryFits(list, k, f, clock, n);
  }

  lemma FullEntryFits(list: seq<Entry>, k: Key, f: Fetched, clock: int, n: nat)
    requires n > 0 && k == Resource(n - 1) && forall i: nat :: i >= n - 1 ==> NoMatch(list, Resource(i))
    requires !f.discarded && f.cp == CpCacheTimeDefined && f.cacheTime == 9 && |f.text| == MAX_OBJECT_SIZE
    ensures TotalSize(Kept(list, k, f, clock)) == MAX_OBJECT_SIZE + TotalSize(list)
    ensures forall i: nat :: i >= n ==> NoMatch(Kept(list, k, f, clock), Resource(i))
  {
    var kept := Kept(list, k, f, clock);
    assert kept == [Entry(k, Built(f, 9, clock))] + list && kept[1..] == list;
    forall i: nat | i >= n ensures NoMatch(kept, Resource(i)) {
      assert |Resource(i).uri| != |k.uri|;
      assert NoMatch(list, Resource(i));
    }
  }

  /** The documented bound on the whole cache does not hold of the proxy: after eleven requests
      the list in memory is larger than that. */
  lemma DocumentedBoundBreaks(pages: Pages) returns (run: seq<State>)
    ensures IsRun(run, pages) && H.Chain(End(run).c.m)
    ensures TotalSize(H.Contents(End(run).c.m)) > MAX_CACHE_SIZE
  {
    run := Outgrow(pages, 11);
    RunKeepsInv(run, pages, |run| - 1);
  }
}
