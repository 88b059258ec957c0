// The lock favours readers: while a reader is inside and a writer waits,
// any number of further reads can start and finish.
module ReaderPreference {
  import opened CacheSpec
  import opened Threads
  import opened CacheMachine
  import opened CacheLocks
  import opened CacheHeap
  import opened CacheRuns

  /** The last state of a run. */
  function End(run: seq<State>): State
    requires |run| > 0
  {
    run[|run| - 1]
  }

  /** A writer at its P(W), waiting. */
  predicate Waiting(p: PC) {
    (p.Writing? && p.w.WPW?) || (p.Clearing? && p.c.CPW?)
  }

  /** Reader `r` is inside and stays where it is; writer `w` waits for W, which is taken. */
  predicate Held(s: State, r: Tid, w: Tid) {
    r in s.pc && w in s.pc && ReaderIn(s.pc[r]) && Waiting(s.pc[w]) && s.m.w == 0
  }

  /** `mutex` is free, unless `u` has it. */
  predicate MutexFor(s: State, u: Tid) {
    u in s.pc && s.m.mutex == 1 - One(HoldsMutex(s.pc[u]))
  }

  /** From `from` on, `r` and `w` do not move and W is never released. */
  predicate Stalled(run: seq<State>, from: nat, r: Tid, w: Tid) {
    && from < |run| && Held(run[from], r, w)
    && forall i :: from <= i < |run| ==>
         Held(run[i], r, w) && run[i].pc[r] == run[from].pc[r] && run[i].pc[w] == run[from].pc[w]
  }

  /** `h'` is `h` and `n` reads by `u` of key `k`. */
  predicate MoreReads(h: seq<Event>, h': seq<Event>, u: Tid, k: Key, n: nat) {
    && |h'| == |h| + n && (forall i :: 0 <= i < |h| ==> h'[i] == h[i])
    && forall i :: |h| <= i < |h'| ==> h'[i].ERead? && h'[i].tid == u && h'[i].key == k
  }

  /** How far a read is from returning, in a list of `n` nodes. */
  function Distance(r: ReadPc, n: nat): nat {
    match r
    case PMutexIn => 3 * n + 40
    case Increment => 3 * n + 39
    case TestFirst => 3 * n + 38
    case PW => 3 * n + 37
    case VMutexIn => 3 * n + 36
    case First => 3 * n + 35
    case Loop(_, i) => if i < n then 3 * (n - i) + 30 else 0
    case Next(_, i) => if i < n then 3 * (n - i) + 29 else 0
    case Before(_, _) => 24
    case Clock(_, _, _) => 23
    case CopyGr(_, _, _, _) => 22
    case Compare(_, _, _, _, _) => 21
    case PMutexOut(_, _) => 20
    case Decrement(_, _) => 19
    case TestLast(_, _) => 18
    case VW(_, _) => 17
    case VMutexOut(_, _) => 16
    case Return(_, _) => 15
  }

  /** Whether the read has already happened. */
  predicate Decided(r: ReadPc) {
    Distance(r, 0) <= 22 && !r.Loop? && !r.Next?
  }

  lemma ExtendRun(run: seq<State>, u: Tid, c: Choice, s': State)
    requires IsRun(run) && Step(End(run), u, c, s')
    ensures IsRun(run + [s'])
  {
    var run' := run + [s'];
    forall i | 0 <= i < |run'| - 1 ensures NextState(run'[i], run'[i + 1]) {
      if i < |run| - 1 {
        assert NextState(run[i], run[i + 1]);
      } else {
        assert run'[i] == End(run) && run'[i + 1] == s';
      }
    }
  }

  lemma ExtendStalled(run: seq<State>, from: nat, r: Tid, w: Tid, u: Tid, c: Choice, s': State)
    requires IsRun(run) && Stalled(run, from, r, w) && Step(End(run), u, c, s') && u != r && u != w && s'.m.w == 0
    ensures IsRun(run + [s']) && Stalled(run + [s'], from, r, w)
  {
    ExtendRun(run, u, c, s');
  }

  lemma ReadAdvances(m: Memory, t: Tid, k: Key, start: nat, r: ReadPc, m': Memory, r': ReadPc)
    requires Safe(m, Reading(k, start, r)) && ReadStep(m, t, k, start, r, m', r') && !r.PW? && !r.VW?
    requires r.TestFirst? ==> m.numReader > 1
    requires r.TestLast? ==> m.numReader > 0
    requires r.Loop? ==> r.i < |m.nodes|
    requires r.Next? ==> r.i < |m.nodes|
    ensures !r'.PW? && !r'.VW? && m'.w == m.w && m'.nodes == m.nodes
    ensures m'.mutex + One(HoldsMutex(Reading(k, start, r'))) == m.mutex + One(HoldsMutex(Reading(k, start, r)))
    ensures Distance(r', |m.nodes|) < Distance(r, |m.nodes|)
    ensures Decided(r) ==> Decided(r')
    ensures HoldsMutex(Reading(k, start, r)) ==> (Decided(r') <==> Decided(r))
    ensures MoreReads(m.hist, m'.hist, t, k, if !Decided(r) && Decided(r') then 1 else 0)
  {
  }

  /** One step of a reader that comes in, or goes out, while another reader is inside. */
  lemma ReaderAdvances(s: State, r: Tid, w: Tid, u: Tid, c: Choice, s': State)
    requires Inv(s) && Held(s, r, w) && MutexFor(s, u) && u != r && u != w
    requires s.pc[u].Reading? && !s.pc[u].r.PW? && !s.pc[u].r.VW?
    requires !s.pc[u].r.Return? && Step(s, u, c, s')
    ensures s'.pc[u].Reading? && s'.pc[u].k == s.pc[u].k && !s'.pc[u].r.PW? && !s'.pc[u].r.VW?
    ensures s'.m.w == 0 && MutexFor(s', u)
    ensures Distance(s'.pc[u].r, |s'.m.nodes|) < Distance(s.pc[u].r, |s.m.nodes|)
    ensures MoreReads(s.m.hist, s'.m.hist, u, s.pc[u].k, if !Decided(s.pc[u].r) && Decided(s'.pc[u].r) then 1 else 0)
    ensures Decided(s.pc[u].r) ==> Decided(s'.pc[u].r)
    ensures HoldsMutex(s.pc[u]) ==> (Decided(s'.pc[u].r) <==> Decided(s.pc[u].r))
  {
    var p := s.pc[u];
    assert Knows(s.m, u, p);
    CountAtLeastOne(s.pc, r, Counted);
    if p.r.TestFirst? {
      CountAtLeastTwo(s.pc, r, u, Counted);
    }
    ReadAdvances(s.m, u, p.k, p.start, p.r, s'.m, s'.pc[u].r);
  }

  /** A thread that is not blocked can be scheduled next. */
  lemma Schedule(s: State, u: Tid) returns (c: Choice, s': State)
    requires Inv(s) && u in s.pc && s.pc[u] != Idle && !Blocked(s.m, s.pc[u])
    ensures Step(s, u, c, s')
  {
    KnowsIsSafe(s.m, u, s.pc[u]);
    var m', p';
    c, m', p' := RunnableSteps(s.m, u, s.pc[u]);
    s' := State(m', s.pc[u := p']);
  }

  /** A reader on its way through, and what its next step makes of it. */
  predicate Passing(s: State, u: Tid) {
    u in s.pc && s.pc[u].Reading? && !s.pc[u].r.PW? && !s.pc[u].r.VW?
  }

  predicate Passes(s: State, u: Tid, s': State) {
    && Passing(s, u) && Passing(s', u) && s'.pc == s.pc[u := s'.pc[u]] && s'.pc[u].k == s.pc[u].k
    && (HoldsMutex(s.pc[u]) ==> (Decided(s'.pc[u].r) <==> Decided(s.pc[u].r)))
    && Distance(s'.pc[u].r, |s'.m.nodes|) < Distance(s.pc[u].r, |s.m.nodes|)
    && (Decided(s.pc[u].r) ==> Decided(s'.pc[u].r))
    && MoreReads(s.m.hist, s'.m.hist, u, s.pc[u].k, if !Decided(s.pc[u].r) && Decided(s'.pc[u].r) then 1 else 0)
  }

  lemma ReaderPasses(s: State, r: Tid, w: Tid, u: Tid) returns (c: Choice, s': State)
    requires Inv(s) && Held(s, r, w) && MutexFor(s, u) && u != r && u != w && Passing(s, u) && !s.pc[u].r.Return?
    ensures Step(s, u, c, s') && Passes(s, u, s') && MutexFor(s', u) && s'.m.w == 0
  {
    c, s' := Schedule(s, u);
    ReaderAdvances(s, r, w, u, c, s');
  }

  /** The next step of a reader that goes through while the writer waits. */
  lemma ReaderRuns(run: seq<State>, from: nat, r: Tid, w: Tid, u: Tid) returns (s': State)
    requires IsRun(run) && Stalled(run, from, r, w) && u != r && u != w && MutexFor(End(run), u)
    requires Passing(End(run), u) && !End(run).pc[u].r.Return?
    ensures IsRun(run + [s']) && Stalled(run + [s'], from, r, w) && MutexFor(s', u) && Passes(End(run), u, s')
  {
    RunKeepsInv(run, |run| - 1);
    var c;
    c, s' := ReaderPasses(End(run), r, w, u);
    ExtendStalled(run, from, r, w, u, c, s');
  }

  lemma ReaderReturns(run: seq<State>, from: nat, r: Tid, w: Tid, u: Tid) returns (s': State)
    requires IsRun(run) && Stalled(run, from, r, w) && u != r && u != w && MutexFor(End(run), u)
    requires End(run).pc[u].Reading? && End(run).pc[u].r.Return?
    ensures IsRun(run + [s']) && Stalled(run + [s'], from, r, w) && MutexFor(s', u)
    ensures s'.m == End(run).m && s'.pc[u] == Idle
  {
    s' := State(End(run).m, End(run).pc[u := Idle]);
    assert Step(End(run), u, Go, s');
    ExtendStalled(run, from, r, w, u, Go, s');
  }

  /** A reader that has started can finish, the writer still waiting. */
  lemma FinishRead(run: seq<State>, from: nat, r: Tid, w: Tid, u: Tid) returns (run': seq<State>)
    requires IsRun(run) && Stalled(run, from, r, w) && u != r && u != w && MutexFor(End(run), u)
    requires Passing(End(run), u)
    ensures IsRun(run') && Stalled(run', from, r, w) && MutexFor(End(run'), u) && End(run').pc[u] == Idle
    ensures run <= run'
    ensures MoreReads(End(run).m.hist, End(run').m.hist, u, End(run).pc[u].k,
                      if Decided(End(run).pc[u].r) then 0 else 1)
    decreases Distance(End(run).pc[u].r, |End(run).m.nodes|)
  {
    if End(run).pc[u].r.Return? {
      var s' := ReaderReturns(run, from, r, w, u);
      run' := run + [s'];
    } else {
      var s' := ReaderRuns(run, from, r, w, u);
      assert End(run + [s']) == s';
      run' := FinishRead(run + [s'], from, r, w, u);
    }
  }

  /** A reader that holds `mutex` while another reader is inside can go on until it releases it. */
  lemma RunToRelease(run: seq<State>, from: nat, r: Tid, w: Tid, v: Tid) returns (run': seq<State>)
    requires IsRun(run) && Stalled(run, from, r, w) && v != r && v != w && MutexFor(End(run), v)
    requires Passing(End(run), v)
    ensures IsRun(run') && run <= run' && Stalled(run', from, r, w) && End(run').m.mutex == 1
    ensures End(run').m.hist == End(run).m.hist
    ensures v in End(run').pc && End(run').pc == End(run).pc[v := End(run').pc[v]]
    decreases Distance(End(run).pc[v].r, |End(run).m.nodes|)
  {
    if !HoldsMutex(End(run).pc[v]) {
      run' := run;
    } else {
      var s' := ReaderRuns(run, from, r, w, v);
      assert End(run + [s']) == s';
      run' := RunToRelease(run + [s'], from, r, w, v);
    }
  }

  /** With a reader inside, whoever holds `mutex` is a reader that needs nothing else. */
  lemma HolderIsFree(s: State, r: Tid, w: Tid) returns (v: Tid)
    requires Inv(s) && Held(s, r, w) && s.m.mutex != 1
    ensures v != r && v != w && MutexFor(s, v)
    ensures Passing(s, v)
  {
    v := CountWitness(s.pc, HoldsMutex);
    ReaderInsideHoldsW(s, r);
    CountAtLeastOne(s.pc, r, Counted);
  }

  lemma NowStalled(run: seq<State>, r: Tid, w: Tid)
    requires |run| > 0 && Held(End(run), r, w)
    ensures Stalled(run, |run| - 1, r, w)
  {
  }

  lemma ReleaseMutex(run: seq<State>, r: Tid, w: Tid, u: Tid) returns (run': seq<State>)
    requires IsRun(run) && Held(End(run), r, w) && u in End(run).pc && End(run).pc[u] == Idle
    ensures IsRun(run') && run <= run' && Stalled(run', |run| - 1, r, w) && End(run').m.mutex == 1
    ensures End(run').m.hist == End(run).m.hist && u in End(run').pc && End(run').pc[u] == Idle
  {
    NowStalled(run, r, w);
    if End(run).m.mutex == 1 {
      run' := run;
    } else {
      RunKeepsInv(run, |run| - 1);
      var v := HolderIsFree(End(run), r, w);
      run' := RunToRelease(run, |run| - 1, r, w, v);
    }
  }

  /** Reader preference: in any run that ends with reader `r` inside and writer `w` waiting at
      P(W), an idle thread can go on to perform any number of complete reads of any key; the
      writer waits throughout and W is never released. */
  lemma {:induction false} ReadersOvertakeWriter(run: seq<State>, r: Tid, w: Tid, u: Tid, k: Key, n: nat)
    returns (run': seq<State>)
    requires IsRun(run) && Held(End(run), r, w)
    requires u in End(run).pc && u != r && u != w && End(run).pc[u] == Idle
    ensures IsRun(run') && run <= run' && Stalled(run', |run| - 1, r, w)
    ensures u in End(run').pc && End(run').pc[u] == Idle && End(run').m.mutex == 1
    ensures MoreReads(End(run).m.hist, End(run').m.hist, u, k, n)
  {
    if n == 0 {
      run' := ReleaseMutex(run, r, w, u);
    } else {
      var before := ReadersOvertakeWriter(run, r, w, u, k, n - 1);
      var s := End(before);
      var s' := s.(pc := s.pc[u := Reading(k, |s.m.hist|, PMutexIn)]);
      assert Step(s, u, StartRead(k), s');
      ExtendStalled(before, |run| - 1, r, w, u, StartRead(k), s');
      assert End(before + [s']) == s';
      run' := FinishRead(before + [s'], |run| - 1, r, w, u);
    }
  }

  /** The hypothesis is met: some run of three threads has a reader inside, a writer waiting,
      and an idle thread. */
  lemma WriterCanWait(k: Key, gr: GetResponse, cell: Cell) returns (run: seq<State>)
    ensures IsRun(run) && Held(End(run), 0, 1)
    ensures 2 in End(run).pc && End(run).pc[2] == Idle && End(run).m.mutex == 1
  {
    var heap := map[HEAD := cell.(next := TAIL), TAIL := cell.(prev := HEAD)];
    var m := Memory(1, 1, 1, 0, 0, heap, gr.writeTime, false, [HEAD, TAIL], 0, []);
    run := [State(m, map[0 := Idle, 1 := Idle, 2 := Idle])];
    assert IsRun(run);
    run := FirstReaderEnters(run, 0, k);
    run := Act(run, 1, StartWrite(k, gr), End(run).m, Writing(k, 0, gr, WPW));
  }

  lemma FirstReaderEnters(run: seq<State>, t: Tid, k: Key) returns (run': seq<State>)
    requires IsRun(run) && t in End(run).pc && End(run).pc[t] == Idle
    requires End(run).m.mutex == 1 && End(run).m.numReader == 0 && End(run).m.w == 1
    ensures IsRun(run')
    ensures End(run').m == End(run).m.(numReader := 1, w := 0, shared := true)
    ensures End(run').pc == End(run).pc[t := Reading(k, |End(run).m.hist|, First)]
  {
    var base, start := End(run).pc, |End(run).m.hist|;
    run' := FirstReaderCounts(run, t, k);
    run' := ActRead(run', base, t, k, start, TestFirst, PW);
    run' := ActRead(run', base, t, k, start, PW, VMutexIn);
    run' := ActRead(run', base, t, k, start, VMutexIn, First);
  }

  lemma FirstReaderCounts(run: seq<State>, t: Tid, k: Key) returns (run': seq<State>)
    requires IsRun(run) && t in End(run).pc && End(run).pc[t] == Idle
    requires End(run).m.mutex == 1 && End(run).m.numReader == 0
    ensures IsRun(run')
    ensures End(run').m == End(run).m.(mutex := 0, numReader := 1)
    ensures End(run').pc == End(run).pc[t := Reading(k, |End(run).m.hist|, TestFirst)]
  {
    var base, start := End(run).pc, |End(run).m.hist|;
    run' := Act(run, t, StartRead(k), End(run).m, Reading(k, start, PMutexIn));
    run' := ActRead(run', base, t, k, start, PMutexIn, Increment);
    run' := ActRead(run', base, t, k, start, Increment, TestFirst);
  }

  lemma ActRead(run: seq<State>, base: map<Tid, PC>, t: Tid, k: Key, start: nat, r: ReadPc, r': ReadPc)
    returns (run': seq<State>)
    requires IsRun(run) && t in base && End(run).pc == base[t := Reading(k, start, r)]
    requires r.PMutexIn? || r.Increment? || r.TestFirst? || r.PW? || r.VMutexIn?
    requires !Blocked(End(run).m, Reading(k, start, r)) && r' == ReadTo(End(run).m, t, k, start, r).1
    ensures IsRun(run')
    ensures End(run') == State(ReadTo(End(run).m, t, k, start, r).0, base[t := Reading(k, start, r')])
  {
    run' := Act(run, t, Go, ReadTo(End(run).m, t, k, start, r).0, Reading(k, start, r'));
    assert End(run').pc == base[t := Reading(k, start, r')];
  }

  lemma Act(run: seq<State>, t: Tid, c: Choice, m': Memory, p': PC) returns (run': seq<State>)
    requires IsRun(run) && t in End(run).pc && ThreadStep(End(run).m, t, End(run).pc[t], c, m', p')
    ensures IsRun(run') && End(run') == State(m', End(run).pc[t := p'])
  {
    var s' := State(m', End(run).pc[t := p']);
    ExtendRun(run, t, c, s');
    run' := run + [s'];
  }
}
