// What holds in every run of the concurrent cache.
module CacheRuns {
  import opened Wrappers
  import opened CacheSpec
  import opened CacheMachine
  import opened CacheLocks
  import opened CacheHeap

  ghost predicate Inv(s: State) {
    && LockInv(s)
    && Chain(s.m) && s.m.totalSize == 0 && AtomicHistory(s.m.hist, s.m.clock)
    && (forall t :: t in s.pc ==> Knows(s.m, t, s.pc[t]))
    && ((forall t :: t in s.pc ==> !WriterIn(s.pc[t])) ==> Calm(s.m))
  }

  lemma InitInv(s: State)
    requires Init(s)
    ensures Inv(s)
  {
    LockInit(s);
    assert Contents(s.m) == [];
    assert HEAD == s.m.nodes[0] && TAIL == s.m.nodes[1];
  }

  /** What the step of a thread itself keeps. */
  predicate Kept(m: Memory, t: Tid, p: PC, m': Memory, p': PC) {
    && Chain(m') && AtomicHistory(m'.hist, m'.clock) && Appends(m, m') && Knows(m', t, p')
    && (!WriterIn(p) ==> SameList(m, m') && Replay(m'.hist) == Replay(m.hist))
    && (WriterIn(p) && !WriterIn(p') ==> Calm(m'))
  }

  predicate Ready(m: Memory, t: Tid, p: PC, p': PC) {
    && Chain(m) && AtomicHistory(m.hist, m.clock) && Knows(m, t, p) && m.totalSize == 0
    && (ReaderIn(p) || (!WriterIn(p) && WriterIn(p')) ==> Calm(m))
  }

  lemma ReaderKeeps(m: Memory, t: Tid, p: PC, c: Choice, m': Memory, p': PC)
    requires Ready(m, t, p, p') && ThreadStep(m, t, p, c, m', p') && p.Reading? && !Returning(p)
    ensures Kept(m, t, p, m', p')
  {
    ReadKeeps(m, t, p.k, p.start, p.r, m', p'.r);
  }

  lemma WriterKeeps(m: Memory, t: Tid, p: PC, c: Choice, m': Memory, p': PC)
    requires Ready(m, t, p, p') && ThreadStep(m, t, p, c, m', p') && p.Writing? && !Returning(p)
    ensures Kept(m, t, p, m', p')
  {
    WriteKeeps(m, t, p.k, p.start, p.gr, p.w, c, m', p'.w);
    WriteKept(m, t, p.k, p.start, p.gr, p.w, m', p'.w);
  }

  lemma WriteKept(m: Memory, t: Tid, k: Key, start: nat, gr: GetResponse, w: WritePc, m': Memory, w': WritePc)
    requires Appends(m, m') && start <= |m.hist| && gr.writeTime <= m.clock && !w.WReturn?
    requires Chain(m') && AtomicHistory(m'.hist, m'.clock) && WriterKnows(m', t, k, start, gr, w')
    requires w.WPW? ==> SameList(m, m') && m'.hist == m.hist
    requires !w'.WPW? && (w'.WReturn? ==> Calm(m'))
    ensures Kept(m, t, Writing(k, start, gr, w), m', Writing(k, start, gr, w'))
  {
  }

  lemma ClearerKeeps(m: Memory, t: Tid, p: PC, c: Choice, m': Memory, p': PC)
    requires Ready(m, t, p, p') && ThreadStep(m, t, p, c, m', p') && p.Clearing? && !Returning(p)
    ensures Kept(m, t, p, m', p')
  {
    ClearKeeps(m, t, p.k, p.start, p.c, m', p'.c);
  }

  lemma ThreadKeeps(m: Memory, t: Tid, p: PC, c: Choice, m': Memory, p': PC)
    requires Ready(m, t, p, p') && ThreadStep(m, t, p, c, m', p')
    ensures Kept(m, t, p, m', p')
  {
    if Returning(p) || p.Idle? || p.Logging? {
      ContentsFrame(m, m');
    } else if p.Reading? {
      ReaderKeeps(m, t, p, c, m', p');
    } else if p.Writing? {
      WriterKeeps(m, t, p, c, m', p');
    } else {
      ClearerKeeps(m, t, p, c, m', p');
    }
  }

  /** When no writer is inside, the list is whole. */
  lemma CalmUnlessWriter(s: State, t: Tid)
    requires Inv(s) && t in s.pc && (ReaderIn(s.pc[t]) || s.m.w > 0)
    ensures Calm(s.m)
  {
    forall u | u in s.pc ensures !WriterIn(s.pc[u]) {
      if ReaderIn(s.pc[t]) {
        NoReaderWithWriter(s, t, u);
      } else {
        FreeMeansEmpty(s, u);
      }
    }
  }

  lemma StepKeepsInv(s: State, t: Tid, c: Choice, s': State)
    requires Inv(s) && Step(s, t, c, s')
    ensures Inv(s')
  {
    var p, p' := s.pc[t], s'.pc[t];
    LockStep(s, t, c, s');
    if ReaderIn(p) || (!WriterIn(p) && WriterIn(p')) {
      EntryNeedsW(s, t, c, s');
      CalmUnlessWriter(s, t);
    }
    ThreadKeeps(s.m, t, p, c, s'.m, p');
    StepKeepsOthers(s, t, s');
  }

  /** A thread enters as a writer only through P(W). */
  lemma EntryNeedsW(s: State, t: Tid, c: Choice, s': State)
    requires Step(s, t, c, s')
    ensures !WriterIn(s.pc[t]) && WriterIn(s'.pc[t]) ==> s.m.w > 0
  {
  }

  lemma StepKeepsOthers(s: State, t: Tid, s': State)
    requires Inv(s) && t in s.pc && t in s'.pc && s'.pc == s.pc[t := s'.pc[t]]
    requires LockInv(s') && Kept(s.m, t, s.pc[t], s'.m, s'.pc[t])
    ensures Inv(s')
  {
    forall u | u in s'.pc ensures Knows(s'.m, u, s'.pc[u]) {
      if u != t {
        OthersKeep(s, t, u, s'.m);
      }
    }
    if (forall u :: u in s'.pc ==> !WriterIn(s'.pc[u])) && !WriterIn(s.pc[t]) {
      assert forall u :: u in s.pc && u != t ==> s'.pc[u] == s.pc[u];
      ContentsFrame(s.m, s'.m);
    }
  }

  /** Another thread loses nothing by the step of `t`. */
  lemma OthersKeep(s: State, t: Tid, u: Tid, m': Memory)
    requires Inv(s) && t in s.pc && u in s.pc && u != t
    requires Chain(m') && Appends(s.m, m')
    requires !WriterIn(s.pc[t]) ==> SameList(s.m, m') && Replay(m'.hist) == Replay(s.m.hist)
    ensures Knows(m', u, s.pc[u])
  {
    if WriterIn(s.pc[t]) {
      if WriterIn(s.pc[u]) {
        OneWriter(s, t, u);
      } else if ReaderIn(s.pc[u]) {
        NoReaderWithWriter(s, u, t);
      }
    }
    KnowsFrame(s.m, m', u, s.pc[u]);
  }

  lemma TickKeepsInv(s: State, s': State)
    requires Inv(s) && Tick(s, s')
    ensures Inv(s')
  {
    ContentsFrame(s.m, s'.m);
    forall u | u in s'.pc ensures Knows(s'.m, u, s'.pc[u]) {
      KnowsFrame(s.m, s'.m, u, s.pc[u]);
    }
    assert forall u :: u in s.pc ==> MutexHolderKnows(s.pc[u], s.m.numReader, s.m.shared);
  }

  lemma NextKeepsInv(s: State, s': State)
    requires Inv(s) && NextState(s, s')
    ensures Inv(s')
  {
    if Tick(s, s') {
      TickKeepsInv(s, s');
    } else {
      var t, c :| Step(s, t, c, s');
      StepKeepsInv(s, t, c, s');
    }
  }

  lemma {:induction false} RunKeepsInv(run: seq<State>, i: nat)
    requires IsRun(run) && i < |run|
    ensures Inv(run[i])
  {
    if i == 0 {
      InitInv(run[0]);
    } else {
      RunKeepsInv(run, i - 1);
      NextKeepsInv(run[i - 1], run[i]);
    }
  }

  // ---------------------------------------------------------------------
  // Safety
  // ---------------------------------------------------------------------

  /** Readers/writers safety, for any number of threads. */
  lemma MutualExclusion(run: seq<State>, i: nat, t: Tid, u: Tid)
    requires IsRun(run) && i < |run| && t in run[i].pc && u in run[i].pc && t != u && WriterIn(run[i].pc[t])
    ensures !WriterIn(run[i].pc[u]) && !ReaderIn(run[i].pc[u])
  {
    RunKeepsInv(run, i);
    if WriterIn(run[i].pc[u]) {
      OneWriter(run[i], t, u);
    }
    if ReaderIn(run[i].pc[u]) {
      NoReaderWithWriter(run[i], u, t);
    }
  }

  lemma KnowsIsSafe(m: Memory, t: Tid, p: PC)
    requires Chain(m) && Knows(m, t, p)
    ensures Safe(m, p)
  {
    assert m.heap[m.nodes[0]].next == m.nodes[1];
    if p.Clearing? && (p.c.UnlinkPrev? || p.c.UnlinkNext?) {
      assert m.heap[m.nodes[p.c.i]].next == m.nodes[p.c.i + 1];
      assert m.heap[m.nodes[p.c.i]].prev == m.nodes[p.c.i - 1];
    }
  }

  /** No thread ever dereferences a node that was freed or never allocated. */
  lemma MemorySafety(run: seq<State>, i: nat, t: Tid)
    requires IsRun(run) && i < |run| && t in run[i].pc
    ensures Safe(run[i].m, run[i].pc[t])
  {
    RunKeepsInv(run, i);
    KnowsIsSafe(run[i].m, t, run[i].pc[t]);
  }

  /** Where a reader stands in the list, if anywhere. */
  function Cursor(r: ReadPc): Option<Addr> {
    match r
    case Loop(cur, _) => Some(cur)
    case Next(cur, _) => Some(cur)
    case Before(cur, _) => Some(cur)
    case Clock(cur, _, _) => Some(cur)
    case CopyGr(cur, _, _, _) => Some(cur)
    case Compare(cur, _, _, _, _) => Some(cur)
    case _ => None
  }

  /** A traversing reader stands on a node linked in both directions, of a list that
      holds exactly what the operations so far put there. */
  lemma ReadersSeeWholeList(run: seq<State>, i: nat, t: Tid)
    requires IsRun(run) && i < |run| && t in run[i].pc && run[i].pc[t].Reading? && Cursor(run[i].pc[t].r).Some?
    ensures Cursor(run[i].pc[t].r).value in run[i].m.nodes && Calm(run[i].m)
  {
    RunKeepsInv(run, i);
    CalmUnlessWriter(run[i], t);
  }

  // ---------------------------------------------------------------------
  // Linearizability
  // ---------------------------------------------------------------------

  /** The history of every run is a history of an atomic cache. */
  lemma HistoryIsAtomic(run: seq<State>, i: nat)
    requires IsRun(run) && i < |run|
    ensures AtomicHistory(run[i].m.hist, run[i].m.clock)
  {
    RunKeepsInv(run, i);
  }

  /** A read that returns is one event of the history, later than its call, and returns
      what an atomic lookup returned at that event. */
  lemma ReadIsAtomic(run: seq<State>, i: nat, t: Tid) returns (at: nat)
    requires IsRun(run) && i < |run| && t in run[i].pc && run[i].pc[t].Reading? && run[i].pc[t].r.Return?
    ensures run[i].pc[t].start <= at < |run[i].m.hist|
    ensures run[i].m.hist[at].ERead? && run[i].m.hist[at].tid == t && run[i].m.hist[at].key == run[i].pc[t].k
    ensures run[i].pc[t].r.answer == Lookup(Replay(run[i].m.hist[..at]), run[i].pc[t].k, run[i].m.hist[at].now)
  {
    RunKeepsInv(run, i);
    at := run[i].pc[t].r.at;
    assert Knows(run[i].m, t, run[i].pc[t]);
    assert AtomicAt(run[i].m.hist, at);
  }

  /** A write or clear that returns is one event of the history, later than its call. */
  lemma UpdateIsAtomic(run: seq<State>, i: nat, t: Tid) returns (at: nat)
    requires IsRun(run) && i < |run| && t in run[i].pc && Returning(run[i].pc[t]) && !run[i].pc[t].Reading?
    ensures run[i].pc[t].start <= at < |run[i].m.hist|
    ensures run[i].m.hist[at].tid == t && run[i].m.hist[at].key == run[i].pc[t].k
    ensures run[i].pc[t].Writing? ==> run[i].m.hist[at].EWrite? && run[i].m.hist[at].gr == run[i].pc[t].gr
    ensures run[i].pc[t].Clearing? ==> run[i].m.hist[at].EClear?
  {
    RunKeepsInv(run, i);
    assert Knows(run[i].m, t, run[i].pc[t]);
    at := if run[i].pc[t].Writing? then run[i].pc[t].w.at else run[i].pc[t].c.at;
  }

  /** When no writer is inside, the list in memory holds exactly the replay of the history,
      both link directions agree, and no node has leaked. */
  lemma QuietListIsReplay(run: seq<State>, i: nat)
    requires IsRun(run) && i < |run| && forall t :: t in run[i].pc ==> !WriterIn(run[i].pc[t])
    ensures Chain(run[i].m) && run[i].m.brk == 0 && run[i].m.totalSize == 0
    ensures Contents(run[i].m) == Replay(run[i].m.hist)
    ensures run[i].m.heap.Keys == set a | a in run[i].m.nodes
  {
    RunKeepsInv(run, i);
    var m := run[i].m;
    assert HEAD == m.nodes[0];
  }

  lemma InvIsBacked(s: State)
    requires Inv(s)
    ensures Chain(s.m) && Backed(s.m)
  {
    if t :| t in s.pc && WriterIn(s.pc[t]) {
      assert Knows(s.m, t, s.pc[t]);
    }
  }

  /** In every reachable state, with a writer inside or not, every entry in memory is one the
      operations so far put there. */
  lemma MemoryIsBacked(run: seq<State>, i: nat)
    requires IsRun(run) && i < |run|
    ensures Chain(run[i].m) && Backed(run[i].m)
  {
    RunKeepsInv(run, i);
    InvIsBacked(run[i]);
  }

  /** A read that finds an entry returns the last accepted write of its key, not cleared since. */
  lemma FoundReadsAreLatest(h: seq<Event>, clock: int, i: nat) returns (j: nat)
    requires AtomicHistory(h, clock) && i < |h| && h[i].ERead? && h[i].answer.status != NotFound
    ensures LastDecision(h[..i], h[i].key, j) && h[j].EWrite? && h[j].gr == h[i].answer.gr
    ensures h[j].gr.writeTime <= h[j].now <= h[i].now
  {
    var k, before := h[i].key, h[..i];
    assert AtomicAt(h, i);
    ReplayRefinesView(before, k);
    var gr := h[i].answer.gr;
    assert k in View(before) && View(before)[k] == gr;
    ViewIsLastDecision(before, k, gr);
    j :| LastDecision(before, k, j) && before[j].EWrite? && before[j].gr == gr;
    assert before[j] == h[j];
    assert AtomicAt(h, j);
  }

  /** Freshness (the lifetime test of section 4.2 of RFC 9111): when a read reports its entry
      valid, the age of that write at the lookup is below its lifetime. */
  lemma ValidReadsAreFresh(h: seq<Event>, clock: int, i: nat) returns (j: nat)
    requires AtomicHistory(h, clock) && i < |h| && h[i].ERead? && h[i].answer.status == Valid
    ensures LastDecision(h[..i], h[i].key, j) && h[j].EWrite? && h[j].gr == h[i].answer.gr
    ensures h[j].gr.writeTime <= h[j].now <= h[i].now
    ensures h[i].now - h[j].gr.writeTime < h[j].gr.validTime
  {
    j := FoundReadsAreLatest(h, clock, i);
    assert AtomicAt(h, i);
  }

  /** A read finds nothing if and only if no last decision on its key is a write. */
  lemma MissedReadsHadNothing(h: seq<Event>, clock: int, i: nat)
    requires AtomicHistory(h, clock) && i < |h| && h[i].ERead?
    ensures h[i].answer.status == NotFound <==> !exists j: nat :: LastDecision(h[..i], h[i].key, j) && h[j].EWrite?
  {
    var k, before := h[i].key, h[..i];
    assert AtomicAt(h, i);
    ReplayRefinesView(before, k);
    if k in View(before) {
      ViewIsLastDecision(before, k, View(before)[k]);
      var j: nat :| LastDecision(before, k, j) && before[j].EWrite? && before[j].gr == View(before)[k];
      assert LastDecision(before, k, j) && h[j].EWrite?;
    } else if j: nat :| LastDecision(before, k, j) && h[j].EWrite? {
      assert before[j].EWrite?;
      ViewIsLastDecision(before, k, before[j].gr);
    }
  }

  /** Freshness, the other way as well: of a key whose last decision is a write, a read reports
      that write valid if and only if its age at the lookup is below its lifetime. */
  lemma ReadsAreValidWhenYoung(h: seq<Event>, clock: int, i: nat, j: nat)
    requires AtomicHistory(h, clock) && i < |h| && h[i].ERead?
    requires LastDecision(h[..i], h[i].key, j) && h[j].EWrite?
    ensures h[i].answer.gr == h[j].gr && h[i].answer.status != NotFound
    ensures h[i].answer.status == Valid <==> h[i].now - h[j].gr.writeTime < h[j].gr.validTime
  {
    var k, before := h[i].key, h[..i];
    assert AtomicAt(h, i) && AtomicAt(h, j) && before[j] == h[j];
    ViewIsLastDecision(before, k, h[j].gr);
    ReplayRefinesView(before, k);
    LookupVerdict(Replay(before), k, h[i].now);
  }

  // ---------------------------------------------------------------------
  // Deadlock freedom
  // ---------------------------------------------------------------------

  lemma FreshAddress(heap: map<Addr, Cell>) returns (a: Addr)
    ensures a !in heap && a != NULL
  {
    var keys: set<nat> := heap.Keys + {NULL};
    a := Bound(keys);
  }

  lemma {:induction false} Bound(keys: set<nat>) returns (b: nat)
    ensures forall x :: x in keys ==> x < b
  {
    if keys == {} {
      b := 0;
    } else {
      var x :| x in keys;
      var b' := Bound(keys - {x});
      b := if x < b' then b' else x + 1;
      assert forall y :: y in keys ==> y == x || y in keys - {x};
    }
  }

  /** A thread that is not waiting for a semaphore, and whose pointers are good, has a step. */
  lemma RunnableSteps(m: Memory, t: Tid, p: PC) returns (c: Choice, m': Memory, p': PC)
    requires Safe(m, p) && p != Idle && !Blocked(m, p)
    ensures ThreadStep(m, t, p, c, m', p')
  {
    var a := FreshAddress(m.heap);
    c := Alloc(a);
    if Returning(p) {
      m', p' := m, Idle;
    } else {
      match p
      case Reading(k, start, r) =>
        m', p' := ReadTo(m, t, k, start, r).0, Reading(k, start, ReadTo(m, t, k, start, r).1);
      case Writing(k, start, gr, w) =>
        m', p' := WriteTo(m, t, k, start, gr, w, a).0, Writing(k, start, gr, WriteTo(m, t, k, start, gr, w, a).1);
      case Clearing(k, start, cl) =>
        m', p' := ClearTo(m, t, k, start, cl).0, Clearing(k, start, ClearTo(m, t, k, start, cl).1);
      case Logging(true) => m', p' := m.(log := m.log + 1), Idle;
      case Logging(false) => m', p' := m.(log := m.log - 1), Logging(true);
    }
  }

  /** Deadlock freedom: while any operation is under way, some thread in the middle of an
      operation can take its next step. */
  lemma DeadlockFree(run: seq<State>, i: nat, t: Tid)
    requires IsRun(run) && i < |run| && t in run[i].pc && run[i].pc[t] != Idle
    ensures exists u, c, s' :: u in run[i].pc && run[i].pc[u] != Idle && Step(run[i], u, c, s')
  {
    RunKeepsInv(run, i);
    var s := run[i];
    var u := SomeThreadRuns(s, t);
    KnowsIsSafe(s.m, u, s.pc[u]);
    var c, m', p' := RunnableSteps(s.m, u, s.pc[u]);
    assert Step(s, u, c, State(m', s.pc[u := p']));
  }
}
