// The list in shared memory under interleaving: what every reachable state
// keeps about the chain of nodes, its contents, and each thread's pointers.
module CacheHeap {
  import opened CacheSpec
  import opened CacheMachine
  import opened CacheLocks

  // ---------------------------------------------------------------------
  // The chain
  // ---------------------------------------------------------------------

  predicate Allocated(heap: map<Addr, Cell>, nodes: seq<Addr>) {
    forall i :: 0 <= i < |nodes| ==> nodes[i] in heap
  }

  predicate Distinct(nodes: seq<Addr>) {
    forall i, j :: 0 <= i < j < |nodes| ==> nodes[i] != nodes[j]
  }

  predicate NextLinks(heap: map<Addr, Cell>, nodes: seq<Addr>)
    requires Allocated(heap, nodes)
  {
    forall i :: 0 <= i < |nodes| - 1 ==> heap[nodes[i]].next == nodes[i + 1]
  }

  predicate PrevLinks(heap: map<Addr, Cell>, nodes: seq<Addr>, brk: nat)
    requires Allocated(heap, nodes)
  {
    forall i :: 1 <= i < |nodes| && i != brk ==> heap[nodes[i]].prev == nodes[i - 1]
  }

  /** Forward links spell out `nodes` at all times; backward links mirror them
      everywhere except at the position a writer is changing. */
  predicate Chain(m: Memory) {
    && |m.nodes| >= 2 && m.nodes[0] == HEAD && m.nodes[|m.nodes| - 1] == TAIL
    && Allocated(m.heap, m.nodes) && Distinct(m.nodes)
    && NextLinks(m.heap, m.nodes) && PrevLinks(m.heap, m.nodes, m.brk)
  }

  function EntryAt(heap: map<Addr, Cell>, a: Addr): Entry
    requires a in heap
  {
    Entry(heap[a].key, heap[a].gr)
  }

  /** What the chain holds, newest first. */
  function Contents(m: Memory): (list: seq<Entry>)
    requires Chain(m)
    ensures |list| == |m.nodes| - 2
    ensures forall i :: 0 <= i < |list| ==> list[i] == EntryAt(m.heap, m.nodes[i + 1])
  {
    seq(|m.nodes| - 2, i requires 0 <= i < |m.nodes| - 2 => EntryAt(m.heap, m.nodes[i + 1]))
  }

  /** Nothing is allocated outside the chain except, perhaps, `a`. */
  predicate NoStray(m: Memory, a: Addr) {
    forall x :: x in m.heap ==> x in m.nodes || x == a
  }

  /** No writer has work in progress: the chain is whole, it holds exactly what the
      history says, and every allocated node is on it. */
  predicate Calm(m: Memory) {
    Chain(m) && m.brk == 0 && Contents(m) == Replay(m.hist) && NoStray(m, HEAD)
  }

  // ---------------------------------------------------------------------
  // What a thread knows
  // ---------------------------------------------------------------------

  predicate IsEvent(m: Memory, t: Tid, k: Key, start: nat, at: nat) {
    start <= at < |m.hist| && m.hist[at].tid == t && m.hist[at].key == k
  }

  predicate IsRead(m: Memory, t: Tid, k: Key, start: nat, at: nat) {
    IsEvent(m, t, k, start, at) && m.hist[at].ERead?
  }

  predicate IsWrite(m: Memory, t: Tid, k: Key, start: nat, gr: GetResponse, at: nat) {
    IsEvent(m, t, k, start, at) && m.hist[at].EWrite? && m.hist[at].gr == gr
  }

  predicate IsClear(m: Memory, t: Tid, k: Key, start: nat, at: nat) {
    IsEvent(m, t, k, start, at) && m.hist[at].EClear?
  }

  /** `cur` is position `i` of the chain and no earlier entry has key `k`. */
  predicate Scanned(m: Memory, k: Key, cur: Addr, i: nat)
    requires Chain(m)
  {
    1 <= i < |m.nodes| && m.nodes[i] == cur && NoMatch(Contents(m)[..i - 1], k)
  }

  /** As `Scanned`, at a proper node whose key is `k`, or is not. */
  predicate ScannedTo(m: Memory, k: Key, cur: Addr, i: nat, hit: bool)
    requires Chain(m)
  {
    Scanned(m, k, cur, i) && i < |m.nodes| - 1 && (hit <==> m.heap[cur].key == k)
  }

  predicate ReaderKnows(m: Memory, t: Tid, k: Key, start: nat, r: ReadPc)
    requires Chain(m)
  {
    match r
    case Loop(cur, i) => Scanned(m, k, cur, i)
    case Next(cur, i) => ScannedTo(m, k, cur, i, false)
    case Before(cur, i) => ScannedTo(m, k, cur, i, true)
    case Clock(cur, i, before) => ScannedTo(m, k, cur, i, true) && before == m.heap[cur].gr.writeTime
    case CopyGr(cur, i, diff, at) =>
      && ScannedTo(m, k, cur, i, true) && IsRead(m, t, k, start, at)
      && diff == TimeDifference(m.heap[cur].gr.writeTime, m.hist[at].now)
      && m.hist[at].answer == Judge(m.heap[cur].gr, m.hist[at].now)
    case Compare(cur, i, diff, gr, at) =>
      && ScannedTo(m, k, cur, i, true) && IsRead(m, t, k, start, at) && gr == m.heap[cur].gr
      && diff == TimeDifference(m.heap[cur].gr.writeTime, m.hist[at].now)
      && m.hist[at].answer == Judge(m.heap[cur].gr, m.hist[at].now)
    case PMutexOut(a, at) => IsRead(m, t, k, start, at) && m.hist[at].answer == a
    case Decrement(a, at) => IsRead(m, t, k, start, at) && m.hist[at].answer == a
    case TestLast(a, at) => IsRead(m, t, k, start, at) && m.hist[at].answer == a
    case VW(a, at) => IsRead(m, t, k, start, at) && m.hist[at].answer == a
    case VMutexOut(a, at) => IsRead(m, t, k, start, at) && m.hist[at].answer == a
    case Return(a, at) => IsRead(m, t, k, start, at) && m.hist[at].answer == a
    case _ => true
  }

  /** `n` is allocated, off the chain, and the only such node. */
  predicate Private(m: Memory, n: Addr) {
    n in m.heap && n !in m.nodes && NoStray(m, n)
  }

  predicate Prepared(m: Memory, k: Key, gr: GetResponse, n: Addr)
    requires Chain(m)
  {
    && Private(m, n) && EntryAt(m.heap, n) == Entry(k, gr)
    && Contents(m) == Replay(m.hist) && Accepts(gr, 0)
  }

  predicate WriterKnows(m: Memory, t: Tid, k: Key, start: nat, gr: GetResponse, w: WritePc)
    requires Chain(m)
  {
    match w
    case WPW => true
    case Check => Calm(m)
    case New => Calm(m) && Accepts(gr, 0)
    case SetNext(n) => Prepared(m, k, gr, n) && m.brk == 0
    case SetPrev(n) => Prepared(m, k, gr, n) && m.brk == 0 && m.heap[n].next == m.nodes[1]
    case SetNeighbour(n) =>
      Prepared(m, k, gr, n) && m.brk == 0 && m.heap[n].next == m.nodes[1] && m.heap[n].prev == HEAD
    case SetHead(n) =>
      && Prepared(m, k, gr, n) && m.brk == 1 && m.heap[n].next == m.nodes[1] && m.heap[n].prev == HEAD
      && m.heap[m.nodes[1]].prev == n
    case WPLog(at) => Calm(m) && IsWrite(m, t, k, start, gr, at)
    case WVLog(at) => Calm(m) && IsWrite(m, t, k, start, gr, at)
    case WVW(at) => Calm(m) && IsWrite(m, t, k, start, gr, at)
    case WReturn(at) => IsWrite(m, t, k, start, gr, at)
  }

  /** Nothing is on the chain that the history did not put there. */
  predicate Backed(m: Memory)
    requires Chain(m)
  {
    forall e :: e in Contents(m) ==> e in Replay(m.hist)
  }

  /** The clear has dealt with everything before position `i`. */
  predicate Cleared(m: Memory, k: Key, i: nat)
    requires Chain(m)
  {
    && 1 <= i < |m.nodes| && NoMatch(Contents(m)[..i - 1], k)
    && Without(Contents(m), k) == Without(Replay(m.hist), k) && Backed(m)
  }

  /** The node to delete is at position `i` and `cur` follows it. */
  predicate Doomed(m: Memory, k: Key, cur: Addr, i: nat)
    requires Chain(m)
  {
    Cleared(m, k, i) && NoStray(m, HEAD) && i + 1 < |m.nodes| && m.nodes[i + 1] == cur && m.heap[m.nodes[i]].key == k
  }

  predicate ClearerKnows(m: Memory, t: Tid, k: Key, start: nat, c: ClearPc)
    requires Chain(m)
  {
    match c
    case CPW => true
    case CFirst => Calm(m)
    case CLoop(cur, i) => Cleared(m, k, i) && NoStray(m, HEAD) && m.brk == 0 && m.nodes[i] == cur
    case Skip(cur, i) => Cleared(m, k, i) && NoStray(m, HEAD) && m.brk == 0 && ScannedTo(m, k, cur, i, false)
    case Advance(cur, i) => Cleared(m, k, i) && NoStray(m, HEAD) && m.brk == 0 && ScannedTo(m, k, cur, i, true)
    case Victim(cur, i) => Doomed(m, k, cur, i) && m.brk == 0
    case UnlinkPrev(cur, n, i) => Doomed(m, k, cur, i) && m.brk == 0 && n == m.nodes[i]
    case UnlinkNext(cur, n, i) =>
      Doomed(m, k, cur, i) && m.brk == i + 1 && n == m.nodes[i] && m.heap[cur].prev == m.nodes[i - 1]
    case CPLog(cur, n, i) => Cleared(m, k, i) && m.brk == 0 && m.nodes[i] == cur && Private(m, n)
    case CVLog(cur, n, i) => Cleared(m, k, i) && m.brk == 0 && m.nodes[i] == cur && Private(m, n)
    case Free(cur, n, i) => Cleared(m, k, i) && m.brk == 0 && m.nodes[i] == cur && Private(m, n)
    case CVW(at) => Calm(m) && IsClear(m, t, k, start, at)
    case CReturn(at) => IsClear(m, t, k, start, at)
  }

  predicate Knows(m: Memory, t: Tid, p: PC)
    requires Chain(m)
  {
    match p
    case Reading(k, start, r) => start <= |m.hist| && ReaderKnows(m, t, k, start, r)
    case Writing(k, start, gr, w) => start <= |m.hist| && gr.writeTime <= m.clock && WriterKnows(m, t, k, start, gr, w)
    case Clearing(k, start, c) => start <= |m.hist| && ClearerKnows(m, t, k, start, c)
    case _ => true
  }

  // ---------------------------------------------------------------------
  // The history
  // ---------------------------------------------------------------------

  /** Event `i` is what an atomic cache would have done at that instant. */
  predicate AtomicAt(h: seq<Event>, i: nat)
    requires i < |h|
  {
    && (h[i].ERead? ==> h[i].answer == Lookup(Replay(h[..i]), h[i].key, h[i].now))
    && (h[i].EWrite? ==> h[i].gr.writeTime <= h[i].now)
  }

  /** The history is a run of an atomic cache, stamped by a clock that never runs backwards. */
  predicate AtomicHistory(h: seq<Event>, clock: int) {
    && (forall i :: 0 <= i < |h| ==> AtomicAt(h, i) && h[i].now <= clock)
    && (forall i, j :: 0 <= i < j < |h| ==> h[i].now <= h[j].now)
  }

  lemma AtomicAppend(h: seq<Event>, e: Event, clock: int)
    requires AtomicHistory(h, clock) && e.now == clock
    requires e.ERead? ==> e.answer == Lookup(Replay(h), e.key, clock)
    requires e.EWrite? ==> e.gr.writeTime <= clock
    ensures AtomicHistory(h + [e], clock)
  {
    var h' := h + [e];
    forall i | 0 <= i < |h'| ensures AtomicAt(h', i) {
      if i < |h| {
        assert AtomicAt(h, i);
        assert h'[..i] == h[..i];
      } else {
        assert h'[..i] == h;
      }
    }
  }

  // ---------------------------------------------------------------------
  // One step of one thread
  // ---------------------------------------------------------------------

  /** The part of memory that only a writer inside may change. */
  predicate SameList(m: Memory, m': Memory) {
    m'.heap == m.heap && m'.nodes == m.nodes && m'.brk == m.brk
  }

  predicate Appends(m: Memory, m': Memory) {
    m.hist <= m'.hist && m'.clock >= m.clock && m'.totalSize == m.totalSize
  }

  lemma ContentsFrame(m: Memory, m': Memory)
    requires Chain(m) && SameList(m, m')
    ensures Chain(m') && Contents(m') == Contents(m)
  {
  }

  lemma ReaderFrame(m: Memory, m': Memory, u: Tid, k: Key, start: nat, r: ReadPc)
    requires Chain(m) && Chain(m') && ReaderKnows(m, u, k, start, r) && Appends(m, m')
    requires ReaderIn(Reading(k, start, r)) ==> SameList(m, m')
    ensures ReaderKnows(m', u, k, start, r)
  {
    if ReaderIn(Reading(k, start, r)) {
      ContentsFrame(m, m');
    }
  }

  lemma WriterFrame(m: Memory, m': Memory, u: Tid, k: Key, start: nat, gr: GetResponse, w: WritePc)
    requires Chain(m) && Chain(m') && WriterKnows(m, u, k, start, gr, w) && Appends(m, m')
    requires WriterIn(Writing(k, start, gr, w)) ==> SameList(m, m') && Replay(m'.hist) == Replay(m.hist)
    ensures WriterKnows(m', u, k, start, gr, w)
  {
    if WriterIn(Writing(k, start, gr, w)) {
      ContentsFrame(m, m');
    }
  }

  lemma ClearerFrame(m: Memory, m': Memory, u: Tid, k: Key, start: nat, c: ClearPc)
    requires Chain(m) && Chain(m') && ClearerKnows(m, u, k, start, c) && Appends(m, m')
    requires WriterIn(Clearing(k, start, c)) ==> SameList(m, m') && Replay(m'.hist) == Replay(m.hist)
    ensures ClearerKnows(m', u, k, start, c)
  {
    if WriterIn(Clearing(k, start, c)) {
      ContentsFrame(m, m');
    }
  }

  /** A thread that is neither reading nor writing the list keeps what it knows whatever
      another thread does; one that is inside keeps it as long as the list stays put. */
  lemma KnowsFrame(m: Memory, m': Memory, u: Tid, q: PC)
    requires Chain(m) && Chain(m') && Knows(m, u, q) && Appends(m, m')
    requires ReaderIn(q) || WriterIn(q) ==> SameList(m, m') && Replay(m'.hist) == Replay(m.hist)
    ensures Knows(m', u, q)
  {
    match q
    case Reading(k, start, r) => ReaderFrame(m, m', u, k, start, r);
    case Writing(k, start, gr, w) => WriterFrame(m, m', u, k, start, gr, w);
    case Clearing(k, start, c) => ClearerFrame(m, m', u, k, start, c);
    case _ =>
  }

  /** The instant at which a read happens. */
  lemma ReadHappens(m: Memory, t: Tid, k: Key, start: nat, a: Answer, m': Memory)
    requires Chain(m) && AtomicHistory(m.hist, m.clock) && start <= |m.hist|
    requires a == Lookup(Replay(m.hist), k, m.clock)
    requires m' == m.(hist := m.hist + [ERead(t, k, a, m.clock)])
    ensures Appends(m, m') && Replay(m'.hist) == Replay(m.hist) && AtomicHistory(m'.hist, m'.clock)
    ensures Chain(m') && Contents(m') == Contents(m) && IsRead(m', t, k, start, |m.hist|)
  {
    var e := ERead(t, k, a, m.clock);
    ReplayAppend(m.hist, e);
    AtomicAppend(m.hist, e, m.clock);
    ContentsFrame(m, m');
  }

  lemma ReadMisses(m: Memory, t: Tid, k: Key, start: nat, i: nat, m': Memory, r': ReadPc)
    requires Chain(m) && AtomicHistory(m.hist, m.clock) && start <= |m.hist| && Calm(m)
    requires Scanned(m, k, TAIL, i) && ReadStep(m, t, k, start, Loop(TAIL, i), m', r')
    ensures SameList(m, m') && Appends(m, m') && Replay(m'.hist) == Replay(m.hist)
    ensures Chain(m') && AtomicHistory(m'.hist, m'.clock) && ReaderKnows(m', t, k, start, r')
  {
    assert i == |m.nodes| - 1;
    assert Contents(m)[..i - 1] == Contents(m);
    FirstMatchNone(Contents(m), k);
    ReadHappens(m, t, k, start, Answer(NotFound, NO_RESPONSE), m');
  }

  lemma ReadHits(m: Memory, t: Tid, k: Key, start: nat, cur: Addr, i: nat, before: int, m': Memory, r': ReadPc)
    requires Chain(m) && AtomicHistory(m.hist, m.clock) && start <= |m.hist| && Calm(m)
    requires ScannedTo(m, k, cur, i, true) && before == m.heap[cur].gr.writeTime
    requires ReadStep(m, t, k, start, Clock(cur, i, before), m', r')
    ensures SameList(m, m') && Appends(m, m') && Replay(m'.hist) == Replay(m.hist)
    ensures Chain(m') && AtomicHistory(m'.hist, m'.clock) && ReaderKnows(m', t, k, start, r')
  {
    FirstMatchAt(Contents(m), k, i - 1);
    ReadHappens(m, t, k, start, Judge(m.heap[cur].gr, m.clock), m');
  }

  lemma ReadWalks(m: Memory, t: Tid, k: Key, start: nat, r: ReadPc, m': Memory, r': ReadPc)
    requires Chain(m) && ReaderKnows(m, t, k, start, r)
    requires Safe(m, Reading(k, start, r)) && ReadStep(m, t, k, start, r, m', r')
    requires SameList(m, m') && m'.hist == m.hist
    ensures Chain(m') && ReaderKnows(m', t, k, start, r')
  {
    ContentsFrame(m, m');
    match r
    case Next(cur, i) => PassMismatch(Contents(m), k, i - 1);
    case First => assert Contents(m)[..0] == [];
    case _ =>
  }

  lemma ReadKeeps(m: Memory, t: Tid, k: Key, start: nat, r: ReadPc, m': Memory, r': ReadPc)
    requires Chain(m) && AtomicHistory(m.hist, m.clock) && ReaderKnows(m, t, k, start, r)
    requires start <= |m.hist|
    requires Safe(m, Reading(k, start, r)) && ReadStep(m, t, k, start, r, m', r')
    requires ReaderIn(Reading(k, start, r)) ==> Calm(m)
    ensures SameList(m, m') && Appends(m, m') && Replay(m'.hist) == Replay(m.hist)
    ensures Chain(m') && AtomicHistory(m'.hist, m'.clock) && ReaderKnows(m', t, k, start, r')
  {
    if r.Loop? && r.cur == TAIL {
      ReadMisses(m, t, k, start, r.i, m', r');
    } else if r.Clock? {
      ReadHits(m, t, k, start, r.cur, r.i, r.before, m', r');
    } else {
      ReadWalks(m, t, k, start, r, m', r');
    }
  }

  lemma InsertLinks(heap: map<Addr, Cell>, nodes: seq<Addr>, n: Addr, heap': map<Addr, Cell>)
    requires |nodes| >= 2 && Allocated(heap, nodes) && Distinct(nodes) && NextLinks(heap, nodes)
    requires n in heap && n !in nodes && PrevLinks(heap, nodes, 1)
    requires heap[n].next == nodes[1] && heap[n].prev == nodes[0] && heap[nodes[1]].prev == n
    requires heap' == heap[nodes[0] := heap[nodes[0]].(next := n)]
    ensures Allocated(heap', InsertAt(nodes, 1, n)) && Distinct(InsertAt(nodes, 1, n))
    ensures NextLinks(heap', InsertAt(nodes, 1, n)) && PrevLinks(heap', InsertAt(nodes, 1, n), 0)
  {
    var nodes' := InsertAt(nodes, 1, n);
    assert nodes'[0] == nodes[0] && nodes'[1] == n && nodes'[2] == nodes[1];
    forall j | 2 <= j < |nodes'| ensures heap'[nodes'[j]] == heap[nodes[j - 1]] {
      assert nodes'[j] == nodes[j - 1];
    }
  }

  lemma InsertStray(m: Memory, n: Addr, m': Memory)
    requires |m.nodes| >= 1 && m'.nodes == InsertAt(m.nodes, 1, n) && m'.heap.Keys == m.heap.Keys && NoStray(m, n)
    ensures forall x :: x in m'.heap ==> x in m'.nodes
  {
    assert m'.nodes[1] == n;
    forall x | x in m'.heap ensures x in m'.nodes {
      if x in m.nodes {
        var j :| 0 <= j < |m.nodes| && m.nodes[j] == x;
        assert m'.nodes[if j == 0 then 0 else j + 1] == x;
      }
    }
  }

  lemma InsertKeepsChain(m: Memory, n: Addr, m': Memory)
    requires Chain(m) && Private(m, n) && m.brk == 1
    requires m.heap[n].next == m.nodes[1] && m.heap[n].prev == HEAD && m.heap[m.nodes[1]].prev == n
    requires m'.heap == m.heap[HEAD := m.heap[HEAD].(next := n)]
    requires m'.nodes == InsertAt(m.nodes, 1, n) && m'.brk == 0
    ensures Chain(m') && NoStray(m', HEAD)
    ensures Contents(m') == [EntryAt(m.heap, n)] + Contents(m)
  {
    InsertLinks(m.heap, m.nodes, n, m'.heap);
    InsertStray(m, n, m');
  }

  /** The instant at which a write or a clear happens. */
  lemma UpdateHappens(m: Memory, e: Event, m': Memory)
    requires AtomicHistory(m.hist, m.clock) && e.now == m.clock && !e.ERead?
    requires e.EWrite? ==> e.gr.writeTime <= m.clock
    requires m'.hist == m.hist + [e] && m'.clock == m.clock && m'.totalSize == m.totalSize
    ensures Appends(m, m') && AtomicHistory(m'.hist, m'.clock)
    ensures Replay(m'.hist) == Apply(Replay(m.hist), e) && m'.hist[|m.hist|] == e
  {
    ReplayAppend(m.hist, e);
    AtomicAppend(m.hist, e, m.clock);
  }

  lemma RejectKeeps(m: Memory, t: Tid, k: Key, start: nat, gr: GetResponse, c: Choice, m': Memory, w': WritePc)
    requires Chain(m) && AtomicHistory(m.hist, m.clock) && start <= |m.hist| && gr.writeTime <= m.clock
    requires Calm(m) && m.totalSize == 0 && !Accepts(gr, 0)
    requires WriteStep(m, t, k, start, gr, Check, c, m', w')
    ensures Appends(m, m') && Chain(m') && AtomicHistory(m'.hist, m'.clock) && WriterKnows(m', t, k, start, gr, w')
  {
    UpdateHappens(m, EWrite(t, k, gr, m.clock), m');
    ContentsFrame(m, m');
  }

  lemma PublishKeeps(m: Memory, t: Tid, k: Key, start: nat, gr: GetResponse, n: Addr,
                     c: Choice, m': Memory, w': WritePc)
    requires Chain(m) && AtomicHistory(m.hist, m.clock) && start <= |m.hist| && gr.writeTime <= m.clock
    requires WriterKnows(m, t, k, start, gr, SetHead(n))
    requires WriteStep(m, t, k, start, gr, SetHead(n), c, m', w')
    ensures Appends(m, m') && Chain(m') && AtomicHistory(m'.hist, m'.clock) && WriterKnows(m', t, k, start, gr, w')
  {
    InsertKeepsChain(m, n, m');
    UpdateHappens(m, EWrite(t, k, gr, m.clock), m');
  }

  /** Contents depend on the entries of the chain's nodes alone. */
  lemma SameContents(m: Memory, m': Memory)
    requires Chain(m) && Chain(m') && m'.nodes == m.nodes
    requires forall a :: a in m.nodes ==> EntryAt(m'.heap, a) == EntryAt(m.heap, a)
    ensures Contents(m') == Contents(m)
  {
    forall i | 0 <= i < |m.nodes| - 2 ensures Contents(m')[i] == Contents(m)[i] {
      assert m.nodes[i + 1] in m.nodes;
    }
  }

  /** Changing links of a node off the chain, or a backward link that is marked as broken. */
  lemma LinkFrame(m: Memory, a: Addr, cell: Cell, m': Memory)
    requires Chain(m) && m'.nodes == m.nodes && m'.heap == m.heap[a := cell]
    requires a in m.nodes ==> cell.key == m.heap[a].key && cell.gr == m.heap[a].gr && cell.next == m.heap[a].next
    requires m.brk == 0 && m'.brk < |m.nodes|
    requires if m'.brk > 0 then a == m.nodes[m'.brk] else a !in m.nodes
    ensures Chain(m') && Contents(m') == Contents(m)
    ensures a in m.heap ==> m'.heap.Keys == m.heap.Keys
  {
    LinkKeepsChain(m.heap, m.nodes, a, cell, m'.brk);
    SameContents(m, m');
  }

  lemma LinkKeepsChain(heap: map<Addr, Cell>, nodes: seq<Addr>, a: Addr, cell: Cell, brk: nat)
    requires Allocated(heap, nodes) && Distinct(nodes) && NextLinks(heap, nodes) && PrevLinks(heap, nodes, 0)
    requires a in nodes ==> cell.next == heap[a].next
    requires brk < |nodes| && if brk > 0 then a == nodes[brk] else a !in nodes
    ensures Allocated(heap[a := cell], nodes)
    ensures NextLinks(heap[a := cell], nodes) && PrevLinks(heap[a := cell], nodes, brk)
  {
    assert forall i :: 0 <= i < |nodes| ==> nodes[i] in nodes;
  }

  lemma PrepareKeeps(m: Memory, t: Tid, k: Key, start: nat, gr: GetResponse, w: WritePc,
                     c: Choice, m': Memory, w': WritePc)
    requires Chain(m) && WriterKnows(m, t, k, start, gr, w)
    requires w.New? || w.SetNext? || w.SetPrev? || w.SetNeighbour?
    requires Safe(m, Writing(k, start, gr, w)) && WriteStep(m, t, k, start, gr, w, c, m', w')
    ensures Chain(m') && WriterKnows(m', t, k, start, gr, w') && !w'.WPW? && !w'.WReturn?
    ensures m'.hist == m.hist && m'.clock == m.clock && m'.totalSize == m.totalSize
  {
    assert m.nodes[0] == HEAD && m.nodes[1] != HEAD;
    match w
    case New =>
      assert c.a !in m.nodes;
      LinkFrame(m, c.a, Cell(k, gr, NULL, NULL), m');
    case SetNext(n) => LinkFrame(m, n, m'.heap[n], m');
    case SetPrev(n) => LinkFrame(m, n, m'.heap[n], m');
    case SetNeighbour(n) => LinkFrame(m, m.nodes[1], m'.heap[m.nodes[1]], m');
  }

  lemma WriteRests(m: Memory, t: Tid, k: Key, start: nat, gr: GetResponse, w: WritePc,
                   c: Choice, m': Memory, w': WritePc)
    requires Chain(m) && WriterKnows(m, t, k, start, gr, w) && m.totalSize == 0
    requires w.WPW? ==> Calm(m)
    requires Safe(m, Writing(k, start, gr, w)) && WriteStep(m, t, k, start, gr, w, c, m', w')
    requires w.WPW? || (w.Check? && Accepts(gr, 0)) || w.WPLog? || w.WVLog? || w.WVW?
    ensures SameList(m, m') && m'.hist == m.hist && m'.clock == m.clock && m'.totalSize == m.totalSize
    ensures Chain(m') && WriterKnows(m', t, k, start, gr, w')
    ensures !w'.WPW? && (w'.WReturn? ==> Calm(m'))
  {
    ContentsFrame(m, m');
  }

  lemma WriteKeeps(m: Memory, t: Tid, k: Key, start: nat, gr: GetResponse, w: WritePc,
                   c: Choice, m': Memory, w': WritePc)
    requires Chain(m) && AtomicHistory(m.hist, m.clock) && WriterKnows(m, t, k, start, gr, w) && m.totalSize == 0
    requires start <= |m.hist| && gr.writeTime <= m.clock
    requires Safe(m, Writing(k, start, gr, w)) && WriteStep(m, t, k, start, gr, w, c, m', w')
    requires w.WPW? ==> Calm(m)
    ensures Appends(m, m')
    ensures Chain(m') && AtomicHistory(m'.hist, m'.clock) && WriterKnows(m', t, k, start, gr, w')
    ensures w.WPW? ==> SameList(m, m') && m'.hist == m.hist
    ensures !w'.WPW? && (w'.WReturn? ==> Calm(m'))
  {
    if w.SetHead? {
      PublishKeeps(m, t, k, start, gr, w.n, c, m', w');
    } else if w.Check? && !Accepts(gr, 0) {
      RejectKeeps(m, t, k, start, gr, c, m', w');
    } else if w.New? || w.SetNext? || w.SetPrev? || w.SetNeighbour? {
      PrepareKeeps(m, t, k, start, gr, w, c, m', w');
    } else {
      WriteRests(m, t, k, start, gr, w, c, m', w');
    }
  }

  lemma RemoveDistinct(nodes: seq<Addr>, i: nat)
    requires i < |nodes| && Distinct(nodes)
    ensures Distinct(RemoveAt(nodes, i)) && nodes[i] !in RemoveAt(nodes, i)
  {
  }

  lemma RemoveLinks(heap: map<Addr, Cell>, nodes: seq<Addr>, i: nat, heap': map<Addr, Cell>)
    requires 1 <= i < |nodes| - 1 && Allocated(heap, nodes) && Distinct(nodes) && NextLinks(heap, nodes)
    requires PrevLinks(heap, nodes, i + 1) && heap[nodes[i + 1]].prev == nodes[i - 1]
    requires heap' == heap[nodes[i - 1] := heap[nodes[i - 1]].(next := nodes[i + 1])]
    ensures Allocated(heap', RemoveAt(nodes, i))
    ensures NextLinks(heap', RemoveAt(nodes, i)) && PrevLinks(heap', RemoveAt(nodes, i), 0)
  {
    var nodes' := RemoveAt(nodes, i);
    assert nodes'[i - 1] == nodes[i - 1] && nodes'[i] == nodes[i + 1];
    forall j | 0 <= j < |nodes'| - 1 ensures heap'[nodes'[j]].next == nodes'[j + 1] {
      var o := if j < i then j else j + 1;
      assert nodes'[j] == nodes[o];
      assert j != i - 1 ==> nodes[o] != nodes[i - 1];
    }
    forall j | 1 <= j < |nodes'| ensures heap'[nodes'[j]].prev == nodes'[j - 1] {
      var o := if j < i then j else j + 1;
      assert nodes'[j] == nodes[o];
    }
  }

  lemma RemoveStray(m: Memory, i: nat, m': Memory)
    requires i < |m.nodes| && m'.nodes == RemoveAt(m.nodes, i) && m'.heap.Keys == m.heap.Keys
    requires forall x :: x in m.heap ==> x in m.nodes
    ensures NoStray(m', m.nodes[i])
  {
    forall x | x in m'.heap && x != m.nodes[i] ensures x in m'.nodes {
      var j :| 0 <= j < |m.nodes| && m.nodes[j] == x;
      assert m'.nodes[if j < i then j else j - 1] == x;
    }
  }

  lemma RemoveContents(m: Memory, i: nat, m': Memory)
    requires Chain(m) && Chain(m') && 1 <= i < |m.nodes| - 1 && m'.nodes == RemoveAt(m.nodes, i)
    requires forall a :: a in m.nodes ==> a in m'.heap && EntryAt(m'.heap, a) == EntryAt(m.heap, a)
    ensures Contents(m') == RemoveAt(Contents(m), i - 1)
  {
    var before, after := Contents(m), Contents(m');
    forall j | 0 <= j < |after| ensures after[j] == RemoveAt(before, i - 1)[j] {
      var o := if j < i - 1 then j else j + 1;
      assert m'.nodes[j + 1] == m.nodes[o + 1];
      assert m.nodes[o + 1] in m.nodes;
    }
  }

  lemma RemoveChain(m: Memory, i: nat, m': Memory)
    requires Chain(m) && 1 <= i < |m.nodes| - 1 && m.brk == i + 1
    requires m.heap[m.nodes[i + 1]].prev == m.nodes[i - 1]
    requires m'.heap == m.heap[m.nodes[i - 1] := m.heap[m.nodes[i - 1]].(next := m.nodes[i + 1])]
    requires m'.nodes == RemoveAt(m.nodes, i) && m'.brk == 0
    ensures Chain(m')
  {
    RemoveDistinct(m.nodes, i);
    RemoveLinks(m.heap, m.nodes, i, m'.heap);
  }

  lemma RemoveKeepsChain(m: Memory, i: nat, m': Memory)
    requires Chain(m) && NoStray(m, HEAD) && 1 <= i < |m.nodes| - 1 && m.brk == i + 1
    requires m.heap[m.nodes[i + 1]].prev == m.nodes[i - 1]
    requires m'.heap == m.heap[m.nodes[i - 1] := m.heap[m.nodes[i - 1]].(next := m.nodes[i + 1])]
    requires m'.nodes == RemoveAt(m.nodes, i) && m'.brk == 0
    ensures Chain(m') && Private(m', m.nodes[i])
    ensures Contents(m') == RemoveAt(Contents(m), i - 1)
  {
    RemoveChain(m, i, m');
    RemoveContents(m, i, m');
    RemoveDistinct(m.nodes, i);
    assert HEAD == m.nodes[0];
    RemoveStray(m, i, m');
  }

  lemma UnlinkPrevKeeps(m: Memory, t: Tid, k: Key, start: nat, cur: Addr, n: Addr, i: nat, m': Memory, c': ClearPc)
    requires Chain(m) && Doomed(m, k, cur, i) && m.brk == 0 && n == m.nodes[i]
    requires Safe(m, Clearing(k, start, UnlinkPrev(cur, n, i)))
    requires ClearStep(m, t, k, start, UnlinkPrev(cur, n, i), m', c')
    ensures Appends(m, m') && m'.hist == m.hist && m'.clock == m.clock
    ensures Chain(m') && ClearerKnows(m', t, k, start, c')
  {
    assert m.heap[m.nodes[i]].next == m.nodes[i + 1];
    assert m.heap[m.nodes[i]].prev == m.nodes[i - 1];
    LinkFrame(m, cur, m'.heap[cur], m');
  }

  lemma RemoveAtSubset(list: seq<Entry>, i: nat)
    requires i < |list|
    ensures forall e :: e in RemoveAt(list, i) ==> e in list
  {
  }

  lemma DropKeepsCleared(m: Memory, k: Key, i: nat, m': Memory)
    requires Chain(m) && Cleared(m, k, i) && i + 1 < |m.nodes| && m.heap[m.nodes[i]].key == k
    requires Chain(m') && m'.hist == m.hist && Contents(m') == RemoveAt(Contents(m), i - 1)
    ensures Cleared(m', k, i)
  {
    DropMatch(Contents(m), k, i - 1);
    RemoveAtSubset(Contents(m), i - 1);
  }

  lemma UnlinkNextKeeps(m: Memory, t: Tid, k: Key, start: nat, cur: Addr, n: Addr, i: nat, m': Memory, c': ClearPc)
    requires Chain(m) && ClearerKnows(m, t, k, start, UnlinkNext(cur, n, i))
    requires Safe(m, Clearing(k, start, UnlinkNext(cur, n, i)))
    requires ClearStep(m, t, k, start, UnlinkNext(cur, n, i), m', c')
    ensures Appends(m, m') && m'.hist == m.hist && m'.clock == m.clock
    ensures Chain(m') && ClearerKnows(m', t, k, start, c')
  {
    assert m.heap[m.nodes[i]].next == m.nodes[i + 1];
    assert m.heap[m.nodes[i]].prev == m.nodes[i - 1];
    RemoveKeepsChain(m, i, m');
    DropKeepsCleared(m, k, i, m');
  }

  /** Freeing a node off the chain. */
  lemma FreeFrame(m: Memory, n: Addr, m': Memory)
    requires Chain(m) && n !in m.nodes && m'.nodes == m.nodes && m'.brk == m.brk && m'.heap == m.heap - {n}
    ensures Chain(m') && Contents(m') == Contents(m)
  {
    forall i | 0 <= i < |m.nodes| ensures m.nodes[i] in m'.heap && m'.heap[m.nodes[i]] == m.heap[m.nodes[i]] {
      assert m.nodes[i] in m.nodes;
    }
    assert Contents(m') == Contents(m);
  }

  lemma FreeKeeps(m: Memory, t: Tid, k: Key, start: nat, cur: Addr, n: Addr, i: nat, m': Memory, c': ClearPc)
    requires Chain(m) && ClearerKnows(m, t, k, start, Free(cur, n, i)) && n in m.heap
    requires ClearStep(m, t, k, start, Free(cur, n, i), m', c')
    ensures Appends(m, m') && m'.hist == m.hist && m'.clock == m.clock
    ensures Chain(m') && ClearerKnows(m', t, k, start, c')
  {
    FreeFrame(m, n, m');
  }

  lemma ClearEnds(m: Memory, t: Tid, k: Key, start: nat, i: nat, m': Memory, c': ClearPc)
    requires Chain(m) && AtomicHistory(m.hist, m.clock) && start <= |m.hist|
    requires ClearerKnows(m, t, k, start, CLoop(TAIL, i))
    requires ClearStep(m, t, k, start, CLoop(TAIL, i), m', c')
    ensures Appends(m, m') && Chain(m') && AtomicHistory(m'.hist, m'.clock) && ClearerKnows(m', t, k, start, c')
  {
    assert i == |m.nodes| - 1;
    assert Contents(m)[..i - 1] == Contents(m);
    WithoutNoMatch(Contents(m), k);
    UpdateHappens(m, EClear(t, k, m.clock), m');
    ContentsFrame(m, m');
  }

  /** The scan of a clear moves over one entry. */
  lemma ClearScans(m: Memory, t: Tid, k: Key, start: nat, c: ClearPc, m': Memory, c': ClearPc)
    requires Chain(m) && ClearerKnows(m, t, k, start, c)
    requires c.CFirst? || (c.CLoop? && c.cur != TAIL) || c.Skip? || c.Advance? || c.Victim?
    requires Safe(m, Clearing(k, start, c)) && ClearStep(m, t, k, start, c, m', c')
    ensures m' == m && ClearerKnows(m', t, k, start, c') && !c'.CReturn?
  {
    if c.CFirst? {
      assert Contents(m)[..0] == [];
    } else if c.Skip? {
      PassKeepsCleared(m, k, c.i);
    }
  }

  lemma PassKeepsCleared(m: Memory, k: Key, i: nat)
    requires Chain(m) && Cleared(m, k, i) && i + 1 < |m.nodes| && m.heap[m.nodes[i]].key != k
    ensures Cleared(m, k, i + 1)
  {
    PassMismatch(Contents(m), k, i - 1);
  }

  /** The semaphore operations of a clear. */
  lemma ClearRests(m: Memory, t: Tid, k: Key, start: nat, c: ClearPc, m': Memory, c': ClearPc)
    requires Chain(m) && ClearerKnows(m, t, k, start, c)
    requires c.CPW? || c.CPLog? || c.CVLog? || c.CVW?
    requires c.CPW? ==> Calm(m)
    requires Safe(m, Clearing(k, start, c)) && ClearStep(m, t, k, start, c, m', c')
    ensures SameList(m, m') && m'.hist == m.hist && m'.clock == m.clock && m'.totalSize == m.totalSize
    ensures Chain(m') && ClearerKnows(m', t, k, start, c')
    ensures c'.CReturn? ==> Calm(m')
  {
    ContentsFrame(m, m');
  }

  lemma ClearRelinks(m: Memory, t: Tid, k: Key, start: nat, c: ClearPc, m': Memory, c': ClearPc)
    requires Chain(m) && ClearerKnows(m, t, k, start, c) && (c.UnlinkPrev? || c.UnlinkNext? || c.Free?)
    requires Safe(m, Clearing(k, start, c)) && ClearStep(m, t, k, start, c, m', c')
    ensures Appends(m, m') && m'.hist == m.hist && m'.clock == m.clock
    ensures Chain(m') && ClearerKnows(m', t, k, start, c') && !c'.CReturn?
  {
    match c
    case UnlinkPrev(cur, n, i) => UnlinkPrevKeeps(m, t, k, start, cur, n, i, m', c');
    case UnlinkNext(cur, n, i) => UnlinkNextKeeps(m, t, k, start, cur, n, i, m', c');
    case Free(cur, n, i) => FreeKeeps(m, t, k, start, cur, n, i, m', c');
  }

  lemma ClearKeeps(m: Memory, t: Tid, k: Key, start: nat, c: ClearPc, m': Memory, c': ClearPc)
    requires Chain(m) && AtomicHistory(m.hist, m.clock) && ClearerKnows(m, t, k, start, c)
    requires start <= |m.hist|
    requires Safe(m, Clearing(k, start, c)) && ClearStep(m, t, k, start, c, m', c')
    requires c.CPW? ==> Calm(m)
    ensures Appends(m, m')
    ensures Chain(m') && AtomicHistory(m'.hist, m'.clock) && ClearerKnows(m', t, k, start, c')
    ensures c.CPW? ==> SameList(m, m') && m'.hist == m.hist
    ensures c'.CReturn? ==> Calm(m')
  {
    if c.UnlinkPrev? || c.UnlinkNext? || c.Free? {
      ClearRelinks(m, t, k, start, c, m', c');
    } else if c.CLoop? && c.cur == TAIL {
      ClearEnds(m, t, k, start, c.i, m', c');
    } else if c.CPW? || c.CPLog? || c.CVLog? || c.CVW? {
      ClearRests(m, t, k, start, c, m', c');
    } else {
      ClearScans(m, t, k, start, c, m', c');
    }
  }
}
