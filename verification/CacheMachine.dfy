// The concurrent cache: any finite number of threads executing reads, writes
// and clears, one semaphore operation or one shared access per step.
module CacheMachine {
  import opened CacheSpec

  type Tid = nat
  type Addr = nat

  const NULL: Addr := 0
  const HEAD: Addr := 1
  const TAIL: Addr := 2

  /** A list node in memory. */
  datatype Cell = Cell(key: Key, gr: GetResponse, next: Addr, prev: Addr)

  /** Where a thread is inside `ReadFromCache`. The fields `i` and `at` are
      auxiliary: the list position of `cur`, and the event the read became. */
  datatype ReadPc =
    | PMutexIn | Increment | TestFirst | PW | VMutexIn
    | First
    | Loop(cur: Addr, i: nat)
    | Next(cur: Addr, i: nat)
    | Before(cur: Addr, i: nat)
    | Clock(cur: Addr, i: nat, before: int)
    | CopyGr(cur: Addr, i: nat, diff: int, at: nat)
    | Compare(cur: Addr, i: nat, diff: int, gr: GetResponse, at: nat)
    | PMutexOut(answer: Answer, at: nat)
    | Decrement(answer: Answer, at: nat)
    | TestLast(answer: Answer, at: nat)
    | VW(answer: Answer, at: nat)
    | VMutexOut(answer: Answer, at: nat)
    | Return(answer: Answer, at: nat)

  /** Where a thread is inside `writeToCache` and `addNode`. */
  datatype WritePc =
    | WPW | Check | New
    | SetNext(n: Addr) | SetPrev(n: Addr) | SetNeighbour(n: Addr) | SetHead(n: Addr)
    | WPLog(at: nat) | WVLog(at: nat) | WVW(at: nat) | WReturn(at: nat)

  /** Where a thread is inside `clearAllInvalidCache` and `deleteNode`. */
  datatype ClearPc =
    | CPW | CFirst
    | CLoop(cur: Addr, i: nat)
    | Skip(cur: Addr, i: nat)
    | Advance(cur: Addr, i: nat)
    | Victim(cur: Addr, i: nat)
    | UnlinkPrev(cur: Addr, n: Addr, i: nat)
    | UnlinkNext(cur: Addr, n: Addr, i: nat)
    | CPLog(cur: Addr, n: Addr, i: nat)
    | CVLog(cur: Addr, n: Addr, i: nat)
    | Free(cur: Addr, n: Addr, i: nat)
    | CVW(at: nat) | CReturn(at: nat)

  /** `start` is auxiliary: the length of the history when the call began. */
  datatype PC =
    | Idle
    | Reading(k: Key, start: nat, r: ReadPc)
    | Writing(k: Key, start: nat, gr: GetResponse, w: WritePc)
    | Clearing(k: Key, start: nat, c: ClearPc)
    | Logging(holding: bool)   // a log line written outside the cache

  /** Shared memory, then auxiliary state: `shared` says that W is held on behalf
      of the readers, `nodes` spells out the list, `brk` is the one position whose
      backward link a writer is in the middle of changing (0 for none), `hist` is
      the sequence of atomic operations so far. */
  datatype Memory = Memory(
    mutex: int, w: int, log: int, numReader: int, totalSize: int,
    heap: map<Addr, Cell>, clock: int,
    shared: bool, nodes: seq<Addr>, brk: nat, hist: seq<Event>)

  datatype State = State(m: Memory, pc: map<Tid, PC>)

  /** What the scheduler and the callers choose. */
  datatype Choice =
    | Go | StartRead(k: Key) | StartWrite(k: Key, gr: GetResponse) | StartClear(k: Key) | StartLog
    | Alloc(a: Addr)

  /** The memory a thread dereferences in its next step, or looks up for the event it logs. */
  function Touches(heap: map<Addr, Cell>, pc: PC): set<Addr> {
    match pc
    case Reading(_, _, r) =>
      (match r
       case First => {HEAD}
       case Loop(cur, _) => if cur == TAIL then {} else {cur}
       case Next(cur, _) => {cur}
       case Before(cur, _) => {cur}
       case Clock(cur, _, _) => {cur}
       case CopyGr(cur, _, _, _) => {cur}
       case Compare(cur, _, _, _, _) => {cur}
       case _ => {})
    case Writing(_, _, _, w) =>
      (match w
       case SetNext(n) => {n, HEAD}
       case SetPrev(n) => {n}
       case SetNeighbour(_) => if HEAD in heap then {HEAD, heap[HEAD].next} else {HEAD}
       case SetHead(_) => {HEAD}
       case _ => {})
    case Clearing(_, _, c) =>
      (match c
       case CFirst => {HEAD}
       case CLoop(cur, _) => if cur == TAIL then {} else {cur}
       case Skip(cur, _) => {cur}
       case Advance(cur, _) => {cur}
       case Victim(cur, _) => {cur}
       case UnlinkPrev(_, n, _) => if n in heap then {n, heap[n].next} else {n}
       case UnlinkNext(_, n, _) => if n in heap then {n, heap[n].prev} else {n}
       case CPLog(_, n, _) => {n}
       case Free(_, n, _) => {n}
       case _ => {})
    case _ => {}
  }

  /** Whether every address a thread is about to dereference is allocated. */
  predicate Safe(m: Memory, p: PC) {
    Touches(m.heap, p) <= m.heap.Keys
  }

  /** Whether the next step of a thread is a P on a semaphore that is zero. */
  predicate Blocked(m: Memory, p: PC) {
    || (p.Reading? && (p.r.PMutexIn? || p.r.PMutexOut?) && m.mutex <= 0)
    || (p.Reading? && p.r.PW? && m.w <= 0)
    || (p.Writing? && p.w.WPW? && m.w <= 0)
    || (p.Clearing? && p.c.CPW? && m.w <= 0)
    || (p.Writing? && p.w.WPLog? && m.log <= 0)
    || (p.Clearing? && p.c.CPLog? && m.log <= 0)
    || (p.Logging? && !p.holding && m.log <= 0)
  }

  /** What one step inside `ReadFromCache` does. A read happens, as an atomic operation,
      when it samples the clock for its entry or reaches the tail; the event logs the
      answer that follows from the cell the reader stands on. */
  function ReadTo(m: Memory, t: Tid, k: Key, start: nat, r: ReadPc): (Memory, ReadPc)
    requires Safe(m, Reading(k, start, r))
  {
    match r
    case PMutexIn => (m.(mutex := m.mutex - 1), Increment)
    case Increment => (m.(numReader := m.numReader + 1), TestFirst)
    case TestFirst => (m, if m.numReader == 1 then PW else VMutexIn)
    case PW => (m.(w := m.w - 1, shared := true), VMutexIn)
    case VMutexIn => (m.(mutex := m.mutex + 1), First)
    case First => (m, Loop(m.heap[HEAD].next, 1))
    case Loop(cur, i) =>
      if cur == TAIL then
        (m.(hist := m.hist + [ERead(t, k, Answer(NotFound, NO_RESPONSE), m.clock)]),
         PMutexOut(Answer(NotFound, NO_RESPONSE), |m.hist|))
      else
        (m, if m.heap[cur].key == k then Before(cur, i) else Next(cur, i))
    case Next(cur, i) => (m, Loop(m.heap[cur].next, i + 1))
    case Before(cur, i) => (m, Clock(cur, i, m.heap[cur].gr.writeTime))
    case Clock(cur, i, before) =>
      (m.(hist := m.hist + [ERead(t, k, Judge(m.heap[cur].gr, m.clock), m.clock)]),
       CopyGr(cur, i, TimeDifference(before, m.clock), |m.hist|))
    case CopyGr(cur, i, diff, at) => (m, Compare(cur, i, diff, m.heap[cur].gr, at))
    case Compare(cur, i, diff, gr, at) =>
      (m, PMutexOut(Answer(if diff < m.heap[cur].gr.validTime then Valid else NeedRevalidate, gr), at))
    case PMutexOut(a, at) => (m.(mutex := m.mutex - 1), Decrement(a, at))
    case Decrement(a, at) => (m.(numReader := m.numReader - 1), TestLast(a, at))
    case TestLast(a, at) => (m, if m.numReader == 0 then VW(a, at) else VMutexOut(a, at))
    case VW(a, at) => (m.(w := m.w + 1, shared := false), VMutexOut(a, at))
    case VMutexOut(a, at) => (m.(mutex := m.mutex + 1), Return(a, at))
    case Return(_, _) => (m, r)
  }

  /** What one step inside `writeToCache` does; `a` is the address `new` yields. */
  function WriteTo(m: Memory, t: Tid, k: Key, start: nat, gr: GetResponse, w: WritePc, a: Addr): (Memory, WritePc)
    requires Safe(m, Writing(k, start, gr, w))
  {
    match w
    case WPW => (m.(w := m.w - 1), Check)
    case Check =>
      if Accepts(gr, m.totalSize) then (m, New)
      else (m.(hist := m.hist + [EWrite(t, k, gr, m.clock)]), WPLog(|m.hist|))
    case New => (m.(heap := m.heap[a := Cell(k, gr, NULL, NULL)]), SetNext(a))
    case SetNext(n) => (m.(heap := m.heap[n := m.heap[n].(next := m.heap[HEAD].next)]), SetPrev(n))
    case SetPrev(n) => (m.(heap := m.heap[n := m.heap[n].(prev := HEAD)]), SetNeighbour(n))
    case SetNeighbour(n) =>
      var b := m.heap[HEAD].next;
      (m.(heap := m.heap[b := m.heap[b].(prev := n)], brk := 1), SetHead(n))
    case SetHead(n) =>
      (m.(heap := m.heap[HEAD := m.heap[HEAD].(next := n)],
          nodes := if |m.nodes| > 0 then InsertAt(m.nodes, 1, n) else m.nodes, brk := 0,
          hist := m.hist + [EWrite(t, k, gr, m.clock)]),
       WPLog(|m.hist|))
    case WPLog(at) => (m.(log := m.log - 1), WVLog(at))
    case WVLog(at) => (m.(log := m.log + 1), WVW(at))
    case WVW(at) => (m.(w := m.w + 1), WReturn(at))
    case WReturn(_) => (m, w)
  }

  /** What one step inside `clearAllInvalidCache` does. */
  function ClearTo(m: Memory, t: Tid, k: Key, start: nat, c: ClearPc): (Memory, ClearPc)
    requires Safe(m, Clearing(k, start, c))
  {
    match c
    case CPW => (m.(w := m.w - 1), CFirst)
    case CFirst => (m, CLoop(m.heap[HEAD].next, 1))
    case CLoop(cur, i) =>
      if cur == TAIL then (m.(hist := m.hist + [EClear(t, k, m.clock)]), CVW(|m.hist|))
      else (m, if m.heap[cur].key == k then Advance(cur, i) else Skip(cur, i))
    case Skip(cur, i) => (m, CLoop(m.heap[cur].next, i + 1))
    case Advance(cur, i) => (m, Victim(m.heap[cur].next, i))
    case Victim(cur, i) => (m, UnlinkPrev(cur, m.heap[cur].prev, i))
    case UnlinkPrev(cur, n, i) =>
      var b := m.heap[n].next;
      (m.(heap := m.heap[b := m.heap[b].(prev := m.heap[n].prev)], brk := i + 1), UnlinkNext(cur, n, i))
    case UnlinkNext(cur, n, i) =>
      var a := m.heap[n].prev;
      (m.(heap := m.heap[a := m.heap[a].(next := m.heap[n].next)],
          nodes := if i < |m.nodes| then RemoveAt(m.nodes, i) else m.nodes, brk := 0),
       CPLog(cur, n, i))
    case CPLog(cur, n, i) => (m.(log := m.log - 1), CVLog(cur, n, i))
    case CVLog(cur, n, i) => (m.(log := m.log + 1), Free(cur, n, i))
    case Free(cur, n, i) => (m.(heap := m.heap - {n}), CLoop(cur, i))
    case CVW(at) => (m.(w := m.w + 1), CReturn(at))
    case CReturn(_) => (m, c)
  }

  predicate ReadStep(m: Memory, t: Tid, k: Key, start: nat, r: ReadPc, m': Memory, r': ReadPc)
    requires Safe(m, Reading(k, start, r))
  {
    !r.Return? && !Blocked(m, Reading(k, start, r)) && (m', r') == ReadTo(m, t, k, start, r)
  }

  predicate WriteStep(m: Memory, t: Tid, k: Key, start: nat, gr: GetResponse, w: WritePc,
                      c: Choice, m': Memory, w': WritePc)
    requires Safe(m, Writing(k, start, gr, w))
  {
    && !w.WReturn? && !Blocked(m, Writing(k, start, gr, w))
    && (w.New? ==> c.Alloc? && c.a !in m.heap && c.a != NULL)
    && (m', w') == WriteTo(m, t, k, start, gr, w, if c.Alloc? then c.a else NULL)
  }

  predicate ClearStep(m: Memory, t: Tid, k: Key, start: nat, c: ClearPc, m': Memory, c': ClearPc)
    requires Safe(m, Clearing(k, start, c))
  {
    !c.CReturn? && !Blocked(m, Clearing(k, start, c)) && (m', c') == ClearTo(m, t, k, start, c)
  }

  /** A call begins. The write time of a response was sampled before the call. */
  predicate StartStep(m: Memory, c: Choice, p': PC) {
    match c
    case StartRead(k) => p' == Reading(k, |m.hist|, PMutexIn)
    case StartWrite(k, gr) => gr.writeTime <= m.clock && p' == Writing(k, |m.hist|, gr, WPW)
    case StartClear(k) => p' == Clearing(k, |m.hist|, CPW)
    case StartLog => p' == Logging(false)
    case _ => false
  }

  predicate Returning(p: PC) {
    (p.Reading? && p.r.Return?) || (p.Writing? && p.w.WReturn?) || (p.Clearing? && p.c.CReturn?)
  }

  /** One step of a thread at `p`. A thread about to touch memory that is not
      allocated has no step; `MemorySafety` shows that this never happens. */
  predicate ThreadStep(m: Memory, t: Tid, p: PC, c: Choice, m': Memory, p': PC) {
    && Safe(m, p)
    && if Returning(p) then m' == m && p' == Idle
       else match p
            case Idle => m' == m && StartStep(m, c, p')
            case Reading(k, start, r) =>
              p'.Reading? && p'.k == k && p'.start == start && ReadStep(m, t, k, start, r, m', p'.r)
            case Writing(k, start, gr, w) =>
              && p'.Writing? && p'.k == k && p'.start == start && p'.gr == gr
              && WriteStep(m, t, k, start, gr, w, c, m', p'.w)
            case Clearing(k, start, cl) =>
              p'.Clearing? && p'.k == k && p'.start == start && ClearStep(m, t, k, start, cl, m', p'.c)
            case Logging(holding) =>
              if holding then m' == m.(log := m.log + 1) && p' == Idle
              else !Blocked(m, p) && m' == m.(log := m.log - 1) && p' == Logging(true)
  }

  predicate Step(s: State, t: Tid, c: Choice, s': State) {
    && t in s.pc && t in s'.pc && s'.pc == s.pc[t := s'.pc[t]]
    && ThreadStep(s.m, t, s.pc[t], c, s'.m, s'.pc[t])
  }

  /** The clock never runs backwards. */
  predicate Tick(s: State, s': State) {
    s'.m.clock >= s.m.clock && s' == s.(m := s.m.(clock := s'.m.clock))
  }

  ghost predicate NextState(s: State, s': State) {
    Tick(s, s') || exists t, c :: Step(s, t, c, s')
  }

  /** The empty cache, all semaphores released, every thread idle. */
  ghost predicate Init(s: State) {
    && s.m.mutex == 1 && s.m.w == 1 && s.m.log == 1 && s.m.numReader == 0 && s.m.totalSize == 0
    && (exists h: Cell, l: Cell :: h.next == TAIL && l.prev == HEAD && s.m.heap == map[HEAD := h, TAIL := l])
    && (forall t :: t in s.pc ==> s.pc[t] == Idle)
    && !s.m.shared && s.m.nodes == [HEAD, TAIL] && s.m.brk == 0 && s.m.hist == []
  }

  ghost predicate IsRun(run: seq<State>) {
    && |run| > 0 && Init(run[0])
    && forall i :: 0 <= i < |run| - 1 ==> NextState(run[i], run[i + 1])
  }
}
