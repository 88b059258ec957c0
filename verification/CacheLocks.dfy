// The readers/writers protocol: the inductive invariant that ties the
// semaphores and the reader counter to the program counters, and what follows.
module CacheLocks {
  import opened CacheSpec
  import opened Threads
  import opened CacheMachine

  predicate HoldsMutex(p: PC) {
    p.Reading? && match p.r
                  case Increment => true
                  case TestFirst => true
                  case PW => true
                  case VMutexIn => true
                  case Decrement(_, _) => true
                  case TestLast(_, _) => true
                  case VW(_, _) => true
                  case VMutexOut(_, _) => true
                  case _ => false
  }

  /** A reader in its critical section, or on its way out of it. */
  predicate ReaderIn(p: PC) {
    p.Reading? && match p.r
                  case First => true
                  case Loop(_, _) => true
                  case Next(_, _) => true
                  case Before(_, _) => true
                  case Clock(_, _, _) => true
                  case CopyGr(_, _, _, _) => true
                  case Compare(_, _, _, _, _) => true
                  case PMutexOut(_, _) => true
                  case _ => false
  }

  /** A reader that `numReader` counts. */
  predicate Counted(p: PC) {
    ReaderIn(p) || (p.Reading? && (p.r.TestFirst? || p.r.PW? || p.r.VMutexIn? || p.r.Decrement?))
  }

  /** A writer in its critical section: it has passed P(W) and not yet done V(W). */
  predicate WriterIn(p: PC) {
    || (p.Writing? && !p.w.WPW? && !p.w.WReturn?)
    || (p.Clearing? && !p.c.CPW? && !p.c.CReturn?)
  }

  predicate HoldsLog(p: PC) {
    || (p.Writing? && p.w.WVLog?)
    || (p.Clearing? && p.c.CVLog?)
    || (p.Logging? && p.holding)
  }

  /** What the holder of `mutex` knows at each of its program points. */
  predicate MutexHolderKnows(p: PC, numReader: int, shared: bool) {
    p.Reading? ==>
      match p.r
      case Increment => shared <==> numReader > 0
      case TestFirst => shared <==> numReader > 1
      case PW => !shared && numReader == 1
      case VMutexIn => shared
      case Decrement(_, _) => shared
      case TestLast(_, _) => shared
      case VW(_, _) => shared && numReader == 0
      case VMutexOut(_, _) => shared <==> numReader > 0
      case _ => true
  }

  ghost predicate LockInv(s: State) {
    && s.m.mutex + Count(s.pc, HoldsMutex) == 1
    && s.m.numReader == Count(s.pc, Counted)
    && s.m.w + Count(s.pc, WriterIn) + One(s.m.shared) == 1
    && s.m.log + Count(s.pc, HoldsLog) == 1
    && s.m.mutex >= 0 && s.m.w >= 0 && s.m.log >= 0
    && (s.m.mutex == 1 ==> (s.m.shared <==> s.m.numReader > 0))
    && (forall t :: t in s.pc ==> MutexHolderKnows(s.pc[t], s.m.numReader, s.m.shared))
  }

  lemma LockInit(s: State)
    requires Init(s)
    ensures LockInv(s)
  {
    CountZero(s.pc, HoldsMutex);
    CountZero(s.pc, Counted);
    CountZero(s.pc, WriterIn);
    CountZero(s.pc, HoldsLog);
  }

  /** `mutex` has one holder at most. */
  lemma OneMutexHolder(s: State, t: Tid, u: Tid)
    requires LockInv(s) && t in s.pc && u in s.pc && HoldsMutex(s.pc[t]) && HoldsMutex(s.pc[u])
    ensures t == u
  {
    if t != u {
      CountAtLeastTwo(s.pc, t, u, HoldsMutex);
    }
  }

  /** What a thread's move from `p` to `p'` does to the lock variables: each semaphore and
      the counter move by what the thread gains or gives up, and only the holder of `mutex`
      touches the rest. */
  predicate LockChange(m: Memory, p: PC, m': Memory, p': PC) {
    && m'.mutex + One(HoldsMutex(p')) == m.mutex + One(HoldsMutex(p))
    && m'.numReader + One(Counted(p)) == m.numReader + One(Counted(p'))
    && m'.w + One(m'.shared) + One(WriterIn(p')) == m.w + One(m.shared) + One(WriterIn(p))
    && m'.log + One(HoldsLog(p')) == m.log + One(HoldsLog(p))
    && m'.mutex >= 0 && m'.w >= 0 && m'.log >= 0
    && MutexHolderKnows(p', m'.numReader, m'.shared)
    && ((m'.numReader, m'.shared) != (m.numReader, m.shared) ==> HoldsMutex(p))
    && (m'.mutex == 1 && HoldsMutex(p) ==> (m'.shared <==> m'.numReader > 0))
  }

  lemma ReadChangesLocks(m: Memory, t: Tid, p: PC, m': Memory, p': PC)
    requires Safe(m, p) && p.Reading? && p'.Reading? && ReadStep(m, t, p.k, p.start, p.r, m', p'.r)
    requires m.mutex >= 0 && m.w >= 0 && m.log >= 0
    requires MutexHolderKnows(p, m.numReader, m.shared)
    requires m.mutex == 1 ==> (m.shared <==> m.numReader > 0)
    requires m.mutex + One(HoldsMutex(p)) <= 1
    requires m.numReader >= One(Counted(p))
    ensures LockChange(m, p, m', p')
  {
  }

  lemma WriteChangesLocks(m: Memory, t: Tid, p: PC, c: Choice, m': Memory, p': PC)
    requires Safe(m, p) && p.Writing? && p'.Writing? && WriteStep(m, t, p.k, p.start, p.gr, p.w, c, m', p'.w)
    requires m.mutex >= 0 && m.w >= 0 && m.log >= 0
    requires MutexHolderKnows(p, m.numReader, m.shared)
    requires m.mutex == 1 ==> (m.shared <==> m.numReader > 0)
    requires m.mutex + One(HoldsMutex(p)) <= 1
    requires m.numReader >= One(Counted(p))
    ensures LockChange(m, p, m', p')
  {
  }

  lemma ClearChangesLocks(m: Memory, t: Tid, p: PC, m': Memory, p': PC)
    requires Safe(m, p) && p.Clearing? && p'.Clearing? && ClearStep(m, t, p.k, p.start, p.c, m', p'.c)
    requires m.mutex >= 0 && m.w >= 0 && m.log >= 0
    requires MutexHolderKnows(p, m.numReader, m.shared)
    requires m.mutex == 1 ==> (m.shared <==> m.numReader > 0)
    requires m.mutex + One(HoldsMutex(p)) <= 1
    requires m.numReader >= One(Counted(p))
    ensures LockChange(m, p, m', p')
  {
  }

  lemma StepChangesLocks(m: Memory, t: Tid, p: PC, c: Choice, m': Memory, p': PC)
    requires ThreadStep(m, t, p, c, m', p')
    requires m.mutex >= 0 && m.w >= 0 && m.log >= 0
    requires MutexHolderKnows(p, m.numReader, m.shared)
    requires m.mutex == 1 ==> (m.shared <==> m.numReader > 0)
    requires m.mutex + One(HoldsMutex(p)) <= 1
    requires m.numReader >= One(Counted(p))
    ensures LockChange(m, p, m', p')
  {
    if !Returning(p) {
      match p
      case Idle =>
      case Reading(_, _, _) => ReadChangesLocks(m, t, p, m', p');
      case Writing(_, _, _, _) => WriteChangesLocks(m, t, p, c, m', p');
      case Clearing(_, _, _) => ClearChangesLocks(m, t, p, m', p');
      case Logging(_) =>
    }
  }

  lemma LockChangeKeepsInv(s: State, t: Tid, s': State)
    requires LockInv(s) && t in s.pc && t in s'.pc && s'.pc == s.pc[t := s'.pc[t]]
    requires LockChange(s.m, s.pc[t], s'.m, s'.pc[t])
    ensures LockInv(s')
  {
    var p' := s'.pc[t];
    CountUpdate(s.pc, t, p', HoldsMutex);
    CountUpdate(s.pc, t, p', Counted);
    CountUpdate(s.pc, t, p', WriterIn);
    CountUpdate(s.pc, t, p', HoldsLog);
    forall u | u in s'.pc ensures MutexHolderKnows(s'.pc[u], s'.m.numReader, s'.m.shared) {
      if u != t && HoldsMutex(s.pc[u]) && HoldsMutex(s.pc[t]) {
        OneMutexHolder(s, t, u);
      }
    }
  }

  lemma LockStep(s: State, t: Tid, c: Choice, s': State)
    requires LockInv(s) && Step(s, t, c, s')
    ensures LockInv(s')
  {
    if HoldsMutex(s.pc[t]) {
      CountAtLeastOne(s.pc, t, HoldsMutex);
    }
    if Counted(s.pc[t]) {
      CountAtLeastOne(s.pc, t, Counted);
    }
    StepChangesLocks(s.m, t, s.pc[t], c, s'.m, s'.pc[t]);
    LockChangeKeepsInv(s, t, s');
  }

  // ---------------------------------------------------------------------
  // Consequences
  // ---------------------------------------------------------------------

  /** While a reader is inside, W is held on behalf of the readers: a first reader that
      still waits for W while holding `mutex` shows that nobody else is inside. */
  lemma ReaderInsideHoldsW(s: State, t: Tid)
    requires LockInv(s) && t in s.pc && ReaderIn(s.pc[t])
    ensures s.m.shared && s.m.w == 0 && Count(s.pc, WriterIn) == 0
    ensures forall u :: u in s.pc && s.pc[u].Reading? ==> !s.pc[u].r.PW?
  {
    CountAtLeastOne(s.pc, t, Counted);
    if s.m.mutex == 0 {
      var h := CountWitness(s.pc, HoldsMutex);
      if Counted(s.pc[h]) {
        CountAtLeastTwo(s.pc, t, h, Counted);
      }
    }
  }

  lemma NoReaderWithWriter(s: State, t: Tid, u: Tid)
    requires LockInv(s) && t in s.pc && u in s.pc && ReaderIn(s.pc[t])
    ensures !WriterIn(s.pc[u])
  {
    ReaderInsideHoldsW(s, t);
    if WriterIn(s.pc[u]) {
      CountAtLeastOne(s.pc, u, WriterIn);
    }
  }

  lemma OneWriter(s: State, t: Tid, u: Tid)
    requires LockInv(s) && t in s.pc && u in s.pc && WriterIn(s.pc[t]) && WriterIn(s.pc[u])
    ensures t == u
  {
    if t != u {
      CountAtLeastTwo(s.pc, t, u, WriterIn);
    }
  }

  /** W can be taken only while nobody is inside. */
  lemma FreeMeansEmpty(s: State, u: Tid)
    requires LockInv(s) && s.m.w > 0 && u in s.pc
    ensures !ReaderIn(s.pc[u]) && !WriterIn(s.pc[u])
  {
    if ReaderIn(s.pc[u]) {
      ReaderInsideHoldsW(s, u);
    }
    if WriterIn(s.pc[u]) {
      CountAtLeastOne(s.pc, u, WriterIn);
    }
  }

  // ---------------------------------------------------------------------
  // Deadlock freedom
  // ---------------------------------------------------------------------

  /** Some thread in the middle of an operation is not blocked. */
  lemma SomeThreadRuns(s: State, t: Tid) returns (u: Tid)
    requires LockInv(s) && t in s.pc && s.pc[t] != Idle
    ensures u in s.pc && s.pc[u] != Idle && !Blocked(s.m, s.pc[u])
  {
    if s.m.log == 0 {
      u := CountWitness(s.pc, HoldsLog);
    } else if Count(s.pc, WriterIn) > 0 {
      u := CountWitness(s.pc, WriterIn);
    } else if s.m.mutex == 0 {
      // The holder may wait for W, but then it is the first reader, so W is free.
      u := CountWitness(s.pc, HoldsMutex);
    } else if s.m.w == 0 {
      // The readers hold W, and `mutex` is free, so a counted reader can go on.
      u := CountWitness(s.pc, Counted);
      if HoldsMutex(s.pc[u]) {
        CountAtLeastOne(s.pc, u, HoldsMutex);
      }
    } else {
      u := t;
    }
  }
}
