// The bounded buffer under interleaving: any finite number of producers and
// consumers, one semaphore operation or one shared access per step.
module BufferMachine {
  import opened Threads
  import opened WorkBuffer

  type Tid = nat

  /** Where a thread is inside `insertFd` (with the item it carries) or `removeFd`.
      The field `at` is auxiliary: the position of the item in the order of
      insertions, which is also its position in the order of removals. */
  datatype PC =
    | Idle
    | PSlots(x: ClientInfo) | InMutex(x: ClientInfo) | IncRear(x: ClientInfo) | Store(x: ClientInfo)
    | InVMutex(x: ClientInfo, at: nat) | VItems(x: ClientInfo, at: nat)
    | PItems | OutMutex | IncFront | Load
    | OutVMutex(x: ClientInfo, at: nat) | VSlots(x: ClientInfo, at: nat) | Got(x: ClientInfo, at: nat)

  /** Shared memory, then auxiliary state: all items stored and all items loaded, in
      the order in which `mutex` admitted them. */
  datatype Memory = Memory(
    capacity: nat, slots: int, items: int, mutex: int, front: nat, rear: nat, buf: seq<ClientInfo>,
    inserted: seq<ClientInfo>, removed: seq<ClientInfo>)

  datatype State = State(m: Memory, pc: map<Tid, PC>)

  predicate Blocked(m: Memory, p: PC) {
    || (p.PSlots? && m.slots <= 0)
    || (p.PItems? && m.items <= 0)
    || ((p.InMutex? || p.OutMutex?) && m.mutex <= 0)
  }

  /** Whether a thread is in the middle of `insertFd` or `removeFd`. */
  predicate Busy(p: PC) {
    !p.Idle? && !p.Got?
  }

  /** What one step of a thread in the middle of a call does. */
  function StepTo(m: Memory, p: PC): (Memory, PC)
    requires m.capacity > 0 && |m.buf| == m.capacity
  {
    match p
    case PSlots(x) => (m.(slots := m.slots - 1), InMutex(x))
    case InMutex(x) => (m.(mutex := m.mutex - 1), IncRear(x))
    case IncRear(x) => (m.(rear := m.rear + 1), Store(x))
    case Store(x) =>
      (m.(buf := m.buf[m.rear % m.capacity := x], inserted := m.inserted + [x]), InVMutex(x, |m.inserted|))
    case InVMutex(x, at) => (m.(mutex := m.mutex + 1), VItems(x, at))
    case VItems(_, _) => (m.(items := m.items + 1), Idle)
    case PItems => (m.(items := m.items - 1), OutMutex)
    case OutMutex => (m.(mutex := m.mutex - 1), IncFront)
    case IncFront => (m.(front := m.front + 1), Load)
    case Load =>
      var x := m.buf[m.front % m.capacity];
      (m.(removed := m.removed + [x]), OutVMutex(x, |m.removed|))
    case OutVMutex(x, at) => (m.(mutex := m.mutex + 1), VSlots(x, at))
    case VSlots(x, at) => (m.(slots := m.slots + 1), Got(x, at))
    case _ => (m, p)
  }

  predicate ThreadStep(m: Memory, p: PC, m': Memory, p': PC) {
    && m.capacity > 0 && |m.buf| == m.capacity
    && match p
       case Idle => m' == m && (p'.PSlots? || p'.PItems?)
       case Got(_, _) => m' == m && p' == Idle
       case _ => !Blocked(m, p) && (m', p') == StepTo(m, p)
  }

  predicate Step(s: State, t: Tid, s': State) {
    && t in s.pc && t in s'.pc && s'.pc == s.pc[t := s'.pc[t]]
    && ThreadStep(s.m, s.pc[t], s'.m, s'.pc[t])
  }

  predicate Init(s: State) {
    && s.m.capacity > 0 && |s.m.buf| == s.m.capacity && s.m.slots == s.m.capacity && s.m.items == 0 && s.m.mutex == 1
    && s.m.front == 0 && s.m.rear == 0 && s.m.inserted == [] && s.m.removed == []
    && forall t :: t in s.pc ==> s.pc[t].Idle?
  }

  ghost predicate NextState(s: State, s': State) {
    exists t :: Step(s, t, s')
  }

  ghost predicate IsRun(run: seq<State>) {
    && |run| > 0 && Init(run[0])
    && forall i :: 0 <= i < |run| - 1 ==> NextState(run[i], run[i + 1])
  }

  // ---------------------------------------------------------------------
  // The invariant
  // ---------------------------------------------------------------------

  predicate HoldsMutex(p: PC) {
    p.IncRear? || p.Store? || p.InVMutex? || p.IncFront? || p.Load? || p.OutVMutex?
  }

  /** Between P(slots) and V(items). */
  predicate Inserting(p: PC) {
    p.InMutex? || p.IncRear? || p.Store? || p.InVMutex? || p.VItems?
  }

  /** Between P(items) and V(slots). */
  predicate Removing(p: PC) {
    p.OutMutex? || p.IncFront? || p.Load? || p.OutVMutex? || p.VSlots?
  }

  /** `rear` has moved and `items` has not. */
  predicate Posting(p: PC) {
    p.Store? || p.InVMutex? || p.VItems?
  }

  /** `items` has moved and `front` has not. */
  predicate Claiming(p: PC) {
    p.OutMutex? || p.IncFront?
  }

  /** What the holder of `mutex` knows about the counters and the two orders. */
  predicate HolderKnows(m: Memory, p: PC) {
    HoldsMutex(p) ==>
      && m.rear == |m.inserted| + One(p.Store?)
      && m.front == |m.removed| + One(p.Load?)
  }

  /** The item a thread carries out is the one at its place in both orders. */
  predicate CarrierKnows(m: Memory, p: PC) {
    && ((p.InVMutex? || p.VItems?) ==> p.at < |m.inserted| && m.inserted[p.at] == p.x)
    && ((p.OutVMutex? || p.VSlots? || p.Got?) ==> p.at < |m.removed| && m.removed[p.at] == p.x)
  }

  /** Every item stored and not yet loaded is in its place of the ring. */
  predicate Ring(m: Memory) {
    && m.capacity > 0 && |m.buf| == m.capacity
    && |m.removed| <= |m.inserted| && m.removed == m.inserted[..|m.removed|]
    && forall i :: |m.removed| <= i < |m.inserted| ==> m.buf[(i + 1) % m.capacity] == m.inserted[i]
  }

  ghost predicate Inv(s: State) {
    && s.m.mutex + Count(s.pc, HoldsMutex) == 1
    && s.m.slots + s.m.items + Count(s.pc, Inserting) + Count(s.pc, Removing) == s.m.capacity
    && s.m.rear - s.m.front == s.m.items + Count(s.pc, Posting) + Count(s.pc, Claiming)
    && Count(s.pc, Posting) <= Count(s.pc, Inserting) && Count(s.pc, Claiming) <= Count(s.pc, Removing)
    && s.m.mutex >= 0 && s.m.slots >= 0 && s.m.items >= 0
    && Ring(s.m)
    && (s.m.mutex == 1 ==> s.m.rear == |s.m.inserted| && s.m.front == |s.m.removed|)
    && (forall t :: t in s.pc ==> HolderKnows(s.m, s.pc[t]) && CarrierKnows(s.m, s.pc[t]))
  }

  lemma InitInv(s: State)
    requires Init(s)
    ensures Inv(s)
  {
    CountZero(s.pc, HoldsMutex);
    CountZero(s.pc, Inserting);
    CountZero(s.pc, Removing);
    CountZero(s.pc, Posting);
    CountZero(s.pc, Claiming);
  }

  /** How a move from `p` to `p'` changes the counters. */
  predicate Balanced(m: Memory, p: PC, m': Memory, p': PC) {
    && m'.capacity == m.capacity
    && m'.mutex + One(HoldsMutex(p')) == m.mutex + One(HoldsMutex(p))
    && m'.slots + m'.items + One(Inserting(p')) + One(Removing(p')) ==
       m.slots + m.items + One(Inserting(p)) + One(Removing(p))
    && m'.rear - m'.front - m'.items - One(Posting(p')) - One(Claiming(p')) ==
       m.rear - m.front - m.items - One(Posting(p)) - One(Claiming(p))
    && One(Inserting(p')) - One(Posting(p')) >= 0 && One(Removing(p')) - One(Claiming(p')) >= 0
    && m'.mutex >= 0 && m'.slots >= 0 && m'.items >= 0
  }

  lemma InsertBalances(m: Memory, p: PC, m': Memory, p': PC)
    requires ThreadStep(m, p, m', p') && m.mutex >= 0 && m.slots >= 0 && m.items >= 0 && (p.PSlots? || Inserting(p))
    ensures Balanced(m, p, m', p')
  {
  }

  lemma RemoveBalances(m: Memory, p: PC, m': Memory, p': PC)
    requires ThreadStep(m, p, m', p') && m.mutex >= 0 && m.slots >= 0 && m.items >= 0 && (p.PItems? || Removing(p))
    ensures Balanced(m, p, m', p')
  {
  }

  lemma StepBalances(m: Memory, p: PC, m': Memory, p': PC)
    requires ThreadStep(m, p, m', p') && m.mutex >= 0 && m.slots >= 0 && m.items >= 0
    ensures Balanced(m, p, m', p')
  {
    if p.PSlots? || Inserting(p) {
      InsertBalances(m, p, m', p');
    } else if p.PItems? || Removing(p) {
      RemoveBalances(m, p, m', p');
    }
  }

  /** Storing in the next place overwrites nothing that is still waiting. */
  lemma StoreKeepsRing(m: Memory, x: ClientInfo)
    requires Ring(m) && m.rear == |m.inserted| + 1 && m.rear - |m.removed| <= m.capacity
    ensures Ring(StepTo(m, Store(x)).0)
  {
    var m' := StepTo(m, Store(x)).0;
    forall i | |m'.removed| <= i < |m'.inserted| ensures m'.buf[(i + 1) % m.capacity] == m'.inserted[i] {
      if i < |m.inserted| {
        RingPlacesDiffer(i + 1, m.rear, m.capacity);
      }
    }
  }

  lemma StepKeepsRing(m: Memory, p: PC, m': Memory, p': PC)
    requires ThreadStep(m, p, m', p') && Ring(m) && HolderKnows(m, p) && CarrierKnows(m, p)
    requires p.Store? ==> m.rear - m.front <= m.capacity
    requires p.Load? ==> m.front <= |m.inserted|
    requires (p.InMutex? || p.OutMutex?) ==> m.rear == |m.inserted| && m.front == |m.removed|
    ensures Ring(m') && HolderKnows(m', p') && CarrierKnows(m', p')
    ensures m.inserted <= m'.inserted && m.removed <= m'.removed
    ensures !HoldsMutex(p) ==> (m'.rear, m'.front, m'.inserted, m'.removed) == (m.rear, m.front, m.inserted, m.removed)
    ensures HoldsMutex(p) && !HoldsMutex(p') ==> m'.rear == |m'.inserted| && m'.front == |m'.removed|
  {
    if p.Store? {
      StoreKeepsRing(m, p.x);
    }
  }

  lemma OneMutexHolder(s: State, t: Tid, u: Tid)
    requires Inv(s) && t in s.pc && u in s.pc && HoldsMutex(s.pc[t]) && HoldsMutex(s.pc[u])
    ensures t == u
  {
    if t != u {
      CountAtLeastTwo(s.pc, t, u, HoldsMutex);
    }
  }

  lemma CountsMove(pc: map<Tid, PC>, t: Tid, p: PC)
    requires t in pc
    ensures Count(pc[t := p], HoldsMutex) + One(HoldsMutex(pc[t])) == Count(pc, HoldsMutex) + One(HoldsMutex(p))
    ensures Count(pc[t := p], Inserting) + One(Inserting(pc[t])) == Count(pc, Inserting) + One(Inserting(p))
    ensures Count(pc[t := p], Removing) + One(Removing(pc[t])) == Count(pc, Removing) + One(Removing(p))
    ensures Count(pc[t := p], Posting) + One(Posting(pc[t])) == Count(pc, Posting) + One(Posting(p))
    ensures Count(pc[t := p], Claiming) + One(Claiming(pc[t])) == Count(pc, Claiming) + One(Claiming(p))
  {
    CountUpdate(pc, t, p, HoldsMutex);
    CountUpdate(pc, t, p, Inserting);
    CountUpdate(pc, t, p, Removing);
    CountUpdate(pc, t, p, Posting);
    CountUpdate(pc, t, p, Claiming);
  }

  /** Whoever is posting is inserting, and whoever is claiming is removing. */
  lemma CountsNest(pc: map<Tid, PC>)
    ensures Count(pc, Posting) <= Count(pc, Inserting) && Count(pc, Claiming) <= Count(pc, Removing)
  {
    CountMonotone(pc, Posting, Inserting);
    CountMonotone(pc, Claiming, Removing);
  }

  lemma StepKeepsCounts(s: State, t: Tid, s': State)
    requires Inv(s) && Step(s, t, s')
    ensures s'.m.mutex + Count(s'.pc, HoldsMutex) == 1
    ensures s'.m.slots + s'.m.items + Count(s'.pc, Inserting) + Count(s'.pc, Removing) == s'.m.capacity
    ensures s'.m.rear - s'.m.front == s'.m.items + Count(s'.pc, Posting) + Count(s'.pc, Claiming)
    ensures Count(s'.pc, Posting) <= Count(s'.pc, Inserting) && Count(s'.pc, Claiming) <= Count(s'.pc, Removing)
    ensures s'.m.mutex >= 0 && s'.m.slots >= 0 && s'.m.items >= 0
    ensures HoldsMutex(s'.pc[t]) && !HoldsMutex(s.pc[t]) ==> s.m.mutex == 1
    ensures s'.m.mutex == 1 ==> (if HoldsMutex(s.pc[t]) then !HoldsMutex(s'.pc[t]) else s.m.mutex == 1)
  {
    StepBalances(s.m, s.pc[t], s'.m, s'.pc[t]);
    CountsMove(s.pc, t, s'.pc[t]);
    CountsNest(s'.pc);
    if HoldsMutex(s.pc[t]) {
      CountAtLeastOne(s.pc, t, HoldsMutex);
    }
  }

  lemma StepKeepsInv(s: State, t: Tid, s': State)
    requires Inv(s) && Step(s, t, s')
    ensures Inv(s')
  {
    var p, p' := s.pc[t], s'.pc[t];
    StepKeepsCounts(s, t, s');
    StepKeepsRing(s.m, p, s'.m, p');
    forall u | u in s'.pc ensures HolderKnows(s'.m, s'.pc[u]) && CarrierKnows(s'.m, s'.pc[u]) {
      if u != t && HoldsMutex(s.pc[u]) && HoldsMutex(p) {
        OneMutexHolder(s, t, u);
      }
    }
  }

  lemma {:induction false} RunKeepsInv(run: seq<State>, i: nat)
    requires IsRun(run) && i < |run|
    ensures Inv(run[i])
  {
    if i == 0 {
      InitInv(run[0]);
    } else {
      RunKeepsInv(run, i - 1);
      var t :| Step(run[i - 1], t, run[i]);
      StepKeepsInv(run[i - 1], t, run[i]);
    }
  }

  // ---------------------------------------------------------------------
  // What every run keeps
  // ---------------------------------------------------------------------

  /** Semaphore accounting, and the counters a ring can have. */
  lemma Accounting(run: seq<State>, i: nat)
    requires IsRun(run) && i < |run|
    ensures run[i].m.slots + run[i].m.items + Count(run[i].pc, Inserting) + Count(run[i].pc, Removing) ==
            run[i].m.capacity
    ensures 0 <= run[i].m.rear - run[i].m.front <= run[i].m.capacity
    ensures |run[i].m.inserted| <= run[i].m.rear <= |run[i].m.inserted| + 1
  {
    RunKeepsInv(run, i);
    var s := run[i];
    if s.m.mutex == 0 {
      var h := CountWitness(s.pc, HoldsMutex);
    }
  }

  /** First in, first out: the k-th removal, in mutex order, is the k-th insertion, and
      what a consumer carries away is the item of its own removal. */
  lemma FirstInFirstOut(run: seq<State>, i: nat, t: Tid)
    requires IsRun(run) && i < |run| && t in run[i].pc
    ensures |run[i].m.removed| <= |run[i].m.inserted|
    ensures forall k :: 0 <= k < |run[i].m.removed| ==> run[i].m.removed[k] == run[i].m.inserted[k]
    ensures run[i].pc[t].Got? ==>
              && run[i].pc[t].at < |run[i].m.removed|
              && run[i].pc[t].x == run[i].m.inserted[run[i].pc[t].at]
  {
    RunKeepsInv(run, i);
    var m := run[i].m;
    assert CarrierKnows(m, run[i].pc[t]);
    assert forall k :: 0 <= k < |m.removed| ==> m.removed[k] == m.inserted[..|m.removed|][k];
  }

  /** Nothing that waits in the buffer is overwritten. */
  lemma NothingOverwritten(run: seq<State>, i: nat, k: nat)
    requires IsRun(run) && i < |run| && |run[i].m.removed| <= k < |run[i].m.inserted|
    ensures run[i].m.capacity > 0 && |run[i].m.buf| == run[i].m.capacity
    ensures run[i].m.buf[(k + 1) % run[i].m.capacity] == run[i].m.inserted[k]
  {
    RunKeepsInv(run, i);
  }

  /** When every thread in the middle of a call is blocked, each waits to insert into a full
      buffer or each waits to remove from an empty one. */
  lemma StuckOnlyWhenOneSided(run: seq<State>, i: nat)
    requires IsRun(run) && i < |run|
    requires forall t :: t in run[i].pc && Busy(run[i].pc[t]) ==> Blocked(run[i].m, run[i].pc[t])
    ensures run[i].m.slots + run[i].m.items == run[i].m.capacity > 0
    ensures forall t :: t in run[i].pc && Busy(run[i].pc[t]) ==>
              || (run[i].pc[t].PSlots? && run[i].m.items == run[i].m.capacity)
              || (run[i].pc[t].PItems? && run[i].m.slots == run[i].m.capacity)
  {
    RunKeepsInv(run, i);
    var s := run[i];
    if s.m.mutex == 0 {
      var h := CountWitness(s.pc, HoldsMutex);
      assert Busy(s.pc[h]);
    }
    forall t | t in s.pc ensures !Inserting(s.pc[t]) && !Removing(s.pc[t]) {
      assert Busy(s.pc[t]) ==> Blocked(s.m, s.pc[t]);
    }
    CountZero(s.pc, Inserting);
    CountZero(s.pc, Removing);
  }

  /** Progress: with an insert and a remove pending, some pending thread can take a step. */
  lemma Progress(run: seq<State>, i: nat, t: Tid, u: Tid)
    requires IsRun(run) && i < |run| && t in run[i].pc && u in run[i].pc
    requires (run[i].pc[t].PSlots? || Inserting(run[i].pc[t])) && (run[i].pc[u].PItems? || Removing(run[i].pc[u]))
    ensures exists v, s' :: v in run[i].pc && Busy(run[i].pc[v]) && Step(run[i], v, s')
  {
    var s := run[i];
    RunKeepsInv(run, i);
    if forall v :: v in s.pc && Busy(s.pc[v]) ==> Blocked(s.m, s.pc[v]) {
      StuckOnlyWhenOneSided(run, i);
      assert false;
    } else {
      var v :| v in s.pc && Busy(s.pc[v]) && !Blocked(s.m, s.pc[v]);
      var (m', p') := StepTo(s.m, s.pc[v]);
      assert Step(s, v, State(m', s.pc[v := p']));
    }
  }
}
