// The accept loop and the workers around the bounded buffer: every request is
// handled exactly once, however the threads interleave.
module WorkerPool {
  import opened Threads
  import opened WorkBuffer
  import B = BufferMachine

  /** The buffer and its threads; the id of the next request; the requests handled and the
      connections closed, in order; and the workers between handling and closing. */
  datatype State = State(b: B.State, master: B.Tid, next: nat, handled: seq<nat>, closed: seq<nat>, busy: set<B.Tid>)

  /** The master accepts a connection, numbers it and calls `insertFd`. */
  predicate Accept(s: State, s': State) {
    && s.master in s.b.pc && s.b.pc[s.master] == B.Idle
    && s.master in s'.b.pc && s'.b.pc[s.master].PSlots? && s'.b.pc[s.master].x.uuid == s.next
    && s' == s.(b := s.b.(pc := s.b.pc[s.master := s'.b.pc[s.master]]), next := s.next + 1)
  }

  /** A worker calls `removeFd`. */
  predicate Fetch(s: State, t: B.Tid, s': State) {
    && t in s.b.pc && t != s.master && s.b.pc[t] == B.Idle
    && s' == s.(b := s.b.(pc := s.b.pc[t := B.PItems]))
  }

  /** A thread moves inside `insertFd` or `removeFd`. */
  predicate Move(s: State, t: B.Tid, s': State) {
    && t in s.b.pc && B.Busy(s.b.pc[t]) && B.Step(s.b, t, s'.b) && s' == s.(b := s'.b)
  }

  /** A worker has served the request it carries. */
  predicate Handle(s: State, t: B.Tid, s': State) {
    && t in s.b.pc && t != s.master && s.b.pc[t].Got? && t !in s.busy
    && s' == s.(handled := s.handled + [s.b.pc[t].x.uuid], busy := s.busy + {t})
  }

  /** And closes its connection. */
  predicate Close(s: State, t: B.Tid, s': State) {
    && t in s.b.pc && s.b.pc[t].Got? && t in s.busy
    && s' == s.(b := s.b.(pc := s.b.pc[t := B.Idle]), closed := s.closed + [s.b.pc[t].x.uuid], busy := s.busy - {t})
  }

  /** A failed `accept` changes nothing. */
  ghost predicate NextState(s: State, s': State) {
    s' == s || Accept(s, s') || exists t :: Fetch(s, t, s') || Move(s, t, s') || Handle(s, t, s') || Close(s, t, s')
  }

  predicate Init(s: State) {
    B.Init(s.b) && s.master in s.b.pc && s.next == 0 && s.handled == [] && s.closed == [] && s.busy == {}
  }

  ghost predicate IsRun(run: seq<State>) {
    && |run| > 0 && Init(run[0])
    && forall i :: 0 <= i < |run| - 1 ==> NextState(run[i], run[i + 1])
  }

  // ---------------------------------------------------------------------
  // The invariant
  // ---------------------------------------------------------------------

  predicate InInsert(p: B.PC) {
    p.PSlots? || p.InMutex? || p.IncRear? || p.Store? || p.InVMutex? || p.VItems?
  }

  predicate InRemove(p: B.PC) {
    p.PItems? || p.OutMutex? || p.IncFront? || p.Load? || p.OutVMutex? || p.VSlots? || p.Got?
  }

  /** The master has numbered a request and not yet stored it. */
  predicate Pending(p: B.PC) {
    p.PSlots? || p.InMutex? || p.IncRear? || p.Store?
  }

  /** A worker has taken a request out of the buffer. */
  predicate Carries(p: B.PC) {
    p.OutVMutex? || p.VSlots? || p.Got?
  }

  predicate NoDuplicates(ids: seq<nat>) {
    forall i, j :: 0 <= i < j < |ids| ==> ids[i] != ids[j]
  }

  predicate Roles(s: State) {
    && s.master in s.b.pc && !InRemove(s.b.pc[s.master])
    && forall t :: t in s.b.pc && t != s.master ==> !InInsert(s.b.pc[t])
  }

  /** Requests enter the buffer in the order of their numbers. */
  predicate Numbered(s: State)
    requires s.master in s.b.pc
  {
    && |s.b.m.inserted| + One(Pending(s.b.pc[s.master])) == s.next
    && (Pending(s.b.pc[s.master]) ==> s.b.pc[s.master].x.uuid == s.next - 1)
    && forall i :: 0 <= i < |s.b.m.inserted| ==> s.b.m.inserted[i].uuid == i
  }

  /** Requests in the hands of workers are distinct, open, and handled just when they say so. */
  predicate Carried(s: State) {
    && (forall t, u :: t in s.b.pc && u in s.b.pc && t != u && Carries(s.b.pc[t]) && Carries(s.b.pc[u]) ==>
          s.b.pc[t].at != s.b.pc[u].at)
    && (forall t :: t in s.b.pc && Carries(s.b.pc[t]) ==>
          s.b.pc[t].at !in s.closed && (s.b.pc[t].at in s.handled <==> t in s.busy))
    && (forall t :: t in s.busy ==> t in s.b.pc && s.b.pc[t].Got?)
  }

  /** Whatever left the buffer is with a worker or closed. */
  ghost predicate Accounted(s: State) {
    && NoDuplicates(s.closed) && NoDuplicates(s.handled)
    && (forall k :: k in s.closed ==> k in s.handled)
    && (forall k :: k in s.handled ==> k < |s.b.m.removed|)
    && (forall k :: 0 <= k < |s.b.m.removed| ==> k in s.closed || WithWorker(s, k))
  }

  ghost predicate WithWorker(s: State, k: nat) {
    exists t :: t in s.b.pc && Carries(s.b.pc[t]) && s.b.pc[t].at == k
  }

  ghost predicate Inv(s: State) {
    B.Inv(s.b) && Roles(s) && Numbered(s) && Carried(s) && Accounted(s)
  }

  lemma InitInv(s: State)
    requires Init(s)
    ensures Inv(s)
  {
    B.InitInv(s.b);
  }

  /** The request a worker carries has the number of its place in the order of removals. */
  lemma CarriedNumber(s: State, t: B.Tid)
    requires B.Inv(s.b) && Roles(s) && Numbered(s) && t in s.b.pc && Carries(s.b.pc[t])
    ensures s.b.pc[t].at < |s.b.m.removed| && s.b.pc[t].x.uuid == s.b.pc[t].at
  {
    assert B.CarrierKnows(s.b.m, s.b.pc[t]);
    var m, at := s.b.m, s.b.pc[t].at;
    assert m.removed[at] == m.inserted[..|m.removed|][at] == m.inserted[at];
  }

  lemma AcceptKeeps(s: State, s': State)
    requires Inv(s) && Accept(s, s')
    ensures Inv(s')
  {
    assert B.Step(s.b, s.master, s'.b);
    B.StepKeepsInv(s.b, s.master, s'.b);
    WorkersStay(s, s.master, s');
  }

  lemma FetchKeeps(s: State, t: B.Tid, s': State)
    requires Inv(s) && Fetch(s, t, s')
    ensures Inv(s')
  {
    assert B.Step(s.b, t, s'.b);
    B.StepKeepsInv(s.b, t, s'.b);
    WorkersStay(s, t, s');
  }

  /** A step of a thread that carries nothing before or after, with nothing removed. */
  lemma WorkersStay(s: State, t: B.Tid, s': State)
    requires t in s.b.pc && t in s'.b.pc && s'.b.pc == s.b.pc[t := s'.b.pc[t]]
    requires s'.b.m.removed == s.b.m.removed && s'.handled == s.handled && s'.closed == s.closed && s'.busy == s.busy
    requires Carries(s'.b.pc[t]) ==> Carries(s.b.pc[t]) && s'.b.pc[t].at == s.b.pc[t].at
    requires Carries(s.b.pc[t]) ==> Carries(s'.b.pc[t]) && (s.b.pc[t].Got? ==> s'.b.pc[t].Got?)
    requires Carried(s) && Accounted(s)
    ensures Carried(s') && Accounted(s')
  {
    forall k | 0 <= k < |s'.b.m.removed| && k !in s'.closed ensures WithWorker(s', k) {
      assert WithWorker(s, k);
      var u :| u in s.b.pc && Carries(s.b.pc[u]) && s.b.pc[u].at == k;
      assert u in s'.b.pc && Carries(s'.b.pc[u]) && s'.b.pc[u].at == k;
    }
  }

  /** What a move inside the buffer's operations does to the two orders and to the thread's role. */
  lemma MoveEffect(m: B.Memory, p: B.PC, m': B.Memory, p': B.PC)
    requires B.Busy(p) && B.ThreadStep(m, p, m', p')
    ensures m'.inserted == if p.Store? then m.inserted + [p.x] else m.inserted
    ensures !p.Load? ==> m'.removed == m.removed && Carries(p') == Carries(p) && (Carries(p) ==> p'.at == p.at)
    ensures p.Load? ==>
              && |m'.removed| == |m.removed| + 1 && m'.removed[..|m.removed|] == m.removed
              && p'.OutVMutex? && p'.at == |m.removed|
    ensures Pending(p') <==> Pending(p) && !p.Store?
    ensures Pending(p') ==> p'.x == p.x
    ensures InInsert(p') ==> InInsert(p)
    ensures InRemove(p') ==> InRemove(p)
    ensures !p.Got?
  {
  }

  lemma MoveKeeps(s: State, t: B.Tid, s': State)
    requires Inv(s) && Move(s, t, s')
    ensures Inv(s')
  {
    B.StepKeepsInv(s.b, t, s'.b);
    MoveEffect(s.b.m, s.b.pc[t], s'.b.m, s'.b.pc[t]);
    if s.b.pc[t].Load? {
      LoadKeeps(s, t, s');
    } else {
      WorkersStay(s, t, s');
    }
    MoveKeepsNumbers(s, t, s');
  }

  lemma MoveKeepsNumbers(s: State, t: B.Tid, s': State)
    requires Roles(s) && Numbered(s) && Move(s, t, s')
    ensures Roles(s') && Numbered(s')
  {
    MoveEffect(s.b.m, s.b.pc[t], s'.b.m, s'.b.pc[t]);
  }

  /** Taking a request out of the buffer puts it in the hands of one worker. */
  lemma LoadKeeps(s: State, t: B.Tid, s': State)
    requires Inv(s) && Move(s, t, s') && s.b.pc[t].Load?
    ensures Carried(s') && Accounted(s')
  {
    var n := |s.b.m.removed|;
    MoveEffect(s.b.m, s.b.pc[t], s'.b.m, s'.b.pc[t]);
    forall u | u in s.b.pc && Carries(s.b.pc[u]) ensures s.b.pc[u].at < n {
      CarriedNumber(s, u);
    }
    assert n !in s.handled && n !in s.closed;
    forall k | 0 <= k < |s'.b.m.removed| && k !in s'.closed ensures WithWorker(s', k) {
      if k < n {
        assert WithWorker(s, k);
        var u :| u in s.b.pc && Carries(s.b.pc[u]) && s.b.pc[u].at == k;
        assert u in s'.b.pc && Carries(s'.b.pc[u]) && s'.b.pc[u].at == k;
      } else {
        assert t in s'.b.pc && Carries(s'.b.pc[t]) && s'.b.pc[t].at == k;
      }
    }
  }

  lemma HandleKeeps(s: State, t: B.Tid, s': State)
    requires Inv(s) && Handle(s, t, s')
    ensures Inv(s')
  {
    CarriedNumber(s, t);
    HandleAccounts(s, t, s.b.pc[t].at, s');
  }

  lemma HandleAccounts(s: State, t: B.Tid, k: nat, s': State)
    requires Carried(s) && Accounted(s) && Handle(s, t, s')
    requires s.b.pc[t].at == k == s.b.pc[t].x.uuid && k < |s.b.m.removed|
    ensures Carried(s') && Accounted(s')
  {
    assert Carries(s.b.pc[t]) && k !in s.handled;
    assert forall i :: i in s'.handled <==> i in s.handled || i == k;
    assert forall i :: WithWorker(s, i) ==> WithWorker(s', i);
  }

  lemma CloseKeeps(s: State, t: B.Tid, s': State)
    requires Inv(s) && Close(s, t, s')
    ensures Inv(s')
  {
    assert B.Step(s.b, t, s'.b);
    B.StepKeepsInv(s.b, t, s'.b);
    CloseAccounts(s, t, s');
  }

  lemma CloseAccounts(s: State, t: B.Tid, s': State)
    requires Inv(s) && Close(s, t, s')
    ensures Carried(s') && Accounted(s')
  {
    CarriedNumber(s, t);
    forall k | 0 <= k < |s'.b.m.removed| && k !in s'.closed ensures WithWorker(s', k) {
      assert WithWorker(s, k);
      var u :| u in s.b.pc && Carries(s.b.pc[u]) && s.b.pc[u].at == k;
      assert u in s'.b.pc && Carries(s'.b.pc[u]) && s'.b.pc[u].at == k;
    }
  }

  lemma {:induction false} RunKeepsInv(run: seq<State>, i: nat)
    requires IsRun(run) && i < |run|
    ensures Inv(run[i])
  {
    if i == 0 {
      InitInv(run[0]);
    } else {
      RunKeepsInv(run, i - 1);
      var s, s' := run[i - 1], run[i];
      assert NextState(s, s');
      if s' != s && Accept(s, s') {
        AcceptKeeps(s, s');
      } else if s' != s {
        var t :| Fetch(s, t, s') || Move(s, t, s') || Handle(s, t, s') || Close(s, t, s');
        if Fetch(s, t, s') {
          FetchKeeps(s, t, s');
        } else if Move(s, t, s') {
          MoveKeeps(s, t, s');
        } else if Handle(s, t, s') {
          HandleKeeps(s, t, s');
        } else {
          CloseKeeps(s, t, s');
        }
      }
    }
  }

  // ---------------------------------------------------------------------
  // Exactly-once service
  // ---------------------------------------------------------------------

  /** Where a request can be. */
  datatype Holder = Master | Buffer | Worker(t: B.Tid) | Closed

  ghost predicate HeldBy(s: State, k: nat, h: Holder) {
    match h
    case Master => s.master in s.b.pc && Pending(s.b.pc[s.master]) && s.b.pc[s.master].x.uuid == k
    case Buffer => exists i :: |s.b.m.removed| <= i < |s.b.m.inserted| && s.b.m.inserted[i].uuid == k
    case Worker(t) => t in s.b.pc && t != s.master && Carries(s.b.pc[t]) && s.b.pc[t].x.uuid == k
    case Closed => k in s.closed
  }

  /** Which holder a request has, from its number. */
  lemma HolderByNumber(s: State, k: nat, h: Holder)
    requires Inv(s) && HeldBy(s, k, h)
    ensures k < s.next
    ensures h == Master ==> k == |s.b.m.inserted|
    ensures h == Buffer ==> |s.b.m.removed| <= k < |s.b.m.inserted|
    ensures h.Worker? ==> k < |s.b.m.removed| && s.b.pc[h.t].at == k && k !in s.closed
    ensures h == Closed ==> k < |s.b.m.removed|
  {
    if h.Worker? {
      CarriedNumber(s, h.t);
    }
  }

  /** Every request issued so far has exactly one holder. */
  lemma EachRequestHasOneHolder(run: seq<State>, i: nat, k: nat)
    requires IsRun(run) && i < |run|
    ensures k < run[i].next <==> exists h :: HeldBy(run[i], k, h)
    ensures forall h, h' :: HeldBy(run[i], k, h) && HeldBy(run[i], k, h') ==> h == h'
  {
    RunKeepsInv(run, i);
    var s := run[i];
    forall h | HeldBy(s, k, h) ensures k < s.next {
      HolderByNumber(s, k, h);
    }
    if k < s.next {
      var h := FindHolder(s, k);
    }
    forall h, h' | HeldBy(s, k, h) && HeldBy(s, k, h') ensures h == h' {
      HolderByNumber(s, k, h);
      HolderByNumber(s, k, h');
    }
  }

  lemma FindHolder(s: State, k: nat) returns (h: Holder)
    requires Inv(s) && k < s.next
    ensures HeldBy(s, k, h)
  {
    if k >= |s.b.m.inserted| {
      h := Master;
    } else if k >= |s.b.m.removed| {
      assert s.b.m.inserted[k].uuid == k;
      h := Buffer;
    } else if k in s.closed {
      h := Closed;
    } else {
      assert WithWorker(s, k);
      var t :| t in s.b.pc && Carries(s.b.pc[t]) && s.b.pc[t].at == k;
      CarriedNumber(s, t);
      h := Worker(t);
    }
  }

  /** No request is handled twice, none is closed twice, and only handled requests are closed. */
  lemma ServedOnce(run: seq<State>, i: nat)
    requires IsRun(run) && i < |run|
    ensures NoDuplicates(run[i].handled) && NoDuplicates(run[i].closed)
    ensures forall k :: k in run[i].closed ==> k in run[i].handled
    ensures forall k :: k in run[i].handled ==> k < run[i].next
  {
    RunKeepsInv(run, i);
  }
}
