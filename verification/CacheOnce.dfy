// Each cache operation takes effect exactly once, between its call and its
// return, and the history lists the operations in an order that respects theirs.
module CacheOnce {
  import opened Wrappers
  import opened CacheSpec
  import opened CacheMachine
  import opened CacheHeap
  import opened CacheRuns

  /** The event an operation has become, once it has. */
  function Effect(p: PC): Option<nat> {
    match p
    case Reading(_, _, r) =>
      (match r
       case CopyGr(_, _, _, at) => Some(at)
       case Compare(_, _, _, _, at) => Some(at)
       case PMutexOut(_, at) => Some(at)
       case Decrement(_, at) => Some(at)
       case TestLast(_, at) => Some(at)
       case VW(_, at) => Some(at)
       case VMutexOut(_, at) => Some(at)
       case Return(_, at) => Some(at)
       case _ => None)
    case Writing(_, _, _, w) =>
      (match w
       case WPLog(at) => Some(at)
       case WVLog(at) => Some(at)
       case WVW(at) => Some(at)
       case WReturn(at) => Some(at)
       case _ => None)
    case Clearing(_, _, c) =>
      (match c
       case CVW(at) => Some(at)
       case CReturn(at) => Some(at)
       case _ => None)
    case _ => None
  }

  predicate InCall(p: PC) {
    p.Reading? || p.Writing? || p.Clearing?
  }

  /** Since its call, a thread has the one event its operation has become, or none. */
  predicate Once(h: seq<Event>, t: Tid, p: PC) {
    InCall(p) ==> forall i :: p.start <= i < |h| && h[i].tid == t ==> Effect(p) == Some(i)
  }

  ghost predicate AllOnce(s: State) {
    forall t :: t in s.pc ==> Once(s.m.hist, t, s.pc[t])
  }

  /** The event a call is to become. */
  predicate Performs(p: PC, e: Event) {
    match p
    case Reading(k, _, _) => e.ERead? && e.key == k
    case Writing(k, _, gr, _) => e.EWrite? && e.key == k && e.gr == gr
    case Clearing(k, _, _) => e.EClear? && e.key == k
    case _ => false
  }

  /** A step adds an event exactly when the operation takes effect. */
  predicate Takes(m: Memory, t: Tid, p: PC, m': Memory, p': PC) {
    && (InCall(p) && InCall(p') ==> p'.start == p.start)
    && (InCall(p') && !InCall(p) ==> p'.start == |m.hist|)
    && if Effect(p).None? && Effect(p').Some?
       then
         && |m'.hist| == |m.hist| + 1 && m.hist <= m'.hist && Effect(p') == Some(|m.hist|)
         && var e := m'.hist[|m.hist|]; e.tid == t && e.now == m.clock && InCall(p) && Performs(p, e)
       else m'.hist == m.hist && (InCall(p) && InCall(p') ==> Effect(p') == Effect(p))
  }

  lemma ReadTakes(m: Memory, t: Tid, p: PC, c: Choice, m': Memory, p': PC)
    requires ThreadStep(m, t, p, c, m', p') && p.Reading?
    ensures Takes(m, t, p, m', p')
  {
  }

  lemma WriteTakes(m: Memory, t: Tid, p: PC, c: Choice, m': Memory, p': PC)
    requires ThreadStep(m, t, p, c, m', p') && p.Writing?
    ensures Takes(m, t, p, m', p')
  {
  }

  lemma ClearTakes(m: Memory, t: Tid, p: PC, c: Choice, m': Memory, p': PC)
    requires ThreadStep(m, t, p, c, m', p') && p.Clearing?
    ensures Takes(m, t, p, m', p')
  {
  }

  lemma StepTakes(m: Memory, t: Tid, p: PC, c: Choice, m': Memory, p': PC)
    requires ThreadStep(m, t, p, c, m', p')
    ensures Takes(m, t, p, m', p')
  {
    match p
    case Reading(_, _, _) => ReadTakes(m, t, p, c, m', p');
    case Writing(_, _, _, _) => WriteTakes(m, t, p, c, m', p');
    case Clearing(_, _, _) => ClearTakes(m, t, p, c, m', p');
    case _ =>
  }

  lemma TakesKeepsOnce(h: seq<Event>, h': seq<Event>, m: Memory, t: Tid, p: PC, m': Memory, p': PC, u: Tid, q: PC)
    requires h == m.hist && h' == m'.hist && Takes(m, t, p, m', p')
    requires Once(h, t, p) && (u != t ==> Once(h, u, q)) && (u == t ==> q == p')
    ensures Once(h', u, q)
  {
  }

  lemma NextKeepsOnce(s: State, s': State)
    requires AllOnce(s) && NextState(s, s')
    ensures AllOnce(s')
  {
    if !Tick(s, s') {
      var t, c :| Step(s, t, c, s');
      StepTakes(s.m, t, s.pc[t], c, s'.m, s'.pc[t]);
      forall u | u in s'.pc ensures Once(s'.m.hist, u, s'.pc[u]) {
        TakesKeepsOnce(s.m.hist, s'.m.hist, s.m, t, s.pc[t], s'.m, s'.pc[t], u, s'.pc[u]);
      }
    }
  }

  lemma {:induction false} RunKeepsOnce(run: seq<State>, i: nat)
    requires IsRun(run) && i < |run|
    ensures AllOnce(run[i])
  {
    if i == 0 {
    } else {
      RunKeepsOnce(run, i - 1);
      NextKeepsOnce(run[i - 1], run[i]);
    }
  }

  // ---------------------------------------------------------------------
  // Linearizability
  // ---------------------------------------------------------------------

  /** A call about to return has become exactly one event of its thread since it began. */
  lemma CallsTakeEffectOnce(run: seq<State>, i: nat, t: Tid) returns (at: nat)
    requires IsRun(run) && i < |run| && t in run[i].pc && Returning(run[i].pc[t])
    ensures run[i].pc[t].start <= at < |run[i].m.hist| && run[i].m.hist[at].tid == t
    ensures forall j :: run[i].pc[t].start <= j < |run[i].m.hist| && run[i].m.hist[j].tid == t ==> j == at
  {
    RunKeepsOnce(run, i);
    if run[i].pc[t].Reading? {
      at := ReadIsAtomic(run, i, t);
    } else {
      at := UpdateIsAtomic(run, i, t);
    }
    assert Once(run[i].m.hist, t, run[i].pc[t]);
  }

  /** What a step does to the history and to the calls: events are never withdrawn, a call starts
      with the history of the moment, and an event is added by the call that becomes it. */
  predicate Traces(s: State, s': State) {
    && s.m.hist <= s'.m.hist
    && (forall u :: u in s.pc && u in s'.pc && InCall(s'.pc[u]) ==>
          s'.pc[u].start == if InCall(s.pc[u]) then s.pc[u].start else |s.m.hist|)
    && (forall k :: |s.m.hist| <= k < |s'.m.hist| ==> Becomes(s, s', s'.m.hist[k], k))
  }

  predicate Becomes(s: State, s': State, e: Event, k: nat) {
    && e.tid in s.pc && e.tid in s'.pc
    && Performs(s.pc[e.tid], e) && Effect(s.pc[e.tid]).None? && Effect(s'.pc[e.tid]) == Some(k)
  }

  lemma NextTraces(s: State, s': State)
    requires NextState(s, s')
    ensures Traces(s, s')
  {
    if !Tick(s, s') {
      var t, c :| Step(s, t, c, s');
      StepTakes(s.m, t, s.pc[t], c, s'.m, s'.pc[t]);
    }
  }

  predicate Traced(run: seq<State>) {
    && |run| > 0 && run[0].m.hist == []
    && forall i :: 0 <= i < |run| - 1 ==> Traces(run[i], run[i + 1])
  }

  lemma RunIsTraced(run: seq<State>)
    requires IsRun(run)
    ensures Traced(run)
  {
    forall i | 0 <= i < |run| - 1 ensures Traces(run[i], run[i + 1]) {
      NextTraces(run[i], run[i + 1]);
    }
  }

  lemma {:induction false} HistoryGrows(run: seq<State>, i: nat, j: nat)
    requires Traced(run) && i <= j < |run|
    ensures run[i].m.hist <= run[j].m.hist
  {
    if i == j {
    } else {
      HistoryGrows(run, i, j - 1);
      assert Traces(run[j - 1], run[j]);
    }
  }

  /** From `j` on, thread `u` begins one call and is still in it at `l`. */
  predicate InCallSince(run: seq<State>, u: Tid, j: nat, l: nat)
    requires j < l < |run|
  {
    && u in run[j].pc && !InCall(run[j].pc[u])
    && forall x :: j < x <= l ==> u in run[x].pc && InCall(run[x].pc[u])
  }

  lemma {:induction false} CallStart(run: seq<State>, u: Tid, j: nat, l: nat)
    requires Traced(run) && j < l < |run| && InCallSince(run, u, j, l)
    ensures run[l].pc[u].start == |run[j].m.hist|
  {
    assert Traces(run[l - 1], run[l]);
    if l == j + 1 {
    } else {
      CallStart(run, u, j, l - 1);
    }
  }

  /** Real-time order: when one call has come to its return before another begins, its event
      comes first in the history. */
  lemma RealTimeOrder(run: seq<State>, i: nat, t: Tid, j: nat, l: nat, u: Tid) returns (a: nat, b: nat)
    requires IsRun(run) && i <= j < l < |run|
    requires t in run[i].pc && Returning(run[i].pc[t])
    requires InCallSince(run, u, j, l) && Returning(run[l].pc[u])
    ensures run[i].pc[t].start <= a < |run[i].m.hist| && run[i].m.hist[a].tid == t
    ensures run[l].pc[u].start <= b < |run[l].m.hist| && run[l].m.hist[b].tid == u
    ensures a < b && run[l].m.hist[a] == run[i].m.hist[a]
  {
    a := CallsTakeEffectOnce(run, i, t);
    b := CallsTakeEffectOnce(run, l, u);
    RunIsTraced(run);
    CallStart(run, u, j, l);
    HistoryGrows(run, i, j);
    HistoryGrows(run, i, l);
  }

  /** Every event is that of a call: of its thread, of its kind, key and response, at the step by
      which that call took effect. */
  lemma EventHasCall(run: seq<State>, i: nat, k: nat) returns (x: nat)
    requires IsRun(run) && i < |run| && k < |run[i].m.hist|
    ensures x < i && Becomes(run[x], run[x + 1], run[i].m.hist[k], k)
  {
    RunIsTraced(run);
    x := FindCall(run, i, k);
  }

  lemma {:induction false} FindCall(run: seq<State>, i: nat, k: nat) returns (x: nat)
    requires Traced(run) && i < |run| && k < |run[i].m.hist|
    ensures x < i && Becomes(run[x], run[x + 1], run[i].m.hist[k], k)
  {
    if i == 0 {
      assert false;
    } else {
      assert Traces(run[i - 1], run[i]);
      if k < |run[i - 1].m.hist| {
        x := FindCall(run, i - 1, k);
        assert run[i].m.hist[k] == run[i - 1].m.hist[k];
      } else {
        x := i - 1;
      }
    }
  }
}
