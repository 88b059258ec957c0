// An operation left to itself completes: its thread is never blocked by idle
// ones, and every step brings its return nearer.
module CacheSolo {
  import opened CacheSpec
  import opened CacheMachine
  import opened CacheLocks
  import opened CacheHeap
  import opened CacheRuns
  import opened CacheOnce
  import opened ReaderPreference

  /** Every thread but `t` is idle. */
  predicate Alone(s: State, t: Tid) {
    t in s.pc && forall u :: u in s.pc && u != t ==> s.pc[u] == Idle
  }

  predicate SameCall(p: PC, p': PC) {
    match p
    case Reading(k, start, _) => p'.Reading? && p'.k == k && p'.start == start
    case Writing(k, start, gr, _) => p'.Writing? && p'.k == k && p'.start == start && p'.gr == gr
    case Clearing(k, start, _) => p'.Clearing? && p'.k == k && p'.start == start
    case _ => false
  }

  /** How far a write is from returning. */
  function WriteLeft(w: WritePc): nat {
    match w
    case WPW => 10
    case Check => 9
    case New => 8
    case SetNext(_) => 7
    case SetPrev(_) => 6
    case SetNeighbour(_) => 5
    case SetHead(_) => 4
    case WPLog(_) => 3
    case WVLog(_) => 2
    case WVW(_) => 1
    case WReturn(_) => 0
  }

  /** How far a clear of a list of `n` nodes is from returning; a deletion takes one node away. */
  function ClearLeft(c: ClearPc, n: nat): nat {
    match c
    case CPW => 10 * n + 40
    case CFirst => 10 * n + 30
    case CLoop(_, i) => if i < n then 10 * (n - i) + 10 else 0
    case Skip(_, i) => if i < n then 10 * (n - i) + 9 else 0
    case Advance(_, i) => if i < n then 10 * (n - i) + 9 else 0
    case Victim(_, i) => if i < n then 10 * (n - i) + 8 else 0
    case UnlinkPrev(_, _, i) => if i < n then 10 * (n - i) + 7 else 0
    case UnlinkNext(_, _, i) => if i < n then 10 * (n - i) + 6 else 0
    case CPLog(_, _, i) => if i < n then 10 * (n - i) + 13 else 0
    case CVLog(_, _, i) => if i < n then 10 * (n - i) + 12 else 0
    case Free(_, _, i) => if i < n then 10 * (n - i) + 11 else 0
    case CVW(_) => 1
    case CReturn(_) => 0
  }

  function Left(p: PC, n: nat): nat {
    match p
    case Reading(_, _, r) => Distance(r, n)
    case Writing(_, _, _, w) => WriteLeft(w)
    case Clearing(_, _, c) => ClearLeft(c, n)
    case _ => 0
  }

  lemma ReadShrinks(m: Memory, t: Tid, p: PC, c: Choice, m': Memory, p': PC)
    requires ThreadStep(m, t, p, c, m', p') && p.Reading? && !Returning(p) && Chain(m) && Knows(m, t, p)
    ensures SameCall(p, p') && m'.clock == m.clock
    ensures Left(p', |m'.nodes|) < Left(p, |m.nodes|)
  {
  }

  lemma WriteShrinks(m: Memory, t: Tid, p: PC, c: Choice, m': Memory, p': PC)
    requires ThreadStep(m, t, p, c, m', p') && p.Writing? && !Returning(p)
    ensures SameCall(p, p') && m'.clock == m.clock
    ensures Left(p', |m'.nodes|) < Left(p, |m.nodes|)
  {
  }

  /** The position a clear has reached, when it has one, and what must still follow it. */
  predicate InBounds(c: ClearPc, n: nat) {
    match c
    case CLoop(_, i) => i < n
    case Skip(_, i) => i < n
    case Advance(_, i) => i < n
    case Victim(_, i) => i < n
    case UnlinkPrev(_, _, i) => i < n
    case UnlinkNext(_, _, i) => i + 1 < n
    case CPLog(_, _, i) => i < n
    case CVLog(_, _, i) => i < n
    case Free(_, _, i) => i < n
    case _ => n > 1
  }

  lemma KnowsBounds(m: Memory, t: Tid, p: PC)
    requires p.Clearing? && Chain(m) && Knows(m, t, p)
    ensures InBounds(p.c, |m.nodes|)
  {
  }

  lemma ClearShrinks(m: Memory, t: Tid, p: PC, c: Choice, m': Memory, p': PC)
    requires ThreadStep(m, t, p, c, m', p') && p.Clearing? && !Returning(p) && InBounds(p.c, |m.nodes|)
    ensures SameCall(p, p') && m'.clock == m.clock
    ensures Left(p', |m'.nodes|) < Left(p, |m.nodes|)
  {
  }

  /** The next step of an operation left to itself. */
  lemma SoloStep(s: State, t: Tid) returns (c: Choice, s': State)
    requires Inv(s) && Alone(s, t) && InCall(s.pc[t]) && !Returning(s.pc[t])
    ensures Step(s, t, c, s') && Alone(s', t) && SameCall(s.pc[t], s'.pc[t]) && s'.m.clock == s.m.clock
    ensures Left(s'.pc[t], |s'.m.nodes|) < Left(s.pc[t], |s.m.nodes|)
    ensures Takes(s.m, t, s.pc[t], s'.m, s'.pc[t])
  {
    var u := SomeThreadRuns(s, t);
    var p := s.pc[t];
    KnowsIsSafe(s.m, t, p);
    var m', p';
    c, m', p' := RunnableSteps(s.m, t, p);
    StepTakes(s.m, t, p, c, m', p');
    if p.Reading? {
      ReadShrinks(s.m, t, p, c, m', p');
    } else if p.Writing? {
      WriteShrinks(s.m, t, p, c, m', p');
    } else {
      KnowsBounds(s.m, t, p);
      ClearShrinks(s.m, t, p, c, m', p');
    }
    s' := State(m', s.pc[t := p']);
  }

  /** What an operation that began with history `h`, and runs alone, has made of it so far. */
  predicate SoFar(h: seq<Event>, t: Tid, p: PC, m: Memory) {
    match Effect(p)
    case None => m.hist == h
    case Some(at) =>
      && at == |h| && |m.hist| == |h| + 1 && h <= m.hist
      && m.hist[at].tid == t && m.hist[at].now == m.clock && Performs(p, m.hist[at])
  }

  lemma SoFarKept(h: seq<Event>, m: Memory, t: Tid, p: PC, m': Memory, p': PC)
    requires SoFar(h, t, p, m) && InCall(p) && SameCall(p, p') && Takes(m, t, p, m', p') && m'.clock == m.clock
    ensures SoFar(h, t, p', m')
  {
  }

  lemma ReturnsAnswer(m: Memory, t: Tid, p: PC)
    requires Chain(m) && Knows(m, t, p) && p.Reading? && p.r.Return? && p.r.at < |m.hist|
    ensures m.hist[p.r.at].answer == p.r.answer
  {
  }

  lemma EffectReached(h: seq<Event>, t: Tid, p: PC, m: Memory) returns (e: Event)
    requires Returning(p) && SoFar(h, t, p, m)
    ensures m.hist == h + [e] && Performs(p, e) && e.now == m.clock
    ensures p.Reading? ==> p.r.at == |h|
  {
    e := m.hist[|h|];
  }

  /** A call that has come to its return has had its effect, and a read returns its answer. */
  lemma ReturnsWithEffect(h: seq<Event>, s: State, t: Tid) returns (e: Event)
    requires Inv(s) && t in s.pc && Returning(s.pc[t]) && SoFar(h, t, s.pc[t], s.m)
    ensures s.m.hist == h + [e] && Performs(s.pc[t], e) && e.now == s.m.clock
    ensures s.pc[t].Reading? ==> e.answer == s.pc[t].r.answer && s.pc[t].r.at == |h|
  {
    e := EffectReached(h, t, s.pc[t], s.m);
    if s.pc[t].Reading? {
      ReturnsAnswer(s.m, t, s.pc[t]);
    }
  }

  lemma LastIsLookup(h: seq<Event>, e: Event, clock: int)
    requires AtomicHistory(h + [e], clock) && e.ERead?
    ensures e.answer == Lookup(Replay(h), e.key, e.now)
  {
    assert AtomicAt(h + [e], |h|);
    assert (h + [e])[..|h|] == h;
  }
}
