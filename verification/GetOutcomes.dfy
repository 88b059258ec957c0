// What becomes of every lookup and of every fetch in a run of handlers: none is
// forgotten.
module GetOutcomes {
  import opened Wrappers
  import opened CacheSpec
  import opened GetSpec
  import opened GetMachine
  import M = CacheMachine
  import H = CacheHeap
  import O = CacheOnce

  /** The lookup whose answer a handler has still to act on. */
  function Pursued(p: M.PC, phase: Phase): Option<nat> {
    match phase
    case Looking(_) => O.Effect(p)
    case Asking(_, _, at) => Some(at)
    case Clearing(_, at) => Some(at)
    case Fetching(_, at) => Some(at)
    case _ => None
  }

  /** The fetch that a handler has still to store or decline. */
  function Held(phase: Phase): Option<nat> {
    match phase
    case Deciding(_, n) => Some(n)
    case Storing(_, n) => Some(n)
    case _ => None
  }

  ghost predicate InPursuit(s: State, at: nat) {
    exists t :: t in s.phase && t in s.c.pc && Pursued(s.c.pc[t], s.phase[t]) == Some(at)
  }

  ghost predicate Settled(s: State, at: nat) {
    exists j :: 0 <= j < |s.served| && s.served[j].at == at
  }

  ghost predicate InHand(s: State, n: nat) {
    exists t :: t in s.phase && Held(s.phase[t]) == Some(n)
  }

  ghost predicate WasWritten(s: State, n: nat) {
    exists e :: 0 <= e < |s.c.m.hist| && s.c.m.hist[e].EWrite?
                && AdmittedBy(s.fetches, n, s.c.m.hist[e].key, s.c.m.hist[e].gr)
  }

  /** Not stored, by rule. */
  predicate Barred(r: Record) {
    r.f.discarded || Lifetime(r.f.cp, r.f.cacheTime).None?
  }

  ghost predicate NoneForgotten(s: State) {
    && (forall at: nat :: at < |s.c.m.hist| && s.c.m.hist[at].ERead? ==> Settled(s, at) || InPursuit(s, at))
    && (forall n: nat :: n < |s.fetches| ==> Barred(s.fetches[n]) || InHand(s, n) || WasWritten(s, n))
  }

  /** What a step of thread `t` does with the lookup and the fetch it has in hand, and that what it
      adds is in hand or settled. */
  predicate Carries(s: State, t: M.Tid, s': State) {
    && t in s.phase && t in s'.phase && t in s.c.pc && t in s'.c.pc
    && s'.phase == s.phase[t := s'.phase[t]] && s'.c.pc == s.c.pc[t := s'.c.pc[t]]
    && s.c.m.hist <= s'.c.m.hist && s.fetches <= s'.fetches && s.served <= s'.served
    && (match Pursued(s.c.pc[t], s.phase[t])
        case None => true
        case Some(at) =>
          || Pursued(s'.c.pc[t], s'.phase[t]) == Some(at)
          || (|s'.served| > |s.served| && s'.served[|s.served|].at == at))
    && (match Held(s.phase[t])
        case None => true
        case Some(n) => n < |s.fetches| ==> Held(s'.phase[t]) == Some(n) || Barred(s.fetches[n]) || Wrote(s, t, n))
    && (forall at: nat :: |s.c.m.hist| <= at < |s'.c.m.hist| && s'.c.m.hist[at].ERead? ==>
          Pursued(s'.c.pc[t], s'.phase[t]) == Some(at))
    && (forall n: nat :: |s.fetches| <= n < |s'.fetches| ==> Barred(s'.fetches[n]) || Held(s'.phase[t]) == Some(n))
  }

  /** The write of fetch `n` has come to its return. */
  predicate Wrote(s: State, t: M.Tid, n: nat)
    requires t in s.c.pc
  {
    && s.c.pc[t].Writing? && s.c.pc[t].w.WReturn? && s.c.pc[t].w.at < |s.c.m.hist|
    && s.c.m.hist[s.c.pc[t].w.at].EWrite?
    && AdmittedBy(s.fetches, n, s.c.m.hist[s.c.pc[t].w.at].key, s.c.m.hist[s.c.pc[t].w.at].gr)
  }

  lemma CarriesKeeps(s: State, t: M.Tid, s': State)
    requires NoneForgotten(s) && Carries(s, t, s')
    ensures NoneForgotten(s')
  {
    forall at: nat | at < |s'.c.m.hist| && s'.c.m.hist[at].ERead? ensures Settled(s', at) || InPursuit(s', at) {
      LookupKept(s, t, s', at);
    }
    forall n: nat | n < |s'.fetches| ensures Barred(s'.fetches[n]) || InHand(s', n) || WasWritten(s', n) {
      FetchKept(s, t, s', n);
    }
  }

  lemma LookupKept(s: State, t: M.Tid, s': State, at: nat)
    requires NoneForgotten(s) && Carries(s, t, s') && at < |s'.c.m.hist| && s'.c.m.hist[at].ERead?
    ensures Settled(s', at) || InPursuit(s', at)
  {
    if at < |s.c.m.hist| {
      if Settled(s, at) {
        var j :| 0 <= j < |s.served| && s.served[j].at == at;
        assert s'.served[j].at == at;
      } else {
        var u :| u in s.phase && u in s.c.pc && Pursued(s.c.pc[u], s.phase[u]) == Some(at);
        if u != t || Pursued(s'.c.pc[t], s'.phase[t]) == Some(at) {
          assert u in s'.phase && u in s'.c.pc && Pursued(s'.c.pc[u], s'.phase[u]) == Some(at);
        } else {
          assert s'.served[|s.served|].at == at;
        }
      }
    }
  }

  lemma FetchKept(s: State, t: M.Tid, s': State, n: nat)
    requires NoneForgotten(s) && Carries(s, t, s') && n < |s'.fetches|
    ensures Barred(s'.fetches[n]) || InHand(s', n) || WasWritten(s', n)
  {
    if n < |s.fetches| && !Barred(s.fetches[n]) {
      if WasWritten(s, n) {
        var e :| 0 <= e < |s.c.m.hist| && s.c.m.hist[e].EWrite?
                 && AdmittedBy(s.fetches, n, s.c.m.hist[e].key, s.c.m.hist[e].gr);
        assert s'.c.m.hist[e] == s.c.m.hist[e];
      } else {
        var u :| u in s.phase && Held(s.phase[u]) == Some(n);
        if u != t || Held(s'.phase[t]) == Some(n) {
          assert u in s'.phase && Held(s'.phase[u]) == Some(n);
        }
      }
    }
  }

  // ---------------------------------------------------------------------
  // Every step carries
  // ---------------------------------------------------------------------

  /** What a step inside a cache operation adds to the history, and when. */
  lemma CacheStepCarries(m: M.Memory, t: M.Tid, p: M.PC, ch: M.Choice, m': M.Memory, p': M.PC)
    requires M.ThreadStep(m, t, p, ch, m', p')
    ensures m.hist <= m'.hist
    ensures O.Effect(p).Some? && !M.Returning(p) ==> O.Effect(p') == O.Effect(p)
    ensures forall at: nat :: |m.hist| <= at < |m'.hist| && m'.hist[at].ERead? ==>
              p.Reading? && O.Effect(p') == Some(at)
  {
    O.StepTakes(m, t, p, ch, m', p');
  }

  lemma InsideCarries(s: State, t: M.Tid, pages: Pages, ch: M.Choice, s': State)
    requires Inv(s, pages) && Inside(s, t, ch, s')
    ensures Carries(s, t, s')
  {
    CacheStepCarries(s.c.m, t, s.c.pc[t], ch, s'.c.m, s'.c.pc[t]);
    assert Matches(s.fetches, s.c.m, t, s.c.pc[t], s.phase[t]);
  }

  lemma CallCarries(s: State, t: M.Tid, k: Key, s': State)
    requires Begin(s, t, k, s') || LogLine(s, t, s') || Refuted(s, t, s') || Stores(s, t, s')
    requires t in s.phase && t in s.c.pc && Matches(s.fetches, s.c.m, t, s.c.pc[t], s.phase[t])
    ensures Carries(s, t, s')
  {
  }

  lemma AnsweredCarries(s: State, t: M.Tid, s': State)
    requires Answered(s, t, s')
    ensures Carries(s, t, s')
  {
  }

  lemma LeaveCarries(s: State, t: M.Tid, pages: Pages, s': State)
    requires Inv(s, pages) && (Cleared(s, t, s') || Stored(s, t, s'))
    ensures Carries(s, t, s')
  {
    if s.phase[t].Storing? {
      assert Matches(s.fetches, s.c.m, t, s.c.pc[t], s.phase[t]);
      assert H.Knows(s.c.m, t, s.c.pc[t]);
      assert Wrote(s, t, s.phase[t].i);
    }
  }

  lemma QuietCarries(s: State, t: M.Tid, s': State)
    requires Confirmed(s, t, s') || NoConnection(s, t, s') || Declines(s, t, s')
    ensures Carries(s, t, s')
  {
    assert s'.c.pc == s.c.pc[t := s.c.pc[t]];
  }

  lemma FetchesCarries(s: State, t: M.Tid, r: Record, pages: Pages, s': State)
    requires Fetches(s, t, r, pages, s')
    ensures Carries(s, t, s')
  {
    var n := |s.fetches|;
    var v := FromOrigin(r.key, s.phase[t].at, n, r.f.sent);
    assert s'.served == s.served + [v] && v.at == s.phase[t].at;
    assert s'.c.pc == s.c.pc[t := s.c.pc[t]];
    assert Barred(r) || Held(s'.phase[t]) == Some(n) by {
      assert s'.phase[t] == if r.f.discarded then Idle else Deciding(r.key, n);
    }
  }

  lemma ThreadStepCarries(s: State, t: M.Tid, pages: Pages, s': State)
    requires Inv(s, pages) && ThreadStep(s, t, pages, s')
    ensures Carries(s, t, s')
  {
    assert t in s.phase && Matches(s.fetches, s.c.m, t, s.c.pc[t], s.phase[t]);
    if k :| Begin(s, t, k, s') {
      CallCarries(s, t, k, s');
    } else if ch :| Inside(s, t, ch, s') {
      InsideCarries(s, t, pages, ch, s');
    } else if r :| Fetches(s, t, r, pages, s') {
      FetchesCarries(s, t, r, pages, s');
    } else if LogLine(s, t, s') || Refuted(s, t, s') || Stores(s, t, s') {
      CallCarries(s, t, Key("", ""), s');
    } else if Answered(s, t, s') {
      AnsweredCarries(s, t, s');
    } else if Cleared(s, t, s') || Stored(s, t, s') {
      LeaveCarries(s, t, pages, s');
    } else {
      QuietCarries(s, t, s');
    }
  }

  lemma TickForgetsNothing(s: State, s': State)
    requires NoneForgotten(s) && Tick(s, s')
    ensures NoneForgotten(s')
  {
    forall at: nat | at < |s'.c.m.hist| && s'.c.m.hist[at].ERead? ensures Settled(s', at) || InPursuit(s', at) {
      if InPursuit(s, at) {
        var u :| u in s.phase && u in s.c.pc && Pursued(s.c.pc[u], s.phase[u]) == Some(at);
        assert u in s'.phase && u in s'.c.pc && Pursued(s'.c.pc[u], s'.phase[u]) == Some(at);
      }
    }
    forall n: nat | n < |s'.fetches| ensures Barred(s'.fetches[n]) || InHand(s', n) || WasWritten(s', n) {
      if InHand(s, n) {
        var u :| u in s.phase && Held(s.phase[u]) == Some(n);
        assert u in s'.phase && Held(s'.phase[u]) == Some(n);
      }
    }
  }

  lemma {:induction false} RunForgetsNothing(run: seq<State>, pages: Pages, i: nat)
    requires IsRun(run, pages) && i < |run|
    ensures NoneForgotten(run[i])
  {
    if i == 0 {
    } else {
      RunForgetsNothing(run, pages, i - 1);
      RunKeepsInv(run, pages, i - 1);
      var s, s' := run[i - 1], run[i];
      assert NextState(s, pages, s');
      if Tick(s, s') {
        TickForgetsNothing(s, s');
      } else {
        var t :| ThreadStep(s, t, pages, s');
        ThreadStepCarries(s, t, pages, s');
        CarriesKeeps(s, t, s');
      }
    }
  }

  // ---------------------------------------------------------------------
  // Outcomes
  // ---------------------------------------------------------------------

  /** Every lookup is acted upon as its answer says: unless a handler still has it in hand, a valid
      entry was sent to the client as it was found; a stale one was sent after the origin confirmed
      it, or the client was sent what the origin had; and where there was none, what the origin had. */
  lemma EveryLookupIsAnswered(run: seq<State>, pages: Pages, i: nat, at: nat) returns (j: nat)
    requires IsRun(run, pages) && i < |run| && at < |run[i].c.m.hist| && run[i].c.m.hist[at].ERead?
    requires !InPursuit(run[i], at)
    ensures j < |run[i].served| && run[i].served[j].at == at && run[i].served[j].key == run[i].c.m.hist[at].key
    ensures var a, v := run[i].c.m.hist[at].answer, run[i].served[j];
            match a.status
            case Valid => v.FromCache? && !v.revalidated && v.bytes == a.gr.response
            case NeedRevalidate => v.FromCache? ==> v.revalidated && v.bytes == a.gr.response
            case NotFound => !v.FromCache?
  {
    RunKeepsInv(run, pages, i);
    RunForgetsNothing(run, pages, i);
    assert Settled(run[i], at);
    j :| 0 <= j < |run[i].served| && run[i].served[j].at == at;
    assert ServedTrue(run[i].fetches, run[i].c.m.hist, run[i].served[j]);
  }

  /** Every fetch that may be stored is written: unless it was discarded, its policy gives it no
      lifetime, or a handler still has it in hand, some write of its key holds its text. */
  lemma EveryFetchIsWritten(run: seq<State>, pages: Pages, i: nat, n: nat) returns (e: nat)
    requires IsRun(run, pages) && i < |run| && n < |run[i].fetches| && !InHand(run[i], n)
    requires !run[i].fetches[n].f.discarded && Storable(run[i].fetches[n].f)
    ensures e < |run[i].c.m.hist| && run[i].c.m.hist[e].EWrite? && run[i].c.m.hist[e].key == run[i].fetches[n].key
    ensures var r, gr := run[i].fetches[n], run[i].c.m.hist[e].gr;
            gr.response == r.f.text && r.now <= gr.writeTime <= run[i].c.m.hist[e].now
  {
    RunKeepsInv(run, pages, i);
    RunForgetsNothing(run, pages, i);
    assert WasWritten(run[i], n);
    e :| 0 <= e < |run[i].c.m.hist| && run[i].c.m.hist[e].EWrite?
         && AdmittedBy(run[i].fetches, n, run[i].c.m.hist[e].key, run[i].c.m.hist[e].gr);
    assert H.AtomicAt(run[i].c.m.hist, e);
  }
}
