// Counting threads by program counter: the arithmetic that ties semaphore
// values to the positions of any finite number of threads.
module Threads {

  function One(b: bool): nat {
    if b then 1 else 0
  }

  /** The number of threads whose program counter satisfies `f`. */
  ghost function Count<T, P>(pc: map<T, P>, f: P -> bool): nat {
    |set t | t in pc && f(pc[t])|
  }

  /** Moving one thread changes the count by what that thread contributes. */
  lemma CountUpdate<T, P>(pc: map<T, P>, t: T, p: P, f: P -> bool)
    requires t in pc
    ensures Count(pc[t := p], f) + One(f(pc[t])) == Count(pc, f) + One(f(p))
  {
    var others := set u | u in pc && u != t && f(pc[u]);
    var before := set u | u in pc && f(pc[u]);
    var pc' := pc[t := p];
    var after := set u | u in pc' && f(pc'[u]);
    assert before == if f(pc[t]) then others + {t} else others;
    assert after == if f(p) then others + {t} else others;
  }

  lemma CountAtLeastOne<T, P>(pc: map<T, P>, t: T, f: P -> bool)
    requires t in pc && f(pc[t])
    ensures Count(pc, f) >= 1
  {
    var all := set u | u in pc && f(pc[u]);
    assert {t} <= all;
    assert |all - {t}| == |all| - 1;
  }

  lemma CountAtLeastTwo<T, P>(pc: map<T, P>, t: T, u: T, f: P -> bool)
    requires t in pc && u in pc && t != u && f(pc[t]) && f(pc[u])
    ensures Count(pc, f) >= 2
  {
    var all := set v | v in pc && f(pc[v]);
    assert {t, u} <= all;
    assert |all - {t, u}| == |all| - 2;
  }

  /** A positive count names a thread. */
  lemma CountWitness<T, P>(pc: map<T, P>, f: P -> bool) returns (t: T)
    requires Count(pc, f) > 0
    ensures t in pc && f(pc[t])
  {
    var all := set u | u in pc && f(pc[u]);
    t :| t in all;
  }

  lemma CountZero<T, P>(pc: map<T, P>, f: P -> bool)
    requires forall t :: t in pc ==> !f(pc[t])
    ensures Count(pc, f) == 0
  {
    assert (set u | u in pc && f(pc[u])) == {};
  }

  lemma CountMonotone<T, P>(pc: map<T, P>, f: P -> bool, g: P -> bool)
    requires forall t :: t in pc && f(pc[t]) ==> g(pc[t])
    ensures Count(pc, f) <= Count(pc, g)
  {
    SubsetSize(set t | t in pc && f(pc[t]), set t | t in pc && g(pc[t]));
  }

  lemma SubsetSize<T>(a: set<T>, b: set<T>)
    requires a <= b
    ensures |a| <= |b|
  {
    assert b == a + (b - a);
  }
}
