// What the cache means: its contents as a sequence of entries, newest first,
// the histories of atomic operations on it, and the map those histories stand for.
module CacheSpec {
  import opened Wrappers
  import opened Bytes

  const MAX_OBJECT_SIZE := 102400
  const MAX_CACHE_SIZE := 1049000

  datatype Key = Key(host: string, uri: string)

  datatype GetResponse = GetResponse(response: Bytes, validTime: int, writeTime: int, eTag: Bytes)

  const NO_RESPONSE := GetResponse([], 0, 0, [])

  datatype Entry = Entry(key: Key, gr: GetResponse)

  datatype CacheStatus = Valid | NotFound | NeedRevalidate

  /** The pair that a lookup returns. */
  datatype Answer = Answer(status: CacheStatus, gr: GetResponse)

  /** The sequence without position `i`. */
  function RemoveAt<T>(s: seq<T>, i: nat): (r: seq<T>)
    requires i < |s|
    ensures |r| == |s| - 1
    ensures forall j {:trigger r[j]} :: 0 <= j < i ==> r[j] == s[j]
    ensures forall j :: i <= j < |r| ==> r[j] == s[j + 1]
  {
    s[..i] + s[i + 1..]
  }

  /** The sequence with `x` at position `i`. */
  function InsertAt<T>(s: seq<T>, i: nat, x: T): (r: seq<T>)
    requires i <= |s|
    ensures |r| == |s| + 1 && r[i] == x
    ensures forall j {:trigger r[j]} :: 0 <= j < i ==> r[j] == s[j]
    ensures forall j :: i < j < |r| ==> r[j] == s[j - 1]
  {
    s[..i] + [x] + s[i..]
  }

  // ---------------------------------------------------------------------
  // Operations on the contents
  // ---------------------------------------------------------------------

  /** The size guard of a write, with the running total the guard adds. */
  predicate Accepts(gr: GetResponse, totalSize: int) {
    !(|gr.response| > MAX_OBJECT_SIZE || |gr.response| + totalSize > MAX_CACHE_SIZE)
  }

  /** A write: the new entry goes to the front, older entries of the key stay. */
  function Written(list: seq<Entry>, k: Key, gr: GetResponse, totalSize: int): seq<Entry> {
    if Accepts(gr, totalSize) then [Entry(k, gr)] + list else list
  }

  /** The entries whose key is not `k`, in order. */
  function Without(list: seq<Entry>, k: Key): seq<Entry> {
    if list == [] then []
    else if list[0].key == k then Without(list[1..], k)
    else [list[0]] + Without(list[1..], k)
  }

  function FirstMatch(list: seq<Entry>, k: Key): Option<GetResponse> {
    if list == [] then None
    else if list[0].key == k then Some(list[0].gr)
    else FirstMatch(list[1..], k)
  }

  predicate NoMatch(list: seq<Entry>, k: Key) {
    forall i :: 0 <= i < |list| ==> list[i].key != k
  }

  /** Elapsed seconds; a clock that ran backwards counts as no time at all. */
  function TimeDifference(before: int, after: int): int {
    if before > after then 0 else after - before
  }

  /** The verdict on a found entry at time `now`. */
  function Judge(gr: GetResponse, now: int): Answer {
    if TimeDifference(gr.writeTime, now) < gr.validTime then Answer(Valid, gr) else Answer(NeedRevalidate, gr)
  }

  function Lookup(list: seq<Entry>, k: Key, now: int): Answer {
    match FirstMatch(list, k)
    case None => Answer(NotFound, NO_RESPONSE)
    case Some(gr) => Judge(gr, now)
  }

  /** The verdict of a lookup, exactly: not found when no entry has the key; otherwise the first
      such entry, valid if and only if the seconds since its write, or none if the clock ran
      backwards, are fewer than its lifetime. */
  lemma LookupVerdict(list: seq<Entry>, k: Key, now: int)
    ensures FirstMatch(list, k) == None ==> Lookup(list, k, now) == Answer(NotFound, NO_RESPONSE)
    ensures forall gr :: FirstMatch(list, k) == Some(gr) && gr.writeTime <= now ==>
              Lookup(list, k, now) == Answer(if now - gr.writeTime < gr.validTime then Valid else NeedRevalidate, gr)
    ensures forall gr :: FirstMatch(list, k) == Some(gr) && gr.writeTime > now ==>
              Lookup(list, k, now) == Answer(if 0 < gr.validTime then Valid else NeedRevalidate, gr)
  {
  }

  lemma {:induction false} FirstMatchAt(list: seq<Entry>, k: Key, i: nat)
    requires i < |list| && NoMatch(list[..i], k) && list[i].key == k
    ensures FirstMatch(list, k) == Some(list[i].gr)
  {
    if i == 0 {
    } else {
      assert list[0] == list[..i][0];
      assert list[1..][..i - 1] == list[..i][1..];
      FirstMatchAt(list[1..], k, i - 1);
    }
  }

  lemma {:induction false} FirstMatchNone(list: seq<Entry>, k: Key)
    ensures FirstMatch(list, k) == None <==> NoMatch(list, k)
  {
    if list == [] {
    } else {
      FirstMatchNone(list[1..], k);
      assert NoMatch(list, k) <==> list[0].key != k && NoMatch(list[1..], k) by {
        assert forall i :: 1 <= i < |list| ==> list[i] == list[1..][i - 1];
      }
    }
  }

  lemma {:induction false} WithoutNoMatch(list: seq<Entry>, k: Key)
    requires NoMatch(list, k)
    ensures Without(list, k) == list
  {
    if list == [] {
    } else {
      assert list[0].key != k;
      assert NoMatch(list[1..], k);
      WithoutNoMatch(list[1..], k);
      assert list == [list[0]] + list[1..];
    }
  }

  /** Dropping one entry of the key does not change what is left once all are dropped. */
  lemma {:induction false} WithoutSkip(list: seq<Entry>, k: Key, i: nat)
    requires i < |list| && list[i].key == k
    ensures Without(RemoveAt(list, i), k) == Without(list, k)
  {
    var less := RemoveAt(list, i);
    if i == 0 {
      assert less == list[1..];
    } else {
      WithoutSkip(list[1..], k, i - 1);
      assert less[1..] == RemoveAt(list[1..], i - 1);
      assert less[0] == list[0];
    }
  }

  /** A scan that drops matches as it goes, at a matching entry: the rest of the work is unchanged. */
  lemma DropMatch(list: seq<Entry>, k: Key, i: nat)
    requires i < |list| && NoMatch(list[..i], k) && list[i].key == k
    ensures NoMatch(RemoveAt(list, i)[..i], k)
    ensures Without(RemoveAt(list, i), k) == Without(list, k)
  {
    WithoutSkip(list, k, i);
    assert RemoveAt(list, i)[..i] == list[..i];
  }

  /** A scan that passes an entry of another key. */
  lemma PassMismatch(list: seq<Entry>, k: Key, i: nat)
    requires i < |list| && NoMatch(list[..i], k) && list[i].key != k
    ensures NoMatch(list[..i + 1], k)
  {
    assert list[..i + 1] == list[..i] + [list[i]];
  }

  /** Dropping a key removes exactly its entries: other keys keep their first match. */
  lemma {:induction false} WithoutFirstMatch(list: seq<Entry>, k: Key, other: Key)
    ensures FirstMatch(Without(list, k), other) == if other == k then None else FirstMatch(list, other)
  {
    if list == [] {
    } else {
      WithoutFirstMatch(list[1..], k, other);
      if list[0].key != k {
        assert Without(list, k)[1..] == Without(list[1..], k);
      }
    }
  }

  /** A kept entry was there before. */
  lemma {:induction false} WithoutSubset(list: seq<Entry>, k: Key, e: Entry)
    ensures e in Without(list, k) <==> e in list && e.key != k
  {
    if list == [] {
    } else {
      WithoutSubset(list[1..], k, e);
      assert e in list <==> e == list[0] || e in list[1..];
    }
  }

  lemma {:induction false} FirstMatchIsEntry(list: seq<Entry>, k: Key)
    ensures FirstMatch(list, k).Some? ==> Entry(k, FirstMatch(list, k).value) in list
  {
    if list == [] || list[0].key == k {
    } else {
      FirstMatchIsEntry(list[1..], k);
    }
  }

  // ---------------------------------------------------------------------
  // Histories of atomic operations
  // ---------------------------------------------------------------------

  /** One atomic operation, by thread `tid`, at clock reading `now`. */
  datatype Event =
    | EWrite(tid: nat, key: Key, gr: GetResponse, now: int)
    | EClear(tid: nat, key: Key, now: int)
    | ERead(tid: nat, key: Key, answer: Answer, now: int)

  /** The contents after one operation; the running total is always zero. */
  function Apply(list: seq<Entry>, e: Event): seq<Entry> {
    match e
    case EWrite(_, k, gr, _) => Written(list, k, gr, 0)
    case EClear(_, k, _) => Without(list, k)
    case ERead(_, _, _, _) => list
  }

  function Replay(h: seq<Event>): seq<Entry> {
    if h == [] then [] else Apply(Replay(h[..|h| - 1]), h[|h| - 1])
  }

  /** The map a history stands for. */
  function View(h: seq<Event>): map<Key, GetResponse> {
    if h == [] then map[]
    else
      var m := View(h[..|h| - 1]);
      match h[|h| - 1]
      case EWrite(_, k, gr, _) => if |gr.response| <= MAX_OBJECT_SIZE then m[k := gr] else m
      case EClear(_, k, _) => m - {k}
      case ERead(_, _, _, _) => m
  }

  lemma ReplayAppend(h: seq<Event>, e: Event)
    ensures Replay(h + [e]) == Apply(Replay(h), e)
  {
    assert (h + [e])[..|h|] == h;
  }

  /** Refinement of a map: a lookup sees the map, duplicates and all. */
  lemma {:induction false} ReplayRefinesView(h: seq<Event>, k: Key)
    ensures FirstMatch(Replay(h), k) == if k in View(h) then Some(View(h)[k]) else None
  {
    if h == [] {
    } else {
      var front, e := h[..|h| - 1], h[|h| - 1];
      ReplayRefinesView(front, k);
      match e
      case EWrite(_, k', gr, _) =>
        assert Accepts(gr, 0) ==> Replay(h)[1..] == Replay(front);
      case EClear(_, k', _) =>
        WithoutFirstMatch(Replay(front), k', k);
      case ERead(_, _, _, _) =>
    }
  }

  /** An event that decides what key `k` holds. */
  predicate Decides(e: Event, k: Key) {
    e.key == k && (e.EClear? || (e.EWrite? && |e.gr.response| <= MAX_OBJECT_SIZE))
  }

  /** Event `j` is the last one to decide key `k`. */
  predicate LastDecision(h: seq<Event>, k: Key, j: nat) {
    && j < |h| && Decides(h[j], k)
    && forall i :: j < i < |h| ==> !Decides(h[i], k)
  }

  /** The map holds `gr` for `k` exactly when the last decision on `k` was an accepted
      write of `gr`: no clear and no accepted write of the key came after it. */
  lemma {:induction false} ViewIsLastDecision(h: seq<Event>, k: Key, gr: GetResponse)
    ensures k in View(h) && View(h)[k] == gr <==>
              exists j: nat :: LastDecision(h, k, j) && h[j].EWrite? && h[j].gr == gr
  {
    if h == [] {
    } else {
      var n := |h| - 1;
      var front, e := h[..n], h[n];
      ViewIsLastDecision(front, k, gr);
      if Decides(e, k) {
        assert LastDecision(h, k, n);
        assert forall j: nat :: LastDecision(h, k, j) ==> j == n;
      } else {
        forall j: nat ensures LastDecision(h, k, j) <==> LastDecision(front, k, j) {
          assert forall i :: 0 <= i < n ==> front[i] == h[i];
        }
        assert k in View(h) && View(h)[k] == gr <==> k in View(front) && View(front)[k] == gr;
      }
    }
  }

  /** Every stored object respects the per-object bound. */
  lemma {:induction false} StoredObjectsAreBounded(h: seq<Event>)
    ensures forall e :: e in Replay(h) ==> |e.gr.response| <= MAX_OBJECT_SIZE
  {
    if h == [] {
    } else {
      var front, e := h[..|h| - 1], h[|h| - 1];
      StoredObjectsAreBounded(front);
      if e.EClear? {
        forall x | x in Replay(h) ensures |x.gr.response| <= MAX_OBJECT_SIZE {
          WithoutSubset(Replay(front), e.key, x);
        }
      }
    }
  }

  /** Every stored entry is an accepted write of the history. */
  lemma {:induction false} StoredWasWritten(h: seq<Event>, e: Entry)
    requires e in Replay(h)
    ensures exists j :: 0 <= j < |h| && h[j].EWrite? && h[j].key == e.key && h[j].gr == e.gr && Accepts(e.gr, 0)
  {
    var n := |h| - 1;
    var front, last := h[..n], h[n];
    if e in Replay(front) {
      StoredWasWritten(front, e);
      var j :| 0 <= j < n && front[j].EWrite? && front[j].key == e.key && front[j].gr == e.gr && Accepts(e.gr, 0);
      assert h[j] == front[j];
    } else {
      if last.EClear? {
        WithoutSubset(Replay(front), last.key, e);
      }
      assert h[n].EWrite? && h[n].key == e.key && h[n].gr == e.gr;
    }
  }

  // ---------------------------------------------------------------------
  // The total-size bound that is documented but not enforced
  // ---------------------------------------------------------------------

  function TotalSize(list: seq<Entry>): nat {
    if list == [] then 0 else |list[0].gr.response| + TotalSize(list[1..])
  }

  predicate AllAccepted(list: seq<Entry>) {
    forall e :: e in list ==> Accepts(e.gr, 0)
  }

  lemma {:induction false} TotalSizeAtMost(list: seq<Entry>)
    requires AllAccepted(list)
    ensures TotalSize(list) <= |list| * MAX_OBJECT_SIZE
  {
    if list == [] {
    } else {
      assert Accepts(list[0].gr, 0);
      assert AllAccepted(list[1..]) by {
        assert forall e :: e in list[1..] ==> e in list;
      }
      TotalSizeAtMost(list[1..]);
    }
  }

  /** Every prefix of a history keeps the documented bound on the whole cache. */
  predicate KeepsTotal(h: seq<Event>) {
    forall j :: 0 <= j <= |h| ==> TotalSize(Replay(h[..j])) <= MAX_CACHE_SIZE
  }

  /** Event `j` is no accepted write, or the guard would accept it with the true total as well. */
  predicate FitsTotal(h: seq<Event>, j: nat)
    requires j < |h|
  {
    h[j].EWrite? && Accepts(h[j].gr, 0) ==> Accepts(h[j].gr, TotalSize(Replay(h[..j])))
  }

  lemma {:induction false} WithoutTotal(list: seq<Entry>, k: Key)
    ensures TotalSize(Without(list, k)) <= TotalSize(list)
  {
    if list == [] {
    } else {
      WithoutTotal(list[1..], k);
      if list[0].key != k {
        assert Without(list, k)[1..] == Without(list[1..], k);
      }
    }
  }

  /** What one operation does to the total. */
  lemma ApplyTotal(list: seq<Entry>, e: Event)
    ensures e.EWrite? && Accepts(e.gr, 0) ==> TotalSize(Apply(list, e)) == |e.gr.response| + TotalSize(list)
    ensures !(e.EWrite? && Accepts(e.gr, 0)) ==> TotalSize(Apply(list, e)) <= TotalSize(list)
  {
    if e.EClear? {
      WithoutTotal(list, e.key);
    } else if e.EWrite? && Accepts(e.gr, 0) {
      assert Apply(list, e)[1..] == list;
    }
  }

  lemma KeepsTotalSplit(h: seq<Event>, n: nat)
    requires |h| == n + 1
    ensures KeepsTotal(h) <==> KeepsTotal(h[..n]) && TotalSize(Replay(h)) <= MAX_CACHE_SIZE
  {
    assert h[..n + 1] == h;
    assert forall j :: 0 <= j <= n ==> h[..j] == h[..n][..j];
  }

  lemma FitsTotalSplit(h: seq<Event>, n: nat)
    requires |h| == n + 1
    ensures (forall j :: 0 <= j <= n ==> FitsTotal(h, j)) <==>
            (forall j :: 0 <= j < n ==> FitsTotal(h[..n], j)) && FitsTotal(h, n)
  {
    forall j | 0 <= j < n ensures FitsTotal(h, j) <==> FitsTotal(h[..n], j) {
      assert h[..j] == h[..n][..j];
    }
  }

  /** The documented bound, exactly: it holds throughout a history if and only if every accepted
      write would also have passed the guard with the true total in place of the constant zero. */
  lemma {:induction false} TotalBoundHoldsWhen(h: seq<Event>)
    ensures KeepsTotal(h) <==> forall j :: 0 <= j < |h| ==> FitsTotal(h, j)
  {
    if h == [] {
    } else {
      var n := |h| - 1;
      TotalBoundHoldsWhen(h[..n]);
      KeepsTotalSplit(h, n);
      FitsTotalSplit(h, n);
      ApplyTotal(Replay(h[..n]), h[n]);
      assert h[..n][..n] == h[..n];
    }
  }

  /** A history of `n` writes of the same object. */
  function Repeated(e: Event, n: nat): (h: seq<Event>)
    ensures |h| == n
  {
    seq(n, _ => e)
  }

  lemma {:induction false} FullWritesFill(e: Event, n: nat)
    requires e.EWrite? && |e.gr.response| == MAX_OBJECT_SIZE
    ensures |Replay(Repeated(e, n))| == n
    ensures TotalSize(Replay(Repeated(e, n))) == n * MAX_OBJECT_SIZE
  {
    if n == 0 {
    } else {
      FullWritesFill(e, n - 1);
      assert Repeated(e, n) == Repeated(e, n - 1) + [e];
      ReplayAppend(Repeated(e, n - 1), e);
      ApplyTotal(Replay(Repeated(e, n - 1)), e);
    }
  }

  lemma {:induction false} ReplayLength(h: seq<Event>)
    ensures |Replay(h)| <= |h|
  {
    if h == [] {
    } else {
      var front, e := h[..|h| - 1], h[|h| - 1];
      ReplayLength(front);
      if e.EClear? {
        WithoutLength(Replay(front), e.key);
      }
    }
  }

  lemma {:induction false} WithoutLength(list: seq<Entry>, k: Key)
    ensures |Without(list, k)| <= |list|
  {
    if list == [] {
    } else {
      WithoutLength(list[1..], k);
    }
  }

  /** For histories of `n` operations that bound is certain exactly when `n` is at most 10:
      eleven writes of any object of the largest size break it. */
  lemma TotalBoundHoldsUpToTenWrites(e: Event, n: nat)
    requires e.EWrite? && |e.gr.response| == MAX_OBJECT_SIZE
    ensures n <= 10 ==> forall h: seq<Event> :: |h| == n ==> TotalSize(Replay(h)) <= MAX_CACHE_SIZE
    ensures n > 10 ==> TotalSize(Replay(Repeated(e, n))) > MAX_CACHE_SIZE
  {
    if n <= 10 {
      forall h: seq<Event> | |h| == n ensures TotalSize(Replay(h)) <= MAX_CACHE_SIZE {
        StoredObjectsAreBounded(h);
        assert AllAccepted(Replay(h));
        TotalSizeAtMost(Replay(h));
        ReplayLength(h);
      }
    } else {
      FullWritesFill(e, n);
    }
  }
}
