// The CONNECT tunnel: a buffer that grows while full reads keep coming, one
// write for what was read, and a loop that serves whichever side is readable.
module Tunnel {
  import opened Bytes
  import opened Rio

  /** `vector::resize`: cut off, or filled up with zeros. */
  function Resize(buf: Bytes, size: nat): (r: Bytes)
    ensures |r| == size && r[..Min(size, |buf|)] == buf[..Min(size, |buf|)]
  {
    if size <= |buf| then buf[..size] else buf + seq(size - |buf|, _ => NUL)
  }

  /** `read(sender, &buf[total], MAXLINE)`: the buffer must have room for a full read. */
  method ReadAt(sender: Socket, buf: Bytes, total: nat) returns (n: nat, buf': Bytes)
    requires |buf| >= total + MAXLINE
    modifies sender`unread
    ensures n <= MAXLINE && |buf'| == |buf|
    ensures buf'[..total + n] + sender.unread == buf[..total] + old(sender.unread)
    ensures n == 0 <==> old(sender.unread) == []
  {
    var chunk := sender.Read(MAXLINE);
    n, buf' := |chunk|, buf[..total] + chunk + buf[total + |chunk|..];
    assert buf'[..total + n] == buf[..total] + chunk;
    assert buf[..total] + chunk + sender.unread == buf[..total] + (chunk + sender.unread);
  }

  /** `taken` is what left the sender. All of it is handed to the receiver's kernel in one write,
      unless it is nothing, and then there is no write. Result -1 ends the tunnel: the sender is at
      its end, or the write failed. */
  method TransferData(sender: Socket, receiver: Socket) returns (res: int, ghost taken: Bytes, ghost made: seq<Offer>)
    requires sender != receiver
    modifies sender`unread, receiver`sent, receiver`interrupts, receiver`offers
    ensures taken + sender.unread == old(sender.unread)
    ensures taken == [] ==> old(sender.unread) == []
    ensures receiver.offers == old(receiver.offers) + made
    ensures if taken == [] then made == [] else |made| == 1 && made[0].data == taken && Possible(made[0])
    ensures receiver.sent == old(receiver.sent) + Accepted(made)
    ensures res == if taken == [] || made[0].result == -1 then -1 else 0
  {
    var buf := Resize([], MAXLINE);
    var total: nat := 0;
    var n: nat;
    n, buf := ReadAt(sender, buf, total);
    while n == MAXLINE
      invariant n <= MAXLINE && |buf| >= total + MAXLINE
      invariant buf[..total + n] + sender.unread == old(sender.unread)
      invariant receiver.sent == old(receiver.sent) && receiver.offers == old(receiver.offers)
      invariant total + n == 0 ==> old(sender.unread) == []
      decreases n == MAXLINE, |sender.unread|
    {
      ghost var before, left := buf[..total + n], |sender.unread|;
      buf := Resize(buf, total + 2 * MAXLINE);
      total := total + n;
      assert buf[..total] == before;
      n, buf := ReadAt(sender, buf, total);
      assert |buf[..total + n] + sender.unread| == total + left;
    }

    total := total + n;
    buf := Resize(buf, total);
    taken, made := buf, [];

    if buf == [] {
      return -1, taken, made;
    }

    var status := receiver.Write(buf);
    made := [Offer(buf, status)];
    OneAccepted(made[0]);
    if status == -1 {
      return -1, taken, made;
    }
    return 0, taken, made;
  }

  /** A result the kernel can give: a failure, or some of what it was offered. */
  predicate Possible(o: Offer) {
    o.result == -1 || 1 <= o.result <= |o.data|
  }

  /** The bytes offered by a sequence of writes. */
  function Offered(offers: seq<Offer>): Bytes {
    if offers == [] then [] else offers[0].data + Offered(offers[1..])
  }

  /** The bytes the kernel took of them. */
  function Accepted(offers: seq<Offer>): Bytes {
    if offers == [] then [] else Taken(offers[0]) + Accepted(offers[1..])
  }

  function Taken(o: Offer): (t: Bytes)
    ensures t <= o.data
  {
    if 1 <= o.result <= |o.data| then o.data[..o.result] else []
  }

  predicate AllPossible(offers: seq<Offer>) {
    forall i :: 0 <= i < |offers| ==> Possible(offers[i]) && offers[i].data != []
  }

  /** Every write took all it was offered. */
  predicate AllFull(offers: seq<Offer>) {
    forall i :: 0 <= i < |offers| ==> offers[i].result == |offers[i].data|
  }

  lemma OneAccepted(o: Offer)
    ensures Accepted([o]) == Taken(o)
  {
    assert Accepted([o][1..]) == [];
  }

  /** What was accepted is what was offered exactly when every write was full. */
  lemma {:induction false} AcceptedIsOfferedWhen(offers: seq<Offer>)
    requires AllPossible(offers)
    ensures |Accepted(offers)| <= |Offered(offers)|
    ensures Accepted(offers) == Offered(offers) <==> AllFull(offers)
    ensures |Accepted(offers)| == |Offered(offers)| <==> AllFull(offers)
  {
    if offers == [] {
    } else {
      var o := offers[0];
      AcceptedIsOfferedWhen(offers[1..]);
      assert AllFull(offers) <==> o.result == |o.data| && AllFull(offers[1..]) by {
        assert forall i :: 1 <= i < |offers| ==> offers[i] == offers[1..][i - 1];
      }
      assert |Taken(o)| == |o.data| <==> o.result == |o.data|;
    }
  }

  lemma {:induction false} OffersAppend(a: seq<Offer>, b: seq<Offer>)
    ensures Offered(a + b) == Offered(a) + Offered(b) && Accepted(a + b) == Accepted(a) + Accepted(b)
  {
    if a == [] {
      assert a + b == b;
    } else {
      assert (a + b)[1..] == a[1..] + b;
      OffersAppend(a[1..], b);
    }
  }

  /** What happened in one direction: the bytes read, and the writes to the other side. */
  datatype Direction = Direction(taken: Bytes, made: seq<Offer>)

  const NOTHING := Direction([], [])

  /** Everything read was offered, in order, and everything accepted was delivered. */
  predicate Conserves(before: Bytes, d: Direction, after: Bytes, sentBefore: Bytes, sentAfter: Bytes) {
    && d.taken + after == before && Offered(d.made) == d.taken && AllPossible(d.made)
    && sentAfter == sentBefore + Accepted(d.made)
  }

  lemma OneMore(taken: Bytes, made: seq<Offer>)
    requires if taken == [] then made == [] else |made| == 1 && made[0].data == taken && Possible(made[0])
    ensures Offered(made) == taken && AllPossible(made)
  {
    if made != [] {
      assert made[1..] == [];
    }
  }

  lemma ConservesStep(before: Bytes, d: Direction, mid: Bytes, after: Bytes, taken: Bytes, made: seq<Offer>,
                      sentBefore: Bytes, sentMid: Bytes)
    requires Conserves(before, d, mid, sentBefore, sentMid) && taken + after == mid
    requires Offered(made) == taken && AllPossible(made)
    ensures Conserves(before, Direction(d.taken + taken, d.made + made), after, sentBefore, sentMid + Accepted(made))
  {
    OffersAppend(d.made, made);
    Associates(d.taken, taken, after);
    Associates(sentBefore, Accepted(d.made), Accepted(made));
  }

  /** For every schedule of `select`, each direction reads its source in order and offers to the
      other side's kernel exactly what it read, and what the kernel takes is delivered; that is all
      of it exactly when every write was full. The read-ahead a `Rio` holds when the tunnel starts
      is never forwarded: the tunnel takes the stream that comes after it. */
  method MonitorSocketSet(rio: Rio, rioServer: Rio)
    returns (ghost up: Direction, ghost down: Direction, ghost ended: bool)
    requires rio.Valid() && rioServer.Valid() && rio.sock != rioServer.sock
    modifies rio.sock, rioServer.sock
    ensures Conserves(old(rio.sock.unread), up, rio.sock.unread, old(rioServer.sock.sent), rioServer.sock.sent)
    ensures Conserves(old(rioServer.sock.unread), down, rioServer.sock.unread, old(rio.sock.sent), rio.sock.sent)
    ensures rioServer.sock.offers == old(rioServer.sock.offers) + up.made
    ensures rio.sock.offers == old(rio.sock.offers) + down.made
    ensures rioServer.sock.sent == old(rioServer.sock.sent) + up.taken <==> AllFull(up.made)
    ensures rio.sock.sent == old(rio.sock.sent) + down.taken <==> AllFull(down.made)
    ensures old(rio.Remaining())[..rio.cnt] + up.taken + rio.sock.unread == old(rio.Remaining())
    ensures ended && AllFull(up.made) && AllFull(down.made) ==> rio.sock.unread == [] || rioServer.sock.unread == []
    ensures up.taken == old(rio.Remaining()) <==> rio.cnt == 0 && rio.sock.unread == []
  {
    up, down, ended := NOTHING, NOTHING, false;
    ghost var ahead := rio.buf[rio.bufPtr..rio.bufPtr + rio.cnt];
    while true
      invariant Conserves(old(rio.sock.unread), up, rio.sock.unread, old(rioServer.sock.sent), rioServer.sock.sent)
      invariant Conserves(old(rioServer.sock.unread), down, rioServer.sock.unread, old(rio.sock.sent), rio.sock.sent)
      invariant rioServer.sock.offers == old(rioServer.sock.offers) + up.made
      invariant rio.sock.offers == old(rio.sock.offers) + down.made
      invariant !ended
      decreases |rio.sock.unread| + |rioServer.sock.unread|
    {
      var ret: int := *;
      var clientReady: bool := *;
      if ret <= 0 {
        break;
      }
      var res;
      if clientReady {
        res, up := Transfer(rio.sock, rioServer.sock, up, old(rio.sock.unread), old(rioServer.sock.sent));
      } else {
        res, down := Transfer(rioServer.sock, rio.sock, down, old(rioServer.sock.unread), old(rio.sock.sent));
      }
      if res == -1 {
        ended := true;
        break;
      }
    }
    Delivered(up, old(rioServer.sock.sent), rioServer.sock.sent);
    Delivered(down, old(rio.sock.sent), rio.sock.sent);
    SplitStream(ahead, up.taken, rio.sock.unread);
  }

  /** One transfer, added to what its direction has done. */
  method Transfer(sender: Socket, receiver: Socket, ghost d: Direction, ghost before: Bytes, ghost sentBefore: Bytes)
    returns (res: int, ghost d': Direction)
    requires sender != receiver && Conserves(before, d, sender.unread, sentBefore, receiver.sent)
    modifies sender`unread, receiver`sent, receiver`interrupts, receiver`offers
    ensures Conserves(before, d', sender.unread, sentBefore, receiver.sent)
    ensures d.made <= d'.made && receiver.offers == old(receiver.offers) + d'.made[|d.made|..]
    ensures |sender.unread| <= |old(sender.unread)|
    ensures res == -1 && AllFull(d'.made) ==> sender.unread == []
    ensures res != -1 ==> |sender.unread| < |old(sender.unread)|
  {
    ghost var mid, sentMid := sender.unread, receiver.sent;
    ghost var taken, made;
    res, taken, made := TransferData(sender, receiver);
    OneMore(taken, made);
    ConservesStep(before, d, mid, sender.unread, taken, made, sentBefore, sentMid);
    d' := Direction(d.taken + taken, d.made + made);
    assert d'.made[|d.made|..] == made;
    assert |taken + sender.unread| == |taken| + |sender.unread|;
    if res == -1 && taken != [] {
      assert d'.made[|d.made|] == made[0];
    }
  }

  lemma Delivered(d: Direction, sentBefore: Bytes, sentAfter: Bytes)
    requires Offered(d.made) == d.taken && AllPossible(d.made) && sentAfter == sentBefore + Accepted(d.made)
    ensures sentAfter == sentBefore + d.taken <==> AllFull(d.made)
  {
    AcceptedIsOfferedWhen(d.made);
    if sentAfter == sentBefore + d.taken {
      assert |Accepted(d.made)| == |d.taken|;
    }
  }

  /** A stream that starts with what was read ahead is taken whole exactly when nothing was. */
  lemma SplitStream(ahead: Bytes, taken: Bytes, rest: Bytes)
    ensures var s := ahead + (taken + rest);
            s[..|ahead|] + taken + rest == s && (taken == s <==> ahead == [] && rest == [])
  {
    var s := ahead + (taken + rest);
    assert |s| == |ahead| + |taken| + |rest|;
    assert s[..|ahead|] == ahead && ahead + (taken + rest) == ahead + taken + rest;
  }
}
