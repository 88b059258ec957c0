// Buffered reading and complete writing over a socket whose kernel side cuts
// the byte stream wherever it likes.
module Rio {
  import opened Bytes

  const MAXLINE := 8192

  // ---------------------------------------------------------------------
  // What a call delivers, as a function of the stream alone
  // ---------------------------------------------------------------------

  /** How many bytes one line read takes from stream `s`: up to and with the first line
      feed, but fewer than `maxlen` and no more than there are. */
  function LineLength(s: Bytes, maxlen: nat): (n: nat)
    ensures n <= |s| && (n < maxlen || n == 0)
  {
    if s == [] || maxlen <= 1 then 0
    else if s[0] == LF then 1
    else 1 + LineLength(s[1..], maxlen - 1)
  }

  function Piece(s: Bytes, maxlen: nat): Bytes {
    s[..LineLength(s, maxlen)]
  }

  function Min(a: nat, b: nat): nat {
    if a < b then a else b
  }

  lemma {:induction false} LineLengthIs(s: Bytes, maxlen: nat, n: nat)
    requires n <= |s| && (n < maxlen || n == 0)
    requires n > 0 ==> LF !in s[..n - 1]
    requires n == |s| || n + 1 >= maxlen || (n > 0 && s[n - 1] == LF)
    ensures LineLength(s, maxlen) == n
  {
    if n > 1 {
      assert s[..n - 1][0] == s[0] && s[1..][..n - 2] == s[..n - 1][1..];
    }
    if s == [] || maxlen <= 1 || s[0] == LF {
    } else {
      LineLengthIs(s[1..], maxlen - 1, n - 1);
    }
  }

  lemma ByteTaken(taken: Bytes, rest: Bytes)
    requires rest != []
    ensures taken + [rest[0]] + rest[1..] == taken + rest
  {
  }

  /** What a line read has taken when it stops is the stream's next piece. */
  lemma LineTaken(s: Bytes, taken: Bytes, rest: Bytes, maxlen: nat)
    requires taken + rest == s && (|taken| < maxlen || taken == [])
    requires taken != [] ==> LF !in taken[..|taken| - 1]
    requires rest == [] || |taken| + 1 >= maxlen || (taken != [] && taken[|taken| - 1] == LF)
    ensures taken == Piece(s, maxlen) && rest == s[LineLength(s, maxlen)..]
  {
    if taken != [] {
      assert taken[..|taken| - 1] == s[..|taken| - 1];
    }
    LineLengthIs(s, maxlen, |taken|);
  }

  /** Taking the first `count` bytes of a read-ahead leaves the rest of it before the stream. */
  lemma TakeAhead(buf: Bytes, at: nat, cnt: nat, unread: Bytes, count: nat)
    requires at + cnt <= |buf| && count <= cnt
    ensures (buf[at..at + cnt] + unread)[..count] == buf[at..at + count]
    ensures (buf[at..at + cnt] + unread)[count..] == buf[at + count..at + cnt] + unread
  {
  }

  /** A line read never holds a line feed before its last byte. */
  lemma {:induction false} PieceHasOneLineFeed(s: Bytes, maxlen: nat)
    ensures forall i :: 0 <= i < |Piece(s, maxlen)| - 1 ==> Piece(s, maxlen)[i] != LF
  {
    if s == [] || maxlen <= 1 || s[0] == LF {
    } else {
      PieceHasOneLineFeed(s[1..], maxlen - 1);
      assert Piece(s, maxlen) == [s[0]] + Piece(s[1..], maxlen - 1);
    }
  }

  /** A call on the reader. */
  datatype Call = Line(maxlen: nat) | Block(n: nat)

  function Delivered(s: Bytes, c: Call): (d: Bytes)
    ensures d <= s
  {
    match c
    case Line(maxlen) => Piece(s, maxlen)
    case Block(n) => s[..Min(n, |s|)]
  }

  /** What a sequence of mixed calls delivers. */
  function Session(s: Bytes, calls: seq<Call>): seq<Bytes> {
    if calls == [] then []
    else [Delivered(s, calls[0])] + Session(s[|Delivered(s, calls[0])|..], calls[1..])
  }

  /** Any sequence of mixed calls delivers the stream in order, without loss or repetition. */
  lemma {:induction false} SessionDeliversPrefix(s: Bytes, calls: seq<Call>)
    ensures Concat(Session(s, calls)) <= s
  {
    if calls == [] {
    } else {
      var d := Delivered(s, calls[0]);
      SessionDeliversPrefix(s[|d|..], calls[1..]);
      var rest := Concat(Session(s[|d|..], calls[1..]));
      ConcatFirst(d, Session(s[|d|..], calls[1..]));
      assert s == d + s[|d|..];
    }
  }

  // ---------------------------------------------------------------------
  // The objects
  // ---------------------------------------------------------------------

  /** One `write`: what it was offered, and its result. */
  datatype Offer = Offer(data: Bytes, result: int)

  /** A connected socket: the bytes the peer has sent or will send, the bytes the kernel
      has accepted from us, and how many more signals will interrupt a write. */
  class Socket {
    var unread: Bytes
    var sent: Bytes
    var interrupts: nat
    ghost var offers: seq<Offer>   // every write so far

    constructor (unread: Bytes, interrupts: nat)
      ensures this.unread == unread && this.sent == [] && this.interrupts == interrupts && offers == []
    {
      this.unread, this.sent, this.interrupts, offers := unread, [], interrupts, [];
    }

    /** `read`: some of the stream, or nothing at its end. */
    method Read(max: nat) returns (chunk: Bytes)
      requires max > 0
      modifies this`unread
      ensures |chunk| <= max && chunk + unread == old(unread)
      ensures chunk == [] <==> old(unread) == []
    {
      if unread == [] {
        return [];
      }
      var n: nat :| 1 <= n <= max && n <= |unread|;
      chunk, unread := unread[..n], unread[n..];
    }

    /** `write`: part of the data, or -1 when a signal came first. */
    method Write(data: Bytes) returns (n: int)
      requires data != []
      modifies this`sent, this`interrupts, this`offers
      ensures n == -1 || 1 <= n <= |data|
      ensures n == -1 ==> sent == old(sent) && interrupts < old(interrupts)
      ensures n != -1 ==> sent == old(sent) + data[..n] && interrupts == old(interrupts)
      ensures offers == old(offers) + [Offer(data, n)]
    {
      var signalled: bool := *;
      if signalled && interrupts > 0 {
        interrupts := interrupts - 1;
        offers := offers + [Offer(data, -1)];
        return -1;
      }
      n :| 1 <= n <= |data|;
      sent := sent + data[..n];
      offers := offers + [Offer(data, n)];
    }
  }

  class Rio {
    const sock: Socket        // rio_fd
    var cnt: nat              // rio_cnt
    var bufPtr: nat           // rio_bufptr, as an index
    const buf: array<byte>    // rio_buf

    predicate Valid()
      reads this
    {
      buf.Length == MAXLINE && bufPtr + cnt <= MAXLINE
    }

    /** What the reader has still to deliver: its read-ahead, then the socket's stream. */
    ghost function Remaining(): Bytes
      requires Valid()
      reads this, buf, sock`unread
    {
      buf[bufPtr..bufPtr + cnt] + sock.unread
    }

    constructor (fd: Socket)
      ensures Valid() && sock == fd && cnt == 0 && fresh(buf)
      ensures Remaining() == fd.unread
    {
      sock, cnt, bufPtr := fd, 0, 0;
      buf := new byte[MAXLINE];
    }

    /** The refill loop of `rio_read`: afterwards the read-ahead is empty only at end of stream. */
    method Fill()
      requires Valid()
      modifies this`cnt, this`bufPtr, buf, sock`unread
      ensures Valid() && Remaining() == old(Remaining())
      ensures cnt == 0 <==> Remaining() == []
    {
      while cnt <= 0
        invariant Valid() && Remaining() == old(Remaining())
        decreases cnt == 0
      {
        var chunk := sock.Read(MAXLINE);
        cnt := |chunk|;
        if cnt == 0 {
          return;
        }
        forall i | 0 <= i < |chunk| {
          buf[i] := chunk[i];
        }
        bufPtr := 0;
        assert buf[..cnt] == chunk;
      }
    }

    method RioRead(usrbuf: array<byte>, off: nat, n: nat) returns (count: nat)
      requires Valid() && usrbuf != buf && off + n <= usrbuf.Length && n > 0
      modifies this`cnt, this`bufPtr, buf, sock`unread, usrbuf
      ensures Valid() && count <= n
      ensures count == 0 <==> old(Remaining()) == []
      ensures count <= |old(Remaining())| && usrbuf[off..off + count] == old(Remaining())[..count]
      ensures Remaining() == old(Remaining())[count..]
      ensures usrbuf[..off] == old(usrbuf[..off]) && usrbuf[off + count..] == old(usrbuf[off + count..])
    {
      Fill();
      if cnt == 0 {
        return 0;
      }
      count := if n < cnt then n else cnt;
      TakeAhead(buf[..], bufPtr, cnt, sock.unread, count);
      Take(usrbuf, off, count);
    }

    /** The copy out of the read-ahead. */
    method Take(usrbuf: array<byte>, off: nat, count: nat)
      requires Valid() && usrbuf != buf && off + count <= usrbuf.Length && count <= cnt
      modifies this`cnt, this`bufPtr, usrbuf
      ensures Valid()
      ensures usrbuf[off..off + count] == old(buf[bufPtr..bufPtr + count])
      ensures Remaining() == old(Remaining())[count..]
      ensures usrbuf[..off] == old(usrbuf[..off]) && usrbuf[off + count..] == old(usrbuf[off + count..])
    {
      CopyOut(usrbuf, off, count);
      TakeAhead(buf[..], bufPtr, cnt, sock.unread, count);
      assert buf[..][bufPtr..bufPtr + cnt] == buf[bufPtr..bufPtr + cnt];
      bufPtr := bufPtr + count;
      cnt := cnt - count;
    }

    /** The `memcpy` of `rio_read`. */
    method CopyOut(usrbuf: array<byte>, off: nat, count: nat)
      requires Valid() && usrbuf != buf && off + count <= usrbuf.Length && bufPtr + count <= buf.Length
      modifies usrbuf
      ensures usrbuf[off..off + count] == buf[bufPtr..bufPtr + count]
      ensures usrbuf[..off] == old(usrbuf[..off]) && usrbuf[off + count..] == old(usrbuf[off + count..])
    {
      forall i | 0 <= i < count {
        usrbuf[off + i] := buf[bufPtr + i];
      }
    }

    /** `rio_read(&c, 1)`: the next byte, or none at end of stream. */
    method ReadByte() returns (rc: nat, c: byte)
      requires Valid()
      modifies this`cnt, this`bufPtr, buf, sock`unread
      ensures Valid() && rc == Min(1, |old(Remaining())|)
      ensures rc == 1 ==> c == old(Remaining())[0]
      ensures Remaining() == old(Remaining())[rc..]
    {
      var cell := new byte[1];
      rc := RioRead(cell, 0, 1);
      c := cell[0];
      assert rc == 1 ==> c == cell[0..1][0];
    }

    /** `*bufp = c`: one more byte of the caller's buffer is filled. */
    method Put(usrbuf: array<byte>, bufp: nat, c: byte)
      requires bufp < usrbuf.Length
      modifies usrbuf
      ensures usrbuf[..bufp] == old(usrbuf[..bufp]) && usrbuf[bufp] == c
      ensures usrbuf[..bufp + 1] == old(usrbuf[..bufp]) + [c]
    {
      usrbuf[bufp] := c;
    }

    method ReadLineB(usrbuf: array<byte>, maxlen: nat) returns (r: nat)
      requires Valid() && usrbuf != buf && maxlen <= usrbuf.Length && usrbuf.Length > 0
      modifies this`cnt, this`bufPtr, buf, sock`unread, usrbuf
      ensures Valid() && r == LineLength(old(Remaining()), maxlen) && r < usrbuf.Length
      ensures usrbuf[..r] == Piece(old(Remaining()), maxlen)
      ensures Remaining() == old(Remaining())[r..]
      ensures r > 0 ==> usrbuf[r] == NUL
    {
      r := Gather(usrbuf, maxlen);
      if r == 0 && maxlen > 1 {
        return 0;
      }
      Put(usrbuf, r, NUL);
    }

    /** The loop of a line read, up to a line feed, the end of the stream or the last place but
        one of the buffer; `n` is ahead of the bytes taken by one. */
    method Gather(usrbuf: array<byte>, maxlen: nat) returns (bufp: nat)
      requires Valid() && usrbuf != buf && maxlen <= usrbuf.Length
      modifies this`cnt, this`bufPtr, buf, sock`unread, usrbuf
      ensures Valid() && bufp == LineLength(old(Remaining()), maxlen)
      ensures usrbuf[..bufp] == Piece(old(Remaining()), maxlen)
      ensures Remaining() == old(Remaining())[bufp..]
    {
      ghost var s, taken, rest := Remaining(), [], Remaining();
      var n: nat := 1;
      bufp := 0;
      while n < maxlen
        invariant Valid() && bufp == n - 1 && (n <= maxlen || n == 1)
        invariant Remaining() == rest && usrbuf[..bufp] == taken
        invariant LF !in taken && taken + rest == s
      {
        var rc, c := ReadByte();
        if rc == 0 {
          break;
        }
        ByteTaken(taken, rest);
        Put(usrbuf, bufp, c);
        bufp, taken, rest := bufp + 1, taken + [c], rest[1..];
        if c == LF {
          break;
        }
        n := n + 1;
      }
      LineTaken(s, taken, rest, maxlen);
    }

    method ReadNB(usrbuf: array<byte>, n: nat) returns (r: nat)
      requires Valid() && usrbuf != buf && n <= usrbuf.Length
      modifies this`cnt, this`bufPtr, buf, sock`unread, usrbuf
      ensures Valid() && r == Min(n, |old(Remaining())|)
      ensures usrbuf[..r] == old(Remaining())[..r] && usrbuf[r..] == old(usrbuf[r..])
      ensures Remaining() == old(Remaining())[r..]
    {
      ghost var s := Remaining();
      var nleft: nat, bufp: nat := n, 0;
      while nleft > 0
        invariant Valid() && bufp + nleft == n && bufp <= |s|
        invariant usrbuf[..bufp] == s[..bufp] && usrbuf[bufp..] == old(usrbuf[bufp..])
        invariant Remaining() == s[bufp..]
      {
        var nread := RioRead(usrbuf, bufp, nleft);
        if nread == 0 {
          break;
        }
        nleft := nleft - nread;
        bufp := bufp + nread;
      }
      return n - nleft;
    }

    /** Everything is written, however the kernel cuts the writes and whatever signals come. */
    method Writen(usrbuf: Bytes, n: nat) returns (r: nat)
      requires n <= |usrbuf|
      modifies sock`sent, sock`interrupts, sock`offers
      ensures r == n && sock.sent == old(sock.sent) + usrbuf[..n]
    {
      var nleft: nat, bufp: nat := n, 0;
      while nleft > 0
        invariant bufp + nleft == n
        invariant sock.sent == old(sock.sent) + usrbuf[..bufp]
        decreases nleft, sock.interrupts
      {
        var nwritten := sock.Write(usrbuf[bufp..bufp + nleft]);
        if nwritten <= 0 {
          nwritten := 0;
        }
        assert usrbuf[..bufp + nwritten] == usrbuf[..bufp] + usrbuf[bufp..bufp + nleft][..nwritten];
        nleft := nleft - nwritten;
        bufp := bufp + nwritten;
      }
      return n;
    }
  }

  /** Any sequence of mixed calls, however the kernel cuts the stream: each call's result depends
      on the stream and the earlier calls alone, and what was delivered, then what was read ahead,
      then what is unread, is the stream. */
  method Deliver(rio: Rio, calls: seq<Call>) returns (outs: seq<Bytes>)
    requires rio.Valid()
    modifies rio`cnt, rio`bufPtr, rio.buf, rio.sock`unread
    ensures rio.Valid() && outs == Session(old(rio.Remaining()), calls)
    ensures Concat(outs) + rio.Remaining() == old(rio.Remaining())
    decreases |calls|
  {
    outs := [];
    if calls != [] {
      ghost var s := rio.Remaining();
      var out := DeliverOne(rio, calls[0]);
      var rest := Deliver(rio, calls[1..]);
      Joined(s, out, rest, rio.Remaining());
      outs := [out] + rest;
    }
  }

  lemma Joined(s: Bytes, out: Bytes, rest: seq<Bytes>, left: Bytes)
    requires out <= s && Concat(rest) + left == s[|out|..]
    ensures Concat([out] + rest) + left == s
  {
    ConcatFirst(out, rest);
    assert out + (Concat(rest) + left) == out + Concat(rest) + left;
  }

  method DeliverOne(rio: Rio, call: Call) returns (out: Bytes)
    requires rio.Valid()
    modifies rio`cnt, rio`bufPtr, rio.buf, rio.sock`unread
    ensures rio.Valid() && out == Delivered(old(rio.Remaining()), call)
    ensures rio.Remaining() == old(rio.Remaining())[|out|..]
  {
    match call
    case Line(maxlen) =>
      var buffer := new byte[maxlen + 1];
      var r := rio.ReadLineB(buffer, maxlen);
      out := buffer[..r];
    case Block(n) =>
      var buffer := new byte[n];
      var r := rio.ReadNB(buffer, n);
      out := buffer[..r];
  }
}
