// Relaying a body from one buffered socket to another: the chunked loop, which
// reads line by line, and the content-length loop, which reads a block.
module Relay {
  import opened Wrappers
  import opened Bytes
  import opened Chunked
  import opened Rio

  // ---------------------------------------------------------------------
  // Line decomposition
  // ---------------------------------------------------------------------

  /** What repeated line reads return until end of stream. */
  function Pieces(s: Bytes, maxlen: nat): seq<Bytes>
    requires maxlen > 1
    decreases |s|
  {
    if s == [] then [] else [Piece(s, maxlen)] + Pieces(s[LineLength(s, maxlen)..], maxlen)
  }

  /** The length of the first line, with its line feed if it has one. */
  function FirstLine(s: Bytes): (n: nat)
    ensures n <= |s| && (s != [] ==> n > 0)
  {
    if s == [] then 0 else if s[0] == LF then 1 else 1 + FirstLine(s[1..])
  }

  /** The lines of a stream; only the last may lack its line feed. */
  function Lines(s: Bytes): seq<Bytes>
    decreases |s|
  {
    if s == [] then [] else [s[..FirstLine(s)]] + Lines(s[FirstLine(s)..])
  }

  lemma {:induction false} PiecesRebuildStream(s: Bytes, maxlen: nat)
    requires maxlen > 1
    ensures Concat(Pieces(s, maxlen)) == s
    decreases |s|
  {
    if s == [] {
    } else {
      var n := LineLength(s, maxlen);
      PiecesRebuildStream(s[n..], maxlen);
      ConcatFirst(s[..n], Pieces(s[n..], maxlen));
      assert Pieces(s, maxlen) == [s[..n]] + Pieces(s[n..], maxlen);
      assert s == s[..n] + s[n..];
    }
  }

  /** A line read takes the whole first line, or as much of it as fits. */
  lemma {:induction false} PieceIsLinePrefix(s: Bytes, maxlen: nat)
    requires maxlen > 0
    ensures LineLength(s, maxlen) == Min(FirstLine(s), maxlen - 1)
  {
    if s == [] || maxlen <= 1 || s[0] == LF {
    } else {
      PieceIsLinePrefix(s[1..], maxlen - 1);
    }
  }

  /** Line reads return exactly the lines of the stream if and only if every line is
      shorter than `maxlen`. */
  lemma {:induction false} PiecesAreLinesWhenShort(s: Bytes, maxlen: nat)
    requires maxlen > 1
    ensures Pieces(s, maxlen) == Lines(s) <==> forall l :: l in Lines(s) ==> |l| < maxlen
    decreases |s|
  {
    if s == [] {
    } else {
      PieceIsLinePrefix(s, maxlen);
      var n := FirstLine(s);
      var first, rest := s[..n], Lines(s[n..]);
      assert Lines(s) == [first] + rest;
      assert Lines(s)[0] == first && Lines(s)[1..] == rest;
      if n < maxlen {
        PiecesAreLinesWhenShort(s[n..], maxlen);
        assert Pieces(s, maxlen) == [first] + Pieces(s[n..], maxlen);
        assert Pieces(s, maxlen)[1..] == Pieces(s[n..], maxlen);
        assert forall l :: l in Lines(s) <==> l == first || l in rest;
      } else {
        assert first in Lines(s) && |first| >= maxlen;
        assert |Pieces(s, maxlen)[0]| < |Lines(s)[0]|;
      }
    }
  }

  // ---------------------------------------------------------------------
  // The chunked loop
  // ---------------------------------------------------------------------

  const CHUNKED_SEPARATOR: Bytes := Ascii("0\r\n\r\n")

  /** What the chunked loop returns: each piece as a C string, one after the other. */
  function ChunkedData(s: Bytes): Bytes
    decreases |s|
  {
    if s == [] then [] else CString(Piece(s, MAXLINE)) + ChunkedData(s[LineLength(s, MAXLINE)..])
  }

  /** Every piece up to its first zero byte, if it has one. */
  function Strings(pieces: seq<Bytes>): (c: seq<Bytes>)
    ensures |c| == |pieces| && forall i :: 0 <= i < |c| ==> c[i] == CString(pieces[i])
  {
    seq(|pieces|, i requires 0 <= i < |pieces| => CString(pieces[i]))
  }

  lemma StringsFirst(piece: Bytes, pieces: seq<Bytes>)
    ensures Strings([piece] + pieces) == [CString(piece)] + Strings(pieces)
  {
  }

  /** The loop's data, whatever the stream: all its pieces, as strings, in order. */
  lemma {:induction false} ChunkedDataIsPieces(s: Bytes)
    ensures ChunkedData(s) == Concat(Strings(Pieces(s, MAXLINE)))
    decreases |s|
  {
    if s == [] {
    } else {
      var rest := s[LineLength(s, MAXLINE)..];
      ChunkedDataIsPieces(rest);
      ConcatFirst(CString(Piece(s, MAXLINE)), Strings(Pieces(rest, MAXLINE)));
      StringsFirst(Piece(s, MAXLINE), Pieces(rest, MAXLINE));
    }
  }

  /** The separator that would end the loop has two line feeds; a piece has one at most. */
  lemma PieceHoldsNoSeparator(s: Bytes)
    ensures !Contains(CString(Piece(s, MAXLINE)), CHUNKED_SEPARATOR)
  {
    var piece := Piece(s, MAXLINE);
    var c := CString(piece);
    PieceHasOneLineFeed(s, MAXLINE);
    forall i: nat ensures !MatchesAt(c, i, CHUNKED_SEPARATOR) {
      if i + 5 <= |c| {
        assert c[i + 2] == piece[i + 2] != LF;
        assert Lower(CHUNKED_SEPARATOR[2]) == LF;
      }
    }
  }

  /** What the chunked loop sends, terminator test included. */
  function Relayed(s: Bytes): Bytes
    decreases |s|
  {
    if s == [] then []
    else if Contains(CString(Piece(s, MAXLINE)), CHUNKED_SEPARATOR) then Piece(s, MAXLINE)
    else Piece(s, MAXLINE) + Relayed(s[LineLength(s, MAXLINE)..])
  }

  lemma RelayedFirst(s: Bytes)
    requires s != []
    ensures Relayed(s) == Piece(s, MAXLINE) + Relayed(s[LineLength(s, MAXLINE)..])
  {
    PieceHoldsNoSeparator(s);
  }

  /** The whole stream, always: no piece ends the loop. */
  lemma {:induction false} RelayedIsStream(s: Bytes)
    ensures Relayed(s) == s
    decreases |s|
  {
    if s == [] {
    } else {
      var n := LineLength(s, MAXLINE);
      RelayedFirst(s);
      RelayedIsStream(s[n..]);
      assert s == s[..n] + s[n..];
    }
  }

  lemma PrefixIsAll(s: Bytes, n: nat)
    requires n <= |s|
    ensures s == s[..n] <==> |s| == n
  {
    assert s[..|s|] == s;
  }

  /** The documented end of the loop, exactly: a stream that starts with a complete chunked body
      is relayed up to that body's end if and only if nothing follows it. */
  lemma RelayStopsAtBodyEndWhen(s: Bytes)
    ensures BodyEnd(s, 0).Some? ==> (Relayed(s) == s[..BodyEnd(s, 0).value] <==> |s| == BodyEnd(s, 0).value)
  {
    RelayedIsStream(s);
    if BodyEnd(s, 0).Some? {
      PrefixIsAll(s, BodyEnd(s, 0).value);
    }
  }

  /** The same for the text the terminator test looks for, wherever it stands in the stream. */
  lemma RelayStopsAtSeparatorWhen(s: Bytes)
    requires Contains(s, CHUNKED_SEPARATOR)
    ensures var end := Find(s, CHUNKED_SEPARATOR, 0) + |CHUNKED_SEPARATOR|;
            end <= |s| && (Relayed(s) == s[..end] <==> |s| == end)
  {
    RelayedIsStream(s);
    PrefixIsAll(s, Find(s, CHUNKED_SEPARATOR, 0) + |CHUNKED_SEPARATOR|);
  }

  /** For any chunks a server frames and anything it sends next on the connection, the loop
      relays just the framed body if and only if there is nothing next. */
  lemma FramedRelayStopsWhen(chunks: seq<Bytes>, next: Bytes)
    requires forall j :: 0 <= j < |chunks| ==> chunks[j] != []
    ensures BodyEnd(Encode(chunks) + next, 0) == Some(|Encode(chunks)|)
    ensures Relayed(Encode(chunks) + next) == Encode(chunks) <==> next == []
  {
    FramedBodyEnds(chunks, next);
    RelayedIsStream(Encode(chunks) + next);
    FollowedBy(Encode(chunks), next);
  }

  lemma FramedBodyEnds(chunks: seq<Bytes>, next: Bytes)
    requires forall j :: 0 <= j < |chunks| ==> chunks[j] != []
    ensures BodyEnd(Encode(chunks) + next, 0) == Some(|Encode(chunks)|)
  {
    FollowedBy(Encode(chunks), next);
    EncodedBodyEnds(Encode(chunks) + next, 0, chunks);
  }

  lemma FollowedBy(body: Bytes, next: Bytes)
    ensures At(body + next, 0, body) && (body + next == body <==> next == [])
  {
    if next == [] {
      assert body + next == body;
    } else {
      assert |body + next| > |body|;
    }
  }

  /** An input on which it does not stop: the next response on a connection kept alive. */
  lemma RelayOverruns()
    ensures var s := Ascii("5\r\nhello\r\n0\r\n\r\n") + Ascii("HTTP/1.1 200 OK\r\n");
            BodyEnd(s, 0) == Some(15) && Relayed(s) != Ascii("5\r\nhello\r\n0\r\n\r\n")
  {
    EncodedHello();
    FramedRelayStopsWhen([Ascii("hello")], Ascii("HTTP/1.1 200 OK\r\n"));
  }

  lemma EncodedHello()
    ensures Encode([Ascii("hello")]) == Ascii("5\r\nhello\r\n0\r\n\r\n")
  {
    var chunks := [Ascii("hello")];
    assert Encode(chunks[1..]) == [48, CR, LF, CR, LF];
    assert Hex(5) == [53];
  }

  /** The returned data is the relayed stream exactly when the stream has no zero byte. */
  lemma {:induction false} ChunkedDataIsStream(s: Bytes)
    ensures |ChunkedData(s)| <= |s| && NUL !in ChunkedData(s)
    ensures ChunkedData(s) == s <==> NUL !in s
    decreases |s|
  {
    if s == [] {
    } else {
      var n := LineLength(s, MAXLINE);
      ChunkedDataIsStream(s[n..]);
      assert s == s[..n] + s[n..];
      var first, rest := CString(s[..n]), ChunkedData(s[n..]);
      if ChunkedData(s) == s {
        assert |first| == n && |rest| == |s[n..]|;
        assert first == s[..n];
        assert rest == (first + rest)[n..] == s[n..];
      }
    }
  }

  /** One round of the loop: a piece moves from what is left to what is sent, and, as a C
      string, to the data. */
  lemma Round(gone: Bytes, data: Bytes, rest: Bytes)
    requires rest != []
    ensures var n, piece := LineLength(rest, MAXLINE), Piece(rest, MAXLINE);
            && gone + rest == gone + piece + rest[n..]
            && data + ChunkedData(rest) == data + CString(piece) + ChunkedData(rest[n..])
  {
    var n := LineLength(rest, MAXLINE);
    assert rest == rest[..n] + rest[n..];
    Associates(gone, rest[..n], rest[n..]);
    Associates(data, CString(rest[..n]), ChunkedData(rest[n..]));
  }

  /** A buffer as a C string, when it is terminated at `n`. */
  function BufferText(buffer: array<byte>, n: nat): (text: Bytes)
    requires n < buffer.Length && buffer[n] == NUL
    reads buffer
    ensures text == CString(buffer[..n])
  {
    CStringStops(buffer[..], n);
    assert buffer[..][..n] == buffer[..n];
    CString(buffer[..])
  }

  /** One piece is relayed as it is read, zero bytes and all; `text` is the C string of it. */
  method RelayPiece(rioRead: Rio, rioWrite: Rio, buffer: array<byte>) returns (n: nat, text: Bytes)
    requires rioRead.Valid() && rioRead != rioWrite && rioRead.sock != rioWrite.sock
    requires buffer.Length == MAXLINE && buffer != rioRead.buf
    modifies rioRead`cnt, rioRead`bufPtr, rioRead.buf, rioRead.sock`unread
    modifies rioWrite.sock`sent, rioWrite.sock`interrupts, rioWrite.sock`offers, buffer
    ensures rioRead.Valid() && n == LineLength(old(rioRead.Remaining()), MAXLINE)
    ensures text == CString(Piece(old(rioRead.Remaining()), MAXLINE))
    ensures rioRead.Remaining() == old(rioRead.Remaining())[n..]
    ensures rioWrite.sock.sent == old(rioWrite.sock.sent) + Piece(old(rioRead.Remaining()), MAXLINE)
    ensures n == 0 <==> old(rioRead.Remaining()) == []
  {
    PieceIsLinePrefix(rioRead.Remaining(), MAXLINE);
    n := rioRead.ReadLineB(buffer, MAXLINE);
    if n <= 0 {
      return n, [];
    }
    var line := buffer[..n];
    text := BufferText(buffer, n);
    var _ := rioWrite.Writen(line, n);
  }

  /** The loop relays the whole remaining stream: its terminator test never succeeds. */
  method ReadAndWriteChunkedData(rioRead: Rio, rioWrite: Rio) returns (data: Bytes)
    requires rioRead.Valid() && rioRead != rioWrite && rioRead.sock != rioWrite.sock
    modifies rioRead`cnt, rioRead`bufPtr, rioRead.buf, rioRead.sock`unread
    modifies rioWrite.sock`sent, rioWrite.sock`interrupts, rioWrite.sock`offers
    ensures rioRead.Valid() && rioRead.Remaining() == []
    ensures Relayed(old(rioRead.Remaining())) == old(rioRead.Remaining())
    ensures rioWrite.sock.sent == old(rioWrite.sock.sent) + old(rioRead.Remaining())
    ensures data == ChunkedData(old(rioRead.Remaining()))
  {
    ghost var s, rest, relayed := rioRead.Remaining(), rioRead.Remaining(), rioWrite.sock.sent;
    ghost var total, all := relayed + s, ChunkedData(s);
    RelayedIsStream(s);
    var buffer := new byte[MAXLINE];
    data := [];
    while true
      invariant rioRead.Valid() && fresh(buffer) && rioRead.Remaining() == rest
      invariant rioWrite.sock.sent == relayed && relayed + rest == total
      invariant data + ChunkedData(rest) == all
      decreases |rest|
    {
      var n, text := RelayPiece(rioRead, rioWrite, buffer);
      if n <= 0 {
        break;
      }
      Round(relayed, data, rest);
      PieceHoldsNoSeparator(rest);
      data := data + text;
      relayed, rest := relayed + Piece(rest, MAXLINE), rest[n..];
      if Contains(text, CHUNKED_SEPARATOR) {
        break;
      }
    }
  }

  // ---------------------------------------------------------------------
  // The content-length loop
  // ---------------------------------------------------------------------

  /** Exactly the first `remains` bytes are relayed, or all there are; the reader is left at
      the next byte. The destination pointer is never advanced, which is harmless: a short
      block read means end of stream, so a second round copies nothing. */
  method ReadAndWriteContentLengthData(rioRead: Rio, rioWrite: Rio, connected: bool, remains: nat, data: array<byte>)
    requires rioRead.Valid() && rioRead != rioWrite && rioRead.sock != rioWrite.sock
    requires remains < data.Length && data != rioRead.buf
    modifies rioRead`cnt, rioRead`bufPtr, rioRead.buf, rioRead.sock`unread
    modifies rioWrite.sock`sent, rioWrite.sock`interrupts, rioWrite.sock`offers, data
    ensures rioRead.Valid()
    ensures var s, m := old(rioRead.Remaining()), Min(remains, |old(rioRead.Remaining())|);
            && rioRead.Remaining() == s[m..]
            && rioWrite.sock.sent == old(rioWrite.sock.sent) + (if connected then s[..m] else [])
            && data[..m] == s[..m] && data[m..remains] == old(data[m..remains]) && data[remains] == NUL
  {
    ghost var s := rioRead.Remaining();
    ghost var m := Min(remains, |s|);
    var remains' := remains;
    var first := true;
    while true
      invariant rioRead.Valid() && rioWrite.Valid() == old(rioWrite.Valid())
      invariant first ==> remains' == remains && rioRead.Remaining() == s && data[..] == old(data[..])
      invariant first ==> rioWrite.sock.sent == old(rioWrite.sock.sent)
      invariant !first ==> 0 < remains' == remains - m && rioRead.Remaining() == [] && m == |s|
      invariant !first ==> data[..m] == s[..m] && data[m..] == old(data[m..])
      invariant !first ==> rioWrite.sock.sent == old(rioWrite.sock.sent) + (if connected then s[..m] else [])
      decreases first
    {
      var n := rioRead.ReadNB(data, remains');
      if n <= 0 {
        break;
      }
      if connected {
        var _ := rioWrite.Writen(data[..], n);
      }
      remains' := remains' - n;
      first := false;
      if remains' <= 0 {
        break;
      }
    }
    data[remains] := NUL;
  }
}
