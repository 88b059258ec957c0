// Chunked bodies (section 7.1 of RFC 9112): where one ends in a stream, and
// the encoding of a sequence of chunks.
module Chunked {
  import opened Wrappers
  import opened Bytes

  const CRLF: Bytes := [CR, LF]

  predicate IsHex(b: byte) {
    IsDigit(b) || 97 <= Lower(b) <= 102
  }

  function HexValue(b: byte): (v: nat)
    requires IsHex(b)
    ensures v < 16
  {
    if IsDigit(b) then (b - 48) as nat else (Lower(b) - 87) as nat
  }

  /** The number spelled by the hexadecimal digits from `i` on, appended to `sofar`. */
  function HexFrom(s: Bytes, i: nat, sofar: nat): nat
    requires i <= |s|
    decreases |s| - i
  {
    if i == |s| || !IsHex(s[i]) then sofar else HexFrom(s, i + 1, sofar * 16 + HexValue(s[i]))
  }

  /** Where the line that starts at `i` ends, its CRLF included. */
  function LineEnd(s: Bytes, i: nat): (n: Option<nat>)
    requires i <= |s|
    ensures n.Some? ==> i + 2 <= n.value <= |s|
    decreases |s| - i
  {
    if |s| < i + 2 then None else if s[i] == CR && s[i + 1] == LF then Some(i + 2) else LineEnd(s, i + 1)
  }

  /** Where the trailer section that starts at `i` ends, with the empty line after it. */
  function TrailerEnd(s: Bytes, i: nat): (n: Option<nat>)
    requires i <= |s|
    ensures n.Some? ==> i <= n.value <= |s|
    decreases |s| - i
  {
    match LineEnd(s, i)
    case None => None
    case Some(n) => if n == i + 2 then Some(n) else TrailerEnd(s, n)
  }

  /** Where the chunked body that starts at `i` ends, if it is complete: chunks of positive
      size, the last chunk, whose size is zero, and the trailer section. */
  function BodyEnd(s: Bytes, i: nat): (n: Option<nat>)
    requires i <= |s|
    ensures n.Some? ==> i <= n.value <= |s|
    decreases |s| - i, 1
  {
    match LineEnd(s, i)
    case None => None
    case Some(n) => if IsHex(s[i]) then DataEnd(s, i, n, HexFrom(s, i, 0)) else None
  }

  /** The same, after a size line that ends at `n` and announces `size` bytes of data. */
  function DataEnd(s: Bytes, i: nat, n: nat, size: nat): (r: Option<nat>)
    requires i < n <= |s|
    ensures r.Some? ==> i <= r.value <= |s|
    decreases |s| - i, 0
  {
    if size == 0 then TrailerEnd(s, n)
    else if |s| < n + size + 2 || s[n + size] != CR || s[n + size + 1] != LF then None
    else BodyEnd(s, n + size + 2)
  }

  // ---------------------------------------------------------------------
  // Encoding
  // ---------------------------------------------------------------------

  function HexDigit(v: nat): (b: byte)
    requires v < 16
    ensures IsHex(b) && HexValue(b) == v
  {
    if v < 10 then 48 + v as byte else 87 + v as byte
  }

  predicate AllHex(a: Bytes) {
    forall i :: 0 <= i < |a| ==> IsHex(a[i])
  }

  function Hex(n: nat): (a: Bytes)
    ensures a != [] && AllHex(a)
  {
    if n < 16 then [HexDigit(n)] else Hex(n / 16) + [HexDigit(n % 16)]
  }

  const LAST_CHUNK: Bytes := Hex(0) + CRLF

  /** A chunk in its frame. */
  function Framed(chunk: Bytes): (b: Bytes)
    ensures |b| == |Hex(|chunk|)| + |chunk| + 4
  {
    Hex(|chunk|) + CRLF + chunk + CRLF
  }

  /** Chunks as a sender frames them, with no extensions and no trailers. */
  function Encode(chunks: seq<Bytes>): Bytes {
    if chunks == [] then LAST_CHUNK + CRLF
    else Framed(chunks[0]) + Encode(chunks[1..])
  }

  // ---------------------------------------------------------------------
  // A framed body ends where its encoding does
  // ---------------------------------------------------------------------

  /** `b` stands at position `i` of `s`. */
  predicate At(s: Bytes, i: nat, b: Bytes) {
    i + |b| <= |s| && s[i..i + |b|] == b
  }

  lemma AtSplit(s: Bytes, i: nat, a: Bytes, b: Bytes)
    requires At(s, i, a + b)
    ensures At(s, i, a) && At(s, i + |a|, b)
  {
    var both := s[i..i + |a| + |b|];
    assert s[i..i + |a|] == both[..|a|] && s[i + |a|..i + |a| + |b|] == both[|a|..];
  }

  lemma AtByte(s: Bytes, i: nat, b: Bytes, j: nat)
    requires At(s, i, b) && j < |b|
    ensures s[i + j] == b[j]
  {
    assert s[i..i + |b|][j] == b[j];
  }

  lemma {:induction false} LineEndAt(s: Bytes, i: nat, a: Bytes)
    requires AllHex(a) && At(s, i, a) && At(s, i + |a|, CRLF)
    ensures LineEnd(s, i) == Some(i + |a| + 2)
    decreases |a|
  {
    if a == [] {
      AtByte(s, i, CRLF, 0);
      AtByte(s, i, CRLF, 1);
    } else {
      AtByte(s, i, a, 0);
      assert a == a[..1] + a[1..];
      AtSplit(s, i, a[..1], a[1..]);
      LineEndAt(s, i + 1, a[1..]);
    }
  }

  /** The number spelled by `a`, appended to `sofar`. */
  function Spelled(a: Bytes, sofar: nat): nat
    requires AllHex(a)
    decreases |a|
  {
    if a == [] then sofar else Spelled(a[..|a| - 1], sofar) * 16 + HexValue(a[|a| - 1])
  }

  lemma {:induction false} SpelledHex(n: nat)
    ensures Spelled(Hex(n), 0) == n
  {
    var a := Hex(n);
    if n < 16 {
      assert a[..0] == [];
    } else {
      SpelledHex(n / 16);
      assert a[..|a| - 1] == Hex(n / 16);
    }
  }

  lemma {:induction false} HexFromAt(s: Bytes, i: nat, a: Bytes, sofar: nat)
    requires AllHex(a) && At(s, i, a)
    ensures HexFrom(s, i, sofar) == HexFrom(s, i + |a|, Spelled(a, sofar))
    decreases |a|
  {
    if a == [] {
    } else {
      var n := |a| - 1;
      assert a == a[..n] + a[n..];
      AtSplit(s, i, a[..n], a[n..]);
      AtByte(s, i, a, n);
      HexFromAt(s, i, a[..n], sofar);
    }
  }

  /** A size line, as `BodyEnd` reads it. */
  lemma SizeLine(s: Bytes, i: nat, a: Bytes, n: nat)
    requires AllHex(a) && a != [] && Spelled(a, 0) == n && At(s, i, a + CRLF)
    ensures LineEnd(s, i) == Some(i + |a| + 2) && IsHex(s[i]) && HexFrom(s, i, 0) == n
  {
    AtSplit(s, i, a, CRLF);
    LineEndAt(s, i, a);
    AtByte(s, i, a, 0);
    HexFromAt(s, i, a, 0);
    AtByte(s, i + |a|, CRLF, 0);
  }

  lemma ChunkAt(s: Bytes, i: nat, a: Bytes, chunk: Bytes)
    requires AllHex(a) && a != [] && Spelled(a, 0) == |chunk| > 0 && At(s, i, a + CRLF + chunk + CRLF)
    ensures BodyEnd(s, i) == BodyEnd(s, i + |a| + |chunk| + 4)
  {
    var n := i + |a| + 2;
    AtSplit(s, i, a + CRLF + chunk, CRLF);
    AtSplit(s, i, a + CRLF, chunk);
    SizeLine(s, i, a, |chunk|);
    AtByte(s, n + |chunk|, CRLF, 0);
    AtByte(s, n + |chunk|, CRLF, 1);
  }

  lemma LastChunkAt(s: Bytes, i: nat)
    requires At(s, i, LAST_CHUNK + CRLF)
    ensures BodyEnd(s, i) == Some(i + 5)
  {
    AtSplit(s, i, LAST_CHUNK, CRLF);
    SpelledHex(0);
    SizeLine(s, i, Hex(0), 0);
    LineEndAt(s, i + 3, []);
  }

  lemma FramedAt(s: Bytes, i: nat, chunk: Bytes)
    requires chunk != [] && At(s, i, Framed(chunk))
    ensures BodyEnd(s, i) == BodyEnd(s, i + |Framed(chunk)|)
  {
    SpelledHex(|chunk|);
    ChunkAt(s, i, Hex(|chunk|), chunk);
  }

  /** Reading over the first chunk of an encoding. */
  lemma FirstChunkAt(s: Bytes, i: nat, chunks: seq<Bytes>) returns (j: nat)
    requires chunks != [] && chunks[0] != [] && At(s, i, Encode(chunks))
    ensures j <= |s| && At(s, j, Encode(chunks[1..])) && BodyEnd(s, i) == BodyEnd(s, j)
    ensures i + |Encode(chunks)| == j + |Encode(chunks[1..])|
  {
    AtSplit(s, i, Framed(chunks[0]), Encode(chunks[1..]));
    FramedAt(s, i, chunks[0]);
    j := i + |Framed(chunks[0])|;
  }

  /** A framed body ends where its encoding does, whatever surrounds it in the stream. */
  lemma {:induction false} EncodedBodyEnds(s: Bytes, i: nat, chunks: seq<Bytes>)
    requires forall j :: 0 <= j < |chunks| ==> chunks[j] != []
    requires At(s, i, Encode(chunks))
    ensures BodyEnd(s, i) == Some(i + |Encode(chunks)|)
    decreases |chunks|
  {
    if chunks == [] {
      LastChunkAt(s, i);
    } else {
      var j := FirstChunkAt(s, i, chunks);
      EncodedBodyEnds(s, j, chunks[1..]);
    }
  }
}
