// What answering a GET means: the scan of the response header, the body, the
// policy, and the decision to store, as functions of the origin's byte stream.
module GetSpec {
  import opened Wrappers
  import opened Bytes
  import opened CacheSpec
  import opened Rio
  import opened Relay

  const MINLINE := 1024
  const YEAR_IN_SECOND := 31536000

  const CONTENT_LEN: Bytes := Ascii("Content-Length: ")
  const SEPARATOR: Bytes := Ascii("\r\n")
  const TRANSFER_CHUNKED: Bytes := Ascii("Transfer-Encoding: chunked")
  const CACHE_CONTROL_FLAG: Bytes := Ascii("Cache-Control:")
  const MUST_REVALIDATE: Bytes := Ascii("must-revalidate")
  const NO_STORE: Bytes := Ascii("no-store")
  const NO_CACHE: Bytes := Ascii("no-cache")
  const MAX_AGE: Bytes := Ascii("max-age=")
  const CACHE_IMMU: Bytes := Ascii("immutable")
  const CACHE_PRIVATE: Bytes := Ascii("Cache-Control: private")
  const ETAG: Bytes := Ascii("etag:")

  datatype CachePolicy =
    | CpNoStore | CpMaxAgeZero | CpNeedRevalidate | CpCacheTimeDefined | CpNotFound
    | CpPrivate | CpNoCachePolicy | CpNeverExpired | CpBadRequestDiscard

  // ---------------------------------------------------------------------
  // Header lines
  // ---------------------------------------------------------------------

  /** The number written after the first occurrence of `field`, zero when there is none. */
  function NumberAfter(line: Bytes, field: Bytes): nat {
    var i := Find(line, field, 0);
    if i < 0 then 0 else DigitsFrom(line[i + |field|..], 0)
  }

  /** The policy of one Cache-Control line. */
  function LinePolicy(line: Bytes): CachePolicy {
    if Contains(line, MUST_REVALIDATE) || Contains(line, NO_CACHE) then CpNeedRevalidate
    else if Contains(line, NO_STORE) then CpNoStore
    else if Contains(line, CACHE_PRIVATE) then CpPrivate
    else if Contains(line, CACHE_IMMU) then CpNeverExpired
    else if Contains(line, MAX_AGE) then CpCacheTimeDefined
    else CpNotFound
  }

  /** What the header scan accumulates. */
  datatype Head = Head(text: Bytes, cp: CachePolicy, cacheTime: nat, chunked: bool, contentLength: nat)

  const EMPTY_HEAD := Head([], CpNotFound, 0, false, 0)

  function HeadLine(h: Head, line: Bytes): Head {
    var policy := Contains(line, CACHE_CONTROL_FLAG);
    Head(h.text + line,
         if policy then LinePolicy(line) else h.cp,
         if policy && LinePolicy(line) == CpCacheTimeDefined then NumberAfter(line, MAX_AGE) else h.cacheTime,
         h.chunked || Contains(line, TRANSFER_CHUNKED),
         if Contains(line, CONTENT_LEN) then NumberAfter(line, CONTENT_LEN) else h.contentLength)
  }

  /** The header and the rest of the stream. */
  function Scan(h: Head, s: Bytes): (Head, Bytes)
    decreases |s|
  {
    if s == [] then (h, s)
    else
      var line := CString(Piece(s, MAXLINE));
      var rest := s[LineLength(s, MAXLINE)..];
      if line == SEPARATOR then (HeadLine(h, line), rest) else Scan(HeadLine(h, line), rest)
  }

  /** The header lines of a stream, as C strings, up to and with the separator. */
  function HeadLines(s: Bytes): seq<Bytes>
    decreases |s|
  {
    if s == [] then []
    else
      var line := CString(Piece(s, MAXLINE));
      if line == SEPARATOR then [line] else [line] + HeadLines(s[LineLength(s, MAXLINE)..])
  }

  function Fold(h: Head, lines: seq<Bytes>): Head
    decreases |lines|
  {
    if lines == [] then h else Fold(HeadLine(h, lines[0]), lines[1..])
  }

  /** The scan consumes a prefix of the stream. */
  lemma {:induction false} ScanTakesPrefix(h: Head, s: Bytes)
    ensures |Scan(h, s).1| <= |s| && Scan(h, s).1 == s[|s| - |Scan(h, s).1|..]
    decreases |s|
  {
    if s == [] {
    } else {
      var line := CString(Piece(s, MAXLINE));
      if line != SEPARATOR {
        ScanTakesPrefix(HeadLine(h, line), s[LineLength(s, MAXLINE)..]);
      }
    }
  }

  /** The scan is a fold over the header lines. */
  lemma {:induction false} ScanIsFold(h: Head, s: Bytes)
    ensures Scan(h, s).0 == Fold(h, HeadLines(s))
    decreases |s|
  {
    if s == [] {
    } else {
      var line := CString(Piece(s, MAXLINE));
      var n := LineLength(s, MAXLINE);
      if line == SEPARATOR {
        assert Fold(HeadLine(h, line), []) == HeadLine(h, line);
      } else {
        ScanIsFold(HeadLine(h, line), s[n..]);
        assert HeadLines(s)[1..] == HeadLines(s[n..]);
      }
    }
  }

  /** The number of a field, where the field is followed by a decimal number; zero without the field. */
  lemma NumberIsRead(line: Bytes, field: Bytes, i: nat, n: nat, rest: Bytes)
    requires StandsAt(line, field, i) && forall j: nat :: j < i ==> !StandsAt(line, field, j)
    requires line[i + |field|..] == Decimal(n) + rest && (rest == [] || rest[0] < 48 || rest[0] > 57)
    ensures NumberAfter(line, field) == n
  {
    FindIgnoresCase(line, field, i);
    DigitsAreDecimal(n, rest);
  }

  lemma NumberIsMissing(line: Bytes, field: Bytes)
    requires forall j: nat :: !StandsAt(line, field, j)
    ensures NumberAfter(line, field) == 0
  {
    FindIgnoresCase(line, field, 0);
  }

  lemma HeadLinesFirst(s: Bytes)
    requires s != []
    ensures var line, rest := CString(Piece(s, MAXLINE)), s[LineLength(s, MAXLINE)..];
            && HeadLines(s) == (if line == SEPARATOR then [line] else [line] + HeadLines(rest))
            && Pieces(s, MAXLINE) == [Piece(s, MAXLINE)] + Pieces(rest, MAXLINE)
  {
  }

  lemma TakeMore(first: Bytes, rest: seq<Bytes>, n: nat)
    requires n <= |rest|
    ensures ([first] + rest)[..n + 1] == [first] + rest[..n]
  {
  }

  /** The header lines are line reads of the stream, as strings. */
  lemma {:induction false} HeadLinesArePieces(s: Bytes)
    ensures |HeadLines(s)| <= |Pieces(s, MAXLINE)|
    ensures HeadLines(s) == Strings(Pieces(s, MAXLINE)[..|HeadLines(s)|])
    decreases |s|
  {
    if s == [] {
    } else {
      var piece, rest := Piece(s, MAXLINE), s[LineLength(s, MAXLINE)..];
      HeadLinesFirst(s);
      if CString(piece) == SEPARATOR {
        TakeMore(piece, Pieces(rest, MAXLINE), 0);
        StringsFirst(piece, []);
      } else {
        HeadLinesArePieces(rest);
        TakeMore(piece, Pieces(rest, MAXLINE), |HeadLines(rest)|);
        StringsFirst(piece, Pieces(rest, MAXLINE)[..|HeadLines(rest)|]);
      }
    }
  }

  /** They go up to and with the first that is CR LF, or to the end of the stream. */
  lemma {:induction false} HeadEndsAtSeparator(s: Bytes)
    ensures var lines, pieces := HeadLines(s), Pieces(s, MAXLINE);
            && (forall i :: 0 <= i < |lines| - 1 ==> lines[i] != [13, 10])
            && (|lines| < |pieces| ==> lines != [] && lines[|lines| - 1] == [13, 10])
    decreases |s|
  {
    assert SEPARATOR == [13, 10];
    if s == [] {
    } else {
      HeadLinesFirst(s);
      if CString(Piece(s, MAXLINE)) != SEPARATOR {
        HeadEndsAtSeparator(s[LineLength(s, MAXLINE)..]);
      }
    }
  }

  /** One step of the scan. */
  lemma ScanStep(h: Head, rest: Bytes)
    ensures rest == [] ==> Scan(h, rest) == (h, rest)
    ensures var line := CString(Piece(rest, MAXLINE));
            var left := rest[LineLength(rest, MAXLINE)..];
            rest != [] ==>
              Scan(h, rest) == if line == SEPARATOR then (HeadLine(h, line), left) else Scan(HeadLine(h, line), left)
  {
  }

  /** And what follows them is what the scan leaves. */
  lemma {:induction false} ScanLeavesRest(h: Head, s: Bytes)
    requires |HeadLines(s)| <= |Pieces(s, MAXLINE)|
    ensures Concat(Pieces(s, MAXLINE)[..|HeadLines(s)|]) + Scan(h, s).1 == s
    decreases |s|
  {
    ScanStep(h, s);
    if s == [] {
    } else {
      var line, piece, rest := CString(Piece(s, MAXLINE)), Piece(s, MAXLINE), s[LineLength(s, MAXLINE)..];
      HeadLinesFirst(s);
      HeadLinesArePieces(rest);
      var n := if line == SEPARATOR then 0 else |HeadLines(rest)|;
      var taken := Pieces(rest, MAXLINE)[..n];
      if line == SEPARATOR {
        assert Concat(taken) + rest == rest;
      } else {
        ScanLeavesRest(HeadLine(h, line), rest);
      }
      TakeMore(piece, Pieces(rest, MAXLINE), n);
      ConcatFirst(piece, taken);
      Rejoin(s, piece, Concat(taken), Scan(h, s).1);
    }
  }

  lemma Rejoin(s: Bytes, piece: Bytes, taken: Bytes, left: Bytes)
    requires piece <= s && taken + left == s[|piece|..]
    ensures piece + taken + left == s
  {
    Associates(piece, taken, left);
    assert s == piece + s[|piece|..];
  }

  /** The header text is all its lines. */
  lemma {:induction false} FoldText(h: Head, lines: seq<Bytes>)
    ensures Fold(h, lines).text == h.text + Concat(lines)
    decreases |lines|
  {
    if lines == [] {
    } else {
      FoldText(HeadLine(h, lines[0]), lines[1..]);
      Associates(h.text, lines[0], Concat(lines[1..]));
    }
  }

  /** Line `j` is the last one that meets `P`. */
  predicate LastSuch(lines: seq<Bytes>, j: nat, P: Bytes -> bool) {
    j < |lines| && P(lines[j]) && forall i :: j < i < |lines| ==> !P(lines[i])
  }

  predicate IsPolicyLine(line: Bytes) {
    Contains(line, CACHE_CONTROL_FLAG)
  }

  /** A line whose max-age counts: none of the directives that come before it is there. */
  predicate SetsAge(line: Bytes) {
    && IsPolicyLine(line) && Contains(line, MAX_AGE)
    && !Contains(line, MUST_REVALIDATE) && !Contains(line, NO_CACHE) && !Contains(line, NO_STORE)
    && !Contains(line, CACHE_PRIVATE) && !Contains(line, CACHE_IMMU)
  }

  lemma AgeIsReached(line: Bytes)
    ensures SetsAge(line) <==> IsPolicyLine(line) && LinePolicy(line) == CpCacheTimeDefined
  {
  }

  /** The policy of a response is that of its last Cache-Control line, or the default. */
  lemma {:induction false} LastPolicyLineDecides(h: Head, lines: seq<Bytes>)
    ensures forall j: nat :: LastSuch(lines, j, IsPolicyLine) ==> Fold(h, lines).cp == LinePolicy(lines[j])
    ensures (forall l :: l in lines ==> !IsPolicyLine(l)) ==> Fold(h, lines).cp == h.cp
    decreases |lines|
  {
    if lines == [] {
    } else {
      var first, rest := lines[0], lines[1..];
      LastPolicyLineDecides(HeadLine(h, first), rest);
      FoldLast(lines, IsPolicyLine);
      assert first in lines && forall l :: l in rest ==> l in lines;
    }
  }

  /** Its lifetime is set by the last Cache-Control line that gets as far as its max-age. */
  lemma {:induction false} LastAgeLineDecides(h: Head, lines: seq<Bytes>)
    ensures forall j: nat :: LastSuch(lines, j, SetsAge) ==> Fold(h, lines).cacheTime == NumberAfter(lines[j], MAX_AGE)
    ensures (forall l :: l in lines ==> !SetsAge(l)) ==> Fold(h, lines).cacheTime == h.cacheTime
    decreases |lines|
  {
    if lines == [] {
    } else {
      var first, rest := lines[0], lines[1..];
      LastAgeLineDecides(HeadLine(h, first), rest);
      AgeIsReached(first);
      FoldLast(lines, SetsAge);
      assert first in lines && forall l :: l in rest ==> l in lines;
    }
  }

  /** The last line that meets `P` is the first one, or the last such line of the rest. */
  lemma FoldLast(lines: seq<Bytes>, P: Bytes -> bool)
    requires lines != []
    ensures forall j: nat :: LastSuch(lines, j, P) ==>
              (j == 0 && forall l :: l in lines[1..] ==> !P(l)) || (j > 0 && LastSuch(lines[1..], j - 1, P))
  {
    forall j: nat | LastSuch(lines, j, P)
      ensures (j == 0 && forall l :: l in lines[1..] ==> !P(l)) || (j > 0 && LastSuch(lines[1..], j - 1, P))
    {
      assert forall i :: 0 <= i < |lines| - 1 ==> lines[1..][i] == lines[i + 1];
    }
  }

  /** Neither the header text nor the data of a response holds a zero byte. */
  lemma {:induction false} ScanTextIsString(h: Head, s: Bytes)
    requires NUL !in h.text
    ensures NUL !in Scan(h, s).0.text
    decreases |s|
  {
    if s == [] {
    } else {
      var line := CString(Piece(s, MAXLINE));
      if line != SEPARATOR {
        ScanTextIsString(HeadLine(h, line), s[LineLength(s, MAXLINE)..]);
      }
    }
  }

  // ---------------------------------------------------------------------
  // The whole response
  // ---------------------------------------------------------------------

  /** A fetched response: what the client was sent, what the proxy keeps as the response
      text, whether it was discarded as malformed, and its final policy and lifetime. */
  datatype Fetched = Fetched(sent: Bytes, text: Bytes, discarded: bool, cp: CachePolicy, cacheTime: nat)

  /** The error pages the proxy sends in its own name. */
  datatype Pages = Pages(badRequest: Bytes, gatewayTimeout: Bytes)

  /** `junk` is what the uninitialised body buffer holds before the body is read into it. */
  function Fetch(s: Bytes, junk: Bytes, pages: Pages): Fetched {
    var (h, rest) := Scan(EMPTY_HEAD, s);
    Assemble(h, rest, junk, pages)
  }

  function Assemble(h: Head, rest: Bytes, junk: Bytes, pages: Pages): Fetched {
    if h.chunked && h.contentLength != 0 then
      Fetched(h.text + pages.badRequest, h.text, true, CpBadRequestDiscard, h.cacheTime)
    else if h.chunked then
      Fetched(h.text + rest, h.text + ChunkedData(rest), false, h.cp, h.cacheTime)
    else
      var m := Min(h.contentLength, |rest|);
      Fetched(h.text + rest[..m], h.text + KeptBody(rest, h.contentLength, junk), false, h.cp, h.cacheTime)
  }

  /** The body buffer as a C string: the bytes read, then what was there before, then the terminator. */
  function KeptBody(rest: Bytes, contentLength: nat, junk: Bytes): Bytes {
    var m := Min(contentLength, |rest|);
    CString(rest[..m] + (if m <= contentLength <= |junk| then junk[m..contentLength] else []))
  }

  /** The whole body arrived, chunked or by length, and holds no zero byte. */
  predicate WholeTextBody(s: Bytes) {
    var (h, rest) := Scan(EMPTY_HEAD, s);
    !(h.chunked && h.contentLength != 0) &&
    if h.chunked then NUL !in rest else h.contentLength <= |rest| && NUL !in rest[..h.contentLength]
  }

  /** A short body that the terminator happens to cut right after its last byte. */
  predicate LuckyJunk(s: Bytes, junk: Bytes) {
    var (h, rest) := Scan(EMPTY_HEAD, s);
    !h.chunked && |rest| < h.contentLength && NUL !in rest && (|rest| < |junk| ==> junk[|rest|] == NUL)
  }

  lemma KeptBodyIsBody(rest: Bytes, contentLength: nat, junk: Bytes)
    requires |junk| >= contentLength
    ensures KeptBody(rest, contentLength, junk) == rest[..Min(contentLength, |rest|)] <==>
              && NUL !in rest[..Min(contentLength, |rest|)]
              && (contentLength <= |rest| || junk[|rest|] == NUL)
  {
    var m := Min(contentLength, |rest|);
    var body := rest[..m];
    if contentLength <= |rest| {
      assert body + junk[m..contentLength] == body;
    } else {
      var all := body + junk[m..contentLength];
      assert all[m] == junk[m];
      if NUL !in body && junk[m] == NUL {
        CStringStops(all, m);
        assert all[..m] == body;
      } else if NUL !in body {
        CStringPast(all, m);
      }
    }
  }

  /** What is kept of the body, exactly: what was read, followed by what the buffer held up to the
      announced length, all of it up to the first zero byte. */
  lemma KeptBodyEnds(rest: Bytes, contentLength: nat, junk: Bytes)
    requires |junk| >= contentLength
    ensures var m, kept := Min(contentLength, |rest|), KeptBody(rest, contentLength, junk);
            var buffer := rest[..m] + junk[m..contentLength];
            kept <= buffer && NUL !in kept && (|kept| < |buffer| ==> buffer[|kept|] == NUL)
  {
  }

  /** A string does not end before its first zero. */
  lemma {:induction false} CStringPast(s: Bytes, n: nat)
    requires n < |s| && NUL !in s[..n + 1]
    ensures |CString(s)| > n
  {
    assert s[0] == s[..n + 1][0];
    if n == 0 {
    } else {
      assert s[1..][..n] == s[..n + 1][1..];
      CStringPast(s[1..], n - 1);
    }
  }

  /** Replay fidelity, exactly: what the proxy keeps is what the client was sent if and only if
      the body came whole and without a zero byte, or came short and was cut by chance. */
  lemma KeptIsSent(s: Bytes, junk: Bytes, pages: Pages)
    requires !Fetch(s, junk, pages).discarded
    requires |junk| >= Scan(EMPTY_HEAD, s).0.contentLength
    ensures Fetch(s, junk, pages).text == Fetch(s, junk, pages).sent <==> WholeTextBody(s) || LuckyJunk(s, junk)
  {
    var (h, rest) := Scan(EMPTY_HEAD, s);
    if h.chunked {
      ChunkedDataIsStream(rest);
      SameSuffix(h.text, ChunkedData(rest), rest);
    } else {
      KeptBodyIsBody(rest, h.contentLength, junk);
      SameSuffix(h.text, KeptBody(rest, h.contentLength, junk), rest[..Min(h.contentLength, |rest|)]);
    }
  }

  lemma SameSuffix(a: Bytes, b: Bytes, c: Bytes)
    ensures a + b == a + c <==> b == c
  {
    if a + b == a + c {
      assert b == (a + b)[|a|..] && c == (a + c)[|a|..];
    }
  }

  /** What is kept never holds a zero byte, whatever the origin sends. */
  lemma KeptIsString(s: Bytes, junk: Bytes, pages: Pages)
    ensures NUL !in Fetch(s, junk, pages).text
  {
    var (h, rest) := Scan(EMPTY_HEAD, s);
    ScanTextIsString(EMPTY_HEAD, s);
    ChunkedDataIsStream(rest);
  }

  // ---------------------------------------------------------------------
  // Storing
  // ---------------------------------------------------------------------

  /** The lifetime a response is stored with, if it is stored. */
  function Lifetime(cp: CachePolicy, cacheTime: nat): Option<nat> {
    if cp == CpNoStore || cp == CpMaxAgeZero || cp == CpPrivate || cp == CpNoCachePolicy || cp == CpNotFound
       || (cp == CpCacheTimeDefined && cacheTime == 0) then None
    else if cp == CpNeverExpired then Some(YEAR_IN_SECOND)
    else Some(cacheTime)
  }

  /** The text after "etag:", up to the end of its line. */
  function ETagOf(text: Bytes): Bytes {
    var i := Find(text, ETAG, 0);
    if i < 0 then [] else UpToLineEnd(text[i + |ETAG|..])
  }

  function UpToLineEnd(s: Bytes): Bytes {
    if s == [] || s[0] == CR || s[0] == LF then [] else [s[0]] + UpToLineEnd(s[1..])
  }

  /** The tag, exactly: what follows the first "etag:", up to the first CR or LF, or nothing. */
  lemma TagIs(text: Bytes, tag: Bytes)
    ensures tag == ETagOf(text) <==>
              var i := Find(text, Ascii("etag:"), 0);
              if i < 0 then tag == []
              else var tail := text[i + 5..];
                   && tag <= tail && CR !in tag && LF !in tag
                   && (|tag| < |tail| ==> tail[|tag|] == CR || tail[|tag|] == LF)
  {
    var i := Find(text, ETAG, 0);
    if i >= 0 {
      LineEnds(text[i + 5..], tag);
    }
  }

  lemma {:induction false} LineEnds(tail: Bytes, tag: Bytes)
    ensures tag == UpToLineEnd(tail) <==>
              && tag <= tail && CR !in tag && LF !in tag
              && (|tag| < |tail| ==> tail[|tag|] == CR || tail[|tag|] == LF)
  {
    if tail == [] || tail[0] == CR || tail[0] == LF {
      assert tag <= tail && tag != [] ==> tag[0] == tail[0];
    } else if tag == [] {
    } else {
      LineEnds(tail[1..], tag[1..]);
      assert tag == [tag[0]] + tag[1..];
      assert tag <= tail <==> tag[0] == tail[0] && tag[1..] <= tail[1..];
      assert forall b :: b in tag <==> b == tag[0] || b in tag[1..];
    }
  }

  /** The response object built from a fetch. */
  function Built(f: Fetched, lifetime: nat, now: int): GetResponse {
    GetResponse(f.text, lifetime, now, ETagOf(f.text))
  }

  /** The three final policies under which a response that was not discarded is stored. */
  predicate Storable(f: Fetched) {
    f.cp == CpNeedRevalidate || (f.cp == CpCacheTimeDefined && f.cacheTime > 0) || f.cp == CpNeverExpired
  }

  /** A fetch's final policy is never one of the values the scan does not produce. */
  lemma {:induction false} FoldPolicy(h: Head, lines: seq<Bytes>)
    requires h.cp != CpMaxAgeZero && h.cp != CpNoCachePolicy && h.cp != CpBadRequestDiscard
    ensures var cp := Fold(h, lines).cp; cp != CpMaxAgeZero && cp != CpNoCachePolicy && cp != CpBadRequestDiscard
    decreases |lines|
  {
    if lines == [] {
    } else {
      FoldPolicy(HeadLine(h, lines[0]), lines[1..]);
    }
  }

  lemma ScanPolicy(s: Bytes)
    ensures var cp := Scan(EMPTY_HEAD, s).0.cp; cp != CpMaxAgeZero && cp != CpNoCachePolicy && cp != CpBadRequestDiscard
  {
    ScanIsFold(EMPTY_HEAD, s);
    FoldPolicy(EMPTY_HEAD, HeadLines(s));
  }

  /** Policy, lifetime and refusal of a fetch are those its header lines fold to. */
  lemma FetchFolds(s: Bytes, junk: Bytes, pages: Pages)
    ensures var f, h := Fetch(s, junk, pages), Fold(EMPTY_HEAD, HeadLines(s));
            && f.cacheTime == h.cacheTime
            && (f.discarded <==> h.chunked && h.contentLength != 0)
            && f.cp == if f.discarded then CpBadRequestDiscard else h.cp
  {
    ScanIsFold(EMPTY_HEAD, s);
  }

  predicate SaysChunked(line: Bytes) {
    Contains(line, TRANSFER_CHUNKED)
  }

  predicate SaysLength(line: Bytes) {
    Contains(line, CONTENT_LEN)
  }

  /** The length of a response is that of its last Content-Length line. */
  lemma {:induction false} LastLengthLineDecides(h: Head, lines: seq<Bytes>)
    ensures forall j: nat :: LastSuch(lines, j, SaysLength) ==>
              Fold(h, lines).contentLength == NumberAfter(lines[j], CONTENT_LEN)
    ensures (forall l :: l in lines ==> !SaysLength(l)) ==> Fold(h, lines).contentLength == h.contentLength
    decreases |lines|
  {
    if lines == [] {
    } else {
      var first, rest := lines[0], lines[1..];
      LastLengthLineDecides(HeadLine(h, first), rest);
      FoldLast(lines, SaysLength);
      assert first in lines && forall l :: l in rest ==> l in lines;
    }
  }

  predicate AnySuch(lines: seq<Bytes>, P: Bytes -> bool) {
    exists l :: l in lines && P(l)
  }

  lemma AnyFirst(lines: seq<Bytes>, P: Bytes -> bool)
    requires lines != []
    ensures AnySuch(lines, P) <==> P(lines[0]) || AnySuch(lines[1..], P)
  {
    assert forall l :: l in lines <==> l == lines[0] || l in lines[1..];
  }

  /** And it is chunked when any of its lines says so. */
  lemma {:induction false} AnyLineMakesChunked(h: Head, lines: seq<Bytes>)
    ensures Fold(h, lines).chunked <==> h.chunked || AnySuch(lines, SaysChunked)
    decreases |lines|
  {
    if lines == [] {
    } else {
      AnyLineMakesChunked(HeadLine(h, lines[0]), lines[1..]);
      AnyFirst(lines, SaysChunked);
    }
  }

  /** A response is discarded exactly when some line says chunked and the last Content-Length line
      gives a length other than zero. */
  lemma DiscardedWhen(s: Bytes, junk: Bytes, pages: Pages)
    ensures Fetch(s, junk, pages).discarded <==>
              && AnySuch(HeadLines(s), SaysChunked)
              && exists j: nat :: LastSuch(HeadLines(s), j, SaysLength)
                                  && NumberAfter(HeadLines(s)[j], CONTENT_LEN) != 0
  {
    ScanIsFold(EMPTY_HEAD, s);
    AnyLineMakesChunked(EMPTY_HEAD, HeadLines(s));
    LastLengthLineDecides(EMPTY_HEAD, HeadLines(s));
    if l :| l in HeadLines(s) && SaysLength(l) {
      var j := LastExists(HeadLines(s), l, SaysLength);
    }
  }

  /** What the client is sent, and what is kept as the response text: the header lines, and then
      the 400 page, if the response is refused; all that follows, if it is chunked; or as much of
      it as the last Content-Length says. What is kept of a body is what `ChunkedDataIsPieces` and
      `KeptBodyEnds` say. */
  lemma ClientIsSent(s: Bytes, junk: Bytes, pages: Pages)
    ensures var f, lines, rest := Fetch(s, junk, pages), HeadLines(s), Scan(EMPTY_HEAD, s).1;
            && (f.discarded ==> f.sent == Concat(lines) + pages.badRequest && f.text == Concat(lines))
            && (!f.discarded && AnySuch(lines, SaysChunked) ==>
                f.sent == Concat(lines) + rest && f.text == Concat(lines) + ChunkedData(rest))
            && (!f.discarded && !AnySuch(lines, SaysChunked) ==>
                var n := AnnouncedLength(lines);
                f.sent == Concat(lines) + rest[..Min(n, |rest|)] && f.text == Concat(lines) + KeptBody(rest, n, junk))
  {
    var (h, rest) := Scan(EMPTY_HEAD, s);
    ScanIsFold(EMPTY_HEAD, s);
    AnyLineMakesChunked(EMPTY_HEAD, HeadLines(s));
    assert h.text == Concat(HeadLines(s)) by {
      FoldText(EMPTY_HEAD, HeadLines(s));
      assert [] + Concat(HeadLines(s)) == Concat(HeadLines(s));
    }
    AssembleIs(h, rest, junk, pages);
  }

  lemma AssembleIs(h: Head, rest: Bytes, junk: Bytes, pages: Pages)
    ensures var f := Assemble(h, rest, junk, pages);
            && (f.discarded ==> f.sent == h.text + pages.badRequest && f.text == h.text)
            && (!f.discarded && h.chunked ==> f.sent == h.text + rest && f.text == h.text + ChunkedData(rest))
            && (!f.discarded && !h.chunked ==>
                && f.sent == h.text + rest[..Min(h.contentLength, |rest|)]
                && f.text == h.text + KeptBody(rest, h.contentLength, junk))
  {
  }

  /** The length that the header lines announce. */
  function AnnouncedLength(lines: seq<Bytes>): nat {
    Fold(EMPTY_HEAD, lines).contentLength
  }

  /** The rule that chunked and a length exclude each other: a response that has both is refused if
      and only if its last Content-Length is not zero. */
  lemma BothAreRefusedWhen(s: Bytes, junk: Bytes, pages: Pages, i: nat, j: nat)
    requires i < |HeadLines(s)| && SaysChunked(HeadLines(s)[i]) && LastSuch(HeadLines(s), j, SaysLength)
    ensures Fetch(s, junk, pages).discarded <==> NumberAfter(HeadLines(s)[j], CONTENT_LEN) != 0
  {
    DiscardedWhen(s, junk, pages);
    assert AnySuch(HeadLines(s), SaysChunked);
  }

  lemma AdmissionOf(f: Fetched, cp: CachePolicy)
    requires f.cp == if f.discarded then CpBadRequestDiscard else cp
    requires cp != CpMaxAgeZero && cp != CpNoCachePolicy && cp != CpBadRequestDiscard
    ensures if f.discarded then Lifetime(f.cp, f.cacheTime).Some? && !Storable(f)
            else Lifetime(f.cp, f.cacheTime).Some? <==> Storable(f)
  {
  }

  /** A response that was not discarded has a lifetime exactly under the storable policies. A
      discarded one carries a policy that this test alone would let through. */
  lemma LifetimeWhenStorable(s: Bytes, junk: Bytes, pages: Pages)
    ensures var f := Fetch(s, junk, pages);
            if f.discarded then Lifetime(f.cp, f.cacheTime).Some? && !Storable(f)
            else Lifetime(f.cp, f.cacheTime).Some? <==> Storable(f)
  {
    FetchFolds(s, junk, pages);
    FoldPolicy(EMPTY_HEAD, HeadLines(s));
    AdmissionOf(Fetch(s, junk, pages), Fold(EMPTY_HEAD, HeadLines(s)).cp);
  }

  /** Admission, on the contents: a response changes the cache if and only if it was not discarded,
      its policy is storable and it fits; then it goes in front as the object built from it. */
  lemma StoredWhenStorable(list: seq<Entry>, k: Key, s: Bytes, junk: Bytes, pages: Pages, now: int)
    ensures var f := Fetch(s, junk, pages);
            Kept(list, k, f, now) != list <==> !f.discarded && Storable(f) && |f.text| <= MAX_OBJECT_SIZE
    ensures var f := Fetch(s, junk, pages);
            Kept(list, k, f, now) != list ==>
              Kept(list, k, f, now) == [Entry(k, Built(f, Lifetime(f.cp, f.cacheTime).value, now))] + list
  {
    LifetimeWhenStorable(s, junk, pages);
    var f := Fetch(s, junk, pages);
    if Lifetime(f.cp, f.cacheTime).Some? {
      assert |[Entry(k, Built(f, Lifetime(f.cp, f.cacheTime).value, now))] + list| > |list|;
    }
  }

  /** An entry that needs revalidation, from a response no line of which set a max-age, is never
      reported valid, at any time. */
  lemma NeedRevalidateNeverValid(s: Bytes, junk: Bytes, pages: Pages, written: int, now: int)
    requires Fetch(s, junk, pages).cp == CpNeedRevalidate
    requires forall l :: l in HeadLines(s) ==> !SetsAge(l)
    ensures Lifetime(Fetch(s, junk, pages).cp, Fetch(s, junk, pages).cacheTime) == Some(0)
    ensures Judge(Built(Fetch(s, junk, pages), 0, written), now).status == NeedRevalidate
  {
    FetchFolds(s, junk, pages);
    LastAgeLineDecides(EMPTY_HEAD, HeadLines(s));
  }

  // ---------------------------------------------------------------------
  // Directives that are not always honoured
  // ---------------------------------------------------------------------

  predicate SaysAgeZero(line: Bytes) {
    Contains(line, MAX_AGE) && NumberAfter(line, MAX_AGE) == 0
  }

  /** What the last Cache-Control line must say for its response to be stored. */
  predicate LineStores(line: Bytes) {
    || Contains(line, MUST_REVALIDATE) || Contains(line, NO_CACHE)
    || (&& !Contains(line, NO_STORE) && !Contains(line, CACHE_PRIVATE)
        && (Contains(line, CACHE_IMMU) || (Contains(line, MAX_AGE) && !SaysAgeZero(line))))
  }

  lemma AgeOfLastPolicyLine(lines: seq<Bytes>, j: nat)
    requires LastSuch(lines, j, IsPolicyLine) && LinePolicy(lines[j]) == CpCacheTimeDefined
    ensures Fold(EMPTY_HEAD, lines).cacheTime == NumberAfter(lines[j], MAX_AGE)
  {
    LastAgeLineDecides(EMPTY_HEAD, lines);
    AgeIsReached(lines[j]);
    assert LastSuch(lines, j, SetsAge);
  }

  /** A response with a Cache-Control line is stored if and only if it was not discarded, it fits,
      and its last such line, alone, lets it in. */
  lemma StoredWhenLastLineStores(list: seq<Entry>, k: Key, s: Bytes, junk: Bytes, pages: Pages, now: int, j: nat)
    requires LastSuch(HeadLines(s), j, IsPolicyLine)
    ensures var f := Fetch(s, junk, pages);
            Kept(list, k, f, now) != list <==>
              !f.discarded && |f.text| <= MAX_OBJECT_SIZE && LineStores(HeadLines(s)[j])
  {
    FetchFolds(s, junk, pages);
    LastPolicyLineDecides(EMPTY_HEAD, HeadLines(s));
    StoredWhenStorable(list, k, s, junk, pages, now);
    if LinePolicy(HeadLines(s)[j]) == CpCacheTimeDefined {
      AgeOfLastPolicyLine(HeadLines(s), j);
    }
  }

  /** The entry of a stored response: its key, its text, the time of storing, and a lifetime that is
      a year under immutable, the line's own max-age under max-age, and otherwise the max-age
      of the last line whose max-age counted, or zero. */
  lemma StoredEntryIs(list: seq<Entry>, k: Key, s: Bytes, junk: Bytes, pages: Pages, now: int, j: nat)
    requires LastSuch(HeadLines(s), j, IsPolicyLine)
    requires Kept(list, k, Fetch(s, junk, pages), now) != list
    ensures var kept, lines := Kept(list, k, Fetch(s, junk, pages), now), HeadLines(s);
            var line := lines[j];
            && |kept| == |list| + 1 && kept[1..] == list && kept[0].key == k
            && kept[0].gr.response == Fetch(s, junk, pages).text && kept[0].gr.writeTime == now
            && kept[0].gr.eTag == ETagOf(kept[0].gr.response)
            && if Contains(line, MUST_REVALIDATE) || Contains(line, NO_CACHE) then
                 && (forall i: nat :: LastSuch(lines, i, SetsAge) ==>
                       kept[0].gr.validTime == NumberAfter(lines[i], MAX_AGE))
                 && ((forall l :: l in lines ==> !SetsAge(l)) ==> kept[0].gr.validTime == 0)
               else kept[0].gr.validTime == if Contains(line, CACHE_IMMU) then 31536000 else NumberAfter(line, MAX_AGE)
  {
    FetchFolds(s, junk, pages);
    LastPolicyLineDecides(EMPTY_HEAD, HeadLines(s));
    LifetimeWhenStorable(s, junk, pages);
    StoredWhenStorable(list, k, s, junk, pages, now);
    StoredWhenLastLineStores(list, k, s, junk, pages, now, j);
    LastAgeLineDecides(EMPTY_HEAD, HeadLines(s));
    if LinePolicy(HeadLines(s)[j]) == CpCacheTimeDefined {
      AgeOfLastPolicyLine(HeadLines(s), j);
    }
  }

  /** And one without such a line never is. */
  lemma NotStoredWithoutPolicy(list: seq<Entry>, k: Key, s: Bytes, junk: Bytes, pages: Pages, now: int)
    requires forall l :: l in HeadLines(s) ==> !IsPolicyLine(l)
    ensures Kept(list, k, Fetch(s, junk, pages), now) == list
  {
    FetchFolds(s, junk, pages);
    LastPolicyLineDecides(EMPTY_HEAD, HeadLines(s));
    StoredWhenStorable(list, k, s, junk, pages, now);
  }

  /** The four directives that are documented to prevent storing. */
  predicate Forbids(line: Bytes) {
    Contains(line, MUST_REVALIDATE) || Contains(line, NO_STORE) || Contains(line, NO_CACHE) || SaysAgeZero(line)
  }

  /** A response some Cache-Control line of which has one of the four is stored all the same if and
      only if it was not discarded, it fits, and either that line is the last and lets it in by
      must-revalidate, by no-cache or, next to max-age=0, by immutable, or a later line is the
      last and lets it in. */
  lemma ForbiddenIsStoredWhen(list: seq<Entry>, k: Key, s: Bytes, junk: Bytes, pages: Pages, now: int, i: nat, j: nat)
    requires LastSuch(HeadLines(s), j, IsPolicyLine)
    requires i < |HeadLines(s)| && IsPolicyLine(HeadLines(s)[i]) && Forbids(HeadLines(s)[i])
    ensures var f, line := Fetch(s, junk, pages), HeadLines(s)[j];
            Kept(list, k, f, now) != list <==>
              && !f.discarded && |f.text| <= MAX_OBJECT_SIZE
              && if i < j then LineStores(line)
                 else || Contains(line, MUST_REVALIDATE) || Contains(line, NO_CACHE)
                      || (Contains(line, CACHE_IMMU) && !Contains(line, NO_STORE) && !Contains(line, CACHE_PRIVATE))
  {
    StoredWhenLastLineStores(list, k, s, junk, pages, now, j);
  }

  /** For no-store, on any Cache-Control line: the response is stored if and only if it was not
      discarded, it fits, and that line is the last and says must-revalidate or no-cache as well,
      or a later line is the last and lets it in. */
  lemma NoStoreIsStoredWhen(list: seq<Entry>, k: Key, s: Bytes, junk: Bytes, pages: Pages, now: int, i: nat, j: nat)
    requires LastSuch(HeadLines(s), j, IsPolicyLine)
    requires i < |HeadLines(s)| && IsPolicyLine(HeadLines(s)[i]) && Contains(HeadLines(s)[i], NO_STORE)
    ensures var f, line := Fetch(s, junk, pages), HeadLines(s)[j];
            Kept(list, k, f, now) != list <==>
              && !f.discarded && |f.text| <= MAX_OBJECT_SIZE
              && if i < j then LineStores(line) else Contains(line, MUST_REVALIDATE) || Contains(line, NO_CACHE)
  {
    StoredWhenLastLineStores(list, k, s, junk, pages, now, j);
  }

  lemma LastAgeIsZeroWhen(lines: seq<Bytes>)
    ensures Fold(EMPTY_HEAD, lines).cacheTime == 0 <==>
              forall j: nat :: LastSuch(lines, j, SetsAge) ==> NumberAfter(lines[j], MAX_AGE) == 0
  {
    LastAgeLineDecides(EMPTY_HEAD, lines);
    if l :| l in lines && SetsAge(l) {
      var j := LastExists(lines, l, SetsAge);
    }
  }

  /** The entry built from a fetch is reported stale whenever it was written and is looked up. */
  ghost predicate NeverValid(f: Fetched) {
    forall written: int, now: int :: Judge(Built(f, f.cacheTime, written), now).status == NeedRevalidate
  }

  /** Must-revalidate (or no-cache) counts as max-age=0 when it comes to serving, that is, the entry
      is never reported valid, exactly when no line set a max-age or the last one to do so set
      it to zero. */
  lemma NeedRevalidateIsAgeZeroWhen(s: Bytes, junk: Bytes, pages: Pages)
    requires Fetch(s, junk, pages).cp == CpNeedRevalidate
    ensures var f := Fetch(s, junk, pages);
            && Lifetime(f.cp, f.cacheTime) == Some(f.cacheTime)
            && (NeverValid(f) <==>
                forall j: nat :: LastSuch(HeadLines(s), j, SetsAge) ==> NumberAfter(HeadLines(s)[j], MAX_AGE) == 0)
  {
    FetchFolds(s, junk, pages);
    LastAgeIsZeroWhen(HeadLines(s));
    var f := Fetch(s, junk, pages);
    if f.cacheTime > 0 {
      assert Judge(Built(f, f.cacheTime, 0), 0).status == Valid;
    }
  }

  predicate IsAgeZeroLine(line: Bytes) {
    SetsAge(line) && SaysAgeZero(line)
  }

  /** It does not count as max-age=0 when it comes to storing: it is stored whenever it fits. */
  lemma NeedRevalidateIsKept(list: seq<Entry>, k: Key, s: Bytes, junk: Bytes, pages: Pages, now: int)
    requires Fetch(s, junk, pages).cp == CpNeedRevalidate
    ensures var f := Fetch(s, junk, pages);
            Kept(list, k, f, now) != list <==> |f.text| <= MAX_OBJECT_SIZE
  {
    FetchFolds(s, junk, pages);
    StoredWhenStorable(list, k, s, junk, pages, now);
  }

  /** A response whose last Cache-Control line comes down to max-age=0 never is. */
  lemma AgeZeroIsRefused(list: seq<Entry>, k: Key, s: Bytes, junk: Bytes, pages: Pages, now: int, j: nat)
    requires LastSuch(HeadLines(s), j, IsPolicyLine) && IsAgeZeroLine(HeadLines(s)[j])
    ensures Kept(list, k, Fetch(s, junk, pages), now) == list
  {
    StoredWhenLastLineStores(list, k, s, junk, pages, now, j);
  }

  lemma {:induction false} LastExists(lines: seq<Bytes>, l: Bytes, P: Bytes -> bool) returns (j: nat)
    requires l in lines && P(l)
    ensures LastSuch(lines, j, P)
  {
    var n := |lines| - 1;
    if P(lines[n]) {
      j := n;
    } else {
      assert l in lines[..n];
      j := LastExists(lines[..n], l, P);
    }
  }

  /** A must-revalidate line after a max-age line keeps that lifetime: the response is then
      served unasked for that long. */
  lemma RevalidateAfterAge(first: Bytes, second: Bytes)
    requires SetsAge(first) && IsPolicyLine(second) && LinePolicy(second) == CpNeedRevalidate
    ensures Fold(EMPTY_HEAD, [first, second]).cp == CpNeedRevalidate
    ensures Fold(EMPTY_HEAD, [first, second]).cacheTime == NumberAfter(first, MAX_AGE)
  {
    var lines := [first, second];
    LastPolicyLineDecides(EMPTY_HEAD, lines);
    LastAgeLineDecides(EMPTY_HEAD, lines);
    assert LastSuch(lines, 1, IsPolicyLine) && LastSuch(lines, 0, SetsAge);
  }

  // ---------------------------------------------------------------------
  // The whole answer
  // ---------------------------------------------------------------------

  /** The contents after a fetch. */
  function Kept(list: seq<Entry>, k: Key, f: Fetched, writeTime: int): seq<Entry> {
    if f.discarded then list
    else match Lifetime(f.cp, f.cacheTime)
         case None => list
         case Some(lifetime) => Written(list, k, Built(f, lifetime, writeTime), 0)
  }

  /** The seconds since an entry was written, or none if the clock ran backwards. */
  function Age(gr: GetResponse, now: int): int {
    if gr.writeTime <= now then now - gr.writeTime else 0
  }

  /** Dropping the entries of a key and keeping a new response for it, or none, leaves every other key
      what it had, and the key itself the new response or nothing. */
  lemma OnlyTheKeyChanges(list: seq<Entry>, k: Key, f: Fetched, writeTime: int)
    ensures var dropped, kept := Without(list, k), Kept(Without(list, k), k, f, writeTime);
            && (forall other :: other != k ==>
                  FirstMatch(dropped, other) == FirstMatch(list, other) == FirstMatch(kept, other))
            && NoMatch(dropped, k)
            && (kept == dropped || (|kept| > 0 && kept[1..] == dropped && kept[0].key == k))
  {
    var dropped, kept := Without(list, k), Kept(Without(list, k), k, f, writeTime);
    WithoutFirstMatch(list, k, k);
    FirstMatchNone(dropped, k);
    assert kept != dropped ==> kept[1..] == dropped;
    forall other | other != k
      ensures FirstMatch(dropped, other) == FirstMatch(list, other) == FirstMatch(kept, other)
    {
      WithoutFirstMatch(list, k, other);
    }
  }
}
