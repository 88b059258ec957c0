// Responses an origin can send, worked out in full: they show that what the
// other modules prove of every response is not proved of none, and where the
// documentation fails.
module Samples {
  import opened Wrappers
  import opened Bytes
  import opened CacheSpec
  import opened Rio
  import opened Relay
  import opened GetSpec

  const AGE_LINE: Bytes := Ascii("Cache-Control: max-age=9\r\n")
  const AGE_SIXTY_LINE: Bytes := Ascii("Cache-Control: max-age=60\r\n")
  const AGE_ZERO_LINE: Bytes := Ascii("Cache-Control: max-age=0\r\n")
  const IMMUTABLE_LINE: Bytes := Ascii("Cache-Control: max-age=0, immutable\r\n")
  const REVALIDATE_LINE: Bytes := Ascii("Cache-Control: must-revalidate\r\n")
  const NO_STORE_LINE: Bytes := Ascii("Cache-Control: no-store\r\n")
  const NO_STORE_NO_CACHE_LINE: Bytes := Ascii("Cache-Control: no-store, no-cache\r\n")
  const PRIVATE_LINE: Bytes := Ascii("Cache-Control: private\r\n")
  const TAG_LINE: Bytes := Ascii("ETag: \"7\"\r\n")
  const CHUNKED_LINE: Bytes := Ascii("Transfer-Encoding: chunked\r\n")
  const ZERO_LENGTH_LINE: Bytes := Ascii("Content-Length: 0\r\n")

  // ---------------------------------------------------------------------
  // Where a needle stands
  // ---------------------------------------------------------------------

  predicate Lacks(line: Bytes, c: char) {
    forall i :: 0 <= i < |line| ==> Lower(line[i]) != Byte(c)
  }

  predicate OnlyAt(line: Bytes, c: char, at: nat) {
    forall i :: 0 <= i < |line| && Lower(line[i]) == Byte(c) ==> i == at
  }

  /** A line without a letter of the needle does not contain the needle. */
  lemma LacksNeedle(line: Bytes, needle: Bytes, p: nat, c: char)
    requires p < |needle| && Lower(needle[p]) == Byte(c) && Lacks(line, c)
    ensures !Contains(line, needle)
  {
    forall j: nat ensures !MatchesAt(line, j, needle) {
      if j + |needle| <= |line| {
        assert Lower(line[j + p]) != Lower(needle[p]);
      }
    }
  }

  /** Where that letter occurs once, the needle occurs there or nowhere. */
  lemma OnlyPlace(line: Bytes, needle: Bytes, p: nat, c: char, at: nat)
    requires p < |needle| && Lower(needle[p]) == Byte(c) && OnlyAt(line, c, at + p)
    ensures if MatchesAt(line, at, needle) then Find(line, needle, 0) == at else !Contains(line, needle)
  {
    forall j: nat | MatchesAt(line, j, needle) ensures j == at {
      assert Lower(line[j + p]) == Lower(needle[p]);
    }
  }

  lemma Stands(line: Bytes, needle: Bytes, at: nat)
    requires MatchesAt(line, at, needle)
    ensures Contains(line, needle)
  {
  }

  /** Letters by which a line can be told to lack a field. */
  lemma NeedleLetters()
    ensures |MUST_REVALIDATE| > 7 && Lower(MUST_REVALIDATE[2]) == Byte('s') && Lower(MUST_REVALIDATE[7]) == Byte('v')
    ensures |NO_STORE| > 3 && Lower(NO_STORE[3]) == Byte('s')
    ensures |CACHE_PRIVATE| > 15 && Lower(CACHE_PRIVATE[15]) == Byte('p')
    ensures |CACHE_IMMU| > 0 && Lower(CACHE_IMMU[0]) == Byte('i')
    ensures |NO_CACHE| > 1 && Lower(NO_CACHE[0]) == Byte('n') && Lower(NO_CACHE[1]) == Byte('o')
    ensures |TRANSFER_CHUNKED| > 5 && Lower(TRANSFER_CHUNKED[1]) == Byte('r') && Lower(TRANSFER_CHUNKED[5]) == Byte('f')
    ensures SEPARATOR == [CR, LF]
  {
  }

  lemma FieldLetters()
    ensures |CONTENT_LEN| == 16 && Lower(CONTENT_LEN[0]) == Byte('c') && Lower(CONTENT_LEN[2]) == Byte('n')
    ensures Lower(CONTENT_LEN[4]) == Byte('e')
    ensures Lower(CONTENT_LEN[8]) == Byte('l') && Lower(CONTENT_LEN[11]) == Byte('g')
    ensures |CACHE_CONTROL_FLAG| > 12
    ensures Lower(CACHE_CONTROL_FLAG[0]) == Byte('c') && Lower(CACHE_CONTROL_FLAG[1]) == Byte('a')
    ensures Lower(CACHE_CONTROL_FLAG[12]) == Byte('l')
    ensures |MAX_AGE| == 8 && Lower(MAX_AGE[2]) == Byte('x')
  {
  }

  // ---------------------------------------------------------------------
  // Lines, by what is used of their bytes
  // ---------------------------------------------------------------------

  /** A whole line, without zero bytes, that a line read takes at once. */
  predicate IsLine(line: Bytes) {
    && 0 < |line| < 99 && NUL !in line && line[|line| - 1] == LF
    && forall i :: 0 <= i < |line| - 1 ==> line[i] != LF
  }

  /** A Cache-Control line that speaks of no transfer and no length. */
  predicate PolicyBytes(line: Bytes) {
    && IsLine(line) && |line| > 2 && MatchesAt(line, 0, CACHE_CONTROL_FLAG)
    && Lacks(line, 'f') && Lacks(line, 'g')
  }

  /** A Cache-Control line with none of the directives that come before immutable and max-age. */
  predicate PlainBytes(line: Bytes) {
    && IsLine(line) && |line| > 24 && MatchesAt(line, 0, CACHE_CONTROL_FLAG)
    && Lacks(line, 'f') && Lacks(line, 'p') && Lacks(line, 's') && Lacks(line, 'v')
    && OnlyAt(line, 'n', 8) && line[9] == Byte('t') && line[10] == Byte('r')
  }

  /** One with a max-age of `n`. */
  predicate AgeBytes(line: Bytes, n: nat) {
    && PlainBytes(line) && Lacks(line, 'i') && OnlyAt(line, 'x', 17) && MatchesAt(line, 15, MAX_AGE)
    && line[23..] == Decimal(n) + [CR, LF]
  }

  predicate PrivateBytes(line: Bytes) {
    && PolicyBytes(line) && |line| > 22 && MatchesAt(line, 0, CACHE_PRIVATE)
    && Lacks(line, 's') && OnlyAt(line, 'n', 8) && line[9] == Byte('t')
  }

  predicate TagBytes(line: Bytes) {
    && IsLine(line) && |line| == 11 && MatchesAt(line, 0, ETAG) && Lacks(line, 'c') && Lacks(line, 'r')
    && line[5..9] == Ascii(" \"7\"") && line[9] == CR
  }

  predicate ChunkedBytes(line: Bytes) {
    IsLine(line) && |line| > 2 && MatchesAt(line, 0, TRANSFER_CHUNKED) && Lacks(line, 'l')
  }

  predicate ZeroLengthBytes(line: Bytes) {
    && IsLine(line) && |line| > 17 && MatchesAt(line, 0, CONTENT_LEN) && line[16] == Byte('0') && line[17] == CR
    && Lacks(line, 'a') && Lacks(line, 'r')
  }

  // ---------------------------------------------------------------------
  // The literal lines
  // ---------------------------------------------------------------------

  lemma AgeLetter(i: nat)
    requires i < 26
    ensures |AGE_LINE| == 26 && AGE_LINE[i] != NUL && (AGE_LINE[i] == LF <==> i == 25)
    ensures Lower(AGE_LINE[i]) !in {Byte('f'), Byte('i'), Byte('p'), Byte('s'), Byte('v')}
    ensures (Lower(AGE_LINE[i]) == Byte('n') ==> i == 8) && (Lower(AGE_LINE[i]) == Byte('x') ==> i == 17)
  {
  }

  lemma AgeMatches()
    ensures MatchesAt(AGE_LINE, 0, CACHE_CONTROL_FLAG) && MatchesAt(AGE_LINE, 15, MAX_AGE)
    ensures AGE_LINE[9] == Byte('t') && AGE_LINE[10] == Byte('r') && AGE_LINE[23] == Byte('9') && AGE_LINE[24] == CR
  {
  }

  lemma AgeLine() returns (line: Bytes)
    ensures line == AGE_LINE && |line| == 26 && AgeBytes(line, 9)
  {
    line := AGE_LINE;
    AgeMatches();
    assert line[23..] == Decimal(9) + [CR, LF];
    forall i | 0 <= i < 26
      ensures AGE_LINE[i] != NUL && (AGE_LINE[i] == LF <==> i == 25)
      ensures Lower(AGE_LINE[i]) !in {Byte('f'), Byte('i'), Byte('p'), Byte('s'), Byte('v')}
      ensures (Lower(AGE_LINE[i]) == Byte('n') ==> i == 8) && (Lower(AGE_LINE[i]) == Byte('x') ==> i == 17)
    {
      AgeLetter(i);
    }
  }

  lemma AgeZeroLetter(i: nat)
    requires i < 26
    ensures |AGE_ZERO_LINE| == 26 && AGE_ZERO_LINE[i] != NUL && (AGE_ZERO_LINE[i] == LF <==> i == 25)
    ensures Lower(AGE_ZERO_LINE[i]) !in {Byte('f'), Byte('i'), Byte('p'), Byte('s'), Byte('v')}
    ensures (Lower(AGE_ZERO_LINE[i]) == Byte('n') ==> i == 8) && (Lower(AGE_ZERO_LINE[i]) == Byte('x') ==> i == 17)
  {
  }

  lemma AgeZeroMatches()
    ensures MatchesAt(AGE_ZERO_LINE, 0, CACHE_CONTROL_FLAG) && MatchesAt(AGE_ZERO_LINE, 15, MAX_AGE)
    ensures AGE_ZERO_LINE[9] == Byte('t') && AGE_ZERO_LINE[10] == Byte('r')
    ensures AGE_ZERO_LINE[23] == Byte('0') && AGE_ZERO_LINE[24] == CR
  {
  }

  lemma AgeZeroLine() returns (line: Bytes)
    ensures line == AGE_ZERO_LINE && AgeBytes(line, 0)
  {
    line := AGE_ZERO_LINE;
    AgeZeroMatches();
    forall i | 0 <= i < 26
      ensures AGE_ZERO_LINE[i] != NUL && (AGE_ZERO_LINE[i] == LF <==> i == 25)
      ensures Lower(AGE_ZERO_LINE[i]) !in {Byte('f'), Byte('i'), Byte('p'), Byte('s'), Byte('v')}
      ensures (Lower(AGE_ZERO_LINE[i]) == Byte('n') ==> i == 8) && (Lower(AGE_ZERO_LINE[i]) == Byte('x') ==> i == 17)
    {
      AgeZeroLetter(i);
    }
    AgeZeroLetter(0);
    AgeZeroLetter(25);
    assert line[23..] == Decimal(0) + [CR, LF];
  }

  lemma AgeSixtyLetter(i: nat)
    requires i < 27
    ensures |AGE_SIXTY_LINE| == 27 && AGE_SIXTY_LINE[i] != NUL && (AGE_SIXTY_LINE[i] == LF <==> i == 26)
    ensures Lower(AGE_SIXTY_LINE[i]) !in {Byte('f'), Byte('i'), Byte('p'), Byte('s'), Byte('v')}
    ensures (Lower(AGE_SIXTY_LINE[i]) == Byte('n') ==> i == 8) && (Lower(AGE_SIXTY_LINE[i]) == Byte('x') ==> i == 17)
  {
  }

  lemma AgeSixtyMatches()
    ensures MatchesAt(AGE_SIXTY_LINE, 0, CACHE_CONTROL_FLAG) && MatchesAt(AGE_SIXTY_LINE, 15, MAX_AGE)
    ensures AGE_SIXTY_LINE[9] == Byte('t') && AGE_SIXTY_LINE[10] == Byte('r')
    ensures AGE_SIXTY_LINE[23] == Byte('6') && AGE_SIXTY_LINE[24] == Byte('0') && AGE_SIXTY_LINE[25] == CR
  {
  }

  lemma AgeSixtyLine() returns (line: Bytes)
    ensures line == AGE_SIXTY_LINE && AgeBytes(line, 60)
  {
    line := AGE_SIXTY_LINE;
    AgeSixtyMatches();
    forall i | 0 <= i < 27
      ensures AGE_SIXTY_LINE[i] != NUL && (AGE_SIXTY_LINE[i] == LF <==> i == 26)
      ensures Lower(AGE_SIXTY_LINE[i]) !in {Byte('f'), Byte('i'), Byte('p'), Byte('s'), Byte('v')}
      ensures (Lower(AGE_SIXTY_LINE[i]) == Byte('n') ==> i == 8) && (Lower(AGE_SIXTY_LINE[i]) == Byte('x') ==> i == 17)
    {
      AgeSixtyLetter(i);
    }
    AgeSixtyLetter(0);
    AgeSixtyLetter(26);
    assert Decimal(60) == [54, 48];
    assert line[23..] == Decimal(60) + [CR, LF];
  }

  lemma ImmutableEnd(i: nat)
    requires i < 37
    ensures |IMMUTABLE_LINE| == 37 && IMMUTABLE_LINE[i] != NUL && (IMMUTABLE_LINE[i] == LF <==> i == 36)
  {
  }

  lemma ImmutableLetter(i: nat)
    requires i < |IMMUTABLE_LINE|
    ensures Lower(IMMUTABLE_LINE[i]) !in {Byte('f'), Byte('p')}
    ensures Lower(IMMUTABLE_LINE[i]) == Byte('n') ==> i == 8
  {
  }

  lemma ImmutableOtherLetter(i: nat)
    requires i < |IMMUTABLE_LINE|
    ensures Lower(IMMUTABLE_LINE[i]) !in {Byte('s'), Byte('v')}
  {
  }

  lemma ImmutableFlag()
    ensures MatchesAt(IMMUTABLE_LINE, 0, CACHE_CONTROL_FLAG)
  {
  }

  lemma ImmutableMatches()
    ensures MatchesAt(IMMUTABLE_LINE, 26, CACHE_IMMU)
    ensures IMMUTABLE_LINE[9] == Byte('t') && IMMUTABLE_LINE[10] == Byte('r')
  {
  }

  lemma ImmutableLine() returns (line: Bytes)
    ensures line == IMMUTABLE_LINE && PlainBytes(line) && MatchesAt(line, 26, CACHE_IMMU)
  {
    line := IMMUTABLE_LINE;
    ImmutableFlag();
    ImmutableMatches();
    ImmutableEnd(0);
    forall i | 0 <= i < 37
      ensures IMMUTABLE_LINE[i] != NUL && (IMMUTABLE_LINE[i] == LF <==> i == 36)
      ensures Lower(IMMUTABLE_LINE[i]) !in {Byte('f'), Byte('p'), Byte('s'), Byte('v')}
      ensures Lower(IMMUTABLE_LINE[i]) == Byte('n') ==> i == 8
    {
      ImmutableEnd(i);
      ImmutableLetter(i);
      ImmutableOtherLetter(i);
    }
  }

  lemma RevalidateLetter(i: nat)
    requires i < 32
    ensures |REVALIDATE_LINE| == 32 && REVALIDATE_LINE[i] != NUL && (REVALIDATE_LINE[i] == LF <==> i == 31)
    ensures Lower(REVALIDATE_LINE[i]) !in {Byte('f'), Byte('g')}
  {
  }

  lemma RevalidateMatches()
    ensures MatchesAt(REVALIDATE_LINE, 0, CACHE_CONTROL_FLAG) && MatchesAt(REVALIDATE_LINE, 15, MUST_REVALIDATE)
  {
  }

  lemma RevalidateLine() returns (line: Bytes)
    ensures line == REVALIDATE_LINE && PolicyBytes(line) && MatchesAt(line, 15, MUST_REVALIDATE)
  {
    line := REVALIDATE_LINE;
    RevalidateMatches();
    forall i | 0 <= i < 32
      ensures REVALIDATE_LINE[i] != NUL && (REVALIDATE_LINE[i] == LF <==> i == 31)
      ensures Lower(REVALIDATE_LINE[i]) !in {Byte('f'), Byte('g')}
    {
      RevalidateLetter(i);
    }
  }

  lemma NoStoreLetter(i: nat)
    requires i < 25
    ensures |NO_STORE_LINE| == 25 && NO_STORE_LINE[i] != NUL && (NO_STORE_LINE[i] == LF <==> i == 24)
    ensures Lower(NO_STORE_LINE[i]) !in {Byte('f'), Byte('g')}
  {
  }

  lemma NoStoreMatches()
    ensures MatchesAt(NO_STORE_LINE, 0, CACHE_CONTROL_FLAG) && MatchesAt(NO_STORE_LINE, 15, NO_STORE)
  {
  }

  lemma NoStoreLine() returns (line: Bytes)
    ensures line == NO_STORE_LINE && PolicyBytes(line) && MatchesAt(line, 15, NO_STORE)
  {
    line := NO_STORE_LINE;
    NoStoreMatches();
    forall i | 0 <= i < 25
      ensures NO_STORE_LINE[i] != NUL && (NO_STORE_LINE[i] == LF <==> i == 24)
      ensures Lower(NO_STORE_LINE[i]) !in {Byte('f'), Byte('g')}
    {
      NoStoreLetter(i);
    }
  }

  lemma NoStoreNoCacheLetter(i: nat)
    requires i < 35
    ensures |NO_STORE_NO_CACHE_LINE| == 35 && NO_STORE_NO_CACHE_LINE[i] != NUL
    ensures NO_STORE_NO_CACHE_LINE[i] == LF <==> i == 34
    ensures Lower(NO_STORE_NO_CACHE_LINE[i]) !in {Byte('f'), Byte('g')}
  {
  }

  lemma NoStoreNoCacheFlag()
    ensures MatchesAt(NO_STORE_NO_CACHE_LINE, 0, CACHE_CONTROL_FLAG)
  {
  }

  lemma NoStoreNoCacheMatches()
    ensures MatchesAt(NO_STORE_NO_CACHE_LINE, 15, NO_STORE) && MatchesAt(NO_STORE_NO_CACHE_LINE, 25, NO_CACHE)
  {
  }

  lemma NoStoreNoCacheLine() returns (line: Bytes)
    ensures line == NO_STORE_NO_CACHE_LINE && PolicyBytes(line)
    ensures MatchesAt(line, 15, NO_STORE) && MatchesAt(line, 25, NO_CACHE)
  {
    line := NO_STORE_NO_CACHE_LINE;
    NoStoreNoCacheFlag();
    NoStoreNoCacheMatches();
    forall i | 0 <= i < 35
      ensures NO_STORE_NO_CACHE_LINE[i] != NUL && (NO_STORE_NO_CACHE_LINE[i] == LF <==> i == 34)
      ensures Lower(NO_STORE_NO_CACHE_LINE[i]) !in {Byte('f'), Byte('g')}
    {
      NoStoreNoCacheLetter(i);
    }
  }

  lemma PrivateLetter(i: nat)
    requires i < 24
    ensures |PRIVATE_LINE| == 24 && PRIVATE_LINE[i] != NUL && (PRIVATE_LINE[i] == LF <==> i == 23)
    ensures Lower(PRIVATE_LINE[i]) !in {Byte('f'), Byte('g'), Byte('s')}
    ensures Lower(PRIVATE_LINE[i]) == Byte('n') ==> i == 8
  {
  }

  lemma PrivateMatches()
    ensures MatchesAt(PRIVATE_LINE, 0, CACHE_CONTROL_FLAG) && MatchesAt(PRIVATE_LINE, 0, CACHE_PRIVATE)
    ensures PRIVATE_LINE[9] == Byte('t')
  {
  }

  lemma PrivateLine() returns (line: Bytes)
    ensures line == PRIVATE_LINE && PrivateBytes(line)
  {
    line := PRIVATE_LINE;
    PrivateMatches();
    forall i | 0 <= i < 24
      ensures PRIVATE_LINE[i] != NUL && (PRIVATE_LINE[i] == LF <==> i == 23)
      ensures Lower(PRIVATE_LINE[i]) !in {Byte('f'), Byte('g'), Byte('s')}
      ensures Lower(PRIVATE_LINE[i]) == Byte('n') ==> i == 8
    {
      PrivateLetter(i);
    }
  }

  lemma TagLetter(i: nat)
    requires i < 11
    ensures |TAG_LINE| == 11 && TAG_LINE[i] != NUL && (TAG_LINE[i] == LF <==> i == 10)
    ensures Lower(TAG_LINE[i]) !in {Byte('c'), Byte('r')}
  {
  }

  lemma TagLine() returns (line: Bytes)
    ensures line == TAG_LINE && TagBytes(line)
  {
    line := TAG_LINE;
    forall i | 0 <= i < 11
      ensures TAG_LINE[i] != NUL && (TAG_LINE[i] == LF <==> i == 10) && Lower(TAG_LINE[i]) !in {Byte('c'), Byte('r')}
    {
      TagLetter(i);
    }
  }

  lemma AgeLetterG(i: nat)
    requires i < |AGE_LINE|
    ensures Lower(AGE_LINE[i]) == Byte('g') ==> i == 20
    ensures Lower(AGE_LINE[17]) == Byte('x')
  {
  }

  lemma ChunkedLetter(i: nat)
    requires i < 28
    ensures |CHUNKED_LINE| == 28 && CHUNKED_LINE[i] != NUL && (CHUNKED_LINE[i] == LF <==> i == 27)
    ensures Lower(CHUNKED_LINE[i]) != Byte('l')
  {
  }

  lemma ChunkedLine() returns (line: Bytes)
    ensures line == CHUNKED_LINE && |line| == 28 && ChunkedBytes(line)
  {
    line := CHUNKED_LINE;
    forall i | 0 <= i < 28
      ensures CHUNKED_LINE[i] != NUL && (CHUNKED_LINE[i] == LF <==> i == 27) && Lower(CHUNKED_LINE[i]) != Byte('l')
    {
      ChunkedLetter(i);
    }
  }

  lemma ZeroLengthLetter(i: nat)
    requires i < 19
    ensures |ZERO_LENGTH_LINE| == 19 && ZERO_LENGTH_LINE[i] != NUL && (ZERO_LENGTH_LINE[i] == LF <==> i == 18)
    ensures Lower(ZERO_LENGTH_LINE[i]) !in {Byte('a'), Byte('r')}
  {
  }

  lemma ZeroLengthLine() returns (line: Bytes)
    ensures line == ZERO_LENGTH_LINE && ZeroLengthBytes(line)
  {
    line := ZERO_LENGTH_LINE;
    forall i | 0 <= i < 19
      ensures ZERO_LENGTH_LINE[i] != NUL && (ZERO_LENGTH_LINE[i] == LF <==> i == 18)
      ensures Lower(ZERO_LENGTH_LINE[i]) !in {Byte('a'), Byte('r')}
    {
      ZeroLengthLetter(i);
    }
  }

  // ---------------------------------------------------------------------
  // What the header scan makes of a line
  // ---------------------------------------------------------------------

  /** Neither chunked nor counted. */
  predicate SaysNothingOfBody(line: Bytes) {
    !Contains(line, TRANSFER_CHUNKED) && !Contains(line, CONTENT_LEN)
  }

  lemma PolicyLineSaysNothing(line: Bytes)
    requires PolicyBytes(line)
    ensures IsPolicyLine(line) && SaysNothingOfBody(line)
  {
    NeedleLetters();
    FieldLetters();
    Stands(line, CACHE_CONTROL_FLAG, 0);
    LacksNeedle(line, TRANSFER_CHUNKED, 5, 'f');
    LacksNeedle(line, CONTENT_LEN, 11, 'g');
  }

  /** The only "n" of the line is followed by "tr". */
  lemma PlainLineTurnsAway(line: Bytes, needle: Bytes, p: nat, q: nat)
    requires PlainBytes(line) && p <= 8 && p < q <= p + 2 && q < |needle|
    requires Lower(needle[p]) == Byte('n') && Lower(needle[q]) != line[8 + q - p]
    ensures !Contains(line, needle)
  {
    OnlyPlace(line, needle, p, 'n', 8 - p);
    assert Lower(line[8 - p + q]) == line[8 + q - p];
  }

  lemma PlainLineHasNoLength(line: Bytes)
    requires PlainBytes(line)
    ensures !Contains(line, CONTENT_LEN)
  {
    FieldLetters();
    PlainLineTurnsAway(line, CONTENT_LEN, 2, 4);
  }

  lemma PlainLineSaysNothing(line: Bytes)
    requires PlainBytes(line)
    ensures IsPolicyLine(line) && SaysNothingOfBody(line)
  {
    NeedleLetters();
    Stands(line, CACHE_CONTROL_FLAG, 0);
    LacksNeedle(line, TRANSFER_CHUNKED, 5, 'f');
    PlainLineHasNoLength(line);
  }

  lemma PlainLineAllowsCache(line: Bytes)
    requires PlainBytes(line)
    ensures !Contains(line, NO_CACHE)
  {
    NeedleLetters();
    PlainLineTurnsAway(line, NO_CACHE, 0, 1);
  }

  /** No directive that comes before immutable and max-age. */
  lemma PlainLineIsPlain(line: Bytes)
    requires PlainBytes(line)
    ensures !Contains(line, MUST_REVALIDATE) && !Contains(line, NO_CACHE)
    ensures !Contains(line, NO_STORE) && !Contains(line, CACHE_PRIVATE)
  {
    NeedleLetters();
    PlainLineAllowsCache(line);
    LacksNeedle(line, MUST_REVALIDATE, 7, 'v');
    LacksNeedle(line, NO_STORE, 3, 's');
    LacksNeedle(line, CACHE_PRIVATE, 15, 'p');
  }

  lemma AgeLineSays(line: Bytes, n: nat)
    requires AgeBytes(line, n)
    ensures Contains(line, MAX_AGE) && NumberAfter(line, MAX_AGE) == n
  {
    FieldLetters();
    OnlyPlace(line, MAX_AGE, 2, 'x', 15);
    DigitsAreDecimal(n, [CR, LF]);
  }

  lemma AgeLinePolicy(line: Bytes, n: nat)
    requires AgeBytes(line, n)
    ensures LinePolicy(line) == CpCacheTimeDefined
  {
    PlainLineIsPlain(line);
    NeedleLetters();
    LacksNeedle(line, CACHE_IMMU, 0, 'i');
    AgeLineSays(line, n);
  }

  /** What a line that says nothing of the body adds to a head. */
  lemma HeadOfPolicyLine(h: Head, line: Bytes)
    requires IsPolicyLine(line) && SaysNothingOfBody(line)
    ensures HeadLine(h, line).text == h.text + line && HeadLine(h, line).cp == LinePolicy(line)
    ensures LinePolicy(line) == CpCacheTimeDefined ==> HeadLine(h, line).cacheTime == NumberAfter(line, MAX_AGE)
    ensures LinePolicy(line) != CpCacheTimeDefined ==> HeadLine(h, line).cacheTime == h.cacheTime
    ensures HeadLine(h, line).chunked == h.chunked && HeadLine(h, line).contentLength == h.contentLength
  {
  }

  lemma HeadOfAgeLine(h: Head, line: Bytes, n: nat)
    requires AgeBytes(line, n)
    ensures HeadLine(h, line) == Head(h.text + line, CpCacheTimeDefined, n, h.chunked, h.contentLength)
  {
    PlainLineSaysNothing(line);
    AgeLineSays(line, n);
    AgeLinePolicy(line, n);
    HeadOfPolicyLine(h, line);
  }

  lemma HeadOfImmutableLine(h: Head, line: Bytes)
    requires PlainBytes(line) && MatchesAt(line, 26, CACHE_IMMU)
    ensures HeadLine(h, line) == Head(h.text + line, CpNeverExpired, h.cacheTime, h.chunked, h.contentLength)
  {
    PlainLineSaysNothing(line);
    PlainLineIsPlain(line);
    Stands(line, CACHE_IMMU, 26);
    HeadOfPolicyLine(h, line);
  }

  lemma HeadOfRevalidatingLine(h: Head, line: Bytes)
    requires PolicyBytes(line) && (Contains(line, MUST_REVALIDATE) || Contains(line, NO_CACHE))
    ensures HeadLine(h, line) == Head(h.text + line, CpNeedRevalidate, h.cacheTime, h.chunked, h.contentLength)
  {
    PolicyLineSaysNothing(line);
    HeadOfPolicyLine(h, line);
  }

  /** The only "n" of the line is followed by "t". */
  lemma PrivateLineTurnsAway(line: Bytes, needle: Bytes)
    requires PrivateBytes(line) && |needle| > 1 && Lower(needle[0]) == Byte('n') && Lower(needle[1]) == Byte('o')
    ensures !Contains(line, needle)
  {
    OnlyPlace(line, needle, 0, 'n', 8);
    assert Lower(line[8 + 1]) == Byte('t');
  }

  lemma HeadOfPrivateLine(h: Head, line: Bytes)
    requires PrivateBytes(line)
    ensures HeadLine(h, line) == Head(h.text + line, CpPrivate, h.cacheTime, h.chunked, h.contentLength)
  {
    NeedleLetters();
    FieldLetters();
    PolicyLineSaysNothing(line);
    PrivateLineTurnsAway(line, NO_CACHE);
    LacksNeedle(line, MUST_REVALIDATE, 2, 's');
    LacksNeedle(line, NO_STORE, 3, 's');
    Stands(line, CACHE_PRIVATE, 0);
    HeadOfPolicyLine(h, line);
  }

  lemma HeadOfTagLine(h: Head, line: Bytes)
    requires TagBytes(line)
    ensures HeadLine(h, line) == Head(h.text + line, h.cp, h.cacheTime, h.chunked, h.contentLength)
  {
    NeedleLetters();
    FieldLetters();
    LacksNeedle(line, CACHE_CONTROL_FLAG, 0, 'c');
    LacksNeedle(line, TRANSFER_CHUNKED, 1, 'r');
    LacksNeedle(line, CONTENT_LEN, 0, 'c');
  }

  lemma HeadOfChunkedLine(h: Head, line: Bytes)
    requires ChunkedBytes(line)
    ensures SaysChunked(line)
    ensures HeadLine(h, line) == Head(h.text + line, h.cp, h.cacheTime, true, h.contentLength)
  {
    FieldLetters();
    Stands(line, TRANSFER_CHUNKED, 0);
    LacksNeedle(line, CACHE_CONTROL_FLAG, 12, 'l');
    LacksNeedle(line, CONTENT_LEN, 8, 'l');
  }

  lemma ZeroLengthSays(line: Bytes)
    requires ZeroLengthBytes(line)
    ensures SaysLength(line) && NumberAfter(line, CONTENT_LEN) == 0
  {
    FieldLetters();
    Stands(line, CONTENT_LEN, 0);
    assert Find(line, CONTENT_LEN, 0) == 0;
    assert line[16..] == Decimal(0) + line[17..];
    DigitsAreDecimal(0, line[17..]);
  }

  lemma HeadOfZeroLengthLine(h: Head, line: Bytes)
    requires ZeroLengthBytes(line)
    ensures HeadLine(h, line) == Head(h.text + line, h.cp, h.cacheTime, h.chunked, 0)
  {
    NeedleLetters();
    FieldLetters();
    ZeroLengthSays(line);
    LacksNeedle(line, CACHE_CONTROL_FLAG, 1, 'a');
    LacksNeedle(line, TRANSFER_CHUNKED, 1, 'r');
  }

  lemma HeadOfShortLine(h: Head, line: Bytes)
    requires |line| == 2
    ensures HeadLine(h, line) == Head(h.text + line, h.cp, h.cacheTime, h.chunked, h.contentLength)
  {
  }

  // ---------------------------------------------------------------------
  // The scan of a few lines
  // ---------------------------------------------------------------------

  /** The scan of a stream that starts with a line. */
  lemma ScanLine(h: Head, line: Bytes, rest: Bytes)
    requires IsLine(line)
    ensures Scan(h, line + rest) ==
            if line == SEPARATOR then (HeadLine(h, line), rest) else Scan(HeadLine(h, line), rest)
  {
    var s := line + rest;
    assert s[..|line|] == line && s[|line|..] == rest;
    assert s[..|line| - 1] == line[..|line| - 1];
    LineLengthIs(s, MAXLINE, |line|);
  }

  lemma TwoLines(h: Head, first: Bytes, last: Bytes, rest: Bytes)
    requires IsLine(first) && |first| > 2 && last == SEPARATOR == [CR, LF]
    ensures Scan(h, first + (last + rest)) == (HeadLine(HeadLine(h, first), last), rest)
  {
    ScanLine(h, first, last + rest);
    ScanLine(HeadLine(h, first), last, rest);
  }

  lemma ThreeLines(h: Head, first: Bytes, second: Bytes, last: Bytes, rest: Bytes)
    requires IsLine(first) && IsLine(second) && |first| > 2 && |second| > 2 && last == SEPARATOR == [CR, LF]
    ensures Scan(h, first + (second + (last + rest))) == (HeadLine(HeadLine(HeadLine(h, first), second), last), rest)
  {
    ScanLine(h, first, second + (last + rest));
    TwoLines(HeadLine(h, first), second, last, rest);
  }

  /** The header of one line and the separator. */
  lemma ScanOne(line: Bytes, h: Head, rest: Bytes) returns (head: Bytes)
    requires IsLine(line) && |line| > 2 && h == HeadLine(EMPTY_HEAD, line)
    ensures Scan(EMPTY_HEAD, line + (SEPARATOR + rest)) == (h.(text := head), rest)
    ensures head == h.text + SEPARATOR
  {
    NeedleLetters();
    head := h.text + SEPARATOR;
    HeadOfShortLine(h, SEPARATOR);
    TwoLines(EMPTY_HEAD, line, SEPARATOR, rest);
  }

  /** The header of two lines and the separator. */
  lemma ScanTwo(first: Bytes, second: Bytes, h: Head, rest: Bytes) returns (head: Bytes)
    requires IsLine(first) && IsLine(second) && |first| > 2 && |second| > 2
    requires h == HeadLine(HeadLine(EMPTY_HEAD, first), second)
    ensures Scan(EMPTY_HEAD, first + (second + (SEPARATOR + rest))) == (h.(text := head), rest)
    ensures head == h.text + SEPARATOR
  {
    NeedleLetters();
    head := h.text + SEPARATOR;
    HeadOfShortLine(h, SEPARATOR);
    ThreeLines(EMPTY_HEAD, first, second, SEPARATOR, rest);
  }

  // ---------------------------------------------------------------------
  // A chunked response with a lifetime of nine seconds
  // ---------------------------------------------------------------------

  predicate IsSample(s: Bytes, head: Bytes, body: Bytes) {
    && |head| == 56 && NUL !in head
    && Scan(EMPTY_HEAD, s) == (Head(head, CpCacheTimeDefined, 9, true, 0), body)
  }

  lemma SampleOf(body: Bytes) returns (s: Bytes, head: Bytes)
    ensures s == AGE_LINE + (CHUNKED_LINE + (SEPARATOR + body)) && IsSample(s, head, body)
  {
    var age := AgeLine();
    var chunked := ChunkedLine();
    s, head := Sample(age, chunked, body);
  }

  lemma Sample(age: Bytes, chunked: Bytes, body: Bytes) returns (s: Bytes, head: Bytes)
    requires AgeBytes(age, 9) && |age| == 26 && ChunkedBytes(chunked) && |chunked| == 28
    ensures s == age + (chunked + (SEPARATOR + body)) && IsSample(s, head, body)
  {
    s := age + (chunked + (SEPARATOR + body));
    HeadOfAgeLine(EMPTY_HEAD, age, 9);
    HeadOfChunkedLine(HeadLine(EMPTY_HEAD, age), chunked);
    NeedleLetters();
    head := ScanTwo(age, chunked, HeadLine(HeadLine(EMPTY_HEAD, age), chunked), body);
  }

  /** A sample is kept for nine seconds, and is what the client was sent if its body is text. */
  lemma SampleFetch(s: Bytes, head: Bytes, body: Bytes, junk: Bytes, pages: Pages)
    requires IsSample(s, head, body)
    ensures Fetch(s, junk, pages) == Fetched(head + body, head + ChunkedData(body), false, CpCacheTimeDefined, 9)
    ensures Fetch(s, junk, pages).text == Fetch(s, junk, pages).sent <==> NUL !in body
    ensures Storable(Fetch(s, junk, pages)) && Lifetime(CpCacheTimeDefined, 9) == Some(9)
  {
    ChunkedDataIsStream(body);
    SameSuffix(head, ChunkedData(body), body);
  }

  /** A response of exactly the largest accepted size, which is stored as it was sent. */
  lemma FullSample(junk: Bytes, pages: Pages) returns (s: Bytes)
    ensures var f := Fetch(s, junk, pages);
            && f.text == f.sent && |f.text| == MAX_OBJECT_SIZE
            && !f.discarded && f.cp == CpCacheTimeDefined && f.cacheTime == 9
    ensures Scan(EMPTY_HEAD, s).0.contentLength == 0
  {
    var body := LongText(MAX_OBJECT_SIZE - 56);
    var head;
    s, head := SampleOf(body);
    SampleFetch(s, head, body, junk, pages);
  }

  lemma LongText(n: nat) returns (body: Bytes)
    ensures |body| == n && NUL !in body
  {
    body := seq(n, _ => Byte('a'));
  }

  /** A response that is stored for nine seconds and is not what its first client was sent: its
      body is a single zero byte. */
  lemma ReplayThatDiffers(list: seq<Entry>, k: Key, junk: Bytes, pages: Pages, now: int) returns (s: Bytes)
    ensures s == AGE_LINE + (CHUNKED_LINE + (SEPARATOR + [NUL]))
    ensures Fetch(s, junk, pages).text != Fetch(s, junk, pages).sent
    ensures Kept(list, k, Fetch(s, junk, pages), now) == [Entry(k, Built(Fetch(s, junk, pages), 9, now))] + list
  {
    var head;
    s, head := SampleOf([NUL]);
    SampleFetch(s, head, [NUL], junk, pages);
    ChunkedDataIsStream([NUL]);
    StoredWhenStorable(list, k, s, junk, pages, now);
  }

  // ---------------------------------------------------------------------
  // Responses that end with their header
  // ---------------------------------------------------------------------

  predicate IsBare(s: Bytes, cp: CachePolicy, age: nat) {
    var (h, rest) := Scan(EMPTY_HEAD, s);
    |h.text| < 500 && h == Head(h.text, cp, age, false, 0) && rest == []
  }

  /** They are stored for the lifetime their policy gives, if it gives one. */
  lemma BareIsKept(s: Bytes, cp: CachePolicy, age: nat, list: seq<Entry>, k: Key, junk: Bytes, pages: Pages, now: int)
    requires IsBare(s, cp, age)
    ensures Kept(list, k, Fetch(s, junk, pages), now) ==
            match Lifetime(cp, age)
            case None => list
            case Some(lifetime) => [Entry(k, Built(Fetch(s, junk, pages), lifetime, now))] + list
  {
    assert |KeptBody([], 0, junk)| == 0;
  }

  lemma BareOne(line: Bytes, cp: CachePolicy, age: nat) returns (s: Bytes)
    requires IsLine(line) && |line| > 2 && HeadLine(EMPTY_HEAD, line) == Head([] + line, cp, age, false, 0)
    ensures s == line + (SEPARATOR + []) && IsBare(s, cp, age)
  {
    NeedleLetters();
    s := line + (SEPARATOR + []);
    var head := ScanOne(line, HeadLine(EMPTY_HEAD, line), []);
  }

  lemma BareTwo(first: Bytes, second: Bytes, cp: CachePolicy, age: nat) returns (s: Bytes)
    requires IsLine(first) && IsLine(second) && |first| > 2 && |second| > 2
    requires HeadLine(HeadLine(EMPTY_HEAD, first), second) == Head([] + first + second, cp, age, false, 0)
    ensures s == first + (second + (SEPARATOR + [])) && IsBare(s, cp, age)
  {
    NeedleLetters();
    s := first + (second + (SEPARATOR + []));
    var head := ScanTwo(first, second, HeadLine(HeadLine(EMPTY_HEAD, first), second), []);
  }

  lemma BareAge(line: Bytes, n: nat) returns (s: Bytes)
    requires AgeBytes(line, n)
    ensures s == line + (SEPARATOR + []) && IsBare(s, CpCacheTimeDefined, n)
  {
    HeadOfAgeLine(EMPTY_HEAD, line, n);
    s := BareOne(line, CpCacheTimeDefined, n);
  }

  lemma BareAgeRevalidate(age: Bytes, revalidate: Bytes) returns (s: Bytes)
    requires AgeBytes(age, 9) && PolicyBytes(revalidate) && |revalidate| > 30
    requires MatchesAt(revalidate, 15, MUST_REVALIDATE)
    ensures s == age + (revalidate + (SEPARATOR + [])) && IsBare(s, CpNeedRevalidate, 9)
  {
    HeadOfAgeLine(EMPTY_HEAD, age, 9);
    Stands(revalidate, MUST_REVALIDATE, 15);
    HeadOfRevalidatingLine(HeadLine(EMPTY_HEAD, age), revalidate);
    s := BareTwo(age, revalidate, CpNeedRevalidate, 9);
  }

  lemma BareRevalidate(line: Bytes, needle: Bytes, at: nat) returns (s: Bytes)
    requires PolicyBytes(line) && MatchesAt(line, at, needle) && (needle == MUST_REVALIDATE || needle == NO_CACHE)
    ensures s == line + (SEPARATOR + []) && IsBare(s, CpNeedRevalidate, 0)
  {
    Stands(line, needle, at);
    HeadOfRevalidatingLine(EMPTY_HEAD, line);
    s := BareOne(line, CpNeedRevalidate, 0);
  }

  lemma BarePolicyAge(line: Bytes, age: Bytes) returns (s: Bytes)
    requires PolicyBytes(line) && AgeBytes(age, 9)
    ensures s == line + (age + (SEPARATOR + [])) && IsBare(s, CpCacheTimeDefined, 9)
  {
    PolicyLineSaysNothing(line);
    HeadOfPolicyLine(EMPTY_HEAD, line);
    HeadOfAgeLine(HeadLine(EMPTY_HEAD, line), age, 9);
    s := BareTwo(line, age, CpCacheTimeDefined, 9);
  }

  /** A must-revalidate line that does not count as max-age=0: a line with a max-age of nine
      stands before it, and the response is stored for nine seconds. */
  lemma MustRevalidateThatIsServed(list: seq<Entry>, k: Key, junk: Bytes, pages: Pages, now: int) returns (s: Bytes)
    ensures s == AGE_LINE + (REVALIDATE_LINE + (SEPARATOR + []))
    ensures Kept(list, k, Fetch(s, junk, pages), now) == [Entry(k, Built(Fetch(s, junk, pages), 9, now))] + list
  {
    var age := AgeLine();
    var revalidate := RevalidateLine();
    s := BareAgeRevalidate(age, revalidate);
    BareIsKept(s, CpNeedRevalidate, 9, list, k, junk, pages, now);
  }

  /** A must-revalidate line alone: the response is stored, with a lifetime of zero. */
  lemma MustRevalidateThatIsStored(list: seq<Entry>, k: Key, junk: Bytes, pages: Pages, now: int) returns (s: Bytes)
    ensures s == REVALIDATE_LINE + (SEPARATOR + [])
    ensures Kept(list, k, Fetch(s, junk, pages), now) == [Entry(k, Built(Fetch(s, junk, pages), 0, now))] + list
  {
    var line := RevalidateLine();
    s := BareRevalidate(line, MUST_REVALIDATE, 15);
    BareIsKept(s, CpNeedRevalidate, 0, list, k, junk, pages, now);
  }

  /** A max-age=0 line alone: the response is not stored. */
  lemma AgeZeroThatIsRefused(list: seq<Entry>, k: Key, junk: Bytes, pages: Pages, now: int) returns (s: Bytes)
    ensures s == AGE_ZERO_LINE + (SEPARATOR + []) && Kept(list, k, Fetch(s, junk, pages), now) == list
  {
    var line := AgeZeroLine();
    s := BareAge(line, 0);
    BareIsKept(s, CpCacheTimeDefined, 0, list, k, junk, pages, now);
  }

  /** A max-age=0 that is stored for a year: the line says immutable as well. */
  lemma AgeZeroThatIsStored(list: seq<Entry>, k: Key, junk: Bytes, pages: Pages, now: int) returns (s: Bytes)
    ensures s == IMMUTABLE_LINE + (SEPARATOR + [])
    ensures Kept(list, k, Fetch(s, junk, pages), now) ==
            [Entry(k, Built(Fetch(s, junk, pages), YEAR_IN_SECOND, now))] + list
  {
    var line := ImmutableLine();
    HeadOfImmutableLine(EMPTY_HEAD, line);
    s := BareOne(line, CpNeverExpired, 0);
    BareIsKept(s, CpNeverExpired, 0, list, k, junk, pages, now);
  }

  /** A response that says no-store and is stored: the line says no-cache as well. */
  lemma NoStoreThatIsStored(list: seq<Entry>, k: Key, junk: Bytes, pages: Pages, now: int)
    returns (line: Bytes, s: Bytes)
    ensures line == NO_STORE_NO_CACHE_LINE && Contains(line, NO_STORE) && s == line + (SEPARATOR + [])
    ensures Kept(list, k, Fetch(s, junk, pages), now) == [Entry(k, Built(Fetch(s, junk, pages), 0, now))] + list
  {
    line := NoStoreNoCacheLine();
    Stands(line, NO_STORE, 15);
    s := BareRevalidate(line, NO_CACHE, 25);
    BareIsKept(s, CpNeedRevalidate, 0, list, k, junk, pages, now);
  }

  /** Another: a later Cache-Control line sets a max-age. */
  lemma NoStoreThatIsOverridden(list: seq<Entry>, k: Key, junk: Bytes, pages: Pages, now: int)
    returns (line: Bytes, s: Bytes)
    ensures line == NO_STORE_LINE && Contains(line, NO_STORE) && s == line + (AGE_LINE + (SEPARATOR + []))
    ensures Kept(list, k, Fetch(s, junk, pages), now) == [Entry(k, Built(Fetch(s, junk, pages), 9, now))] + list
  {
    line := NoStoreLine();
    var age := AgeLine();
    Stands(line, NO_STORE, 15);
    s := BarePolicyAge(line, age);
    BareIsKept(s, CpCacheTimeDefined, 9, list, k, junk, pages, now);
  }

  /** A response that is both chunked and counted, and is not refused: its length is zero. */
  lemma BothThatAreAccepted(junk: Bytes, pages: Pages) returns (chunked: Bytes, length: Bytes, s: Bytes)
    ensures SaysChunked(chunked) && SaysLength(length)
    ensures chunked == CHUNKED_LINE && length == ZERO_LENGTH_LINE && s == chunked + (length + (SEPARATOR + []))
    ensures !Fetch(s, junk, pages).discarded
  {
    chunked := ChunkedLine();
    length := ZeroLengthLine();
    HeadOfChunkedLine(EMPTY_HEAD, chunked);
    ZeroLengthSays(length);
    HeadOfZeroLengthLine(HeadLine(EMPTY_HEAD, chunked), length);
    s := chunked + (length + (SEPARATOR + []));
    var head := ScanTwo(chunked, length, HeadLine(HeadLine(EMPTY_HEAD, chunked), length), []);
  }

  /** A max-age of more than one digit: the response is stored for sixty seconds. */
  lemma AgeSixtyIsStored(list: seq<Entry>, k: Key, junk: Bytes, pages: Pages, now: int) returns (s: Bytes)
    ensures s == AGE_SIXTY_LINE + (SEPARATOR + [])
    ensures Kept(list, k, Fetch(s, junk, pages), now) == [Entry(k, Built(Fetch(s, junk, pages), 60, now))] + list
  {
    var line := AgeSixtyLine();
    s := BareAge(line, 60);
    BareIsKept(s, CpCacheTimeDefined, 60, list, k, junk, pages, now);
  }

  /** A private response is not stored. */
  lemma PrivateIsRefused(list: seq<Entry>, k: Key, junk: Bytes, pages: Pages, now: int) returns (s: Bytes)
    ensures s == PRIVATE_LINE + (SEPARATOR + []) && Kept(list, k, Fetch(s, junk, pages), now) == list
  {
    var line := PrivateLine();
    HeadOfPrivateLine(EMPTY_HEAD, line);
    s := BareOne(line, CpPrivate, 0);
    BareIsKept(s, CpPrivate, 0, list, k, junk, pages, now);
  }

  lemma TagFound(age: Bytes, tag: Bytes, end: Bytes)
    requires |age| == 26 && OnlyAt(age, 'g', 20) && Lower(age[17]) == Byte('x') && TagBytes(tag)
    ensures Find(age + tag + end, ETAG, 0) == 26
  {
    var text := age + tag + end;
    forall j: nat | j < 26 ensures !MatchesAt(text, j, ETAG) {
      TagNotBefore(age, tag, end, j);
    }
    assert MatchesAt(text, 26, ETAG) by {
      assert forall i :: 0 <= i < 5 ==> text[26 + i] == tag[i];
    }
  }

  lemma TagTail(age: Bytes, tag: Bytes, end: Bytes, v: Bytes)
    requires |age| == 26 && |tag| == 11 && |v| == 4 && tag[5..9] == v && tag[9] == CR
    ensures (age + tag + end)[31..][..4] == v && (age + tag + end)[31..][4] == CR
  {
    var text := age + tag + end;
    assert text[31..35] == tag[5..9] && text[35] == tag[9];
    assert text[31..][..4] == text[31..35];
  }

  /** In the text of a max-age=9 line and a tag line, the tag is what the tag line says. */
  lemma TagStands(age: Bytes, tag: Bytes, end: Bytes)
    requires |age| == 26 && OnlyAt(age, 'g', 20) && Lower(age[17]) == Byte('x') && TagBytes(tag)
    ensures ETagOf(age + tag + end) == Ascii(" \"7\"")
  {
    var v := Ascii(" \"7\"");
    TagFound(age, tag, end);
    TagTail(age, tag, end, v);
    TagIs(age + tag + end, v);
  }

  lemma TagNotBefore(age: Bytes, tag: Bytes, end: Bytes, j: nat)
    requires |age| == 26 && OnlyAt(age, 'g', 20) && Lower(age[17]) == Byte('x') && TagBytes(tag) && j < 26
    ensures !MatchesAt(age + tag + end, j, ETAG)
  {
    var text := age + tag + end;
    assert |ETAG| == 5 && Lower(ETAG[0]) == Byte('e') && Lower(ETAG[3]) == Byte('g');
    assert Lower(ETAG[1]) == Byte('t') && Lower(ETAG[2]) == Byte('a');
    if j + 3 < 26 {
      assert text[j + 3] == age[j + 3] && text[j] == age[j];
    } else {
      assert text[j + 3] == tag[j - 23];
      assert Lower(tag[0]) == Lower(ETAG[0]) && Lower(tag[1]) == Lower(ETAG[1]) && Lower(tag[2]) == Lower(ETAG[2]);
    }
  }

  lemma BareAgeTag(age: Bytes, tag: Bytes) returns (s: Bytes)
    requires AgeBytes(age, 9) && TagBytes(tag) && |age| == 26
    ensures s == age + (tag + (SEPARATOR + [])) && IsBare(s, CpCacheTimeDefined, 9)
    ensures Scan(EMPTY_HEAD, s).0.text == age + tag + SEPARATOR
  {
    NeedleLetters();
    s := age + (tag + (SEPARATOR + []));
    HeadOfAgeLine(EMPTY_HEAD, age, 9);
    HeadOfTagLine(HeadLine(EMPTY_HEAD, age), tag);
    var head := ScanTwo(age, tag, HeadLine(HeadLine(EMPTY_HEAD, age), tag), []);
    assert [] + age == age;
  }

  /** A response with a tag: the stored entry carries it. */
  lemma TagIsStored(list: seq<Entry>, k: Key, junk: Bytes, pages: Pages, now: int) returns (s: Bytes, text: Bytes)
    ensures s == AGE_LINE + (TAG_LINE + (SEPARATOR + []))
    ensures Kept(list, k, Fetch(s, junk, pages), now) ==
            [Entry(k, GetResponse(text, 9, now, Ascii(" \"7\"")))] + list
  {
    var age := AgeLine();
    var tag := TagLine();
    forall i | 0 <= i < 26 ensures Lower(AGE_LINE[i]) == Byte('g') ==> i == 20 {
      AgeLetterG(i);
    }
    AgeLetterG(0);
    s := BareAgeTag(age, tag);
    BareText(s, CpCacheTimeDefined, 9, junk, pages);
    text := Fetch(s, junk, pages).text;
    TagStands(age, tag, SEPARATOR);
    BareIsKept(s, CpCacheTimeDefined, 9, list, k, junk, pages, now);
  }

  lemma BareText(s: Bytes, cp: CachePolicy, age: nat, junk: Bytes, pages: Pages)
    requires IsBare(s, cp, age)
    ensures Fetch(s, junk, pages).text == Scan(EMPTY_HEAD, s).0.text
  {
    assert |KeptBody([], 0, junk)| == 0;
  }
}
