// The GET handler over its sockets and the cache, proved against GetSpec.
module GetHandler {
  import opened Wrappers
  import opened Bytes
  import opened CacheSpec
  import opened CacheList
  import opened Rio
  import opened Relay
  import opened GetSpec

  /** The digit loop of both parsers. */
  method ReadDigits(s: Bytes, at: nat) returns (n: nat)
    requires at <= |s|
    ensures n == DigitsFrom(s[at..], 0)
  {
    n := 0;
    var i := at;
    while i < |s| && IsDigit(s[i])
      invariant at <= i <= |s|
      invariant DigitsFrom(s[i..], n) == DigitsFrom(s[at..], 0)
    {
      assert s[i..][1..] == s[i + 1..];
      n := n * 10 + (s[i] - 48) as nat;
      i := i + 1;
    }
  }

  /** Policy of a Cache-Control line; the digit loop sets the age in place. */
  method GetCacheControlTime(findp: Bytes, age: nat) returns (cp: CachePolicy, age': nat)
    ensures cp == LinePolicy(findp)
    ensures age' == if cp == CpCacheTimeDefined then NumberAfter(findp, MAX_AGE) else age
  {
    age' := age;
    var needRevalidate := Find(findp, MUST_REVALIDATE, 0);
    var cacheNoStore := Find(findp, NO_STORE, 0);
    var noCache := Find(findp, NO_CACHE, 0);
    var privateCache := Find(findp, CACHE_PRIVATE, 0);

    if needRevalidate >= 0 || cacheNoStore >= 0 || noCache >= 0 || privateCache >= 0 {
      if needRevalidate >= 0 || noCache >= 0 {
        return CpNeedRevalidate, age';
      } else if cacheNoStore >= 0 {
        return CpNoStore, age';
      } else {
        return CpPrivate, age';
      }
    }

    var immu := Find(findp, CACHE_IMMU, 0);
    if immu >= 0 {
      return CpNeverExpired, age';
    }

    var maxAge := Find(findp, MAX_AGE, 0);
    if maxAge >= 0 {
      age' := ReadDigits(findp, maxAge + |MAX_AGE|);
      return CpCacheTimeDefined, age';
    } else {
      return CpNotFound, age';
    }
  }

  method GetContentLength(clientRequest: Bytes) returns (res: nat)
    ensures res == NumberAfter(clientRequest, CONTENT_LEN)
  {
    var findContentField := Find(clientRequest, CONTENT_LEN, 0);
    if findContentField < 0 {
      return 0;
    }
    res := ReadDigits(clientRequest, findContentField + |CONTENT_LEN|);
  }

  method GetETagIfAny(response: Bytes) returns (res: Bytes)
    ensures res == ETagOf(response)
    ensures var i := Find(response, Ascii("etag:"), 0);
            if i < 0 then res == []
            else var tail := response[i + 5..];
                 && res <= tail && CR !in res && LF !in res
                 && (|res| < |tail| ==> tail[|res|] == CR || tail[|res|] == LF)
  {
    res := [];
    var findp := Find(response, ETAG, 0);
    if findp >= 0 {
      res := ReadToLineEnd(response, findp + |ETAG|);
    }
    TagIs(response, res);
  }

  method ReadToLineEnd(s: Bytes, at: nat) returns (res: Bytes)
    requires at <= |s|
    ensures res == UpToLineEnd(s[at..])
  {
    res := [];
    var findp := at;
    while findp < |s| && s[findp] != CR && s[findp] != LF
      invariant at <= findp <= |s|
      invariant res + UpToLineEnd(s[findp..]) == UpToLineEnd(s[at..])
    {
      assert s[findp..][1..] == s[findp + 1..];
      Associates(res, [s[findp]], UpToLineEnd(s[findp + 1..]));
      res := res + [s[findp]];
      findp := findp + 1;
    }
  }

  /** One header line, with the C string the code sees of it. */
  method HandleHeaderLine(line: Bytes, ghost h: Head, cp: CachePolicy, cacheTime: nat, isChunked: bool,
                          contentLength: nat)
    returns (cp': CachePolicy, cacheTime': nat, isChunked': bool, contentLength': nat)
    requires h == Head(h.text, cp, cacheTime, isChunked, contentLength)
    ensures HeadLine(h, line) == Head(h.text + line, cp', cacheTime', isChunked', contentLength')
  {
    cp', cacheTime', isChunked', contentLength' := cp, cacheTime, isChunked, contentLength;
    if Contains(line, CACHE_CONTROL_FLAG) {
      cp', cacheTime' := GetCacheControlTime(line, cacheTime);
    }
    if Contains(line, TRANSFER_CHUNKED) {
      isChunked' := true;
    }
    if Contains(line, CONTENT_LEN) {
      contentLength' := GetContentLength(line);
    }
  }

  /** One line goes to the client as it is read. */
  method RelayHeaderLine(rio: Rio, rioServer: Rio, tinyResponse: array<byte>) returns (n: nat, line: Bytes)
    requires rioServer.Valid() && rio != rioServer && rio.sock != rioServer.sock
    requires tinyResponse.Length == MAXLINE && tinyResponse != rioServer.buf
    modifies rioServer`cnt, rioServer`bufPtr, rioServer.buf, rioServer.sock`unread
    modifies rio.sock`sent, rio.sock`interrupts, rio.sock`offers, tinyResponse
    ensures rioServer.Valid() && n == LineLength(old(rioServer.Remaining()), MAXLINE)
    ensures line == CString(Piece(old(rioServer.Remaining()), MAXLINE))
    ensures rioServer.Remaining() == old(rioServer.Remaining())[n..]
    ensures rio.sock.sent == old(rio.sock.sent) + line
    ensures n == 0 <==> old(rioServer.Remaining()) == []
  {
    PieceIsLinePrefix(rioServer.Remaining(), MAXLINE);
    n := rioServer.ReadLineB(tinyResponse, MAXLINE);
    if n <= 0 {
      return n, [];
    }
    line := BufferText(tinyResponse, n);
    var _ := rio.Writen(line, |line|);
  }

  /** One round of the header loop: a line is relayed and taken into the head `h`. */
  method ScanHeaderLine(rio: Rio, rioServer: Rio, tinyResponse: array<byte>, ghost h: Head, response: Bytes,
                        cp: CachePolicy, cacheTime: nat, isChunked: bool, contentLength: nat)
    returns (done: bool, ghost h': Head, response': Bytes,
             cp': CachePolicy, cacheTime': nat, isChunked': bool, contentLength': nat)
    requires rioServer.Valid() && rio != rioServer && rio.sock != rioServer.sock
    requires tinyResponse.Length == MAXLINE && tinyResponse != rioServer.buf
    requires h == Head(response, cp, cacheTime, isChunked, contentLength)
    modifies rioServer`cnt, rioServer`bufPtr, rioServer.buf, rioServer.sock`unread
    modifies rio.sock`sent, rio.sock`interrupts, rio.sock`offers, tinyResponse
    ensures rioServer.Valid() && h' == Head(response', cp', cacheTime', isChunked', contentLength')
    ensures Scan(h, old(rioServer.Remaining())) ==
            if done then (h', rioServer.Remaining()) else Scan(h', rioServer.Remaining())
    ensures !done ==> |rioServer.Remaining()| < |old(rioServer.Remaining())|
    ensures response <= response' && rio.sock.sent == old(rio.sock.sent) + response'[|response|..]
  {
    ScanStep(h, rioServer.Remaining());
    cp', cacheTime', isChunked', contentLength' := cp, cacheTime, isChunked, contentLength;
    var n, line := RelayHeaderLine(rio, rioServer, tinyResponse);
    response' := response + line;
    assert response'[|response|..] == line;
    if n <= 0 {
      assert line == [] && response' == response;
      return true, h, response', cp', cacheTime', isChunked', contentLength';
    }
    cp', cacheTime', isChunked', contentLength' := HandleHeaderLine(line, h, cp, cacheTime, isChunked, contentLength);
    h' := HeadLine(h, line);
    done := line == SEPARATOR;
  }

  lemma SentSoFar(before: Bytes, response: Bytes, response': Bytes)
    requires response <= response'
    ensures before + response + response'[|response|..] == before + response'
  {
  }

  /** The header loop: every line goes to the client as it is scanned. */
  method ScanResponseHeader(rio: Rio, rioServer: Rio)
    returns (cp: CachePolicy, response: Bytes, cacheTime: nat, isChunked: bool, contentLength: nat)
    requires rioServer.Valid() && rio != rioServer && rio.sock != rioServer.sock
    modifies rioServer`cnt, rioServer`bufPtr, rioServer.buf, rioServer.sock`unread
    modifies rio.sock`sent, rio.sock`interrupts, rio.sock`offers
    ensures rioServer.Valid()
    ensures Scan(EMPTY_HEAD, old(rioServer.Remaining())) ==
            (Head(response, cp, cacheTime, isChunked, contentLength), rioServer.Remaining())
    ensures rio.sock.sent == old(rio.sock.sent) + response
  {
    ghost var before, h := rio.sock.sent, EMPTY_HEAD;
    ghost var result := Scan(EMPTY_HEAD, rioServer.Remaining());
    var tinyResponse := new byte[MAXLINE];
    response, cp, cacheTime, isChunked, contentLength := [], CpNotFound, 0, false, 0;
    var done := false;
    while !done
      invariant rioServer.Valid() && fresh(tinyResponse)
      invariant h == Head(response, cp, cacheTime, isChunked, contentLength)
      invariant result == if done then (h, rioServer.Remaining()) else Scan(h, rioServer.Remaining())
      invariant rio.sock.sent == before + response
      decreases !done, |rioServer.Remaining()|
    {
      ghost var scanned := response;
      done, h, response, cp, cacheTime, isChunked, contentLength :=
        ScanHeaderLine(rio, rioServer, tinyResponse, h, response, cp, cacheTime, isChunked, contentLength);
      SentSoFar(before, scanned, response);
    }
  }

  /** The header, and the refusal of one that is both chunked and counted. */
  method HandleResponseHeader(rio: Rio, rioServer: Rio)
    returns (cp: CachePolicy, response: Bytes, cacheTime: nat, isChunked: bool, contentLength: nat)
    requires rioServer.Valid() && rio != rioServer && rio.sock != rioServer.sock
    modifies rioServer`cnt, rioServer`bufPtr, rioServer.buf, rioServer.sock`unread
    modifies rio.sock`sent, rio.sock`interrupts, rio.sock`offers
    ensures rioServer.Valid()
    ensures var (h, rest) := Scan(EMPTY_HEAD, old(rioServer.Remaining()));
            && h == Head(response, h.cp, cacheTime, isChunked, contentLength)
            && cp == (if isChunked && contentLength != 0 then CpBadRequestDiscard else h.cp)
            && rioServer.Remaining() == rest && rio.sock.sent == old(rio.sock.sent) + response
  {
    cp, response, cacheTime, isChunked, contentLength := ScanResponseHeader(rio, rioServer);
    if isChunked && contentLength != 0 {
      cp := CpBadRequestDiscard;
    }
  }

  /** The body buffer, as a C string, after the content-length loop. */
  lemma BufferHoldsBody(s: Bytes, contentLength: nat, junk: Bytes, data: Bytes)
    requires contentLength < |junk| == |data| && data[contentLength] == NUL
    requires data[..Min(contentLength, |s|)] == s[..Min(contentLength, |s|)]
    requires data[Min(contentLength, |s|)..contentLength] == junk[Min(contentLength, |s|)..contentLength]
    ensures CString(data) == KeptBody(s, contentLength, junk)
  {
    var m := Min(contentLength, |s|);
    CStringStops(data, contentLength);
    assert data[..contentLength] == data[..m] + data[m..contentLength];
  }

  /** The body goes to the client as it is read, and is appended to the response as a C string.
      `junk` is what the uninitialised buffer held. */
  method HandleResponseBody(rio: Rio, rioServer: Rio, response: Bytes, isChunked: bool, contentLength: nat)
    returns (response': Bytes, ghost junk: Bytes)
    requires rioServer.Valid() && rio != rioServer && rio.sock != rioServer.sock
    modifies rioServer`cnt, rioServer`bufPtr, rioServer.buf, rioServer.sock`unread
    modifies rio.sock`sent, rio.sock`interrupts, rio.sock`offers
    ensures rioServer.Valid()
    ensures var s := old(rioServer.Remaining());
            if isChunked then
              && response' == response + ChunkedData(s)
              && rio.sock.sent == old(rio.sock.sent) + s && rioServer.Remaining() == []
            else
              && |junk| == contentLength + MINLINE && response' == response + KeptBody(s, contentLength, junk)
              && rio.sock.sent == old(rio.sock.sent) + s[..Min(contentLength, |s|)]
              && rioServer.Remaining() == s[Min(contentLength, |s|)..]
  {
    if isChunked {
      var data := ReadAndWriteChunkedData(rioServer, rio);
      return response + data, [];
    } else {
      ghost var s := rioServer.Remaining();
      ghost var m := Min(contentLength, |s|);
      var data := new byte[contentLength + MINLINE];
      junk := data[..];
      ReadAndWriteContentLengthData(rioServer, rio, true, contentLength, data);
      var filled := data[..];
      BufferHoldsBody(s, contentLength, junk, filled);
      return response + CString(filled), junk;
    }
  }

  /** Stored exactly under the storable policies, stamped with the time `now`. */
  method HandleCache(response: Bytes, cp: CachePolicy, cacheTime: nat, cache: Cache, hostName: string, uri: string,
                     now: int)
    requires cache.Valid()
    modifies cache, cache.repr
    ensures cache.Valid() && fresh(cache.repr - old(cache.repr))
    ensures cache.entries ==
            match Lifetime(cp, cacheTime)
            case None => old(cache.entries)
            case Some(lifetime) =>
              Written(old(cache.entries), Key(hostName, uri), GetResponse(response, lifetime, now, ETagOf(response)), 0)
  {
    if cp == CpNoStore || cp == CpMaxAgeZero || cp == CpPrivate
       || cp == CpNoCachePolicy || cp == CpNotFound
       || (cp == CpCacheTimeDefined && cacheTime == 0)
    {
      return;
    } else {
      var validTime := cacheTime;
      if cp == CpNeverExpired {
        validTime := YEAR_IN_SECOND;
      }
      var eTag := GetETagIfAny(response);
      var gr := GetResponse(response, validTime, now, eTag);
      var waits := cache.WriteToCache(hostName, uri, gr);
    }
  }

  /** The stored text goes through `strcpy` into a buffer of its length: it reaches the client
      whole when it has no zero byte. */
  method SendCacheResponse(rio: Rio, gr: GetResponse)
    modifies rio.sock`sent, rio.sock`interrupts, rio.sock`offers
    ensures |rio.sock.sent| == |old(rio.sock.sent)| + |gr.response|
    ensures old(rio.sock.sent) + CString(gr.response) <= rio.sock.sent
    ensures NUL !in gr.response ==> rio.sock.sent == old(rio.sock.sent) + gr.response
  {
    var len := |gr.response|;
    var arr := new byte[len + 1];
    var text := CString(gr.response);
    forall i | 0 <= i < |text| {
      arr[i] := text[i];
    }
    arr[|text|] := NUL;
    assert arr[..|text|] == text;
    assert arr[..][..len][..|text|] == text;
    var _ := rio.Writen(arr[..], len);
  }

  /** Fetching from the origin: the header and, unless it is malformed, the body. */
  method FetchResponse(rio: Rio, rioServer: Rio, pages: Pages)
    returns (cp: CachePolicy, response: Bytes, cacheTime: nat, ghost f: Fetched, ghost junk: Bytes)
    requires rioServer.Valid() && rio != rioServer && rio.sock != rioServer.sock
    modifies rioServer`cnt, rioServer`bufPtr, rioServer.buf, rioServer.sock`unread
    modifies rio.sock`sent, rio.sock`interrupts, rio.sock`offers
    ensures f == Fetch(old(rioServer.Remaining()), junk, pages) && NUL !in f.text
    ensures |junk| >= Scan(EMPTY_HEAD, old(rioServer.Remaining())).0.contentLength
    ensures (cp == CpBadRequestDiscard <==> f.discarded) && cp == f.cp && cacheTime == f.cacheTime && response == f.text
    ensures rio.sock.sent == old(rio.sock.sent) + f.sent
  {
    ghost var s, before := rioServer.Remaining(), rio.sock.sent;
    ghost var (h, rest) := Scan(EMPTY_HEAD, s);
    var isChunked, contentLength;
    cp, response, cacheTime, isChunked, contentLength := HandleResponseHeader(rio, rioServer);
    junk := seq(contentLength, _ => NUL);
    ScanPolicy(s);
    if cp == CpBadRequestDiscard {
      var _ := rio.Writen(pages.badRequest, |pages.badRequest|);
    } else {
      ghost var junk';
      response, junk' := HandleResponseBody(rio, rioServer, response, isChunked, contentLength);
      if !isChunked {
        junk := junk';
      }
    }
    f := Assemble(h, rest, junk, pages);
    Associates(before, h.text, f.sent[|h.text|..]);
    KeptIsString(s, junk, pages);
  }

  lemma NothingToDrop(list: seq<Entry>, k: Key)
    requires FirstMatch(list, k) == None
    ensures Without(list, k) == list
  {
    FirstMatchNone(list, k);
    WithoutNoMatch(list, k);
  }

  predicate AllText(list: seq<Entry>) {
    forall e :: e in list ==> NUL !in e.gr.response
  }

  lemma LookupIsText(list: seq<Entry>, k: Key, now: int)
    requires AllText(list)
    ensures NUL !in Lookup(list, k, now).gr.response
  {
    FirstMatchIsEntry(list, k);
  }

  lemma WithoutIsText(list: seq<Entry>, k: Key)
    requires AllText(list)
    ensures AllText(Without(list, k))
  {
    forall e | e in Without(list, k) ensures NUL !in e.gr.response {
      WithoutSubset(list, k, e);
    }
  }

  lemma KeptIsText(list: seq<Entry>, k: Key, f: Fetched, now: int)
    requires AllText(list) && NUL !in f.text
    ensures AllText(Kept(list, k, f, now))
  {
  }

  /** The lookup, which does not wait while nobody is inside. */
  method LookInCache(cache: Cache, hostName: string, uri: string, readTime: int)
    returns (cs: CacheStatus, gr: GetResponse)
    requires cache.Valid()
    modifies cache`mutex, cache`w, cache`numReader
    ensures cache.Valid() && Answer(cs, gr) == Lookup(cache.entries, Key(hostName, uri), readTime)
  {
    var waits;
    waits, cs, gr := cache.ReadFromCache(hostName, uri, readTime);
  }

  /** The clear, which does not wait either. */
  method DropStale(cache: Cache, hostName: string, uri: string)
    requires cache.Valid() && AllText(cache.entries)
    modifies cache`w, cache`nodes, cache`entries, cache`freed, cache.repr
    ensures cache.Valid() && AllText(cache.entries)
    ensures cache.entries == Without(old(cache.entries), Key(hostName, uri))
  {
    WithoutIsText(cache.entries, Key(hostName, uri));
    var waits := cache.ClearAllInvalidCache(hostName, uri);
  }

  /** The first half of the handler: answer from the cache when that is possible, and drop the
      key's entries when the origin says they are stale. */
  method HandleCached(cache: Cache, rio: Rio, hostName: string, uri: string, readTime: int, revalidated: bool)
    returns (served: bool)
    requires cache.Valid() && AllText(cache.entries)
    modifies cache, cache.repr, rio.sock`sent, rio.sock`interrupts, rio.sock`offers
    ensures cache.Valid() && AllText(cache.entries) && cache.repr == old(cache.repr)
    ensures var found := FirstMatch(old(cache.entries), Key(hostName, uri));
            && (served <==> found.Some? && (Age(found.value, readTime) < found.value.validTime || revalidated))
            && (served ==> cache.entries == old(cache.entries))
            && (!served ==> cache.entries == Without(old(cache.entries), Key(hostName, uri)))
            && rio.sock.sent == (if served then old(rio.sock.sent) + found.value.response else old(rio.sock.sent))
  {
    ghost var k := Key(hostName, uri);
    LookupIsText(cache.entries, k, readTime);
    LookupVerdict(cache.entries, k, readTime);
    if FirstMatch(cache.entries, k) == None {
      NothingToDrop(cache.entries, k);
    }
    var cs, gr := LookInCache(cache, hostName, uri, readTime);
    if cs == CacheStatus.Valid {
      SendCacheResponse(rio, gr);
      return true;
    } else if cs == NeedRevalidate {
      if revalidated {
        SendCacheResponse(rio, gr);
        return true;
      } else {
        DropStale(cache, hostName, uri);
      }
    }
    return false;
  }

  /** Relay the response, and store it if the policy says so. */
  method FetchAndStore(cache: Cache, rio: Rio, origin: Rio, hostName: string, uri: string,
                       pages: Pages, writeTime: int) returns (ghost f: Fetched, ghost junk: Bytes)
    requires cache.Valid() && AllText(cache.entries) && origin.Valid() && rio != origin && rio.sock != origin.sock
    modifies cache, cache.repr, rio.sock`sent, rio.sock`interrupts, rio.sock`offers, origin, origin.buf, origin.sock
    ensures cache.Valid() && AllText(cache.entries)
    ensures f == Fetch(old(origin.Remaining()), junk, pages)
    ensures cache.entries == Kept(old(cache.entries), Key(hostName, uri), f, writeTime)
    ensures rio.sock.sent == old(rio.sock.sent) + f.sent
    ensures origin.sock.sent == old(origin.sock.sent)
  {
    ghost var list := cache.entries;
    var cp, response, cacheTime;
    cp, response, cacheTime, f, junk := FetchResponse(rio, origin, pages);
    KeptIsText(list, Key(hostName, uri), f, writeTime);
    if cp == CpBadRequestDiscard {
      return;
    }
    HandleCache(response, cp, cacheTime, cache, hostName, uri, writeTime);
  }

  /** The second half of the handler. Without a connection `origin` plays no part. */
  method HandleOrigin(cache: Cache, rio: Rio, connected: bool, origin: Rio, request: Bytes,
                      hostName: string, uri: string, pages: Pages, writeTime: int) returns (ghost junk: Bytes)
    requires cache.Valid() && AllText(cache.entries) && origin.Valid() && rio != origin && rio.sock != origin.sock
    modifies cache, cache.repr, rio.sock`sent, rio.sock`interrupts, rio.sock`offers, origin, origin.buf, origin.sock
    ensures cache.Valid() && AllText(cache.entries)
    ensures connected ==>
              var f := Fetch(old(origin.Remaining()), junk, pages);
              && origin.sock.sent == old(origin.sock.sent) + CString(request)
              && rio.sock.sent == old(rio.sock.sent) + f.sent
              && cache.entries == Kept(old(cache.entries), Key(hostName, uri), f, writeTime)
    ensures !connected ==>
              && origin.sock.sent == old(origin.sock.sent)
              && rio.sock.sent == old(rio.sock.sent) + pages.gatewayTimeout
              && cache.entries == old(cache.entries)
  {
    junk := [];
    if !connected {
      var _ := rio.Writen(pages.gatewayTimeout, |pages.gatewayTimeout|);
    } else {
      var text := CString(request);
      var _ := origin.Writen(text, |text|);
      ghost var f;
      f, junk := FetchAndStore(cache, rio, origin, hostName, uri, pages, writeTime);
    }
  }

  /** A GET, from the cache lookup to the last byte. When the cache has an entry that is young
      enough, or that the origin has confirmed, the client gets it, nothing changes and nothing is
      forwarded. Otherwise the entries of the key are dropped, the request is forwarded, and the
      client gets the 504 page or what the response comes to. `revalidated` is the verdict of the
      conditional request. */
  method HandleGet(cache: Cache, rio: Rio, connected: bool, origin: Rio, request: Bytes, hostName: string, uri: string,
                   readTime: int, revalidated: bool, pages: Pages, writeTime: int)
    returns (served: bool, ghost junk: Bytes)
    requires cache.Valid() && AllText(cache.entries) && origin.Valid() && rio != origin && rio.sock != origin.sock
    modifies cache, cache.repr, rio.sock`sent, rio.sock`interrupts, rio.sock`offers, origin, origin.buf, origin.sock
    ensures cache.Valid() && AllText(cache.entries)
    ensures var found := FirstMatch(old(cache.entries), Key(hostName, uri));
            && (served <==> found.Some? && (Age(found.value, readTime) < found.value.validTime || revalidated))
            && (served ==>
                && cache.entries == old(cache.entries) && rio.sock.sent == old(rio.sock.sent) + found.value.response
                && origin.sock.sent == old(origin.sock.sent))
    ensures !served && connected ==>
              var k, f := Key(hostName, uri), Fetch(old(origin.Remaining()), junk, pages);
              && origin.sock.sent == old(origin.sock.sent) + CString(request)
              && rio.sock.sent == old(rio.sock.sent) + f.sent
              && cache.entries == Kept(Without(old(cache.entries), k), k, f, writeTime)
    ensures !served && !connected ==>
              && origin.sock.sent == old(origin.sock.sent)
              && rio.sock.sent == old(rio.sock.sent) + pages.gatewayTimeout
              && cache.entries == Without(old(cache.entries), Key(hostName, uri))
  {
    junk := [];
    served := HandleCached(cache, rio, hostName, uri, readTime, revalidated);
    if !served {
      junk := HandleOrigin(cache, rio, connected, origin, request, hostName, uri, pages, writeTime);
    }
  }
}
