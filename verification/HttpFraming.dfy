// How the HTTP server cuts a byte stream into requests as it arrives: the handler
// of one receive event as a function, and what holds however the bytes are split
// over events.
module HttpFraming {
  import opened Text
  import opened StringUtil
  import opened Decimal
  import opened HttpHeader
  import opened HttpRoundTrip

  const CONTENT_LENGTH: string := "content-length"

  /** What cb_http is called with: the header and the bytes behind it. */
  datatype Call = Call(version: Version, action: string, uri: string, fields: seq<Field>, body: string)

  /** One connection as the server sees it: unconsumed input, the connection data
      (header length, content length, header), and the calls of cb_http so far. */
  datatype Conn = Conn(
    input: string, headerLen: int, contentLen: int,
    version: Version, action: string, uri: string, fields: seq<Field>, calls: seq<Call>)

  const FRESH: Conn := Conn([], 0, -1, Http11, "", "", [], [])

  /** `find` of the multimap: some value stored under the key. Which of several is up to the library. */
  type Finder = (seq<Field>, string) -> string

  predicate Has(fields: seq<Field>, key: string) {
    exists i :: 0 <= i < |fields| && fields[i].key == key
  }

  function ContentLength(fields: seq<Field>, find: Finder): int {
    if Has(fields, CONTENT_LENGTH) then Atoi(CStr(find(fields, CONTENT_LENGTH))) else 0
  }

  /** The connection data after an attempt to read the header. */
  function ReadHeader(c: Conn, find: Finder): Conn {
    if c.headerLen != 0 then c
    else match ParseRequest(c.input)
      case Incomplete => c
      case Malformed => c.(headerLen := -1, contentLen := ContentLength(c.fields, find))
      case BadVersion(a, u) => c.(headerLen := -1, action := a, uri := u, contentLen := ContentLength(c.fields, find))
      case Parsed(n, v, a, u, fs) =>
        c.(headerLen := n, version := v, action := a, uri := u, fields := c.fields + fs,
           contentLen := ContentLength(c.fields + fs, find))
  }

  /** All of a request is there. */
  predicate Complete(c: Conn) {
    c.headerLen > 0 && c.contentLen >= 0 && |c.input| >= c.headerLen + c.contentLen
  }

  /** The call of cb_http has been made. */
  function Called(c: Conn): Conn
    requires Complete(c)
  {
    c.(calls := c.calls + [Call(c.version, c.action, c.uri, c.fields, c.input[c.headerLen..])])
  }

  /** And its bytes have been taken out of the input. */
  function Dispatch(c: Conn): Conn
    requires Complete(c)
  {
    Called(c).(input := c.input[c.headerLen + c.contentLen..])
  }

  /** http_recv */
  function HttpRecv(c: Conn, find: Finder): Conn {
    if c.input == [] then c
    else
      var d := ReadHeader(c, find);
      if Complete(d) then Dispatch(d) else d
  }

  /** A receive event that brings `chunk`. */
  function Event(c: Conn, chunk: string, find: Finder): Conn {
    HttpRecv(c.(input := c.input + chunk), find)
  }

  function Feed(c: Conn, chunks: seq<string>, find: Finder): Conn {
    if chunks == [] then c else Event(Feed(c, chunks[..|chunks| - 1], find), chunks[|chunks| - 1], find)
  }

  /** The stream that the chunks make up. */
  function Stream(chunks: seq<string>): string {
    if chunks == [] then [] else Stream(chunks[..|chunks| - 1]) + chunks[|chunks| - 1]
  }

  // ---------------------------------------------------------------------
  // The first request of a stream
  // ---------------------------------------------------------------------

  /** The stream holds a whole request. */
  predicate Ready(s: string, find: Finder) {
    match ParseRequest(s)
    case Parsed(n, v, a, u, fs) => ContentLength(fs, find) >= 0 && |s| >= n + ContentLength(fs, find)
    case _ => false
  }

  /** The stream starts with something that will never be a request. */
  predicate Refused(s: string, find: Finder) {
    match ParseRequest(s)
    case Incomplete => false
    case Parsed(n, v, a, u, fs) => ContentLength(fs, find) < 0
    case _ => true
  }

  /** The connection data that belong to a stream nothing has been dispatched from. */
  function Waiting(s: string, find: Finder): Conn {
    ReadHeader(FRESH.(input := s), find)
  }

  lemma ReadyIsStable(s: string, more: string, find: Finder)
    requires Ready(s, find)
    ensures Ready(s + more, find)
  {
    hide ParseRequest, ContentLength;
    RequestIsStable(s, more);
  }

  lemma RefusedIsStable(s: string, more: string, find: Finder)
    requires Refused(s, find)
    ensures Refused(s + more, find) && !Ready(s + more, find)
  {
    hide ParseRequest, ContentLength;
    RequestIsStable(s, more);
  }

  /** What the header of a stream says does not depend on how much of it has arrived. */
  lemma WaitingGrows(s: string, more: string, find: Finder)
    ensures ReadHeader(Waiting(s, find).(input := s + more), find) == Waiting(s + more, find)
  {
    hide ParseRequest, ContentLength;
    if ParseRequest(s) != Incomplete {
      RequestIsStable(s, more);
      if ParseRequest(s).Parsed? { ParsedIsLong(s); }
    }
  }

  lemma ParsedIsLong(s: string)
    requires ParseRequest(s).Parsed?
    ensures 0 < ParseRequest(s).length <= |s|
  {
  }

  lemma WaitingIsReady(s: string, find: Finder)
    ensures Complete(Waiting(s, find)) <==> Ready(s, find)
    ensures Waiting(s, find).input == s && Waiting(s, find).calls == []
  {
    hide ParseRequest, ContentLength;
    assert forall fs: seq<Field> :: [] + fs == fs;
    if ParseRequest(s).Parsed? { ParsedIsLong(s); }
  }

  lemma EmptyIsNotReady(find: Finder)
    ensures !Ready([], find) && Waiting([], find) == FRESH
  {
  }

  lemma {:induction false} StreamSplit(chunks: seq<string>, more: seq<string>)
    ensures Stream(chunks + more) == Stream(chunks) + Stream(more)
    decreases |more|
  {
    if more == [] {
      assert chunks + more == chunks && Stream(chunks) + [] == Stream(chunks);
    } else {
      var init, last := more[..|more| - 1], more[|more| - 1];
      assert (chunks + more)[..|chunks + more| - 1] == chunks + init;
      StreamSplit(chunks, init);
      Regroup(Stream(chunks), Stream(init), last);
    }
  }

  /** Until a whole request has arrived nothing is consumed and nothing dispatched, however the bytes are split. */
  lemma {:induction false} NothingBeforeReady(chunks: seq<string>, find: Finder)
    requires !Ready(Stream(chunks), find)
    ensures Feed(FRESH, chunks, find) == Waiting(Stream(chunks), find)
    ensures Feed(FRESH, chunks, find).input == Stream(chunks) && Feed(FRESH, chunks, find).calls == []
  {
    hide ReadHeader, Ready, Complete;
    EmptyIsNotReady(find);
    WaitingIsReady(Stream(chunks), find);
    if chunks != [] {
      var init, last := chunks[..|chunks| - 1], chunks[|chunks| - 1];
      var s := Stream(init);
      if Ready(s, find) { ReadyIsStable(s, last, find); }
      NothingBeforeReady(init, find);
      WaitingGrows(s, last, find);
      WaitingIsReady(s, find);
    }
  }

  /** The event that completes the first request dispatches it once, with a body
      that starts with its content, and consumes exactly the request. */
  lemma FirstDispatch(chunks: seq<string>, chunk: string, find: Finder)
    requires !Ready(Stream(chunks), find) && Ready(Stream(chunks) + chunk, find)
    ensures var s := Stream(chunks) + chunk;
            var c := Feed(FRESH, chunks + [chunk], find);
            match ParseRequest(s)
            case Parsed(n, v, a, u, fs) =>
              var end := n + ContentLength(fs, find);
              && n <= end <= |s|
              && c.calls == [Call(v, a, u, fs, s[n..])] && s[n..][..end - n] == s[n..end]
              && c.input == s[end..]
            case _ => false
  {
    hide ParseRequest, ContentLength, Stream;
    var s := Stream(chunks) + chunk;
    var before := Feed(FRESH, chunks, find);
    NothingBeforeReady(chunks, find);
    assert (chunks + [chunk])[..|chunks|] == chunks;
    WaitingGrows(Stream(chunks), chunk, find);
    WaitingIsReady(s, find);
    ParsedIsLong(s);
    assert [] + ParseRequest(s).fields == ParseRequest(s).fields;
  }

  /** However a stream is cut into receive events, its first request is dispatched
      with the same header and the same content, or not at all. */
  lemma FirstRequestIgnoresChunks(a: seq<string>, x: string, b: seq<string>, y: string, rest: string, find: Finder)
    requires !Ready(Stream(a), find) && Ready(Stream(a) + x, find)
    requires !Ready(Stream(b), find) && Ready(Stream(b) + y, find)
    requires Stream(b) + y == Stream(a) + x + rest
    ensures var p, q := Feed(FRESH, a + [x], find).calls, Feed(FRESH, b + [y], find).calls;
            && |p| == |q| == 1 && p[0].version == q[0].version && p[0].action == q[0].action
            && p[0].uri == q[0].uri && p[0].fields == q[0].fields
            && p[0].body <= q[0].body
            && 0 <= ContentLength(p[0].fields, find) <= |p[0].body|
            && p[0].body[..ContentLength(p[0].fields, find)] == q[0].body[..ContentLength(p[0].fields, find)]
  {
    hide ParseRequest, ContentLength, Stream, Feed, Ready;
    var s := Stream(a) + x;
    FirstDispatch(a, x, find);
    FirstDispatch(b, y, find);
    NotIncomplete(s, find);
    RequestIsStable(s, rest);
    var n := ParseRequest(s).length;
    assert (s + rest)[n..] == s[n..] + rest;
  }

  lemma NotIncomplete(s: string, find: Finder)
    requires Ready(s, find)
    ensures ParseRequest(s) != Incomplete
  {
  }

  /** After a header that is rejected, or that announces a negative length, nothing
      is ever dispatched and no byte ever consumed. */
  lemma RefusedForever(chunks: seq<string>, more: seq<string>, find: Finder)
    requires Refused(Stream(chunks), find)
    ensures Feed(FRESH, chunks + more, find).calls == []
    ensures Feed(FRESH, chunks + more, find).input == Stream(chunks + more)
  {
    StreamSplit(chunks, more);
    RefusedIsStable(Stream(chunks), Stream(more), find);
    NothingBeforeReady(chunks + more, find);
  }

  // ---------------------------------------------------------------------
  // Later requests
  // ---------------------------------------------------------------------

  /** Every call so far was made with the header the connection holds. */
  predicate OneHeader(c: Conn) {
    forall i :: 0 <= i < |c.calls| ==>
      c.headerLen > 0 && c.version == c.calls[i].version && c.action == c.calls[i].action
      && c.uri == c.calls[i].uri && c.fields == c.calls[i].fields
  }

  lemma CallsKeepHeader(c: Conn, input: string, find: Finder)
    requires OneHeader(c)
    ensures OneHeader(HttpRecv(c.(input := input), find))
  {
    hide ParseRequest, ContentLength;
    var c' := c.(input := input);
    var e := ReadHeader(c', find);
    if c.calls != [] {
      assert c.fields == c.calls[0].fields;
      assert e == c';
    }
    assert OneHeader(e);
    if input != [] && Complete(e) {
      DispatchKeepsHeader(e);
    }
  }

  lemma DispatchKeepsHeader(c: Conn)
    requires OneHeader(c) && Complete(c)
    ensures OneHeader(Dispatch(c))
  {
    var d := Dispatch(c);
    forall i | 0 <= i < |d.calls|
      ensures d.version == d.calls[i].version && d.action == d.calls[i].action
              && d.uri == d.calls[i].uri && d.fields == d.calls[i].fields
    {
      if i < |c.calls| {
        assert d.calls[i] == c.calls[i];
      }
    }
  }

  /** The header read first is used for every later call as well: the header length is never reset. */
  lemma {:induction false} EveryCallHasTheFirstHeader(chunks: seq<string>, find: Finder)
    ensures OneHeader(Feed(FRESH, chunks, find))
    decreases |chunks|
  {
    hide HttpRecv, OneHeader;
    if chunks != [] {
      var before, last := Feed(FRESH, chunks[..|chunks| - 1], find), chunks[|chunks| - 1];
      EveryCallHasTheFirstHeader(chunks[..|chunks| - 1], find);
      CallsKeepHeader(before, before.input + last, find);
    } else {
      NoCallsYet();
    }
  }

  lemma NoCallsYet()
    ensures OneHeader(FRESH)
  {
  }
}
