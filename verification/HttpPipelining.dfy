// Everything after the first request of a connection: how many calls are made, when,
// and with what, however the bytes are split over receive events.
module HttpPipelining {
  import opened Text
  import opened StringUtil
  import opened HttpHeader
  import opened HttpRoundTrip
  import opened HttpFraming

  /** The length of the first request, header and content: what every call consumes. */
  function Need(s: string, find: Finder): int
    requires ParseRequest(s).Parsed?
  {
    ParseRequest(s).length + ContentLength(ParseRequest(s).fields, find)
  }

  /** The stream begins with a header that announces no negative length. */
  predicate Accepted(s: string, find: Finder) {
    ParseRequest(s).Parsed? && ContentLength(ParseRequest(s).fields, find) >= 0
  }

  /** Where the k-th stretch of `need` bytes begins. */
  function Start(k: nat, need: nat): nat {
    k * need
  }

  lemma StartNext(k: nat, need: nat)
    ensures Start(k + 1, need) == Start(k, need) + need && Start(0, need) == 0
  {
  }

  /** The events that make a call, each given by how many bytes have come by then: one
      call per event at most, the next as soon as there are `need` bytes more. */
  function Served(chunks: seq<string>, need: nat): seq<nat> {
    if chunks == [] then []
    else
      var before := Served(chunks[..|chunks| - 1], need);
      if Start(|before| + 1, need) <= |Stream(chunks)| then before + [|Stream(chunks)|] else before
  }

  /** The connection has made the calls of `ends`, the k-th with the header r and with
      what had come behind such a header in the k-th stretch, and has the rest to go. */
  ghost predicate Serves(c: Conn, r: RequestParse, s: string, ends: seq<nat>, need: nat)
    requires r.Parsed?
  {
    && c.headerLen == r.length && c.headerLen + c.contentLen == need && c.contentLen >= 0
    && c.version == r.version && c.action == r.action && c.uri == r.uri && c.fields == r.fields
    && Start(|ends|, need) <= |s| && c.input == s[Start(|ends|, need)..]
    && |c.calls| == |ends|
    && forall k :: 0 <= k < |ends| ==> CalledWith(c.calls[k], r, s, Start(k, need), ends[k], need)
  }

  predicate CalledWith(call: Call, r: RequestParse, s: string, start: nat, end: nat, need: nat)
    requires r.Parsed?
  {
    && start + r.length <= start + need <= end <= |s|
    && call == Call(r.version, r.action, r.uri, r.fields, s[start + r.length..end])
  }

  lemma CalledWithMore(call: Call, r: RequestParse, s: string, more: string, start: nat, end: nat, need: nat)
    requires r.Parsed? && CalledWith(call, r, s, start, end, need)
    ensures CalledWith(call, r, s + more, start, end, need)
  {
    assert (s + more)[start + r.length..end] == s[start + r.length..end];
  }

  // ---------------------------------------------------------------------
  // One event
  // ---------------------------------------------------------------------

  /** After the header has been read an event makes a call exactly when the bytes of one
      more request are there, and takes exactly that many. */
  lemma LaterEvent(c: Conn, chunk: string, find: Finder)
    requires c.headerLen > 0 && c.contentLen >= 0
    ensures var d := c.(input := c.input + chunk);
            Event(c, chunk, find) == if |d.input| >= d.headerLen + d.contentLen then Dispatch(d) else d
  {
  }

  /** What the bytes that wait become when one more chunk has come. */
  lemma ServesOneMore(c: Conn, r: RequestParse, s: string, more: string, ends: seq<nat>, need: nat)
    requires r.Parsed? && 0 < r.length && Serves(c, r, s, ends, need)
    ensures var d, t := c.(input := c.input + more), s + more;
            if Start(|ends| + 1, need) <= |t|
            then Complete(d) && Serves(Dispatch(d), r, t, ends + [|t|], need)
            else !Complete(d) && Serves(d, r, t, ends, need)
  {
    hide Start;
    var d, t, a := c.(input := c.input + more), s + more, Start(|ends|, need);
    StartNext(|ends|, need);
    assert d.input == t[a..];
    forall k | 0 <= k < |ends| ensures CalledWith(c.calls[k], r, t, Start(k, need), ends[k], need) {
      CalledWithMore(c.calls[k], r, s, more, Start(k, need), ends[k], need);
    }
    if Start(|ends| + 1, need) <= |t| {
      var e := Dispatch(d);
      assert t[a..][r.length..] == t[a + r.length..|t|];
      assert t[a..][need..] == t[a + need..];
      forall k | 0 <= k < |ends| + 1
        ensures CalledWith(e.calls[k], r, t, Start(k, need), (ends + [|t|])[k], need)
      {
        if k < |ends| { assert e.calls[k] == c.calls[k]; }
      }
    }
  }

  // ---------------------------------------------------------------------
  // All events
  // ---------------------------------------------------------------------

  lemma {:induction false} PiecesFit(s: string, delims: set<Byte>, pos: nat)
    requires pos <= |s|
    ensures forall p :: p in PiecesFrom(s, delims, pos) ==> |p| <= |s|
    decreases |s| - pos
  {
    var next := FindFirstOf(s, delims, pos);
    if next < |s| { PiecesFit(s, delims, next + 1); }
  }

  /** The first line of a request holds its version. */
  lemma ParsedIsNine(s: string)
    requires ParseRequest(s).Parsed?
    ensures ParseRequest(s).length >= 9
  {
    hide ParseFields, PiecesFrom;
    var header := s[..HeaderLength(s)];
    var line := header[..Find(header, CRLF)];
    FirstLineEnds(s);
    PiecesFit(line, {' '}, 0);
    assert Pieces(line, {' '})[2] in Pieces(line, {' '});
  }

  /** A stream that holds a header of this length is not incomplete. */
  lemma HeaderIsThere(s: string, more: string)
    requires ParseRequest(s + more).Parsed? && ParseRequest(s + more).length <= |s|
    ensures ParseRequest(s) != Incomplete
  {
    hide Pieces, ParseFields;
    var n := ParseRequest(s + more).length;
    assert n == HeaderLength(s + more) && (s + more)[..n] == s[..n];
    assert OccursAt(s + more, BLANK_LINE, n - 4);
    assert (s + more)[n - 4..n] == s[n - 4..n];
    assert OccursAt(s, BLANK_LINE, n - 4);
    ParsedIsNine(s + more);
    IncompleteIff(s);
  }

  lemma {:induction false} NothingServed(chunks: seq<string>, need: nat)
    requires |Stream(chunks)| < need
    ensures Served(chunks, need) == []
  {
    if chunks != [] {
      NothingServed(chunks[..|chunks| - 1], need);
      StartNext(0, need);
    }
  }

  /** The connection as soon as the header is there. */
  lemma ServesNothing(s: string, find: Finder)
    requires Accepted(s, find)
    ensures Serves(Waiting(s, find), ParseRequest(s), s, [], Need(s, find))
  {
    hide ParseRequest, ContentLength;
    ParsedIsLong(s);
    StartNext(0, Need(s, find));
    assert [] + ParseRequest(s).fields == ParseRequest(s).fields && s[0..] == s;
  }

  /** All calls of a connection, however its bytes are split over receive events. */
  lemma {:induction false} CallsAre(chunks: seq<string>, find: Finder)
    requires Accepted(Stream(chunks), find)
    ensures var s := Stream(chunks);
            && Need(s, find) > 0
            && Serves(Feed(FRESH, chunks, find), ParseRequest(s), s, Served(chunks, Need(s, find)), Need(s, find))
    decreases |chunks|
  {
    hide ParseRequest, ContentLength, Serves, ReadHeader, Complete, Dispatch;
    var s := Stream(chunks);
    ParsedIsLong(s);
    if chunks == [] {
      EmptyIsIncomplete();
    } else {
      var init, last := chunks[..|chunks| - 1], chunks[|chunks| - 1];
      if ParseRequest(Stream(init)) == Incomplete {
        HeaderComes(init, last, find);
        assert [] + [|s|] == [|s|];
      } else {
        RequestIsStable(Stream(init), last);
        CallsAre(init, find);
        LaterCall(Feed(FRESH, init, find), Stream(init), last, Served(init, Need(s, find)), find);
      }
    }
  }

  lemma EmptyIsIncomplete()
    ensures ParseRequest([]) == Incomplete
  {
  }

  /** The event that completes the header. */
  lemma HeaderComes(init: seq<string>, last: string, find: Finder)
    requires ParseRequest(Stream(init)) == Incomplete && Accepted(Stream(init) + last, find)
    ensures var s := Stream(init) + last;
            Serves(Event(Feed(FRESH, init, find), last, find), ParseRequest(s), s,
                   if Start(1, Need(s, find)) <= |s| then [|s|] else [], Need(s, find))
    ensures Need(Stream(init) + last, find) > 0 && Served(init, Need(Stream(init) + last, find)) == []
  {
    hide ParseRequest, ContentLength, Stream, Serves, ReadHeader, Start;
    var s, need := Stream(init) + last, Need(Stream(init) + last, find);
    ParsedIsLong(s);
    if ParseRequest(s).length <= |Stream(init)| { HeaderIsThere(Stream(init), last); }
    NothingServed(init, need);
    NotReady(Stream(init), find);
    NothingBeforeReady(init, find);
    WaitingGrows(Stream(init), last, find);
    WaitingIsReady(Stream(init), find);
    ServesNothing(s, find);
    WaitingIsReady(s, find);
    assert s + [] == s;
    ServesOneMore(Waiting(s, find), ParseRequest(s), s, [], [], need);
    assert Waiting(s, find).(input := s + []) == Waiting(s, find) && [] + [|s|] == [|s|];
  }

  lemma NotReady(s: string, find: Finder)
    requires ParseRequest(s) == Incomplete
    ensures !Ready(s, find)
  {
  }

  /** An event behind the header. */
  lemma LaterCall(c: Conn, s: string, more: string, ends: seq<nat>, find: Finder)
    requires Accepted(s, find) && ParseRequest(s + more) == ParseRequest(s)
    requires Serves(c, ParseRequest(s), s, ends, Need(s, find))
    ensures var t, need := s + more, Need(s, find);
            Serves(Event(c, more, find), ParseRequest(s), t,
                   if Start(|ends| + 1, need) <= |t| then ends + [|t|] else ends, need)
  {
    hide ParseRequest, ContentLength, Start;
    ParsedIsLong(s);
    LaterEvent(c, more, find);
    ServesOneMore(c, ParseRequest(s), s, more, ends, Need(s, find));
  }

  // ---------------------------------------------------------------------
  // How many calls
  // ---------------------------------------------------------------------

  lemma {:induction false} StreamGrows(chunks: seq<string>, j: nat)
    requires j <= |chunks|
    ensures |Stream(chunks[..j])| <= |Stream(chunks)|
    decreases |chunks|
  {
    if j == |chunks| {
      assert chunks[..j] == chunks;
    } else {
      assert chunks[..|chunks| - 1][..j] == chunks[..j];
      StreamGrows(chunks[..|chunks| - 1], j);
    }
  }

  lemma Times(a: nat, b: nat, n: nat)
    requires a <= b
    ensures a * n <= b * n
  {
  }

  lemma QuotientIs(k: nat, n: nat, need: nat)
    requires need > 0
    ensures Start(k, need) <= n <==> k <= n / need
  {
    var q, t := n / need, n % need;
    assert n == q * need + t && 0 <= t < need;
    if k <= q {
      Times(k, q, need);
    } else {
      assert (q + 1) * need == q * need + need;
      Times(q + 1, k, need);
    }
  }

  /** The calls after one more event. */
  lemma ServedNext(chunks: seq<string>, need: nat)
    requires chunks != [] && need > 0
    ensures var k, q := |Served(chunks[..|chunks| - 1], need)|, |Stream(chunks)| / need;
            |Served(chunks, need)| == (if k + 1 <= q then k + 1 else k)
  {
    QuotientIs(|Served(chunks[..|chunks| - 1], need)| + 1, |Stream(chunks)|, need);
  }

  lemma Quotients(m: nat, n: nat, need: nat)
    requires m <= n && need > 0
    ensures m / need <= n / need
  {
    QuotientIs(m / need, m, need);
    QuotientIs(m / need, n, need);
  }

  /** After any number of events the calls still to come are bounded by the events, and
      those made by the whole requests that have come. */
  lemma {:induction false} ServedAtMost(chunks: seq<string>, need: nat, j: nat)
    requires need > 0 && j <= |chunks|
    ensures |Served(chunks, need)| <= |Stream(chunks[..j])| / need + (|chunks| - j)
    decreases |chunks|
  {
    if chunks != [] {
      var init := chunks[..|chunks| - 1];
      ServedNext(chunks, need);
      StreamGrows(chunks, |chunks| - 1);
      Quotients(|Stream(init)|, |Stream(chunks)|, need);
      ServedAtMost(init, need, |init|);
      assert init[..|init|] == init && chunks[..|chunks|] == chunks;
      if j < |chunks| {
        ServedAtMost(init, need, j);
        assert init[..j] == chunks[..j];
      }
    }
  }

  /** And one of these bounds is reached: the number of calls is their minimum. */
  lemma {:induction false} ServedReaches(chunks: seq<string>, need: nat) returns (j: nat)
    requires need > 0
    ensures j <= |chunks| && |Served(chunks, need)| == |Stream(chunks[..j])| / need + (|chunks| - j)
    decreases |chunks|
  {
    if chunks == [] {
      j := 0;
    } else {
      var init := chunks[..|chunks| - 1];
      j := ServedReaches(init, need);
      assert init[..j] == chunks[..j] && chunks[..|chunks|] == chunks;
      ServedNext(chunks, need);
      ServedAtMost(chunks, need, |chunks|);
      if |Served(chunks, need)| == |Served(init, need)| {
        StreamGrows(chunks, |chunks| - 1);
        Quotients(|Stream(init)|, |Stream(chunks)|, need);
        ServedAtMost(init, need, |init|);
        assert init[..|init|] == init;
        j := |chunks|;
      }
    }
  }

  /** Nothing stalls, every whole request that has come has been called for, if and only
      if at no moment more of them were due than events were still to come. */
  lemma NoStallIff(chunks: seq<string>, need: nat)
    requires need > 0
    ensures |Served(chunks, need)| == |Stream(chunks)| / need
            <==> forall j :: 0 <= j <= |chunks| ==>
                   |Stream(chunks)| / need <= |Stream(chunks[..j])| / need + (|chunks| - j)
  {
    ServedAtMost(chunks, need, |chunks|);
    assert chunks[..|chunks|] == chunks;
    var i := ServedReaches(chunks, need);
    forall j | 0 <= j <= |chunks| ensures |Served(chunks, need)| <= |Stream(chunks[..j])| / need + (|chunks| - j) {
      ServedAtMost(chunks, need, j);
    }
  }

  lemma {:induction false} FirstServedIff(chunks: seq<string>, need: nat)
    requires need > 0
    ensures |Served(chunks, need)| >= 1 <==> |Stream(chunks)| >= need
  {
    if chunks != [] {
      var init := chunks[..|chunks| - 1];
      FirstServedIff(init, need);
      StreamGrows(chunks, |chunks| - 1);
      StartNext(0, need);
    }
  }

  /** A second call takes the bytes of two first requests, and an event after the one
      that completed the first. */
  lemma {:induction false} SecondServedIff(chunks: seq<string>, need: nat)
    requires need > 0 && chunks != []
    ensures |Served(chunks, need)| >= 2
            <==> |Stream(chunks)| >= 2 * need && |Stream(chunks[..|chunks| - 1])| >= need
    decreases |chunks|
  {
    var init := chunks[..|chunks| - 1];
    FirstServedIff(init, need);
    StreamGrows(chunks, |chunks| - 1);
    StartNext(0, need);
    StartNext(1, need);
    if |init| > 0 { SecondServedIff(init, need); }
  }

  // ---------------------------------------------------------------------
  // The second request
  // ---------------------------------------------------------------------

  /** One whole request, nothing less and nothing more. */
  predicate Exactly(s: string, find: Finder) {
    Accepted(s, find) && |s| == Need(s, find)
  }

  /** Of a stream that holds q2 behind q1, the second call is made for q2: with its
      header, with all that has come behind that by then, and taking exactly q2. */
  ghost predicate SecondIsServed(c: Conn, s: string, ends: seq<nat>, q1: string, q2: string)
    requires ParseRequest(q2).Parsed?
  {
    && |c.calls| >= 2 && |ends| >= 2
    && CalledWith(c.calls[1], ParseRequest(q2), s, |q1|, ends[1], |q2|)
    && c.headerLen + c.contentLen == |q2|
  }

  /** However two requests, and what follows them, are split over receive events: the
      second is served as it would be alone on its connection if and only if its header
      says the same as the first one's and is as long, and some event comes after the
      one that completes the first request. */
  lemma SecondIsServedIff(chunks: seq<string>, q1: string, q2: string, rest: string, find: Finder)
    requires Exactly(q1, find) && Exactly(q2, find) && Stream(chunks) == q1 + q2 + rest
    ensures chunks != []
    ensures SecondIsServed(Feed(FRESH, chunks, find), Stream(chunks), Served(chunks, |q1|), q1, q2)
            <==> ParseRequest(q1) == ParseRequest(q2) && |Stream(chunks[..|chunks| - 1])| >= |q1|
  {
    hide ParseRequest, ContentLength, Feed, Stream, Served, Start;
    var s, need := Stream(chunks), |q1|;
    ParsedIsLong(q1);
    ParsedIsLong(q2);
    assert s == q1 + (q2 + rest);
    RequestIsStable(q1, q2 + rest);
    CallsAre(chunks, find);
    HasChunks(chunks);
    SecondServedIff(chunks, need);
    StartNext(0, need);
    StartNext(1, need);
    var c, ends := Feed(FRESH, chunks, find), Served(chunks, need);
    if |ends| >= 2 {
      assert CalledWith(c.calls[1], ParseRequest(q1), s, |q1|, ends[1], |q1|);
    }
  }

  lemma HasChunks(chunks: seq<string>)
    requires |Stream(chunks)| > 0
    ensures chunks != []
  {
  }

  /** For two printed requests, the first without a content length, however they are
      split over events: there is a second call if and only if the second text is no
      shorter and an event comes after the one that completes the first, and that call
      carries the second request's version, method, target and fields if and only if
      they are the first's. */
  lemma PrintedPair(v1: Version, a1: string, u1: string, o1: seq<Field>,
                    v2: Version, a2: string, u2: string, o2: seq<Field>, chunks: seq<string>, find: Finder)
    requires CleanWord(a1) && CleanWord(u1) && Clean(o1) && !Has(NormalAll(o1), CONTENT_LENGTH)
    requires CleanWord(a2) && CleanWord(u2) && Clean(o2)
    requires Stream(chunks) == HeaderText(RequestLine(v1, a1, u1), o1) + HeaderText(RequestLine(v2, a2, u2), o2)
    ensures chunks != []
    ensures var t1, t2 := HeaderText(RequestLine(v1, a1, u1), o1), HeaderText(RequestLine(v2, a2, u2), o2);
            var calls := Feed(FRESH, chunks, find).calls;
            && (|calls| >= 2 <==> |t2| >= |t1| && |Stream(chunks[..|chunks| - 1])| >= |t1|)
            && (|calls| >= 2 ==>
                  var d := calls[1];
                  (d.version == v2 && d.action == a2 && d.uri == u2 && d.fields == NormalAll(o2))
                  <==> (v1 == v2 && a1 == a2 && u1 == u2 && NormalAll(o1) == NormalAll(o2)))
  {
    hide ParseRequest, HeaderText, RequestLine, NormalAll, Feed, Stream, Served, Start;
    var t1, t2 := HeaderText(RequestLine(v1, a1, u1), o1), HeaderText(RequestLine(v2, a2, u2), o2);
    RequestRoundTrip(v1, a1, u1, o1);
    ParsedIsLong(t1);
    RequestIsStable(t1, t2);
    CallsAre(chunks, find);
    HasChunks(chunks);
    SecondServedIff(chunks, |t1|);
    var c, ends := Feed(FRESH, chunks, find), Served(chunks, |t1|);
    if |ends| >= 2 {
      assert CalledWith(c.calls[1], ParseRequest(t1), t1 + t2, Start(1, |t1|), ends[1], |t1|);
    }
  }

  // ---------------------------------------------------------------------
  // Two examples
  // ---------------------------------------------------------------------

  lemma ServedTwo(a: string, b: string)
    requires |a| == |b| > 0
    ensures Stream([a, b]) == a + b && Stream([a, b][..1]) == a
  {
    assert [a, b][..1] == [a] && [a][..0] == [];
    assert Stream([a]) == [] + a == a;
  }

  /** A request for /b that follows one for /a, each in an event of its own, is
      answered as one for /a. */
  lemma WrongTarget(find: Finder)
    ensures var t1 := HeaderText(RequestLine(Http11, "GET", "/a"), []);
            var t2 := HeaderText(RequestLine(Http11, "GET", "/b"), []);
            var calls := Feed(FRESH, [t1, t2], find).calls;
            && ParseRequest(t2) == Parsed(|t2|, Http11, "GET", "/b", [])
            && |calls| >= 2 && calls[1].action == "GET" && calls[1].uri == "/a"
  {
    hide ParseRequest, HeaderText, RequestLine, Feed, Stream, Served, Start;
    var t1 := HeaderText(RequestLine(Http11, "GET", "/a"), []);
    var t2 := HeaderText(RequestLine(Http11, "GET", "/b"), []);
    RequestRoundTrip(Http11, "GET", "/a", []);
    RequestRoundTrip(Http11, "GET", "/b", []);
    SameLength("GET", "/a", "/b");
    ParsedIsLong(t1);
    ServedTwo(t1, t2);
    RequestIsStable(t1, t2);
    CallsAre([t1, t2], find);
    SecondServedIff([t1, t2], |t1|);
    var c, ends := Feed(FRESH, [t1, t2], find), Served([t1, t2], |t1|);
    assert CalledWith(c.calls[1], ParseRequest(t1), t1 + t2, Start(1, |t1|), ends[1], |t1|);
  }

  lemma SameLength(a: string, u: string, w: string)
    requires NUL !in u && NUL !in w && |u| == |w|
    ensures |HeaderText(RequestLine(Http11, a, u), [])| == |HeaderText(RequestLine(Http11, a, w), [])|
  {
    CStrWhole(u);
    CStrWhole(w);
    HeaderTextParts(RequestLine(Http11, a, u), []);
    HeaderTextParts(RequestLine(Http11, a, w), []);
  }

  /** Two requests that come in one event, be they the same: the second is not served
      by it, and waits for an event that may never come. */
  lemma PipelinedStall(q: string, find: Finder)
    requires Exactly(q, find)
    ensures var c := Feed(FRESH, [q + q], find); |c.calls| == 1 && c.input == q
  {
    hide ParseRequest, ContentLength, Feed, Start;
    ParsedIsLong(q);
    RequestIsStable(q, q);
    assert [q + q][..0] == [] && Stream([q + q]) == [] + (q + q) == q + q;
    CallsAre([q + q], find);
    StartNext(0, |q|);
    assert (q + q)[|q|..] == q;
  }
}
