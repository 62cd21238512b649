// What the server's answers come to: the 404 as a client reads it, and when what the
// application and the server queue is committed.
module HttpAnswers {
  import opened Text
  import opened StringUtil
  import opened Decimal
  import opened HttpHeader
  import opened HttpRoundTrip
  import opened HttpFraming
  import opened HttpLookup
  import opened HttpServer
  import opened ByteBuffer
  import opened TcpStream

  lemma NoBlanks(s: string)
    requires s != [] && s[0] !in BLANKS && s[|s| - 1] !in BLANKS
    ensures Trim(s) == s
  {
    assert Core(s, 0, |s|) && s[0..|s|] == s;
    TrimIs(s, 0, |s|);
  }

  lemma LengthIsLowercase()
    ensures Lowercase(CONTENT_LENGTH) && Trim(CONTENT_LENGTH) == CONTENT_LENGTH
    ensures Lower(CONTENT_LENGTH) == CONTENT_LENGTH && Free(CONTENT_LENGTH, {':', '\r', '\n', NUL})
  {
    hide Trim, Lower;
    NoBlanks(CONTENT_LENGTH);
    LowerIff(CONTENT_LENGTH, CONTENT_LENGTH);
  }

  /** A client reads the 404 as that, with no content, and nothing of it is left over. */
  lemma NotFoundIsReadBack()
    ensures ParseResponse(NotFoundText())
            == Response(|NotFoundText()|, Http11, 404, [Field("content-length", "0")])
  {
    hide Trim, Lower, HeaderText, StatusLine, ParseResponse, NotFoundText, NatText;
    LengthIsLowercase();
    var f := Field(CONTENT_LENGTH, NatText(0));
    ZeroText();
    NoBlanks("0");
    ShortText();
    assert CleanField(f);
    ResponseRoundTrip(Http11, 404, [f]);
    OneNormal(f);
    var text := HeaderText(StatusLine(Http11, 404), [f]);
    assert text + "" == text;
  }

  lemma ZeroText()
    ensures NatText(0) == "0"
  {
  }

  lemma OneNormal(f: Field)
    ensures NormalAll([f]) == [Field(Lower(Trim(f.key)), Trim(f.value))]
  {
    hide Trim, Lower;
    assert [f][1..] == [];
  }

  /** What is queued within the address space is committed as a whole, behind what is there
      already, if and only if there is memory or room; otherwise nothing changes. */
  lemma QueueIff(o: Outbox, reserve: nat, data: seq<Byte>, mem: bool)
    requires o.capacity % 16 == 0 && o.size + reserve + 15 <= MAX_BLOCK
    ensures var fits := mem || o.size + reserve <= o.capacity;
            var q := Queue(o, reserve, data, mem);
            && q.committed == o.committed + (if fits then data else [])
            && q.size == o.size + (if fits then |data| else 0)
            && o.capacity <= q.capacity && q.capacity % 16 == 0
            && (if fits then o.size + reserve <= q.capacity else q == o)
  {
    hide Pad, Granted;
    GrantedIff(o.capacity, o.size + reserve, mem);
    assert o.committed + [] == o.committed;
  }

  /** What the application sends first is queued first. */
  lemma {:induction false} FirstSentFirst(o: Outbox, pieces: seq<Piece>)
    requires pieces != [] && forall i :: 0 <= i < |pieces| ==> Sendable(pieces[i])
    ensures var p := pieces[0];
            && Sendable(p)
            && QueueAll(o, pieces) == QueueAll(Queue(o, |p.space|, p.space[..p.n], p.mem), pieces[1..])
    decreases |pieces|
  {
    hide Queue, Sendable;
    var init, last := pieces[..|pieces| - 1], pieces[|pieces| - 1];
    assert Sendable(pieces[0]) && Sendable(last);
    if init == [] {
      assert pieces[1..] == [] && pieces == [last];
    } else {
      FirstSentFirst(o, init);
      assert pieces[1..][..|pieces| - 2] == init[1..] && pieces[1..][|pieces| - 2] == last;
    }
  }

  /** However often a connection is closed: nothing happens at no close; an unmanaged
      one is closed for good; a managed one waits to be reaped, as refused if it was
      connecting and has been closed just once. */
  lemma {:induction false} ClosedTimesIs(s: State, managed: bool, n: nat)
    ensures ClosedTimes(s, managed, n)
            == if n == 0 then s
               else if !managed || s == Closed then Closed
               else if n == 1 && s == Connecting then Refused
               else Closing
  {
    if n > 0 { ClosedTimesIs(s, managed, n - 1); }
  }

  /** The answer to a request: what the application sent and, only if it did not handle
      the request, a 404 behind it. */
  lemma AnswerIs(o: Outbox, r: HttpReply, mem: bool)
    requires AllSendable(r)
    requires var p := QueueAll(o, r.sends);
             p.capacity % 16 == 0 && p.size + 16384 + 15 <= MAX_BLOCK && (mem || p.size + 16384 <= p.capacity)
    ensures var p, q := QueueAll(o, r.sends), Served(o, r, mem);
            if r.handled then q == p
            else p.committed <= q.committed
                 && var answer := q.committed[|p.committed|..];
                    && q.size == p.size + |answer|
                    && ParseResponse(answer) == Response(|answer|, Http11, 404, [Field("content-length", "0")])
  {
    hide QueueAll, Queue, NotFoundText, ParseResponse;
    var p := QueueAll(o, r.sends);
    if !r.handled {
      QueueIff(p, HEADER_SPACE, NotFoundText(), mem);
      NotFoundIsReadBack();
      assert (p.committed + NotFoundText())[|p.committed|..] == NotFoundText();
    }
  }
}
