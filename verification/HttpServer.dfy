// The HTTP server helper on top of a connection: input framing and responses.
module HttpServer {
  import opened Basics
  import opened Text
  import opened Decimal
  import opened HttpHeader
  import opened HttpFraming
  import opened ByteBuffer
  import opened TcpStream

  /** The key of the connection data in the connection's user data. */
  const HTP: nat := 0x5f687470
  const HEADER_SPACE: nat := 16384

  class ConnectionData {
    var headerLen: int
    var contentLen: int
    const header: HttpRequestHeader

    constructor ()
      ensures headerLen == 0 && contentLen == -1 && fresh(header)
      ensures header.version == Http11 && header.action == "" && header.uri == "" && header.fields == []
    {
      headerLen, contentLen := 0, -1;
      header := new HttpRequestHeader();
    }
  }

  /** What a response adds to the output. */
  function ResponseText(status: int, order: seq<Field>, data: string): string {
    HeaderText(StatusLine(Http11, status), order) + data
  }

  function NotFoundText(): string {
    ResponseText(404, [Field(CONTENT_LENGTH, NatText(0))], "")
  }

  /** The sending side of a connection: its buffer's capacity and size, and all that was committed. */
  datatype Outbox = Outbox(capacity: nat, size: nat, committed: seq<Byte>)

  /** Room for so many bytes is reserved, and `data` committed to it, if there is memory. */
  function Queue(o: Outbox, reserve: nat, data: seq<Byte>, mem: bool): Outbox {
    if o.size + reserve < SIZE_RANGE && Granted(o.capacity, o.size + reserve, mem) then
      Outbox(Max(o.capacity, Pad(o.size + reserve)), o.size + |data|, o.committed + data)
    else o
  }

  /** One send of the application: the space as it leaves it, and how much of it counts. */
  datatype Piece = Piece(space: seq<Byte>, n: nat, mem: bool)

  predicate Sendable(p: Piece) {
    p.n <= |p.space| <= MAX_BLOCK
  }

  function QueueAll(o: Outbox, pieces: seq<Piece>): Outbox
    requires forall i :: 0 <= i < |pieces| ==> Sendable(pieces[i])
  {
    if pieces == [] then o
    else
      var p := pieces[|pieces| - 1];
      assert Sendable(p);
      Queue(QueueAll(o, pieces[..|pieces| - 1]), |p.space|, p.space[..p.n], p.mem)
  }

  /** What cb_http does: its answer, what it sends, and how often it closes. */
  datatype HttpReply = HttpReply(handled: bool, sends: seq<Piece>, closes: nat)

  predicate AllSendable(r: HttpReply) {
    forall i :: 0 <= i < |r.sends| ==> Sendable(r.sends[i])
  }

  /** The sending side after a request: what the application sent, and a 404 if it did not handle it. */
  function Served(o: Outbox, r: HttpReply, mem: bool): Outbox
    requires AllSendable(r)
  {
    var p := QueueAll(o, r.sends);
    if r.handled then p else Queue(p, HEADER_SPACE, NotFoundText(), mem)
  }

  function ClosedTimes(s: State, managed: bool, n: nat): State {
    if n == 0 then s else AfterClose(ClosedTimes(s, managed, n - 1), managed)
  }

  lemma OneFieldLength(first: string, f: Field)
    ensures |HeaderText(first, [f])| == |first| + |FieldLine(f)| + 6
  {
    hide FieldLine;
    FieldLinesSnoc([], f);
    assert [] + [f] == [f] && FieldLines([]) + [FieldLine(f)] == [FieldLine(f)];
    LinesSnoc([], first);
    assert [] + [first] == [first] && Lines([]) + (first + CRLF) == first + CRLF;
    LinesSnoc([first], FieldLine(f));
  }

  lemma ShortNumber(n: nat)
    requires n < 1000
    ensures |NatText(n)| <= 3
  {
    assert n / 10 < 100 && n / 10 / 10 < 10;
    assert |NatText(n / 10 / 10)| == 1;
    assert |NatText(n / 10)| <= 2;
  }

  lemma NotFoundPhrase()
    ensures |StatusMessage(404)| == 9
  {
  }

  /** The header of a 404 fits easily. */
  lemma ShortText()
    ensures |HeaderText(StatusLine(Http11, 404), [Field(CONTENT_LENGTH, NatText(0))])| < HEADER_SPACE
    ensures HeaderText(StatusLine(Http11, 404), [Field(CONTENT_LENGTH, NatText(0))]) + "" == NotFoundText()
  {
    hide HeaderText, StatusMessage, NatText, CStr;
    ShortNumber(404);
    ShortNumber(0);
    NotFoundPhrase();
    OneFieldLength(StatusLine(Http11, 404), Field(CONTENT_LENGTH, NatText(0)));
  }

  class Session {
    const tcp: Tcp
    var ud: map<nat, ConnectionData>
    ghost var calls: seq<Call>

    ghost function Footprint(): set<object>
      reads this, tcp, tcp.ibuf, tcp.obuf, ud.Values
    {
      {this} + tcp.Footprint() + (if HTP in ud then {ud[HTP], ud[HTP].header} else {})
    }

    ghost predicate Valid()
      reads this, tcp, tcp.ibuf, tcp.obuf, ud.Values, Footprint()
    {
      tcp.Valid()
    }

    /** The output buffer holds n more bytes, or can be made to. */
    ghost predicate Room(n: nat, mem: bool)
      reads tcp.obuf
    {
      tcp.obuf.size + n < SIZE_RANGE && Granted(tcp.obuf.capacity, tcp.obuf.size + n, mem)
    }

    ghost function Out(): Outbox
      reads tcp, tcp.obuf
    {
      Outbox(tcp.obuf.capacity, tcp.obuf.size, tcp.committed)
    }

    /** The connection as the framing theorems see it. */
    ghost function Seen(): Conn
      requires Valid() && HTP in ud
      reads this, tcp, tcp.ibuf, tcp.obuf, ud.Values, Footprint()
    {
      var d := ud[HTP];
      Conn(tcp.ibuf.Contents(), d.headerLen, d.contentLen,
           d.header.version, d.header.action, d.header.uri, d.header.fields, calls)
    }

    constructor ()
      ensures Valid() && ud == map[] && calls == [] && fresh(Footprint())
    {
      tcp := new Tcp();
      ud := map[];
      calls := [];
    }

    /** Attaches fresh connection data, unless there are some already. */
    method HttpAccepted()
      requires Valid()
      modifies this`ud
      ensures Valid() && tcp.ibuf.Contents() == old(tcp.ibuf.Contents())
      ensures ud.Keys == old(ud.Keys) + {HTP} && forall k :: k in old(ud) ==> ud[k] == old(ud)[k]
      ensures HTP !in old(ud) ==> fresh(ud[HTP]) && fresh(ud[HTP].header)
      ensures HTP !in old(ud) && calls == [] && tcp.ibuf.Contents() == [] ==> Seen() == HttpFraming.FRESH
    {
      var data := new ConnectionData();
      if HTP !in ud {
        ud := ud[HTP := data];
      }
    }

    /** Takes the connection data away again. */
    method HttpClosed()
      requires Valid()
      modifies this`ud
      ensures Valid() && ud == old(ud) - {HTP}
    {
      if HTP in ud {
        ud := ud - {HTP};
      }
    }

    /** Queues a printed header and the data behind it in one piece, or closes the
        connection when the header is too long for the space set aside for it. */
    method HttpResponse(header: HttpResponseHeader, order: seq<Field>, data: Option<string>, mem: bool)
      returns (ok: bool)
      requires Valid() && multiset(order) == multiset(header.fields)
      requires data.Some? ==> |data.value| + HEADER_SPACE <= MAX_BLOCK
      modifies tcp.Footprint()
      ensures Valid() && fresh(tcp.Footprint() - old(tcp.Footprint()))
      ensures tcp.ibuf.Contents() == old(tcp.ibuf.Contents())
      ensures tcp.received == old(tcp.received) && tcp.consumed == old(tcp.consumed)
      ensures tcp.accepted == old(tcp.accepted)
      ensures ok == (data != Some("") && old(Room(HEADER_SPACE + if data.Some? then |data.value| else 0, mem)))
      ensures var text := HeaderText(StatusLine(old(header.version), old(header.status)), order);
              var sent := ok && |text| < HEADER_SPACE;
              && tcp.committed == old(tcp.committed)
                                  + (if sent then text + (if data.Some? then data.value else "") else "")
              && tcp.state == (if ok && !sent then AfterClose(old(tcp.state), tcp.managed) else old(tcp.state))
              && tcp.managed == old(tcp.managed)
              && (data != Some("") ==>
                    var body := if data.Some? then data.value else "";
                    Out() == Queue(old(Out()), HEADER_SPACE + |body|, if sent then text + body else "", mem))
    {
      hide HeaderText, StatusLine, Buffer.Contents, Granted, Pad;
      assert tcp.committed + "" == tcp.committed;
      if data == Some("") { return false; }
      var body := if data.Some? then data.value else "";
      var written, n := Compose(header, order, body);
      ok := tcp.SendReserved(HEADER_SPACE + |body|, written, n, mem);
    }

    /** The callback of send: the space it was given as it leaves it, and its answer. */
    method Compose(header: HttpResponseHeader, order: seq<Field>, body: string) returns (written: seq<Byte>, n: int)
      requires multiset(order) == multiset(header.fields)
      ensures var text := HeaderText(StatusLine(header.version, header.status), order);
              && |written| == HEADER_SPACE + |body|
              && n == (if |text| < HEADER_SPACE then |text| + |body| else -1)
              && (n >= 0 ==> written[..n] == text + body)
    {
      hide HeaderText, StatusLine;
      var space := new Byte[HEADER_SPACE];
      n := header.WriteTo(space, HEADER_SPACE, order);
      written := space[..];
      if n < 0 {
        written := written + body;
      } else {
        written := written[..n] + body + written[n..];
        n := n + |body|;
      }
    }

    /** The answer to a request the application did not handle. */
    method NotFound(mem: bool) returns (ok: bool)
      requires Valid()
      modifies tcp.Footprint()
      ensures Valid() && fresh(tcp.Footprint() - old(tcp.Footprint()))
      ensures tcp.ibuf.Contents() == old(tcp.ibuf.Contents())
      ensures tcp.received == old(tcp.received) && tcp.consumed == old(tcp.consumed)
      ensures tcp.accepted == old(tcp.accepted) && tcp.state == old(tcp.state)
      ensures tcp.managed == old(tcp.managed)
      ensures ok == old(Room(HEADER_SPACE, mem)) && Out() == Queue(old(Out()), HEADER_SPACE, NotFoundText(), mem)
    {
      hide Pad, Granted, HeaderText, StatusLine, NatText, NotFoundText, Buffer.Contents, Buffer.Valid;
      var response := new HttpResponseHeader(404);
      response.fields := [Field(CONTENT_LENGTH, NatText(0))];
      ShortText();
      ok := HttpResponse(response, response.fields, None, mem);
    }

    /** Reads the header, unless it has been read or rejected already. */
    method ReadHeader(find: Finder)
      requires Valid() && HTP in ud
      modifies Footprint() - {this} - tcp.Footprint()
      ensures Valid() && Seen() == HttpFraming.ReadHeader(old(Seen()), find)
    {
      hide HttpHeader.ParseRequest, ContentLength, Buffer.Contents, Buffer.Valid;
      var data := ud[HTP];
      var text := tcp.ibuf.Read();
      if ParseRequest(text).Parsed? { ParsedIsLong(text); }
      if data.headerLen == 0 {
        data.headerLen := data.header.ReadFrom(text);
        if data.headerLen == 0 { return; }
        data.contentLen := ContentLength(data.header.fields, find);
      }
    }

    /** One send of the application. */
    method Send(p: Piece)
      requires Valid() && Sendable(p)
      modifies tcp.Footprint()
      ensures Valid() && fresh(tcp.Footprint() - old(tcp.Footprint()))
      ensures tcp.ibuf.Contents() == old(tcp.ibuf.Contents())
      ensures tcp.received == old(tcp.received) && tcp.consumed == old(tcp.consumed)
      ensures tcp.accepted == old(tcp.accepted) && tcp.state == old(tcp.state) && tcp.managed == old(tcp.managed)
      ensures Out() == Queue(old(Out()), |p.space|, p.space[..p.n], p.mem)
    {
      hide Buffer.Contents, Granted, Pad;
      assert p.space[..0] == [] && tcp.committed + [] == tcp.committed;
      var ok := tcp.SendReserved(|p.space|, p.space, p.n, p.mem);
    }

    /** All sends of cb_http, one after the other. */
    method SendAll(sends: seq<Piece>)
      requires Valid() && forall i :: 0 <= i < |sends| ==> Sendable(sends[i])
      modifies tcp.Footprint()
      ensures Valid() && fresh(tcp.Footprint() - old(tcp.Footprint()))
      ensures tcp.ibuf.Contents() == old(tcp.ibuf.Contents())
      ensures tcp.received == old(tcp.received) && tcp.consumed == old(tcp.consumed)
      ensures tcp.accepted == old(tcp.accepted) && tcp.state == old(tcp.state) && tcp.managed == old(tcp.managed)
      ensures Out() == QueueAll(old(Out()), sends)
    {
      hide Buffer.Contents, Buffer.Valid, Queue, Sendable;
      for i := 0 to |sends|
        invariant Valid() && fresh(tcp.Footprint() - old(tcp.Footprint()))
        invariant tcp.ibuf.Contents() == old(tcp.ibuf.Contents())
        invariant tcp.received == old(tcp.received) && tcp.consumed == old(tcp.consumed)
        invariant tcp.accepted == old(tcp.accepted) && tcp.state == old(tcp.state) && tcp.managed == old(tcp.managed)
        invariant Out() == QueueAll(old(Out()), sends[..i])
      {
        assert sends[..i + 1][..i] == sends[..i];
        Send(sends[i]);
      }
      assert sends[..|sends|] == sends;
    }

    method CloseAll(n: nat)
      requires Valid()
      modifies tcp`state, tcp`open, tcp`waiting, tcp`told
      ensures Valid() && tcp.state == ClosedTimes(old(tcp.state), tcp.managed, n)
    {
      hide Buffer.Contents, Buffer.Valid, AfterClose;
      for i := 0 to n
        modifies tcp`state, tcp`open, tcp`waiting, tcp`told
        invariant Valid() && tcp.state == ClosedTimes(old(tcp.state), tcp.managed, i)
      {
        tcp.Close();
      }
    }

    /** What cb_http does to its connection. */
    method Act(r: HttpReply)
      requires Valid() && AllSendable(r)
      modifies tcp.Footprint()
      ensures Valid() && fresh(tcp.Footprint() - old(tcp.Footprint()))
      ensures tcp.ibuf.Contents() == old(tcp.ibuf.Contents())
      ensures tcp.received == old(tcp.received) && tcp.consumed == old(tcp.consumed)
      ensures tcp.accepted == old(tcp.accepted) && tcp.managed == old(tcp.managed)
      ensures tcp.state == ClosedTimes(old(tcp.state), tcp.managed, r.closes)
      ensures Out() == QueueAll(old(Out()), r.sends)
    {
      hide Buffer.Contents, Buffer.Valid, Queue, QueueAll, Sendable, ClosedTimes;
      SendAll(r.sends);
      CloseAll(r.closes);
    }

    /** Calls cb_http, which does what r says. */
    method Dispatch(r: HttpReply, mem: bool, ghost c: Conn)
      requires Complete(c) && Valid() && HTP in ud && Seen() == c && AllSendable(r)
      modifies this`calls, tcp.Footprint()
      ensures Valid() && tcp.ibuf.Contents() == old(tcp.ibuf.Contents())
      ensures tcp.received == old(tcp.received) && tcp.consumed == old(tcp.consumed)
      ensures tcp.accepted == old(tcp.accepted) && tcp.managed == old(tcp.managed)
      ensures tcp.state == ClosedTimes(old(tcp.state), tcp.managed, r.closes)
      ensures HTP in ud && Seen() == Called(c) && |calls| == |old(calls)| + 1
      ensures Out() == Served(old(Out()), r, mem)
    {
      hide Buffer.Contents, NotFoundText, Buffer.Valid, Session.Room, Queue, QueueAll, ClosedTimes, AllSendable;
      var header := ud[HTP].header;
      var text := tcp.ibuf.Read();
      calls := calls + [Call(header.version, header.action, header.uri, header.fields, text[ud[HTP].headerLen..])];
      Act(r);
      if !r.handled {
        var ok := NotFound(mem);
      }
    }

    /** What recv's callback does with the buffered bytes, and the number it returns. */
    method Process(find: Finder, r: HttpReply, mem: bool, ghost c: Conn) returns (processed: int)
      requires Valid() && AllSendable(r) && HTP in ud && Seen() == c
      modifies Footprint()
      ensures Valid() && ud == old(ud) && tcp.ibuf.Contents() == old(tcp.ibuf.Contents())
      ensures tcp.received == old(tcp.received) && tcp.consumed == old(tcp.consumed)
      ensures tcp.accepted == old(tcp.accepted) && tcp.managed == old(tcp.managed)
      ensures var d := HttpFraming.ReadHeader(c, find);
              if Complete(d) then
                && processed == d.headerLen + d.contentLen && Seen() == Called(d) && |calls| == |old(calls)| + 1
                && Out() == Served(old(Out()), r, mem)
                && tcp.state == ClosedTimes(old(tcp.state), tcp.managed, r.closes)
              else
                && -1 <= processed <= 0 && Seen() == d && calls == old(calls)
                && Out() == old(Out()) && tcp.state == old(tcp.state)
    {
      hide HttpFraming.ReadHeader, Called, Served, ClosedTimes, AllSendable, Session.Room;
      hide Buffer.Contents, Buffer.Valid;
      ReadHeader(find);
      var data := ud[HTP];
      if data.headerLen == 0 { return 0; }
      if data.headerLen < 0 { return -1; }
      if data.contentLen < 0 { return -1; }
      var text := tcp.ibuf.Read();
      if |text| < data.headerLen + data.contentLen { return 0; }
      Dispatch(r, mem, Seen());
      return data.headerLen + data.contentLen;
    }

    /** Handles one receive event. `find` stands for the multimap's lookup, r for what
        cb_http does, `mem` for the allocator in case a 404 is sent. */
    method HttpRecv(find: Finder, r: HttpReply, mem: bool) returns (ok: bool)
      requires Valid() && AllSendable(r)
      modifies Footprint()
      ensures ok && Valid() && ud == old(ud) && tcp.received == old(tcp.received)
      ensures tcp.accepted == old(tcp.accepted) && tcp.managed == old(tcp.managed)
      ensures HTP !in ud ==> tcp.ibuf.Contents() == old(tcp.ibuf.Contents()) && calls == old(calls)
      ensures HTP in ud ==> Seen() == HttpFraming.HttpRecv(old(Seen()), find)
      ensures |calls| == |old(calls)| ==> Out() == old(Out()) && tcp.state == old(tcp.state)
      ensures |calls| > |old(calls)| ==>
                Out() == Served(old(Out()), r, mem) && tcp.state == ClosedTimes(old(tcp.state), tcp.managed, r.closes)
    {
      hide HttpFraming.ReadHeader, Buffer.Contents, Served, ClosedTimes, AllSendable, Session.Room;
      ghost var before := tcp.ibuf.Contents();
      assert before[0..] == before && |before| == tcp.ibuf.size;
      if tcp.ibuf.size == 0 { return true; }
      var processed := -1;
      if HTP in ud {
        processed := Process(find, r, mem, Seen());
      }
      tcp.Recv(if processed < 0 then SIZE_RANGE + processed else processed);
      return true;
    }
  }
}
