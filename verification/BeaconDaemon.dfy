// The daemon object: its fields are updated in place by the worker and by
// received packets, and every method is tied to the functions of BeaconProtocol
// and PeerTable, about which the theorems are proved.
module BeaconDaemon {
  import opened Basics
  import opened BeaconProtocol
  import opened PeerTable

  const MAGIC: Word := 0xbadc0de7
  const CMD_BEACON: Word := 0
  const CMD_RESERVEID: Word := 1
  const RECV_WORDS := 64

  // ---------------------------------------------------------------------
  // Packets
  // ---------------------------------------------------------------------

  /** The words multicast for a message: six for a beacon, seven for a reservation. */
  function Encode(m: Message, app: Word): seq<Word> {
    match m
    case BeaconMsg(kind, id, port) => [MAGIC, app, CMD_BEACON, kind, id, port]
    case ReserveMsg(kind, id, port, nonce) => [MAGIC, app, CMD_RESERVEID, kind, id, port, nonce]
  }

  /** What cb_recv makes of `len` bytes received into a zeroed array of words. */
  function Decode(len: nat, words: seq<Word>, app: Word): Option<Message>
    requires |words| == RECV_WORDS
  {
    if len < 24 || words[0] != MAGIC || words[1] != app then None
    else if words[2] == CMD_BEACON then Some(BeaconMsg(words[3], words[4], words[5]))
    else if words[2] == CMD_RESERVEID then Some(ReserveMsg(words[3], words[4], words[5], words[6]))
    else None
  }

  /** A packet as it lies in the receive array. */
  function Received(packet: seq<Word>): seq<Word>
    requires |packet| <= RECV_WORDS
  {
    packet + seq(RECV_WORDS - |packet|, _ => 0)
  }

  /** A daemon of the same application reads back the message that was sent; any other ignores it. */
  lemma DecodeEncode(m: Message, app: Word, other: Word)
    ensures |Encode(m, app)| <= RECV_WORDS
    ensures Decode(4 * |Encode(m, app)|, Received(Encode(m, app)), other) == if other == app then Some(m) else None
  {
    var w := Received(Encode(m, app));
    forall i | 0 <= i < |Encode(m, app)| ensures w[i] == Encode(m, app)[i] {
    }
  }

  /** What goes over the wire, word by word. */
  lemma WireLayout(m: Message, app: Word)
    ensures var p := Encode(m, app);
            && |p| == (if m.BeaconMsg? then 6 else 7)
            && p[..6] == [0xbadc0de7, app, if m.BeaconMsg? then 0 else 1, m.kind, m.id, m.port]
            && (m.ReserveMsg? ==> p[6] == m.nonce)
  {
  }

  /** A packet is taken for a message exactly when it is long enough for a beacon and
      begins with the words of the message. */
  lemma DecodeIff(len: nat, words: seq<Word>, app: Word, m: Message)
    requires |words| == RECV_WORDS
    ensures Decode(len, words, app) == Some(m) <==> len >= 24 && Encode(m, app) <= words
  {
    var p := Encode(m, app);
    if p <= words {
      assert forall i :: 0 <= i < |p| ==> words[i] == p[i];
    } else {
      var i :| 0 <= i < |p| && words[i] != p[i];
    }
  }

  // ---------------------------------------------------------------------
  // The object
  // ---------------------------------------------------------------------

  class Beacon {
    var app: Word
    var port: Word
    var kind: Word
    var timer: nat
    var interval: nat
    var timeout: nat
    var serviceId: Word
    var reservingId: Word
    var reservingNext: Word
    var nonce: Word
    var collided: bool
    var services: seq<Peer>
    // every cb_beacon_peerup and cb_beacon_peerdown so far
    ghost var trace: seq<Event>

    ghost function Node(): BeaconProtocol.Node
      reads this
    {
      BeaconProtocol.Node(kind, port, interval, timer, serviceId, reservingId, reservingNext, nonce, collided)
    }

    ghost function Peers(): Table
      reads this
    {
      Table(services, trace)
    }

    constructor ()
      ensures Peers() == Table([], []) && Matches(Peers())
      ensures serviceId == 0 && reservingId == 0
    {
      app, port, kind, timer, interval, timeout := 0, 0, 0, 0, 1000, 1000;
      serviceId, reservingId, reservingNext, nonce, collided := 0, 0, 0, 0, false;
      services, trace := [], [];
    }

    /** Prepares for negotiation; `sockets` says whether the address family is known and the socket set up. */
    method Init(app: Word, kind: Word, port: Word, interval: nat, timeout: nat, sockets: bool) returns (ok: bool)
      modifies this
      ensures ok == sockets && Fresh(Node()) && Peers() == old(Peers())
      ensures this.app == app && this.kind == kind && this.port == port
      ensures this.interval == interval && this.timeout == timeout && nonce == old(nonce)
    {
      this.app, this.kind, this.port := app, kind, port;
      this.interval, this.timeout := interval, timeout;
      serviceId, reservingId, reservingNext, timer, collided := 0, 0, 0, 0, true;
      return sockets;
    }

    method SendBeacon() returns (sent: Option<Message>)
      ensures sent == BeaconOf(Node())
    {
      if serviceId == 0 { return None; }
      return Some(BeaconMsg(kind, serviceId, port));
    }

    method SendReserveId(id: Word) returns (sent: Option<Message>)
      ensures id == reservingId ==> sent == ReservationOf(Node())
      ensures sent == if id == 0 then None else Some(ReserveMsg(kind, id, port, nonce))
    {
      if id == 0 { return None; }
      return Some(ReserveMsg(kind, id, port, nonce));
    }

    /** One pass of the worker up to the health check. `c` holds the answer of
        cb_beacon_createid and the random draws; `ready` is the id passed to cb_beacon_ready, if any. */
    method WorkerTurn(now: nat, c: Choice) returns (sent: Option<Message>, ready: Option<Word>)
      modifies this
      ensures Outcome(Node(), sent, ready) == Turn(old(Node()), now, c)
      ensures Peers() == old(Peers()) && app == old(app) && timeout == old(timeout)
    {
      sent, ready := None, None;
      if serviceId == 0 {
        if Elapsed(now, timer) >= NEGOTIATE_INTERVAL {
          timer := now;
          if collided {
            reservingId := c.id;
            reservingNext := (reservingNext + c.skip % 4 + 1) % WORD_RANGE;
            nonce := c.nonce;
            collided := false;
            sent := SendReserveId(reservingId);
          } else {
            serviceId := reservingId;
            reservingId := 0;
            sent := SendBeacon();
            ready := Some(serviceId);
          }
        }
      } else if Elapsed(now, timer) >= interval {
        timer := now;
        sent := SendBeacon();
      }
    }

    method ServiceUpdate(now: nat, kind: nat, id: nat, addr: SockAddr)
      modifies this`services, this`trace
      ensures Peers() == Update(old(Peers()), now, kind, id, addr)
      ensures old(Matches(Peers())) ==> Matches(Peers())
    {
      UpdateMatchesIf(Peers(), now, kind, id, addr);
      var i := 0;
      while i < |services|
        invariant 0 <= i <= |services| && Peers() == old(Peers())
        invariant forall j :: 0 <= j < i ==> KeyOf(services[j]) != KeyFor(kind, id, addr)
      {
        if services[i].kind == kind && services[i].id == id && SameHost(services[i].addr, addr) {
          services := services[i := services[i].(seen := now)];
          return;
        }
        i := i + 1;
      }
      services := services + [Peer(kind, id, now, addr)];
      trace := trace + [Up(kind, id, addr)];
    }

    method ServiceRemove(addr: SockAddr) returns (found: bool)
      modifies this`services, this`trace
      ensures Peers() == Remove(old(Peers()), addr)
      ensures found == exists p :: p in old(services) && SameHost(p.addr, addr)
      ensures old(Matches(Peers())) ==> Matches(Peers())
    {
      RemoveMatchesIf(Peers(), addr);
      var i := 0;
      while i < |services|
        invariant 0 <= i <= |services| && Peers() == old(Peers())
        invariant forall j :: 0 <= j < i ==> !SameHost(services[j].addr, addr)
      {
        if SameHost(services[i].addr, addr) {
          trace := trace + [Down(services[i].kind, services[i].id, addr)];
          services := services[..i] + services[i + 1..];
          return true;
        }
        i := i + 1;
      }
      return false;
    }

    /** The callback of an eviction calls remove_peer on each of these addresses. */
    method RemovePeers(addrs: seq<SockAddr>)
      modifies this`services, this`trace
      ensures Peers() == RemoveAll(old(Peers()), addrs)
    {
      var i := 0;
      while i < |addrs|
        invariant 0 <= i <= |addrs|
        invariant RemoveAll(Peers(), addrs[i..]) == RemoveAll(old(Peers()), addrs)
      {
        var _ := ServiceRemove(addrs[i]);
        i := i + 1;
      }
    }

    /** One eviction: the entry goes, then the callback learns of it and removes what it likes. */
    method DropAt(i: nat, addrs: seq<SockAddr>)
      requires i < |services|
      modifies this`services, this`trace
      ensures Peers() == EvictAt(old(Peers()), i, addrs) && |services| < |old(services)|
    {
      var p := services[i];
      services := services[..i] + services[i + 1..];
      trace := trace + [Down(p.kind, p.id, p.addr)];
      RemoveAllShrinks(Peers(), addrs);
      RemovePeers(addrs);
    }

    /** The scan that starts over after every eviction. `removals[n]` is what the
        application removes from within the n-th eviction's callback. */
    method ServiceHealthCheck(now: nat, removals: seq<seq<SockAddr>>)
      modifies this`services, this`trace
      ensures Peers() == Evict(old(Peers()), now, timeout, removals)
      ensures old(Matches(Peers())) ==> Matches(Peers())
    {
      hide EvictAt, Matches;
      EvictMatchesIf(Peers(), now, timeout, removals);
      var i := 0;
      var left := removals;
      while i < |services|
        invariant 0 <= i <= |services|
        invariant forall j :: 0 <= j < i ==> !Stale(services[j], now, timeout)
        invariant Evict(Peers(), now, timeout, left) == Evict(old(Peers()), now, timeout, removals)
        decreases |services|, |services| - i
      {
        if Elapsed(now, services[i].seen) < timeout {
          i := i + 1;
        } else {
          assert FirstStale(Peers().peers, now, timeout) == i;
          DropAt(i, Head(left));
          left := Tail(left);
          i := 0;
        }
      }
    }

    /** One received packet of `len` bytes (none if `len` is not positive). */
    method CbRecv(len: int, words: seq<Word>, from: SockAddr, now: nat) returns (more: bool, sent: Option<Message>)
      requires |words| == RECV_WORDS
      modifies this
      ensures more == (len > 0)
      ensures len <= 0 || Decode(len, words, old(app)).None? ==>
                sent == None && Node() == old(Node()) && Peers() == old(Peers())
      ensures len > 0 && Decode(len, words, old(app)).Some? ==>
                var m := Decode(len, words, old(app)).value;
                var o := Receive(old(Node()), m);
                && Node() == o.node && sent == o.sent
                && Peers() == if m.BeaconMsg? && m.id != old(serviceId)
                              then Update(old(Peers()), now, m.kind, m.id, from.(port := m.port % 0x10000))
                              else old(Peers())
      ensures app == old(app) && timeout == old(timeout)
      ensures old(Matches(Peers())) ==> Matches(Peers())
    {
      sent := None;
      if len <= 0 { return false, None; }
      more := true;
      if len < 24 || words[0] != MAGIC || words[1] != app { return; }
      var id := words[4];
      if words[2] == CMD_BEACON {
        if id == reservingId {
          collided := true;
          timer := 0;
        }
        if id != serviceId {
          ServiceUpdate(now, words[3], id, from.(port := words[5] % 0x10000));
        }
      } else if words[2] == CMD_RESERVEID {
        if id == reservingId && words[6] != nonce {
          collided := true;
          timer := 0;
        }
        if id == serviceId {
          sent := SendBeacon();
        }
      }
    }
  }

  lemma UpdateMatchesIf(t: Table, now: nat, kind: nat, id: nat, addr: SockAddr)
    ensures Matches(t) ==> Matches(Update(t, now, kind, id, addr))
  {
    if Matches(t) { UpdateMatches(t, now, kind, id, addr); }
  }

  lemma RemoveMatchesIf(t: Table, addr: SockAddr)
    ensures Matches(t) ==> Matches(Remove(t, addr))
  {
    if Matches(t) { RemoveMatches(t, addr); }
  }

  lemma EvictMatchesIf(t: Table, now: nat, timeout: nat, removals: seq<seq<SockAddr>>)
    ensures Matches(t) ==> Matches(Evict(t, now, timeout, removals))
  {
    if Matches(t) { EvictMatches(t, now, timeout, removals); }
  }
}
