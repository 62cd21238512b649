// When a daemon puts packets on the network, over any run of the reservation
// protocol: what it multicasts, to whom, and how long after it last did so.
module BeaconSpeech {
  import opened Basics
  import opened BeaconProtocol
  import opened BeaconSafety

  /** The packet m, and nothing else, has been multicast between s and s'. */
  ghost predicate Multicasts(s: System, s': System, m: Message, due: nat) {
    && s'.sent == s.sent + {m}
    && forall c :: s'.net[c] == s.net[c] + if c.msg == m && c.dst < |s.nodes| && c.due == due then 1 else 0
  }

  lemma {:induction false} MulticastCounts(m: Message, n: nat, due: nat, c: Copy)
    ensures Multicast(Some(m), n, due)[c] == if c.msg == m && c.dst < n && c.due == due then 1 else 0
  {
    if n > 0 {
      MulticastCounts(m, n - 1, due, c);
    }
  }

  lemma MulticastAdds(net: multiset<Copy>, m: Message, n: nat, due: nat)
    ensures forall c :: (net + Multicast(Some(m), n, due))[c]
                        == net[c] + if c.msg == m && c.dst < n && c.due == due then 1 else 0
  {
    forall c ensures (net + Multicast(Some(m), n, due))[c]
                     == net[c] + if c.msg == m && c.dst < n && c.due == due then 1 else 0 {
      MulticastCounts(m, n, due, c);
    }
  }

  /** What node i's own clock shows at a turn of its own that changes anything; otherwise `last`. */
  function ActedAt(s: System, st: Step, w: World, i: nat, last: nat): nat
    requires Enabled(s, st, w) && i < |s.nodes|
  {
    if st.Work? && st.i == i && Apply(s, st, w) != s then s.clock + s.skew[i] else last
  }

  /** What node i's own clock showed at its last turn that changed anything, or `last` if there is none in the run. */
  function LastAct(s: System, run: seq<Step>, w: World, i: nat, last: nat): nat
    requires Valid(s, run, w) && i < |s.nodes|
    decreases |run|
  {
    if run == [] then last else LastAct(Apply(s, run[0], w), run[1..], w, i, ActedAt(s, run[0], w, i, last))
  }

  /** A disputed node does not remember when it last acted; every other one does. */
  predicate Remembers(n: Node, last: nat) {
    if n.collided then n.timer == 0 && n.serviceId == 0 else n.timer == last
  }

  /** A turn that is not due changes nothing at all, and every other one sets the timer. */
  lemma IdleOrActs(s: System, w: World, i: nat, c: Choice)
    requires Shaped(s) && Enabled(s, Work(i, c), w) && s.nodes[i].timer <= s.clock + s.skew[i]
    requires s.nodes[i].collided ==> s.nodes[i].serviceId == 0
    ensures var s', n, now := Apply(s, Work(i, c), w), s.nodes[i], s.clock + s.skew[i];
            && |s'.nodes| == |s.nodes| && (s' == s || s'.nodes[i].timer == now)
            && (s'.nodes[i] == n || !s'.nodes[i].collided)
            && (now - n.timer < (if n.serviceId == 0 then NEGOTIATE_INTERVAL else n.interval) ==> s' == s)
  {
    var s', n, now := Apply(s, Work(i, c), w), s.nodes[i], s.clock + s.skew[i];
    if now - n.timer < (if n.serviceId == 0 then NEGOTIATE_INTERVAL else n.interval) {
      assert s.nodes[i := n] == s.nodes;
      assert s'.net == s.net;
    }
  }

  lemma ReceiptRemembers(n: Node, m: Message, last: nat)
    requires Remembers(n, last) && m.id != 0 && (n.serviceId != 0 ==> n.reservingId == 0)
    ensures Remembers(Receive(n, m).node, last)
  {
  }

  lemma DeliverRemembers(s: System, w: World, i: nat, c: Copy, last: nat)
    requires Sane(s) && Enabled(s, Deliver(c), w) && i < |s.nodes| && Remembers(s.nodes[i], last)
    ensures var s' := Apply(s, Deliver(c), w); i < |s'.nodes| && Remembers(s'.nodes[i], last)
  {
    assert c in s.net && c.msg.id != 0 && NodeSane(s, i);
    hide Sane, NodeSane, Multicast, Receive, Remembers;
    if c.dst == i { ReceiptRemembers(s.nodes[i], c.msg, last); }
  }

  lemma TurnRemembers(s: System, w: World, i: nat, c: Choice, last: nat)
    requires Sane(s) && Enabled(s, Work(i, c), w) && Remembers(s.nodes[i], last)
    ensures var s' := Apply(s, Work(i, c), w);
            i < |s'.nodes| && Remembers(s'.nodes[i], ActedAt(s, Work(i, c), w, i, last))
  {
    assert NodeSane(s, i);
    hide Sane, NodeSane, Apply;
    IdleOrActs(s, w, i, c);
  }

  lemma RemembersStep(s: System, st: Step, w: World, i: nat, last: nat)
    requires Sane(s) && Enabled(s, st, w) && i < |s.nodes| && Remembers(s.nodes[i], last)
    ensures var s' := Apply(s, st, w);
            Sane(s') && |s'.nodes| == |s.nodes| && Remembers(s'.nodes[i], ActedAt(s, st, w, i, last))
  {
    hide Remembers, Turn, Receive, Multicast, Sane;
    SaneStep(s, st, w);
    if st.Deliver? {
      DeliverRemembers(s, w, i, st.copy, last);
    } else if st.Work? && st.i == i {
      TurnRemembers(s, w, i, st.choice, last);
    }
  }

  lemma {:induction false} RemembersRun(s: System, run: seq<Step>, w: World, i: nat, last: nat)
    requires Sane(s) && Valid(s, run, w) && i < |s.nodes| && Remembers(s.nodes[i], last)
    ensures var e := After(s, run, w);
            Sane(e) && |e.nodes| == |s.nodes| && Remembers(e.nodes[i], LastAct(s, run, w, i, last))
    decreases |run|
  {
    hide Sane, Remembers, Apply, Enabled, ActedAt;
    if run != [] {
      RemembersStep(s, run[0], w, i, last);
      RemembersRun(Apply(s, run[0], w), run[1..], w, i, ActedAt(s, run[0], w, i, last));
    }
  }

  /** Every node knows, over any run from the start, when it last acted. */
  lemma NodesRemember(s: System, run: seq<Step>, w: World, i: nat)
    requires Initial(s) && Valid(s, run, w) && i < |s.nodes|
    ensures var e := After(s, run, w);
            Sane(e) && |e.nodes| == |s.nodes| && Remembers(e.nodes[i], LastAct(s, run, w, i, 0))
  {
    InitialIsSafe(s, w);
    RemembersRun(s, run, w, i, 0);
  }

  lemma SentIs(s: System, st: Step, w: World, m: Message)
    requires Enabled(s, st, w) && !st.Tick? && OutcomeAt(s, st).1.sent == Some(m)
    ensures Multicasts(s.(net := s.net - OutcomeAt(s, st).2), Apply(s, st, w), m, s.clock + w.delay)
  {
    hide Turn, Receive, Multicast, NonceIsDistinct;
    MulticastAdds(s.net - OutcomeAt(s, st).2, m, |s.nodes|, s.clock + w.delay);
  }

  lemma MulticastIs(s: System, st: Step, w: World, m: Message)
    requires Enabled(s, st, w) && st.Work? && OutcomeAt(s, st).1.sent == Some(m)
    ensures Multicasts(s, Apply(s, st, w), m, s.clock + w.delay)
  {
    hide Turn, Multicasts, Apply, NonceIsDistinct;
    SentIs(s, st, w, m);
    assert s.net - multiset{} == s.net;
  }

  /** The id that n announces in its next turn, once `wait` has passed; 0 if it has none to announce. */
  function Announced(n: Node): Word { if n.serviceId != 0 then n.serviceId else n.reservingId }
  function Wait(n: Node): nat { if n.serviceId != 0 then n.interval else 1000 }

  lemma TurnAnnounces(s: System, w: World, i: nat, c: Choice, last: nat)
    requires Sane(s) && Enabled(s, Work(i, c), w)
    requires Remembers(s.nodes[i], last) && !s.nodes[i].collided && Announced(s.nodes[i]) != 0
    ensures var n, s', since := s.nodes[i], Apply(s, Work(i, c), w), s.clock + s.skew[i] - last;
            && since >= 0 && |s'.nodes| == |s'.readied| == |s.nodes|
            && (since < Wait(n) ==> s' == s)
            && (since >= Wait(n) ==>
                  Multicasts(s, s', BeaconMsg(n.kind, Announced(n), n.port), s.clock + w.delay)
                  && s'.nodes[i].serviceId == Announced(n)
                  && s'.readied[i] == s.readied[i] + if n.serviceId == 0 then [n.reservingId] else [])
  {
    hide Multicasts, CopiesSane, NonceIsDistinct, NonZero, Multicast;
    assert NodeSane(s, i);
    IdleOrActs(s, w, i, c);
    var n := s.nodes[i];
    if s.clock + s.skew[i] - last >= Wait(n) {
      MulticastIs(s, Work(i, c), w, BeaconMsg(n.kind, Announced(n), n.port));
      assert s.readied[i] + [] == s.readied[i];
    }
  }

  /** The owner of an id announces it to every node in each turn it takes at least
      `interval` after it last acted, and is silent in every earlier one. */
  lemma OwnerSpeaks(s: System, run: seq<Step>, w: World, i: nat, c: Choice)
    requires Initial(s) && Valid(s, run, w) && i < |s.nodes|
    requires var e := After(s, run, w); i < |e.nodes| && e.nodes[i].serviceId != 0 && Enabled(e, Work(i, c), w)
    ensures var e := After(s, run, w);
            var n, e' := e.nodes[i], Apply(e, Work(i, c), w);
            var since := e.clock + e.skew[i] - LastAct(s, run, w, i, 0);
            && since >= 0 && |e'.nodes| == |e.nodes|
            && (since < n.interval ==> e' == e)
            && (since >= n.interval ==>
                  Multicasts(e, e', BeaconMsg(n.kind, n.serviceId, n.port), e.clock + w.delay)
                  && e'.nodes[i].serviceId == n.serviceId)
  {
    hide Apply, Multicasts, Sane, Initial;
    NodesRemember(s, run, w, i);
    TurnAnnounces(After(s, run, w), w, i, c, LastAct(s, run, w, i, 0));
  }

  /** A node that holds an undisputed reservation claims it, and announces the claim to
      every node, in the first turn it takes a negotiation interval after it last acted. */
  lemma ReserverClaims(s: System, run: seq<Step>, w: World, i: nat, c: Choice)
    requires Initial(s) && Valid(s, run, w) && i < |s.nodes|
    requires var e := After(s, run, w); i < |e.nodes| && Reserving(e.nodes[i]) && Enabled(e, Work(i, c), w)
    ensures var e := After(s, run, w);
            var n, e' := e.nodes[i], Apply(e, Work(i, c), w);
            var since := e.clock + e.skew[i] - LastAct(s, run, w, i, 0);
            && since >= 0 && |e'.nodes| == |e'.readied| == |e.nodes|
            && (since < 1000 ==> e' == e)
            && (since >= 1000 ==>
                  Multicasts(e, e', BeaconMsg(n.kind, n.reservingId, n.port), e.clock + w.delay)
                  && e'.nodes[i].serviceId == n.reservingId && e'.readied[i] == e.readied[i] + [n.reservingId])
  {
    hide Apply, Multicasts, Sane, Initial;
    NodesRemember(s, run, w, i);
    TurnAnnounces(After(s, run, w), w, i, c, LastAct(s, run, w, i, 0));
  }

  lemma HintMoves(next: Word, skip: Draw)
    ensures 1 <= ((next + skip % 4 + 1) % WORD_RANGE - next) % 0x1_0000_0000 <= 4
  {
    var moved := next + skip % 4 + 1;
    if moved < WORD_RANGE {
      assert moved % WORD_RANGE == moved;
    } else {
      assert moved % WORD_RANGE == moved - WORD_RANGE;
    }
  }

  lemma NodeReserves(n: Node, now: nat, c: Choice)
    requires n.collided && n.serviceId == 0 && n.timer == 0 && now >= 1000
    ensures var o := Turn(n, now, c);
            && o.sent == (if c.id == 0 then None else Some(ReserveMsg(n.kind, c.id, n.port, c.nonce)))
            && o.node.serviceId == 0 && o.node.reservingId == c.id && o.node.nonce == c.nonce && !o.node.collided
            && 1 <= (o.node.reservingNext - n.reservingNext) % 0x1_0000_0000 <= 4
  {
    HintMoves(n.reservingNext, c.skip);
  }

  lemma TurnReserves(s: System, w: World, i: nat, c: Choice)
    requires Enabled(s, Work(i, c), w)
    requires var n := s.nodes[i]; n.collided && n.serviceId == 0 && n.timer == 0 && s.clock + s.skew[i] >= 1000
    ensures var s', n := Apply(s, Work(i, c), w), s.nodes[i];
            && |s'.nodes| == |s.nodes|
            && var n' := s'.nodes[i];
            && n'.serviceId == 0 && n'.reservingId == c.id && n'.nonce == c.nonce && !n'.collided
            && 1 <= (n'.reservingNext - n.reservingNext) % 0x1_0000_0000 <= 4
            && (c.id == 0 ==> s'.net == s.net && s'.sent == s.sent)
            && (c.id != 0 ==> Multicasts(s, s', ReserveMsg(n.kind, c.id, n.port, c.nonce), s.clock + w.delay))
  {
    assert Multicast(None, |s.nodes|, s.clock + w.delay) == multiset{};
    hide Multicasts, Multicast, NonceIsDistinct, Turn;
    var n := s.nodes[i];
    NodeReserves(n, s.clock + s.skew[i], c);
    if c.id != 0 {
      MulticastIs(s, Work(i, c), w, ReserveMsg(n.kind, c.id, n.port, c.nonce));
    } else {
      assert s.net - multiset{} + multiset{} == s.net;
    }
  }

  /** A node whose reservation is disputed, or that has none yet, does not wait, once its
      clock shows a negotiation interval at all: its next turn reserves the id the
      application hands out, with a fresh nonce and a moved hint, and tells every node
      unless that id is 0. */
  lemma DisputedReserves(s: System, run: seq<Step>, w: World, i: nat, c: Choice)
    requires Initial(s) && Valid(s, run, w) && i < |s.nodes|
    requires var e := After(s, run, w); i < |e.nodes| && Enabled(e, Work(i, c), w) && e.nodes[i].collided
    ensures var e := After(s, run, w);
            var n, e' := e.nodes[i], Apply(e, Work(i, c), w);
            && n.serviceId == 0 && |e'.nodes| == |e.nodes|
            && if e.clock + e.skew[i] < 1000 then e' == e
               else
                 var n' := e'.nodes[i];
                 && n'.serviceId == 0 && n'.reservingId == c.id && n'.nonce == c.nonce && !n'.collided
                 && 1 <= (n'.reservingNext - n.reservingNext) % 0x1_0000_0000 <= 4
                 && (c.id == 0 ==> e'.net == e.net && e'.sent == e.sent)
                 && (c.id != 0 ==> Multicasts(e, e', ReserveMsg(n.kind, c.id, n.port, c.nonce), e.clock + w.delay))
  {
    hide Apply, Multicasts, Sane, Initial;
    NodesRemember(s, run, w, i);
    var e := After(s, run, w);
    if e.clock + e.skew[i] < 1000 {
      IdleOrActs(e, w, i, c);
    } else {
      TurnReserves(e, w, i, c);
    }
  }

  /** An owner answers every reservation of its id at once, whoever sent it, by announcing it to every node. */
  lemma OwnerAnswersReservation(s: System, w: World, c: Copy)
    requires Sane(s) && Enabled(s, Deliver(c), w)
    requires c.msg.ReserveMsg? && s.nodes[c.dst].serviceId == c.msg.id
    ensures var s', n := Apply(s, Deliver(c), w), s.nodes[c.dst];
            && s'.nodes == s.nodes
            && Multicasts(s.(net := s.net - multiset{c}), s', BeaconMsg(n.kind, n.serviceId, n.port), s.clock + w.delay)
  {
    var n := s.nodes[c.dst];
    assert c in s.net && c.msg.id != 0 && NodeSane(s, c.dst) && n.reservingId == 0;
    var m := BeaconMsg(n.kind, n.serviceId, n.port);
    assert Receive(n, c.msg) == Outcome(n, Some(m), None);
    assert s.nodes[c.dst := n] == s.nodes;
    hide Sane, NodeSane, Multicast, Receive, Multicasts;
    SentIs(s, Deliver(c), w, m);
  }

  /** Every other packet is taken without an answer. A packet of the reserved id disputes
      the reservation unless it carries the node's own nonce; the node then starts over. */
  lemma OthersAreNotAnswered(s: System, w: World, c: Copy)
    requires Sane(s) && Enabled(s, Deliver(c), w)
    requires c.msg.BeaconMsg? || s.nodes[c.dst].serviceId != c.msg.id
    ensures var s', n := Apply(s, Deliver(c), w), s.nodes[c.dst];
            && s'.net == s.net - multiset{c} && s'.sent == s.sent && s'.readied == s.readied
            && s'.nodes == s.nodes[c.dst := if c.msg.id == n.reservingId && (c.msg.BeaconMsg? || c.msg.nonce != n.nonce)
                                            then n.(collided := true, timer := 0) else n]
  {
    assert s.net - multiset{c} + multiset{} == s.net - multiset{c};
  }
}
