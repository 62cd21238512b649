// The two assumptions behind unique ids are needed: runs in which two nodes end
// up with the same id as soon as packets may take half the negotiation interval,
// or as soon as two rivals draw the same nonce.
module BeaconRaces {
  import opened Basics
  import opened BeaconProtocol
  import opened BeaconSafety
  import opened BeaconHistory

  /** A run can be prolonged by any step enabled at its end. */
  lemma {:induction false} Extend(s: System, run: seq<Step>, st: Step, w: World)
    requires Valid(s, run, w) && Enabled(After(s, run, w), st, w)
    ensures Valid(s, run + [st], w) && After(s, run + [st], w) == Apply(After(s, run, w), st, w)
    decreases |run|
  {
    if run == [] {
      assert run + [st] == [st];
      assert [st][1..] == [];
    } else {
      assert (run + [st])[1..] == run[1..] + [st];
      Extend(Apply(s, run[0], w), run[1..], st, w);
    }
  }

  /** Some run of two freshly started nodes ends in e. */
  ghost predicate Reachable(e: System, w: World) {
    exists run :: Valid(Start(2, NEGOTIATE_INTERVAL), run, w) && After(Start(2, NEGOTIATE_INTERVAL), run, w) == e
  }

  lemma Reach(e: System, st: Step, w: World)
    requires Reachable(e, w) && Enabled(e, st, w)
    ensures Reachable(Apply(e, st, w), w)
  {
    var s := Start(2, NEGOTIATE_INTERVAL);
    var run :| Valid(s, run, w) && After(s, run, w) == e;
    Extend(s, run, st, w);
  }

  // ---------------------------------------------------------------------
  // Two nodes that both want id 7
  // ---------------------------------------------------------------------

  function Pair(m: Message, due: nat): multiset<Copy> {
    multiset{Copy(m, 0, due), Copy(m, 1, due)}
  }

  lemma MulticastToTwo(m: Message, due: nat)
    ensures Multicast(Some(m), 2, due) == Pair(m, due)
  {
    assert Multicast(Some(m), 1, due) == multiset{Copy(m, 0, due)};
  }

  function Reserved(clock: nat, nonce: Draw): Node {
    FRESH.(timer := clock, reservingId := 7, reservingNext := 2, nonce := nonce, collided := false)
  }

  function Owner(clock: nat, nonce: Draw): Node {
    Reserved(clock, nonce).(timer := clock, serviceId := 7, reservingId := 0)
  }

  function Request(nonce: Draw): Message { ReserveMsg(0, 7, 0, nonce) }

  const ANSWER: Message := BeaconMsg(0, 7, 0)

  predicate TwoNodes(s: System) {
    |s.nodes| == |s.readied| == 2 && s.skew == [0, 0]
  }

  /** What a turn with a known outcome does to a system of two nodes. */
  lemma WorkStep(s: System, k: nat, c: Choice, o: Outcome, w: World)
    requires TwoNodes(s) && Enabled(s, Work(k, c), w) && o.sent.Some?
    requires Turn(s.nodes[k], s.clock, c) == o
    ensures Apply(s, Work(k, c), w)
            == s.(nodes := s.nodes[k := o.node], net := s.net + Multicast(o.sent, 2, s.clock + w.delay),
                  sent := s.sent + {o.sent.value},
                  readied := if o.ready.None? then s.readied else s.readied[k := s.readied[k] + [o.ready.value]])
  {
    assert s.net - multiset{} == s.net;
  }

  lemma WorkPair(s: System, k: nat, c: Choice, o: Outcome, w: World)
    requires TwoNodes(s) && Enabled(s, Work(k, c), w) && o.sent.Some?
    requires Turn(s.nodes[k], s.clock, c) == o
    ensures Apply(s, Work(k, c), w)
            == s.(nodes := s.nodes[k := o.node], net := s.net + Pair(o.sent.value, s.clock + w.delay),
                  sent := s.sent + {o.sent.value},
                  readied := if o.ready.None? then s.readied else s.readied[k := s.readied[k] + [o.ready.value]])
  {
    WorkStep(s, k, c, o, w);
    MulticastToTwo(o.sent.value, s.clock + w.delay);
  }

  lemma ReserveTurn(clock: nat, nonce: Draw)
    requires clock >= NEGOTIATE_INTERVAL
    ensures Turn(FRESH, clock, Choice(7, 1, nonce)) == Outcome(Reserved(clock, nonce), Some(Request(nonce)), None)
  {
  }

  lemma ClaimTurn(start: nat, clock: nat, nonce: Draw)
    requires clock >= start + NEGOTIATE_INTERVAL
    ensures Turn(Reserved(start, nonce), clock, Choice(7, 1, 3)) == Outcome(Owner(clock, nonce), Some(ANSWER), Some(7))
  {
  }

  /** Node k starts a reservation of 7. */
  lemma Reserve(s: System, k: nat, nonce: Draw, w: World) returns (e: System)
    requires Reachable(s, w) && TwoNodes(s) && k < 2 && s.nodes[k] == FRESH && s.clock >= NEGOTIATE_INTERVAL
    requires w.distinct ==> s.nodes[1 - k] == FRESH || s.nodes[1 - k].nonce != nonce
    ensures Reachable(e, w)
    ensures e == s.(nodes := s.nodes[k := Reserved(s.clock, nonce)],
                    net := s.net + Pair(Request(nonce), s.clock + w.delay), sent := s.sent + {Request(nonce)})
  {
    ReserveTurn(s.clock, nonce);
    WorkPair(s, k, Choice(7, 1, nonce), Outcome(Reserved(s.clock, nonce), Some(Request(nonce)), None), w);
    e := Apply(s, Work(k, Choice(7, 1, nonce)), w);
    Reach(s, Work(k, Choice(7, 1, nonce)), w);
  }

  /** Node k claims 7. */
  lemma Claim(s: System, k: nat, start: nat, nonce: Draw, w: World) returns (e: System)
    requires Reachable(s, w) && TwoNodes(s) && k < 2 && s.nodes[1 - k].nonce <= 2
    requires s.nodes[k] == Reserved(start, nonce) && s.clock >= start + NEGOTIATE_INTERVAL
    ensures Reachable(e, w)
    ensures e == s.(nodes := s.nodes[k := Owner(s.clock, nonce)],
                    net := s.net + Pair(ANSWER, s.clock + w.delay), sent := s.sent + {ANSWER},
                    readied := s.readied[k := s.readied[k] + [7]])
  {
    ClaimTurn(start, s.clock, nonce);
    WorkPair(s, k, Choice(7, 1, 3), Outcome(Owner(s.clock, nonce), Some(ANSWER), Some(7)), w);
    e := Apply(s, Work(k, Choice(7, 1, 3)), w);
    Reach(s, Work(k, Choice(7, 1, 3)), w);
  }

  /** A packet the receiver has no use for just leaves the network. */
  lemma Ignore(s: System, c: Copy, w: World) returns (e: System)
    requires Reachable(s, w) && TwoNodes(s) && c in s.net && c.dst < 2
    requires Receive(s.nodes[c.dst], c.msg) == Outcome(s.nodes[c.dst], None, None)
    ensures Reachable(e, w) && e == s.(net := s.net - multiset{c})
  {
    Reach(s, Deliver(c), w);
    e := Apply(s, Deliver(c), w);
    assert s.nodes[c.dst := s.nodes[c.dst]] == s.nodes;
    assert s.net - multiset{c} + multiset{} == s.net - multiset{c};
  }

  /** The owner answers a request for its id. */
  lemma Answer(s: System, c: Copy, clock: nat, w: World) returns (e: System)
    requires Reachable(s, w) && TwoNodes(s) && c in s.net && c.dst == 0
    requires s.nodes[0] == Owner(clock, 1) && c.msg == Request(2)
    ensures Reachable(e, w)
    ensures e == s.(net := s.net - multiset{c} + Pair(ANSWER, s.clock + w.delay), sent := s.sent + {ANSWER})
  {
    assert s.nodes[0 := s.nodes[0]] == s.nodes;
    MulticastToTwo(ANSWER, s.clock + w.delay);
    Reach(s, Deliver(c), w);
    e := Apply(s, Deliver(c), w);
  }

  lemma Wait(s: System, dt: nat, w: World) returns (e: System)
    requires Reachable(s, w) && TwoNodes(s) && s.clock + dt < CLOCK_RANGE
    requires forall c :: c in s.net ==> s.clock + dt <= c.due
    ensures Reachable(e, w) && e == s.(clock := s.clock + dt)
  {
    Reach(s, Tick(dt), w);
    e := Apply(s, Tick(dt), w);
  }

  lemma StartIsReachable(w: World) returns (e: System)
    ensures Reachable(e, w)
    ensures e == System(NEGOTIATE_INTERVAL, [0, 0], [FRESH, FRESH], multiset{}, {}, [[], []])
  {
    e := Start(2, NEGOTIATE_INTERVAL);
    assert e.skew == [0, 0] && e.nodes == [FRESH, FRESH] && e.readied == [[], []];
    assert Valid(e, [], w) && After(e, [], w) == e;
  }

  /** Node 0 reserves 7 and every copy of its request is dealt with before node 1 wants anything. */
  lemma FirstReservation(w: World) returns (e: System)
    ensures Reachable(e, w) && TwoNodes(e) && e.clock == NEGOTIATE_INTERVAL && e.net == multiset{}
    ensures e.nodes == [Reserved(NEGOTIATE_INTERVAL, 1), FRESH]
  {
    var due := NEGOTIATE_INTERVAL + w.delay;
    e := StartIsReachable(w);
    e := Reserve(e, 0, 1, w);
    assert e.nodes == [Reserved(NEGOTIATE_INTERVAL, 1), FRESH];
    e := Ignore(e, Copy(Request(1), 0, due), w);
    assert e.net == multiset{Copy(Request(1), 1, due)};
    e := Ignore(e, Copy(Request(1), 1, due), w);
  }

  /** The late rival: node 1 reserves 7 just before node 0 claims it. */
  lemma SecondReservation(w: World, gap: nat) returns (e: System)
    requires gap <= NEGOTIATE_INTERVAL <= gap + w.delay
    ensures Reachable(e, w) && TwoNodes(e) && e.clock == 2 * NEGOTIATE_INTERVAL
    ensures e.nodes == [Reserved(NEGOTIATE_INTERVAL, 1), Reserved(NEGOTIATE_INTERVAL + gap, 2)]
    ensures e.net == multiset{Copy(Request(2), 0, NEGOTIATE_INTERVAL + gap + w.delay)}
  {
    e := FirstReservation(w);
    e := Wait(e, gap, w);
    e := Reserve(e, 1, 2, w);
    e := Ignore(e, Copy(Request(2), 1, NEGOTIATE_INTERVAL + gap + w.delay), w);
    e := Wait(e, NEGOTIATE_INTERVAL - gap, w);
  }

  /** With delays of half the interval or more, node 0's answer may come too late. */
  lemma SlowNetworkBreaksUniqueness(w: World) returns (e: System)
    requires 2 * w.delay >= NEGOTIATE_INTERVAL
    ensures Reachable(e, w) && !UniqueIds(e)
  {
    var K := NEGOTIATE_INTERVAL;
    var gap := if w.delay < K then K - w.delay else 0;
    e := SecondReservation(w, gap);
    e := Claim(e, 0, K, 1, w);
    e := Answer(e, Copy(Request(2), 0, K + gap + w.delay), 2 * K, w);
    e := Wait(e, gap, w);
    e := Claim(e, 1, K + gap, 2, w);
    assert e.nodes[0].serviceId == e.nodes[1].serviceId == 7;
  }

  /** Rivals with equal nonces do not notice each other, however fast the network. */
  lemma EqualNoncesBreakUniqueness(w: World) returns (e: System)
    requires !w.distinct
    ensures Reachable(e, w) && !UniqueIds(e)
  {
    var K := NEGOTIATE_INTERVAL;
    e := FirstReservation(w);
    e := Reserve(e, 1, 1, w);
    e := Ignore(e, Copy(Request(1), 0, K + w.delay), w);
    e := Ignore(e, Copy(Request(1), 1, K + w.delay), w);
    e := Wait(e, K, w);
    e := Claim(e, 0, K, 1, w);
    e := Claim(e, 1, K, 1, w);
    assert e.nodes[0].serviceId == e.nodes[1].serviceId == 7;
  }

  lemma ReachableIsReached(e: System, w: World)
    requires Reachable(e, w) && !UniqueIds(e)
    ensures exists s, run :: Initial(s) && Valid(s, run, w) && !UniqueIds(After(s, run, w))
  {
    var s := Start(2, NEGOTIATE_INTERVAL);
    assert Initial(s);
  }

  /** Ids are unique in every run exactly when packets take less than half the
      negotiation interval and rival reservations carry different nonces. */
  lemma UniqueIdsIff(w: World)
    ensures (forall s, run | Initial(s) && Valid(s, run, w) :: UniqueIds(After(s, run, w)))
            <==> 2 * w.delay < NEGOTIATE_INTERVAL && w.distinct
  {
    if !w.distinct {
      var e := EqualNoncesBreakUniqueness(w);
      ReachableIsReached(e, w);
    } else if 2 * w.delay >= NEGOTIATE_INTERVAL {
      var e := SlowNetworkBreaksUniqueness(w);
      ReachableIsReached(e, w);
    } else {
      forall s, run | Initial(s) && Valid(s, run, w) ensures UniqueIds(After(s, run, w)) {
        IdsStayUnique(s, run, w);
      }
    }
  }
}
