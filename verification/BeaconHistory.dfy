// What a node's own history looks like over any run of the reservation protocol.
module BeaconHistory {
  import opened Basics
  import opened BeaconProtocol
  import opened BeaconSafety

  lemma {:induction false} AfterAppend(s: System, run: seq<Step>, more: seq<Step>, w: World)
    requires Valid(s, run + more, w)
    ensures Valid(s, run, w) && Valid(After(s, run, w), more, w)
    ensures After(s, run + more, w) == After(After(s, run, w), more, w)
    decreases |run|
  {
    if run == [] {
      assert run + more == more;
    } else {
      assert (run + more)[1..] == run[1..] + more;
      AfterAppend(Apply(s, run[0], w), run[1..], more, w);
    }
  }

  /** A packet that disputes the reservation n holds. */
  predicate Disputes(m: Message, n: Node) {
    m.id == n.reservingId && (m.ReserveMsg? ==> m.nonce != n.nonce)
  }

  /** One step keeps a claimed id, and ends a reservation only by a claim or by the arrival of a disputing packet. */
  lemma NodeFate(s: System, st: Step, w: World, i: nat)
    requires Sane(s) && Enabled(s, st, w) && i < |s.nodes|
    ensures var n, n' := s.nodes[i], Apply(s, st, w).nodes[i];
            && (n.serviceId != 0 ==> n'.serviceId == n.serviceId)
            && (Reserving(n) && !Reserving(n') && n'.serviceId == 0 ==>
                  st.Deliver? && st.copy.dst == i && Disputes(st.copy.msg, n))
  {
    if !st.Tick? && OutcomeAt(s, st).0 == i {
      OutcomeKeepsNode(s, st, w);
      assert Apply(s, st, w).nodes[i] == OutcomeAt(s, st).1.node;
    }
  }

  /** Once claimed, an id is never changed or given up. */
  lemma {:induction false} ClaimIsForever(s: System, run: seq<Step>, w: World, i: nat)
    requires Sane(s) && Valid(s, run, w) && i < |s.nodes| && s.nodes[i].serviceId != 0
    ensures i < |After(s, run, w).nodes| && After(s, run, w).nodes[i].serviceId == s.nodes[i].serviceId
    decreases |run|
  {
    if run != [] {
      SaneStep(s, run[0], w);
      NodeFate(s, run[0], w, i);
      var s' := Apply(s, run[0], w);
      assert |s'.nodes| == |s.nodes|;
      ClaimIsForever(s', run[1..], w, i);
    }
  }

  /** The claimed id at any moment of a run is the claimed id at every later one. */
  lemma ClaimedIdNeverChanges(s: System, run: seq<Step>, more: seq<Step>, w: World, i: nat)
    requires Initial(s) && Valid(s, run + more, w) && i < |s.nodes|
    ensures Valid(s, run, w) && i < |After(s, run, w).nodes| && i < |After(s, run + more, w).nodes|
    ensures After(s, run, w).nodes[i].serviceId != 0
            ==> After(s, run + more, w).nodes[i].serviceId == After(s, run, w).nodes[i].serviceId
  {
    AfterAppend(s, run, more, w);
    InitialIsSafe(s, w);
    SameNodes(s, run, w);
    SameNodes(s, run + more, w);
    SaneRun(s, run, w);
    if After(s, run, w).nodes[i].serviceId != 0 {
      ClaimIsForever(After(s, run, w), more, w, i);
    }
  }

  lemma {:induction false} SameNodes(s: System, run: seq<Step>, w: World)
    requires Valid(s, run, w)
    ensures |After(s, run, w).nodes| == |s.nodes| && |After(s, run, w).readied| == |s.readied|
    decreases |run|
  {
    if run != [] {
      SameNodes(Apply(s, run[0], w), run[1..], w);
    }
  }

  /** cb_beacon_ready reports a nonzero id at most once, and it is the id the node owns. */
  lemma ReadyReportsTheOwnedId(s: System, run: seq<Step>, w: World, i: nat)
    requires Initial(s) && Valid(s, run, w) && i < |s.nodes|
    ensures var e := After(s, run, w);
            |e.nodes| == |e.readied| == |s.nodes|
            && NonZero(e.readied[i]) == if e.nodes[i].serviceId == 0 then [] else [e.nodes[i].serviceId]
  {
    InitialIsSafe(s, w);
    SaneRun(s, run, w);
    SameNodes(s, run, w);
    assert NodeSane(After(s, run, w), i);
  }

  // ---------------------------------------------------------------------
  // How often cb_beacon_ready fires
  // ---------------------------------------------------------------------

  /** Nothing has been reported before the claim, one report after it, and an open reservation is for a nonzero id. */
  predicate ReportsSane(s: System) {
    Shaped(s) && forall i :: 0 <= i < |s.nodes| ==>
      && |s.readied[i]| == (if s.nodes[i].serviceId == 0 then 0 else 1)
      && (s.nodes[i].serviceId == 0 && !s.nodes[i].collided ==> s.nodes[i].reservingId != 0)
  }

  lemma ReportsStep(s: System, st: Step, w: World, k: nat)
    requires w.nonzero && Sane(s) && ReportsSane(s) && Enabled(s, st, w) && k < |s.nodes|
    ensures var s' := Apply(s, st, w);
            && |s'.readied[k]| == (if s'.nodes[k].serviceId == 0 then 0 else 1)
            && (s'.nodes[k].serviceId == 0 && !s'.nodes[k].collided ==> s'.nodes[k].reservingId != 0)
  {
    if !st.Tick? && OutcomeAt(s, st).0 == k {
      OutcomeReports(s, st, w);
      assert Apply(s, st, w).nodes[k] == OutcomeAt(s, st).1.node;
    }
  }

  lemma OutcomeReports(s: System, st: Step, w: World)
    requires w.nonzero && ReportsSane(s) && Enabled(s, st, w) && !st.Tick?
    ensures var (i, o, _) := OutcomeAt(s, st);
            && (o.node.serviceId != 0 <==> s.nodes[i].serviceId != 0 || o.ready.Some?)
            && (o.ready.Some? ==> s.nodes[i].serviceId == 0)
            && (o.node.serviceId == 0 && !o.node.collided ==> o.node.reservingId != 0)
  {
  }

  lemma {:induction false} ReportsRun(s: System, run: seq<Step>, w: World)
    requires w.nonzero && Sane(s) && ReportsSane(s) && Valid(s, run, w)
    ensures ReportsSane(After(s, run, w))
    decreases |run|
  {
    if run != [] {
      SaneStep(s, run[0], w);
      forall k | 0 <= k < |s.nodes|
        ensures var s' := Apply(s, run[0], w);
                && |s'.readied[k]| == (if s'.nodes[k].serviceId == 0 then 0 else 1)
                && (s'.nodes[k].serviceId == 0 && !s'.nodes[k].collided ==> s'.nodes[k].reservingId != 0)
      {
        ReportsStep(s, run[0], w, k);
      }
      ReportsRun(Apply(s, run[0], w), run[1..], w);
    }
  }

  const FRESH: Node := Node(0, 0, 0, 0, 0, 0, 0, 0, true)

  /** `n` freshly initialised daemons on a clock that reads `clock`. */
  function Start(n: nat, clock: nat): System {
    System(clock, seq(n, _ => 0), seq(n, _ => FRESH), multiset{}, {}, seq(n, _ => []))
  }

  /** A single node, past its negotiation interval and holding a "reservation" of id 0,
      reports id 0 and may do so again. */
  lemma ZeroClaim(s: System, w: World, c: Choice)
    requires !w.nonzero && |s.nodes| == |s.skew| == |s.readied| == 1 && s.skew[0] == 0
    requires var n := s.nodes[0];
             n.serviceId == n.reservingId == 0 && !n.collided && n.timer + NEGOTIATE_INTERVAL <= s.clock
    ensures Enabled(s, Work(0, c), w)
    ensures Apply(s, Work(0, c), w)
            == s.(nodes := [s.nodes[0].(timer := s.clock)], readied := [s.readied[0] + [0]])
  {
  }

  lemma ZeroReservation(s: System, w: World, c: Choice)
    requires !w.nonzero && s == Start(1, NEGOTIATE_INTERVAL) && c == Choice(0, 1, 1)
    ensures Enabled(s, Work(0, c), w)
    ensures Apply(s, Work(0, c), w)
            == s.(nodes := [FRESH.(timer := NEGOTIATE_INTERVAL, reservingNext := 2, nonce := 1, collided := false)])
  {
  }

  /** A node whose application hands out id 0 "claims" it again every negotiation interval. */
  lemma ZeroIdIsReportedAgain(w: World) returns (run: seq<Step>)
    requires !w.nonzero
    ensures Initial(Start(1, NEGOTIATE_INTERVAL)) && Valid(Start(1, NEGOTIATE_INTERVAL), run, w)
    ensures var e := After(Start(1, NEGOTIATE_INTERVAL), run, w); |e.readied| == 1 && |e.readied[0]| == 2
  {
    var K := NEGOTIATE_INTERVAL;
    var turn := Work(0, Choice(0, 1, 1));
    var s0 := Start(1, K);
    var s1 := s0.(nodes := [FRESH.(timer := K, reservingNext := 2, nonce := 1, collided := false)]);
    ZeroReservation(s0, w, turn.choice);
    var s2 := s1.(clock := 2 * K);
    ZeroClaim(s2, w, turn.choice);
    var s3 := Apply(s2, turn, w);
    var s4 := s3.(clock := 3 * K);
    ZeroClaim(s4, w, turn.choice);
    run := [turn] + ([Tick(K)] + ([turn] + ([Tick(K)] + ([turn] + []))));
    Chain(s4, turn, [], w);
    Chain(s3, Tick(K), [turn] + [], w);
    Chain(s2, turn, [Tick(K)] + ([turn] + []), w);
    Chain(s1, Tick(K), [turn] + ([Tick(K)] + ([turn] + [])), w);
    Chain(s0, turn, [Tick(K)] + ([turn] + ([Tick(K)] + ([turn] + []))), w);
  }

  /** A run that starts with an enabled step continues with the rest. */
  lemma Chain(s: System, st: Step, rest: seq<Step>, w: World)
    requires Enabled(s, st, w) && Valid(Apply(s, st, w), rest, w)
    ensures Valid(s, [st] + rest, w) && After(s, [st] + rest, w) == After(Apply(s, st, w), rest, w)
  {
    assert ([st] + rest)[1..] == rest;
  }

  predicate ReportedOnce(s: System) {
    forall i :: 0 <= i < |s.readied| ==> |s.readied[i]| <= 1
  }

  /** cb_beacon_ready fires at most once per node in every run exactly when the application never hands out id 0. */
  lemma ReadyFiresOnceIff(w: World)
    ensures (forall s, run | Initial(s) && Valid(s, run, w) :: ReportedOnce(After(s, run, w))) <==> w.nonzero
  {
    if w.nonzero {
      forall s, run | Initial(s) && Valid(s, run, w) ensures ReportedOnce(After(s, run, w)) {
        InitialIsSafe(s, w);
        ReportsRun(s, run, w);
      }
    } else {
      var run := ZeroIdIsReportedAgain(w);
      var s := Start(1, NEGOTIATE_INTERVAL);
      assert Initial(s) && Valid(s, run, w) && !ReportedOnce(After(s, run, w));
    }
  }

  // ---------------------------------------------------------------------
  // Why a reservation is given up
  // ---------------------------------------------------------------------

  /** The packet multicast by the k-th step of a run. */
  function SentBy(s: System, run: seq<Step>, k: nat, w: World): Option<Message>
    requires Valid(s, run, w) && k < |run|
    decreases k
  {
    if k > 0 then SentBy(Apply(s, run[0], w), run[1..], k - 1, w)
    else if run[0].Tick? then None
    else OutcomeAt(s, run[0]).1.sent
  }

  /** Every recorded packet was multicast by some step. */
  lemma {:induction false} SentIsSent(s: System, run: seq<Step>, w: World, m: Message) returns (k: nat)
    requires Valid(s, run, w) && m in After(s, run, w).sent && m !in s.sent
    ensures k < |run| && SentBy(s, run, k, w) == Some(m)
    decreases |run|
  {
    var s' := Apply(s, run[0], w);
    if m in s'.sent {
      k := 0;
    } else {
      k := SentIsSent(s', run[1..], w, m);
      k := k + 1;
    }
  }

  /** A reservation ends without a claim only when a packet disputing it, multicast by
      an earlier step of the run, is received. */
  lemma AbandonedOnlyWhenDisputed(s: System, run: seq<Step>, st: Step, w: World, i: nat)
    requires Initial(s) && Valid(s, run + [st], w)
    requires Valid(s, run, w) && i < |After(s, run, w).nodes| && Reserving(After(s, run, w).nodes[i])
    requires var e := After(s, run + [st], w); i < |e.nodes| && !Reserving(e.nodes[i]) && e.nodes[i].serviceId == 0
    ensures exists k, m :: 0 <= k < |run| && SentBy(s, run, k, w) == Some(m) && Disputes(m, After(s, run, w).nodes[i])
  {
    AfterAppend(s, run, [st], w);
    var e := After(s, run, w);
    InitialIsSafe(s, w);
    SaneRun(s, run, w);
    assert After(e, [st], w) == Apply(e, st, w);
    NodeFate(e, st, w, i);
    var k := SentIsSent(s, run, w, st.copy.msg);
  }
}
