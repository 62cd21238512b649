// The invariant of the id-reservation protocol and its proof step by step: ids are
// unique in every run when the network is fast enough and rival nonces differ.
module BeaconSafety {
  import opened Basics
  import opened BeaconProtocol

  // ---------------------------------------------------------------------
  // What every step keeps
  // ---------------------------------------------------------------------

  lemma {:induction false} MulticastHas(m: Message, n: nat, due: nat, j: nat)
    requires j < n
    ensures Copy(m, j, due) in Multicast(Some(m), n, due)
  {
    if j < n - 1 {
      MulticastHas(m, n - 1, due, j);
    }
  }

  lemma {:induction false} MulticastOnly(m: Option<Message>, n: nat, due: nat, c: Copy)
    requires c in Multicast(m, n, due)
    ensures m.Some? && c.msg == m.value && c.due == due && c.dst < n
  {
    if c != Copy(m.value, n - 1, due) {
      MulticastOnly(m, n - 1, due, c);
    }
  }

  /** A copy that survives a step or was multicast by it. */
  lemma NetAfter(s: System, st: Step, w: World, c: Copy)
    requires Enabled(s, st, w) && !st.Tick? && c in Apply(s, st, w).net
    ensures c in s.net
            || (OutcomeAt(s, st).1.sent.Some? && c.msg == OutcomeAt(s, st).1.sent.value && c.due == s.clock + w.delay)
  {
    var o := OutcomeAt(s, st).1;
    if c !in s.net {
      MulticastOnly(o.sent, |s.nodes|, s.clock + w.delay, c);
    }
  }

  /** A copy that is not the one being processed stays under way. */
  lemma NetKeeps(s: System, st: Step, w: World, c: Copy)
    requires Enabled(s, st, w) && c in s.net && st != Deliver(c)
    ensures c in Apply(s, st, w).net
  {
  }

  lemma NonZeroSnoc(ids: seq<Word>, id: Word)
    ensures NonZero(ids + [id]) == NonZero(ids) + if id == 0 then [] else [id]
  {
    assert (ids + [id])[..|ids|] == ids;
  }

  lemma SaneNet(s: System, st: Step, w: World)
    requires Sane(s) && Enabled(s, st, w)
    ensures CopiesSane(Apply(s, st, w))
  {
    var s' := Apply(s, st, w);
    if !st.Tick? {
      forall c | c in s'.net ensures s'.clock <= c.due && c.msg.id != 0 && c.msg in s'.sent {
        NetAfter(s, st, w, c);
      }
    }
  }

  /** What one activity may do to a node's timer, ids and reports. */
  predicate KeepsNode(n: Node, now: nat, o: Outcome) {
    && o.node.timer <= now && (o.node.serviceId != 0 ==> o.node.reservingId == 0)
    && (n.serviceId != 0 ==> o.node.serviceId == n.serviceId && o.ready.None?)
    && (n.serviceId == 0 ==> o.node.serviceId == if o.ready.Some? then o.ready.value else 0)
  }

  lemma OutcomeKeepsNode(s: System, st: Step, w: World)
    requires Sane(s) && Enabled(s, st, w) && !st.Tick?
    ensures var (i, o, _) := OutcomeAt(s, st); KeepsNode(s.nodes[i], s.clock + s.skew[i], o)
  {
    assert NodeSane(s, OutcomeAt(s, st).0);
  }

  lemma NodeSaneStep(s: System, st: Step, w: World, i: nat)
    requires Sane(s) && Enabled(s, st, w) && i < |s.nodes|
    ensures NodeSane(Apply(s, st, w), i)
  {
    assert NodeSane(s, i);
    if !st.Tick? && i == OutcomeAt(s, st).0 {
      OutcomeKeepsNode(s, st, w);
      ActorSane(s, i, OutcomeAt(s, st).1, Apply(s, st, w));
    }
  }

  lemma ActorSane(s: System, i: nat, o: Outcome, s': System)
    requires Shaped(s) && Shaped(s') && i < |s.nodes| == |s'.nodes| && NodeSane(s, i)
    requires s'.clock == s.clock && s'.skew == s.skew && s'.nodes[i] == o.node
    requires KeepsNode(s.nodes[i], s.clock + s.skew[i], o)
    requires s'.readied[i] == s.readied[i] + if o.ready.Some? then [o.ready.value] else []
    ensures NodeSane(s', i)
  {
    if o.ready.Some? {
      NonZeroSnoc(s.readied[i], o.ready.value);
    } else {
      assert s'.readied[i] == s.readied[i];
    }
  }

  lemma SaneStep(s: System, st: Step, w: World)
    requires Sane(s) && Enabled(s, st, w)
    ensures Sane(Apply(s, st, w))
  {
    SaneNet(s, st, w);
    var s' := Apply(s, st, w);
    forall i | 0 <= i < |s'.nodes| ensures NodeSane(s', i) {
      NodeSaneStep(s, st, w, i);
    }
  }

  /** A node's clock has reached the claim time exactly when the unsigned comparison says so. */
  lemma ElapsedIsExact(s: System, i: nat)
    requires Sane(s) && i < |s.nodes|
    ensures Elapsed(s.clock + s.skew[i], s.nodes[i].timer) >= NEGOTIATE_INTERVAL <==> s.clock >= ClaimTime(s, i)
  {
    assert NodeSane(s, i);
  }

  // ---------------------------------------------------------------------
  // Safety of a pair, step by step
  // ---------------------------------------------------------------------

  /** The node is as before, or an owner whose beacon timer was restarted. */
  predicate AsBefore(n: Node, n': Node) {
    n' == n || (n.serviceId != 0 && n' == n.(timer := n'.timer))
  }

  /** A pair stays safe when neither node changes in what matters and no packet to either is consumed. */
  lemma PairFramed(s: System, s': System, w: World, i: nat, j: nat)
    requires Shaped(s) && Shaped(s') && i < |s.nodes| == |s'.nodes| && j < |s.nodes| && s.skew == s'.skew
    requires AsBefore(s.nodes[i], s'.nodes[i]) && AsBefore(s.nodes[j], s'.nodes[j])
    requires forall c :: c in s.net ==> c in s'.net
    requires PairSafe(s, w, i, j)
    ensures PairSafe(s', w, i, j)
  {
    var a, b := s.nodes[i], s.nodes[j];
    if Reserving(a) && Reserving(b) && a.reservingId == b.reservingId {
      if Challenged(s, w, i, j) {
        assert Challenged(s', w, i, j);
      } else {
        assert Challenged(s', w, j, i);
      }
    }
    if a.serviceId != 0 && Reserving(b) && a.serviceId == b.reservingId {
      assert Warned(s', w, i, j);
    }
  }

  /** A turn consumes no packet. */
  lemma WorkKeepsNet(s: System, k: nat, ch: Choice, w: World)
    requires Enabled(s, Work(k, ch), w)
    ensures forall c :: c in s.net ==> c in Apply(s, Work(k, ch), w).net
  {
  }

  /** A challenge outlives every step except its own delivery, as long as both nodes keep their reservation. */
  lemma ChallengeKept(s: System, st: Step, w: World, i: nat, j: nat)
    requires Sane(s) && Enabled(s, st, w) && i < |s.nodes| && j < |s.nodes| && i != j
    requires Challenged(s, w, i, j)
    requires Reserving(s.nodes[i]) && s.nodes[i].reservingId == s.nodes[j].reservingId
    requires var s' := Apply(s, st, w); s'.nodes[i] == s.nodes[i] && s'.nodes[j] == s.nodes[j]
    ensures Challenged(Apply(s, st, w), w, i, j)
  {
    var c :| c in s.net && c.dst == i && c.msg.ReserveMsg? && c.msg.id == s.nodes[j].reservingId
              && c.msg.nonce != s.nodes[i].nonce && c.due + w.delay < ClaimTime(s, j);
    assert st != Deliver(c);
    NetKeeps(s, st, w, c);
  }

  /** The owner of an id answers every reservation packet for it at once. */
  lemma OwnerAnswers(s: System, c: Copy, w: World, j: nat)
    requires Sane(s) && Enabled(s, Deliver(c), w) && j < |s.nodes|
    requires c.msg.ReserveMsg? && s.nodes[c.dst].serviceId == c.msg.id
    ensures exists d :: d in Apply(s, Deliver(c), w).net && d.dst == j && d.msg.BeaconMsg?
                        && d.msg.id == c.msg.id && d.due == s.clock + w.delay
  {
    var n := s.nodes[c.dst];
    assert c.msg.id != 0 && NodeSane(s, c.dst);
    var d := Copy(BeaconMsg(n.kind, n.serviceId, n.port), j, s.clock + w.delay);
    MulticastHas(d.msg, |s.nodes|, s.clock + w.delay, j);
    assert d in Apply(s, Deliver(c), w).net;
  }

  /** Receiving a packet: a warning is either still under way or has been turned into a beacon. */
  lemma WarningKept(s: System, c: Copy, w: World, i: nat, j: nat)
    requires Sane(s) && Enabled(s, Deliver(c), w) && i < |s.nodes| && j < |s.nodes| && i != j
    requires Warned(s, w, i, j)
    requires s.nodes[i].serviceId != 0 && s.nodes[i].serviceId == s.nodes[j].reservingId
    requires Apply(s, Deliver(c), w).nodes[j] == s.nodes[j] && Reserving(s.nodes[j])
    ensures Warned(Apply(s, Deliver(c), w), w, i, j)
  {
    var s' := Apply(s, Deliver(c), w);
    var d :| d in s.net && d.msg.id == s.nodes[j].reservingId &&
              ((d.dst == i && d.msg.ReserveMsg? && d.due + w.delay < ClaimTime(s, j))
               || (d.dst == j && d.msg.BeaconMsg? && d.due < ClaimTime(s, j)));
    if c != d {
      NetKeeps(s, Deliver(c), w, d);
      assert d in s'.net && ClaimTime(s', j) == ClaimTime(s, j);
    } else if d.dst == i {
      OwnerAnswers(s, c, w, j);
      var e :| e in s'.net && e.dst == j && e.msg.BeaconMsg? && e.msg.id == c.msg.id && e.due == s.clock + w.delay;
      assert s.clock <= d.due && ClaimTime(s', j) == ClaimTime(s, j);
    } else {
      assert false;
    }
  }

  lemma DeliverPair(s: System, c: Copy, w: World, i: nat, j: nat)
    requires Sane(s) && Safe(s, w) && Enabled(s, Deliver(c), w)
    requires i < |s.nodes| && j < |s.nodes| && i != j
    ensures PairSafe(Apply(s, Deliver(c), w), w, i, j)
  {
    var st := Deliver(c);
    var s' := Apply(s, st, w);
    var a, b := s'.nodes[i], s'.nodes[j];
    assert PairSafe(s, w, i, j) && NodeSane(s, i) && NodeSane(s, j);
    if Reserving(a) && Reserving(b) && a.reservingId == b.reservingId {
      assert a == s.nodes[i] && b == s.nodes[j];
      if Challenged(s, w, i, j) {
        ChallengeKept(s, st, w, i, j);
      } else {
        ChallengeKept(s, st, w, j, i);
      }
    }
    if a.serviceId != 0 && Reserving(b) && a.serviceId == b.reservingId {
      assert b == s.nodes[j];
      WarningKept(s, c, w, i, j);
    }
  }

  /** A node that has just started a reservation, its packet under way to j, is no threat to j. */
  lemma NewReservation(s': System, w: World, k: nat, j: nat, c: Copy)
    requires 2 * w.delay < NEGOTIATE_INTERVAL
    requires Shaped(s') && k < |s'.nodes| && j < |s'.nodes| && j != k
    requires s'.nodes[k].serviceId == 0 && s'.nodes[k].timer == s'.clock + s'.skew[k]
    requires s'.nodes[j].serviceId != 0 ==> s'.nodes[j].reservingId == 0
    requires s'.nodes[k].reservingId != 0 ==>
               c in s'.net && c.dst == j && c.due == s'.clock + w.delay && c.msg.ReserveMsg?
               && c.msg.id == s'.nodes[k].reservingId && c.msg.nonce == s'.nodes[k].nonce
    requires (Reserving(s'.nodes[j]) && s'.nodes[j].reservingId == s'.nodes[k].reservingId)
             ==> s'.nodes[j].nonce != s'.nodes[k].nonce
    ensures PairSafe(s', w, j, k) && PairSafe(s', w, k, j)
  {
    if s'.nodes[k].reservingId != 0 {
      assert ClaimTime(s', k) == s'.clock + NEGOTIATE_INTERVAL;
      if Reserving(s'.nodes[j]) && s'.nodes[j].reservingId == s'.nodes[k].reservingId {
        assert Challenged(s', w, j, k);
      }
      if s'.nodes[j].serviceId == s'.nodes[k].reservingId {
        assert Warned(s', w, j, k);
      }
    }
  }

  lemma ReserveOutcome(n: Node, now: nat, c: Choice)
    requires n.serviceId == 0 && n.collided && Turn(n, now, c).node != n
    ensures var o := Turn(n, now, c);
            && o.node.serviceId == 0 && o.node.timer == now && o.node.reservingId == c.id && o.node.nonce == c.nonce
            && o.sent == if c.id == 0 then None else Some(ReserveMsg(o.node.kind, c.id, o.node.port, c.nonce))
  {
  }

  /** What such a turn leaves: the reservation, nobody else changed, and its packet under way to j. */
  lemma ReserveEffect(s: System, k: nat, ch: Choice, w: World, j: nat)
    requires Enabled(s, Work(k, ch), w) && j < |s.nodes| && j != k
    requires s.nodes[k].serviceId == 0 && s.nodes[k].collided && Apply(s, Work(k, ch), w).nodes[k] != s.nodes[k]
    ensures var s' := Apply(s, Work(k, ch), w);
            && Shaped(s') && |s'.nodes| == |s.nodes| && s'.nodes[j] == s.nodes[j]
            && s'.clock == s.clock && s'.skew == s.skew
            && var n := s'.nodes[k];
            && n.serviceId == 0 && n.timer == s.clock + s.skew[k] && n.reservingId == ch.id && n.nonce == ch.nonce
            && (ch.id != 0 ==> Copy(ReserveMsg(n.kind, ch.id, n.port, ch.nonce), j, s.clock + w.delay) in s'.net)
  {
    hide Turn, Multicast, NonceIsDistinct;
    ReserveOutcome(s.nodes[k], s.clock + s.skew[k], ch);
    var n := OutcomeAt(s, Work(k, ch)).1.node;
    if ch.id != 0 {
      MulticastHas(ReserveMsg(n.kind, ch.id, n.port, ch.nonce), |s.nodes|, s.clock + w.delay, j);
    }
  }

  /** A turn that starts a reservation puts its packet under way to every other node at once. */
  lemma ReservePair(s: System, k: nat, ch: Choice, w: World, j: nat)
    requires 2 * w.delay < NEGOTIATE_INTERVAL && w.distinct
    requires Sane(s) && Enabled(s, Work(k, ch), w)
    requires j < |s.nodes| && j != k
    requires s.nodes[k].serviceId == 0 && s.nodes[k].collided && Apply(s, Work(k, ch), w).nodes[k] != s.nodes[k]
    ensures PairSafe(Apply(s, Work(k, ch), w), w, j, k) && PairSafe(Apply(s, Work(k, ch), w), w, k, j)
  {
    assert NodeSane(s, j);
    assert s.nodes[j].serviceId != 0 ==> s.nodes[j].reservingId == 0;
    hide Sane, NodeSane, PairSafe, Apply;
    ReserveEffect(s, k, ch, w, j);
    var s' := Apply(s, Work(k, ch), w);
    var n := s'.nodes[k];
    NewReservation(s', w, k, j, Copy(ReserveMsg(n.kind, n.reservingId, n.port, n.nonce), j, s.clock + w.delay));
  }

  /** A turn that claims an id: whoever else wants it is still to be told in time. */
  lemma ClaimPair(s: System, k: nat, ch: Choice, w: World, j: nat)
    requires Sane(s) && Safe(s, w) && Enabled(s, Work(k, ch), w)
    requires j < |s.nodes| && j != k
    requires s.nodes[k].serviceId == 0 && !s.nodes[k].collided && Apply(s, Work(k, ch), w).nodes[k] != s.nodes[k]
    ensures PairSafe(Apply(s, Work(k, ch), w), w, j, k) && PairSafe(Apply(s, Work(k, ch), w), w, k, j)
  {
    var s' := Apply(s, Work(k, ch), w);
    var id := s.nodes[k].reservingId;
    assert PairSafe(s, w, j, k) && PairSafe(s, w, k, j);
    ElapsedIsExact(s, k);
    assert s.clock >= ClaimTime(s, k);
    if id != 0 {
      assert !Warned(s, w, j, k);
      assert !Challenged(s, w, j, k);
      assert s.nodes[j].serviceId != id;
      if Reserving(s.nodes[j]) && s.nodes[j].reservingId == id {
        var c :| c in s.net && c.dst == k && c.msg.ReserveMsg? && c.msg.id == s.nodes[j].reservingId
                  && c.msg.nonce != s.nodes[k].nonce && c.due + w.delay < ClaimTime(s, j);
        NetKeeps(s, Work(k, ch), w, c);
        assert c in s'.net;
        assert Warned(s', w, k, j);
      }
    }
  }

  /** A turn that changes no more than the node's beacon timer. */
  lemma IdleTurn(s: System, k: nat, ch: Choice, w: World)
    requires Enabled(s, Work(k, ch), w)
    requires s.nodes[k].serviceId != 0 || Apply(s, Work(k, ch), w).nodes[k] == s.nodes[k]
    ensures AsBefore(s.nodes[k], Apply(s, Work(k, ch), w).nodes[k])
  {
  }

  lemma IdleOrElsewhere(s: System, k: nat, ch: Choice, w: World, i: nat, j: nat)
    requires Enabled(s, Work(k, ch), w) && i < |s.nodes| && j < |s.nodes|
    requires (k != i && k != j) || s.nodes[k].serviceId != 0 || Apply(s, Work(k, ch), w).nodes[k] == s.nodes[k]
    ensures var s' := Apply(s, Work(k, ch), w);
            AsBefore(s.nodes[i], s'.nodes[i]) && AsBefore(s.nodes[j], s'.nodes[j])
  {
    if k == i || k == j {
      IdleTurn(s, k, ch, w);
    }
  }

  lemma SafeStep(s: System, st: Step, w: World)
    requires 2 * w.delay < NEGOTIATE_INTERVAL && w.distinct
    requires Sane(s) && Safe(s, w) && Enabled(s, st, w)
    ensures Safe(Apply(s, st, w), w)
  {
    var s' := Apply(s, st, w);
    forall i, j | 0 <= i < |s'.nodes| && 0 <= j < |s'.nodes| && i != j
      ensures PairSafe(s', w, i, j)
    {
      assert PairSafe(s, w, i, j);
      match st
      case Tick(_) => PairFramed(s, s', w, i, j);
      case Deliver(c) => DeliverPair(s, c, w, i, j);
      case Work(k, ch) =>
        WorkKeepsNet(s, k, ch, w);
        if (k != i && k != j) || s.nodes[k].serviceId != 0 || s'.nodes[k] == s.nodes[k] {
          IdleOrElsewhere(s, k, ch, w, i, j);
          PairFramed(s, s', w, i, j);
        } else if s.nodes[k].collided {
          ReservePair(s, k, ch, w, if k == i then j else i);
        } else {
          ClaimPair(s, k, ch, w, if k == i then j else i);
        }
    }
  }

  lemma {:induction false} SaneRun(s: System, run: seq<Step>, w: World)
    requires Sane(s) && Valid(s, run, w)
    ensures Sane(After(s, run, w))
    decreases |run|
  {
    if run != [] {
      SaneStep(s, run[0], w);
      SaneRun(Apply(s, run[0], w), run[1..], w);
    }
  }

  lemma {:induction false} SafeRun(s: System, run: seq<Step>, w: World)
    requires 2 * w.delay < NEGOTIATE_INTERVAL && w.distinct
    requires Sane(s) && Safe(s, w) && Valid(s, run, w)
    ensures Sane(After(s, run, w)) && Safe(After(s, run, w), w)
    decreases |run|
  {
    if run != [] {
      SaneStep(s, run[0], w);
      SafeStep(s, run[0], w);
      SafeRun(Apply(s, run[0], w), run[1..], w);
    }
  }

  lemma InitialIsSafe(s: System, w: World)
    requires Initial(s)
    ensures Sane(s) && Safe(s, w)
  {
  }

  /** Ids are unique at the end of every run of any number of nodes. */
  lemma IdsStayUnique(s: System, run: seq<Step>, w: World)
    requires Initial(s) && Valid(s, run, w)
    requires 2 * w.delay < NEGOTIATE_INTERVAL && w.distinct
    ensures UniqueIds(After(s, run, w))
  {
    InitialIsSafe(s, w);
    SafeRun(s, run, w);
    var e := After(s, run, w);
    forall i, j | 0 <= i < j < |e.nodes| && e.nodes[i].serviceId != 0
      ensures e.nodes[i].serviceId != e.nodes[j].serviceId
    {
      assert PairSafe(e, w, i, j);
    }
  }
}
