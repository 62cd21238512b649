// What holds in every reachable state of the engine, whatever the callers, the
// application, the kernel and the scheduler do.
module EngineRuns {
  import opened NetEngine
  import opened EngineSystem
  import opened EngineOwnership
  import opened EngineStory
  import opened EngineLeases
  import opened Lists

  ghost predicate Inv(s: System) {
    Shaped(s) && Placed(s) && AllTold(s) && Balanced(s)
  }

  lemma InitialInv(s: System)
    requires Initial(s)
    ensures Inv(s)
  {
  }

  lemma StepKeepsInv(s: System, step: Step)
    requires Inv(s) && Enabled(s, step)
    ensures Inv(Apply(s, step))
  {
    hide Shaped, Placed, AllTold, Balanced, Enabled, Apply;
    StepKeepsShape(s, step);
    StepKeepsPlaces(s, step);
    StepKeepsStories(s, step);
    StepKeepsBalance(s, step);
  }

  lemma {:induction false} RunInv(s: System, run: seq<Step>)
    requires Initial(s) && Valid(s, run)
    ensures Inv(After(s, run)) && After(s, run).workers == s.workers
    decreases |run|
  {
    hide Inv, Enabled, Apply, Initial;
    if run == [] {
      InitialInv(s);
    } else {
      var t, step := After(s, run[..|run| - 1]), run[|run| - 1];
      RunInv(s, run[..|run| - 1]);
      StepKeepsInv(t, step);
      OthersStay(t, step);
    }
  }

  /** In every interleaving each connection is in exactly one inbox, list, hand or
      grave, once: nothing is lost, shared or deleted twice. */
  lemma SingleOwner(s: System, run: seq<Step>)
    requires Initial(s) && Valid(s, run)
    ensures var t := After(s, run);
            && (forall p :: p in Places(t.workers) ==> p in t.boxes)
            && Held(t.boxes, Places(t.workers)) == All(|t.members|)
            && forall p, i: nat, q, j: nat ::
                 At(t, p, i) && At(t, q, j) && t.boxes[p][i] == t.boxes[q][j] ==> p == q && i == j
  {
    hide Valid, After, Shaped, Held, Places, AllTold, Balanced;
    RunInv(s, run);
    Census(After(s, run));
    OnePlace(After(s, run));
  }

  lemma OnePlace(t: System)
    requires Placed(t)
    ensures forall p, i: nat, q, j: nat ::
              At(t, p, i) && At(t, q, j) && t.boxes[p][i] == t.boxes[q][j] ==> p == q && i == j
  {
    forall p, i: nat, q, j: nat | At(t, p, i) && At(t, q, j) && t.boxes[p][i] == t.boxes[q][j]
      ensures p == q && i == j
    {
      assert t.members[t.boxes[p][i]].place == p && t.members[t.boxes[q][j]].place == q;
    }
  }

  /** Whatever the callbacks answer and however often anybody closes: at most one of
      cb_net_closed and cb_net_refused, and nothing after it; a reaped connection has
      had it, no other has; cb_net_accepted comes first, on accepted sockets only and
      from the listener thread; all other callbacks come from the thread the balancer
      named; and what is refused has never been opened. */
  lemma CallbackTrace(s: System, run: seq<Step>, id: Id, i: nat)
    requires Initial(s) && Valid(s, run)
    requires id < |After(s, run).members| && i < |After(s, run).members[id].conn.trace|
    ensures var m := After(s, run).members[id];
            var mark, n := m.conn.trace[i], |m.conn.trace|;
            && (Terminal(mark.callback) <==> m.place == Reaped && i == n - 1)
            && (mark.callback == OnAccepted <==> m.kind == Incoming && i == 0)
            && mark.thread == (if mark.callback == OnAccepted then 0 else m.home)
            && (mark.callback != OnAccepted ==> 1 <= m.home <= s.workers && !Unlisted(m.place))
            && (mark.callback == OnRefused ==> m.kind == Outgoing && Opens(m.conn.trace) == 0)
  {
    hide Valid, After, Shaped, Placed, Balanced, Opens;
    RunInv(s, run);
    var m := After(s, run).members[id];
    assert Told(m, s.workers);
    var trace, n := m.conn.trace, |m.conn.trace|;
    var end := if m.place == Reaped then n - 1 else n;
    assert Prologue(m.kind) <= trace[..end];
    assert m.kind == Incoming ==> trace[..end][0] == trace[0];
  }

  /** A connection that a worker has reaped has had its last callback, and the engine has let go of it. */
  lemma ReapedWasTold(s: System, run: seq<Step>, id: Id)
    requires Initial(s) && Valid(s, run) && id < |After(s, run).members|
    ensures var m := After(s, run).members[id];
            && (m.place == Reaped ==> |m.conn.trace| > 0 && Terminal(m.conn.trace[|m.conn.trace| - 1].callback))
            && (m.kind == Incoming ==> |m.conn.trace| > 0)
            && Opens(m.conn.trace) <= 1
  {
    hide Valid, After, Shaped, Placed, Balanced, Opens;
    RunInv(s, run);
    assert Told(After(s, run).members[id], s.workers);
  }

  /** A socket is under a poller exactly while it is in a worker's list, and the poller
      watches it for writing exactly when its event mask says so. */
  lemma PollerInStep(s: System, run: seq<Step>, id: Id)
    requires Initial(s) && Valid(s, run) && id < |After(s, run).members|
    ensures var m := After(s, run).members[id];
            && (m.conn.interest != Unregistered <==> m.place.Listed?)
            && (m.place.Listed? ==> (m.conn.interest == ReadWrite <==> m.conn.writing))
            && (m.place in After(s, run).boxes && id in After(s, run).boxes[m.place])
            && (m.place.Listed? ==> m.place.worker == m.home)
  {
    hide Valid, After, Shaped, Balanced;
    RunInv(s, run);
    assert Told(After(s, run).members[id], s.workers);
  }

  /** A worker's turn leaves the connection awake, whatever its callback did. */
  lemma VisitWakes(s: System, run: seq<Step>, w: nat, i: nat, now: U64, timeout: U64, r: Reply)
    requires Initial(s) && Valid(s, run)
    requires Enabled(After(s, run), Step.Visit(w, i, now, timeout, r))
    ensures var t := After(s, run);
            var id := t.boxes[Listed(w)][i];
            var m := Apply(t, Step.Visit(w, i, now, timeout, r)).members[id];
            m.place == Reaped || Awake(m.conn)
  {
    hide Valid, After, Shaped, Balanced, Opens, Watch, Finish;
    RunInv(s, run);
    var t := After(s, run);
    var m := t.members[t.boxes[Listed(w)][i]];
    assert Told(m, s.workers);
    if !Over(m.conn) { WatchAdvances(m.conn, w, now, timeout, r); }
  }

  /** Retains minus releases are the connections that the engine has, or had when a worker shut down. */
  lemma BalancerConservation(s: System, run: seq<Step>)
    requires Initial(s) && Valid(s, run)
    ensures var t := After(s, run);
            && multiset(t.retains) == multiset(t.releases) + Leases(t.members, Current)
            && |t.retains| - |t.releases| == |Leases(t.members, Current)|
            && multiset(t.releases) <= multiset(t.retains)
  {
    hide Valid, After, Shaped, Placed, AllTold, Balanced;
    RunInv(s, run);
    BalanceIsCurrent(After(s, run));
  }

  // ---------------------------------------------------------------------
  // Over time
  // ---------------------------------------------------------------------

  /** What a run makes of a connection. */
  predicate Later(m: Member, d: Member) {
    && m.kind == d.kind && m.hash == d.hash && m.conn.trace <= d.conn.trace
    && (m.place != Hands ==> d.place != Hands && m.home == d.home)
    && (Deleted(m.place) ==> m == d)
  }

  lemma SubjectIsAlive(s: System, step: Step)
    requires Placed(s) && Enabled(s, step)
    ensures Subject(s, step) < |s.members| ==> !Deleted(s.members[Subject(s, step)].place)
  {
  }

  lemma StepIsLater(s: System, step: Step, id: Id)
    requires Inv(s) && Enabled(s, step) && id < |s.members|
    ensures id < |Apply(s, step).members| && Later(s.members[id], Apply(s, step).members[id])
  {
    hide Told, Shaped, Balanced, Placed, Subject, Apply;
    OthersStay(s, step);
    SubjectIsAlive(s, step);
    if id == Subject(s, step) {
      SubjectIsLater(s, step);
    }
  }

  lemma SubjectIsLater(s: System, step: Step)
    requires Inv(s) && Enabled(s, step) && Subject(s, step) < |s.members|
    ensures var m, d := s.members[Subject(s, step)], Apply(s, step).members[Subject(s, step)];
            !Deleted(m.place) ==> Later(m, d)
  {
    hide Opens, CloseTimes, Watch, Finish, Handle, Without;
    var m := s.members[Subject(s, step)];
    assert Told(m, s.workers);
    match step
    case Visit(w, i, now, timeout, r) =>
      if Over(m.conn) {
        FinishEnds(m.conn, w, r);
      } else {
        WatchAdvances(m.conn, w, now, timeout, r);
      }
    case Event(w, i, now, io, rs) => HandleAdvances(m.conn, w, now, io, rs);
    case _ =>
  }

  lemma {:induction false} Prefix(s: System, run: seq<Step>, k: nat)
    requires Valid(s, run) && k <= |run|
    ensures Valid(s, run[..k])
    decreases |run|
  {
    if k < |run| {
      Prefix(s, run[..|run| - 1], k);
      assert run[..|run| - 1][..k] == run[..k];
    } else {
      assert run[..k] == run;
    }
  }

  /** Once deleted, a connection is never touched again; until then its story only
      grows, and its home stays the one the balancer named. */
  lemma {:induction false} DeletedIsForever(s: System, run: seq<Step>, k: nat, id: Id)
    requires Initial(s) && Valid(s, run) && k <= |run| && Valid(s, run[..k])
    requires id < |After(s, run[..k]).members|
    ensures id < |After(s, run).members| && Later(After(s, run[..k]).members[id], After(s, run).members[id])
    decreases |run|
  {
    hide Initial, Enabled, Apply, Inv;
    if k == |run| {
      assert run[..k] == run;
    } else {
      var init, step := run[..|run| - 1], run[|run| - 1];
      assert init[..k] == run[..k];
      DeletedIsForever(s, init, k, id);
      RunInv(s, init);
      StepIsLater(After(s, init), step, id);
    }
  }
}
