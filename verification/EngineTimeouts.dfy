// When cb_net_timeout is called: the moments at which a connection was active are read
// off the steps of a run, and the idle check of a worker's turn is told from them.
module EngineTimeouts {
  import opened TcpStream
  import opened NetEngine
  import opened EngineSystem
  import opened EngineStory
  import opened Lists

  /** The turn has called cb_net_timeout: the trace of its connection has grown by that. */
  predicate TimesOut(s: System, step: Step)
    requires Enabled(s, step) && step.Visit?
  {
    var id := s.boxes[Listed(step.w)][step.i];
    Apply(s, step).members[id].conn.trace == s.members[id].conn.trace + [Mark(OnTimeout, step.w)]
  }

  /** When a step counts as activity of a connection: it is made or accepted, the poller
      reports something of it, or cb_net_timeout is called for it and answers true. */
  function ActiveAt(s: System, step: Step, id: Id): seq<nat>
    requires Enabled(s, step)
  {
    match step
    case Connect(_, _, _, atime) => if id == |s.members| then [atime] else []
    case Accept(_, _, now, _) => if id == |s.members| then [now] else []
    case Event(w, i, now, io, _) =>
      if s.boxes[Listed(w)][i] == id && (io.writable || io.readable) then [now] else []
    case Visit(w, i, now, _, r) => if s.boxes[Listed(w)][i] == id && TimesOut(s, step) && r.ok then [now] else []
    case _ => []
  }

  /** The moments of a run at which a connection was active, in the order of the steps. */
  function Activity(s: System, run: seq<Step>, id: Id): seq<nat>
    requires Valid(s, run)
    decreases |run|
  {
    if run == [] then []
    else
      var init := run[..|run| - 1];
      Activity(s, init, id) + ActiveAt(After(s, init), run[|run| - 1], id)
  }

  /** An open connection remembers when it was last active. */
  predicate Remembers(c: Conn, active: seq<nat>) {
    c.state == Connecting || c.state == Connected ==> active != [] && c.atime == active[|active| - 1]
  }

  /** now - past as the unsigned 64-bit subtraction of the source computes it. */
  function Gap(now: U64, past: nat): int {
    if now >= past then now - past else now - past + 0x1_0000_0000_0000_0000
  }

  // ---------------------------------------------------------------------
  // One step
  // ---------------------------------------------------------------------

  lemma {:induction false} ClosingIsNotOpen(s: State, n: nat)
    requires n > 0
    ensures CloseTimes(s, n) != Connecting && CloseTimes(s, n) != Connected
  {
    if n > 1 { ClosingIsNotOpen(s, n - 1); }
  }

  /** A turn calls cb_net_timeout if and only if the connection is connected, there is a
      timeout, and at least so much time lies between its last activity and now. */
  lemma VisitTimesOutIff(c: Conn, thread: nat, now: U64, timeout: U64, r: Reply)
    ensures NetEngine.Visit(c, thread, now, timeout, r).trace == c.trace + [Mark(OnTimeout, thread)]
            <==> c.state == Connected && timeout != 0 && Gap(now, c.atime) >= timeout
    ensures c.state == Connected || c.state == Connecting || c.state == Listening ==>
              NetEngine.Visit(c, thread, now, timeout, r).trace in {c.trace, c.trace + [Mark(OnTimeout, thread)]}
  {
    hide CloseTimes;
    if Over(c) {
      var d := Finish(c, thread, r);
      var last := Mark(if c.state == Refused then OnRefused else OnClosed, thread);
      assert d.trace == c.trace + [last];
      assert (c.trace + [last])[|c.trace|] == last && (c.trace + [Mark(OnTimeout, thread)])[|c.trace|] != last;
    } else {
      assert |c.trace + [Mark(OnTimeout, thread)]| == |c.trace| + 1;
    }
  }

  lemma VisitRemembers(c: Conn, thread: nat, now: U64, timeout: U64, r: Reply, active: seq<nat>)
    requires Remembers(c, active)
    ensures var d := NetEngine.Visit(c, thread, now, timeout, r);
            var fired := d.trace == c.trace + [Mark(OnTimeout, thread)];
            Remembers(d, active + if fired && r.ok then [now] else [])
  {
    hide CloseTimes;
    VisitTimesOutIff(c, thread, now, timeout, r);
    assert active + [] == active;
    if Over(c) {
      ClosedStaysClosed(r.closes);
    } else if !r.ok {
      ClosingIsNotOpen(c.state, r.closes + 1);
      assert CloseTimes(c.state, r.closes + 1) == AfterClose(CloseTimes(c.state, r.closes), true) by {
        CloseTimesAdd(c.state, r.closes, 1);
        CallState(c, OnTimeout, thread, r);
      }
    } else if r.closes > 0 {
      ClosingIsNotOpen(c.state, r.closes);
    }
  }

  /** An event that reports anything is activity. */
  lemma HandleTime(c: Conn, thread: nat, now: U64, io: Io, rs: Replies)
    ensures Handle(c, thread, now, io, rs).atime == if io.writable || io.readable then now else c.atime
    ensures !io.writable && !io.readable ==> Handle(c, thread, now, io, rs) == c
  {
    hide CloseTimes;
  }

  lemma TouchRemembers(c: Conn, closes: nat, sent: nat, active: seq<nat>)
    requires Remembers(c, active)
    ensures Remembers(c.(state := CloseTimes(c.state, closes), output := c.output + sent), active)
  {
    if closes > 0 { ClosingIsNotOpen(c.state, closes); }
  }

  lemma SubjectRemembers(s: System, step: Step, active: seq<nat>)
    requires Enabled(s, step) && Subject(s, step) < |s.members|
    requires Remembers(s.members[Subject(s, step)].conn, active)
    ensures var id := Subject(s, step);
            id < |Apply(s, step).members|
            && Remembers(Apply(s, step).members[id].conn, active + ActiveAt(s, step, id))
  {
    hide NetEngine.Visit, Handle, CloseTimes, Without, Over;
    assert active + [] == active;
    var c := s.members[Subject(s, step)].conn;
    match step
    case Visit(w, i, now, timeout, r) => VisitRemembers(c, w, now, timeout, r, active);
    case Event(w, i, now, io, rs) => HandleTime(c, w, now, io, rs);
    case Touch(_, closes, sent) => TouchRemembers(c, closes, sent, active);
    case _ =>
  }

  /** Steps on other connections are no activity of this one. */
  lemma OthersAreNotActive(s: System, step: Step, id: Id)
    requires Enabled(s, step) && id < |s.members| && id != Subject(s, step)
    ensures ActiveAt(s, step, id) == []
  {
  }

  lemma NewRemembers(s: System, step: Step)
    requires Enabled(s, step) && |Apply(s, step).members| > |s.members|
    ensures Remembers(Apply(s, step).members[|s.members|].conn, ActiveAt(s, step, |s.members|))
  {
    hide CloseTimes, Without, Handle, NetEngine.Visit;
    match step
    case Accept(_, _, now, r) =>
      ClosingIsNotOpen(Connected, r.closes + 1);
      CallState(NEW.(state := Connected), OnAccepted, 0, r);
    case _ =>
  }

  // ---------------------------------------------------------------------
  // Runs
  // ---------------------------------------------------------------------

  lemma {:induction false} RunRemembers(s: System, run: seq<Step>, id: Id)
    requires s.members == [] && Valid(s, run) && id < |After(s, run).members|
    ensures Remembers(After(s, run).members[id].conn, Activity(s, run, id))
    decreases |run|
  {
    hide Enabled, Apply, Remembers, ActiveAt, Subject;
    if run != [] {
      var init, step := run[..|run| - 1], run[|run| - 1];
      var t := After(s, init);
      OthersStay(t, step);
      if id < |t.members| {
        RunRemembers(s, init, id);
        if id == Subject(t, step) {
          SubjectRemembers(t, step, Activity(s, init, id));
        } else {
          OthersAreNotActive(t, step, id);
          assert Activity(s, init, id) + [] == Activity(s, init, id);
        }
      } else {
        NotActiveBefore(s, init, id);
        NewRemembers(t, step);
        assert [] + ActiveAt(t, step, id) == ActiveAt(t, step, id);
      }
    }
  }

  /** What has not been made yet has not been active. */
  lemma {:induction false} NotActiveBefore(s: System, run: seq<Step>, id: Id)
    requires s.members == [] && Valid(s, run) && id >= |After(s, run).members|
    ensures Activity(s, run, id) == []
    decreases |run|
  {
    hide Enabled, Apply, ActiveAt, Subject;
    if run != [] {
      var init, step := run[..|run| - 1], run[|run| - 1];
      OthersStay(After(s, init), step);
      NotActiveBefore(s, init, id);
      StrangersAreNotActive(After(s, init), step, id);
    }
  }

  lemma StrangersAreNotActive(s: System, step: Step, id: Id)
    requires Enabled(s, step) && id >= |Apply(s, step).members|
    ensures ActiveAt(s, step, id) == []
  {
    hide AcceptedConn, NetEngine.Visit, Handle, CloseTimes, Without;
  }

  /** In every run, with any clock: a worker's turn calls cb_net_timeout if and only if
      the connection is connected, a timeout is set, and the unsigned difference between
      now and the last activity of the connection is no less than the timeout. */
  lemma TurnTimesOutIff(s: System, run: seq<Step>, w: nat, i: nat, now: U64, timeout: U64, r: Reply)
    requires Initial(s) && Valid(s, run)
    requires Enabled(After(s, run), Step.Visit(w, i, now, timeout, r))
    ensures var t, step := After(s, run), Step.Visit(w, i, now, timeout, r);
            var id := t.boxes[Listed(w)][i];
            var c, active := t.members[id].conn, Activity(s, run, id);
            && (c.state == Connected ==> active != [])
            && (TimesOut(t, step)
                <==> c.state == Connected && timeout != 0 && Gap(now, active[|active| - 1]) >= timeout)
  {
    hide Valid, After, Activity, NetEngine.Visit, CloseTimes, Without, Over;
    var t := After(s, run);
    var id := t.boxes[Listed(w)][i];
    RunRemembers(s, run, id);
    VisitTimesOutIff(t.members[id].conn, w, now, timeout, r);
  }

  /** The clock has not gone back between moments of activity, nor since. */
  predicate Forward(active: seq<nat>, now: U64) {
    && (forall j, k :: 0 <= j < k < |active| ==> active[j] <= active[k])
    && (forall k :: 0 <= k < |active| ==> active[k] <= now)
  }

  lemma LastIsLatest(active: seq<nat>, now: U64)
    requires Forward(active, now) && active != []
    ensures var last := active[|active| - 1]; last in active && last <= now && forall x :: x in active ==> x <= last
  {
  }

  /** With a clock that does not go back cb_net_timeout is called if and only if the
      connection is connected, a timeout is set, and the connection has not been active
      within it. */
  lemma TimesOutIffSilent(s: System, run: seq<Step>, w: nat, i: nat, now: U64, timeout: U64, r: Reply)
    requires Initial(s) && Valid(s, run)
    requires Enabled(After(s, run), Step.Visit(w, i, now, timeout, r))
    requires Forward(Activity(s, run, After(s, run).boxes[Listed(w)][i]), now)
    ensures var t, step := After(s, run), Step.Visit(w, i, now, timeout, r);
            var id := t.boxes[Listed(w)][i];
            TimesOut(t, step)
            <==> && t.members[id].conn.state == Connected && timeout != 0
                 && forall x :: x in Activity(s, run, id) ==> now - x >= timeout
  {
    hide Valid, After, Activity, NetEngine.Visit, CloseTimes, Without, Over, TimesOut, Initial, Forward;
    var t := After(s, run);
    TurnTimesOutIff(s, run, w, i, now, timeout, r);
    var active := Activity(s, run, t.boxes[Listed(w)][i]);
    if active != [] { LastIsLatest(active, now); }
  }
}
