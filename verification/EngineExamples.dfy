// Runs of the engine that show what its documentation does not say.
module EngineExamples {
  import opened TcpStream
  import opened NetEngine
  import opened EngineSystem
  import opened EngineOwnership
  import opened EngineRuns
  import opened EngineHistory
  import opened Lists
  import opened EngineSweep
  import opened EngineRefinement

  /** An engine just started with n workers. */
  function Started(n: nat): System {
    System(n, [], map p | p in Places(n) :: [], seq(n + 1, _ => Running), [], [])
  }

  lemma StartedIsInitial(n: nat)
    requires 1 <= n <= MAX_WORKER
    ensures Initial(Started(n))
  {
    ThreadPlacesAre(n);
    forall p: Place ensures p in Places(n) <==> IsPlace(p, n) {
      if !p.Inbox? && !p.Listed? {
        assert p in [Hands, Posting, Dropped, Reaped, Killed];
      }
    }
  }

  lemma {:induction false} RunAppend(s: System, a: seq<Step>, b: seq<Step>)
    requires Valid(s, a) && Valid(After(s, a), b)
    ensures Valid(s, a + b) && After(s, a + b) == After(After(s, a), b)
    decreases |b|
  {
    hide Enabled, Apply;
    if b == [] {
      assert a + b == a;
    } else {
      assert (a + b)[..|a + b| - 1] == a + b[..|b| - 1];
      RunAppend(s, a, b[..|b| - 1]);
    }
  }

  const QUIET: Reply := Reply(true, 0, 0, 0)
  const BYTE_COMES: Io := Io(false, true, 0, 1, false)

  lemma ListenEffect(s: System)
    requires Initial(s)
    ensures Inv(s) && Enabled(s, Listen(true))
    ensures var t := Apply(s, Listen(true));
            && Inv(t) && t.workers == s.workers
            && t.members == [Member(Listener, 0, 0, Posting, NEW.(state := Listening))]
            && t.boxes == s.boxes[Posting := [0]] && t.phases == s.phases
            && Box(s, Inbox(0)) == Box(s, Hands) == List(s, 0) == List(s, 1) == Queue(s, 1) == []
  {
    hide Inv;
    InitialInv(s);
    StepKeepsInv(s, Listen(true));
    assert [] + [|s.members|] == [0];
  }

  /** A listening socket has come to the listener thread. */
  lemma Listens(s: System) returns (run: seq<Step>)
    requires Initial(s)
    ensures Valid(s, run)
    ensures var e := After(s, run);
            && Inv(e) && e.workers == s.workers && |e.members| == 1 && Runs(e, 0) && Runs(e, 1)
            && List(e, 0) == [0] && List(e, 1) == [] && Queue(e, 1) == []
            && Box(e, Hands) == [] && Box(e, Posting) == []
  {
    hide Inv, Register, Apply, Enabled, Valid, After, Initial, Runs;
    ListenEffect(s);
    var s1 := Apply(s, Listen(true));
    PostEffect(s1, 0);
    var s2 := Apply(s1, Post(0));
    PhasesStayOnce(s1, Post(0));
    BothRun(s, s1, s2);
    assert [0][..0] == [] && [] + [0] == [0];
    TakeEffect(s2, 0);
    RunThree(s, Listen(true), Post(0), Take(0));
    run := [Listen(true), Post(0), Take(0)];
    PhasesStay(s, run);
    BothRun(s, After(s, run), After(s, run));
    assert [0][1..] == [];
  }

  lemma BothRun(s: System, t: System, u: System)
    requires Initial(s) && t.workers == u.workers == s.workers && t.phases == u.phases == s.phases
    ensures Runs(t, 0) && Runs(u, 0) && Runs(t, 1) && Runs(u, 1)
  {
  }

  /** The callbacks of an accepted socket come from two threads, as soon as it receives
      anything: cb_net_accepted from the listener thread, cb_net_recv from a worker. */
  lemma TwoThreadsCallBack(s: System) returns (run: seq<Step>)
    requires Initial(s)
    ensures Valid(s, run) && |After(s, run).members| == 2
    ensures After(s, run).members[1].conn.trace == [Mark(OnAccepted, 0), Mark(OnRecv, 1)]
  {
    hide Inv, Enabled, Apply, Initial;
    var first := Listens(s);
    var a := After(s, first);
    var more := Serves(a);
    RunAppend(s, first, more);
    run := first + more;
  }

  lemma Serves(a: System) returns (run: seq<Step>)
    requires Inv(a) && a.workers >= 1 && |a.members| == 1 && Runs(a, 0) && Runs(a, 1)
    requires List(a, 0) == [0] && List(a, 1) == [] && Queue(a, 1) == []
    ensures Valid(a, run) && |After(a, run).members| == 2
    ensures After(a, run).members[1].conn.trace == [Mark(OnAccepted, 0), Mark(OnRecv, 1)]
  {
    hide Inv, Apply, Handle, AcceptedConn, Register;
    var make := Accept(0, 0, 0, QUIET);
    AcceptIsEnabled(a);
    HandOverIsARun(a, make, 1);
    var three := [make, Retain(|Box(a, Hands)|, 1), Post(|Box(a, Posting)|)];
    var b := After(a, three);
    PhasesStay(a, three);
    assert Queue(b, 1) == [1] && List(b, 1) == [];
    TakeEffect(b, 1);
    var c := Apply(b, Take(1));
    RunSnoc(a, three, Take(1));
    var last := Event(1, 0, 0, BYTE_COMES, Replies(QUIET, QUIET, QUIET));
    EventEffect(c, last);
    RunSnoc(a, three + [Take(1)], last);
    ReceivedTrace();
    run := three + [Take(1)] + [last];
  }

  lemma AcceptIsEnabled(a: System)
    requires Inv(a) && Runs(a, 0) && List(a, 0) == [0] && |a.members| == 1
    ensures Enabled(a, Accept(0, 0, 0, QUIET))
  {
  }

  lemma PhasesStayOnce(s: System, step: Step)
    requires Enabled(s, step) && !step.Stop? && !step.Drain?
    ensures Apply(s, step).phases == s.phases && Apply(s, step).workers == s.workers
  {
    hide Handle, NetEngine.Visit, AcceptedConn, CloseTimes, Register;
  }

  lemma {:induction false} PhasesStay(s: System, run: seq<Step>)
    requires Valid(s, run) && forall k :: 0 <= k < |run| ==> !run[k].Stop? && !run[k].Drain?
    ensures After(s, run).phases == s.phases && After(s, run).workers == s.workers
    decreases |run|
  {
    hide Enabled, Apply;
    if run != [] {
      PhasesStay(s, run[..|run| - 1]);
      PhasesStayOnce(After(s, run[..|run| - 1]), run[|run| - 1]);
    }
  }

  lemma EventEffect(c: System, step: Step)
    requires Inv(c) && Runs(c, 1) && List(c, 1) == [1] && |c.members| > 1 && step.Event? && step.w == 1 && step.i == 0
    ensures Enabled(c, step)
    ensures var d := Handle(c.members[1].conn, 1, step.now, step.io, step.rs);
            Apply(c, step).members == c.members[1 := c.members[1].(conn := d)]
  {
    hide Handle;
  }

  lemma QuietCall(c: Conn, callback: Callback, thread: nat)
    ensures CallOrClose(c, callback, thread, QUIET) == c.(trace := c.trace + [Mark(callback, thread)])
  {
  }

  lemma ReceivedTrace()
    ensures Handle(Register(AcceptedConn(0, QUIET)), 1, 0, BYTE_COMES, Replies(QUIET, QUIET, QUIET)).trace
            == [Mark(OnAccepted, 0), Mark(OnRecv, 1)]
  {
    hide CallOrClose, Write, Open, WriteEnds;
    QuietCall(NEW.(state := Connected), OnAccepted, 0);
    assert [] + [Mark(OnAccepted, 0)] == [Mark(OnAccepted, 0)];
    var c := Register(AcceptedConn(0, QUIET));
    assert c == NEW.(state := Connected, interest := Read, trace := [Mark(OnAccepted, 0)]);
    QuietCall(c.(input := 1), OnRecv, 1);
    assert [Mark(OnAccepted, 0)] + [Mark(OnRecv, 1)] == [Mark(OnAccepted, 0), Mark(OnRecv, 1)];
  }

  // ---------------------------------------------------------------------
  // A refusal that is not reported
  // ---------------------------------------------------------------------

  const LOST: Io := Io(false, true, 0, 0, true)

  /** A listed member, in this state. */
  predicate ListedIs(s: System, w: nat, i: nat, id: Id, state: State) {
    && Runs(s, w) && i < |List(s, w)| && List(s, w)[i] == id
    && id < |s.members| && s.members[id].conn.state == state
  }

  lemma TouchRefuses(s: System, w: nat, i: nat, id: Id)
    requires Inv(s) && ListedIs(s, w, i, id, Connecting)
    ensures Enabled(s, Touch(id, 1, 0))
    ensures Inv(Apply(s, Touch(id, 1, 0))) && ListedIs(Apply(s, Touch(id, 1, 0)), w, i, id, Refused)
  {
    hide Inv;
    ListedIsListed(s, w, id);
    BoxIsThere(s, Listed(w), i);
    StepKeepsInv(s, Touch(id, 1, 0));
    CloseTimesIs(Connecting, 1);
  }

  lemma LossCloses(s: System, w: nat, i: nat, id: Id)
    requires Inv(s) && w > 0 && ListedIs(s, w, i, id, Refused)
    ensures var step := Event(w, i, 0, LOST, Replies(QUIET, QUIET, QUIET));
            Enabled(s, step) && Inv(Apply(s, step)) && ListedIs(Apply(s, step), w, i, id, Closing)
  {
    hide Inv, Handle, CloseTimes;
    var step := Event(w, i, 0, LOST, Replies(QUIET, QUIET, QUIET));
    BoxIsThere(s, Listed(w), i);
    StepKeepsInv(s, step);
    HandleStateIs(s.members[id].conn, w, 0, LOST, Replies(QUIET, QUIET, QUIET));
    CloseTimesIs(Refused, 1);
  }

  lemma ClosingEnds(s: System, w: nat, i: nat, id: Id)
    requires Inv(s) && w > 0 && ListedIs(s, w, i, id, Closing)
    ensures var step := Step.Visit(w, i, 0, 0, QUIET);
            && Enabled(s, step) && id < |Apply(s, step).members|
            && Apply(s, step).members[id].place == Reaped && LastIs(Apply(s, step).members[id].conn.trace, OnClosed)
  {
    hide Inv, Finish, Without;
    BoxIsThere(s, Listed(w), i);
    FinishEnds(s.members[id].conn, w, QUIET);
  }

  /** The application closes a connecting socket once, and still cb_net_closed reports
      it: before its worker comes round a read finds the connection lost. */
  lemma LossHidesRefusal(s: System, w: nat, i: nat, id: Id)
    requires Inv(s) && w > 0 && ListedIs(s, w, i, id, Connecting)
    ensures var run := [Touch(id, 1, 0), Event(w, i, 0, LOST, Replies(QUIET, QUIET, QUIET)),
                        Step.Visit(w, i, 0, 0, QUIET)];
            && Valid(s, run) && id < |After(s, run).members|
            && After(s, run).members[id].place == Reaped && LastIs(After(s, run).members[id].conn.trace, OnClosed)
  {
    hide Inv, Enabled, Apply, ListedIs, After, Valid, LastIs;
    var first, second := Touch(id, 1, 0), Event(w, i, 0, LOST, Replies(QUIET, QUIET, QUIET));
    TouchRefuses(s, w, i, id);
    LossCloses(Apply(s, first), w, i, id);
    ClosingEnds(Apply(Apply(s, first), second), w, i, id);
    RunThree(s, first, second, Step.Visit(w, i, 0, 0, QUIET));
  }
}
