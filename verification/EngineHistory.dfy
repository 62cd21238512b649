// The closes that a connection has seen decide which last callback it gets.
module EngineHistory {
  import opened TcpStream
  import opened NetEngine
  import opened EngineSystem
  import opened EngineStory
  import opened EngineLeases
  import opened EngineRuns
  import opened Lists

  /** What has happened to a connection: the state it was made in, which a poll event
      that finds it connecting turns to Connected, and how often it has been closed
      since, by the application or by the engine. */
  datatype History = History(base: State, closes: nat)

  /** How often a step closes the connection. The last callback does not count: its
      connection is closed already. */
  function StepCloses(s: System, step: Step, id: Id): nat
    requires Enabled(s, step)
  {
    if id >= |s.members| || Subject(s, step) != id then 0
    else
      var c := s.members[id].conn;
      match step
      case Visit(_, _, now, timeout, r) => if Over(c) then 0 else WatchCloses(c, now, timeout, r)
      case Event(w, _, now, io, rs) => EventCloses(c, w, now, io, rs)
      case Touch(_, closes, _) => closes
      case _ => 0
  }

  /** A poll event reaches the connection while it is connecting. */
  predicate Answers(s: System, step: Step, id: Id)
    requires Enabled(s, step)
  {
    && id < |s.members| && Subject(s, step) == id && s.members[id].conn.state == Connecting
    && step.Event? && Reports(step.io)
  }

  function Born(step: Step): History {
    match step
    case Connect(_, _, state, _) => History(state, 0)
    case Accept(_, _, _, r) => History(Connected, CallCloses(r))
    case _ => History(Listening, 0)
  }

  function Lives(h: History, s: System, step: Step, id: Id): History
    requires Enabled(s, step)
  {
    History(if Answers(s, step, id) then Connected else h.base, h.closes + StepCloses(s, step, id))
  }

  function HistoryOf(s: System, run: seq<Step>, id: Id): History
    requires Valid(s, run)
    decreases |run|
  {
    if run == [] then History(Listening, 0)
    else
      var t, step := After(s, run[..|run| - 1]), run[|run| - 1];
      if id < |t.members| then Lives(HistoryOf(s, run[..|run| - 1], id), t, step, id) else Born(step)
  }

  predicate LastIs(trace: seq<Mark>, callback: Callback) {
    trace != [] && trace[|trace| - 1].callback == callback
  }

  /** The state, or the last callback, that goes with a history. */
  predicate Fits(m: Member, h: History) {
    && (h.base == Listening || h.base == Connecting || h.base == Connected)
    && match m.place
       case Dropped => true
       case Reaped =>
         && h.closes > 0
         && LastIs(m.conn.trace, if h.base == Connecting && h.closes == 1 then OnRefused else OnClosed)
       case _ => m.conn.state == CloseTimes(h.base, h.closes)
  }

  lemma BornFits(s: System, step: Step)
    requires Enabled(s, step) && |Apply(s, step).members| > |s.members|
    ensures Fits(Apply(s, step).members[|s.members|], Born(step))
  {
    hide CallOrClose, CloseTimes, CallCloses;
    CloseTimesIs(Listening, 0);
    CloseTimesIs(Connecting, 0);
    CloseTimesIs(Connected, 0);
    match step
    case Accept(_, _, now, r) => CallState(NEW.(state := Connected), OnAccepted, 0, r);
    case _ =>
  }

  lemma VisitFits(s: System, step: Step, h: History)
    requires Inv(s) && Enabled(s, step) && step.Visit? && Fits(s.members[Subject(s, step)], h)
    ensures var id := Subject(s, step);
            id < |Apply(s, step).members| && Fits(Apply(s, step).members[id], Lives(h, s, step, id))
  {
    hide Watch, Finish, WatchCloses, CloseTimes, Opens, Going, Without, Balanced;
    var c := s.members[Subject(s, step)].conn;
    CloseTimesIs(h.base, h.closes);
    if Over(c) {
      FinishEnds(c, step.w, step.r);
    } else {
      WatchState(c, step.w, step.now, step.timeout, step.r);
      CloseTimesAdd(h.base, h.closes, WatchCloses(c, step.now, step.timeout, step.r));
      assert Told(s.members[Subject(s, step)], s.workers);
    }
  }

  lemma EventFits(s: System, step: Step, h: History)
    requires Inv(s) && Enabled(s, step) && step.Event? && Fits(s.members[Subject(s, step)], h)
    ensures var id := Subject(s, step);
            id < |Apply(s, step).members| && Fits(Apply(s, step).members[id], Lives(h, s, step, id))
  {
    hide Handle, EventCloses, CloseTimes, Opens, Going, Balanced;
    var m := s.members[Subject(s, step)];
    assert Told(m, s.workers);
    HandleStateIs(m.conn, step.w, step.now, step.io, step.rs);
    CloseTimesIs(h.base, h.closes);
    var n := EventCloses(m.conn, step.w, step.now, step.io, step.rs);
    CloseTimesAdd(h.base, h.closes, n);
    if m.conn.state == Connecting { assert h.base == Connecting && h.closes == 0; }
  }

  lemma TouchFits(s: System, step: Step, h: History)
    requires Enabled(s, step) && step.Touch? && Fits(s.members[Subject(s, step)], h)
    ensures var id := Subject(s, step);
            id < |Apply(s, step).members| && Fits(Apply(s, step).members[id], Lives(h, s, step, id))
  {
    hide CloseTimes;
    CloseTimesAdd(h.base, h.closes, step.closes);
  }

  /** Moves between places close nothing. */
  lemma MoveFits(s: System, step: Step, h: History)
    requires Inv(s) && Enabled(s, step) && Subject(s, step) < |s.members| && Fits(s.members[Subject(s, step)], h)
    requires step.Retain? || step.Post? || step.Take? || step.Drain?
    ensures var id := Subject(s, step);
            id < |Apply(s, step).members| && Fits(Apply(s, step).members[id], Lives(h, s, step, id))
  {
    hide CloseTimes, Without, Balanced, AllTold;
  }

  lemma StepFits(s: System, step: Step, id: Id, h: History)
    requires Inv(s) && Enabled(s, step) && id < |s.members| && Fits(s.members[id], h)
    ensures id < |Apply(s, step).members| && Fits(Apply(s, step).members[id], Lives(h, s, step, id))
  {
    hide Inv, Enabled, Apply, Fits, Subject;
    OthersStay(s, step);
    if id == Subject(s, step) {
      SubjectHas(s, step);
      match step {
        case Visit(_, _, _, _, _) => VisitFits(s, step, h);
        case Event(_, _, _, _, _) => EventFits(s, step, h);
        case Touch(_, _, _) => TouchFits(s, step, h);
        case _ => MoveFits(s, step, h);
      }
    }
  }

  /** Steps that make a connection, or that are a thread's own, have no subject among the members. */
  lemma SubjectHas(s: System, step: Step)
    requires Enabled(s, step) && Subject(s, step) < |s.members|
    ensures !step.Listen? && !step.Connect? && !step.Accept? && !step.Stop?
  {
  }

  lemma {:induction false} HistoryFits(s: System, run: seq<Step>, id: Id)
    requires Initial(s) && Valid(s, run) && id < |After(s, run).members|
    ensures Fits(After(s, run).members[id], HistoryOf(s, run, id))
    decreases |run|
  {
    hide Initial, Enabled, Apply, Fits, Inv, Lives, Born;
    if run == [] {
      NoMembers(s);
    } else {
      var init, step := run[..|run| - 1], run[|run| - 1];
      var t := After(s, init);
      RunInv(s, init);
      OthersStay(t, step);
      if id < |t.members| {
        HistoryFits(s, init, id);
        StepFits(t, step, id, HistoryOf(s, init, id));
      } else {
        BornFits(t, step);
      }
    }
  }

  lemma NoMembers(s: System)
    requires Initial(s)
    ensures s.members == []
  {
  }

  /** At any moment of any run the state of a connection that is not deleted is the one
      it began with, closed as often as it has been closed. */
  lemma StateIsHistory(s: System, run: seq<Step>, id: Id)
    requires Initial(s) && Valid(s, run) && id < |After(s, run).members|
    requires !Deleted(After(s, run).members[id].place)
    ensures var h := HistoryOf(s, run, id);
            After(s, run).members[id].conn.state == CloseTimes(h.base, h.closes)
  {
    hide Initial, Valid, After, HistoryOf, CloseTimes;
    HistoryFits(s, run, id);
  }

  /** In every run: the last callback is cb_net_refused if and only if the connection was
      made connecting, no poll event reached it while it was, and it was closed exactly
      once in all, whether by the application, by a callback, after a callback that answered
      false, or because a read found it lost. Otherwise it is cb_net_closed. */
  lemma RefusedIffClosedOnce(s: System, run: seq<Step>, id: Id)
    requires Initial(s) && Valid(s, run) && id < |After(s, run).members|
    requires After(s, run).members[id].place == Reaped
    ensures var h, trace := HistoryOf(s, run, id), After(s, run).members[id].conn.trace;
            && h.closes > 0
            && (LastIs(trace, OnRefused) <==> h.base == Connecting && h.closes == 1)
            && (LastIs(trace, OnClosed) <==> !(h.base == Connecting && h.closes == 1))
  {
    hide Initial, Valid, After, HistoryOf;
    HistoryFits(s, run, id);
  }
}
