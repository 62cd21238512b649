// The story of each connection: which callbacks it gets, from which thread, in which
// order, and how the poller watches it meanwhile.
module EngineStory {
  import opened TcpStream
  import opened NetEngine
  import opened EngineSystem
  import opened EngineOwnership
  import opened Lists

  /** The callbacks before a worker takes over: only an accepted socket has one. */
  function Prologue(kind: Kind): seq<Mark> {
    if kind == Incoming then [Mark(OnAccepted, 0)] else []
  }

  predicate Unlisted(p: Place) {
    p == Hands || p == Posting || p.Inbox? || p == Dropped
  }

  /** The callbacks up to index `end` are those of a connection that goes on. */
  predicate Going(m: Member, end: nat) {
    && end <= |m.conn.trace| && Prologue(m.kind) <= m.conn.trace[..end]
    && forall i :: |Prologue(m.kind)| <= i < end ==>
         m.conn.trace[i].thread == m.home && Ordinary(m.conn.trace[i].callback)
  }

  /** The last callback is cb_net_closed or cb_net_refused, the others are ordinary. */
  predicate Finished(m: Member) {
    var trace := m.conn.trace;
    && |trace| > 0 && Going(m, |trace| - 1)
    && trace[|trace| - 1].thread == m.home && Terminal(trace[|trace| - 1].callback)
    && (trace[|trace| - 1].callback == OnRefused ==> m.kind == Outgoing && Opens(trace) == 0)
  }

  predicate Watched(m: Member) {
    if m.place.Listed? then InStep(m.conn)
    else m.conn.interest == Unregistered && (Unlisted(m.place) ==> !m.conn.writing)
  }

  /** cb_net_opened at most once, only on outgoing connections, and not while it is still connecting or refused. */
  predicate OpenedOnce(m: Member) {
    && Opens(m.conn.trace) <= (if m.kind == Outgoing then 1 else 0)
    && (Unopened(m.conn.state) ==> m.kind == Outgoing && Opens(m.conn.trace) == 0)
  }

  predicate AtHome(m: Member, workers: nat) {
    && m.home <= workers
    && (m.place != Hands && m.place != Dropped ==> (m.home == 0 <==> m.kind == Listener))
    && (m.place == Hands || m.place == Dropped ==> m.home == 0)
    && (m.place == Hands || m.place == Reaped ==> m.kind != Listener)
    && (m.place == Dropped ==> m.kind != Incoming)
    && (m.place.Inbox? || m.place.Listed? ==> m.place.worker == m.home)
  }

  predicate Told(m: Member, workers: nat) {
    && AtHome(m, workers) && Watched(m) && OpenedOnce(m)
    && (m.kind == Listener ==> m.conn.trace == [])
    && match m.place
       case Dropped => m.conn.trace == []
       case Reaped => Finished(m)
       case _ => Live(m.conn.state) && Going(m, |m.conn.trace|)
                 && (Unlisted(m.place) ==> m.conn.trace == Prologue(m.kind))
  }

  ghost predicate AllTold(s: System) {
    forall id :: 0 <= id < |s.members| ==> Told(s.members[id], s.workers)
  }

  /** What a worker does to a connection in its list keeps the story going. */
  lemma ListedGoesOn(m: Member, c: Conn, workers: nat)
    requires Told(m, workers) && m.place.Listed? && m.kind != Listener
    requires Advances(m.conn, c, m.home) && InStep(c)
    ensures Told(m.(conn := c), workers)
  {
    hide Opens, Ordinary, Live, InStep;
    var d := m.(conn := c);
    assert c.trace[..|m.conn.trace|] == m.conn.trace;
    assert m.conn.trace[..|m.conn.trace|] == m.conn.trace && c.trace[..|c.trace|] == c.trace;
    assert forall i :: |Prologue(m.kind)| <= i < |m.conn.trace| ==> c.trace[i] == m.conn.trace[i];
    assert Going(d, |c.trace|);
  }

  lemma TouchGoesOn(m: Member, closes: nat, sent: nat, workers: nat)
    requires Told(m, workers) && !Deleted(m.place)
    ensures var c := m.conn.(state := CloseTimes(m.conn.state, closes), output := m.conn.output + sent);
            Told(m.(conn := c), workers)
  {
    hide Opens, Ordinary, CloseTimes;
    CloseTimesIs(m.conn.state, closes);
    var d := m.(conn := m.conn.(state := CloseTimes(m.conn.state, closes), output := m.conn.output + sent));
    assert Going(d, |d.conn.trace|);
  }

  lemma VisitGoesOn(m: Member, workers: nat, now: U64, timeout: U64, r: Reply)
    requires Told(m, workers) && m.place.Listed? && m.place.worker > 0 && !Over(m.conn)
    ensures Told(m.(conn := NetEngine.Visit(m.conn, m.place.worker, now, timeout, r)), workers)
  {
    hide Opens, Watch, Advances, Going;
    WatchAdvances(m.conn, m.place.worker, now, timeout, r);
    ListedGoesOn(m, Watch(m.conn, m.place.worker, now, timeout, r), workers);
  }

  lemma EventGoesOn(m: Member, workers: nat, now: U64, io: Io, rs: Replies)
    requires Told(m, workers) && m.place.Listed? && m.place.worker > 0
    ensures Told(m.(conn := Handle(m.conn, m.place.worker, now, io, rs)), workers)
  {
    hide Opens, Handle, Advances, Going;
    HandleAdvances(m.conn, m.place.worker, now, io, rs);
    ListedGoesOn(m, Handle(m.conn, m.place.worker, now, io, rs), workers);
  }

  lemma ReapEnds(m: Member, workers: nat, now: U64, timeout: U64, r: Reply)
    requires Told(m, workers) && m.place.Listed? && m.place.worker > 0 && Over(m.conn)
    ensures Told(m.(place := Reaped, conn := NetEngine.Visit(m.conn, m.place.worker, now, timeout, r)), workers)
  {
    hide Opens, Finish, Ordinary;
    var c := Finish(m.conn, m.place.worker, r);
    var mark := Mark(if m.conn.state == Refused then OnRefused else OnClosed, m.place.worker);
    FinishEnds(m.conn, m.place.worker, r);
    OpensSnoc(m.conn.trace, mark);
    assert c.trace[..|c.trace| - 1] == m.conn.trace == m.conn.trace[..|m.conn.trace|];
    assert Going(m.(place := Reaped, conn := c), |c.trace| - 1);
  }

  lemma TakeGoesOn(m: Member, workers: nat)
    requires Told(m, workers) && m.place.Inbox?
    ensures Told(m.(place := Listed(m.place.worker), conn := Register(m.conn)), workers)
  {
    hide Opens, Ordinary;
    var d := m.(place := Listed(m.place.worker), conn := Register(m.conn));
    assert Going(d, |d.conn.trace|);
  }

  lemma RetainGoesOn(m: Member, lb: nat, workers: nat)
    requires Told(m, workers) && m.place == Hands && 1 <= lb <= workers
    ensures Told(m.(home := lb, place := Posting), workers)
  {
    hide Opens, Ordinary;
    var d := m.(home := lb, place := Posting);
    assert Going(d, |d.conn.trace|);
  }

  lemma PostGoesOn(m: Member, workers: nat)
    requires Told(m, workers) && m.place == Posting
    ensures Told(m.(place := Inbox(m.home)), workers)
  {
    hide Opens, Ordinary;
    assert Going(m.(place := Inbox(m.home)), |m.conn.trace|);
  }

  lemma KillGoesOn(m: Member, workers: nat)
    requires Told(m, workers) && (m.place.Inbox? || m.place.Listed?)
    ensures Told(m.(place := Killed, conn := m.conn.(interest := Unregistered)), workers)
  {
    hide Opens, Ordinary;
    var d := m.(place := Killed, conn := m.conn.(interest := Unregistered));
    assert Going(d, |d.conn.trace|);
  }

  lemma AcceptedIsTold(hash: nat, now: U64, r: Reply, workers: nat)
    ensures Told(Member(Incoming, 0, hash, Hands, AcceptedConn(now, r)), workers)
  {
    hide CloseTimes;
    CloseTimesIs(Connected, r.closes);
    OpensSnoc([], Mark(OnAccepted, 0));
    assert [] + [Mark(OnAccepted, 0)] == [Mark(OnAccepted, 0)];
  }

  /** The member that a step changes or makes, if any. */
  function Subject(s: System, step: Step): Id
    requires Enabled(s, step)
  {
    match step
    case Retain(i, _) => s.boxes[Hands][i]
    case Post(i) => s.boxes[Posting][i]
    case Take(w) => s.boxes[Inbox(w)][0]
    case Visit(w, i, _, _, _) => s.boxes[Listed(w)][i]
    case Event(w, i, _, _, _) => s.boxes[Listed(w)][i]
    case Touch(id, _, _) => id
    case Drain(w) =>
      var p := if s.phases[w] == Draining then Inbox(w) else Listed(w);
      if At(s, p, 0) then s.boxes[p][0] else |s.members|
    case _ => |s.members|
  }

  /** A step touches one connection at most. */
  lemma OthersStay(s: System, step: Step)
    requires Enabled(s, step)
    ensures |s.members| <= |Apply(s, step).members| <= |s.members| + 1
    ensures forall id :: 0 <= id < |s.members| && id != Subject(s, step) ==>
              Apply(s, step).members[id] == s.members[id]
    ensures Apply(s, step).workers == s.workers
  {
    hide Handle, NetEngine.Visit, AcceptedConn, CloseTimes, Register, Without;
  }

  lemma SubjectIsTold(s: System, step: Step)
    requires Placed(s) && AllTold(s) && Enabled(s, step)
    ensures Subject(s, step) < |Apply(s, step).members| ==> Told(Apply(s, step).members[Subject(s, step)], s.workers)
  {
    hide Handle, NetEngine.Visit, AcceptedConn, CloseTimes, Register, Without, Told, Over;
    match step
    case Listen(ok) => NewIsTold(Connecting, 0, 0, s.workers);
    case Connect(ok, hash, state, atime) => NewIsTold(state, hash, atime, s.workers);
    case Accept(l, hash, now, r) => AcceptedIsTold(hash, now, r, s.workers);
    case Retain(i, lb) => RetainGoesOn(s.members[s.boxes[Hands][i]], lb, s.workers);
    case Post(i) => PostGoesOn(s.members[s.boxes[Posting][i]], s.workers);
    case Take(w) => TakeGoesOn(s.members[s.boxes[Inbox(w)][0]], s.workers);
    case Visit(w, i, now, timeout, r) =>
      var m := s.members[s.boxes[Listed(w)][i]];
      if Over(m.conn) {
        ReapEnds(m, s.workers, now, timeout, r);
      } else {
        VisitGoesOn(m, s.workers, now, timeout, r);
      }
    case Event(w, i, now, io, rs) => EventGoesOn(s.members[s.boxes[Listed(w)][i]], s.workers, now, io, rs);
    case Touch(id, closes, sent) => TouchGoesOn(s.members[id], closes, sent, s.workers);
    case Stop(w) =>
    case Drain(w) =>
      var p := if s.phases[w] == Draining then Inbox(w) else Listed(w);
      if At(s, p, 0) { KillGoesOn(s.members[s.boxes[p][0]], s.workers); }
  }

  lemma NewIsTold(state: State, hash: nat, atime: U64, workers: nat)
    requires state == Connecting || state == Connected
    ensures Told(Member(Listener, 0, 0, Posting, NEW.(state := Listening)), workers)
    ensures Told(Member(Listener, 0, 0, Dropped, NEW), workers)
    ensures Told(Member(Outgoing, 0, hash, Hands, NEW.(state := state, atime := atime)), workers)
    ensures Told(Member(Outgoing, 0, hash, Dropped, NEW), workers)
  {
  }

  lemma StepKeepsStories(s: System, step: Step)
    requires Placed(s) && AllTold(s) && Enabled(s, step)
    ensures AllTold(Apply(s, step))
  {
    hide Told, Apply, Placed;
    OthersStay(s, step);
    SubjectIsTold(s, step);
    NewMemberIsSubject(s, step);
  }

  lemma NewMemberIsSubject(s: System, step: Step)
    requires Enabled(s, step)
    ensures |Apply(s, step).members| > |s.members| ==> Subject(s, step) == |s.members|
  {
    hide Handle, NetEngine.Visit, AcceptedConn, CloseTimes, Register, Without;
  }
}
