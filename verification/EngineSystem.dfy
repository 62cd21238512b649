// The engine as a whole: callers, the listener thread and the workers hand
// connections to each other, in any interleaving of their steps.
module EngineSystem {
  import opened TcpStream
  import opened NetEngine
  import opened Lists

  type Id = nat

  datatype Kind = Listener | Outgoing | Incoming

  /** Where a connection is: in the hands of the thread that made it, before or after
      the balancer has been asked, in an inbox, in a worker's list, or deleted. */
  datatype Place = Hands | Posting | Inbox(worker: nat) | Listed(worker: nat) | Dropped | Reaped | Killed

  /** `home` is the worker the balancer named for it. */
  datatype Member = Member(kind: Kind, home: nat, hash: nat, place: Place, conn: Conn)

  datatype Lease = Lease(id: Id, hash: nat)

  datatype Phase = Running | Draining | Clearing | Done

  /** `boxes` are the queues, lists and local variables that hold connections, by
      place; a deleted connection is kept in the box of the `delete` that freed it.
      `retains` and `releases` are the calls of the balancer. */
  datatype System = System(
    workers: nat, members: seq<Member>, boxes: map<Place, seq<Id>>, phases: seq<Phase>,
    retains: seq<Lease>, releases: seq<Lease>)

  predicate IsPlace(p: Place, workers: nat) {
    (p.Inbox? || p.Listed?) ==> p.worker <= workers
  }

  predicate Deleted(p: Place) {
    p == Dropped || p == Reaped || p == Killed
  }

  /** Before the first call of the engine, with all its threads started. */
  ghost predicate Initial(s: System) {
    && 1 <= s.workers <= MAX_WORKER && s.members == [] && s.retains == [] && s.releases == []
    && (forall p: Place :: p in s.boxes <==> IsPlace(p, s.workers))
    && (forall p: Place :: p in s.boxes ==> s.boxes[p] == [])
    && |s.phases| == s.workers + 1 && forall w :: 0 <= w <= s.workers ==> s.phases[w] == Running
  }

  // ---------------------------------------------------------------------
  // Moving connections
  // ---------------------------------------------------------------------

  function Add(s: System, m: Member): System
    requires m.place in s.boxes
  {
    s.(members := s.members + [m], boxes := s.boxes[m.place := s.boxes[m.place] + [|s.members|]])
  }

  predicate At(s: System, p: Place, i: nat) {
    p in s.boxes && i < |s.boxes[p]| && s.boxes[p][i] < |s.members|
  }

  /** The connection at index i of box p becomes m, which is elsewhere. */
  function Move(s: System, p: Place, i: nat, m: Member): System
    requires At(s, p, i) && m.place in s.boxes && m.place != p
  {
    var id := s.boxes[p][i];
    s.(members := s.members[id := m],
       boxes := s.boxes[p := Without(s.boxes[p], i)][m.place := s.boxes[m.place] + [id]])
  }

  function Update(s: System, id: Id, c: Conn): System
    requires id < |s.members|
  {
    s.(members := s.members[id := s.members[id].(conn := c)])
  }

  // ---------------------------------------------------------------------
  // Steps
  // ---------------------------------------------------------------------

  const NEW: Conn := Conn(Uninitialized, false, Unregistered, 0, 0, 0, [])

  /** An accepted connection after cb_net_accepted, which the listener thread calls. */
  function AcceptedConn(now: U64, r: Reply): Conn {
    var c := CallOrClose(NEW.(state := Connected), OnAccepted, 0, r);
    if r.ok then c.(atime := now) else c
  }

  datatype Step =
    | Listen(ok: bool)                                            // a caller; ok: initializer and listen() succeed
    | Connect(ok: bool, hash: nat, state: State, atime: U64)      // a caller; Connected when connect() is immediate
    | Accept(l: nat, hash: nat, now: U64, r: Reply)               // the listener thread, for listener l of its list
    | Retain(i: nat, lb: nat)                                     // the maker of a connection asks the balancer
    | Post(i: nat)                                                // and posts to the inbox it was told
    | Take(w: nat)
    | Visit(w: nat, i: nat, now: U64, timeout: U64, r: Reply)
    | Event(w: nat, i: nat, now: U64, io: Io, rs: Replies)
    | Touch(id: Id, closes: nat, sent: nat)                       // the application closes or sends, from any thread
    | Stop(w: nat)                                                // worker w finds its run flag cleared
    | Drain(w: nat)

  predicate Runs(s: System, w: nat) {
    w <= s.workers < |s.phases| && s.phases[w] == Running
  }

  /** Every thread has its boxes; this never fails in a run. */
  predicate AllPlaces(s: System) {
    && Hands in s.boxes && Posting in s.boxes && Dropped in s.boxes && Reaped in s.boxes && Killed in s.boxes
    && |s.phases| == s.workers + 1
    && forall w :: 0 <= w <= s.workers ==> Inbox(w) in s.boxes && Listed(w) in s.boxes
  }

  /** When a step can be taken. The balancer names a worker; the application does not
      touch what has been deleted. */
  predicate Enabled(s: System, step: Step) {
    AllPlaces(s) &&
    match step
    case Listen(_) => true
    case Connect(_, _, state, _) => state == Connecting || state == Connected
    case Accept(l, _, _, _) => Runs(s, 0) && At(s, Listed(0), l)
    case Retain(i, lb) => At(s, Hands, i) && 1 <= lb <= s.workers
    case Post(i) => At(s, Posting, i) && s.members[s.boxes[Posting][i]].home <= s.workers
    case Take(w) => Runs(s, w) && At(s, Inbox(w), 0)
    case Visit(w, i, _, _, _) => w > 0 && Runs(s, w) && At(s, Listed(w), i)
    case Event(w, i, _, _, _) => w > 0 && Runs(s, w) && At(s, Listed(w), i)
    case Touch(id, _, _) => id < |s.members| && !Deleted(s.members[id].place)
    case Stop(w) => Runs(s, w)
    case Drain(w) => w <= s.workers < |s.phases| && (s.phases[w] == Draining || s.phases[w] == Clearing)
  }

  function Apply(s: System, step: Step): System
    requires Enabled(s, step)
  {
    match step
    case Listen(ok) =>
      var c := NEW.(state := Listening);
      Add(s, if ok then Member(Listener, 0, 0, Posting, c) else Member(Listener, 0, 0, Dropped, NEW))
    case Connect(ok, hash, state, atime) =>
      var c := NEW.(state := state, atime := atime);
      Add(s, if ok then Member(Outgoing, 0, hash, Hands, c) else Member(Outgoing, 0, hash, Dropped, NEW))
    case Accept(l, hash, now, r) =>
      Add(s, Member(Incoming, 0, hash, Hands, AcceptedConn(now, r)))
    case Retain(i, lb) =>
      var id := s.boxes[Hands][i];
      Move(s, Hands, i, s.members[id].(home := lb, place := Posting))
        .(retains := s.retains + [Lease(id, s.members[id].hash)])
    case Post(i) =>
      var m := s.members[s.boxes[Posting][i]];
      Move(s, Posting, i, m.(place := Inbox(m.home)))
    case Take(w) =>
      var m := s.members[s.boxes[Inbox(w)][0]];
      Move(s, Inbox(w), 0, m.(place := Listed(w), conn := Register(m.conn)))
    case Visit(w, i, now, timeout, r) =>
      var id := s.boxes[Listed(w)][i];
      var m := s.members[id];
      var c := NetEngine.Visit(m.conn, w, now, timeout, r);
      if Over(m.conn) then
        Move(s, Listed(w), i, m.(place := Reaped, conn := c)).(releases := s.releases + [Lease(id, m.hash)])
      else Update(s, id, c)
    case Event(w, i, now, io, rs) =>
      var id := s.boxes[Listed(w)][i];
      Update(s, id, Handle(s.members[id].conn, w, now, io, rs))
    case Touch(id, closes, sent) =>
      var c := s.members[id].conn;
      Update(s, id, c.(state := CloseTimes(c.state, closes), output := c.output + sent))
    case Stop(w) => s.(phases := s.phases[w := Draining])
    case Drain(w) =>
      var p := if s.phases[w] == Draining then Inbox(w) else Listed(w);
      if At(s, p, 0) then
        var m := s.members[s.boxes[p][0]];
        Move(s, p, 0, m.(place := Killed, conn := m.conn.(interest := Unregistered)))
      else s.(phases := s.phases[w := if s.phases[w] == Draining then Clearing else Done])
  }

  /** Every step of the run can be taken when its turn comes. */
  predicate Valid(s: System, run: seq<Step>)
    decreases |run|, 0
  {
    run == []
    || (Valid(s, run[..|run| - 1]) && Enabled(After(s, run[..|run| - 1]), run[|run| - 1]))
  }

  function After(s: System, run: seq<Step>): System
    requires Valid(s, run)
    decreases |run|, 1
  {
    if run == [] then s else Apply(After(s, run[..|run| - 1]), run[|run| - 1])
  }
}
