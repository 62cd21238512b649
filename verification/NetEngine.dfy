// What a worker thread of the engine does with one connection: its turn in the sweep
// and its poll events, as functions, and what these keep.
module NetEngine {
  import opened Basics
  import opened TcpStream

  const MAX_WORKER: nat := 128

  type U64 = x: nat | x < 0x1_0000_0000_0000_0000

  datatype Callback = OnAccepted | OnOpened | OnTimeout | OnSent | OnRecv | OnClosed | OnRefused

  /** A callback that has been made, and the thread that made it. */
  datatype Mark = Mark(callback: Callback, thread: nat)

  /** What a worker's poller watches a socket for. */
  datatype Interest = Unregistered | Read | ReadWrite

  /** A connection as the engine sees it: `writing` is the kWrite bit of the event
      mask, `output` and `input` are the sizes of the two buffers. */
  datatype Conn = Conn(
    state: State, writing: bool, interest: Interest, atime: U64,
    output: nat, input: nat, trace: seq<Mark>)

  /** What a callback does: its answer, how often it closes its connection, how much
      it queues for sending and how much input it takes. */
  datatype Reply = Reply(ok: bool, closes: nat, sent: nat, taken: nat)

  /** close() so many times on a managed connection. */
  function CloseTimes(s: State, n: nat): State {
    if n == 0 then s else AfterClose(CloseTimes(s, n - 1), true)
  }

  function Close(c: Conn): Conn {
    c.(state := AfterClose(c.state, true))
  }

  function Call(c: Conn, callback: Callback, thread: nat, r: Reply): Conn {
    c.(trace := c.trace + [Mark(callback, thread)],
       state := CloseTimes(c.state, r.closes),
       output := c.output + r.sent,
       input := c.input - Min(r.taken, c.input))
  }

  /** A callback after which the connection is closed if it answers false. */
  function CallOrClose(c: Conn, callback: Callback, thread: nat, r: Reply): Conn {
    var d := Call(c, callback, thread, r);
    if r.ok then d else Close(d)
  }

  /** Unsigned subtraction: a clock that has gone back looks like a long time. */
  function Since(now: U64, past: U64): U64 {
    if now >= past then now - past else now - past + 0x1_0000_0000_0000_0000
  }

  // ---------------------------------------------------------------------
  // A connection's turn in the sweep
  // ---------------------------------------------------------------------

  /** A new connection is put under the poller of its worker. */
  function Register(c: Conn): Conn {
    if c.state == Connecting then c.(writing := true, interest := ReadWrite) else c.(interest := Read)
  }

  predicate Over(c: Conn) {
    c.state == Closing || c.state == Refused
  }

  /** The last callback. */
  function Finish(c: Conn, thread: nat, r: Reply): Conn {
    Call(c.(state := Closed), if c.state == Refused then OnRefused else OnClosed, thread, r).(interest := Unregistered)
  }

  /** Write interest follows the output buffer. */
  function Follow(c: Conn): Conn {
    if c.output > 0 then
      if c.writing then c else c.(writing := true, interest := ReadWrite)
    else
      if c.writing then c.(writing := false, interest := Read) else c
  }

  predicate Idle(c: Conn, now: U64, timeout: U64) {
    timeout != 0 && Since(now, c.atime) >= timeout
  }

  function Watch(c: Conn, thread: nat, now: U64, timeout: U64, r: Reply): Conn {
    if c.state == Connecting then
      if c.writing then c else c.(writing := true, interest := ReadWrite)
    else if c.state == Connected then
      if Idle(c, now, timeout) then
        var d := CallOrClose(c, OnTimeout, thread, r);
        if r.ok then Follow(d.(atime := now)) else d
      else Follow(c)
    else c
  }

  /** The sweep of one connection. */
  function Visit(c: Conn, thread: nat, now: U64, timeout: U64, r: Reply): Conn {
    if Over(c) then Finish(c, thread, r) else Watch(c, thread, now, timeout, r)
  }

  // ---------------------------------------------------------------------
  // A poll event
  // ---------------------------------------------------------------------

  /** What the kernel reports: readiness, the bytes it takes and gives, and whether
      reading finds the connection lost. */
  datatype Io = Io(writable: bool, readable: bool, takes: nat, gives: nat, lost: bool)

  datatype Replies = Replies(open: Reply, sent: Reply, recv: Reply)

  function Open(c: Conn, thread: nat, r: Reply): Conn {
    if c.state == Connecting then CallOrClose(c.(state := Connected), OnOpened, thread, r) else c
  }

  function Write(c: Conn, thread: nat, io: Io, r: Reply): Conn {
    var d := c.(state := AfterIo(c.state), output := c.output - Min(io.takes, c.output));
    if d.output == 0 then CallOrClose(d, OnSent, thread, r) else d
  }

  /** The write half of the handler; it ends the event when a callback answers false. */
  function WriteEvent(c: Conn, thread: nat, now: U64, io: Io, rs: Replies): Conn {
    var d := Open(c.(atime := now), thread, rs.open);
    if c.state == Connecting && !rs.open.ok then d else Write(d, thread, io, rs.sent)
  }

  predicate WriteEnds(c: Conn, thread: nat, now: U64, io: Io, rs: Replies) {
    var d := Open(c.(atime := now), thread, rs.open);
    (c.state == Connecting && !rs.open.ok) || (d.output <= io.takes && !rs.sent.ok)
  }

  function ReadEvent(c: Conn, thread: nat, now: U64, io: Io, r: Reply): Conn {
    var d := c.(atime := now, state := AfterIo(c.state), input := c.input + io.gives);
    var e := if io.lost then Close(d) else d;
    if e.input > 0 then CallOrClose(e, OnRecv, thread, r) else e
  }

  function Handle(c: Conn, thread: nat, now: U64, io: Io, rs: Replies): Conn {
    if io.writable then
      var d := WriteEvent(c, thread, now, io, rs);
      if io.readable && !WriteEnds(c, thread, now, io, rs) then ReadEvent(d, thread, now, io, rs.recv) else d
    else if io.readable then ReadEvent(c, thread, now, io, rs.recv)
    else c
  }

  // ---------------------------------------------------------------------
  // What the handlers keep
  // ---------------------------------------------------------------------

  predicate Ordinary(cb: Callback) {
    cb == OnOpened || cb == OnTimeout || cb == OnSent || cb == OnRecv
  }

  predicate Terminal(cb: Callback) {
    cb == OnClosed || cb == OnRefused
  }

  /** The poller watches for writing exactly when the event mask says so. */
  predicate InStep(c: Conn) {
    c.interest == if c.writing then ReadWrite else Read
  }

  /** Nothing that waits to be sent, or to be connected, is overlooked by the poller. */
  predicate Awake(c: Conn) {
    && (c.state == Connected ==> (c.interest == ReadWrite <==> c.output > 0))
    && (c.state == Connecting ==> c.interest == ReadWrite)
  }

  /** Callbacks of the ordinary kind, all from one thread, have been added to the trace. */
  predicate Extends(before: seq<Mark>, after: seq<Mark>, thread: nat) {
    && before <= after
    && forall i :: |before| <= i < |after| ==> after[i].thread == thread && Ordinary(after[i].callback)
  }

  function Opens(trace: seq<Mark>): nat {
    if trace == [] then 0
    else Opens(trace[..|trace| - 1]) + if trace[|trace| - 1].callback == OnOpened then 1 else 0
  }

  /** The states of a connection that has not had its last callback. */
  predicate Live(s: State) {
    s == Listening || s == Connecting || s == Connected || s == Refused || s == Closing
  }

  /** However often it is closed: the first close of a connecting socket refuses it,
      a second one turns the refusal into an ordinary closing. */
  lemma {:induction false} CloseTimesIs(s: State, n: nat)
    requires Live(s)
    ensures CloseTimes(s, n) == if n == 0 then s
                                else if n == 1 && s == Connecting then Refused
                                else Closing
  {
    if n > 0 { CloseTimesIs(s, n - 1); }
  }

  lemma {:induction false} ClosedStaysClosed(n: nat)
    ensures CloseTimes(Closed, n) == Closed
  {
    if n > 0 { ClosedStaysClosed(n - 1); }
  }

  lemma OpensSnoc(trace: seq<Mark>, m: Mark)
    ensures Opens(trace + [m]) == Opens(trace) + if m.callback == OnOpened then 1 else 0
  {
    assert (trace + [m])[..|trace|] == trace;
  }

  /** The states of a connection that never was open. */
  predicate Unopened(s: State) {
    s == Connecting || s == Refused
  }

  /** What one step of a handler may do to a connection. */
  predicate Advances(c: Conn, d: Conn, thread: nat) {
    && Extends(c.trace, d.trace, thread) && Live(d.state)
    && (d.state == Connecting ==> c.state == Connecting)
    && (Unopened(d.state) ==> Unopened(c.state) && Opens(d.trace) == Opens(c.trace))
    && Opens(d.trace) <= Opens(c.trace) + (if c.state == Connecting && d.state != Connecting then 1 else 0)
  }

  lemma AdvancesFurther(c: Conn, d: Conn, e: Conn, thread: nat)
    requires Advances(c, d, thread) && Advances(d, e, thread)
    ensures Advances(c, e, thread)
  {
    hide Opens, Ordinary;
    assert forall i :: |c.trace| <= i < |d.trace| ==> e.trace[i] == d.trace[i];
  }

  lemma CallAdvances(c: Conn, callback: Callback, thread: nat, r: Reply)
    requires Live(c.state) && Ordinary(callback) && callback != OnOpened
    ensures Advances(c, CallOrClose(c, callback, thread, r), thread)
    ensures InStep(c) ==> InStep(CallOrClose(c, callback, thread, r))
  {
    hide Opens, CloseTimes;
    CloseTimesIs(c.state, r.closes);
    OpensSnoc(c.trace, Mark(callback, thread));
  }

  lemma OpenAdvances(c: Conn, thread: nat, r: Reply)
    requires Live(c.state)
    ensures Advances(c, Open(c, thread, r), thread)
    ensures InStep(c) ==> InStep(Open(c, thread, r))
    ensures Open(c, thread, r).state != Connecting
  {
    hide Opens, CloseTimes;
    CloseTimesIs(Connected, r.closes);
    OpensSnoc(c.trace, Mark(OnOpened, thread));
  }

  lemma WatchAdvances(c: Conn, thread: nat, now: U64, timeout: U64, r: Reply)
    requires Live(c.state) && !Over(c)
    ensures Advances(c, Watch(c, thread, now, timeout, r), thread)
    ensures InStep(c) ==> InStep(Watch(c, thread, now, timeout, r)) && Awake(Watch(c, thread, now, timeout, r))
  {
    hide Opens, CloseTimes;
    CloseTimesIs(c.state, r.closes);
    OpensSnoc(c.trace, Mark(OnTimeout, thread));
  }

  lemma WriteAdvances(c: Conn, thread: nat, io: Io, r: Reply)
    requires Live(c.state) && c.state != Connecting
    ensures Advances(c, Write(c, thread, io, r), thread)
    ensures InStep(c) ==> InStep(Write(c, thread, io, r))
  {
    hide Opens, CallOrClose, Advances;
    var d := c.(state := AfterIo(c.state), output := c.output - Min(io.takes, c.output));
    if d.output == 0 { CallAdvances(d, OnSent, thread, r); } else { SameAdvances(d, d, thread); }
    SameAdvances(c, d, thread);
    AdvancesFurther(c, d, Write(c, thread, io, r), thread);
  }

  lemma SameAdvances(c: Conn, d: Conn, thread: nat)
    requires d.trace == c.trace && Live(d.state) && (d.state == Connecting ==> c.state == Connecting)
    requires Unopened(d.state) ==> Unopened(c.state)
    ensures Advances(c, d, thread)
  {
  }

  lemma ReadAdvances(c: Conn, thread: nat, now: U64, io: Io, r: Reply)
    requires Live(c.state)
    ensures Advances(c, ReadEvent(c, thread, now, io, r), thread)
    ensures InStep(c) ==> InStep(ReadEvent(c, thread, now, io, r))
  {
    hide Opens, CallOrClose, Advances;
    var d := c.(atime := now, state := AfterIo(c.state), input := c.input + io.gives);
    var e := if io.lost then Close(d) else d;
    SameAdvances(c, e, thread);
    if e.input > 0 { CallAdvances(e, OnRecv, thread, r); } else { SameAdvances(e, e, thread); }
    AdvancesFurther(c, e, ReadEvent(c, thread, now, io, r), thread);
  }

  lemma WriteEventAdvances(c: Conn, thread: nat, now: U64, io: Io, rs: Replies)
    requires Live(c.state)
    ensures Advances(c, WriteEvent(c, thread, now, io, rs), thread)
    ensures InStep(c) ==> InStep(WriteEvent(c, thread, now, io, rs))
  {
    hide Opens, Open, Write, Advances;
    var b := c.(atime := now);
    SameAdvances(c, b, thread);
    OpenAdvances(b, thread, rs.open);
    AdvancesFurther(c, b, Open(b, thread, rs.open), thread);
    AdvanceIsLive(c, Open(b, thread, rs.open), thread);
    WriteAdvances(Open(b, thread, rs.open), thread, io, rs.sent);
    AdvancesFurther(c, Open(b, thread, rs.open), Write(Open(b, thread, rs.open), thread, io, rs.sent), thread);
  }

  lemma AdvanceIsLive(c: Conn, d: Conn, thread: nat)
    requires Advances(c, d, thread)
    ensures Live(d.state)
  {
  }

  /** An event keeps the connection alive and in step with the poller, whatever the
      callbacks answer and however often they close. */
  lemma HandleAdvances(c: Conn, thread: nat, now: U64, io: Io, rs: Replies)
    requires Live(c.state)
    ensures Advances(c, Handle(c, thread, now, io, rs), thread)
    ensures InStep(c) ==> InStep(Handle(c, thread, now, io, rs))
  {
    hide Opens, WriteEvent, ReadEvent, WriteEnds, Advances;
    SameAdvances(c, c, thread);
    WriteEventAdvances(c, thread, now, io, rs);
    ReadAdvances(c, thread, now, io, rs.recv);
    var d := WriteEvent(c, thread, now, io, rs);
    AdvanceIsLive(c, d, thread);
    ReadAdvances(d, thread, now, io, rs.recv);
    AdvancesFurther(c, d, ReadEvent(d, thread, now, io, rs.recv), thread);
  }

  lemma FinishEnds(c: Conn, thread: nat, r: Reply)
    ensures var d := Finish(c, thread, r);
            && d.state == Closed && d.interest == Unregistered
            && d.trace == c.trace + [Mark(if c.state == Refused then OnRefused else OnClosed, thread)]
  {
    ClosedStaysClosed(r.closes);
  }

  // ---------------------------------------------------------------------
  // How often a connection is closed
  // ---------------------------------------------------------------------

  lemma {:induction false} CloseTimesAdd(s: State, m: nat, n: nat)
    ensures CloseTimes(CloseTimes(s, m), n) == CloseTimes(s, m + n)
  {
    if n > 0 { CloseTimesAdd(s, m, n - 1); }
  }

  /** Closes made by a callback and after it. */
  function CallCloses(r: Reply): nat {
    r.closes + if r.ok then 0 else 1
  }

  function WriteCloses(c: Conn, thread: nat, now: U64, io: Io, rs: Replies): nat {
    if c.state == Connecting && !rs.open.ok then CallCloses(rs.open)
    else
      (if c.state == Connecting then CallCloses(rs.open) else 0)
      + if Open(c.(atime := now), thread, rs.open).output <= io.takes then CallCloses(rs.sent) else 0
  }

  function ReadCloses(c: Conn, io: Io, r: Reply): nat {
    (if io.lost then 1 else 0) + if c.input + io.gives > 0 then CallCloses(r) else 0
  }

  /** How often a poll event closes its connection: through its callbacks, after those
      that answer false, and when reading finds the connection lost. */
  function EventCloses(c: Conn, thread: nat, now: U64, io: Io, rs: Replies): nat {
    if io.writable then
      WriteCloses(c, thread, now, io, rs)
      + if io.readable && !WriteEnds(c, thread, now, io, rs)
        then ReadCloses(WriteEvent(c, thread, now, io, rs), io, rs.recv) else 0
    else if io.readable then ReadCloses(c, io, rs.recv)
    else 0
  }

  /** Whether the poller reports anything at all. */
  predicate Reports(io: Io) {
    io.writable || io.readable
  }

  lemma CallState(c: Conn, callback: Callback, thread: nat, r: Reply)
    ensures CallOrClose(c, callback, thread, r).state == CloseTimes(c.state, CallCloses(r))
  {
    CloseTimesAdd(c.state, r.closes, 1);
    assert CloseTimes(CloseTimes(c.state, r.closes), 1)
        == AfterClose(CloseTimes(CloseTimes(c.state, r.closes), 0), true);
  }

  lemma WriteState(c: Conn, thread: nat, now: U64, io: Io, rs: Replies)
    requires Live(c.state)
    ensures WriteEvent(c, thread, now, io, rs).state
            == CloseTimes(AfterIo(c.state), WriteCloses(c, thread, now, io, rs))
  {
    hide CallOrClose, CallCloses, CloseTimes;
    var b := c.(atime := now);
    CallState(b.(state := Connected), OnOpened, thread, rs.open);
    var d := Open(b, thread, rs.open);
    var m := if c.state == Connecting then CallCloses(rs.open) else 0;
    CloseTimesIs(AfterIo(c.state), m);
    CloseTimesIs(AfterIo(c.state), 0);
    assert d.state == CloseTimes(AfterIo(c.state), m) && AfterIo(d.state) == d.state;
    if !(c.state == Connecting && !rs.open.ok) {
      var e := d.(output := d.output - Min(io.takes, d.output));
      CallState(e, OnSent, thread, rs.sent);
      CloseTimesAdd(AfterIo(c.state), m, CallCloses(rs.sent));
    }
  }

  lemma ReadState(c: Conn, thread: nat, now: U64, io: Io, r: Reply)
    requires Live(c.state)
    ensures ReadEvent(c, thread, now, io, r).state == CloseTimes(AfterIo(c.state), ReadCloses(c, io, r))
  {
    hide CallOrClose, CallCloses;
    var d := c.(atime := now, state := AfterIo(c.state), input := c.input + io.gives);
    var e := if io.lost then Close(d) else d;
    var m := if io.lost then 1 else 0;
    assert CloseTimes(d.state, 1) == AfterClose(CloseTimes(d.state, 0), true);
    assert e.state == CloseTimes(d.state, m);
    CallState(e, OnRecv, thread, r);
    CloseTimesAdd(d.state, m, CallCloses(r));
  }

  /** A poll event ends the connecting phase, and beyond that the state only depends on
      how often the event closes the connection. */
  lemma HandleStateIs(c: Conn, thread: nat, now: U64, io: Io, rs: Replies)
    requires Live(c.state)
    ensures Handle(c, thread, now, io, rs).state
            == CloseTimes(if Reports(io) then AfterIo(c.state) else c.state, EventCloses(c, thread, now, io, rs))
  {
    hide WriteEvent, ReadEvent, WriteEnds, WriteCloses, ReadCloses, CloseTimes;
    var s := AfterIo(c.state);
    WriteState(c, thread, now, io, rs);
    ReadState(c, thread, now, io, rs.recv);
    var d, m := WriteEvent(c, thread, now, io, rs), WriteCloses(c, thread, now, io, rs);
    CloseTimesIs(s, m);
    CloseTimesIs(c.state, 0);
    ReadState(d, thread, now, io, rs.recv);
    assert AfterIo(d.state) == d.state;
    CloseTimesAdd(s, m, ReadCloses(d, io, rs.recv));
  }

  /** A refusal stands exactly as long as no event closes the connection again: no
      callback of its closes it or answers false, and no read finds it lost. */
  lemma RefusalStandsIff(c: Conn, thread: nat, now: U64, io: Io, rs: Replies)
    requires c.state == Refused
    ensures Handle(c, thread, now, io, rs).state == Refused <==> EventCloses(c, thread, now, io, rs) == 0
  {
    hide EventCloses, CloseTimes;
    HandleStateIs(c, thread, now, io, rs);
    CloseTimesIs(Refused, EventCloses(c, thread, now, io, rs));
  }

  function WatchCloses(c: Conn, now: U64, timeout: U64, r: Reply): nat {
    if c.state == Connected && Idle(c, now, timeout) then CallCloses(r) else 0
  }

  lemma WatchState(c: Conn, thread: nat, now: U64, timeout: U64, r: Reply)
    ensures Watch(c, thread, now, timeout, r).state == CloseTimes(c.state, WatchCloses(c, now, timeout, r))
  {
    hide CallOrClose, CallCloses;
    CallState(c, OnTimeout, thread, r);
    assert CloseTimes(c.state, 0) == c.state;
  }
}
