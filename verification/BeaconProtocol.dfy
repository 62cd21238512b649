// The id-reservation protocol of the beacon daemon: what one node does when its
// worker comes round and when a packet arrives, many such nodes over one network
// with bounded delivery, and the theorem that no two nodes ever own the same id.
module BeaconProtocol {
  import opened Basics

  /** kNegotiateInterval, in milliseconds. */
  const NEGOTIATE_INTERVAL: nat := 1000
  /** Timers are unsigned 64-bit, ids and nonces unsigned 32-bit. */
  const CLOCK_RANGE: nat := 0x1_0000_0000_0000_0000
  const WORD_RANGE: nat := 0x1_0000_0000

  type Word = w: nat | w < WORD_RANGE
  type Draw = d: nat | 1 <= d <= 0x7fffffff witness 1

  datatype Message =
    | BeaconMsg(kind: Word, id: Word, port: Word)
    | ReserveMsg(kind: Word, id: Word, port: Word, nonce: Word)

  /** The fields of one daemon that take part in the negotiation. */
  datatype Node = Node(
    kind: Word, port: Word, interval: nat, timer: nat,
    serviceId: Word, reservingId: Word, reservingNext: Word, nonce: Word, collided: bool)

  /** What the worker cannot decide itself: the id returned by cb_beacon_createid and two random draws. */
  datatype Choice = Choice(id: Word, skip: Draw, nonce: Draw)

  /** The outcome of one activity of a node: its new fields, the packet it multicasts, the id it reports ready. */
  datatype Outcome = Outcome(node: Node, sent: Option<Message>, ready: Option<Word>)

  /** now - _beacon_timer in unsigned 64-bit arithmetic. */
  function Elapsed(now: nat, timer: nat): int {
    if timer <= now then now - timer else now - timer + CLOCK_RANGE
  }

  function BeaconOf(n: Node): Option<Message> {
    if n.serviceId == 0 then None else Some(BeaconMsg(n.kind, n.serviceId, n.port))
  }

  function ReservationOf(n: Node): Option<Message> {
    if n.reservingId == 0 then None else Some(ReserveMsg(n.kind, n.reservingId, n.port, n.nonce))
  }

  /** One pass of the worker, up to the health check. */
  function Turn(n: Node, now: nat, c: Choice): Outcome {
    if n.serviceId == 0 then
      if Elapsed(now, n.timer) < NEGOTIATE_INTERVAL then Outcome(n, None, None)
      else if n.collided then
        var n' := n.(timer := now, reservingId := c.id,
                     reservingNext := (n.reservingNext + c.skip % 4 + 1) % WORD_RANGE,
                     nonce := c.nonce, collided := false);
        Outcome(n', ReservationOf(n'), None)
      else
        var n' := n.(timer := now, serviceId := n.reservingId, reservingId := 0);
        Outcome(n', BeaconOf(n'), Some(n'.serviceId))
    else if Elapsed(now, n.timer) < n.interval then Outcome(n, None, None)
    else
      var n' := n.(timer := now);
      Outcome(n', BeaconOf(n'), None)
  }

  /** What one received packet does to the negotiation. */
  function Receive(n: Node, m: Message): Outcome {
    match m
    case BeaconMsg(_, id, _) =>
      Outcome(if id == n.reservingId then n.(collided := true, timer := 0) else n, None, None)
    case ReserveMsg(_, id, _, nonce) =>
      var n' := if id == n.reservingId && nonce != n.nonce then n.(collided := true, timer := 0) else n;
      Outcome(n', if id == n.serviceId then BeaconOf(n') else None, None)
  }

  /** A node as init leaves it. */
  predicate Fresh(n: Node) {
    && n.serviceId == 0 && n.reservingId == 0 && n.reservingNext == 0 && n.timer == 0 && n.collided
  }

  /** The node holds a reservation that nothing has disputed so far. */
  predicate Reserving(n: Node) {
    n.serviceId == 0 && !n.collided && n.reservingId != 0
  }

  // ---------------------------------------------------------------------
  // Many nodes and a network
  // ---------------------------------------------------------------------

  /** One multicast packet on its way to one node; it is processed there no later than `due`. */
  datatype Copy = Copy(msg: Message, dst: nat, due: nat)

  /** `skew` is how far each node's clock is ahead of the common one. `sent` and
      `readied` are histories: every packet ever multicast, and the ids each node
      has passed to cb_beacon_ready. */
  datatype System = System(
    clock: nat, skew: seq<nat>, nodes: seq<Node>, net: multiset<Copy>,
    sent: set<Message>, readied: seq<seq<Word>>)

  datatype Step = Tick(dt: nat) | Work(i: nat, choice: Choice) | Deliver(copy: Copy)

  /** How the environment behaves: packets arrive within `delay` milliseconds;
      whether rival reservations draw different nonces; whether
      cb_beacon_createid never returns 0. */
  datatype World = World(delay: nat, distinct: bool, nonzero: bool)

  /** One copy for each of the first n nodes. */
  function Multicast(m: Option<Message>, n: nat, due: nat): multiset<Copy> {
    if m.None? || n == 0 then multiset{} else Multicast(m, n - 1, due) + multiset{Copy(m.value, n - 1, due)}
  }

  predicate NonceIsDistinct(s: System, i: nat, c: Choice) {
    forall j :: 0 <= j < |s.nodes| && j != i && Reserving(s.nodes[j]) && s.nodes[j].reservingId == c.id
      ==> s.nodes[j].nonce != c.nonce
  }

  predicate Shaped(s: System) {
    |s.nodes| == |s.skew| == |s.readied|
  }

  predicate Enabled(s: System, st: Step, w: World) {
    && Shaped(s)
    && match st
       case Tick(dt) =>
         && (forall c :: c in s.net ==> s.clock + dt <= c.due)
         && (forall i :: 0 <= i < |s.skew| ==> s.clock + dt + s.skew[i] < CLOCK_RANGE)
       case Work(i, c) => i < |s.nodes| && (w.distinct ==> NonceIsDistinct(s, i, c)) && (w.nonzero ==> c.id != 0)
       case Deliver(c) => c in s.net && c.dst < |s.nodes|
  }

  function OutcomeAt(s: System, st: Step): (o: (nat, Outcome, multiset<Copy>))
    requires Shaped(s) && !st.Tick?
    requires st.Work? ==> st.i < |s.nodes|
    requires st.Deliver? ==> st.copy.dst < |s.nodes|
  {
    match st
    case Work(i, c) => (i, Turn(s.nodes[i], s.clock + s.skew[i], c), multiset{})
    case Deliver(c) => (c.dst, Receive(s.nodes[c.dst], c.msg), multiset{c})
  }

  function Apply(s: System, st: Step, w: World): System
    requires Enabled(s, st, w)
  {
    if st.Tick? then s.(clock := s.clock + st.dt)
    else
      var (i, o, taken) := OutcomeAt(s, st);
      s.(nodes := s.nodes[i := o.node],
         net := s.net - taken + Multicast(o.sent, |s.nodes|, s.clock + w.delay),
         sent := if o.sent.None? then s.sent else s.sent + {o.sent.value},
         readied := if o.ready.None? then s.readied else s.readied[i := s.readied[i] + [o.ready.value]])
  }

  predicate Initial(s: System) {
    && Shaped(s) && s.net == multiset{} && s.sent == {}
    && (forall i :: 0 <= i < |s.nodes| ==> Fresh(s.nodes[i]) && s.readied[i] == [] && s.clock + s.skew[i] < CLOCK_RANGE)
  }

  predicate Valid(s: System, run: seq<Step>, w: World)
    decreases |run|
  {
    run != [] ==> Enabled(s, run[0], w) && Valid(Apply(s, run[0], w), run[1..], w)
  }

  function After(s: System, run: seq<Step>, w: World): System
    requires Valid(s, run, w)
    decreases |run|
  {
    if run == [] then s else After(Apply(s, run[0], w), run[1..], w)
  }

  /** No two nodes own the same nonzero id. */
  predicate UniqueIds(s: System) {
    forall i, j :: 0 <= i < j < |s.nodes| && s.nodes[i].serviceId != 0 ==> s.nodes[i].serviceId != s.nodes[j].serviceId
  }

  // ---------------------------------------------------------------------
  // The invariant
  // ---------------------------------------------------------------------

  function NonZero(ids: seq<Word>): seq<Word> {
    if ids == [] then []
    else NonZero(ids[..|ids| - 1]) + if ids[|ids| - 1] == 0 then [] else [ids[|ids| - 1]]
  }

  predicate CopiesSane(s: System) {
    forall c :: c in s.net ==> s.clock <= c.due && c.msg.id != 0 && c.msg in s.sent
  }

  predicate NodeSane(s: System, i: nat)
    requires Shaped(s) && i < |s.nodes|
  {
    var n := s.nodes[i];
    && n.timer <= s.clock + s.skew[i] < CLOCK_RANGE
    && (n.serviceId != 0 ==> n.reservingId == 0)
    && NonZero(s.readied[i]) == if n.serviceId == 0 then [] else [n.serviceId]
  }

  /** The instant, on the common clock, at which node i may claim the id it reserves. */
  function ClaimTime(s: System, i: nat): int
    requires Shaped(s) && i < |s.nodes|
  {
    s.nodes[i].timer + NEGOTIATE_INTERVAL - s.skew[i]
  }

  /** A reservation packet of j's id is under way to i, carries a nonce other than
      i's, and leaves time for an answer to reach j before j may claim. */
  predicate Challenged(s: System, w: World, i: nat, j: nat)
    requires Shaped(s) && i < |s.nodes| && j < |s.nodes|
  {
    exists c :: c in s.net && c.dst == i && c.msg.ReserveMsg? && c.msg.id == s.nodes[j].reservingId
                && c.msg.nonce != s.nodes[i].nonce && c.due + w.delay < ClaimTime(s, j)
  }

  /** A packet is under way that will make owner i speak up, or i's beacon is under way to j, in time. */
  predicate Warned(s: System, w: World, i: nat, j: nat)
    requires Shaped(s) && i < |s.nodes| && j < |s.nodes|
  {
    exists c :: c in s.net && c.msg.id == s.nodes[j].reservingId &&
                ((c.dst == i && c.msg.ReserveMsg? && c.due + w.delay < ClaimTime(s, j))
                 || (c.dst == j && c.msg.BeaconMsg? && c.due < ClaimTime(s, j)))
  }

  predicate PairSafe(s: System, w: World, i: nat, j: nat)
    requires Shaped(s) && i < |s.nodes| && j < |s.nodes|
  {
    var a, b := s.nodes[i], s.nodes[j];
    && (a.serviceId != 0 ==> a.serviceId != b.serviceId)
    && (Reserving(a) && Reserving(b) && a.reservingId == b.reservingId ==>
          Challenged(s, w, i, j) || Challenged(s, w, j, i))
    && (a.serviceId != 0 && Reserving(b) && a.serviceId == b.reservingId ==> Warned(s, w, i, j))
  }

  ghost predicate Sane(s: System) {
    Shaped(s) && CopiesSane(s) && forall i :: 0 <= i < |s.nodes| ==> NodeSane(s, i)
  }

  ghost predicate Safe(s: System, w: World) {
    Shaped(s) && forall i, j :: 0 <= i < |s.nodes| && 0 <= j < |s.nodes| && i != j ==> PairSafe(s, w, i, j)
  }
}
