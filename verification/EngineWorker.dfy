// One worker thread as the engine runs it: a list of connections that it sweeps in
// place, a poller, and the connections it takes over from its inbox.
module EngineWorker {
  import opened Basics
  import opened TcpStream
  import opened NetEngine
  import opened MessageQueue
  import opened StringUtil
  import opened Lists

  class Connection {
    var state: State
    var writing: bool
    var atime: U64
    const hash: nat
    var output: nat
    var input: nat
    ghost var trace: seq<Mark>

    constructor (state: State, hash: nat, atime: U64)
      ensures this.state == state && this.hash == hash && this.atime == atime
      ensures !writing && output == 0 && input == 0 && trace == []
    {
      this.state, this.hash, this.atime := state, hash, atime;
      writing, output, input, trace := false, 0, 0, [];
    }

    /** The connection outside any poller. */
    ghost function Alone(): Conn
      reads this
    {
      Conn(state, writing, Unregistered, atime, output, input, trace)
    }

    /** close() of a managed connection. */
    method Close()
      modifies this`state
      ensures state == AfterClose(old(state), true)
    {
      if state == Connecting {
        state := Refused;
      } else if state != Closed {
        state := Closing;
      }
    }

    method IoWrite(takes: nat)
      modifies this`state, this`output
      ensures state == AfterIo(old(state)) && output == old(output) - Min(takes, old(output))
    {
      if state == Connecting {
        state := Connected;
      }
      output := output - Min(takes, output);
    }

    method IoRead(gives: nat, lost: bool)
      modifies this`state, this`input
      ensures state == if lost then AfterClose(AfterIo(old(state)), true) else AfterIo(old(state))
      ensures input == old(input) + gives
    {
      if state == Connecting {
        state := Connected;
      }
      input := input + gives;
      if lost {
        Close();
      }
    }

    /** A callback of the application, which does to its connection what r says. */
    method Run(callback: Callback, thread: nat, r: Reply) returns (ok: bool)
      modifies this`state, this`output, this`input, this`trace
      ensures ok == r.ok && trace == old(trace) + [Mark(callback, thread)]
      ensures state == CloseTimes(old(state), r.closes)
      ensures output == old(output) + r.sent && input == old(input) - Min(r.taken, old(input))
    {
      trace := trace + [Mark(callback, thread)];
      output := output + r.sent;
      input := input - Min(r.taken, input);
      for k := 0 to r.closes
        invariant state == CloseTimes(old(state), k)
        modifies this`state
      {
        Close();
      }
      return r.ok;
    }
  }

  /** The elements with the wanted flag, in their order. */
  function Kept<T>(s: seq<T>, flags: seq<bool>, want: bool): seq<T>
    requires |s| == |flags|
  {
    if s == [] then []
    else Kept(s[..|s| - 1], flags[..|s| - 1], want) + if flags[|s| - 1] == want then [s[|s| - 1]] else []
  }

  lemma KeptNext<T>(all: seq<T>, flags: seq<bool>, f: bool, want: bool)
    requires |flags| < |all|
    ensures Kept(all[..|flags| + 1], flags + [f], want)
            == Kept(all[..|flags|], flags, want) + if f == want then [all[|flags|]] else []
  {
    assert all[..|flags| + 1][..|flags|] == all[..|flags|] && (flags + [f])[..|flags|] == flags;
  }

  /** A sweep on its way: |over| of `all` have had their turn. Those kept are at the
      head of the list, the others among the deleted. */
  ghost predicate Progress<T>(all: seq<T>, over: seq<bool>, list: seq<T>, i: nat, graves: seq<T>, deleted: seq<T>) {
    && |over| <= |all|
    && list == Kept(all[..|over|], over, false) + all[|over|..] && i == |Kept(all[..|over|], over, false)|
    && deleted == graves + Kept(all[..|over|], over, true)
  }

  lemma NothingYet<T>(all: seq<T>, graves: seq<T>)
    ensures Progress(all, [], all, 0, graves, graves)
  {
  }

  lemma ProgressTurn<T>(all: seq<T>, over: seq<bool>, list: seq<T>, i: nat, graves: seq<T>, deleted: seq<T>)
    requires Progress(all, over, list, i, graves, deleted) && i < |list|
    ensures |over| < |all| && list[i] == all[|over|]
  {
  }

  lemma ProgressNext<T>(all: seq<T>, over: seq<bool>, gone: bool, list: seq<T>, i: nat, graves: seq<T>, deleted: seq<T>)
    requires Progress(all, over, list, i, graves, deleted) && i < |list| && |over| < |all|
    ensures Progress(all, over + [gone], if gone then Without(list, i) else list, if gone then i else i + 1,
                     graves, deleted + if gone then [all[|over|]] else [])
  {
    hide Kept;
    var k := |over|;
    KeptNext(all, over, gone, false);
    KeptNext(all, over, gone, true);
    Regroup(graves, Kept(all[..k], over, true), if gone then [all[k]] else []);
    var kept := Kept(all[..k], over, false);
    assert kept + [] == kept && graves + Kept(all[..k], over, true) + [] == graves + Kept(all[..k], over, true);
    if gone {
      assert Without(kept + all[k..], |kept|) == kept + all[k + 1..];
    } else {
      assert kept + all[k..] == kept + [all[k]] + all[k + 1..];
    }
  }

  lemma ProgressDone<T>(all: seq<T>, over: seq<bool>, list: seq<T>, i: nat, graves: seq<T>, deleted: seq<T>)
    requires Progress(all, over, list, i, graves, deleted) && i >= |list|
    ensures |over| == |all| && list == Kept(all, over, false) && deleted == graves + Kept(all, over, true)
  {
    assert all[..|over|] == all;
  }

  /** The first |over| connections have been visited, the others are as before. */
  ghost predicate Visited(before: seq<Conn>, after: seq<Conn>, over: seq<bool>,
                          id: nat, now: U64, timeout: U64, replies: seq<Reply>) {
    && |over| <= |before| == |after| == |replies|
    && (forall j :: 0 <= j < |over| ==>
          over[j] == Over(before[j]) && after[j] == Visit(before[j], id, now, timeout, replies[j]))
    && forall j :: |over| <= j < |before| ==> after[j] == before[j]
  }

  lemma NoneVisited(before: seq<Conn>, id: nat, now: U64, timeout: U64, replies: seq<Reply>)
    requires |before| == |replies|
    ensures Visited(before, before, [], id, now, timeout, replies)
  {
  }

  lemma VisitedNext(before: seq<Conn>, after: seq<Conn>, over: seq<bool>, gone: bool,
                    id: nat, now: U64, timeout: U64, replies: seq<Reply>)
    requires Visited(before, after, over, id, now, timeout, replies) && |over| < |before|
    requires gone == Over(after[|over|])
    ensures Visited(before, after[|over| := Visit(after[|over|], id, now, timeout, replies[|over|])], over + [gone],
                    id, now, timeout, replies)
  {
    hide Visit, Over;
  }

  /** After a sweep every connection that stays is watched for what it waits for, and
      every other has had its last callback. */
  lemma NoLostWakeup(before: seq<Conn>, after: seq<Conn>, over: seq<bool>,
                     id: nat, now: U64, timeout: U64, replies: seq<Reply>)
    requires Visited(before, after, over, id, now, timeout, replies) && |over| == |before|
    requires forall j :: 0 <= j < |before| ==> Live(before[j].state) && InStep(before[j])
    ensures forall j :: 0 <= j < |after| && !over[j] ==> InStep(after[j]) && Awake(after[j])
    ensures forall j :: 0 <= j < |after| && over[j] ==>
              after[j].interest == Unregistered && |after[j].trace| > 0
              && Terminal(after[j].trace[|after[j].trace| - 1].callback)
  {
    forall j | 0 <= j < |after|
      ensures !over[j] ==> InStep(after[j]) && Awake(after[j])
      ensures over[j] ==> after[j].interest == Unregistered && |after[j].trace| > 0
                          && Terminal(after[j].trace[|after[j].trace| - 1].callback)
    {
      hide Watch, Finish, InStep, Awake;
      if over[j] {
        FinishEnds(before[j], id, replies[j]);
      } else {
        WatchAdvances(before[j], id, now, timeout, replies[j]);
      }
    }
  }

  /** The connections from n to k have been registered, the others are as before. */
  ghost predicate Registered(before: seq<Conn>, after: seq<Conn>, n: nat, k: nat) {
    && |before| == |after|
    && forall j :: 0 <= j < |after| ==> after[j] == if n <= j < k then Register(before[j]) else before[j]
  }

  lemma NoneRegistered(before: seq<Conn>, n: nat)
    ensures Registered(before, before, n, n)
  {
  }

  lemma RegisteredNext(before: seq<Conn>, after: seq<Conn>, n: nat, k: nat)
    requires Registered(before, after, n, k) && n <= k < |after|
    ensures Registered(before, after[k := Register(after[k])], n, k + 1)
  {
    hide Register;
  }

  class Worker {
    const id: nat
    var sockets: seq<Connection>
    var poller: map<Connection, Interest>
    ghost var released: seq<nat>
    ghost var deleted: seq<Connection>

    constructor (id: nat)
      ensures this.id == id && sockets == [] && poller == map[] && released == [] && deleted == []
    {
      this.id := id;
      sockets, poller, released, deleted := [], map[], [], [];
    }

    ghost function See(c: Connection): Conn
      reads this, c
    {
      Conn(c.state, c.writing, if c in poller then poller[c] else Unregistered, c.atime, c.output, c.input, c.trace)
    }

    ghost function SeeAll(s: seq<Connection>): (v: seq<Conn>)
      reads this, s
      ensures |v| == |s|
    {
      seq(|s|, i requires 0 <= i < |s| reads this, s => See(s[i]))
    }

    /** The poller watches exactly the listed connections, and every deleted one has
        been released with its own hash. */
    ghost predicate Valid()
      reads this
    {
      && Distinct(sockets)
      && (forall c :: c in sockets ==> c in poller) && (forall c :: c in poller ==> c in sockets)
      && |released| == |deleted| && forall j :: 0 <= j < |deleted| ==> released[j] == deleted[j].hash
    }

    /** Moves everything in the inbox to the list. */
    method TakeAll(inbox: MessageQueue<Connection>)
      requires Valid() && inbox.Valid() && Distinct(sockets + inbox.queue)
      modifies this`sockets, this`poller, inbox, inbox.queue
      ensures Valid() && inbox.Valid() && inbox.queue == [] && inbox.posted == old(inbox.posted)
      ensures sockets == old(sockets) + old(inbox.queue)
      ensures Registered(old(SeeAll(sockets + inbox.queue)), SeeAll(sockets), |old(sockets)|, |sockets|)
    {
      hide Registered, Worker.SeeAll, Worker.Valid, Distinct, MessageQueue.Valid;
      ghost var all, n, k := sockets + inbox.queue, |sockets|, |sockets|;
      ghost var before := SeeAll(all);
      NoneRegistered(before, n);
      var next := inbox.Get([]);
      while next.Some?
        invariant inbox.Valid() && inbox.posted == old(inbox.posted) && Valid()
        invariant n <= k <= |all| && sockets == all[..k]
        invariant if next.Some? then k < |all| && next.value == all[k] && inbox.queue == all[k + 1..]
                  else k == |all| && inbox.queue == []
        invariant Registered(before, SeeAll(all), n, k)
        decreases |all| - k
      {
        NextIsNew(all, k);
        RegisteredNext(before, SeeAll(all), n, k);
        Add(next.value, all, k);
        k := k + 1;
        next := inbox.Get([]);
      }
      assert sockets == all;
    }

    method Add(c: Connection, ghost all: seq<Connection>, ghost k: nat)
      requires Valid() && c !in sockets && Distinct(all) && k < |all| && all[k] == c
      modifies this`sockets, this`poller, c`writing
      ensures Valid() && sockets == old(sockets) + [c]
      ensures SeeAll(all) == old(SeeAll(all))[k := Register(old(SeeAll(all))[k])]
    {
      sockets := sockets + [c];
      if c.state == Connecting {
        c.writing := true;
        poller := poller[c := ReadWrite];
      } else {
        poller := poller[c := Read];
      }
    }

    /** One connection's turn in the sweep. */
    method VisitAt(i: nat, now: U64, timeout: U64, r: Reply, ghost all: seq<Connection>, ghost k: nat)
      returns (gone: bool)
      requires Valid() && i < |sockets| && Distinct(all) && k < |all| && all[k] == sockets[i]
      modifies this, sockets[i]
      ensures Valid()
      ensures var v := old(SeeAll(all));
              && SeeAll(all) == v[k := Visit(v[k], id, now, timeout, r)] && gone == Over(v[k])
              && sockets == (if gone then Without(old(sockets), i) else old(sockets))
              && deleted == old(deleted) + (if gone then [all[k]] else [])
    {
      hide Finish, Watch, Without;
      var c := sockets[i];
      if c.state == Closing || c.state == Refused {
        Reap(i, r, all, k);
        return true;
      }
      ghost var seen := SeeAll(all);
      Refresh(c, now, timeout, r);
      assert forall j :: 0 <= j < |all| && j != k ==> SeeAll(all)[j] == seen[j];
      return false;
    }

    method Reap(i: nat, r: Reply, ghost all: seq<Connection>, ghost k: nat)
      requires Valid() && i < |sockets| && Distinct(all) && k < |all| && all[k] == sockets[i]
      requires Over(See(sockets[i]))
      modifies this, sockets[i]
      ensures Valid() && sockets == Without(old(sockets), i) && deleted == old(deleted) + [all[k]]
      ensures SeeAll(all) == old(SeeAll(all))[k := Finish(old(SeeAll(all))[k], id, r)]
    {
      hide Without;
      ghost var seen := SeeAll(all);
      var c := sockets[i];
      WithoutIs(sockets, i);
      var last := if c.state == Refused then OnRefused else OnClosed;
      c.state := Closed;
      var _ := c.Run(last, id, r);
      released := released + [c.hash];
      poller := poller - {c};
      deleted := deleted + [c];
      sockets := Without(sockets, i);
      assert forall j :: 0 <= j < |all| && j != k ==> SeeAll(all)[j] == seen[j];
    }

    /** An event of the poller. */
    method OnEvent(c: Connection, now: U64, io: Io, rs: Replies)
      modifies c
      ensures See(c) == Handle(old(See(c)), id, now, io, rs)
    {
      if io.writable {
        var goes := OnWritable(c, now, io, rs);
        if !goes { return; }
      }
      if io.readable {
        c.atime := now;
        c.IoRead(io.gives, io.lost);
        if c.input > 0 {
          var ok := c.Run(OnRecv, id, rs.recv);
          if !ok {
            c.Close();
          }
        }
      }
    }

    /** The write half of an event; false when a callback's answer ends the event. */
    method OnWritable(c: Connection, now: U64, io: Io, rs: Replies) returns (goes: bool)
      modifies c
      ensures See(c) == WriteEvent(old(See(c)), id, now, io, rs)
      ensures goes == !WriteEnds(old(See(c)), id, now, io, rs)
    {
      c.atime := now;
      if c.state == Connecting {
        c.state := Connected;
        var ok := c.Run(OnOpened, id, rs.open);
        if !ok {
          c.Close();
          return false;
        }
      }
      c.IoWrite(io.takes);
      if c.output == 0 {
        var ok := c.Run(OnSent, id, rs.sent);
        if !ok {
          c.Close();
          return false;
        }
      }
      return true;
    }

    /** A connection that is not over: timeout, and write interest. */
    method Refresh(c: Connection, now: U64, timeout: U64, r: Reply)
      requires c in poller && !Over(See(c))
      modifies this`poller, c
      ensures See(c) == Watch(old(See(c)), id, now, timeout, r)
      ensures c in poller && poller == old(poller)[c := poller[c]]
    {
      if c.state == Connecting {
        if !c.writing {
          c.writing := true;
          poller := poller[c := ReadWrite];
        }
      }
      if c.state == Connected {
        if timeout != 0 && Since(now, c.atime) >= timeout {
          var ok := c.Run(OnTimeout, id, r);
          if !ok {
            c.Close();
            return;
          }
          c.atime := now;
        }
        if c.output > 0 {
          if !c.writing {
            c.writing := true;
            poller := poller[c := ReadWrite];
          }
        } else {
          if c.writing {
            c.writing := false;
            poller := poller[c := Read];
          }
        }
      }
    }

    /** The sweep: every connection in the list gets one turn, in order; those that are
        over leave the list and are deleted, the rest keep their order. */
    method Sweep(now: U64, timeout: U64, replies: seq<Reply>) returns (ghost over: seq<bool>)
      requires Valid() && |replies| == |sockets|
      modifies this, sockets
      ensures Valid() && |over| == |old(sockets)|
      ensures Visited(old(SeeAll(sockets)), SeeAll(old(sockets)), over, id, now, timeout, replies)
      ensures sockets == Kept(old(sockets), over, false)
      ensures deleted == old(deleted) + Kept(old(sockets), over, true)
    {
      hide Worker.SeeAll, Worker.Valid, Distinct, Visit, Over, Kept, Without, Progress, Visited;
      ghost var all, before, graves := sockets, SeeAll(sockets), deleted;
      ValidIsDistinct();
      NothingYet(all, graves);
      NoneVisited(before, id, now, timeout, replies);
      over := [];
      var i, k := 0, 0;
      while i < |sockets|
        invariant Valid() && 0 <= i && k == |over|
        invariant Progress(all, over, sockets, i, graves, deleted)
        invariant Visited(before, SeeAll(all), over, id, now, timeout, replies)
        decreases |all| - k
      {
        ghost var seen, list, dead := SeeAll(all), sockets, deleted;
        ProgressTurn(all, over, sockets, i, graves, deleted);
        var gone := VisitAt(i, now, timeout, replies[k], all, k);
        ProgressNext(all, over, gone, list, i, graves, dead);
        VisitedNext(before, seen, over, gone, id, now, timeout, replies);
        over := over + [gone];
        k := k + 1;
        if !gone { i := i + 1; }
      }
      ProgressDone(all, over, sockets, i, graves, deleted);
    }

    lemma ValidIsDistinct()
      requires Valid()
      ensures Distinct(sockets)
    {
    }
  }
}
