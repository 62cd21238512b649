// The side of the engine that makes connections: listen, connect and the accept loop
// of the listener thread. They ask the balancer and post to the inboxes.
module EngineFront {
  import opened Basics
  import opened TcpStream
  import opened NetEngine
  import opened EngineSystem
  import opened EngineWorker
  import opened MessageQueue
  import opened LoadBalancer
  import opened StringUtil
  import opened Lists

  /** kMaxThreads */
  const MAX_THREADS: nat := 128

  /** A connection found by accept: the hash of the remote address, and what cb_net_accepted does. */
  datatype Arrival = Arrival(hash: nat, r: Reply)

  /** Those of `made` that the answers of the balancer, from number `first` on, send to worker w. */
  function Routed<T>(made: seq<T>, first: nat, workers: Int32, w: nat): seq<T>
    requires 1 <= workers
  {
    if made == [] then []
    else Routed(made[..|made| - 1], first, workers, w)
         + if LoadBalancer.Answer(1, workers, first + |made| - 1) == w then [made[|made| - 1]] else []
  }

  lemma RoutedNext<T>(made: seq<T>, x: T, first: nat, workers: Int32, w: nat)
    requires 1 <= workers
    ensures Routed(made + [x], first, workers, w)
            == Routed(made, first, workers, w)
               + if LoadBalancer.Answer(1, workers, first + |made|) == w then [x] else []
  {
    assert (made + [x])[..|made|] == made;
  }

  lemma {:induction false} RoutedCount<T>(made: seq<T>, first: nat, workers: Int32, w: nat)
    requires 1 <= workers
    ensures |Routed(made, first, workers, w)|
            == LoadBalancer.Count(1, workers, first + |made|, w) - LoadBalancer.Count(1, workers, first, w)
    decreases |made|
  {
    hide LoadBalancer.Answer;
    if made != [] {
      RoutedCount(made[..|made| - 1], first, workers, w);
    }
  }

  /** Of all connections ever handed over before the counter wraps, no worker is sent
      two more than another. */
  lemma WorkIsSpreadEvenly<T>(made: seq<T>, workers: Int32, v: nat, w: nat)
    requires 1 <= v <= workers && 1 <= w <= workers && |made| <= INT_MAX
    ensures -1 <= |Routed(made, 0, workers, v)| - |Routed(made, 0, workers, w)| <= 1
  {
    RoutedCount(made, 0, workers, v);
    RoutedCount(made, 0, workers, w);
    RoundRobinIsFair(1, workers, |made|, v, w);
  }

  class Engine {
    const lb: LoadBalancerRR
    const inboxes: seq<MessageQueue<Connection>>

    ghost predicate Valid()
      reads this, inboxes
    {
      && |inboxes| == MAX_WORKER + 1
      && (forall w :: 0 <= w < |inboxes| ==> inboxes[w].Valid())
      && forall v, w :: 0 <= v < w < |inboxes| ==> inboxes[v] != inboxes[w]
    }

    /** start has set the balancer up. */
    ghost predicate Ready()
      reads this, lb, inboxes
    {
      Valid() && lb.Valid() && lb.min == 1 && 1 <= lb.max <= MAX_WORKER
    }

    ghost function Queues(): (q: seq<seq<Connection>>)
      reads this, inboxes
      ensures |q| == |inboxes|
    {
      seq(|inboxes|, w requires 0 <= w < |inboxes| reads this, inboxes => inboxes[w].queue)
    }

    /** The array of inboxes that a new engine has. */
    static method NewInboxes(n: nat) returns (made: seq<MessageQueue<Connection>>)
      ensures |made| == n && forall w :: 0 <= w < n ==> fresh(made[w]) && made[w].Valid() && made[w].queue == []
      ensures forall v, w :: 0 <= v < w < n ==> made[v] != made[w]
    {
      made := [];
      while |made| < n
        invariant |made| <= n && Distinct(made)
        invariant forall q :: q in made ==> fresh(q) && q.Valid() && q.queue == []
        decreases n - |made|
      {
        var inbox := new MessageQueue<Connection>();
        assert inbox !in made;
        made := made + [inbox];
      }
      assert forall w :: 0 <= w < n ==> made[w] in made;
    }

    constructor (lb: LoadBalancerRR)
      ensures Valid() && this.lb == lb
      ensures forall w :: 0 <= w < |inboxes| ==> fresh(inboxes[w]) && inboxes[w].queue == []
    {
      var made := NewInboxes(MAX_WORKER + 1);
      this.lb := lb;
      inboxes := made;
    }

    /** Starts so many workers, or so many for each core if the number is negative. The
        thread pool also holds the listener, so it has no room for the last worker that
        the engine allows. */
    method Start(workers: int, cores: nat) returns (ok: bool)
      requires Valid() && (workers < 0 ==> cores * -workers <= INT_MAX)
      modifies lb
      ensures var n := if workers < 0 then cores * -workers else workers;
              && (ok <==> 1 <= n < MAX_THREADS)
              && (1 <= n <= MAX_WORKER ==> Ready() && lb.max == n && lb.answers == [])
              && (n < 1 || n > MAX_WORKER ==> unchanged(lb))
    {
      var n := if workers < 0 then cores * -workers else workers;
      if n <= 0 || n > MAX_WORKER { return false; }
      var done := lb.Setup(1, n);
      return n + 1 <= MAX_THREADS;
    }

    /** Posts to one inbox; the others stay as they are. */
    method PostTo(w: nat, conn: Connection)
      requires Valid() && w < |inboxes|
      modifies inboxes
      ensures Valid() && Queues() == old(Queues())[w := old(Queues())[w] + [conn]]
    {
      var ok := inboxes[w].Post(conn);
      assert forall v :: 0 <= v < |inboxes| && v != w ==> Queues()[v] == old(Queues()[v]);
    }

    /** Retains a worker for the connection and posts to its inbox. */
    method HandOver(conn: Connection)
      requires Ready() && LoadBalancer.Answer(1, lb.max, |lb.answers|) >= 0
      modifies lb, inboxes
      ensures Ready() && lb.max == old(lb.max)
      ensures var r := LoadBalancer.Answer(1, lb.max, |old(lb.answers)|);
              && 0 <= r <= lb.max && lb.answers == old(lb.answers) + [r]
              && Queues() == old(Queues())[r := old(Queues())[r] + [conn]]
    {
      hide LoadBalancer.Answer, LoadBalancer.Answers, LoadBalancer.Counter;
      AnswersFromOne(lb.max, |lb.answers|);
      var r := lb.Retain(conn.hash);
      PostTo(r, conn);
    }

    /** `ok` says whether the initializer accepts and the socket can listen. */
    method Listen(ok: bool) returns (conn: Connection)
      requires Valid()
      modifies inboxes
      ensures Valid() && fresh(conn) && unchanged(lb)
      ensures Queues() == if ok then old(Queues())[0 := old(Queues())[0] + [conn]] else old(Queues())
      ensures ok ==> conn.Alone() == NEW.(state := Listening)
    {
      conn := new Connection(Uninitialized, 0, 0);
      if !ok { return; }
      conn.state := Listening;
      PostTo(0, conn);
    }

    /** `ok` says whether the initializer accepts and connect can start; it may also succeed at once. */
    method Connect(ok: bool, hash: nat, immediate: bool, atime: U64) returns (conn: Connection)
      requires Ready() && LoadBalancer.Answer(1, lb.max, |lb.answers|) >= 0
      modifies lb, inboxes
      ensures Ready() && fresh(conn) && conn.hash == hash && lb.max == old(lb.max)
      ensures ok ==> conn.Alone() == NEW.(state := if immediate then Connected else Connecting, atime := atime)
      ensures var r := LoadBalancer.Answer(1, lb.max, |old(lb.answers)|);
              if ok then 0 <= r <= lb.max && Queues() == old(Queues())[r := old(Queues())[r] + [conn]]
                         && lb.answers == old(lb.answers) + [r]
              else Queues() == old(Queues()) && lb.answers == old(lb.answers)
    {
      hide LoadBalancer.Answer;
      conn := new Connection(Uninitialized, hash, atime);
      if !ok { return; }
      conn.state := if immediate then Connected else Connecting;
      HandOver(conn);
    }

    /** The listener's poll handler: every socket found is offered to cb_net_accepted,
        closed if that refuses it, and handed over all the same. */
    method AcceptAll(arrivals: seq<Arrival>, now: U64) returns (made: seq<Connection>)
      requires Ready()
      requires forall n: nat :: |lb.answers| <= n < |lb.answers| + |arrivals| ==> LoadBalancer.Answer(1, lb.max, n) >= 0
      modifies lb, inboxes
      ensures Ready() && lb.max == old(lb.max) && |made| == |arrivals| == |lb.answers| - |old(lb.answers)|
      ensures forall k :: 0 <= k < |made| ==> fresh(made[k]) && made[k].hash == arrivals[k].hash
                                              && made[k].Alone() == AcceptedConn(now, arrivals[k].r)
      ensures forall w :: 0 <= w < |inboxes| ==>
                Queues()[w] == old(Queues()[w]) + Routed(made, |old(lb.answers)|, lb.max, w)
    {
      hide LoadBalancer.Answer, AcceptedConn, Routed, Engine.Queues;
      ghost var before, first := Queues(), |lb.answers|;
      made := [];
      NothingRouted<Connection>(before, first, lb.max);
      while |made| < |arrivals|
        invariant Ready() && lb.max == old(lb.max) && |made| <= |arrivals| && |lb.answers| == first + |made|
        invariant forall k :: 0 <= k < |made| ==> fresh(made[k]) && made[k].hash == arrivals[k].hash
                                                  && made[k].Alone() == AcceptedConn(now, arrivals[k].r)
        invariant forall w :: 0 <= w < |inboxes| ==> Queues()[w] == before[w] + Routed(made, first, lb.max, w)
        decreases |arrivals| - |made|
      {
        var conn := Accept(arrivals[|made|], now);
        ghost var queues := Queues();
        HandOver(conn);
        RoutedMore(before, queues, Queues(), made, conn, first, lb.max);
        made := made + [conn];
      }
    }

    static method Accept(a: Arrival, now: U64) returns (conn: Connection)
      ensures fresh(conn) && conn.hash == a.hash && conn.Alone() == AcceptedConn(now, a.r)
    {
      conn := new Connection(Connected, a.hash, 0);
      var ok := conn.Run(OnAccepted, 0, a.r);
      if !ok {
        conn.Close();
      } else {
        conn.atime := now;
      }
    }
  }

  lemma NothingRouted<T>(before: seq<seq<T>>, first: nat, workers: Int32)
    requires 1 <= workers
    ensures forall w :: 0 <= w < |before| ==> before[w] == before[w] + Routed<T>([], first, workers, w)
  {
  }

  lemma RoutedMore<T>(before: seq<seq<T>>, now: seq<seq<T>>, after: seq<seq<T>>,
                      made: seq<T>, x: T, first: nat, workers: Int32)
    requires 1 <= workers && |before| == |now| == |after|
    requires forall w :: 0 <= w < |now| ==> now[w] == before[w] + Routed(made, first, workers, w)
    requires var r := LoadBalancer.Answer(1, workers, first + |made|);
             0 <= r < |now| && after == now[r := now[r] + [x]]
    ensures forall w :: 0 <= w < |after| ==> after[w] == before[w] + Routed(made + [x], first, workers, w)
  {
    hide LoadBalancer.Answer, Routed;
    forall w | 0 <= w < |after| ensures after[w] == before[w] + Routed(made + [x], first, workers, w)
    {
      RoutedNext(made, x, first, workers, w);
      var more := if LoadBalancer.Answer(1, workers, first + |made|) == w then [x] else [];
      Regroup(before[w], Routed(made, first, workers, w), more);
      assert now[w] + [] == now[w];
    }
  }
}
