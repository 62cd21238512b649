// Which peers a daemon keeps, told from the beacons it has heard: every entry carries
// the time of the last beacon of its key, and the health check drops the silent ones.
module PeerFreshness {
  import opened PeerTable
  import opened Lists

  /** The time of the last beacon of key k, or `last` if none was heard. */
  function LastHeard(ops: seq<Op>, k: Key, last: nat): nat {
    if ops == [] then last
    else
      var op := ops[0];
      LastHeard(ops[1..], k, if op.Heard? && KeyFor(op.kind, op.id, op.addr) == k then op.now else last)
  }

  /** Every entry of key k was last heard at `last`. */
  predicate SeenAt(ps: seq<Peer>, k: Key, last: nat) {
    forall p :: p in ps && KeyOf(p) == k ==> p.seen == last
  }

  /** An entry is stale when it has not been heard for the timeout; a clock that has
      gone back makes everything heard later look stale but for the largest timeouts. */
  lemma StaleIff(p: Peer, now: nat, timeout: nat)
    ensures p.seen <= now ==> (Stale(p, now, timeout) <==> now - p.seen >= timeout)
    ensures p.seen > now ==> (Stale(p, now, timeout) <==> now - p.seen + 0x1_0000_0000_0000_0000 >= timeout)
  {
  }

  lemma {:induction false} SubsequenceMembers(a: seq<Peer>, b: seq<Peer>)
    requires IsSubsequence(a, b)
    ensures forall p :: p in a ==> p in b
  {
    if a != [] {
      if a[0] == b[0] && IsSubsequence(a[1..], b[1..]) {
        SubsequenceMembers(a[1..], b[1..]);
        assert a == [a[0]] + a[1..];
      } else {
        SubsequenceMembers(a, b[1..]);
      }
    }
  }

  /** A key that is there once is at one place. */
  lemma OnePlace(ps: seq<Peer>, i: nat, j: nat)
    requires i < |ps| && j < |ps| && KeyOf(ps[i]) == KeyOf(ps[j]) && Multiplicity(ps, KeyOf(ps[i])) <= 1
    ensures i == j
  {
    hide KeyOf, Multiplicity;
    if i != j {
      var k, rest := KeyOf(ps[i]), Without(ps, i);
      var at := if j < i then j else j - 1;
      assert rest[at] == ps[j];
      MultiplicityWithout(ps, i, k);
      MultiplicityWithout(rest, at, k);
    }
  }

  lemma UpdateSees(t: Table, now: nat, kind: nat, id: nat, a: SockAddr, k: Key, last: nat)
    requires SeenAt(t.peers, k, last) && Multiplicity(t.peers, k) <= 1
    ensures SeenAt(Update(t, now, kind, id, a).peers, k, if KeyFor(kind, id, a) == k then now else last)
  {
    hide Multiplicity, Ip4;
    var ps, ps' := t.peers, Update(t, now, kind, id, a).peers;
    var i := FirstWithKey(ps, KeyFor(kind, id, a));
    forall p | p in ps' && KeyOf(p) == k ensures p.seen == if KeyFor(kind, id, a) == k then now else last {
      var j :| 0 <= j < |ps'| && ps'[j] == p;
      if j != i {
        assert ps[j] in ps;
        if i < |ps| && KeyFor(kind, id, a) == k { OnePlace(ps, i, j); }
      }
    }
  }

  lemma RemoveSees(t: Table, a: SockAddr, k: Key, last: nat)
    requires SeenAt(t.peers, k, last)
    ensures SeenAt(Remove(t, a).peers, k, last)
  {
  }

  lemma EvictSees(t: Table, now: nat, timeout: nat, removals: seq<seq<SockAddr>>, k: Key, last: nat)
    requires SeenAt(t.peers, k, last)
    ensures SeenAt(Evict(t, now, timeout, removals).peers, k, last)
  {
    hide Evict, IsSubsequence, KeyOf, Stale, Named, Multiplicity, Downs;
    HealthCheckOutcome(t, now, timeout, removals);
    SubsequenceMembers(Evict(t, now, timeout, removals).peers, t.peers);
  }

  lemma PerformMatches(t: Table, op: Op)
    requires Matches(t)
    ensures Matches(Perform(t, op))
  {
    hide Matches;
    PerformAllMatches(t, [op]);
    assert [op][1..] == [];
    assert PerformAll(t, [op]) == PerformAll(Perform(t, op), []);
  }

  lemma {:induction false} RunSees(t: Table, ops: seq<Op>, k: Key, last: nat)
    requires Matches(t) && SeenAt(t.peers, k, last)
    ensures SeenAt(PerformAll(t, ops).peers, k, LastHeard(ops, k, last))
    decreases |ops|
  {
    hide Multiplicity, Alternates, IsUp, SeenAt, KeyFor;
    if ops != [] {
      var op := ops[0];
      assert Multiplicity(t.peers, k) <= 1;
      match op {
        case Heard(now, kind, id, addr) => UpdateSees(t, now, kind, id, addr, k, last);
        case Removed(addr) => RemoveSees(t, addr, k, last);
        case Checked(now, timeout, removals) => EvictSees(t, now, timeout, removals, k, last);
      }
      PerformMatches(t, op);
      var heard := op.Heard? && KeyFor(op.kind, op.id, op.addr) == k;
      RunSees(Perform(t, op), ops[1..], k, if heard then op.now else last);
    }
  }

  /** Whatever has been done to the table, each entry carries the time of the last beacon of its key. */
  lemma SeenIsLastHeard(ops: seq<Op>, p: Peer)
    requires p in PerformAll(Table([], []), ops).peers
    ensures p.seen == LastHeard(ops, KeyOf(p), 0)
  {
    hide PerformAll, LastHeard;
    assert Matches(Table([], []));
    RunSees(Table([], []), ops, KeyOf(p), 0);
  }

  /** Type, id and address of the entry come from an entry of the table or a beacon. */
  predicate Known(p: Peer, t: Table, ops: seq<Op>) {
    || (exists q :: q in t.peers && q.kind == p.kind && q.id == p.id && q.addr == p.addr)
    || (exists op :: op in ops && op.Heard? && op.kind == p.kind && op.id == p.id && op.addr == p.addr)
  }

  lemma PerformKnows(t: Table, op: Op, p: Peer)
    requires p in Perform(t, op).peers
    ensures Known(p, t, [op])
  {
    hide Evict, IsSubsequence, KeyOf, KeyFor, Stale, Named, Multiplicity, Downs;
    match op
    case Heard(now, kind, id, addr) =>
      var i := FirstWithKey(t.peers, KeyFor(kind, id, addr));
      var j :| 0 <= j < |Perform(t, op).peers| && Perform(t, op).peers[j] == p;
      if j < |t.peers| { assert t.peers[j] in t.peers; } else { assert op in [op]; }
    case Removed(addr) => assert p in t.peers;
    case Checked(now, timeout, removals) =>
      HealthCheckOutcome(t, now, timeout, removals);
      SubsequenceMembers(Evict(t, now, timeout, removals).peers, t.peers);
  }

  lemma {:induction false} RunKnows(t: Table, ops: seq<Op>, p: Peer)
    requires p in PerformAll(t, ops).peers
    ensures Known(p, t, ops)
    decreases |ops|
  {
    hide Perform;
    if ops != [] {
      RunKnows(Perform(t, ops[0]), ops[1..], p);
      if q :| q in Perform(t, ops[0]).peers && q.kind == p.kind && q.id == p.id && q.addr == p.addr {
        PerformKnows(t, ops[0], q);
      }
    }
  }

  /** Every entry was announced by a beacon with its type and id from its very address. */
  lemma EntryWasHeard(ops: seq<Op>, p: Peer)
    requires p in PerformAll(Table([], []), ops).peers
    ensures exists now :: Heard(now, p.kind, p.id, p.addr) in ops
  {
    RunKnows(Table([], []), ops, p);
    var op :| op in ops && op.Heard? && op.kind == p.kind && op.id == p.id && op.addr == p.addr;
    assert Heard(op.now, p.kind, p.id, p.addr) in ops;
  }

  /** A health check whose callbacks remove nothing keeps exactly the entries of which a
      beacon was heard within the timeout. */
  lemma SilentPeersGoDown(ops: seq<Op>, now: nat, timeout: nat, p: Peer)
    requires p in PerformAll(Table([], []), ops).peers && LastHeard(ops, KeyOf(p), 0) <= now
    ensures p in Evict(PerformAll(Table([], []), ops), now, timeout, []).peers
            <==> now - LastHeard(ops, KeyOf(p), 0) < timeout
  {
    hide PerformAll, LastHeard, KeyOf, Evict, IsSubsequence, Multiplicity, Downs;
    var t := PerformAll(Table([], []), ops);
    SeenIsLastHeard(ops, p);
    StaleIff(p, now, timeout);
    HealthCheckOutcome(t, now, timeout, []);
    hide Stale;
    assert !Named(p, []);
  }
}
