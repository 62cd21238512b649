// The daemon's table of known peers together with the up and down callbacks it
// raises. Each operation is given as a function on values; the lemmas say how the
// table and the callback trace stay in step.
module PeerTable {
  import opened Basics
  import opened BeaconProtocol
  import opened Lists

  /** An address: of an IPv6 one the table can tell the port only, of an IPv4 one
      the port and the high half of the host (get_ip4 copies four bytes starting at the port). */
  datatype SockAddr = V4(port: nat, high: nat, low: nat) | V6(port: nat, host: nat)

  function Ip4(a: SockAddr): nat {
    if a.V4? then a.high * 0x10000 + a.port % 0x10000 else 0
  }

  predicate SameHost(a: SockAddr, b: SockAddr) {
    Ip4(a) == Ip4(b) && a.port == b.port
  }

  /** What distinguishes two peers. */
  datatype Key = Key(kind: nat, id: nat, ip: nat, port: nat)
  datatype Peer = Peer(kind: nat, id: nat, seen: nat, addr: SockAddr)
  datatype Event = Up(kind: nat, id: nat, addr: SockAddr) | Down(kind: nat, id: nat, addr: SockAddr)

  datatype Table = Table(peers: seq<Peer>, trace: seq<Event>)

  function KeyFor(kind: nat, id: nat, a: SockAddr): Key { Key(kind, id, Ip4(a), a.port) }
  function KeyOf(p: Peer): Key { KeyFor(p.kind, p.id, p.addr) }
  function EventKey(e: Event): Key { KeyFor(e.kind, e.id, e.addr) }

  // ---------------------------------------------------------------------
  // The operations
  // ---------------------------------------------------------------------

  /** Where a scan from the front first meets key k. */
  function FirstWithKey(ps: seq<Peer>, k: Key): (i: nat)
    ensures i <= |ps| && (i < |ps| ==> KeyOf(ps[i]) == k)
    ensures forall j :: 0 <= j < i ==> KeyOf(ps[j]) != k
  {
    if ps == [] || KeyOf(ps[0]) == k then 0 else 1 + FirstWithKey(ps[1..], k)
  }

  /** Where a scan from the front first meets an entry of address a. */
  function FirstAt(ps: seq<Peer>, a: SockAddr): (i: nat)
    ensures i <= |ps| && (i < |ps| ==> SameHost(ps[i].addr, a))
    ensures forall j :: 0 <= j < i ==> !SameHost(ps[j].addr, a)
  {
    if ps == [] || SameHost(ps[0].addr, a) then 0 else 1 + FirstAt(ps[1..], a)
  }

  predicate Stale(p: Peer, now: nat, timeout: nat) {
    Elapsed(now, p.seen) >= timeout
  }

  /** Where a scan from the front first meets an entry not heard of for `timeout`. */
  function FirstStale(ps: seq<Peer>, now: nat, timeout: nat): (i: nat)
    ensures i <= |ps| && (i < |ps| ==> Stale(ps[i], now, timeout))
    ensures forall j :: 0 <= j < i ==> !Stale(ps[j], now, timeout)
  {
    if ps == [] || Stale(ps[0], now, timeout) then 0 else 1 + FirstStale(ps[1..], now, timeout)
  }

  /** service_update */
  function Update(t: Table, now: nat, kind: nat, id: nat, a: SockAddr): Table {
    var i := FirstWithKey(t.peers, KeyFor(kind, id, a));
    if i < |t.peers| then t.(peers := t.peers[i := t.peers[i].(seen := now)])
    else Table(t.peers + [Peer(kind, id, now, a)], t.trace + [Up(kind, id, a)])
  }

  /** service_remove */
  function Remove(t: Table, a: SockAddr): Table {
    var i := FirstAt(t.peers, a);
    if i < |t.peers| then Table(Without(t.peers, i), t.trace + [Down(t.peers[i].kind, t.peers[i].id, a)])
    else t
  }

  function RemoveAll(t: Table, addrs: seq<SockAddr>): Table
    decreases |addrs|
  {
    if addrs == [] then t else RemoveAll(Remove(t, addrs[0]), addrs[1..])
  }

  /** What happens when the entry at i is evicted and its peer-down callback removes the peers at `addrs`. */
  function EvictAt(t: Table, i: nat, addrs: seq<SockAddr>): Table
    requires i < |t.peers|
  {
    var p := t.peers[i];
    RemoveAll(Table(Without(t.peers, i), t.trace + [Down(p.kind, p.id, p.addr)]), addrs)
  }

  lemma {:induction false} RemoveAllShrinks(t: Table, addrs: seq<SockAddr>)
    ensures |RemoveAll(t, addrs).peers| <= |t.peers|
    decreases addrs
  {
    if addrs != [] {
      RemoveAllShrinks(Remove(t, addrs[0]), addrs[1..]);
    }
  }

  function Head(removals: seq<seq<SockAddr>>): seq<SockAddr> { if removals == [] then [] else removals[0] }
  function Tail(removals: seq<seq<SockAddr>>): seq<seq<SockAddr>> { if removals == [] then [] else removals[1..] }

  /** service_healthcheck. `removals[n]` are the addresses that the n-th eviction's
      callback passes to remove_peer, directly or from callbacks nested in it. */
  function Evict(t: Table, now: nat, timeout: nat, removals: seq<seq<SockAddr>>): Table
    decreases |t.peers|
  {
    var i := FirstStale(t.peers, now, timeout);
    if i == |t.peers| then t
    else
      var p := t.peers[i];
      RemoveAllShrinks(Table(Without(t.peers, i), t.trace + [Down(p.kind, p.id, p.addr)]), Head(removals));
      Evict(EvictAt(t, i, Head(removals)), now, timeout, Tail(removals))
  }

  // ---------------------------------------------------------------------
  // The table and its events
  // ---------------------------------------------------------------------

  function Multiplicity(ps: seq<Peer>, k: Key): nat {
    if ps == [] then 0 else (if KeyOf(ps[0]) == k then 1 else 0) + Multiplicity(ps[1..], k)
  }

  /** The last event about k is an up. */
  predicate IsUp(trace: seq<Event>, k: Key) {
    trace != [] && var e := trace[|trace| - 1];
    if EventKey(e) == k then e.Up? else IsUp(trace[..|trace| - 1], k)
  }

  /** The events about k go up, down, up, down, ... */
  predicate Alternates(trace: seq<Event>, k: Key) {
    trace != [] ==>
      var e, before := trace[|trace| - 1], trace[..|trace| - 1];
      Alternates(before, k) && (EventKey(e) == k ==> (e.Up? <==> !IsUp(before, k)))
  }

  function Ups(trace: seq<Event>, k: Key): nat {
    if trace == [] then 0
    else var e := trace[|trace| - 1]; Ups(trace[..|trace| - 1], k) + if e.Up? && EventKey(e) == k then 1 else 0
  }

  function Downs(trace: seq<Event>, k: Key): nat {
    if trace == [] then 0
    else var e := trace[|trace| - 1]; Downs(trace[..|trace| - 1], k) + if e.Down? && EventKey(e) == k then 1 else 0
  }

  /** For every key, the events alternate, and the table holds the key once if it is up and not at all if it is down. */
  ghost predicate Matches(t: Table) {
    forall k :: Alternates(t.trace, k) && Multiplicity(t.peers, k) == if IsUp(t.trace, k) then 1 else 0
  }

  lemma {:induction false} MultiplicitySplit(a: seq<Peer>, b: seq<Peer>, k: Key)
    ensures Multiplicity(a + b, k) == Multiplicity(a, k) + Multiplicity(b, k)
  {
    if a == [] {
      assert a + b == b;
    } else {
      assert (a + b)[1..] == a[1..] + b;
      MultiplicitySplit(a[1..], b, k);
    }
  }

  lemma MultiplicityWithout(ps: seq<Peer>, i: nat, k: Key)
    requires i < |ps|
    ensures Multiplicity(ps, k) == Multiplicity(Without(ps, i), k) + if KeyOf(ps[i]) == k then 1 else 0
  {
    assert ps == ps[..i] + ([ps[i]] + ps[i + 1..]);
    MultiplicitySplit(ps[..i], [ps[i]] + ps[i + 1..], k);
    MultiplicitySplit([ps[i]], ps[i + 1..], k);
    MultiplicitySplit(ps[..i], ps[i + 1..], k);
  }

  lemma {:induction false} AbsentIsZero(ps: seq<Peer>, k: Key)
    requires forall j :: 0 <= j < |ps| ==> KeyOf(ps[j]) != k
    ensures Multiplicity(ps, k) == 0
  {
    if ps != [] {
      AbsentIsZero(ps[1..], k);
    }
  }

  lemma TraceSnoc(trace: seq<Event>, e: Event, k: Key)
    ensures IsUp(trace + [e], k) <==> if EventKey(e) == k then e.Up? else IsUp(trace, k)
    ensures Alternates(trace + [e], k) <==> Alternates(trace, k) && (EventKey(e) == k ==> (e.Up? <==> !IsUp(trace, k)))
  {
    assert (trace + [e])[..|trace|] == trace;
  }

  /** Hearing of a peer keeps table and events in step. */
  lemma UpdateMatches(t: Table, now: nat, kind: nat, id: nat, a: SockAddr)
    requires Matches(t)
    ensures Matches(Update(t, now, kind, id, a))
  {
    var t' := Update(t, now, kind, id, a);
    var key := KeyFor(kind, id, a);
    var i := FirstWithKey(t.peers, key);
    forall k ensures Alternates(t'.trace, k) && Multiplicity(t'.peers, k) == if IsUp(t'.trace, k) then 1 else 0 {
      if i < |t.peers| {
        MultiplicityWithout(t.peers, i, k);
        MultiplicityWithout(t'.peers, i, k);
        assert Without(t.peers, i) == Without(t'.peers, i);
      } else {
        AbsentIsZero(t.peers, key);
        TraceSnoc(t.trace, Up(kind, id, a), k);
        MultiplicitySplit(t.peers, [Peer(kind, id, now, a)], k);
      }
    }
  }

  /** Dropping one entry and reporting it down keeps table and events in step. */
  lemma DropMatches(t: Table, i: nat, e: Event)
    requires Matches(t) && i < |t.peers| && e.Down? && EventKey(e) == KeyOf(t.peers[i])
    ensures Matches(Table(Without(t.peers, i), t.trace + [e]))
  {
    forall k ensures Alternates(t.trace + [e], k)
                  && Multiplicity(Without(t.peers, i), k) == if IsUp(t.trace + [e], k) then 1 else 0
    {
      MultiplicityWithout(t.peers, i, k);
      TraceSnoc(t.trace, e, k);
    }
  }

  lemma RemoveMatches(t: Table, a: SockAddr)
    requires Matches(t)
    ensures Matches(Remove(t, a))
  {
    var i := FirstAt(t.peers, a);
    if i < |t.peers| {
      DropMatches(t, i, Down(t.peers[i].kind, t.peers[i].id, a));
    }
  }

  lemma {:induction false} RemoveAllMatches(t: Table, addrs: seq<SockAddr>)
    requires Matches(t)
    ensures Matches(RemoveAll(t, addrs))
    decreases addrs
  {
    if addrs != [] {
      RemoveMatches(t, addrs[0]);
      RemoveAllMatches(Remove(t, addrs[0]), addrs[1..]);
    }
  }

  /** A health check keeps table and events in step, whatever peers its callbacks remove. */
  lemma {:induction false} EvictMatches(t: Table, now: nat, timeout: nat, removals: seq<seq<SockAddr>>)
    requires Matches(t)
    ensures Matches(Evict(t, now, timeout, removals))
    decreases |t.peers|
  {
    var i := FirstStale(t.peers, now, timeout);
    if i < |t.peers| {
      var p := t.peers[i];
      var dropped := Table(Without(t.peers, i), t.trace + [Down(p.kind, p.id, p.addr)]);
      DropMatches(t, i, Down(p.kind, p.id, p.addr));
      RemoveAllMatches(dropped, Head(removals));
      RemoveAllShrinks(dropped, Head(removals));
      EvictMatches(EvictAt(t, i, Head(removals)), now, timeout, Tail(removals));
    }
  }

  lemma {:induction false} AlternationCounts(trace: seq<Event>, k: Key)
    requires Alternates(trace, k)
    ensures Ups(trace, k) == Downs(trace, k) + if IsUp(trace, k) then 1 else 0
  {
    if trace != [] {
      AlternationCounts(trace[..|trace| - 1], k);
    }
  }

  /** What an application may do to the table: every table operation, one at a time. */
  datatype Op =
    | Heard(now: nat, kind: nat, id: nat, addr: SockAddr)
    | Removed(addr: SockAddr)
    | Checked(now: nat, timeout: nat, removals: seq<seq<SockAddr>>)

  function Perform(t: Table, op: Op): Table {
    match op
    case Heard(now, kind, id, addr) => Update(t, now, kind, id, addr)
    case Removed(addr) => Remove(t, addr)
    case Checked(now, timeout, removals) => Evict(t, now, timeout, removals)
  }

  function PerformAll(t: Table, ops: seq<Op>): Table
    decreases |ops|
  {
    if ops == [] then t else PerformAll(Perform(t, ops[0]), ops[1..])
  }

  lemma {:induction false} PerformAllMatches(t: Table, ops: seq<Op>)
    requires Matches(t)
    ensures Matches(PerformAll(t, ops))
    decreases ops
  {
    if ops != [] {
      match ops[0] {
        case Heard(now, kind, id, addr) => UpdateMatches(t, now, kind, id, addr);
        case Removed(addr) => RemoveMatches(t, addr);
        case Checked(now, timeout, removals) => EvictMatches(t, now, timeout, removals);
      }
      PerformAllMatches(Perform(t, ops[0]), ops[1..]);
    }
  }

  /** Over any run from an empty table: for every key the ups minus the downs are
      its multiplicity in the table, which is never more than one, and ups and
      downs alternate starting with an up. */
  lemma TableMatchesEvents(ops: seq<Op>, k: Key)
    ensures var t := PerformAll(Table([], []), ops);
            && Ups(t.trace, k) - Downs(t.trace, k) == Multiplicity(t.peers, k) <= 1
            && Alternates(t.trace, k)
  {
    assert Matches(Table([], []));
    PerformAllMatches(Table([], []), ops);
    AlternationCounts(PerformAll(Table([], []), ops).trace, k);
  }

  // ---------------------------------------------------------------------
  // Hosts that the table cannot tell apart
  // ---------------------------------------------------------------------

  /** Two IPv4 hosts are one to the table if their ports and the high halves of their
      addresses agree, two IPv6 hosts if their ports do. */
  lemma SameHostIff(a: SockAddr, b: SockAddr)
    ensures a.V4? && b.V4? ==> (SameHost(a, b) <==> a.port == b.port && a.high == b.high)
    ensures a.V6? && b.V6? ==> (SameHost(a, b) <==> a.port == b.port)
  {
  }

  /** The entry that service_remove drops when told to drop a. */
  function Victim(ps: seq<Peer>, a: SockAddr): Option<Peer> {
    if FirstAt(ps, a) < |ps| then Some(ps[FirstAt(ps, a)]) else None
  }

  /** service_remove drops its victim alone, and reports it down at the address asked for. */
  lemma RemoveDropsVictim(t: Table, a: SockAddr)
    ensures match Victim(t.peers, a)
            case None => Remove(t, a) == t
            case Some(p) => exists i :: 0 <= i < |t.peers| && t.peers[i] == p
                                        && Remove(t, a) == Table(Without(t.peers, i), t.trace + [Down(p.kind, p.id, a)])
  {
  }

  /** For every table and every address, in the table or not: the entry dropped is of
      another address exactly when some entry looks like the one asked for and none up
      to there is of that address; and nothing is dropped exactly when no entry looks like it. */
  lemma RemoveHitsIff(t: Table, a: SockAddr)
    ensures Victim(t.peers, a).Some? && Victim(t.peers, a).value.addr != a
            <==> exists j :: 0 <= j < |t.peers| && SameHost(t.peers[j].addr, a)
                             && forall i :: 0 <= i <= j ==> t.peers[i].addr != a
    ensures Victim(t.peers, a).None? <==> forall p :: p in t.peers ==> !SameHost(p.addr, a)
  {
    var k := FirstAt(t.peers, a);
    if k < |t.peers| && t.peers[k].addr != a {
      assert SameHost(t.peers[k].addr, a) && forall i :: 0 <= i <= k ==> t.peers[i].addr != a;
    }
    if k < |t.peers| {
      assert t.peers[k] in t.peers;
    } else {
      forall p | p in t.peers ensures !SameHost(p.addr, a) {
        var j :| 0 <= j < |t.peers| && t.peers[j] == p;
      }
    }
  }

  /** Another address that the table cannot tell from this one. */
  function LookAlike(a: SockAddr): (b: SockAddr)
    ensures b != a && SameHost(a, b)
  {
    match a
    case V4(port, high, low) => V4(port, high, low + 1)
    case V6(port, host) => V6(port, host + 1)
  }

  /** Only the empty table is safe: in any other some address makes service_remove drop
      the entry of another host. */
  lemma OnlyEmptyIsSafe(t: Table)
    ensures (forall a: SockAddr :: Victim(t.peers, a).Some? ==> Victim(t.peers, a).value.addr == a) <==> t.peers == []
  {
    if t.peers != [] {
      var a := LookAlike(t.peers[0].addr);
      assert FirstAt(t.peers, a) == 0;
      assert Victim(t.peers, a) == Some(t.peers[0]);
    }
  }

  /** An address that no peer has: removing it drops the peer of another host. */
  lemma AbsentPeerRemoved(kind: nat, id: nat)
    ensures Remove(Table([Peer(kind, id, 0, V4(80, 1, 1))], []), V4(80, 1, 2))
            == Table([], [Down(kind, id, V4(80, 1, 2))])
  {
    var ps := [Peer(kind, id, 0, V4(80, 1, 1))];
    assert FirstAt(ps, V4(80, 1, 2)) == 0 && Without(ps, 0) == [];
  }

  /** With peers at two hosts of one /16 network on the same port, removing the second
      drops the first, and reports the first one's type and id down at the second address. */
  lemma WrongPeerRemoved(kind: nat, id: nat, kind': nat, id': nat)
    ensures var near, far := V4(80, 1, 1), V4(80, 1, 2);
            var t := Table([Peer(kind, id, 0, near), Peer(kind', id', 0, far)], []);
            Remove(t, far) == Table([Peer(kind', id', 0, far)], [Down(kind, id, far)])
  {
    var t := Table([Peer(kind, id, 0, V4(80, 1, 1)), Peer(kind', id', 0, V4(80, 1, 2))], []);
    assert FirstAt(t.peers, V4(80, 1, 2)) == 0;
    assert Without(t.peers, 0) == [Peer(kind', id', 0, V4(80, 1, 2))];
  }

  // ---------------------------------------------------------------------
  // What a health check leaves
  // ---------------------------------------------------------------------

  predicate IsSubsequence(a: seq<Peer>, b: seq<Peer>) {
    a == [] || (b != [] && ((a[0] == b[0] && IsSubsequence(a[1..], b[1..])) || IsSubsequence(a, b[1..])))
  }

  lemma {:induction false} SubsequenceSelf(a: seq<Peer>)
    ensures IsSubsequence(a, a)
  {
    if a != [] { SubsequenceSelf(a[1..]); }
  }

  lemma {:induction false} SubsequenceTrans(a: seq<Peer>, b: seq<Peer>, c: seq<Peer>)
    requires IsSubsequence(a, b) && IsSubsequence(b, c)
    ensures IsSubsequence(a, c)
    decreases |c|
  {
    if a != [] {
      if IsSubsequence(b, c[1..]) {
        SubsequenceTrans(a, b, c[1..]);
      } else if a[0] == b[0] && IsSubsequence(a[1..], b[1..]) {
        SubsequenceTrans(a[1..], b[1..], c[1..]);
      } else {
        SubsequenceTrans(a, b[1..], c[1..]);
      }
    }
  }

  lemma {:induction false} WithoutIsSubsequence(ps: seq<Peer>, i: nat)
    requires i < |ps|
    ensures IsSubsequence(Without(ps, i), ps)
  {
    if i == 0 {
      assert Without(ps, 0) == ps[1..];
      SubsequenceSelf(ps[1..]);
    } else {
      assert Without(ps, i)[1..] == Without(ps[1..], i - 1);
      WithoutIsSubsequence(ps[1..], i - 1);
    }
  }

  /** The address of p is among those passed to remove_peer. */
  predicate Named(p: Peer, removals: seq<seq<SockAddr>>) {
    exists r, a :: r in removals && a in r && SameHost(p.addr, a)
  }

  /** t' came from t by dropping entries, each with one peer-down event of its own key,
      in any order; every entry that `keep` protects is still there. */
  ghost predicate Dropped(t: Table, t': Table, keep: Peer -> bool) {
    && IsSubsequence(t'.peers, t.peers)
    && t.trace <= t'.trace && |t'.trace| - |t.trace| == |t.peers| - |t'.peers|
    && (forall j :: |t.trace| <= j < |t'.trace| ==> t'.trace[j].Down?)
    && (forall p :: p in t.peers && keep(p) ==> p in t'.peers)
    && SameSum(t, t')
  }

  /** For every key: as many down events are new as entries are gone. */
  ghost predicate SameSum(t: Table, t': Table) {
    forall k :: Multiplicity(t.peers, k) + Downs(t.trace, k) == Multiplicity(t'.peers, k) + Downs(t'.trace, k)
  }

  lemma DownsSnoc(trace: seq<Event>, e: Event, k: Key)
    ensures Downs(trace + [e], k) == Downs(trace, k) + if e.Down? && EventKey(e) == k then 1 else 0
  {
    assert (trace + [e])[..|trace|] == trace;
  }

  lemma DroppedTrans(a: Table, b: Table, c: Table, keep: Peer -> bool)
    requires Dropped(a, b, keep) && Dropped(b, c, keep)
    ensures Dropped(a, c, keep)
  {
    SubsequenceTrans(c.peers, b.peers, a.peers);
    forall j | |a.trace| <= j < |c.trace| ensures c.trace[j].Down? {
      if j < |b.trace| { assert c.trace[j] == b.trace[j]; }
    }
  }

  lemma DropOne(t: Table, i: nat, e: Event, keep: Peer -> bool)
    requires i < |t.peers| && e.Down? && EventKey(e) == KeyOf(t.peers[i]) && !keep(t.peers[i])
    ensures Dropped(t, Table(Without(t.peers, i), t.trace + [e]), keep)
  {
    WithoutIsSubsequence(t.peers, i);
    var t' := Table(Without(t.peers, i), t.trace + [e]);
    forall p | p in t.peers && keep(p) ensures p in t'.peers {
      var j :| 0 <= j < |t.peers| && t.peers[j] == p;
      assert t'.peers[if j < i then j else j - 1] == p;
    }
    forall k ensures Multiplicity(t.peers, k) + Downs(t.trace, k) == Multiplicity(t'.peers, k) + Downs(t'.trace, k) {
      MultiplicityWithout(t.peers, i, k);
      DownsSnoc(t.trace, e, k);
    }
  }

  lemma {:induction false} RemoveAllDropped(t: Table, addrs: seq<SockAddr>, keep: Peer -> bool)
    requires forall p: Peer, a :: a in addrs && SameHost(p.addr, a) ==> !keep(p)
    ensures Dropped(t, RemoveAll(t, addrs), keep)
    decreases addrs
  {
    SubsequenceSelf(t.peers);
    if addrs != [] {
      var t1 := Remove(t, addrs[0]);
      var i := FirstAt(t.peers, addrs[0]);
      if i < |t.peers| {
        assert addrs[0] in addrs && SameHost(t.peers[i].addr, addrs[0]);
        DropOne(t, i, Down(t.peers[i].kind, t.peers[i].id, addrs[0]), keep);
      }
      assert forall a :: a in addrs[1..] ==> a in addrs;
      RemoveAllDropped(t1, addrs[1..], keep);
      DroppedTrans(t, t1, RemoveAll(t, addrs), keep);
    }
  }

  lemma {:induction false} EvictDropped(t: Table, now: nat, timeout: nat, removals: seq<seq<SockAddr>>,
                                        keep: Peer -> bool)
    requires forall p: Peer :: keep(p) ==> !Stale(p, now, timeout)
    requires forall p: Peer, r, a :: r in removals && a in r && SameHost(p.addr, a) ==> !keep(p)
    ensures Dropped(t, Evict(t, now, timeout, removals), keep)
    ensures forall p :: p in Evict(t, now, timeout, removals).peers ==> !Stale(p, now, timeout)
    decreases |t.peers|
  {
    SubsequenceSelf(t.peers);
    var i := FirstStale(t.peers, now, timeout);
    if i < |t.peers| {
      var p := t.peers[i];
      var t1 := Table(Without(t.peers, i), t.trace + [Down(p.kind, p.id, p.addr)]);
      var t2 := EvictAt(t, i, Head(removals));
      DropOne(t, i, Down(p.kind, p.id, p.addr), keep);
      RemoveAllDropped(t1, Head(removals), keep);
      RemoveAllShrinks(t1, Head(removals));
      DroppedTrans(t, t1, t2, keep);
      EvictDropped(t2, now, timeout, Tail(removals), keep);
      DroppedTrans(t, t2, Evict(t, now, timeout, removals), keep);
    }
  }

  /** A health check leaves no stale entry, keeps every fresh one that its
      callbacks do not name, keeps the order of the survivors, and raises exactly
      one peer-down for each entry that goes, of the same type, id, host and port. */
  lemma HealthCheckOutcome(t: Table, now: nat, timeout: nat, removals: seq<seq<SockAddr>>)
    ensures var t' := Evict(t, now, timeout, removals);
            && (forall p :: p in t'.peers ==> !Stale(p, now, timeout))
            && (forall p :: p in t.peers && !Stale(p, now, timeout) && !Named(p, removals) ==> p in t'.peers)
            && IsSubsequence(t'.peers, t.peers)
            && t.trace <= t'.trace && |t'.trace| - |t.trace| == |t.peers| - |t'.peers|
            && (forall j :: |t.trace| <= j < |t'.trace| ==> t'.trace[j].Down?)
            && (forall k :: Downs(t'.trace, k) - Downs(t.trace, k)
                            == Multiplicity(t.peers, k) - Multiplicity(t'.peers, k))
  {
    EvictDropped(t, now, timeout, removals, (p: Peer) => !Stale(p, now, timeout) && !Named(p, removals));
  }

  function FreshOnly(ps: seq<Peer>, now: nat, timeout: nat): seq<Peer> {
    if ps == [] then []
    else (if Stale(ps[0], now, timeout) then [] else [ps[0]]) + FreshOnly(ps[1..], now, timeout)
  }

  /** The peer-downs of the stale entries, in table order. */
  function StaleDowns(ps: seq<Peer>, now: nat, timeout: nat): seq<Event> {
    if ps == [] then []
    else (if Stale(ps[0], now, timeout) then [Down(ps[0].kind, ps[0].id, ps[0].addr)] else [])
         + StaleDowns(ps[1..], now, timeout)
  }

  lemma {:induction false} FreshOnlySkips(ps: seq<Peer>, i: nat, now: nat, timeout: nat)
    requires i < |ps| && Stale(ps[i], now, timeout) && forall j :: 0 <= j < i ==> !Stale(ps[j], now, timeout)
    ensures FreshOnly(Without(ps, i), now, timeout) == FreshOnly(ps, now, timeout)
    ensures StaleDowns(ps, now, timeout)
            == [Down(ps[i].kind, ps[i].id, ps[i].addr)] + StaleDowns(Without(ps, i), now, timeout)
  {
    if i == 0 {
      assert Without(ps, 0) == ps[1..];
    } else {
      assert Without(ps, i)[1..] == Without(ps[1..], i - 1);
      FreshOnlySkips(ps[1..], i - 1, now, timeout);
    }
  }

  lemma {:induction false} AllFresh(ps: seq<Peer>, now: nat, timeout: nat)
    requires forall j :: 0 <= j < |ps| ==> !Stale(ps[j], now, timeout)
    ensures FreshOnly(ps, now, timeout) == ps && StaleDowns(ps, now, timeout) == []
  {
    if ps != [] {
      AllFresh(ps[1..], now, timeout);
      assert [ps[0]] + ps[1..] == ps;
    }
  }

  /** When callbacks remove nothing, the restarting scan is a plain filter. */
  lemma {:induction false} QuietHealthCheck(t: Table, now: nat, timeout: nat)
    ensures Evict(t, now, timeout, [])
            == Table(FreshOnly(t.peers, now, timeout), t.trace + StaleDowns(t.peers, now, timeout))
    decreases |t.peers|
  {
    var i := FirstStale(t.peers, now, timeout);
    if i == |t.peers| {
      AllFresh(t.peers, now, timeout);
      assert t.trace + [] == t.trace;
    } else {
      FreshOnlySkips(t.peers, i, now, timeout);
      var p := t.peers[i];
      var t1 := Table(Without(t.peers, i), t.trace + [Down(p.kind, p.id, p.addr)]);
      QuietHealthCheck(t1, now, timeout);
      assert t1.trace + StaleDowns(t1.peers, now, timeout) == t.trace + StaleDowns(t.peers, now, timeout);
    }
  }
}
