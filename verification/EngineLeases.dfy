// The load balancer's books: what has been retained and not released is what the
// engine still holds.
module EngineLeases {
  import opened Basics
  import opened NetEngine
  import opened EngineSystem
  import opened EngineOwnership
  import opened EngineStory
  import opened Lists
  import LoadBalancer

  /** Of which connections the leases are counted. */
  datatype Which = Ever | Returned | Current

  predicate Counts(m: Member, which: Which) {
    && m.kind != Listener
    && match which
       case Ever => m.place != Hands && m.place != Dropped
       case Returned => m.place == Reaped
       case Current => m.place != Hands && m.place != Dropped && m.place != Reaped
  }

  function One(id: Id, m: Member, which: Which): multiset<Lease> {
    if Counts(m, which) then multiset{Lease(id, m.hash)} else multiset{}
  }

  function Leases(members: seq<Member>, which: Which): multiset<Lease> {
    if members == [] then multiset{}
    else Leases(members[..|members| - 1], which) + One(|members| - 1, members[|members| - 1], which)
  }

  /** Every retain was made once for each connection handed over, and every release
      for each that a worker has reaped, both with the hash of that connection. */
  ghost predicate Balanced(s: System) {
    multiset(s.retains) == Leases(s.members, Ever) && multiset(s.releases) == Leases(s.members, Returned)
  }

  lemma LeasesAdd(members: seq<Member>, m: Member, which: Which)
    ensures Leases(members + [m], which) == Leases(members, which) + One(|members|, m, which)
  {
    assert (members + [m])[..|members|] == members;
  }

  lemma Exchange(a: multiset<Lease>, b: multiset<Lease>, c: multiset<Lease>, d: multiset<Lease>, e: multiset<Lease>)
    requires a + b == c + d
    ensures (a + e) + b == (c + e) + d
  {
    forall x ensures ((a + e) + b)[x] == ((c + e) + d)[x]
    {
      assert (a + b)[x] == (c + d)[x];
    }
  }

  lemma {:induction false} LeasesUpdate(members: seq<Member>, id: Id, m: Member, which: Which)
    requires id < |members|
    ensures Leases(members[id := m], which) + One(id, members[id], which) == Leases(members, which) + One(id, m, which)
    decreases |members|
  {
    hide One;
    var n := |members| - 1;
    var init := members[..n];
    if id < n {
      LeasesUpdate(init, id, m, which);
      assert members[id := m][..n] == init[id := m];
      Exchange(Leases(init[id := m], which), One(id, members[id], which), Leases(init, which), One(id, m, which),
               One(n, members[n], which));
    } else {
      assert members[id := m][..n] == init;
    }
  }

  /** A connection that keeps its hash either counts as before or starts to count. */
  lemma LeasesStep(members: seq<Member>, id: Id, m: Member, which: Which)
    requires id < |members| && m.hash == members[id].hash && (Counts(members[id], which) ==> Counts(m, which))
    ensures Leases(members[id := m], which)
            == if Counts(members[id], which) || !Counts(m, which) then Leases(members, which)
               else Leases(members, which) + multiset{Lease(id, m.hash)}
  {
    hide Leases;
    LeasesUpdate(members, id, m, which);
    var after, before := Leases(members[id := m], which), Leases(members, which);
    if Counts(members[id], which) || !Counts(m, which) {
      forall x ensures after[x] == before[x]
      {
        assert (after + One(id, members[id], which))[x] == (before + One(id, m, which))[x];
      }
    }
  }

  lemma {:induction false} EverIsReturnedAndCurrent(members: seq<Member>)
    ensures Leases(members, Ever) == Leases(members, Returned) + Leases(members, Current)
  {
    if members != [] {
      EverIsReturnedAndCurrent(members[..|members| - 1]);
    }
  }

  /** A step that makes a connection writes nothing in the books. */
  lemma NewOwesNothing(s: System, step: Step)
    requires Enabled(s, step) && |Apply(s, step).members| > |s.members|
    ensures var t := Apply(s, step);
            && t.members == s.members + [t.members[|s.members|]]
            && !Counts(t.members[|s.members|], Ever) && !Counts(t.members[|s.members|], Returned)
            && t.retains == s.retains && t.releases == s.releases
  {
    hide Handle, NetEngine.Visit, AcceptedConn, CloseTimes, Register, Without, Over;
  }

  /** `log` with an entry for the connection if it has just started to count. */
  function Entered(log: seq<Lease>, id: Id, m: Member, d: Member, which: Which): seq<Lease> {
    if Counts(d, which) && !Counts(m, which) then log + [Lease(id, m.hash)] else log
  }

  /** Any other step writes down what happens to its connection. */
  lemma StepEnters(s: System, step: Step)
    requires Placed(s) && AllTold(s) && Enabled(s, step) && Subject(s, step) < |s.members|
    ensures var t, id := Apply(s, step), Subject(s, step);
            && |t.members| == |s.members|
            && var m, d := s.members[id], t.members[id];
            && t.members == s.members[id := d] && d.hash == m.hash
            && (Counts(m, Ever) ==> Counts(d, Ever)) && (Counts(m, Returned) ==> Counts(d, Returned))
            && t.retains == Entered(s.retains, id, m, d, Ever)
            && t.releases == Entered(s.releases, id, m, d, Returned)
  {
    hide Handle, NetEngine.Visit, AcceptedConn, CloseTimes, Register, Without, Told, Over;
    TellsHands(s, Subject(s, step));
  }

  lemma BooksStayRight(members: seq<Member>, log: seq<Lease>, id: Id, d: Member, which: Which)
    requires id < |members| && d.hash == members[id].hash && (Counts(members[id], which) ==> Counts(d, which))
    requires multiset(log) == Leases(members, which)
    ensures multiset(Entered(log, id, members[id], d, which)) == Leases(members[id := d], which)
  {
    hide Leases, Counts;
    LeasesStep(members, id, d, which);
  }

  lemma NothingEntered(s: System, step: Step)
    requires Enabled(s, step) && Subject(s, step) >= |s.members| && |Apply(s, step).members| == |s.members|
    ensures var t := Apply(s, step); t.members == s.members && t.retains == s.retains && t.releases == s.releases
  {
    hide Handle, NetEngine.Visit, AcceptedConn, CloseTimes, Register, Without;
  }

  lemma StepKeepsBalance(s: System, step: Step)
    requires Placed(s) && AllTold(s) && Balanced(s) && Enabled(s, step)
    ensures Balanced(Apply(s, step))
  {
    hide Apply, Enabled, Leases, Counts, Placed, AllTold, Subject;
    var t, id := Apply(s, step), Subject(s, step);
    OthersStay(s, step);
    if |t.members| > |s.members| {
      NewOwesNothing(s, step);
      LeasesAdd(s.members, t.members[|s.members|], Ever);
      LeasesAdd(s.members, t.members[|s.members|], Returned);
    } else if id < |s.members| {
      StepEnters(s, step);
      BooksStayRight(s.members, s.retains, id, t.members[id], Ever);
      BooksStayRight(s.members, s.releases, id, t.members[id], Returned);
    } else {
      NothingEntered(s, step);
    }
  }

  lemma TellsHands(s: System, id: Id)
    requires AllTold(s) && id < |s.members|
    ensures s.members[id].place == Hands ==> s.members[id].kind != Listener
    ensures s.members[id].place.Listed? && s.members[id].place.worker > 0 ==> s.members[id].kind != Listener
  {
  }

  /** Retains are releases plus the connections in transit, queued, listed or killed at shutdown. */
  lemma BalanceIsCurrent(s: System)
    requires Balanced(s)
    ensures multiset(s.retains) == multiset(s.releases) + Leases(s.members, Current)
    ensures |s.retains| - |s.releases| == |Leases(s.members, Current)|
    ensures multiset(s.releases) <= multiset(s.retains)
  {
    EverIsReturnedAndCurrent(s.members);
    assert |multiset(s.retains)| == |s.retains| && |multiset(s.releases)| == |s.releases|;
  }

  /** Until its counter wraps the round-robin balancer names a worker, so the inbox exists. */
  lemma RoundRobinNamesAWorker(s: System, i: nat)
    requires AllPlaces(s) && 1 <= s.workers <= MAX_WORKER && At(s, Hands, i)
    requires |s.retains| < INT_MAX
    ensures var lb := LoadBalancer.Answer(1, s.workers, |s.retains|);
            lb >= 0 && Enabled(s, Retain(i, lb)) && Inbox(lb) in s.boxes
  {
    LoadBalancer.InRangeBeforeWrap(1, s.workers, |s.retains|);
  }
}
