// Every connection is in exactly one place: one queue, one list, one thread's hands,
// or deleted once.
module EngineOwnership {
  import opened TcpStream
  import opened NetEngine
  import opened EngineSystem
  import opened Lists

  /** The boxes agree with what the members say of their place. */
  ghost predicate Placed(s: System) {
    && (forall p, i :: p in s.boxes && 0 <= i < |s.boxes[p]| ==>
          s.boxes[p][i] < |s.members| && s.members[s.boxes[p][i]].place == p)
    && (forall p :: p in s.boxes ==> Distinct(s.boxes[p]))
    && (forall id :: 0 <= id < |s.members| ==>
          s.members[id].place in s.boxes && id in s.boxes[s.members[id].place])
  }

  ghost predicate Shaped(s: System) {
    AllPlaces(s) && forall p: Place :: p in s.boxes <==> IsPlace(p, s.workers)
  }

  lemma AddKeepsPlaces(s: System, m: Member)
    requires Placed(s) && m.place in s.boxes
    ensures Placed(Add(s, m))
  {
    var t := Add(s, m);
    forall id | 0 <= id < |t.members|
      ensures t.members[id].place in t.boxes && id in t.boxes[t.members[id].place]
    {
      var p := t.members[id].place;
      if id < |s.members| {
        assert id in s.boxes[p];
      } else {
        assert t.boxes[p][|t.boxes[p]| - 1] == id;
      }
    }
  }

  lemma MoveKeepsPlaces(s: System, p: Place, i: nat, m: Member)
    requires Placed(s) && At(s, p, i) && m.place in s.boxes && m.place != p
    ensures Placed(Move(s, p, i, m))
  {
    hide Without;
    var t, id := Move(s, p, i, m), s.boxes[p][i];
    WithoutIs(s.boxes[p], i);
    assert id !in s.boxes[m.place];
    forall q, j | q in t.boxes && 0 <= j < |t.boxes[q]|
      ensures t.boxes[q][j] < |t.members| && t.members[t.boxes[q][j]].place == q
    {
      if q == p {
        assert t.boxes[q][j] in Without(s.boxes[p], i);
      }
    }
    forall k | 0 <= k < |t.members|
      ensures t.members[k].place in t.boxes && k in t.boxes[t.members[k].place]
    {
      if k == id {
        assert t.boxes[m.place][|t.boxes[m.place]| - 1] == id;
      } else {
        assert k in s.boxes[s.members[k].place];
      }
    }
  }

  lemma UpdateKeepsPlaces(s: System, id: Id, c: Conn)
    requires Placed(s) && id < |s.members|
    ensures Placed(Update(s, id, c))
  {
    var t := Update(s, id, c);
    assert forall k :: 0 <= k < |t.members| ==> t.members[k].place == s.members[k].place;
  }

  /** No step loses a connection, or puts one in two places. */
  lemma StepKeepsPlaces(s: System, step: Step)
    requires Placed(s) && Enabled(s, step)
    ensures Placed(Apply(s, step))
  {
    hide Placed, Add, Move, Update, Handle, NetEngine.Visit, AcceptedConn, CloseTimes, Register;
    match step
    case Listen(ok) =>
      AddKeepsPlaces(s, if ok then Member(Listener, 0, 0, Posting, NEW.(state := Listening))
                        else Member(Listener, 0, 0, Dropped, NEW));
    case Connect(ok, hash, state, atime) =>
      AddKeepsPlaces(s, if ok then Member(Outgoing, 0, hash, Hands, NEW.(state := state, atime := atime))
                        else Member(Outgoing, 0, hash, Dropped, NEW));
    case Accept(l, hash, now, r) =>
      AddKeepsPlaces(s, Member(Incoming, 0, hash, Hands, AcceptedConn(now, r)));
    case Retain(i, lb) =>
      MoveKeepsPlaces(s, Hands, i, s.members[s.boxes[Hands][i]].(home := lb, place := Posting));
      LogsDoNotMatter(Move(s, Hands, i, s.members[s.boxes[Hands][i]].(home := lb, place := Posting)), Apply(s, step));
    case Post(i) =>
      var m := s.members[s.boxes[Posting][i]];
      MoveKeepsPlaces(s, Posting, i, m.(place := Inbox(m.home)));
    case Take(w) =>
      var m := s.members[s.boxes[Inbox(w)][0]];
      MoveKeepsPlaces(s, Inbox(w), 0, m.(place := Listed(w), conn := Register(m.conn)));
    case Visit(w, i, now, timeout, r) =>
      var id := s.boxes[Listed(w)][i];
      var c := NetEngine.Visit(s.members[id].conn, w, now, timeout, r);
      if Over(s.members[id].conn) {
        MoveKeepsPlaces(s, Listed(w), i, s.members[id].(place := Reaped, conn := c));
        LogsDoNotMatter(Move(s, Listed(w), i, s.members[id].(place := Reaped, conn := c)), Apply(s, step));
      } else {
        UpdateKeepsPlaces(s, id, c);
      }
    case Event(w, i, now, io, rs) =>
      var id := s.boxes[Listed(w)][i];
      UpdateKeepsPlaces(s, id, Handle(s.members[id].conn, w, now, io, rs));
    case Touch(id, closes, sent) =>
      var c := s.members[id].conn;
      UpdateKeepsPlaces(s, id, c.(state := CloseTimes(c.state, closes), output := c.output + sent));
    case Stop(w) => LogsDoNotMatter(s, Apply(s, step));
    case Drain(w) =>
      var p := if s.phases[w] == Draining then Inbox(w) else Listed(w);
      if At(s, p, 0) {
        var m := s.members[s.boxes[p][0]];
        MoveKeepsPlaces(s, p, 0, m.(place := Killed, conn := m.conn.(interest := Unregistered)));
      } else {
        LogsDoNotMatter(s, Apply(s, step));
      }
  }

  lemma LogsDoNotMatter(s: System, t: System)
    requires Placed(s) && t.members == s.members && t.boxes == s.boxes
    ensures Placed(t)
  {
  }

  lemma StepKeepsShape(s: System, step: Step)
    requires Shaped(s) && Enabled(s, step)
    ensures Shaped(Apply(s, step)) && Apply(s, step).workers == s.workers
  {
    hide Handle, NetEngine.Visit, AcceptedConn, CloseTimes, Register;
  }

  // ---------------------------------------------------------------------
  // The count
  // ---------------------------------------------------------------------

  function All(n: nat): multiset<Id> {
    if n == 0 then multiset{} else All(n - 1) + multiset{n - 1}
  }

  function ThreadPlaces(w: nat): seq<Place> {
    (if w == 0 then [] else ThreadPlaces(w - 1)) + [Inbox(w), Listed(w)]
  }

  /** Every place there is. */
  function Places(workers: nat): seq<Place> {
    [Hands, Posting, Dropped, Reaped, Killed] + ThreadPlaces(workers)
  }

  /** All that the boxes hold, with multiplicity. */
  function Held(boxes: map<Place, seq<Id>>, ps: seq<Place>): multiset<Id>
    requires forall p :: p in ps ==> p in boxes
  {
    if ps == [] then multiset{}
    else Held(boxes, ps[..|ps| - 1]) + multiset(boxes[ps[|ps| - 1]])
  }

  lemma {:induction false} AllIs(n: nat, id: Id)
    ensures All(n)[id] == if id < n then 1 else 0
  {
    if n > 0 { AllIs(n - 1, id); }
  }

  lemma {:induction false} ThreadPlacesAre(n: nat)
    ensures forall p :: p in ThreadPlaces(n) <==> (p.Inbox? || p.Listed?) && p.worker <= n
    ensures Distinct(ThreadPlaces(n))
  {
    if n > 0 { ThreadPlacesAre(n - 1); }
  }

  lemma {:induction false} OccursOnce(s: seq<Id>, x: Id)
    requires Distinct(s)
    ensures multiset(s)[x] == if x in s then 1 else 0
  {
    if s != [] {
      var init := s[..|s| - 1];
      OccursOnce(init, x);
      assert s == init + [s[|s| - 1]];
    }
  }

  lemma {:induction false} HeldOnce(s: System, ps: seq<Place>, id: Id)
    requires Placed(s) && Distinct(ps) && forall p :: p in ps ==> p in s.boxes
    ensures Held(s.boxes, ps)[id] == if id < |s.members| && s.members[id].place in ps then 1 else 0
    decreases |ps|
  {
    if ps != [] {
      var init, last := ps[..|ps| - 1], ps[|ps| - 1];
      HeldOnce(s, init, id);
      OccursOnce(s.boxes[last], id);
      assert ps == init + [last];
    }
  }

  /** What has been created is what is in transit, queued, listed and deleted, each once. */
  lemma Census(s: System)
    requires Shaped(s) && Placed(s)
    ensures forall p :: p in Places(s.workers) ==> p in s.boxes
    ensures Held(s.boxes, Places(s.workers)) == All(|s.members|)
  {
    hide Placed, Held;
    ThreadPlacesAre(s.workers);
    forall id ensures Held(s.boxes, Places(s.workers))[id] == All(|s.members|)[id]
    {
      PlaceIsListed(s, id);
      HeldOnce(s, Places(s.workers), id);
      AllIs(|s.members|, id);
    }
  }

  lemma PlaceIsListed(s: System, id: Id)
    requires Shaped(s) && Placed(s)
    ensures id < |s.members| ==> s.members[id].place in Places(s.workers)
    ensures Distinct(Places(s.workers))
  {
    ThreadPlacesAre(s.workers);
    if id < |s.members| {
      var p := s.members[id].place;
      assert p in s.boxes;
      if !p.Inbox? && !p.Listed? {
        assert p in [Hands, Posting, Dropped, Reaped, Killed];
      }
    }
  }
}
