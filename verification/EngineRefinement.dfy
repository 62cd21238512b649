// The loops of the engine's objects are runs of the step system: what a call does to
// its objects, a run of steps does to the members and boxes.
module EngineRefinement {
  import opened TcpStream
  import opened NetEngine
  import opened EngineSystem
  import opened EngineStory
  import opened EngineLeases
  import opened EngineRuns
  import opened EngineSweep
  import EngineWorker
  import opened Lists
  import opened StringUtil

  lemma RunSnoc(s: System, run: seq<Step>, step: Step)
    requires Valid(s, run) && Enabled(After(s, run), step)
    ensures Valid(s, run + [step]) && After(s, run + [step]) == Apply(After(s, run), step)
  {
    hide Enabled, Apply;
    assert (run + [step])[..|run|] == run;
  }

  // ---------------------------------------------------------------------
  // Worker.Sweep
  // ---------------------------------------------------------------------

  /** The first k turns of a sweep over `ids`, of which those flagged are over. */
  function Turns(ids: seq<Id>, over: seq<bool>, k: nat, w: nat, now: U64, timeout: U64, replies: seq<Reply>): seq<Step>
    requires k <= |ids| == |over| == |replies|
  {
    if k == 0 then []
    else
      var i := |EngineWorker.Kept<Id>(ids[..k - 1], over[..k - 1], false)|;
      Turns(ids, over, k - 1, w, now, timeout, replies) + [Step.Visit(w, i, now, timeout, replies[k - 1])]
  }

  /** The members of `ids` have these connections. */
  predicate Shows(s: System, ids: seq<Id>, conns: seq<Conn>) {
    |ids| == |conns| && forall j :: 0 <= j < |ids| ==> ids[j] < |s.members| && s.members[ids[j]].conn == conns[j]
  }

  predicate Graves(s: System, ids: seq<Id>) {
    Reaped in s.boxes && s.boxes[Reaped] == ids
  }

  lemma ReapAppends(s: System, step: Step, graves: seq<Id>)
    requires Enabled(s, step) && step.Visit? && Graves(s, graves)
    ensures var t, id := Apply(s, step), List(s, step.w)[step.i];
            && Graves(t, graves + if IsOver(s, id) then [id] else [])
            && id < |s.members| && id < |t.members|
            && t.members[id].conn == NetEngine.Visit(s.members[id].conn, step.w, step.now, step.timeout, step.r)
  {
    hide NetEngine.Visit, Without, Over;
    assert graves + [] == graves;
  }

  /** What Worker.Sweep promises about its connections, list and deletions is what
      one turn after the other does in the step system. */
  lemma {:induction false} SweepIsARun(
      a: System, w: nat, over: seq<bool>, k: nat, before: seq<Conn>, after: seq<Conn>,
      now: U64, timeout: U64, replies: seq<Reply>, graves: seq<Id>)
    requires Inv(a) && w > 0 && Runs(a, w) && Shows(a, List(a, w), before) && Graves(a, graves)
    requires |List(a, w)| == |before| == |after| == |replies|
    requires EngineWorker.Visited(before, after, over, w, now, timeout, replies) && k <= |over| == |before|
    ensures var ids := List(a, w);
            var run := Turns(ids, over, k, w, now, timeout, replies);
            && Valid(a, run)
            && var e := After(a, run);
            && Inv(e) && Runs(e, w) && Shows(e, ids, after[..k] + before[k..])
            && List(e, w) == EngineWorker.Kept<Id>(ids[..k], over[..k], false) + ids[k..]
            && Graves(e, graves + EngineWorker.Kept<Id>(ids[..k], over[..k], true))
    decreases k
  {
    hide Inv, Runs, List, Enabled, Apply, Shows, Graves, EngineWorker.Kept, EngineWorker.Visited;
    var ids := List(a, w);
    ListIsDistinct(a, w);
    if k == 0 {
      NoTurns(a, ids, over, before, after, graves);
    } else {
      SweepIsARun(a, w, over, k - 1, before, after, now, timeout, replies, graves);
      var run := Turns(ids, over, k - 1, w, now, timeout, replies);
      TurnRefines(a, After(a, run), w, over, k - 1, before, after, now, timeout, replies, graves);
      var i := |EngineWorker.Kept<Id>(ids[..k - 1], over[..k - 1], false)|;
      RunSnoc(a, run, Step.Visit(w, i, now, timeout, replies[k - 1]));
    }
  }

  lemma NoTurns(a: System, ids: seq<Id>, over: seq<bool>, before: seq<Conn>, after: seq<Conn>, graves: seq<Id>)
    requires Shows(a, ids, before) && Graves(a, graves) && |over| == |before| == |after|
    ensures Shows(a, ids, after[..0] + before[0..])
    ensures Graves(a, graves + EngineWorker.Kept<Id>(ids[..0], over[..0], true))
    ensures ids == EngineWorker.Kept<Id>(ids[..0], over[..0], false) + ids[0..]
  {
    assert after[..0] + before[0..] == before && graves + [] == graves && [] + ids[0..] == ids;
  }

  /** One more turn: list and graves. */
  lemma TurnMoves(s: System, step: Step, ids: seq<Id>, over: seq<bool>, k: nat, graves: seq<Id>)
    requires Inv(s) && step.Visit? && step.w > 0 && Runs(s, step.w) && k < |over| == |ids|
    requires step.i == |EngineWorker.Kept<Id>(ids[..k], over[..k], false)| && IsOver(s, ids[k]) == over[k]
    requires List(s, step.w) == EngineWorker.Kept<Id>(ids[..k], over[..k], false) + ids[k..]
    requires Graves(s, graves + EngineWorker.Kept<Id>(ids[..k], over[..k], true))
    ensures Enabled(s, step) && step.i < |List(s, step.w)| && List(s, step.w)[step.i] == ids[k]
    ensures var t := Apply(s, step);
            && Inv(t) && Runs(t, step.w)
            && List(t, step.w) == EngineWorker.Kept<Id>(ids[..k + 1], over[..k + 1], false) + ids[k + 1..]
            && Graves(t, graves + EngineWorker.Kept<Id>(ids[..k + 1], over[..k + 1], true))
  {
    hide Inv, Runs, List, Enabled, Apply, Graves, EngineWorker.Kept, IsOver, Distinct, Without;
    var kept: seq<Id>, lost: seq<Id> :=
      EngineWorker.Kept<Id>(ids[..k], over[..k], false), EngineWorker.Kept<Id>(ids[..k], over[..k], true);
    ListIsDistinct(s, step.w);
    Cursor(List(s, step.w), kept, ids, k);
    TurnEffect(s, step.w, |kept|, step);
    ReapAppends(s, step, graves + lost);
    NextKept(ids, over, k, graves, kept, lost);
  }

  lemma NextKept(ids: seq<Id>, over: seq<bool>, k: nat, graves: seq<Id>, kept: seq<Id>, lost: seq<Id>)
    requires k < |over| == |ids|
    requires kept == EngineWorker.Kept<Id>(ids[..k], over[..k], false)
    requires lost == EngineWorker.Kept<Id>(ids[..k], over[..k], true)
    ensures EngineWorker.Kept<Id>(ids[..k + 1], over[..k + 1], false) == if over[k] then kept else kept + [ids[k]]
    ensures graves + EngineWorker.Kept<Id>(ids[..k + 1], over[..k + 1], true)
            == graves + lost + if over[k] then [ids[k]] else []
  {
    hide EngineWorker.Kept;
    EngineWorker.KeptNext<Id>(ids, over[..k], over[k], false);
    EngineWorker.KeptNext<Id>(ids, over[..k], over[k], true);
    assert over[..k] + [over[k]] == over[..k + 1];
    Regroup<Id>(graves, lost, if over[k] then [ids[k]] else []);
    assert kept + [] == kept;
  }

  /** One more turn: the connections. */
  lemma TurnChanges(s: System, step: Step, ids: seq<Id>, conns: seq<Conn>, k: nat)
    requires Inv(s) && Enabled(s, step) && step.Visit? && Shows(s, ids, conns) && Distinct(ids) && k < |ids|
    requires step.i < |List(s, step.w)| && List(s, step.w)[step.i] == ids[k]
    ensures Shows(Apply(s, step), ids, conns[k := NetEngine.Visit(conns[k], step.w, step.now, step.timeout, step.r)])
  {
    hide Inv, Apply, NetEngine.Visit, Distinct, Over;
    ReapAppends(s, step, s.boxes[Reaped]);
    TurnEffect(s, step.w, step.i, step);
    var t := Apply(s, step);
    forall j | 0 <= j < |ids| && j != k ensures ids[j] < |t.members| && t.members[ids[j]] == s.members[ids[j]] {
      OtherIndex(ids, j, k);
      var m := s.members[ids[j]];
    }
  }

  lemma TurnRefines(
      a: System, s: System, w: nat, over: seq<bool>, k: nat, before: seq<Conn>, after: seq<Conn>,
      now: U64, timeout: U64, replies: seq<Reply>, graves: seq<Id>)
    requires EngineWorker.Visited(before, after, over, w, now, timeout, replies) && k < |over|
    requires |over| == |List(a, w)| == |before| == |after| == |replies|
    requires Inv(s) && w > 0 && Runs(s, w) && Shows(s, List(a, w), after[..k] + before[k..])
    requires var ids := List(a, w);
             && List(s, w) == EngineWorker.Kept<Id>(ids[..k], over[..k], false) + ids[k..]
             && Graves(s, graves + EngineWorker.Kept<Id>(ids[..k], over[..k], true)) && Distinct(ids)
    ensures var ids := List(a, w);
            var step := Step.Visit(w, |EngineWorker.Kept<Id>(ids[..k], over[..k], false)|, now, timeout, replies[k]);
            && Enabled(s, step)
            && var t := Apply(s, step);
            && Inv(t) && Runs(t, w) && Shows(t, ids, after[..k + 1] + before[k + 1..])
            && List(t, w) == EngineWorker.Kept<Id>(ids[..k + 1], over[..k + 1], false) + ids[k + 1..]
            && Graves(t, graves + EngineWorker.Kept<Id>(ids[..k + 1], over[..k + 1], true))
  {
    hide Inv, Runs, List, Enabled, Apply, Graves, Shows, Distinct, Over;
    hide EngineWorker.Kept, EngineWorker.Visited, NetEngine.Visit;
    var ids := List(a, w);
    var step := Step.Visit(w, |EngineWorker.Kept<Id>(ids[..k], over[..k], false)|, now, timeout, replies[k]);
    var conns := after[..k] + before[k..];
    assert conns[k] == before[k] && conns[k := after[k]] == after[..k + 1] + before[k + 1..];
    ShowsOne(s, ids, conns, k);
    VisitedOne(before, after, over, k, w, now, timeout, replies);
    TurnMoves(s, step, ids, over, k, graves);
    TurnChanges(s, step, ids, conns, k);
  }

  lemma ShowsOne(s: System, ids: seq<Id>, conns: seq<Conn>, k: nat)
    requires Shows(s, ids, conns) && k < |ids|
    ensures IsOver(s, ids[k]) == Over(conns[k])
  {
  }

  lemma VisitedOne(before: seq<Conn>, after: seq<Conn>, over: seq<bool>, k: nat,
                   w: nat, now: U64, timeout: U64, replies: seq<Reply>)
    requires EngineWorker.Visited(before, after, over, w, now, timeout, replies) && k < |over|
    ensures over[k] == Over(before[k]) && after[k] == NetEngine.Visit(before[k], w, now, timeout, replies[k])
  {
  }

  lemma OtherIndex(ids: seq<Id>, j: nat, k: nat)
    requires Distinct(ids) && j < |ids| && k < |ids| && j != k
    ensures ids[j] != ids[k]
  {
  }

  // ---------------------------------------------------------------------
  // Worker.TakeAll
  // ---------------------------------------------------------------------

  function Takes(w: nat, k: nat): seq<Step> {
    if k == 0 then [] else Takes(w, k - 1) + [Take(w)]
  }

  function Queue(s: System, w: nat): seq<Id> {
    if Inbox(w) in s.boxes then s.boxes[Inbox(w)] else []
  }

  lemma TakeEffect(s: System, w: nat)
    requires Inv(s) && Runs(s, w) && Queue(s, w) != []
    ensures Enabled(s, Take(w))
    ensures var t, id := Apply(s, Take(w)), Queue(s, w)[0];
            && Inv(t) && Runs(t, w) && Queue(t, w) == Queue(s, w)[1..] && List(t, w) == List(s, w) + [id]
            && t.boxes == s.boxes[Inbox(w) := Queue(s, w)[1..]][Listed(w) := List(s, w) + [id]]
            && id < |s.members| == |t.members| && t.members[id].conn == Register(s.members[id].conn)
            && forall k :: 0 <= k < |s.members| && k != id ==> k < |t.members| && t.members[k] == s.members[k]
  {
    hide AllTold, Balanced, Register;
    assert At(s, Inbox(w), 0);
    StepKeepsInv(s, Take(w));
    OthersStay(s, Take(w));
    assert Without(Queue(s, w), 0) == Queue(s, w)[1..];
  }

  /** The first k connections registered. */
  function RegisteredTo(before: seq<Conn>, k: nat): (r: seq<Conn>)
    requires k <= |before|
    ensures EngineWorker.Registered(before, r, 0, k)
  {
    if k == 0 then
      EngineWorker.NoneRegistered(before, 0);
      before
    else
      var r := RegisteredTo(before, k - 1);
      EngineWorker.RegisteredNext(before, r, 0, k - 1);
      r[k - 1 := Register(r[k - 1])]
  }

  /** What Worker.TakeAll promises: the inbox moves to the end of the list, in order,
      each connection registered once, and no other changes. */
  lemma {:induction false} TakeAllIsARun(a: System, w: nat, k: nat, before: seq<Conn>)
    requires Inv(a) && Runs(a, w) && Shows(a, Queue(a, w), before) && k <= |before| == |Queue(a, w)|
    ensures var run, ids := Takes(w, k), Queue(a, w);
            && Valid(a, run)
            && var e := After(a, run);
            && Inv(e) && Runs(e, w) && List(e, w) == List(a, w) + ids[..k] && Queue(e, w) == ids[k..]
            && Shows(e, ids, RegisteredTo(before, k)) && Untaken(a, e, ids[..k])
    decreases k
  {
    hide Inv, Runs, List, Queue, Enabled, Apply, Register, Distinct, EngineWorker.Registered, Shows, Untaken;
    var ids := Queue(a, w);
    if k == 0 {
      assert List(a, w) + [] == List(a, w) && ids[0..] == ids;
      AllUntaken(a);
    } else {
      TakeAllIsARun(a, w, k - 1, before);
      var e := After(a, Takes(w, k - 1));
      TakeMoves(e, w, List(a, w), ids, k - 1);
      RunSnoc(a, Takes(w, k - 1), Take(w));
      QueueIsDistinct(a, w);
      TakeShows(e, w, ids, RegisteredTo(before, k - 1), k - 1);
      TakeLeaves(a, e, w, ids, k - 1);
    }
  }

  lemma TakeMoves(s: System, w: nat, list: seq<Id>, ids: seq<Id>, k: nat)
    requires Inv(s) && Runs(s, w) && k < |ids| && Queue(s, w) == ids[k..] && List(s, w) == list + ids[..k]
    ensures Enabled(s, Take(w))
    ensures var t := Apply(s, Take(w));
            Inv(t) && Runs(t, w) && Queue(t, w) == ids[k + 1..] && List(t, w) == list + ids[..k + 1]
  {
    hide Inv, Apply, Enabled, Register, Queue, List, Runs;
    TakeEffect(s, w);
    Regroup<Id>(list, ids[..k], [ids[k]]);
    assert ids[..k] + [ids[k]] == ids[..k + 1] && ids[k..][1..] == ids[k + 1..] && ids[k..][0] == ids[k];
  }

  /** All other connections, those listed already among them, are as they were. */
  ghost predicate Untaken(a: System, e: System, taken: seq<Id>) {
    |a.members| == |e.members|
    && forall id :: 0 <= id < |a.members| && id !in taken ==> e.members[id] == a.members[id]
  }

  lemma AllUntaken(a: System)
    ensures Untaken(a, a, [])
  {
  }

  lemma TakeLeaves(a: System, e: System, w: nat, ids: seq<Id>, k: nat)
    requires Inv(e) && Runs(e, w) && Enabled(e, Take(w)) && k < |ids| && Queue(e, w) == ids[k..]
    requires Untaken(a, e, ids[..k])
    ensures Untaken(a, Apply(e, Take(w)), ids[..k + 1])
  {
    hide Inv, Apply, Enabled, Register, Queue;
    assert ids[k..][0] == ids[k] && ids[..k + 1] == ids[..k] + [ids[k]];
    TakeEffect(e, w);
    var t := Apply(e, Take(w));
    forall id | 0 <= id < |a.members| && id !in ids[..k + 1] ensures t.members[id] == a.members[id] {
      assert id !in ids[..k] && id != ids[k];
      assert e.members[id] == a.members[id];
    }
  }

  lemma QueueIsDistinct(s: System, w: nat)
    requires Inv(s) && Runs(s, w)
    ensures Distinct(Queue(s, w)) && forall id :: id in Queue(s, w) ==> id < |s.members|
  {
  }

  lemma TakeShows(s: System, w: nat, ids: seq<Id>, conns: seq<Conn>, k: nat)
    requires Inv(s) && Runs(s, w) && Enabled(s, Take(w)) && Shows(s, ids, conns) && Distinct(ids) && k < |ids|
    requires Queue(s, w) == ids[k..]
    ensures Shows(Apply(s, Take(w)), ids, conns[k := Register(conns[k])])
  {
    hide Inv, Apply, Register, Distinct, Queue;
    assert ids[k..][0] == ids[k];
    TakeEffect(s, w);
    var t := Apply(s, Take(w));
    forall j | 0 <= j < |ids| && j != k ensures ids[j] < |t.members| && t.members[ids[j]] == s.members[ids[j]] {
      OtherIndex(ids, j, k);
      var m := s.members[ids[j]];
    }
  }

  // ---------------------------------------------------------------------
  // Engine.Listen, Engine.Connect and one round of Engine.AcceptAll
  // ---------------------------------------------------------------------

  function Box(s: System, p: Place): seq<Id> {
    if p in s.boxes then s.boxes[p] else []
  }

  /** The connection that a Connect or Accept step makes. */
  function Made(step: Step): Conn {
    if step.Connect? then NEW.(state := step.state, atime := step.atime)
    else if step.Accept? then AcceptedConn(step.now, step.r)
    else NEW.(state := Listening)
  }

  lemma MakeEffect(s: System, make: Step)
    requires Inv(s) && Enabled(s, make) && ((make.Connect? && make.ok) || make.Accept?)
    ensures var t, id := Apply(s, make), |s.members|;
            && Inv(t) && |t.members| == id + 1 && t.members[..id] == s.members && t.workers == s.workers
            && t.members[id].conn == Made(make) && t.members[id].hash == make.hash
            && t.boxes == s.boxes[Hands := Box(s, Hands) + [id]] && t.retains == s.retains
  {
    hide AcceptedConn, Inv;
    StepKeepsInv(s, make);
  }

  lemma BoxIsThere(s: System, p: Place, i: nat)
    requires Inv(s) && i < |Box(s, p)|
    ensures At(s, p, i) && AllPlaces(s)
  {
  }

  lemma WithoutLast(ids: seq<Id>)
    requires ids != []
    ensures Without(ids, |ids| - 1) == ids[..|ids| - 1]
  {
  }

  lemma RetainEffect(s: System, id: Id, lb: nat)
    requires Inv(s) && Box(s, Hands) != [] && Box(s, Hands)[|Box(s, Hands)| - 1] == id && 1 <= lb <= s.workers
    ensures var step := Retain(|Box(s, Hands)| - 1, lb);
            && Enabled(s, step) && id < |s.members|
            && var t := Apply(s, step);
            && Inv(t) && t.workers == s.workers
            && t.members == s.members[id := s.members[id].(home := lb, place := Posting)]
            && t.boxes == s.boxes[Hands := Box(s, Hands)[..|Box(s, Hands)| - 1]][Posting := Box(s, Posting) + [id]]
            && t.retains == s.retains + [Lease(id, s.members[id].hash)]
  {
    hide Inv, Without;
    var step := Retain(|Box(s, Hands)| - 1, lb);
    BoxIsThere(s, Hands, step.i);
    StepKeepsInv(s, step);
    WithoutLast(Box(s, Hands));
  }

  lemma PostEffect(s: System, id: Id)
    requires Inv(s) && Box(s, Posting) != [] && Box(s, Posting)[|Box(s, Posting)| - 1] == id
    requires id < |s.members| && s.members[id].home <= s.workers
    ensures var step, w := Post(|Box(s, Posting)| - 1), s.members[id].home;
            && Enabled(s, step)
            && var t := Apply(s, step);
            && Inv(t) && t.members == s.members[id := s.members[id].(place := Inbox(w))]
            && t.boxes == s.boxes[Posting := Box(s, Posting)[..|Box(s, Posting)| - 1]]
                                 [Inbox(w) := Box(s, Inbox(w)) + [id]]
            && t.retains == s.retains
  {
    hide Inv, Without;
    var step := Post(|Box(s, Posting)| - 1);
    BoxIsThere(s, Posting, step.i);
    StepKeepsInv(s, step);
    WithoutLast(Box(s, Posting));
  }

  /** The connection made is a new member, in the inbox of worker lb alone, and booked. */
  predicate HandedOver(s: System, e: System, make: Step, lb: nat)
    requires make.Connect? || make.Accept?
  {
    var id := |s.members|;
    && |e.members| == id + 1 && e.members[..id] == s.members
    && e.members[id].conn == Made(make) && e.members[id].hash == make.hash && e.members[id].home == lb
    && e.boxes == s.boxes[Inbox(lb) := Box(s, Inbox(lb)) + [id]]
    && e.retains == s.retains + [Lease(id, make.hash)]
  }

  /** What Engine.Connect and each round of Engine.AcceptAll promise: three steps make
      the connection, retain a worker and append it to the inbox of that worker alone. */
  lemma HandOverIsARun(s: System, make: Step, lb: nat)
    requires Inv(s) && Enabled(s, make) && ((make.Connect? && make.ok) || make.Accept?) && 1 <= lb <= s.workers
    ensures var run := [make, Retain(|Box(s, Hands)|, lb), Post(|Box(s, Posting)|)];
            Valid(s, run) && Inv(After(s, run)) && HandedOver(s, After(s, run), make, lb)
  {
    hide Inv, Enabled, Apply, AcceptedConn, Made, After, Valid;
    var id, h, p := |s.members|, |Box(s, Hands)|, |Box(s, Posting)|;
    HasBoxes(s, lb);
    MakeEffect(s, make);
    var s1 := Apply(s, make);
    RetainEffect(s1, id, lb);
    var s2 := Apply(s1, Retain(h, lb));
    PostEffect(s2, id);
    var e := Apply(s2, Post(p));
    RunThree(s, make, Retain(h, lb), Post(p));
    ThreeMoves(s.boxes, s1.boxes, s2.boxes, e.boxes, id, lb);
    SameFront(s.members, s1.members, s2.members, e.members, id);
  }

  lemma RunThree(s: System, a: Step, b: Step, c: Step)
    requires Enabled(s, a) && Enabled(Apply(s, a), b) && Enabled(Apply(Apply(s, a), b), c)
    ensures Valid(s, [a, b, c]) && After(s, [a, b, c]) == Apply(Apply(Apply(s, a), b), c)
  {
    hide Enabled, Apply;
    RunSnoc(s, [], a);
    RunSnoc(s, [] + [a], b);
    RunSnoc(s, [] + [a] + [b], c);
    assert [] + [a] + [b] + [c] == [a, b, c];
  }

  /** Into the hands and out of them, into the posting and out of it, into an inbox. */
  lemma ThreeMoves(b0: map<Place, seq<Id>>, b1: map<Place, seq<Id>>, b2: map<Place, seq<Id>>, b3: map<Place, seq<Id>>,
                   id: Id, lb: nat)
    requires Hands in b0 && Posting in b0 && Inbox(lb) in b0
    requires b1 == b0[Hands := b0[Hands] + [id]]
    requires b2 == b1[Hands := b1[Hands][..|b1[Hands]| - 1]][Posting := b1[Posting] + [id]]
    requires b3 == b2[Posting := b2[Posting][..|b2[Posting]| - 1]][Inbox(lb) := b2[Inbox(lb)] + [id]]
    ensures b3 == b0[Inbox(lb) := b0[Inbox(lb)] + [id]]
  {
    assert b2[Hands] == b0[Hands] && b3[Posting] == b0[Posting];
  }

  lemma SameFront(m0: seq<Member>, m1: seq<Member>, m2: seq<Member>, m3: seq<Member>, id: Id)
    requires id == |m0| && |m1| == id + 1 && m1[..id] == m0
    requires |m2| == |m3| == |m1| && m2 == m1[id := m2[id]] && m3 == m2[id := m3[id]]
    ensures m3[..id] == m0
  {
  }

  lemma HasBoxes(s: System, lb: nat)
    requires Inv(s) && lb <= s.workers
    ensures Hands in s.boxes && Posting in s.boxes && Inbox(lb) in s.boxes
  {
  }
}
