// The sweep of a worker among the steps of all other threads, and the state it leaves.
module EngineSweep {
  import opened TcpStream
  import opened NetEngine
  import opened EngineSystem
  import opened EngineOwnership
  import opened EngineStory
  import opened EngineLeases
  import opened EngineRuns
  import opened Lists

  function List(s: System, w: nat): seq<Id> {
    if Listed(w) in s.boxes then s.boxes[Listed(w)] else []
  }

  predicate IsAwake(s: System, id: Id) {
    id < |s.members| && Awake(s.members[id].conn)
  }

  predicate IsOver(s: System, id: Id) {
    id < |s.members| && Over(s.members[id].conn)
  }

  predicate IsReaped(s: System, id: Id) {
    id < |s.members| && s.members[id].place == Reaped
  }

  /** The connections of the list that are not over, in order. */
  function Staying(members: seq<Member>, ids: seq<Id>): seq<Id> {
    if ids == [] then []
    else
      var id := ids[|ids| - 1];
      Staying(members, ids[..|ids| - 1]) + if id < |members| && Over(members[id].conn) then [] else [id]
  }

  // ---------------------------------------------------------------------
  // A sweep on its way
  // ---------------------------------------------------------------------

  /** How far a sweep has come: how many connections have had their turn, which of
      them have stayed, and which of these the application has given something to
      send since, when they had nothing. */
  datatype Sweep = Sweep(turns: nat, stay: seq<Id>, late: set<Id>)

  const BEGIN: Sweep := Sweep(0, [], {})

  /** Worker w itself takes the step. */
  predicate Own(step: Step, w: nat) {
    (step.Take? || step.Visit? || step.Event? || step.Stop? || step.Drain?) && step.w == w
  }

  /** The application puts the first bytes into the output of a connected socket. */
  predicate Wakes(s: System, step: Step) {
    && step.Touch? && step.id < |s.members| && step.closes == 0 && step.sent > 0
    && s.members[step.id].conn.state == Connected && s.members[step.id].conn.output == 0
  }

  function Advance(p: Sweep, s: System, w: nat, step: Step): Sweep {
    if Own(step, w) then
      if |p.stay| < |List(s, w)| && !IsOver(s, List(s, w)[|p.stay|]) then
        Sweep(p.turns + 1, p.stay + [List(s, w)[|p.stay|]], p.late)
      else p.(turns := p.turns + 1)
    else if Wakes(s, step) && step.id in p.stay then p.(late := p.late + {step.id})
    else p
  }

  function SweepOf(s: System, w: nat, run: seq<Step>): Sweep
    requires Valid(s, run)
    decreases |run|
  {
    if run == [] then BEGIN
    else Advance(SweepOf(s, w, run[..|run| - 1]), After(s, run[..|run| - 1]), w, run[|run| - 1])
  }

  /** In the run worker w does nothing but sweep the list it has at the beginning:
      each of its steps is the turn of the connection its cursor stands at. All
      other threads take any steps. */
  predicate Sweeps(s: System, w: nat, run: seq<Step>)
    requires Valid(s, run)
    decreases |run|
  {
    run == [] ||
    var p, step := SweepOf(s, w, run[..|run| - 1]), run[|run| - 1];
    && Sweeps(s, w, run[..|run| - 1])
    && (Own(step, w) ==> step.Visit? && step.i == |p.stay| && p.turns < |List(s, w)|)
  }

  /** What a sweep that began in state a has reached in state e. */
  ghost predicate Swept(a: System, e: System, w: nat, p: Sweep) {
    && Inv(e) && w > 0 && Runs(e, w) && p.turns <= |List(a, w)|
    && List(e, w) == p.stay + List(a, w)[p.turns..]
    && (forall id :: id in p.stay && id !in p.late ==> IsAwake(e, id))
    && forall j :: 0 <= j < p.turns ==> List(a, w)[j] in p.stay || IsReaped(e, List(a, w)[j])
  }

  // ---------------------------------------------------------------------
  // The worker's own steps
  // ---------------------------------------------------------------------

  lemma TurnWakes(s: System, w: nat, i: nat, step: Step)
    requires Inv(s) && Enabled(s, step) && step.Visit? && step.w == w && step.i == i
    ensures var m := s.members[s.boxes[Listed(w)][i]];
            !Over(m.conn) ==> Awake(NetEngine.Visit(m.conn, w, step.now, step.timeout, step.r))
  {
    hide Opens, Watch, Going;
    var m := s.members[s.boxes[Listed(w)][i]];
    assert Told(m, s.workers);
    if !Over(m.conn) { WatchAdvances(m.conn, w, step.now, step.timeout, step.r); }
  }

  /** A turn is always possible. It takes its connection off the list and reaps it
      if it is over, leaves it awake if not, and touches no other. */
  lemma TurnEffect(s: System, w: nat, i: nat, step: Step)
    requires Inv(s) && w > 0 && Runs(s, w) && i < |List(s, w)| && step.Visit? && step.w == w && step.i == i
    ensures Enabled(s, step)
    ensures var t, list := Apply(s, step), List(s, w);
            && Inv(t) && Runs(t, w) && list[i] < |s.members|
            && List(t, w) == (if IsOver(s, list[i]) then Without(list, i) else list)
            && (if IsOver(s, list[i]) then IsReaped(t, list[i]) else IsAwake(t, list[i]))
            && forall id :: 0 <= id < |s.members| && id != list[i] ==>
                 id < |t.members| && t.members[id] == s.members[id]
  {
    hide AllTold, Balanced, NetEngine.Visit, Awake;
    assert At(s, Listed(w), i);
    StepKeepsInv(s, step);
    OthersStay(s, step);
    TurnWakes(s, w, i, step);
  }

  lemma ListIsDistinct(s: System, w: nat)
    requires Inv(s) && Runs(s, w)
    ensures Distinct(List(s, w)) && forall id :: id in List(s, w) ==> id < |s.members|
  {
  }

  /** The cursor stands between those that stay and those to come. */
  lemma Cursor(list: seq<Id>, stay: seq<Id>, all: seq<Id>, k: nat)
    requires k < |all| && list == stay + all[k..] && Distinct(list)
    ensures |stay| < |list| && list[|stay|] == all[k] && all[k] !in stay
    ensures Without(list, |stay|) == stay + all[k + 1..] && list == (stay + [all[k]]) + all[k + 1..]
  {
    forall j | 0 <= j < |stay| ensures stay[j] != all[k] {
      assert list[j] == stay[j] && list[|stay|] == all[k];
    }
  }

  lemma OwnStep(a: System, e: System, w: nat, p: Sweep, step: Step)
    requires Swept(a, e, w, p) && p.turns < |List(a, w)|
    requires step.Visit? && step.w == w && step.i == |p.stay|
    ensures Enabled(e, step) && Swept(a, Apply(e, step), w, Advance(p, e, w, step))
  {
    hide Inv, Apply, Enabled, IsOver, Awake, List, Distinct, Without, Runs;
    var all, list, k := List(a, w), List(e, w), p.turns;
    ListIsDistinct(e, w);
    Cursor(list, p.stay, all, k);
    TurnEffect(e, w, |p.stay|, step);
    var t, q := Apply(e, step), Advance(p, e, w, step);
    forall id | id in q.stay && id !in q.late ensures IsAwake(t, id)
    {
      if id != all[k] { assert id in p.stay && IsAwake(e, id); }
    }
    forall j | 0 <= j < q.turns ensures all[j] in q.stay || IsReaped(t, all[j])
    {
      if j < k && all[j] !in p.stay && all[j] != all[k] { assert IsReaped(e, all[j]); }
    }
  }

  // ---------------------------------------------------------------------
  // The steps of others
  // ---------------------------------------------------------------------

  /** A step of another thread that is not the application's touches nothing in the list. */
  lemma SubjectIsElsewhere(s: System, w: nat, step: Step)
    requires Inv(s) && Enabled(s, step) && Runs(s, w) && !Own(step, w) && !step.Touch?
    ensures Subject(s, step) !in List(s, w)
    ensures Subject(s, step) < |s.members| ==> s.members[Subject(s, step)].place != Reaped
  {
    hide AllTold, Balanced;
  }

  lemma OtherKeepsList(s: System, w: nat, step: Step)
    requires Inv(s) && Enabled(s, step) && Runs(s, w) && !Own(step, w)
    ensures List(Apply(s, step), w) == List(s, w) && Runs(Apply(s, step), w)
  {
    hide AllTold, Balanced, Handle, NetEngine.Visit, AcceptedConn, CloseTimes, Register, Without, Over;
  }

  /** Another thread's step changes nothing in the list, but for what the application
      does to the connection it touches. */
  lemma OtherEffect(s: System, w: nat, step: Step)
    requires Inv(s) && Enabled(s, step) && Runs(s, w) && !Own(step, w)
    ensures var t := Apply(s, step);
            && Inv(t) && Runs(t, w) && List(t, w) == List(s, w)
            && (forall id :: id in List(s, w) && !(step.Touch? && step.id == id) ==>
                  id < |s.members| && id < |t.members| && t.members[id] == s.members[id])
            && (forall id :: IsReaped(s, id) ==> IsReaped(t, id))
  {
    hide Inv, Apply, List, Runs, Subject, Distinct;
    StepKeepsInv(s, step);
    OthersStay(s, step);
    OtherKeepsList(s, w, step);
    ListIsDistinct(s, w);
    if step.Touch? { TouchIsOfTheLiving(s, step); } else { SubjectIsElsewhere(s, w, step); }
  }

  lemma TouchIsOfTheLiving(s: System, step: Step)
    requires Enabled(s, step) && step.Touch?
    ensures Subject(s, step) == step.id && s.members[step.id].place != Reaped
  {
  }

  /** Only the first bytes for a connected socket leave a connection unwatched. */
  lemma TouchSpoilsIff(s: System, step: Step)
    requires Inv(s) && Enabled(s, step) && step.Touch? && IsAwake(s, step.id) && s.members[step.id].place.Listed?
    ensures IsAwake(Apply(s, step), step.id) <==> !Wakes(s, step)
  {
    hide Opens, CloseTimes, Going, Balanced, Placed;
    var m := s.members[step.id];
    assert Told(m, s.workers);
    CloseTimesIs(m.conn.state, step.closes);
  }

  lemma ListedIsListed(s: System, w: nat, id: Id)
    requires Inv(s) && Runs(s, w) && id in List(s, w)
    ensures id < |s.members| && s.members[id].place == Listed(w)
  {
    hide AllTold, Balanced;
  }

  lemma OtherStep(a: System, e: System, w: nat, p: Sweep, step: Step)
    requires Swept(a, e, w, p) && Enabled(e, step) && !Own(step, w)
    ensures Swept(a, Apply(e, step), w, Advance(p, e, w, step))
  {
    hide Inv, Apply, Enabled, Awake, List, Runs, Own;
    OtherEffect(e, w, step);
    var t, q := Apply(e, step), Advance(p, e, w, step);
    assert q.stay == p.stay && q.turns == p.turns;
    forall id | id in q.stay && id !in q.late ensures IsAwake(t, id)
    {
      assert id in List(e, w) && IsAwake(e, id);
      if step.Touch? && step.id == id {
        ListedIsListed(e, w, id);
        TouchSpoilsIff(e, step);
      }
    }
  }

  // ---------------------------------------------------------------------
  // Whole sweeps
  // ---------------------------------------------------------------------

  lemma {:induction false} SweepKeeps(a: System, w: nat, run: seq<Step>)
    requires Inv(a) && w > 0 && Runs(a, w) && Valid(a, run) && Sweeps(a, w, run)
    ensures Swept(a, After(a, run), w, SweepOf(a, w, run))
    decreases |run|
  {
    hide Inv, Runs, List, Enabled, Apply, Advance, Own, IsAwake;
    if run == [] {
      assert List(a, w)[0..] == List(a, w) && [] + List(a, w) == List(a, w);
    } else {
      var init, step := run[..|run| - 1], run[|run| - 1];
      SweepKeeps(a, w, init);
      if Own(step, w) {
        OwnVisit(step, w);
        OwnStep(a, After(a, init), w, SweepOf(a, w, init), step);
      } else {
        OtherStep(a, After(a, init), w, SweepOf(a, w, init), step);
      }
    }
  }

  lemma OwnVisit(step: Step, w: nat)
    requires Own(step, w) && step.Visit?
    ensures step.w == w
  {
  }

  /** The run touches no connection of the list. */
  predicate Untouched(list: seq<Id>, run: seq<Step>) {
    forall k :: 0 <= k < |run| && run[k].Touch? ==> run[k].id !in list
  }

  /** Those still to come are as they were, and those that stay are those that were not over. */
  predicate Quiet(a: System, e: System, list: seq<Id>, p: Sweep) {
    && p.turns <= |list| && p.late == {} && p.stay == Staying(a.members, list[..p.turns])
    && forall j :: p.turns <= j < |list| ==>
         list[j] < |a.members| && list[j] < |e.members| && e.members[list[j]] == a.members[list[j]]
  }

  lemma QuietOwn(a: System, e: System, w: nat, p: Sweep, step: Step)
    requires Swept(a, e, w, p) && Quiet(a, e, List(a, w), p) && p.turns < |List(a, w)|
    requires step.Visit? && step.w == w && step.i == |p.stay|
    ensures Enabled(e, step) && Quiet(a, Apply(e, step), List(a, w), Advance(p, e, w, step))
  {
    hide Inv, Apply, Enabled, Over, List, Distinct, Without, Runs, IsAwake;
    var list, k := List(a, w), p.turns;
    ListIsDistinct(e, w);
    Cursor(List(e, w), p.stay, list, k);
    CursorIsFirst(List(e, w), p.stay, list, k);
    TurnEffect(e, w, |p.stay|, step);
    assert list[..k + 1][..k] == list[..k];
  }

  lemma CursorIsFirst(list: seq<Id>, stay: seq<Id>, all: seq<Id>, k: nat)
    requires k < |all| && list == stay + all[k..] && Distinct(list)
    ensures forall j :: k < j < |all| ==> all[j] != all[k]
  {
    forall j | k < j < |all| ensures all[j] != all[k] {
      assert list[|stay| + j - k] == all[j] && list[|stay|] == all[k];
    }
  }

  lemma QuietOther(a: System, e: System, w: nat, p: Sweep, step: Step)
    requires Swept(a, e, w, p) && Quiet(a, e, List(a, w), p) && Enabled(e, step) && !Own(step, w)
    requires step.Touch? ==> step.id !in List(a, w)
    ensures Quiet(a, Apply(e, step), List(a, w), Advance(p, e, w, step))
  {
    hide Inv, Apply, Enabled, Staying, List, Runs, IsAwake, Own, Wakes;
    var list := List(a, w);
    OtherEffect(e, w, step);
    NotWoken(e, step);
    forall j | p.turns <= j < |list| ensures list[j] in List(e, w) && !(step.Touch? && step.id == list[j]) {
      assert list[p.turns..][j - p.turns] == list[j];
      assert list[j] in list;
    }
    StayingAreListed(a.members, list[..p.turns]);
  }

  lemma {:induction false} UntouchedStay(a: System, w: nat, run: seq<Step>)
    requires Inv(a) && w > 0 && Runs(a, w) && Valid(a, run) && Sweeps(a, w, run) && Untouched(List(a, w), run)
    ensures Quiet(a, After(a, run), List(a, w), SweepOf(a, w, run))
    decreases |run|
  {
    hide Inv, Runs, List, Enabled, Apply, Own, Advance, Quiet, Swept;
    if run == [] {
      ListIsDistinct(a, w);
      NothingStays(a, List(a, w));
    } else {
      var init, step := run[..|run| - 1], run[|run| - 1];
      UntouchedStay(a, w, init);
      SweepKeeps(a, w, init);
      if Own(step, w) {
        OwnVisit(step, w);
        QuietOwn(a, After(a, init), w, SweepOf(a, w, init), step);
      } else {
        QuietOther(a, After(a, init), w, SweepOf(a, w, init), step);
      }
    }
  }

  lemma NothingStays(a: System, list: seq<Id>)
    requires forall id :: id in list ==> id < |a.members|
    ensures Quiet(a, a, list, BEGIN)
  {
    forall j | 0 <= j < |list| ensures list[j] < |a.members| {
      assert list[j] in list;
    }
  }

  lemma NotWoken(s: System, step: Step)
    ensures Wakes(s, step) ==> step.Touch?
  {
  }

  lemma {:induction false} StayingAreListed(m: seq<Member>, ids: seq<Id>)
    ensures forall id :: id in Staying(m, ids) ==> id in ids
  {
    if ids != [] { StayingAreListed(m, ids[..|ids| - 1]); }
  }

  /** No lost wakeup. Let a worker sweep its list while all other threads do what
      they like. At every moment the list holds those of its connections that stay
      after their turn, in order, and those still to come; one that has gone has been
      reaped. Of those that have had their turn each connected one has write interest
      exactly when output waits, and each connecting one has it, but for a socket
      that the application has given its first bytes to send since. The next turn can
      always be taken. And if the application leaves the list alone, those that stay
      are those that were not over when the sweep began. */
  lemma SweepWakesAll(s: System, run: seq<Step>, w: nat, sweep: seq<Step>)
    requires Initial(s) && Valid(s, run) && w > 0 && Runs(After(s, run), w)
    requires Valid(After(s, run), sweep) && Sweeps(After(s, run), w, sweep)
    ensures var a := After(s, run);
            var e, p, list := After(a, sweep), SweepOf(a, w, sweep), List(a, w);
            && p.turns <= |list| && List(e, w) == p.stay + list[p.turns..]
            && (p.turns == |list| ==> List(e, w) == p.stay)
            && (forall id :: id in p.stay && id !in p.late ==> IsAwake(e, id))
            && (forall j :: 0 <= j < p.turns ==> list[j] in p.stay || IsReaped(e, list[j]))
            && (forall step: Step :: p.turns < |list| && step.Visit? && step.w == w && step.i == |p.stay| ==>
                  Enabled(e, step))
            && (Untouched(list, sweep) ==> p.late == {} && p.stay == Staying(a.members, list[..p.turns]))
  {
    hide Inv, Initial, IsAwake, IsReaped, Staying, List, Enabled, Apply, Runs, Untouched;
    RunInv(s, run);
    var a := After(s, run);
    SweepKeeps(a, w, sweep);
    var e, p, list := After(a, sweep), SweepOf(a, w, sweep), List(a, w);
    if p.turns == |list| { assert p.stay + list[p.turns..] == p.stay; }
    forall step: Step | p.turns < |list| && step.Visit? && step.w == w && step.i == |p.stay| ensures Enabled(e, step)
    {
      TurnEffect(e, w, |p.stay|, step);
    }
    if Untouched(list, sweep) { UntouchedStay(a, w, sweep); }
  }
}
