/**
 * The room manager under concurrency, one step for each critical section and for each call a leaver
 * makes on a room while it holds the manager's lock. Joining takes that lock only to find or create the
 * room, so its second step can meet a room that is being emptied or is no longer in the manager.
 */
module RoomLocks {
  import opened Options
  import opened Rooms

  /** The address of a room, and a goroutine. */
  type Ref = nat
  type Thread = nat

  /** A join that has its room and has not yet added its member. */
  datatype Joining = Joining(name: Name, ref: Ref, id: Id)

  /** What a leaver has done with the room it is at. */
  datatype Phase = Found | Removed | Measured(empty: bool)

  /** The manager's lock, and what the goroutine that holds it is doing; `todo` are rooms it will visit. */
  datatype Lock =
    | Free
    | At(thread: Thread, id: Id, name: Name, phase: Phase, todo: set<Name>)
    | Between(thread: Thread, id: Id, todo: set<Name>)

  datatype State = State(rooms: map<Name, Ref>, heap: map<Ref, set<Id>>, next: Ref,
                         joining: map<Thread, Joining>, lock: Lock)

  const EMPTY: State := State(map[], map[], 0, map[], Free)

  datatype Action =
    | JoinFind(thread: Thread, name: Name, id: Id)
    | JoinAdd(thread: Thread)
    | Leave(thread: Thread, name: Name, id: Id)
    | LeaveAll(thread: Thread, id: Id)
    | Visit(name: Name)
    | Remove
    | Measure
    | Finish
    | Unlock
    | Clear(name: Name)

  /** The state after a step; None when the step is not possible. */
  function Step(s: State, a: Action): Option<State> {
    match a
    case JoinFind(t, n, i) =>
      if s.lock != Free || t in s.joining then None
      else if n in s.rooms then Some(s.(joining := s.joining[t := Joining(n, s.rooms[n], i)]))
      else Some(s.(rooms := s.rooms[n := s.next], heap := s.heap[s.next := {}], next := s.next + 1,
                   joining := s.joining[t := Joining(n, s.next, i)]))
    case JoinAdd(t) =>
      if t !in s.joining then None
      else
        var j := s.joining[t];
        var members := if j.ref in s.heap then s.heap[j.ref] else {};
        Some(s.(heap := s.heap[j.ref := members + {j.id}], joining := s.joining - {t}))
    case Leave(t, n, i) =>
      if s.lock != Free then None
      else if n !in s.rooms then Some(s)
      else Some(s.(lock := At(t, i, n, Found, {})))
    case LeaveAll(t, i) =>
      if s.lock != Free then None else Some(s.(lock := Between(t, i, s.rooms.Keys)))
    case Visit(n) =>
      if !s.lock.Between? || n !in s.lock.todo then None
      else Some(s.(lock := At(s.lock.thread, s.lock.id, n, Found, s.lock.todo - {n})))
    case Remove =>
      if !s.lock.At? || s.lock.phase != Found || !Mapped(s, s.lock.name) then None
      else
        var r := s.rooms[s.lock.name];
        Some(s.(heap := s.heap[r := s.heap[r] - {s.lock.id}], lock := s.lock.(phase := Removed)))
    case Measure =>
      if !s.lock.At? || s.lock.phase != Removed || !Mapped(s, s.lock.name) then None
      else Some(s.(lock := s.lock.(phase := Measured(s.heap[s.rooms[s.lock.name]] == {}))))
    case Finish =>
      if !s.lock.At? || !s.lock.phase.Measured? then None
      else Some(s.(rooms := if s.lock.phase.empty then s.rooms - {s.lock.name} else s.rooms,
                   lock := Between(s.lock.thread, s.lock.id, s.lock.todo)))
    case Unlock =>
      if !s.lock.Between? || s.lock.todo != {} then None else Some(s.(lock := Free))
    case Clear(n) =>
      if s.lock != Free then None else Some(s.(rooms := s.rooms - {n}))
  }

  /** The state after some further steps; None when one of them is not possible. */
  function RunFrom(s: State, run: seq<Action>): Option<State> {
    if run == [] then Some(s)
    else
      match RunFrom(s, run[..|run| - 1])
      case None => None
      case Some(s') => Step(s', run[|run| - 1])
  }

  function Run(run: seq<Action>): Option<State> {
    RunFrom(EMPTY, run)
  }

  predicate Mapped(s: State, n: Name) {
    n in s.rooms && s.rooms[n] in s.heap
  }

  // ----- the invariant -----

  ghost predicate HeldByJoin(s: State, r: Ref) {
    exists t :: t in s.joining && s.joining[t].ref == r
  }

  predicate HeldByLeaver(s: State, n: Name) {
    s.lock.At? && s.lock.name == n && (s.lock.phase == Removed || s.lock.phase == Measured(true))
  }

  /** An empty room in the manager is about to be joined, or about to be dropped by the holder of the lock. */
  ghost predicate EmptyIsHeld(s: State) {
    forall n :: Mapped(s, n) && s.heap[s.rooms[n]] == {} ==> HeldByJoin(s, s.rooms[n]) || HeldByLeaver(s, n)
  }

  ghost predicate WellShaped(s: State) {
    && (forall n :: n in s.rooms ==> Mapped(s, n))
    && (forall r :: r in s.heap ==> r < s.next)
    && (forall t :: t in s.joining ==> s.joining[t].ref in s.heap)
    && (forall n, n' :: n in s.rooms && n' in s.rooms && s.rooms[n] == s.rooms[n'] ==> n == n')
    && (forall t, n :: t in s.joining && n in s.rooms && s.rooms[n] == s.joining[t].ref ==> n == s.joining[t].name)
    && (s.lock.At? ==> s.lock.name in s.rooms && s.lock.name !in s.lock.todo)
    && (s.lock != Free ==> s.lock.todo <= s.rooms.Keys)
  }

  ghost predicate Inv(s: State)
  {
    WellShaped(s) && EmptyIsHeld(s)
  }

  lemma FindShaped(s: State, t: Thread, n: Name, i: Id)
    requires WellShaped(s) && s.lock == Free && t !in s.joining && n in s.rooms
    ensures WellShaped(s.(joining := s.joining[t := Joining(n, s.rooms[n], i)]))
  {
  }

  lemma CreateShaped(s: State, n: Name)
    requires WellShaped(s) && s.lock == Free && n !in s.rooms
    ensures WellShaped(s.(rooms := s.rooms[n := s.next], heap := s.heap[s.next := {}], next := s.next + 1))
  {
  }

  lemma {:induction false} JoinFindShaped(s: State, a: Action)
    requires WellShaped(s) && Step(s, a).Some? && a.JoinFind?
    ensures WellShaped(Step(s, a).value)
  {
    if a.name in s.rooms {
      FindShaped(s, a.thread, a.name, a.id);
    } else {
      var s1 := s.(rooms := s.rooms[a.name := s.next], heap := s.heap[s.next := {}], next := s.next + 1);
      CreateShaped(s, a.name);
      FindShaped(s1, a.thread, a.name, a.id);
      assert Step(s, a).value == s1.(joining := s1.joining[a.thread := Joining(a.name, s1.rooms[a.name], a.id)]);
    }
    hide WellShaped;
  }

  lemma JoinAddShaped(s: State, a: Action)
    requires WellShaped(s) && Step(s, a).Some? && a.JoinAdd?
    ensures WellShaped(Step(s, a).value)
  {
  }

  /** The steps that change neither the table nor the joins. */
  lemma LockShaped(s: State, a: Action)
    requires WellShaped(s) && Step(s, a).Some?
    requires a.Leave? || a.LeaveAll? || a.Visit? || a.Measure? || a.Unlock? || a.Remove?
    ensures WellShaped(Step(s, a).value)
  {
  }

  lemma {:induction false} StepShaped(s: State, a: Action)
    requires WellShaped(s) && Step(s, a).Some?
    ensures WellShaped(Step(s, a).value)
  {
    match a {
      case JoinFind(_, _, _) => JoinFindShaped(s, a);
      case JoinAdd(_) => JoinAddShaped(s, a);
      case Finish =>
      case Clear(_) =>
      case _ =>
        LockShaped(s, a);
        hide WellShaped;
    }
  }

  lemma {:induction false} JoinFindHolds(s: State, a: Action)
    requires Inv(s) && Step(s, a).Some? && a.JoinFind?
    ensures EmptyIsHeld(Step(s, a).value)
  {
    var s' := Step(s, a).value;
    assert a.thread in s'.joining;
    forall n | n in s'.rooms && s'.heap[s'.rooms[n]] == {}
      ensures HeldByJoin(s', s'.rooms[n]) || HeldByLeaver(s', n)
    {
      if s'.joining[a.thread].ref != s'.rooms[n] {
        assert n in s.rooms && s.heap[s.rooms[n]] == {};
        var t :| t in s.joining && s.joining[t].ref == s.rooms[n];
        assert t in s'.joining && s'.joining[t].ref == s'.rooms[n];
      }
    }
  }

  lemma {:induction false} JoinAddHolds(s: State, a: Action)
    requires Inv(s) && Step(s, a).Some? && a.JoinAdd?
    ensures EmptyIsHeld(Step(s, a).value)
  {
    var s' := Step(s, a).value;
    var j := s.joining[a.thread];
    assert j.id in s'.heap[j.ref];
    forall n | n in s'.rooms && s'.heap[s'.rooms[n]] == {}
      ensures HeldByJoin(s', s'.rooms[n]) || HeldByLeaver(s', n)
    {
      assert s.rooms[n] != j.ref && s.heap[s.rooms[n]] == {};
      if !HeldByLeaver(s, n) {
        var t :| t in s.joining && s.joining[t].ref == s.rooms[n];
        assert t in s'.joining && s'.joining[t].ref == s'.rooms[n];
      }
    }
  }

  lemma {:induction false} OtherHolds(s: State, a: Action)
    requires Inv(s) && Step(s, a).Some? && !a.JoinFind? && !a.JoinAdd?
    ensures EmptyIsHeld(Step(s, a).value)
  {
    var s' := Step(s, a).value;
    assert s'.joining == s.joining;
    forall n | n in s'.rooms && s'.heap[s'.rooms[n]] == {}
      ensures HeldByJoin(s', s'.rooms[n]) || HeldByLeaver(s', n)
    {
      assert n in s.rooms && s'.rooms[n] == s.rooms[n];
      if HeldByJoin(s, s.rooms[n]) {
        var t :| t in s.joining && s.joining[t].ref == s.rooms[n];
        assert t in s'.joining && s'.joining[t].ref == s'.rooms[n];
      }
    }
  }

  lemma {:induction false} RunKeepsInv(run: seq<Action>)
    requires Run(run).Some?
    ensures Inv(Run(run).value)
  {
    if run != [] {
      RunKeepsInv(run[..|run| - 1]);
      var s, a := Run(run[..|run| - 1]).value, run[|run| - 1];
      StepShaped(s, a);
      if a.JoinFind? {
        JoinFindHolds(s, a);
      } else if a.JoinAdd? {
        JoinAddHolds(s, a);
      } else {
        OtherHolds(s, a);
      }
    }
  }

  /** When nobody is joining and nobody holds the lock, no room in the manager is empty. */
  lemma {:induction false} QuietHasNoEmptyRoom(run: seq<Action>)
    requires Run(run).Some? && Run(run).value.joining == map[] && Run(run).value.lock == Free
    ensures var s := Run(run).value;
            forall n :: n in s.rooms ==> s.rooms[n] in s.heap && s.heap[s.rooms[n]] != {}
  {
    RunKeepsInv(run);
  }

  // ----- membership -----

  /** Whether the manager finds `i` in room `n`. */
  predicate Visible(s: State, n: Name, i: Id) {
    Mapped(s, n) && i in s.heap[s.rooms[n]]
  }

  /**
   * The member a join adds is visible in exactly the rooms where it was before, and in those that still
   * are the room that the join had found.
   */
  lemma {:induction false} JoinAddShows(run: seq<Action>, t: Thread)
    requires Run(run).Some? && t in Run(run).value.joining
    ensures var s := Run(run).value;
            var s', j := Step(s, JoinAdd(t)).value, s.joining[t];
            forall n :: Visible(s', n, j.id) <==> Visible(s, n, j.id) || (n in s.rooms && s.rooms[n] == j.ref)
  {
    RunKeepsInv(run);
  }

  /** A leaver has found the room empty and will drop it. */
  predicate Doomed(s: State, n: Name) {
    s.lock.At? && s.lock.name == n && s.lock.phase == Measured(true)
  }

  predicate Lasting(s: State, n: Name, i: Id) {
    Visible(s, n, i) && !Doomed(s, n)
  }

  /** The step is a clear of the room, or a leaver taking the member out of it. */
  predicate TakesOut(s: State, a: Action, n: Name, i: Id) {
    a == Clear(n) || (a == Remove && s.lock.At? && s.lock.name == n && s.lock.id == i)
  }

  predicate PutsIn(s: State, a: Action, n: Name, i: Id) {
    && a.JoinAdd? && a.thread in s.joining && s.joining[a.thread].id == i
    && n in s.rooms && s.rooms[n] == s.joining[a.thread].ref
  }

  lemma {:induction false} JoinFindLasts(s: State, a: Action, n: Name, i: Id)
    requires WellShaped(s) && Step(s, a).Some? && a.JoinFind?
    ensures Lasting(Step(s, a).value, n, i) <==> Lasting(s, n, i)
  {
    if n in s.rooms {
      assert Step(s, a).value.rooms[n] == s.rooms[n];
    }
  }

  /** A member that lasts stays until it is taken out, and one that does not appears only when put in. */
  lemma {:induction false} LastingStep(s: State, a: Action, n: Name, i: Id)
    requires WellShaped(s) && Step(s, a).Some?
    ensures var s' := Step(s, a).value;
            && (Lasting(s, n, i) && !TakesOut(s, a, n, i) ==> Lasting(s', n, i))
            && (Lasting(s', n, i) ==> Lasting(s, n, i) || PutsIn(s, a, n, i))
            && (PutsIn(s, a, n, i) ==> (Lasting(s', n, i) <==> !Doomed(s, n)))
  {
    if a.JoinFind? {
      JoinFindLasts(s, a, n, i);
      hide WellShaped, Lasting, Doomed;
    }
  }

  ghost predicate NeverTakenOut(s: State, later: seq<Action>, n: Name, i: Id) {
    forall k :: 0 <= k < |later| && RunFrom(s, later[..k]).Some? ==>
      !TakesOut(RunFrom(s, later[..k]).value, later[k], n, i)
  }

  ghost predicate NeverPutIn(s: State, later: seq<Action>, n: Name, i: Id) {
    forall k :: 0 <= k < |later| && RunFrom(s, later[..k]).Some? ==>
      !PutsIn(RunFrom(s, later[..k]).value, later[k], n, i)
  }

  lemma {:induction false} LastingRun(s: State, later: seq<Action>, n: Name, i: Id)
    requires WellShaped(s) && RunFrom(s, later).Some?
    ensures var s' := RunFrom(s, later).value;
            && WellShaped(s')
            && (NeverTakenOut(s, later, n, i) && Lasting(s, n, i) ==> Lasting(s', n, i))
            && (NeverPutIn(s, later, n, i) && Lasting(s', n, i) ==> Lasting(s, n, i))
  {
    if later != [] {
      var before := later[..|later| - 1];
      assert forall k :: 0 <= k < |before| ==> before[..k] == later[..k] && before[k] == later[k];
      LastingRun(s, before, n, i);
      var s', a := RunFrom(s, before).value, later[|later| - 1];
      StepShaped(s', a);
      LastingStep(s', a, n, i);
      hide Step, Lasting, TakesOut, PutsIn, WellShaped;
    }
  }

  /**
   * A join lasts exactly when, at its second step, the manager still has the room it found and no leaver
   * has found that room empty: then its member is visible whenever the lock is next free, until it leaves
   * or the room is cleared; and otherwise it is not, unless it was a lasting member before or joins again.
   */
  lemma {:induction false} JoinLastsIff(run: seq<Action>, t: Thread, later: seq<Action>)
    requires Run(run).Some? && t in Run(run).value.joining
    requires var s := Run(run).value;
             var s1, j := Step(s, JoinAdd(t)).value, s.joining[t];
             && RunFrom(s1, later).Some? && RunFrom(s1, later).value.lock == Free
             && NeverTakenOut(s1, later, j.name, j.id)
    ensures var s := Run(run).value;
            var s1, j := Step(s, JoinAdd(t)).value, s.joining[t];
            var kept := j.name in s.rooms && s.rooms[j.name] == j.ref && !Doomed(s, j.name);
            var visible := Visible(RunFrom(s1, later).value, j.name, j.id);
            && (kept ==> visible)
            && (NeverPutIn(s1, later, j.name, j.id) ==> (visible <==> kept || Lasting(s, j.name, j.id)))
  {
    RunKeepsInv(run);
    var s := Run(run).value;
    var j := s.joining[t];
    StepShaped(s, JoinAdd(t));
    LastingStep(s, JoinAdd(t), j.name, j.id);
    LastingRun(Step(s, JoinAdd(t)).value, later, j.name, j.id);
    hide RunFrom, WellShaped, NeverTakenOut, NeverPutIn;
  }

  lemma {:induction false} RunThen(run: seq<Action>, a: Action)
    requires Run(run).Some?
    ensures Run(run + [a]) == Step(Run(run).value, a)
  {
    assert (run + [a])[..|run|] == run;
  }

  /** A join can succeed and leave its member invisible: the room was cleared between its two steps. */
  lemma {:induction false} JoinCanBeLost(n: Name, i: Id)
    ensures var run := [] + [JoinFind(0, n, i)] + [Clear(n)] + [JoinAdd(0)];
            Run(run).Some? && !Visible(Run(run).value, n, i) && Run(run).value.rooms == map[]
  {
    RunThen([], JoinFind(0, n, i));
    RunThen([] + [JoinFind(0, n, i)], Clear(n));
    RunThen([] + [JoinFind(0, n, i)] + [Clear(n)], JoinAdd(0));
    hide RunFrom;
  }

  /** One member is in the room, another is joining it, and the first has begun to leave. */
  lemma {:induction false} LeaverFound(n: Name, i: Id, k: Id) returns (s: State)
    ensures Run([] + [JoinFind(0, n, i)] + [JoinAdd(0)] + [JoinFind(1, n, k)] + [Leave(2, n, i)]) == Some(s)
    ensures s.rooms == map[n := 0] && s.heap == map[0 := {i}]
    ensures s.joining == map[1 := Joining(n, 0, k)] && s.lock == At(2, i, n, Found, {})
  {
    var s1 := Step(EMPTY, JoinFind(0, n, i)).value;
    var s2 := Step(s1, JoinAdd(0)).value;
    var s3 := Step(s2, JoinFind(1, n, k)).value;
    s := Step(s3, Leave(2, n, i)).value;
    assert Step(EMPTY, JoinFind(0, n, i)) == Some(s1) && Step(s1, JoinAdd(0)) == Some(s2);
    assert s2.rooms == map[n := 0] && s2.heap == map[0 := {i}] && s2.joining == map[] by {
      assert {} + {i} == {i};
    }
    assert Step(s2, JoinFind(1, n, k)) == Some(s3) && Step(s3, Leave(2, n, i)) == Some(s);
    hide Step;
    var r1 := [] + [JoinFind(0, n, i)];
    RunThen([], JoinFind(0, n, i));
    RunThen(r1, JoinAdd(0));
    RunThen(r1 + [JoinAdd(0)], JoinFind(1, n, k));
    RunThen(r1 + [JoinAdd(0)] + [JoinFind(1, n, k)], Leave(2, n, i));
    hide RunFrom;
  }

  /**
   * Nor does it take a clear: another member's leave that has found the room empty drops it with the one
   * who has joined since.
   */
  lemma {:induction false} JoinCanBeDropped(n: Name, i: Id, k: Id)
    ensures var joined := [] + [JoinFind(0, n, i)] + [JoinAdd(0)] + [JoinFind(1, n, k)]
                          + [Leave(2, n, i)] + [Remove] + [Measure] + [JoinAdd(1)];
            var run := joined + [Finish] + [Unlock];
            && Run(joined).Some? && Visible(Run(joined).value, n, k)
            && Run(run).Some? && Run(run).value.rooms == map[] && Run(run).value.lock == Free
  {
    var s4 := LeaverFound(n, i, k);
    var s5, s6 := Step(s4, Remove).value, Step(Step(s4, Remove).value, Measure).value;
    assert s5.heap[0] == {};
    var s7 := Step(s6, JoinAdd(1)).value;
    var s8 := Step(s7, Finish).value;
    assert Step(s4, Remove) == Some(s5) && Step(s5, Measure) == Some(s6) && Step(s6, JoinAdd(1)) == Some(s7);
    assert Step(s7, Finish) == Some(s8) && Step(s8, Unlock).Some?;
    assert Visible(s7, n, k) && s8.rooms == map[] && Step(s8, Unlock).value == s8.(lock := Free);
    hide Step;
    var r4 := [] + [JoinFind(0, n, i)] + [JoinAdd(0)] + [JoinFind(1, n, k)] + [Leave(2, n, i)];
    RunThen(r4, Remove);
    RunThen(r4 + [Remove], Measure);
    RunThen(r4 + [Remove] + [Measure], JoinAdd(1));
    var joined := r4 + [Remove] + [Measure] + [JoinAdd(1)];
    RunThen(joined, Finish);
    RunThen(joined + [Finish], Unlock);
    hide RunFrom;
  }
}
