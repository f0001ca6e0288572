/**
 * The rooms a connection believes it is in, under concurrency: `joined` is changed under the
 * connection's own lock and the manager's rooms under the manager's, one after the other, so other
 * operations, also on the same connection, can come between.
 */
module RoomIndex {
  import opened Options
  import opened Rooms
  import L = RoomLocks
  import R = Registry

  type Thread = L.Thread

  const NO_ROOM: Name := R.NO_ROOM
  const MAX_ROOMS: nat := R.MAX_ROOMS

  /**
   * What a goroutine still has to do: ask the manager to join or to leave a room, ask it to leave all
   * rooms, or reset the connection's own set after that.
   */
  datatype Pending = Marked(id: Id, room: Name) | Unmarked(id: Id, room: Name) | Emptying(id: Id) | Emptied(id: Id)

  datatype State = State(locks: L.State, joined: map<Id, set<Name>>, pending: map<Thread, Pending>)

  const NOTHING: State := State(L.EMPTY, map[], map[])

  function JoinedOf(s: State, i: Id): set<Name> {
    if i in s.joined then s.joined[i] else {}
  }

  datatype Action =
    | Mark(thread: Thread, id: Id, room: Name)
    | Unmark(thread: Thread, id: Id, room: Name)
    | StartEmptying(thread: Thread, id: Id)
    | Reset(thread: Thread)
    | Manager(step: L.Action)

  /** A goroutine calls the manager for what it has pending; anyone may clear a room. */
  predicate Allowed(s: State, a: L.Action) {
    match a
    case JoinFind(t, n, i) => t in s.pending && s.pending[t] == Marked(i, n)
    case Leave(t, n, i) => t in s.pending && s.pending[t] == Unmarked(i, n)
    case LeaveAll(t, i) => t in s.pending && s.pending[t] == Emptying(i)
    case _ => true
  }

  /** What is pending after a step of the manager that leads to `l`. */
  function PendingAfter(s: State, a: L.Action, l: L.State): map<Thread, Pending> {
    match a
    case JoinAdd(t) => s.pending - {t}
    case Leave(t, _, _) => if l.lock == L.Free then s.pending - {t} else s.pending
    case Unlock =>
      if s.locks.lock == L.Free then s.pending
      else
        var t := s.locks.lock.thread;
        if t in s.pending && s.pending[t].Emptying? then s.pending[t := Emptied(s.pending[t].id)]
        else s.pending - {t}
    case _ => s.pending
  }

  /** The state after a step; None when the step is not possible. */
  function Step(s: State, a: Action): Option<State> {
    match a
    case Mark(t, i, r) =>
      if t in s.pending then None
      else if r == NO_ROOM || r in JoinedOf(s, i) || |JoinedOf(s, i)| >= MAX_ROOMS then Some(s)
      else Some(s.(joined := s.joined[i := JoinedOf(s, i) + {r}], pending := s.pending[t := Marked(i, r)]))
    case Unmark(t, i, r) =>
      if t in s.pending then None
      else Some(s.(joined := s.joined[i := JoinedOf(s, i) - {r}], pending := s.pending[t := Unmarked(i, r)]))
    case StartEmptying(t, i) =>
      if t in s.pending then None else Some(s.(pending := s.pending[t := Emptying(i)]))
    case Reset(t) =>
      if t !in s.pending || !s.pending[t].Emptied? then None
      else Some(s.(joined := s.joined[s.pending[t].id := {}], pending := s.pending - {t}))
    case Manager(b) =>
      if !Allowed(s, b) then None
      else
        var l := L.Step(s.locks, b);
        if l.None? then None else Some(s.(locks := l.value, pending := PendingAfter(s, b, l.value)))
  }

  function Run(run: seq<Action>): Option<State> {
    if run == [] then Some(NOTHING)
    else
      match Run(run[..|run| - 1])
      case None => None
      case Some(s) => Step(s, run[|run| - 1])
  }

  // ----- the limit -----

  ghost predicate Limited(s: State) {
    forall i :: |JoinedOf(s, i)| <= MAX_ROOMS && NO_ROOM !in JoinedOf(s, i)
  }

  /** What a step makes of the set of one connection. */
  lemma JoinedStep(s: State, a: Action, i: Id)
    requires Step(s, a).Some?
    ensures var j, j' := JoinedOf(s, i), JoinedOf(Step(s, a).value, i);
            match a
            case Mark(t, x, r) =>
              || j' == j
              || (x == i && j' == j + {r} && r != NO_ROOM && |j| < MAX_ROOMS
                  && Step(s, a).value.pending == s.pending[t := Marked(i, r)])
            case Unmark(_, x, r) => j' == if x == i then j - {r} else j
            case Reset(t) => t in s.pending && j' == if s.pending[t].id == i then {} else j
            case _ => j' == j
  {
    hide L.Step, Allowed, PendingAfter;
  }

  lemma {:induction false} StepLimited(s: State, a: Action)
    requires Limited(s) && Step(s, a).Some?
    ensures Limited(Step(s, a).value)
  {
    var s' := Step(s, a).value;
    forall i
      ensures |JoinedOf(s', i)| <= MAX_ROOMS && NO_ROOM !in JoinedOf(s', i)
    {
      JoinedStep(s, a, i);
      hide Step, JoinedOf;
      assert |JoinedOf(s, i)| <= MAX_ROOMS;
      assert a.Unmark? ==> |JoinedOf(s, i) - {a.room}| <= |JoinedOf(s, i)|;
    }
  }

  /** However joins, leaves and teardowns interleave, no connection is ever in more than 100 rooms by its own count. */
  lemma {:induction false} JoinedIsLimited(run: seq<Action>)
    requires Run(run).Some?
    ensures Limited(Run(run).value) && forall i :: |JoinedOf(Run(run).value, i)| <= 100
  {
    if run != [] {
      JoinedIsLimited(run[..|run| - 1]);
      StepLimited(Run(run[..|run| - 1]).value, run[|run| - 1]);
      hide Limited, Step;
    }
  }

  // ----- who is in the middle of what -----

  /** An operation on the connection, on this room or on all. */
  predicate Concerns(p: Pending, n: Name, i: Id) {
    p.id == i && (p.Emptying? || p.Emptied? || p.room == n)
  }

  ghost predicate Busy(s: State, n: Name, i: Id) {
    exists t :: t in s.pending && Concerns(s.pending[t], n, i)
  }

  /** A join overlaps a leave of the same room, or a teardown, of the same connection. */
  predicate Conflict(p: Pending, q: Pending) {
    p.Marked? && (q.Emptying? || q.Emptied? || q.Unmarked?) && Concerns(q, p.room, p.id)
  }

  ghost predicate Compatible(s: State) {
    forall t, u :: t in s.pending && u in s.pending ==> !Conflict(s.pending[t], s.pending[u])
  }

  ghost predicate AlwaysCompatible(run: seq<Action>) {
    forall k :: 0 <= k <= |run| && Run(run[..k]).Some? ==> Compatible(Run(run[..k]).value)
  }

  /** What the holder of the manager's lock is there for. */
  predicate HolderPending(s: State) {
    s.locks.lock != L.Free ==>
      var k := s.locks.lock;
      && k.thread in s.pending && s.pending[k.thread].id == k.id
      && match s.pending[k.thread]
         case Emptying(_) => true
         case Unmarked(_, r) => k.todo == {} && (k.At? ==> k.name == r)
         case _ => false
  }

  /** Each join under way in the manager is one that its goroutine has pending. */
  ghost predicate JoinsPending(s: State) {
    forall t :: t in s.locks.joining ==>
      t in s.pending && s.pending[t] == Marked(s.locks.joining[t].id, s.locks.joining[t].name)
  }

  ghost predicate Shape(s: State) {
    && L.WellShaped(s.locks)
    && JoinsPending(s)
    && HolderPending(s)
  }

  predicate MarkHolds(s: State, p: Pending) {
    match p
    case Marked(i, r) => r in JoinedOf(s, i)
    case Unmarked(i, r) => r !in JoinedOf(s, i)
    case _ => true
  }

  /** `joined` has what a join in progress has marked, and not what a leave in progress has unmarked. */
  ghost predicate MarksHold(s: State) {
    forall t :: t in s.pending ==> MarkHolds(s, s.pending[t])
  }

  predicate Leaves(p: Pending, n: Name) {
    p.Emptying? || (p.Unmarked? && p.room == n)
  }

  /** Where the holder of the lock has been, its member is gone. */
  ghost predicate Swept(s: State) {
    s.locks.lock != L.Free ==>
      var k := s.locks.lock;
      forall n :: k.thread in s.pending && Leaves(s.pending[k.thread], n) && L.Visible(s.locks, n, k.id) ==>
        n in k.todo || (k.At? && k.name == n && k.phase == L.Found)
  }

  /** A member has the room in its own set, or is about to leave it; one that has left all is in no room. */
  ghost predicate Indexed(s: State) {
    && (forall n, i :: L.Visible(s.locks, n, i) ==>
          n in JoinedOf(s, i) || exists t :: t in s.pending && s.pending[t] == Unmarked(i, n))
    && (forall n, t :: t in s.pending && s.pending[t].Emptied? ==> !L.Visible(s.locks, n, s.pending[t].id))
  }

  ghost predicate Inv(s: State) {
    Shape(s) && MarksHold(s) && Swept(s) && Indexed(s)
  }

  // ----- steps on the connection's side -----

  /** What a step on the connection's side leaves pending. */
  lemma OwnStepPending(s: State, a: Action)
    requires Step(s, a).Some? && !a.Manager?
    ensures var s' := Step(s, a).value;
            && s'.locks == s.locks
            && (forall t :: t in s.pending && !s.pending[t].Emptied? ==>
                  t in s'.pending && s'.pending[t] == s.pending[t])
            && (forall t :: t in s.pending && !(a.Reset? && a.thread == t) ==>
                  t in s'.pending && s'.pending[t] == s.pending[t])
            && (forall t :: t in s'.pending && s'.pending[t].Emptied? ==>
                  t in s.pending && s.pending[t] == s'.pending[t])
            && (forall t :: t in s'.pending ==> t == a.thread || (t in s.pending && s'.pending[t] == s.pending[t]))
            && (a.Mark? && s' != s ==>
                  && a.thread in s'.pending && s'.pending[a.thread] == Marked(a.id, a.room)
                  && s'.joined == s.joined[a.id := JoinedOf(s, a.id) + {a.room}])
            && (a.Unmark? ==> a.thread in s'.pending && s'.pending[a.thread] == Unmarked(a.id, a.room))
            && (a.StartEmptying? ==> a.thread in s'.pending && s'.pending[a.thread] == Emptying(a.id))
            && (a.Reset? ==> a.thread in s.pending && s.pending[a.thread].Emptied?)
  {
    hide L.Step, Allowed, PendingAfter, JoinedOf;
  }

  lemma {:induction false} OwnStepKeepsShape(s: State, a: Action)
    requires Shape(s) && Swept(s) && Step(s, a).Some? && !a.Manager?
    ensures Shape(Step(s, a).value) && Swept(Step(s, a).value)
  {
    hide L.Visible, L.WellShaped, L.Step, Allowed, PendingAfter;
    var s' := Step(s, a).value;
    assert s'.locks == s.locks;
    assert forall t :: t in s.pending && !s.pending[t].Emptied? ==> t in s'.pending && s'.pending[t] == s.pending[t];
  }

  /** A mark that held before still holds if nothing that conflicts with it has been done. */
  lemma {:induction false} MarkStaysHeld(s: State, a: Action, t: Thread)
    requires Step(s, a).Some? && !a.Manager? && t in s.pending && MarkHolds(s, s.pending[t])
    requires Compatible(s) && Compatible(Step(s, a).value) && t in Step(s, a).value.pending
    ensures Step(s, a).value.pending[t] == s.pending[t] && MarkHolds(Step(s, a).value, s.pending[t])
  {
    OwnStepPending(s, a);
    var s', p := Step(s, a).value, s.pending[t];
    JoinedStep(s, a, p.id);
    assert a.Reset? ==> !Conflict(p, s.pending[a.thread]);
    assert a.thread in s'.pending ==> !Conflict(p, s'.pending[a.thread]) && !Conflict(s'.pending[a.thread], p);
    hide Step, JoinedOf, Compatible;
  }

  lemma {:induction false} OwnStepKeepsMarks(s: State, a: Action)
    requires MarksHold(s) && Compatible(s) && Step(s, a).Some? && Compatible(Step(s, a).value) && !a.Manager?
    ensures MarksHold(Step(s, a).value)
  {
    OwnStepPending(s, a);
    var s' := Step(s, a).value;
    assert s' == s || (a.thread in s'.pending ==> MarkHolds(s', s'.pending[a.thread])) by {
      JoinedStep(s, a, if a.Reset? then s.pending[a.thread].id else a.id);
    }
    hide Step, JoinedOf, Conflict;
    forall t | t in s'.pending
      ensures MarkHolds(s', s'.pending[t])
    {
      if t in s.pending {
        MarkStaysHeld(s, a, t);
      }
    }
  }

  lemma {:induction false} OwnStepKeepsIndexed(s: State, a: Action)
    requires Indexed(s) && Step(s, a).Some? && !a.Manager?
    ensures Indexed(Step(s, a).value)
  {
    hide L.Visible, Step, JoinedOf;
    OwnStepPending(s, a);
    var s' := Step(s, a).value;
    forall n, i | L.Visible(s'.locks, n, i)
      ensures n in JoinedOf(s', i) || exists t :: t in s'.pending && s'.pending[t] == Unmarked(i, n)
    {
      JoinedStep(s, a, i);
      if n !in JoinedOf(s, i) {
        var t :| t in s.pending && s.pending[t] == Unmarked(i, n);
        assert t in s'.pending && s'.pending[t] == Unmarked(i, n);
      } else if a.Unmark? {
        assert s'.pending[a.thread] == Unmarked(a.id, a.room);
      }
    }
  }

  // ----- steps of the manager -----

  /** A member appears only by being put in, and is gone from where it was taken out. */
  lemma {:induction false} VisibleStep(l: L.State, a: L.Action, n: Name, i: Id)
    requires L.WellShaped(l) && L.Step(l, a).Some?
    ensures var l' := L.Step(l, a).value;
            && (L.Visible(l', n, i) ==> L.Visible(l, n, i) || L.PutsIn(l, a, n, i))
            && (a == L.Remove && l.lock.name == n && l.lock.id == i ==> !L.Visible(l', n, i))
  {
  }

  lemma {:induction false} ManagerKeepsJoins(s: State, a: L.Action)
    requires HolderPending(s) && JoinsPending(s) && Step(s, Manager(a)).Some?
    ensures JoinsPending(Step(s, Manager(a)).value)
  {
  }

  lemma {:induction false} ManagerKeepsHolder(s: State, a: L.Action)
    requires HolderPending(s) && JoinsPending(s) && Step(s, Manager(a)).Some?
    ensures HolderPending(Step(s, Manager(a)).value)
  {
  }

  lemma {:induction false} ManagerKeepsShape(s: State, a: L.Action)
    requires Shape(s) && Step(s, Manager(a)).Some?
    ensures Shape(Step(s, Manager(a)).value)
  {
    L.StepShaped(s.locks, a);
    ManagerKeepsJoins(s, a);
    ManagerKeepsHolder(s, a);
    hide L.WellShaped, HolderPending, JoinsPending, L.Step;
  }

  lemma {:induction false} ManagerKeepsMarks(s: State, a: L.Action)
    requires MarksHold(s) && Step(s, Manager(a)).Some?
    ensures MarksHold(Step(s, Manager(a)).value)
  {
    hide L.Step;
  }

  /** Whoever holds the lock is not there to take out of a room one who is just joining it. */
  lemma {:induction false} JoinerIsNotHolder(s: State, a: L.Action, n: Name, i: Id)
    requires Shape(s) && Compatible(s) && L.PutsIn(s.locks, a, n, i)
    ensures a.thread in s.pending && s.pending[a.thread] == Marked(i, n)
    ensures s.locks.lock != L.Free && s.locks.lock.id == i ==>
              s.locks.lock.thread in s.pending && !Leaves(s.pending[s.locks.lock.thread], n)
  {
  }

  lemma {:induction false} ManagerKeepsSwept(s: State, a: L.Action)
    requires Shape(s) && Compatible(s) && Swept(s) && Step(s, Manager(a)).Some?
    ensures Swept(Step(s, Manager(a)).value)
  {
    var s' := Step(s, Manager(a)).value;
    var k := s'.locks.lock;
    if k != L.Free {
      forall n | k.thread in s'.pending && Leaves(s'.pending[k.thread], n) && L.Visible(s'.locks, n, k.id)
        ensures n in k.todo || (k.At? && k.name == n && k.phase == L.Found)
      {
        VisibleStep(s.locks, a, n, k.id);
        if L.PutsIn(s.locks, a, n, k.id) {
          JoinerIsNotHolder(s, a, n, k.id);
        }
        hide L.PutsIn, L.WellShaped;
      }
    }
  }

  lemma {:induction false} ManagerKeepsIndexed(s: State, a: L.Action)
    requires Inv(s) && Compatible(s) && Step(s, Manager(a)).Some?
    ensures Indexed(Step(s, Manager(a)).value)
  {
    var s' := Step(s, Manager(a)).value;
    forall n, i | L.Visible(s'.locks, n, i)
      ensures n in JoinedOf(s', i) || exists t :: t in s'.pending && s'.pending[t] == Unmarked(i, n)
    {
      VisibleStep(s.locks, a, n, i);
      if L.PutsIn(s.locks, a, n, i) {
        JoinerIsNotHolder(s, a, n, i);
      } else if n !in JoinedOf(s, i) {
        var t :| t in s.pending && s.pending[t] == Unmarked(i, n);
        StillLeaving(s, a, t, n, i);
        assert t in s'.pending && s'.pending[t] == Unmarked(i, n);
      }
    }
    forall n, t | t in s'.pending && s'.pending[t].Emptied?
      ensures !L.Visible(s'.locks, n, s'.pending[t].id)
    {
      EmptiedStays(s, a, t, n);
    }
  }

  /** A leave is not over while its member is still in the room. */
  lemma {:induction false} StillLeaving(s: State, a: L.Action, t: Thread, n: Name, i: Id)
    requires Shape(s) && Swept(s) && Step(s, Manager(a)).Some?
    requires t in s.pending && s.pending[t] == Unmarked(i, n) && L.Visible(s.locks, n, i)
    ensures var s' := Step(s, Manager(a)).value;
            t in s'.pending && s'.pending[t] == Unmarked(i, n)
  {
    hide L.WellShaped;
  }

  lemma {:induction false} EmptiedStays(s: State, a: L.Action, t: Thread, n: Name)
    requires Inv(s) && Compatible(s) && Step(s, Manager(a)).Some?
    requires var s' := Step(s, Manager(a)).value;
             t in s'.pending && s'.pending[t].Emptied?
    ensures var s' := Step(s, Manager(a)).value;
            !L.Visible(s'.locks, n, s'.pending[t].id)
  {
    var i := Step(s, Manager(a)).value.pending[t].id;
    VisibleStep(s.locks, a, n, i);
    if L.PutsIn(s.locks, a, n, i) {
      JoinerIsNotHolder(s, a, n, i);
    }
  }

  lemma {:induction false} StepKeeps(s: State, a: Action)
    requires Inv(s) && Compatible(s) && Step(s, a).Some? && Compatible(Step(s, a).value)
    ensures Inv(Step(s, a).value)
  {
    if a.Manager? {
      ManagerKeepsShape(s, a.step);
      ManagerKeepsMarks(s, a.step);
      ManagerKeepsSwept(s, a.step);
      ManagerKeepsIndexed(s, a.step);
    } else {
      OwnStepKeepsShape(s, a);
      OwnStepKeepsMarks(s, a);
      OwnStepKeepsIndexed(s, a);
    }
    hide Step, Shape, MarksHold, Swept, Indexed;
  }

  // ----- the converse -----

  /** The second step of a join for which the room it found is no longer there, or about to be dropped. */
  predicate Loses(s: State, a: Action) {
    || (a.Manager? && a.step.Clear?)
    || (a.Manager? && a.step.JoinAdd? && a.step.thread in s.locks.joining
        && var j := s.locks.joining[a.step.thread];
           !(j.name in s.locks.rooms && s.locks.rooms[j.name] == j.ref) || L.Doomed(s.locks, j.name))
  }

  ghost predicate NoLoss(run: seq<Action>) {
    forall k :: 0 <= k < |run| && Run(run[..k]).Some? ==> !Loses(Run(run[..k]).value, run[k])
  }

  predicate Excuses(p: Pending, n: Name, i: Id) {
    p.id == i && (p == Marked(i, n) || p.Emptying? || p.Emptied?)
  }

  /** Every room in a connection's set has it as a lasting member, or an operation is in progress. */
  ghost predicate FullyIndexed(s: State) {
    forall n, i :: n in JoinedOf(s, i) ==>
      L.Lasting(s.locks, n, i) || exists t :: t in s.pending && Excuses(s.pending[t], n, i)
  }

  lemma {:induction false} OwnStepKeepsFull(s: State, a: Action)
    requires FullyIndexed(s) && Step(s, a).Some? && !a.Manager?
    ensures FullyIndexed(Step(s, a).value)
  {
    hide L.Lasting, Step, JoinedOf;
    OwnStepPending(s, a);
    var s' := Step(s, a).value;
    forall n, i | n in JoinedOf(s', i)
      ensures L.Lasting(s'.locks, n, i) || exists t :: t in s'.pending && Excuses(s'.pending[t], n, i)
    {
      JoinedStep(s, a, i);
      if n !in JoinedOf(s, i) {
        assert Excuses(s'.pending[a.thread], n, i);
      } else if !L.Lasting(s.locks, n, i) {
        var t :| t in s.pending && Excuses(s.pending[t], n, i);
        assert t in s'.pending && Excuses(s'.pending[t], n, i);
      }
    }
  }

  lemma {:induction false} ManagerKeepsFull(s: State, a: L.Action)
    requires Inv(s) && FullyIndexed(s) && Step(s, Manager(a)).Some? && !Loses(s, Manager(a))
    ensures FullyIndexed(Step(s, Manager(a)).value)
  {
    var s' := Step(s, Manager(a)).value;
    forall n, i | n in JoinedOf(s', i)
      ensures L.Lasting(s'.locks, n, i) || exists t :: t in s'.pending && Excuses(s'.pending[t], n, i)
    {
      L.LastingStep(s.locks, a, n, i);
      if L.Lasting(s.locks, n, i) {
        if L.TakesOut(s.locks, a, n, i) {
          TakerExcuses(s, a, n, i);
        }
      } else {
        var t :| t in s.pending && Excuses(s.pending[t], n, i);
        ExcuseHolds(s, a, t, n, i);
      }
    }
  }

  lemma {:induction false} TakerExcuses(s: State, a: L.Action, n: Name, i: Id)
    requires Inv(s) && Step(s, Manager(a)).Some? && !Loses(s, Manager(a))
    requires n in JoinedOf(s, i) && L.TakesOut(s.locks, a, n, i)
    ensures var s' := Step(s, Manager(a)).value;
            exists t :: t in s'.pending && Excuses(s'.pending[t], n, i)
  {
    var t := s.locks.lock.thread;
    assert Excuses(s.pending[t], n, i);
  }

  lemma {:induction false} ExcuseHolds(s: State, a: L.Action, t: Thread, n: Name, i: Id)
    requires Inv(s) && Step(s, Manager(a)).Some? && !Loses(s, Manager(a))
    requires t in s.pending && Excuses(s.pending[t], n, i)
    ensures var s' := Step(s, Manager(a)).value;
            L.Lasting(s'.locks, n, i) || (t in s'.pending && Excuses(s'.pending[t], n, i))
  {
    if a.JoinAdd? && a.thread == t {
      L.LastingStep(s.locks, a, n, i);
    }
  }

  // ----- agreement -----

  lemma {:induction false} RunKeeps(run: seq<Action>)
    requires Run(run).Some? && AlwaysCompatible(run)
    ensures Inv(Run(run).value) && (NoLoss(run) ==> FullyIndexed(Run(run).value))
  {
    if run != [] {
      var before := run[..|run| - 1];
      assert forall k :: 0 <= k <= |before| ==> before[..k] == run[..k];
      RunKeeps(before);
      var s, a := Run(before).value, run[|run| - 1];
      assert run[..|run|] == run;
      assert Compatible(s) && Compatible(Run(run).value);
      assert NoLoss(run) ==> NoLoss(before) && !Loses(s, a);
      StepKeeps(s, a);
      if NoLoss(run) {
        if a.Manager? {
          ManagerKeepsFull(s, a.step);
        } else {
          OwnStepKeepsFull(s, a);
        }
      }
      hide Inv, FullyIndexed, Step, Loses, Compatible;
    }
  }

  /**
   * If no join overlaps a leave of the same room or a teardown of the same connection, then whatever else
   * goes on, a connection with no operation on a room in progress has the room in its own set if it is a
   * member of it; and if besides no room is cleared and no join is lost, exactly if it is a lasting one.
   */
  lemma {:induction false} IndexAgrees(run: seq<Action>, n: Name, i: Id)
    requires Run(run).Some? && AlwaysCompatible(run) && !Busy(Run(run).value, n, i)
    ensures var s := Run(run).value;
            && (L.Visible(s.locks, n, i) ==> n in JoinedOf(s, i))
            && (NoLoss(run) ==> (n in JoinedOf(s, i) <==> L.Lasting(s.locks, n, i)))
  {
    RunKeeps(run);
    hide Shape, MarksHold, Swept, Run, NoLoss;
  }

  lemma {:induction false} RunThen(run: seq<Action>, a: Action)
    requires Run(run).Some?
    ensures Run(run + [a]) == Step(Run(run).value, a)
  {
    assert (run + [a])[..|run|] == run;
  }

  lemma {:induction false} MarkOne(i: Id, r: Name)
    requires r != NO_ROOM
    ensures Step(NOTHING, Mark(0, i, r)) == Some(State(L.EMPTY, map[i := {r}], map[0 := Marked(i, r)]))
  {
    assert {} + {r} == {r};
  }

  /** The rest of a join, when the room is not there and nothing else goes on. */
  lemma {:induction false} JoinRest(s: State, i: Id, r: Name) returns (s1: State, s2: State)
    requires s.locks == L.EMPTY && s.pending == map[0 := Marked(i, r)]
    ensures Step(s, Manager(L.JoinFind(0, r, i))) == Some(s1)
    ensures Step(s1, Manager(L.JoinAdd(0))) == Some(s2)
    ensures s2.pending == map[] && s2.joined == s.joined && s2.locks.lock == L.Free && L.Visible(s2.locks, r, i)
  {
    s1 := Step(s, Manager(L.JoinFind(0, r, i))).value;
    s2 := Step(s1, Manager(L.JoinAdd(0))).value;
  }

  /** Leaving a room that is not there, by goroutine 1. */
  lemma {:induction false} LeaveNone(s: State, i: Id, r: Name) returns (s': State)
    requires s.locks == L.EMPTY && 1 !in s.pending && JoinedOf(s, i) == {r}
    ensures Step(s, Unmark(1, i, r)).Some?
    ensures Step(Step(s, Unmark(1, i, r)).value, Manager(L.Leave(1, r, i))) == Some(s')
    ensures s'.locks == L.EMPTY && s'.pending == s.pending && JoinedOf(s', i) == {}
  {
    s' := Step(Step(s, Unmark(1, i, r)).value, Manager(L.Leave(1, r, i))).value;
    assert s.pending[1 := Unmarked(i, r)] - {1} == s.pending;
  }

  /** A leave between the two steps of a join of the same room leaves a member that does not know it. */
  lemma {:induction false} JoinCanStraddleLeave(i: Id, r: Name)
    requires r != NO_ROOM
    ensures var run := [] + [Mark(0, i, r)] + [Unmark(1, i, r)] + [Manager(L.Leave(1, r, i))]
                       + [Manager(L.JoinFind(0, r, i))] + [Manager(L.JoinAdd(0))];
            && Run(run).Some? && Run(run).value.pending == map[] && Run(run).value.locks.lock == L.Free
            && L.Visible(Run(run).value.locks, r, i) && JoinedOf(Run(run).value, i) == {}
  {
    MarkOne(i, r);
    var s1 := State(L.EMPTY, map[i := {r}], map[0 := Marked(i, r)]);
    var s3 := LeaveNone(s1, i, r);
    var s4, s5 := JoinRest(s3, i, r);
    hide Step;
    var r1 := [] + [Mark(0, i, r)];
    RunThen([], Mark(0, i, r));
    var r2 := r1 + [Unmark(1, i, r)];
    RunThen(r1, Unmark(1, i, r));
    var r3 := r2 + [Manager(L.Leave(1, r, i))];
    RunThen(r2, Manager(L.Leave(1, r, i)));
    var r4 := r3 + [Manager(L.JoinFind(0, r, i))];
    RunThen(r3, Manager(L.JoinFind(0, r, i)));
    RunThen(r4, Manager(L.JoinAdd(0)));
    hide Run;
  }

  /** Leaving all rooms when there are none, by goroutine 1. */
  lemma {:induction false} EmptyNone(s: State, i: Id)
    requires s.locks == L.EMPTY && 1 !in s.pending
    ensures var s1 := s.(pending := s.pending[1 := Emptying(i)]);
            var s2 := s1.(locks := L.EMPTY.(lock := L.Between(1, i, {})));
            var s3 := s.(pending := s.pending[1 := Emptied(i)]);
            && Step(s, StartEmptying(1, i)) == Some(s1)
            && Step(s1, Manager(L.LeaveAll(1, i))) == Some(s2)
            && Step(s2, Manager(L.Unlock)) == Some(s3)
            && Step(s3, Reset(1)) == Some(s.(joined := s.joined[i := {}]))
  {
    var s1 := s.(pending := s.pending[1 := Emptying(i)]);
    assert L.EMPTY.rooms.Keys == {};
    assert s1.pending[1 := Emptied(i)] == s.pending[1 := Emptied(i)];
    assert s.pending[1 := Emptied(i)] - {1} == s.pending;
  }

  lemma {:induction false} TornDown(i: Id, r: Name) returns (torn: seq<Action>)
    requires r != NO_ROOM
    ensures torn == [] + [Mark(0, i, r)] + [StartEmptying(1, i)] + [Manager(L.LeaveAll(1, i))]
                    + [Manager(L.Unlock)] + [Reset(1)]
    ensures Run(torn) == Some(State(L.EMPTY, map[i := {}], map[0 := Marked(i, r)]))
  {
    MarkOne(i, r);
    EmptyNone(State(L.EMPTY, map[i := {r}], map[0 := Marked(i, r)]), i);
    assert map[i := {r}][i := {}] == map[i := {}];
    hide Step;
    var r1 := [] + [Mark(0, i, r)];
    RunThen([], Mark(0, i, r));
    var r2 := r1 + [StartEmptying(1, i)];
    RunThen(r1, StartEmptying(1, i));
    var r3 := r2 + [Manager(L.LeaveAll(1, i))];
    RunThen(r2, Manager(L.LeaveAll(1, i)));
    var r4 := r3 + [Manager(L.Unlock)];
    RunThen(r3, Manager(L.Unlock));
    torn := r4 + [Reset(1)];
    RunThen(r4, Reset(1));
    hide Run;
  }

  /** So does a teardown: the connection that is gone stays a member. */
  lemma {:induction false} JoinCanStraddleTeardown(i: Id, r: Name)
    requires r != NO_ROOM
    ensures var torn := [] + [Mark(0, i, r)] + [StartEmptying(1, i)] + [Manager(L.LeaveAll(1, i))]
                        + [Manager(L.Unlock)] + [Reset(1)];
            var run := torn + [Manager(L.JoinFind(0, r, i))] + [Manager(L.JoinAdd(0))];
            && Run(run).Some? && Run(run).value.pending == map[] && Run(run).value.locks.lock == L.Free
            && L.Visible(Run(run).value.locks, r, i) && JoinedOf(Run(run).value, i) == {}
  {
    var torn := TornDown(i, r);
    var s1, s2 := JoinRest(Run(torn).value, i, r);
    hide Step;
    var found := torn + [Manager(L.JoinFind(0, r, i))];
    RunThen(torn, Manager(L.JoinFind(0, r, i)));
    RunThen(found, Manager(L.JoinAdd(0)));
    hide Run;
  }
}
