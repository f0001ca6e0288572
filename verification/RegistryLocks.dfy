/**
 * The connection registry under concurrency, one step for each critical section: session entries under
 * one lock, the table of connections under another, the counter by itself. A connection can be removed by
 * its session's loop and by any number of callers of Close at once.
 */
module RegistryLocks {
  import opened Options
  import R = Registry

  type Thread = nat
  type ConnId = R.ConnId

  datatype Place = Place(session: R.Session, ns: R.Ns)

  /**
   * A connect has entered its connection, then added it to the table, then counts it. A removal has taken
   * the entry away, if it was there, then deletes the connection from the table, then lowers the count,
   * then calls back.
   */
  datatype Stage = Entered | Added | Unlinked | Deleted | Lowered

  datatype Pending = Pending(stage: Stage, id: ConnId)

  /**
   * `taken` are the entries of sessions being torn down that are still to be removed, `home` the place of
   * every connection ever made. `missed` counts the removals that found no entry, and `strays` those that
   * found no connection in the table.
   */
  datatype State = State(entries: map<Place, ConnId>, taken: map<Place, ConnId>, conns: set<ConnId>, count: int,
                         home: map<ConnId, Place>, ended: set<R.Session>, pending: map<Thread, Pending>,
                         calls: seq<ConnId>, missed: nat, strays: nat)

  const EMPTY: State := State(map[], map[], {}, 0, map[], {}, map[], [], 0, 0)

  predicate Linked(s: State, id: ConnId) {
    id in s.home && s.home[id] in s.entries && s.entries[s.home[id]] == id
  }

  predicate Taken(s: State, id: ConnId) {
    id in s.home && s.home[id] in s.taken && s.taken[s.home[id]] == id
  }

  ghost predicate InStage(s: State, k: Stage, id: ConnId) {
    exists t :: t in s.pending && s.pending[t] == Pending(k, id)
  }

  ghost predicate Connecting(s: State, id: ConnId) {
    InStage(s, Entered, id) || InStage(s, Added, id)
  }

  datatype Action =
    | Enter(thread: Thread, place: Place, id: ConnId)
    | Advance(thread: Thread)
    | Disconnect(thread: Thread, place: Place)
    | Remove(thread: Thread, id: ConnId)
    | EndSession(session: R.Session)
    | TearDown(thread: Thread, place: Place)

  /** What a goroutine does next. */
  function Advanced(s: State, t: Thread): State
    requires t in s.pending
  {
    var id := s.pending[t].id;
    match s.pending[t].stage
    case Entered => s.(conns := s.conns + {id}, pending := s.pending[t := Pending(Added, id)])
    case Added => s.(count := s.count + 1, pending := s.pending - {t})
    case Unlinked => s.(conns := s.conns - {id}, strays := if id in s.conns then s.strays else s.strays + 1,
                        pending := s.pending[t := Pending(Deleted, id)])
    case Deleted => s.(count := s.count - 1, pending := s.pending[t := Pending(Lowered, id)])
    case Lowered => s.(calls := s.calls + [id], pending := s.pending - {t})
  }

  /** What advancing one goroutine leaves as it is, and what it changes. */
  lemma AdvancedFrame(s: State, t: Thread)
    requires t in s.pending
    ensures var s', p := Advanced(s, t), s.pending[t];
            && s'.entries == s.entries && s'.taken == s.taken && s'.home == s.home && s'.ended == s.ended
            && (forall u :: u != t ==> (u in s'.pending <==> u in s.pending))
            && (forall u :: u in s.pending && u != t ==> s'.pending[u] == s.pending[u])
            && (t in s'.pending ==> s'.pending[t].id == p.id && s'.pending[t].stage != Entered)
            && (t in s'.pending && s'.pending[t].stage == Added <==> p.stage == Entered)
            && s'.conns == if p.stage == Entered then s.conns + {p.id}
                           else if p.stage == Unlinked then s.conns - {p.id} else s.conns
  {
    match s.pending[t].stage
    case Entered =>
    case Added =>
    case Unlinked =>
    case Deleted =>
    case Lowered =>
  }

  function Of(m: map<Place, ConnId>, session: R.Session): map<Place, ConnId> {
    map p | p in m && p.session == session :: m[p]
  }

  function NotOf(m: map<Place, ConnId>, session: R.Session): map<Place, ConnId> {
    map p | p in m && p.session != session :: m[p]
  }

  /**
   * The state after a step. A session's loop connects, disconnects and tears down one after the other, and
   * nobody else knows of a connection before it is counted, so that no removal meets one still connecting.
   */
  ghost function Step(s: State, a: Action): Option<State> {
    match a
    case Enter(t, p, id) =>
      if t in s.pending || p in s.entries || p.session in s.ended || id in s.home then None
      else Some(s.(entries := s.entries[p := id], home := s.home[id := p],
                   pending := s.pending[t := Pending(Entered, id)]))
    case Advance(t) => if t !in s.pending then None else Some(Advanced(s, t))
    case Disconnect(t, p) =>
      if t in s.pending || p !in s.entries || Connecting(s, s.entries[p]) then None
      else Some(s.(entries := s.entries - {p}, pending := s.pending[t := Pending(Unlinked, s.entries[p])]))
    case Remove(t, id) =>
      if t in s.pending || id !in s.home || Connecting(s, id) then None
      else if Linked(s, id) then
        Some(s.(entries := s.entries - {s.home[id]}, pending := s.pending[t := Pending(Unlinked, id)]))
      else Some(s.(missed := s.missed + 1, pending := s.pending[t := Pending(Unlinked, id)]))
    case EndSession(n) =>
      if n in s.ended || exists p :: p in s.entries && p.session == n && Connecting(s, s.entries[p]) then None
      else Some(s.(entries := NotOf(s.entries, n), taken := s.taken + Of(s.entries, n), ended := s.ended + {n}))
    case TearDown(t, p) =>
      if t in s.pending || p !in s.taken then None
      else Some(s.(taken := s.taken - {p}, pending := s.pending[t := Pending(Unlinked, s.taken[p])]))
  }

  ghost function Run(run: seq<Action>): Option<State> {
    if run == [] then Some(EMPTY)
    else
      match Run(run[..|run| - 1])
      case None => None
      case Some(s) => Step(s, run[|run| - 1])
  }

  // ----- how many goroutines are where -----

  function At(m: map<Thread, Pending>, k: Stage): set<Thread> {
    set t | t in m && m[t].stage == k
  }

  function One(b: bool): nat {
    if b then 1 else 0
  }

  predicate IsAt(m: map<Thread, Pending>, t: Thread, k: Stage) {
    t in m && m[t].stage == k
  }

  lemma {:induction false} AtMoved(m: map<Thread, Pending>, t: Thread, p: Pending, k: Stage)
    ensures |At(m[t := p], k)| == |At(m, k)| - One(IsAt(m, t, k)) + One(p.stage == k)
  {
    var rest := At(m, k) - {t};
    assert At(m[t := p], k) == if p.stage == k then rest + {t} else rest;
    assert t in At(m, k) <==> IsAt(m, t, k);
  }

  lemma {:induction false} AtGone(m: map<Thread, Pending>, t: Thread, k: Stage)
    requires t in m
    ensures |At(m - {t}, k)| == |At(m, k)| - One(IsAt(m, t, k))
  {
    assert At(m - {t}, k) == At(m, k) - {t};
    assert t in At(m, k) <==> IsAt(m, t, k);
  }

  function N(s: State, k: Stage): nat {
    |At(s.pending, k)|
  }

  // ----- conservation -----

  /**
   * The counter counts the table, but for connects and removals between their changes to the two, and is
   * short by the strays. Callbacks made or under way are as many as connections gone from the table and
   * strays. Removals begun, with those still to begin in a teardown, are as many as entries gone and misses.
   */
  predicate Conserved(s: State) {
    && s.count == |s.conns| - s.strays + N(s, Deleted) - N(s, Added)
    && |s.calls| + N(s, Deleted) + N(s, Lowered) + |s.conns| + N(s, Entered) == |s.home| + s.strays
    && |s.calls| + N(s, Unlinked) + N(s, Deleted) + N(s, Lowered) + |s.taken| + |s.entries| == |s.home| + s.missed
  }

  /** Where connections are: entries and table, and who is on the way between the two. */
  ghost predicate Placed(s: State) {
    && (forall p :: p in s.entries ==> s.entries[p] in s.home && s.home[s.entries[p]] == p && p.session !in s.ended)
    && (forall p :: p in s.taken ==> s.taken[p] in s.home && s.home[s.taken[p]] == p && p.session in s.ended)
    && (forall t :: t in s.pending ==> s.pending[t].id in s.home)
    && (forall id :: id in s.conns ==> id in s.home)
  }

  /** A connecting connection is linked, in the table exactly if it has been added, and connects once. */
  ghost predicate ConnectsOk(s: State) {
    && (forall t :: t in s.pending && (s.pending[t].stage == Entered || s.pending[t].stage == Added) ==>
          Linked(s, s.pending[t].id) && (s.pending[t].id in s.conns <==> s.pending[t].stage == Added))
    && (forall t, u :: t in s.pending && s.pending[t].stage == Entered && u in s.pending ==>
          s.pending[t].id == s.pending[u].id ==> t == u)
  }

  /** A connection being removed has no entry. */
  ghost predicate RemovalsOk(s: State) {
    forall t :: t in s.pending && s.pending[t].stage != Entered && s.pending[t].stage != Added ==>
      !Linked(s, s.pending[t].id)
  }

  /** Entries are in the table or about to be, and the table has entries, or what is about to be deleted. */
  ghost predicate Matched(s: State) {
    && (forall id :: Linked(s, id) ==> id in s.conns || InStage(s, Entered, id))
    && (forall id :: id in s.conns ==>
          Linked(s, id) || InStage(s, Unlinked, id) || Taken(s, id))
  }

  ghost predicate Inv(s: State) {
    Placed(s) && ConnectsOk(s) && RemovalsOk(s) && Matched(s) && Conserved(s)
  }

  // ----- each step conserves -----

  /** A goroutine moves to a stage; the counts of all stages. */
  lemma {:induction false} Moves(m: map<Thread, Pending>, t: Thread, p: Pending)
    ensures var m' := m[t := p];
            && |At(m', Entered)| == |At(m, Entered)| - One(IsAt(m, t, Entered)) + One(p.stage == Entered)
            && |At(m', Added)| == |At(m, Added)| - One(IsAt(m, t, Added)) + One(p.stage == Added)
            && |At(m', Unlinked)| == |At(m, Unlinked)| - One(IsAt(m, t, Unlinked)) + One(p.stage == Unlinked)
            && |At(m', Deleted)| == |At(m, Deleted)| - One(IsAt(m, t, Deleted)) + One(p.stage == Deleted)
            && |At(m', Lowered)| == |At(m, Lowered)| - One(IsAt(m, t, Lowered)) + One(p.stage == Lowered)
  {
    AtMoved(m, t, p, Entered);
    AtMoved(m, t, p, Added);
    AtMoved(m, t, p, Unlinked);
    AtMoved(m, t, p, Deleted);
    AtMoved(m, t, p, Lowered);
    hide At;
  }

  /** A goroutine is done; the counts of all stages. */
  lemma {:induction false} Leaves(m: map<Thread, Pending>, t: Thread)
    requires t in m
    ensures var m' := m - {t};
            && |At(m', Entered)| == |At(m, Entered)| - One(IsAt(m, t, Entered))
            && |At(m', Added)| == |At(m, Added)| - One(IsAt(m, t, Added))
            && |At(m', Unlinked)| == |At(m, Unlinked)| - One(IsAt(m, t, Unlinked))
            && |At(m', Deleted)| == |At(m, Deleted)| - One(IsAt(m, t, Deleted))
            && |At(m', Lowered)| == |At(m, Lowered)| - One(IsAt(m, t, Lowered))
  {
    AtGone(m, t, Entered);
    AtGone(m, t, Added);
    AtGone(m, t, Unlinked);
    AtGone(m, t, Deleted);
    AtGone(m, t, Lowered);
    hide At;
  }

  lemma {:induction false} AddConserves(s: State, t: Thread)
    requires Conserved(s) && t in s.pending && s.pending[t].stage == Entered && s.pending[t].id !in s.conns
    ensures Conserved(Advanced(s, t))
  {
    Moves(s.pending, t, Pending(Added, s.pending[t].id));
    hide At;
  }

  lemma {:induction false} DeleteConserves(s: State, t: Thread)
    requires Conserved(s) && t in s.pending && s.pending[t].stage == Unlinked
    ensures Conserved(Advanced(s, t))
  {
    var id := s.pending[t].id;
    var p := s.pending[t := Pending(Deleted, id)];
    Moves(s.pending, t, Pending(Deleted, id));
    WithoutOne(s.conns, id);
    hide At;
    if id in s.conns {
      assert Conserved(s.(conns := s.conns - {id}, pending := p));
    } else {
      assert Conserved(s.(conns := s.conns - {id}, strays := s.strays + 1, pending := p));
    }
    hide Conserved;
  }

  lemma {:induction false} WithoutOne(c: set<ConnId>, id: ConnId)
    ensures |c - {id}| == |c| - One(id in c)
  {
    assert id !in c ==> c - {id} == c;
  }

  lemma {:induction false} LowerConserves(s: State, t: Thread)
    requires Conserved(s) && t in s.pending && s.pending[t].stage == Deleted
    ensures Conserved(Advanced(s, t))
  {
    Moves(s.pending, t, Pending(Lowered, s.pending[t].id));
    hide At;
  }

  lemma {:induction false} LeaveConserves(s: State, t: Thread)
    requires Conserved(s) && t in s.pending && (s.pending[t].stage == Added || s.pending[t].stage == Lowered)
    ensures Conserved(Advanced(s, t))
  {
    Leaves(s.pending, t);
    hide At;
  }

  lemma {:induction false} AdvanceConserves(s: State, t: Thread)
    requires ConnectsOk(s) && Conserved(s) && t in s.pending
    ensures Conserved(Advanced(s, t))
  {
    hide Conserved, Advanced;
    match s.pending[t].stage {
      case Entered => AddConserves(s, t);
      case Unlinked => DeleteConserves(s, t);
      case Deleted => LowerConserves(s, t);
      case _ => LeaveConserves(s, t);
    }
  }

  lemma FewerEntries(m: map<Place, ConnId>, p: Place)
    requires p in m
    ensures |m - {p}| == |m| - 1
  {
    assert (m - {p}).Keys == m.Keys - {p};
  }

  lemma {:induction false} MoreKeys<A, B>(m: map<A, B>, a: A, b: B)
    requires a !in m
    ensures |m[a := b]| == |m| + 1
  {
    assert m[a := b].Keys == m.Keys + {a};
  }

  lemma {:induction false} SplitSizes(m: map<Place, ConnId>, taken: map<Place, ConnId>, n: R.Session)
    requires forall p :: p in taken ==> p.session != n
    ensures |NotOf(m, n)| + |taken + Of(m, n)| == |m| + |taken|
  {
    assert m.Keys == NotOf(m, n).Keys + Of(m, n).Keys && NotOf(m, n).Keys !! Of(m, n).Keys;
    assert (taken + Of(m, n)).Keys == taken.Keys + Of(m, n).Keys && taken.Keys !! Of(m, n).Keys;
  }

  /** A removal begins: a goroutine that was idle, and one entry less, or a miss. */
  lemma {:induction false} RemovalBegins(s: State, s': State, t: Thread, id: ConnId)
    requires Conserved(s) && t !in s.pending && s'.pending == s.pending[t := Pending(Unlinked, id)]
    requires s'.count == s.count && s'.conns == s.conns && s'.strays == s.strays && s'.calls == s.calls
    requires |s'.home| == |s.home|
    requires |s'.taken| + |s'.entries| + 1 + s.missed == |s.taken| + |s.entries| + s'.missed
    ensures Conserved(s')
  {
    Moves(s.pending, t, Pending(Unlinked, id));
    hide At;
  }

  lemma {:induction false} EnterConserves(s: State, t: Thread, p: Place, id: ConnId)
    requires Conserved(s) && t !in s.pending && p !in s.entries && id !in s.home
    ensures Conserved(s.(entries := s.entries[p := id], home := s.home[id := p],
                         pending := s.pending[t := Pending(Entered, id)]))
  {
    Moves(s.pending, t, Pending(Entered, id));
    MoreKeys(s.entries, p, id);
    MoreKeys(s.home, id, p);
    hide At;
  }

  lemma {:induction false} EndConserves(s: State, n: R.Session)
    requires Conserved(s) && Placed(s) && n !in s.ended
    ensures Conserved(s.(entries := NotOf(s.entries, n), taken := s.taken + Of(s.entries, n), ended := s.ended + {n}))
  {
    SplitSizes(s.entries, s.taken, n);
    hide Of, NotOf, At, Placed;
  }

  lemma {:induction false} DropConserves(s: State, s': State, a: Action)
    requires Conserved(s) && (a.Disconnect? || a.Remove? || a.TearDown?) && Step(s, a) == Some(s')
    ensures Conserved(s')
  {
    hide Conserved, Connecting;
    match a {
      case Disconnect(t, p) =>
        FewerEntries(s.entries, p);
        RemovalBegins(s, s', t, s.entries[p]);
      case Remove(t, id) =>
        if Linked(s, id) {
          FewerEntries(s.entries, s.home[id]);
        }
        RemovalBegins(s, s', t, id);
      case TearDown(t, p) =>
        FewerEntries(s.taken, p);
        RemovalBegins(s, s', t, s.taken[p]);
    }
  }

  lemma {:induction false} StepConserves(s: State, a: Action)
    requires Placed(s) && ConnectsOk(s) && Conserved(s) && Step(s, a).Some?
    ensures Conserved(Step(s, a).value)
  {
    hide Connecting, Conserved, ConnectsOk, Placed, Advanced, Of, NotOf, Linked;
    match a {
      case Enter(t, p, id) => EnterConserves(s, t, p, id);
      case Advance(t) => AdvanceConserves(s, t);
      case EndSession(n) => EndConserves(s, n);
      case _ => DropConserves(s, Step(s, a).value, a);
    }
  }

  // ----- each step keeps the rest -----

  lemma {:induction false} EndPlaces(s: State, n: R.Session)
    requires Placed(s) && n !in s.ended
    ensures Placed(s.(entries := NotOf(s.entries, n), taken := s.taken + Of(s.entries, n), ended := s.ended + {n}))
  {
  }

  lemma {:induction false} AdvancePlaces(s: State, t: Thread)
    requires Placed(s) && t in s.pending
    ensures Placed(Advanced(s, t))
  {
    AdvancedFrame(s, t);
    hide Advanced;
    var s' := Advanced(s, t);
    assert forall u :: u in s'.pending ==> u in s.pending && s'.pending[u].id == s.pending[u].id;
  }

  /** A removal takes an entry away, at most, and is pending for a connection that was made. */
  lemma DropPlaces(s: State, a: Action)
    requires Placed(s) && (a.Disconnect? || a.Remove? || a.TearDown?) && Step(s, a).Some?
    ensures Placed(Step(s, a).value)
  {
    hide Connecting, Linked, Advanced, Of, NotOf;
  }

  lemma EnterPlaces(s: State, a: Action)
    requires Placed(s) && a.Enter? && Step(s, a).Some?
    ensures Placed(Step(s, a).value)
  {
    hide Connecting, Linked, Advanced, Of, NotOf;
  }

  lemma {:induction false} StepPlaces(s: State, a: Action)
    requires Placed(s) && Step(s, a).Some?
    ensures Placed(Step(s, a).value)
  {
    hide Connecting, Linked, Placed, Advanced, Of, NotOf;
    match a {
      case Enter(_, _, _) => EnterPlaces(s, a);
      case Advance(t) => AdvancePlaces(s, t);
      case EndSession(n) => EndPlaces(s, n);
      case _ => DropPlaces(s, a);
    }
  }

  lemma {:induction false} AdvanceConnects(s: State, t: Thread)
    requires ConnectsOk(s) && RemovalsOk(s) && t in s.pending
    ensures ConnectsOk(Advanced(s, t))
  {
    AdvancedFrame(s, t);
    hide Advanced;
    var s' := Advanced(s, t);
    assert forall id :: Linked(s', id) == Linked(s, id);
    hide Linked;
  }

  /** Any other step leaves alone what is connecting. */
  lemma {:induction false} OtherConnects(s: State, a: Action)
    requires Placed(s) && ConnectsOk(s) && Step(s, a).Some? && !a.Advance?
    ensures ConnectsOk(Step(s, a).value)
  {
    var s' := Step(s, a).value;
    forall t | t in s'.pending && (s'.pending[t].stage == Entered || s'.pending[t].stage == Added)
      ensures Linked(s', s'.pending[t].id) && (s'.pending[t].id in s'.conns <==> s'.pending[t].stage == Added)
    {
      if t in s.pending {
        assert s'.pending[t] == s.pending[t] && Connecting(s, s.pending[t].id);
      }
    }
  }

  lemma {:induction false} StepConnects(s: State, a: Action)
    requires Placed(s) && ConnectsOk(s) && RemovalsOk(s) && Step(s, a).Some?
    ensures ConnectsOk(Step(s, a).value)
  {
    if a.Advance? {
      AdvanceConnects(s, a.thread);
    } else {
      OtherConnects(s, a);
    }
    hide Advanced, Placed, ConnectsOk, RemovalsOk, Connecting, Linked;
  }

  lemma {:induction false} StepRemoves(s: State, a: Action)
    requires Placed(s) && ConnectsOk(s) && RemovalsOk(s) && Step(s, a).Some?
    ensures RemovalsOk(Step(s, a).value)
  {
    hide Connecting;
  }

  lemma {:induction false} StepMatches(s: State, a: Action)
    requires Placed(s) && ConnectsOk(s) && RemovalsOk(s) && Matched(s) && Step(s, a).Some?
    ensures Matched(Step(s, a).value)
  {
    var s' := Step(s, a).value;
    forall id | Linked(s', id)
      ensures id in s'.conns || InStage(s', Entered, id)
    {
      if a.Advance? {
        AdvancedFrame(s, a.thread);
        AdvanceLists(s, a.thread, id);
      } else {
        StaysListed(s, a, id);
      }
    }
    forall id | id in s'.conns
      ensures Linked(s', id) || InStage(s', Unlinked, id) || Taken(s', id)
    {
      if a.Advance? {
        AdvanceFinds(s, a.thread, id);
      } else {
        StaysFound(s, a, id);
      }
    }
  }

  lemma {:induction false} AdvanceLists(s: State, t: Thread, id: ConnId)
    requires RemovalsOk(s) && Matched(s) && t in s.pending && Linked(s, id)
    ensures var s' := Advanced(s, t);
            id in s'.conns || InStage(s', Entered, id)
  {
    AdvancedFrame(s, t);
    hide Advanced;
    var s' := Advanced(s, t);
    if id !in s.conns {
      var u :| u in s.pending && s.pending[u] == Pending(Entered, id);
      assert u != t ==> s'.pending[u] == s.pending[u];
    }
  }

  lemma {:induction false} StaysListed(s: State, a: Action, id: ConnId)
    requires Placed(s) && Matched(s) && Step(s, a).Some? && Linked(Step(s, a).value, id)
    requires !a.Advance?
    ensures var s' := Step(s, a).value;
            id in s'.conns || InStage(s', Entered, id)
  {
    hide Connecting, Advanced;
    var s' := Step(s, a).value;
    if a.Enter? && a.id == id {
      assert s'.pending[a.thread] == Pending(Entered, id);
    } else if id !in s.conns {
      assert Linked(s, id);
      var t :| t in s.pending && s.pending[t] == Pending(Entered, id);
      assert t in s'.pending && s'.pending[t] == s.pending[t];
    }
  }

  lemma {:induction false} AdvanceFinds(s: State, t: Thread, id: ConnId)
    requires ConnectsOk(s) && Matched(s) && t in s.pending && id in Advanced(s, t).conns
    ensures var s' := Advanced(s, t);
            Linked(s', id) || InStage(s', Unlinked, id) || Taken(s', id)
  {
    AdvancedFrame(s, t);
    hide Advanced;
    var s' := Advanced(s, t);
    assert Linked(s', id) == Linked(s, id) && Taken(s', id) == Taken(s, id);
    hide Linked, Taken;
    if id in s.conns && InStage(s, Unlinked, id) {
      var u :| u in s.pending && s.pending[u] == Pending(Unlinked, id);
      assert u != t && s'.pending[u] == s.pending[u];
    }
  }

  lemma {:induction false} StaysFound(s: State, a: Action, id: ConnId)
    requires Placed(s) && Matched(s) && Step(s, a).Some? && !a.Advance? && id in s.conns
    ensures var s' := Step(s, a).value;
            Linked(s', id) || InStage(s', Unlinked, id) || Taken(s', id)
  {
    hide Connecting, Advanced;
    var s' := Step(s, a).value;
    if InStage(s, Unlinked, id) {
      var t :| t in s.pending && s.pending[t] == Pending(Unlinked, id);
      assert t in s'.pending && s'.pending[t] == s.pending[t];
    } else if (a.Disconnect? || a.Remove? || a.TearDown?) && s'.pending[a.thread].id == id {
      assert s'.pending[a.thread] == Pending(Unlinked, id);
    }
  }

  lemma {:induction false} RunKeeps(run: seq<Action>)
    requires Run(run).Some?
    ensures Inv(Run(run).value)
  {
    if run == [] {
      assert forall k :: At(map[], k) == {};
    } else {
      RunKeeps(run[..|run| - 1]);
      var s, a := Run(run[..|run| - 1]).value, run[|run| - 1];
      StepConserves(s, a);
      StepPlaces(s, a);
      StepConnects(s, a);
      StepRemoves(s, a);
      StepMatches(s, a);
      hide Step, Placed, ConnectsOk, RemovalsOk, Matched, Conserved;
    }
  }

  // ----- when nothing is in progress -----

  ghost predicate Quiet(s: State) {
    s.pending == map[] && s.taken == map[]
  }

  /** Entries and table have the same connections, each at its own place, when nothing is in progress. */
  lemma {:induction false} QuietMatches(s: State)
    requires Inv(s) && Quiet(s)
    ensures forall id :: id in s.conns <==> Linked(s, id)
    ensures |s.entries| == |s.conns|
  {
    hide Conserved;
    var f := map id | id in s.conns :: s.home[id];
    forall p | p in s.entries
      ensures p in f.Values
    {
      assert Linked(s, s.entries[p]) && f[s.entries[p]] == p;
    }
    assert f.Values == s.entries.Keys;
    R.SameSize(s.conns, s.entries.Keys, f);
  }

  /**
   * After every interleaving, when nothing is in progress: the table and the session entries hold the same
   * connections; the counter is short of them by exactly the number of removals that found no entry; and
   * there have been as many callbacks more than connections are gone. So all agree, with one callback for
   * each connection gone, if and only if every removal found its connection's entry.
   */
  lemma {:induction false} QuietCounts(run: seq<Action>)
    requires Run(run).Some? && Quiet(Run(run).value)
    ensures var s := Run(run).value;
            && |s.entries| == |s.conns| && (forall id :: id in s.conns <==> Linked(s, id))
            && |s.conns| - s.count == s.missed
            && |s.calls| == |s.home| - |s.conns| + s.missed
  {
    RunKeeps(run);
    var s := Run(run).value;
    QuietMatches(s);
    assert forall k :: At(s.pending, k) == {};
    hide Run, Placed, ConnectsOk, RemovalsOk, Matched, Linked;
  }
}
