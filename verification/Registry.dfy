/**
 * The connection registry, held in three places: the namespaces of each session, the table of
 * connections and a counter. With it, the rooms each connection has joined and the rooms' members.
 */
module Registry {
  import opened Options
  import Rooms

  type Session = nat
  type Ns = nat
  type ConnId = nat
  type RoomName = Rooms.Name

  const NO_ROOM: RoomName := Rooms.Name("")
  const MAX_ROOMS: nat := 100

  datatype Reason = ClientDisconnect | Rejected | TransportClosed

  /** A connection: its session and namespace for life, and the rooms it believes it is in. */
  datatype Info = Info(session: Session, ns: Ns, joined: set<RoomName>)

  /** A disconnect callback, with the count and the connections at that moment. */
  datatype Callback = Callback(id: ConnId, reason: Reason, registered: bool, count: int, live: set<ConnId>, strays: nat)

  datatype Membership = Membership(ns: Ns, room: RoomName, id: ConnId)

  /**
   * `info` has every connection ever made, `closeOnce` those whose Close has run, and `strays` counts the
   * removals of connections that were not registered any more.
   */
  datatype Reg = Reg(sessions: map<Session, map<Ns, ConnId>>, conns: set<ConnId>, count: int,
                     info: map<ConnId, Info>, closeOnce: set<ConnId>, members: set<Membership>,
                     calls: seq<Callback>, strays: nat)

  const NOBODY: Reg := Reg(map[], {}, 0, map[], {}, {}, [], 0)

  // ----- operations -----

  function Opened(r: Reg, s: Session): Reg {
    r.(sessions := r.sessions[s := map[]])
  }

  function LeftAllRooms(r: Reg, id: ConnId): Reg
    requires id in r.info
  {
    r.(members := (set m | m in r.members && !(m.ns == r.info[id].ns && m.id == id)),
       info := r.info[id := r.info[id].(joined := {})])
  }

  /** What every way of losing a connection does after its session entry is gone. */
  function Dropped(r: Reg, id: ConnId, reason: Reason): Reg
    requires id in r.info
  {
    var live := r.conns - {id};
    var strays := if id in r.conns then r.strays else r.strays + 1;
    LeftAllRooms(r, id).(conns := live, count := r.count - 1, strays := strays,
                         calls := r.calls + [Callback(id, reason, id in r.conns, r.count - 1, live, strays)])
  }

  predicate Linked(r: Reg, id: ConnId)
    requires id in r.info
  {
    var c := r.info[id];
    c.session in r.sessions && c.ns in r.sessions[c.session] && r.sessions[c.session][c.ns] == id
  }

  function Unlinked(r: Reg, id: ConnId): Reg
    requires id in r.info
  {
    var c := r.info[id];
    if Linked(r, id) then r.(sessions := r.sessions[c.session := r.sessions[c.session] - {c.ns}]) else r
  }

  function RemovedConn(r: Reg, id: ConnId, reason: Reason): Reg
    requires id in r.info
  {
    Dropped(Unlinked(r, id), id, reason)
  }

  function Registered(r: Reg, s: Session, ns: Ns, id: ConnId): Reg
    requires s in r.sessions
  {
    var entries: map<Ns, ConnId> := r.sessions[s];
    r.(sessions := r.sessions[s := entries[ns := id]],
       info := r.info[id := Info(s, ns, {})],
       conns := r.conns + {id}, count := r.count + 1)
  }

  function Closed(r: Reg, id: ConnId): Reg
    requires id in r.info
  {
    if id in r.closeOnce then r
    else RemovedConn(LeftAllRooms(r, id).(closeOnce := r.closeOnce + {id}), id, ClientDisconnect)
  }

  /** A connect, up to the point where the connect handler is asked. */
  function Connected(r: Reg, s: Session, ns: Ns, id: ConnId, replyFails: bool): Reg
    requires s in r.sessions
  {
    if ns in r.sessions[s] then r
    else if replyFails then Closed(Registered(r, s, ns, id), id)
    else Registered(r, s, ns, id)
  }

  function Disconnected(r: Reg, s: Session, ns: Ns): Reg
    requires s in r.sessions && ns in r.sessions[s] ==> r.sessions[s][ns] in r.info
  {
    if s in r.sessions && ns in r.sessions[s] then
      var id := r.sessions[s][ns];
      Dropped(r.(sessions := r.sessions[s := r.sessions[s] - {ns}]), id, ClientDisconnect)
    else r
  }

  function DroppedEach(r: Reg, order: seq<ConnId>): Reg
    requires forall id :: id in order ==> id in r.info
  {
    if order == [] then r
    else
      var r' := DroppedEach(r, order[..|order| - 1]);
      if order[|order| - 1] in r'.info then Dropped(r', order[|order| - 1], TransportClosed) else r'
  }

  /** The session's connections, each once, in the order of the teardown loop. */
  ghost predicate InSomeOrder(r: Reg, s: Session, order: seq<ConnId>) {
    && (forall i, j :: 0 <= i < j < |order| ==> order[i] != order[j])
    && (forall id :: id in order <==> s in r.sessions && id in r.sessions[s].Values)
  }

  function TornDown(r: Reg, s: Session, order: seq<ConnId>): Reg
    requires forall id :: id in order ==> id in r.info
  {
    DroppedEach(r.(sessions := r.sessions - {s}), order)
  }

  function JoinedRoom(r: Reg, id: ConnId, room: RoomName): Reg
    requires id in r.info
  {
    var c := r.info[id];
    if room == NO_ROOM || room in c.joined || |c.joined| >= MAX_ROOMS then r
    else r.(info := r.info[id := c.(joined := c.joined + {room})],
            members := r.members + {Membership(c.ns, room, id)})
  }

  function LeftRoom(r: Reg, id: ConnId, room: RoomName): Reg
    requires id in r.info
  {
    var c := r.info[id];
    r.(info := r.info[id := c.(joined := c.joined - {room})],
       members := r.members - {Membership(c.ns, room, id)})
  }

  function ClearedRoom(r: Reg, ns: Ns, room: RoomName): Reg {
    r.(members := (set m | m in r.members && !(m.ns == ns && m.room == room)))
  }

  // ----- agreement -----

  /** The session entries are the registered connections, each at its own place. */
  ghost predicate Placed(r: Reg) {
    && (forall s, ns :: s in r.sessions && ns in r.sessions[s] ==> EntryOk(r, s, ns))
    && (forall id :: id in r.conns ==> id in r.info && Linked(r, id))
  }

  /** And all are counted: the three places agree. */
  ghost predicate Agree(r: Reg) {
    Placed(r) && r.count == |r.conns|
  }

  ghost predicate EntryOk(r: Reg, s: Session, ns: Ns)
    requires s in r.sessions && ns in r.sessions[s]
  {
    var id := r.sessions[s][ns];
    id in r.conns && id in r.info && r.info[id].session == s && r.info[id].ns == ns
  }

  predicate CalledBack(r: Reg, id: ConnId) {
    exists i :: 0 <= i < |r.calls| && r.calls[i].id == id && r.calls[i].registered
  }

  /**
   * Every connection that is gone has had one callback for being removed while registered. At each
   * callback the count was already lowered, and short of the connections by the strays so far.
   */
  ghost predicate CalledOnce(r: Reg) {
    && (forall i, j :: 0 <= i < j < |r.calls| && r.calls[i].registered && r.calls[j].registered ==>
          r.calls[i].id != r.calls[j].id)
    && (forall id :: id in r.info ==> id in r.conns || CalledBack(r, id))
    && (forall i :: 0 <= i < |r.calls| ==>
          && r.calls[i].id in r.info && r.calls[i].id !in r.conns && r.calls[i].id !in r.calls[i].live
          && r.calls[i].count + r.calls[i].strays == |r.calls[i].live|)
  }

  /** Rooms and `joined` sets: a member has the room in its own set, which has at most 100. */
  ghost predicate Indexed(r: Reg) {
    && (forall m :: m in r.members ==>
          m.id in r.info && r.info[m.id].ns == m.ns && m.room in r.info[m.id].joined)
    && (forall id :: id in r.info ==> |r.info[id].joined| <= MAX_ROOMS)
  }

  /** Every member of a room is registered. */
  ghost predicate Enrolled(r: Reg) {
    forall m :: m in r.members ==> m.id in r.conns
  }

  /** Conversely, every joined room has the connection as a member. */
  ghost predicate FullyIndexed(r: Reg) {
    forall id, room :: id in r.info && room in r.info[id].joined ==>
      Membership(r.info[id].ns, room, id) in r.members
  }

  /** What every run keeps: the count is short by exactly the stray removals. */
  ghost predicate Sound(r: Reg) {
    Placed(r) && r.count + r.strays == |r.conns| && CalledOnce(r) && Indexed(r)
  }

  // ----- total entries -----

  function Entries(r: Reg): set<(Session, Ns)> {
    set s, ns | s in r.sessions && ns in r.sessions[s] :: (s, ns)
  }

  lemma {:induction false} SameSize<A, B>(xs: set<A>, ys: set<B>, f: map<A, B>)
    requires f.Keys == xs && f.Values == ys
    requires forall a, b :: a in xs && b in xs && f[a] == f[b] ==> a == b
    ensures |xs| == |ys|
    decreases xs
  {
    if xs == {} {
      assert ys == {};
    } else {
      var x :| x in xs;
      var g := f - {x};
      assert g.Keys == xs - {x};
      assert g.Values == ys - {f[x]} by {
        forall y | y in ys - {f[x]}
          ensures y in g.Values
        {
          var a :| a in f && f[a] == y;
          assert a in g && g[a] == y;
        }
        forall a | a in g
          ensures g[a] in ys - {f[x]}
        {
          assert f[a] in ys && f[a] != f[x];
        }
      }
      SameSize(xs - {x}, ys - {f[x]}, g);
      assert f[x] in ys;
    }
  }

  /** The table of connections and the entries of all sessions have the same size, and the counter if they agree. */
  lemma {:induction false} CountsAgree(r: Reg)
    requires Placed(r)
    ensures |r.conns| == |Entries(r)| && (Agree(r) <==> r.count == |Entries(r)|)
  {
    var f := map id | id in r.conns :: (r.info[id].session, r.info[id].ns);
    forall e | e in Entries(r)
      ensures e in f.Values
    {
      assert EntryOk(r, e.0, e.1);
      var id := r.sessions[e.0][e.1];
      assert f[id] == e;
    }
    assert f.Values == Entries(r);
    SameSize(r.conns, Entries(r), f);
  }

  // ----- what each operation keeps -----

  lemma {:induction false} RegisteredIsPlaced(r: Reg, s: Session, ns: Ns, id: ConnId)
    requires Placed(r) && s in r.sessions && ns !in r.sessions[s] && id !in r.info
    ensures Placed(Registered(r, s, ns, id)) && |Registered(r, s, ns, id).conns| == |r.conns| + 1
  {
    var r' := Registered(r, s, ns, id);
    assert r'.sessions[s][ns] == id && Linked(r', id);
    forall s', ns' | s' in r'.sessions && ns' in r'.sessions[s']
      ensures EntryOk(r', s', ns')
    {
      if s' != s || ns' != ns {
        assert EntryOk(r, s', ns');
      }
    }
    forall x | x in r.conns
      ensures x in r'.info && Linked(r', x)
    {
      assert Linked(r, x);
    }
  }

  lemma {:induction false} RegisteredIsSound(r: Reg, s: Session, ns: Ns, id: ConnId)
    requires Sound(r) && s in r.sessions && ns !in r.sessions[s] && id !in r.info
    ensures Sound(Registered(r, s, ns, id))
    ensures FullyIndexed(r) ==> FullyIndexed(Registered(r, s, ns, id))
  {
    RegisteredIsPlaced(r, s, ns, id);
    RegisteredKeepsRest(r, s, ns, id);
    hide Placed, CalledOnce, Indexed, FullyIndexed;
  }

  lemma {:induction false} RegisteredKeepsRest(r: Reg, s: Session, ns: Ns, id: ConnId)
    requires CalledOnce(r) && Indexed(r) && s in r.sessions && id !in r.info
    ensures CalledOnce(Registered(r, s, ns, id)) && Indexed(Registered(r, s, ns, id))
    ensures FullyIndexed(r) ==> FullyIndexed(Registered(r, s, ns, id))
  {
    var r' := Registered(r, s, ns, id);
    assert r'.info[id].joined == {};
    assert forall x :: x in r.info ==> r'.info[x] == r.info[x];
    assert forall x :: CalledBack(r', x) == CalledBack(r, x);
  }

  /** Sound, but for the connections `gone`, which have lost their session entries and nothing else. */
  ghost predicate SoundBut(r: Reg, gone: set<ConnId>) {
    && (forall s, ns :: s in r.sessions && ns in r.sessions[s] ==> EntryOk(r, s, ns))
    && gone <= r.conns
    && (forall x :: x in r.conns ==> x in r.info && (Linked(r, x) <==> x !in gone))
    && r.count + r.strays == |r.conns|
    && CalledOnce(r) && Indexed(r)
  }

  lemma {:induction false} SoundButNone(r: Reg)
    ensures SoundBut(r, {}) <==> Sound(r)
  {
    hide CalledOnce, Indexed;
  }

  lemma {:induction false} DroppedIsCalledOnce(r: Reg, id: ConnId, reason: Reason)
    requires id in r.info && r.count + r.strays == |r.conns| && CalledOnce(r)
    ensures CalledOnce(Dropped(r, id, reason))
    ensures Dropped(r, id, reason).count + Dropped(r, id, reason).strays == |Dropped(r, id, reason).conns|
  {
    var r' := Dropped(r, id, reason);
    var n := |r.calls|;
    assert r'.calls[n].id == id;
    assert id !in r.conns ==> r.conns - {id} == r.conns;
    forall x | x in r'.info
      ensures x in r'.conns || CalledBack(r', x)
    {
      if x == id && id in r.conns {
        assert r'.calls[n].registered;
      } else if x !in r.conns {
        var i :| 0 <= i < n && r.calls[i].id == x && r.calls[i].registered;
        assert r'.calls[i].id == x;
      }
    }
  }

  lemma DroppedIsIndexed(r: Reg, id: ConnId, reason: Reason)
    requires id in r.info && Indexed(r)
    ensures Indexed(Dropped(r, id, reason))
    ensures FullyIndexed(r) ==> FullyIndexed(Dropped(r, id, reason))
  {
  }

  lemma {:induction false} DroppedIsSound(r: Reg, gone: set<ConnId>, id: ConnId, reason: Reason)
    requires SoundBut(r, gone) && id in gone
    ensures SoundBut(Dropped(r, id, reason), gone - {id}) && Dropped(r, id, reason).strays == r.strays
    ensures FullyIndexed(r) ==> FullyIndexed(Dropped(r, id, reason))
  {
    var r' := Dropped(r, id, reason);
    DroppedIsCalledOnce(r, id, reason);
    DroppedIsIndexed(r, id, reason);
    hide CalledOnce, Indexed, FullyIndexed;
    forall s, ns | s in r'.sessions && ns in r'.sessions[s]
      ensures EntryOk(r', s, ns)
    {
      assert EntryOk(r, s, ns);
    }
  }

  lemma {:induction false} UnlinkedIsSound(r: Reg, id: ConnId)
    requires Sound(r) && id in r.conns
    ensures SoundBut(Unlinked(r, id), {id})
    ensures FullyIndexed(r) ==> FullyIndexed(Unlinked(r, id))
  {
    hide CalledOnce;
    var r' := Unlinked(r, id);
    forall s, ns | s in r'.sessions && ns in r'.sessions[s]
      ensures EntryOk(r', s, ns)
    {
      assert EntryOk(r, s, ns);
    }
    forall x | x in r.conns && x != id
      ensures Linked(r', x)
    {
      assert Linked(r, x) && Linked(r, id);
    }
    assert CalledOnce(r') by { SameCalls(r, r'); }
  }

  lemma SameCalls(r: Reg, r': Reg)
    requires CalledOnce(r) && r'.calls == r.calls && r'.conns == r.conns && r'.info.Keys == r.info.Keys
    ensures CalledOnce(r')
  {
  }

  lemma SameRooms(r: Reg, r': Reg)
    requires Indexed(r) && r'.info == r.info && r'.conns == r.conns && r'.members == r.members
    ensures Indexed(r') && (FullyIndexed(r) ==> FullyIndexed(r'))
  {
  }

  /** Changing `joined` and the members of rooms does not touch the registry. */
  lemma {:induction false} RoomsApart(r: Reg, r': Reg)
    requires Placed(r) && r'.sessions == r.sessions && r'.conns == r.conns
    requires r'.info.Keys == r.info.Keys
    requires forall id :: id in r.info ==> r'.info[id] == r.info[id].(joined := r'.info[id].joined)
    ensures Placed(r')
  {
    forall s, ns | s in r'.sessions && ns in r'.sessions[s]
      ensures EntryOk(r', s, ns)
    {
      assert EntryOk(r, s, ns);
    }
    forall x | x in r.conns
      ensures Linked(r', x)
    {
      assert Linked(r, x);
    }
  }

  lemma {:induction false} LinkedIsRegistered(r: Reg, id: ConnId)
    requires Placed(r) && id in r.info
    ensures Linked(r, id) ==> id in r.conns
  {
    if Linked(r, id) {
      assert EntryOk(r, r.info[id].session, r.info[id].ns);
    }
  }

  lemma {:induction false} DroppedStrayIsPlaced(r: Reg, id: ConnId, reason: Reason)
    requires Placed(r) && id in r.info && id !in r.conns
    ensures Placed(Dropped(r, id, reason))
  {
    var r' := Dropped(r, id, reason);
    assert r.conns - {id} == r.conns;
    RoomsApart(r, r');
    hide Placed;
  }

  lemma {:induction false} StrayIsSound(r: Reg, id: ConnId, reason: Reason)
    requires Sound(r) && id in r.info && id !in r.conns
    ensures RemovedConn(r, id, reason) == Dropped(r, id, reason) && Sound(RemovedConn(r, id, reason))
    ensures FullyIndexed(r) ==> FullyIndexed(RemovedConn(r, id, reason))
  {
    LinkedIsRegistered(r, id);
    hide Dropped, Linked;
    DroppedStrayIsPlaced(r, id, reason);
    DroppedIsCalledOnce(r, id, reason);
    DroppedIsIndexed(r, id, reason);
    hide Placed, CalledOnce, Indexed, FullyIndexed;
  }

  /** Removing a connection keeps everything sound, and is a stray exactly when it is not registered. */
  lemma {:induction false} RemovedConnIsSound(r: Reg, id: ConnId, reason: Reason)
    requires Sound(r) && id in r.info
    ensures var r' := RemovedConn(r, id, reason);
            && Sound(r') && id !in r'.conns
            && r'.strays == r.strays + (if id in r.conns then 0 else 1)
            && (FullyIndexed(r) ==> FullyIndexed(r'))
  {
    if id in r.conns {
      UnlinkedIsSound(r, id);
      DroppedIsSound(Unlinked(r, id), {id}, id, reason);
      SoundButNone(RemovedConn(r, id, reason));
    } else {
      StrayIsSound(r, id, reason);
    }
    hide Linked, LeftAllRooms, Sound, SoundBut, FullyIndexed;
  }

  /** Removing has no guard of its own: it keeps agreement exactly when the connection is registered. */
  lemma {:induction false} RemovedConnExact(r: Reg, id: ConnId, reason: Reason)
    requires Sound(r) && Agree(r) && id in r.info
    ensures Agree(RemovedConn(r, id, reason)) <==> id in r.conns
  {
    RemovedConnIsSound(r, id, reason);
    hide RemovedConn, Placed;
  }

  lemma LeftAllIsIndexed(r: Reg, id: ConnId)
    requires Indexed(r) && id in r.info
    ensures Indexed(LeftAllRooms(r, id)) && (FullyIndexed(r) ==> FullyIndexed(LeftAllRooms(r, id)))
  {
  }

  lemma {:induction false} LeavingAllIsSound(r: Reg, id: ConnId)
    requires Sound(r) && id in r.info
    ensures Sound(LeftAllRooms(r, id)) && (FullyIndexed(r) ==> FullyIndexed(LeftAllRooms(r, id)))
  {
    var r' := LeftAllRooms(r, id);
    LeftAllIsIndexed(r, id);
    SameCalls(r, r');
    RoomsApart(r, r');
    hide CalledOnce, Placed, Indexed, FullyIndexed;
  }

  lemma {:induction false} MarkingIsSound(r: Reg, once: set<ConnId>)
    requires Sound(r)
    ensures var r' := r.(closeOnce := once);
            Sound(r') && (FullyIndexed(r) ==> FullyIndexed(r'))
  {
    var r' := r.(closeOnce := once);
    SameCalls(r, r');
    RoomsApart(r, r');
    SameRooms(r, r');
    hide CalledOnce, Placed, Indexed, FullyIndexed;
  }

  /** Close keeps everything sound, and is a stray exactly when it meets a removed connection for the first time. */
  lemma {:induction false} ClosedIsSound(r: Reg, id: ConnId)
    requires Sound(r) && id in r.info
    ensures var r' := Closed(r, id);
            && Sound(r') && (FullyIndexed(r) ==> FullyIndexed(r'))
            && r'.strays == r.strays + (if id in r.conns || id in r.closeOnce then 0 else 1)
  {
    if id !in r.closeOnce {
      var once := r.closeOnce + {id};
      LeavingAllIsSound(r, id);
      MarkingIsSound(LeftAllRooms(r, id), once);
      RemovedConnIsSound(LeftAllRooms(r, id).(closeOnce := once), id, ClientDisconnect);
    }
    hide Sound, FullyIndexed, RemovedConn;
  }

  /** Close keeps the three places in agreement exactly on connections registered, or closed before. */
  lemma {:induction false} ClosedExact(r: Reg, id: ConnId)
    requires Sound(r) && Agree(r) && id in r.info
    ensures Agree(Closed(r, id)) <==> id in r.conns || id in r.closeOnce
  {
    ClosedIsSound(r, id);
    hide Closed, Placed;
  }

  lemma {:induction false} ConnectedIsSound(r: Reg, s: Session, ns: Ns, id: ConnId, replyFails: bool)
    requires Sound(r) && s in r.sessions && id !in r.info && id !in r.closeOnce
    ensures var r' := Connected(r, s, ns, id, replyFails);
            Sound(r') && r'.strays == r.strays && (FullyIndexed(r) ==> FullyIndexed(r'))
  {
    if ns !in r.sessions[s] {
      RegisteredIsSound(r, s, ns, id);
      var r' := Registered(r, s, ns, id);
      assert id in r'.conns && id in r'.info && r'.strays == r.strays;
      ClosedIsSound(r', id);
    }
    hide Sound, FullyIndexed, Closed, Registered;
  }

  /** A client's disconnect is a removal of the connection at that place. */
  lemma {:induction false} DisconnectedIsRemoval(r: Reg, s: Session, ns: Ns)
    requires Placed(r) && s in r.sessions && ns in r.sessions[s]
    ensures var id := r.sessions[s][ns];
            id in r.conns && id in r.info && Disconnected(r, s, ns) == RemovedConn(r, id, ClientDisconnect)
  {
    assert EntryOk(r, s, ns);
  }

  // ----- teardown -----

  lemma {:induction false} EntriesWithout(r: Reg, s: Session, gone: set<ConnId>)
    requires Placed(r) && gone == (if s in r.sessions then r.sessions[s].Values else {})
    ensures var r' := r.(sessions := r.sessions - {s});
            && (forall s', ns :: s' in r'.sessions && ns in r'.sessions[s'] ==> EntryOk(r', s', ns))
            && gone <= r.conns
            && (forall id :: id in r.conns ==> (Linked(r', id) <==> id !in gone))
  {
    var r' := r.(sessions := r.sessions - {s});
    forall s', ns | s' in r'.sessions && ns in r'.sessions[s']
      ensures EntryOk(r', s', ns)
    {
      assert s' in r.sessions && r'.sessions[s'] == r.sessions[s'];
      assert EntryOk(r, s', ns);
    }
    forall id | id in gone
      ensures id in r.conns && !Linked(r', id)
    {
      var ns :| ns in r.sessions[s] && r.sessions[s][ns] == id;
      assert EntryOk(r, s, ns);
    }
    forall x | x in r.conns && x !in gone
      ensures Linked(r', x)
    {
      assert Linked(r, x);
    }
  }

  lemma {:induction false} WithoutSession(r: Reg, s: Session, gone: set<ConnId>)
    requires Sound(r) && gone == (if s in r.sessions then r.sessions[s].Values else {})
    ensures SoundBut(r.(sessions := r.sessions - {s}), gone)
    ensures FullyIndexed(r) ==> FullyIndexed(r.(sessions := r.sessions - {s}))
  {
    var r' := r.(sessions := r.sessions - {s});
    hide CalledOnce, Indexed, FullyIndexed, Linked, EntryOk;
    EntriesWithout(r, s, gone);
    SameCalls(r, r');
    SameRooms(r, r');
  }

  function Listed(order: seq<ConnId>): set<ConnId> {
    set id | id in order
  }

  lemma {:induction false} ListedSnoc(order: seq<ConnId>)
    requires order != []
    ensures var n := |order| - 1;
            Listed(order) == Listed(order[..n]) + {order[n]}
  {
    var n := |order| - 1;
    assert order == order[..n] + [order[n]];
  }

  lemma MinusOneMore<T>(a: set<T>, b: set<T>, x: T)
    ensures a - (b + {x}) == a - b - {x}
  {
  }

  lemma NotListedTwice(order: seq<ConnId>)
    requires order != [] && forall i, j :: 0 <= i < j < |order| ==> order[i] != order[j]
    ensures order[|order| - 1] !in Listed(order[..|order| - 1])
  {
  }

  lemma DroppedEffect(r: Reg, id: ConnId, reason: Reason)
    requires id in r.info
    ensures var r' := Dropped(r, id, reason);
            && r'.sessions == r.sessions && r'.info.Keys == r.info.Keys && r'.conns == r.conns - {id}
            && |r'.calls| == |r.calls| + 1 && r'.calls[..|r.calls|] == r.calls && r'.calls[|r.calls|].id == id
            && r'.calls[|r.calls|].reason == reason
  {
  }

  /** The callbacks made after the first n are those of the connections in the given order. */
  predicate CallsFor(calls: seq<Callback>, n: nat, order: seq<ConnId>) {
    && |calls| == n + |order|
    && forall i :: 0 <= i < |order| ==> calls[n + i].id == order[i] && calls[n + i].reason == TransportClosed
  }

  lemma {:induction false} CallsForSnoc(calls: seq<Callback>, before: seq<Callback>, n: nat, order: seq<ConnId>)
    requires order != [] && CallsFor(before, n, order[..|order| - 1])
    requires |calls| == |before| + 1 && calls[..|before|] == before
    requires calls[|before|].id == order[|order| - 1] && calls[|before|].reason == TransportClosed
    ensures CallsFor(calls, n, order) && calls[..n] == before[..n]
  {
    forall i | 0 <= i < |order|
      ensures calls[n + i].id == order[i] && calls[n + i].reason == TransportClosed
    {
      if i < |order| - 1 {
        assert calls[n + i] == before[n + i] && order[..|order| - 1][i] == order[i];
      }
    }
  }

  /** What is dropped is exactly the connections listed, each with one callback, in that order. */
  lemma {:induction false} DroppedEachEffect(r: Reg, order: seq<ConnId>)
    requires forall id :: id in order ==> id in r.info
    ensures var r' := DroppedEach(r, order);
            && r'.sessions == r.sessions && r'.info.Keys == r.info.Keys
            && r'.conns == r.conns - Listed(order)
            && CallsFor(r'.calls, |r.calls|, order) && r'.calls[..|r.calls|] == r.calls
    decreases |order|
  {
    if order != [] {
      var n := |order| - 1;
      var before := DroppedEach(r, order[..n]);
      assert forall id :: id in order[..n] ==> id in order;
      DroppedEachEffect(r, order[..n]);
      ListedSnoc(order);
      DroppedEffect(before, order[n], TransportClosed);
      CallsForSnoc(DroppedEach(r, order).calls, before.calls, |r.calls|, order);
      hide Dropped, Listed, CallsFor;
    }
  }

  lemma {:induction false} DroppedEachIsSound(r: Reg, gone: set<ConnId>, order: seq<ConnId>)
    requires SoundBut(r, gone)
    requires forall i, j :: 0 <= i < j < |order| ==> order[i] != order[j]
    requires forall id :: id in order ==> id in gone && id in r.info
    ensures SoundBut(DroppedEach(r, order), gone - Listed(order)) && DroppedEach(r, order).strays == r.strays
    ensures FullyIndexed(r) ==> FullyIndexed(DroppedEach(r, order))
    decreases |order|
  {
    if order == [] {
      assert gone - Listed(order) == gone;
    } else {
      var n := |order| - 1;
      assert forall id :: id in order[..n] ==> id in order;
      var before, id := order[..n], order[n];
      hide SoundBut, FullyIndexed, Dropped, Listed, LeftAllRooms;
      DroppedEachIsSound(r, gone, before);
      DroppedEachEffect(r, before);
      ListedSnoc(order);
      NotListedTwice(order);
      DroppedIsSound(DroppedEach(r, before), gone - Listed(before), id, TransportClosed);
      MinusOneMore(gone, Listed(before), id);
    }
  }

  /** Teardown drops exactly the session's connections, and calls back once for each. */
  lemma {:induction false} TornDownIsSound(r: Reg, s: Session, order: seq<ConnId>)
    requires Sound(r) && InSomeOrder(r, s, order)
    requires forall id :: id in order ==> id in r.info
    ensures var r' := TornDown(r, s, order);
            && Sound(r') && (FullyIndexed(r) ==> FullyIndexed(r'))
            && s !in r'.sessions && r'.strays == r.strays
            && (forall id :: id in r'.conns ==> r'.info[id].session != s)
            && |r'.calls| == |r.calls| + |order|
  {
    var gone := if s in r.sessions then r.sessions[s].Values else {};
    var r0 := r.(sessions := r.sessions - {s});
    assert Listed(order) == gone;
    WithoutSession(r, s, gone);
    DroppedEachIsSound(r0, gone, order);
    DroppedEachEffect(r0, order);
    SoundButNone(TornDown(r, s, order));
    var r' := TornDown(r, s, order);
    hide FullyIndexed, DroppedEach, CalledOnce, Indexed;
    assert gone - gone == {};
    forall id | id in r'.conns
      ensures r'.info[id].session != s
    {
      assert Linked(r', id);
    }
  }

  // ----- rooms -----

  lemma JoinedIsIndexed(r: Reg, id: ConnId, room: RoomName)
    requires Indexed(r) && id in r.info
    ensures Indexed(JoinedRoom(r, id, room)) && (FullyIndexed(r) ==> FullyIndexed(JoinedRoom(r, id, room)))
  {
  }

  predicate IsMember(r: Reg, id: ConnId, room: RoomName)
    requires id in r.info
  {
    Membership(r.info[id].ns, room, id) in r.members
  }

  /** Whether a join gets past the connection's own set. */
  predicate MayJoin(r: Reg, id: ConnId, room: RoomName)
    requires id in r.info
  {
    room.text != "" && room !in r.info[id].joined && |r.info[id].joined| < 100
  }

  /**
   * After a join the connection is a member exactly if it was one before, or the room has a name, is not
   * in its own set, and fewer than 100 are.
   */
  lemma {:induction false} JoinedIsSound(r: Reg, id: ConnId, room: RoomName)
    requires Sound(r) && id in r.info
    ensures var r' := JoinedRoom(r, id, room);
            && Sound(r') && r'.strays == r.strays && (FullyIndexed(r) ==> FullyIndexed(r'))
            && (IsMember(r', id, room) <==> IsMember(r, id, room) || MayJoin(r, id, room))
            && (room in r'.info[id].joined <==>
                room in r.info[id].joined || (room.text != "" && |r.info[id].joined| < 100))
  {
    var r' := JoinedRoom(r, id, room);
    SameCalls(r, r');
    RoomsApart(r, r');
    JoinedIsIndexed(r, id, room);
    hide CalledOnce, Placed, Indexed, FullyIndexed;
  }

  /** A join enrols only registered connections exactly if this one is registered, or the join does nothing. */
  lemma {:induction false} JoinEnrolsExact(r: Reg, id: ConnId, room: RoomName)
    requires Enrolled(r) && id in r.info
    ensures Enrolled(JoinedRoom(r, id, room)) <==> id in r.conns || !MayJoin(r, id, room)
  {
    if MayJoin(r, id, room) {
      assert Membership(r.info[id].ns, room, id) in JoinedRoom(r, id, room).members;
    }
  }

  lemma {:induction false} LeftRoomIsIndexed(r: Reg, id: ConnId, room: RoomName)
    requires Indexed(r) && id in r.info
    ensures Indexed(LeftRoom(r, id, room)) && (FullyIndexed(r) ==> FullyIndexed(LeftRoom(r, id, room)))
  {
    assert |r.info[id].joined - {room}| <= |r.info[id].joined|;
  }

  lemma {:induction false} LeftRoomIsSound(r: Reg, id: ConnId, room: RoomName)
    requires Sound(r) && id in r.info
    ensures var r' := LeftRoom(r, id, room);
            Sound(r') && (FullyIndexed(r) ==> FullyIndexed(r'))
  {
    var r' := LeftRoom(r, id, room);
    SameCalls(r, r');
    RoomsApart(r, r');
    LeftRoomIsIndexed(r, id, room);
    hide CalledOnce, Placed, Indexed, FullyIndexed;
  }

  lemma {:induction false} ClearedRoomIsSound(r: Reg, ns: Ns, room: RoomName)
    requires Sound(r)
    ensures Sound(ClearedRoom(r, ns, room))
  {
    var r' := ClearedRoom(r, ns, room);
    SameCalls(r, r');
    RoomsApart(r, r');
    hide CalledOnce, Placed;
  }

  // ----- what each operation does, and what it leaves alone -----

  /** Rooms and registration of all connections but `id` are as before. */
  ghost predicate OthersAlone(r: Reg, r': Reg, id: ConnId) {
    && (forall x :: x in r.info && x != id ==> x in r'.info && r'.info[x] == r.info[x])
    && (forall x :: x != id ==> (x in r'.conns <==> x in r.conns))
    && (forall m: Membership :: m.id != id ==> (m in r'.members <==> m in r.members))
    && (forall s, ns, x :: x != id ==> (EntryIs(r', s, ns, x) <==> EntryIs(r, s, ns, x)))
  }

  predicate EntryIs(r: Reg, s: Session, ns: Ns, id: ConnId) {
    s in r.sessions && ns in r.sessions[s] && r.sessions[s][ns] == id
  }

  /** After a leave the connection is no member of the room and has it no more; all else is as before. */
  lemma {:induction false} LeftRoomEffect(r: Reg, id: ConnId, room: RoomName)
    requires id in r.info
    ensures var r' := LeftRoom(r, id, room);
            && !IsMember(r', id, room) && room !in r'.info[id].joined
            && (forall x :: x != room ==>
                  && (IsMember(r', id, x) <==> IsMember(r, id, x))
                  && (x in r'.info[id].joined <==> x in r.info[id].joined))
            && OthersAlone(r, r', id) && (id in r'.conns <==> id in r.conns) && r'.calls == r.calls
  {
  }

  /** After leaving all rooms the connection is no member of any and has none. */
  lemma {:induction false} LeftAllEffect(r: Reg, id: ConnId)
    requires id in r.info
    ensures var r' := LeftAllRooms(r, id);
            && r'.info[id].joined == {} && (forall x :: !IsMember(r', id, x))
            && OthersAlone(r, r', id) && (id in r'.conns <==> id in r.conns) && r'.calls == r.calls
  {
  }

  /** A join changes nothing but the connection's set and membership. */
  lemma {:induction false} JoinedEffect(r: Reg, id: ConnId, room: RoomName)
    requires id in r.info
    ensures var r' := JoinedRoom(r, id, room);
            && (forall x :: x != room ==>
                  && (IsMember(r', id, x) <==> IsMember(r, id, x))
                  && (x in r'.info[id].joined <==> x in r.info[id].joined))
            && OthersAlone(r, r', id) && (id in r'.conns <==> id in r.conns) && r'.calls == r.calls
  {
  }

  /** Clearing a room takes every member out of it, and out of no other room. */
  lemma {:induction false} ClearedEffect(r: Reg, ns: Ns, room: RoomName)
    ensures var r' := ClearedRoom(r, ns, room);
            && (forall id :: id in r.info && r.info[id].ns == ns ==> id in r'.info && !IsMember(r', id, room))
            && (forall m: Membership :: m.ns != ns || m.room != room ==> (m in r'.members <==> m in r.members))
            && r'.info == r.info && r'.conns == r.conns && r'.sessions == r.sessions && r'.calls == r.calls
  {
  }

  /** The callback that a removal makes: its connection and reason, the count already lowered, and who is left. */
  predicate CallsBack(r: Reg, r': Reg, id: ConnId, reason: Reason) {
    && |r'.calls| == |r.calls| + 1 && r'.calls[..|r.calls|] == r.calls
    && var c := r'.calls[|r.calls|];
       && c.id == id && c.reason == reason && c.count == r.count - 1 && c.live == r.conns - {id}
       && (c.registered <==> id in r.conns)
  }

  lemma {:induction false} DroppedCallsBack(r: Reg, id: ConnId, reason: Reason)
    requires id in r.info
    ensures var r' := Dropped(r, id, reason);
            && r'.conns == r.conns - {id} && r'.count == r.count - 1 && CallsBack(r, r', id, reason)
            && r'.sessions == r.sessions && id in r'.info && r'.info[id].joined == {}
            && (forall x :: !IsMember(r', id, x)) && OthersAlone(r, r', id)
  {
  }

  /** After a removal the connection has no entry, is not in the table and in no room, and was called back. */
  lemma {:induction false} RemovedEffect(r: Reg, id: ConnId, reason: Reason)
    requires Placed(r) && id in r.info
    ensures var r' := RemovedConn(r, id, reason);
            && r'.conns == r.conns - {id} && r'.count == r.count - 1 && CallsBack(r, r', id, reason)
            && (forall s, ns :: !EntryIs(r', s, ns, id))
            && id in r'.info && r'.info[id].joined == {} && (forall x :: !IsMember(r', id, x))
            && OthersAlone(r, r', id)
  {
    var r1 := Unlinked(r, id);
    DroppedCallsBack(r1, id, reason);
    forall s, ns
      ensures !EntryIs(r1, s, ns, id)
      ensures forall x :: x != id ==> (EntryIs(r1, s, ns, x) <==> EntryIs(r, s, ns, x))
    {
      assert EntryIs(r, s, ns, id) ==> EntryOk(r, s, ns);
    }
    assert r1.conns == r.conns && r1.info == r.info && r1.members == r.members && r1.calls == r.calls;
    assert r1.count == r.count;
    hide Dropped, Unlinked, Placed, Linked, EntryOk;
  }

  /** The first Close removes the connection, with the reason of a client's disconnect; later ones do nothing. */
  lemma {:induction false} ClosedEffect(r: Reg, id: ConnId)
    requires Sound(r) && id in r.info
    ensures var r' := Closed(r, id);
            if id in r.closeOnce then r' == r
            else
              && id in r'.closeOnce
              && r'.conns == r.conns - {id} && r'.count == r.count - 1 && CallsBack(r, r', id, ClientDisconnect)
              && (forall s, ns :: !EntryIs(r', s, ns, id))
              && id in r'.info && r'.info[id].joined == {} && (forall x :: !IsMember(r', id, x))
              && OthersAlone(r, r', id)
  {
    if id !in r.closeOnce {
      var r1 := LeftAllRooms(r, id).(closeOnce := r.closeOnce + {id});
      MarkedLeft(r, id);
      MarkedIsPlaced(r, id);
      hide LeftAllRooms, Sound, OthersAlone, EntryIs, RemovedConn;
      RemovedEffect(r1, id, ClientDisconnect);
      KeepsClosed(r1, id);
      AloneTwice(r, r1, RemovedConn(r1, id, ClientDisconnect), id);
      SameCallback(r, r1, RemovedConn(r1, id, ClientDisconnect), id);
      hide CallsBack, Placed, IsMember;
    }
  }

  lemma SameCallback(r: Reg, r1: Reg, r2: Reg, id: ConnId)
    requires r1.calls == r.calls && r1.conns == r.conns && r1.count == r.count
    requires CallsBack(r1, r2, id, ClientDisconnect)
    ensures CallsBack(r, r2, id, ClientDisconnect)
  {
  }

  lemma {:induction false} MarkedLeft(r: Reg, id: ConnId)
    requires id in r.info
    ensures var r1 := LeftAllRooms(r, id).(closeOnce := r.closeOnce + {id});
            && r1.sessions == r.sessions && r1.conns == r.conns && r1.count == r.count && r1.calls == r.calls
            && r1.closeOnce == r.closeOnce + {id} && id in r1.info && OthersAlone(r, r1, id)
  {
    LeftAllEffect(r, id);
  }

  lemma {:induction false} MarkedIsPlaced(r: Reg, id: ConnId)
    requires Sound(r) && id in r.info
    ensures Placed(LeftAllRooms(r, id).(closeOnce := r.closeOnce + {id}))
  {
    var r0 := LeftAllRooms(r, id);
    LeavingAllIsSound(r, id);
    MarkingIsSound(r0, r.closeOnce + {id});
    hide Indexed, FullyIndexed, CalledOnce, Placed, LeftAllRooms;
  }

  lemma KeepsClosed(r: Reg, id: ConnId)
    requires id in r.info
    ensures RemovedConn(r, id, ClientDisconnect).closeOnce == r.closeOnce
  {
  }

  lemma AloneTwice(r: Reg, r1: Reg, r2: Reg, id: ConnId)
    requires OthersAlone(r, r1, id) && OthersAlone(r1, r2, id)
    ensures OthersAlone(r, r2, id)
  {
  }

  /** Teardown calls back for the session's connections in its order, each for the closed transport. */
  lemma {:induction false} TornDownCallsBack(r: Reg, s: Session, order: seq<ConnId>)
    requires InSomeOrder(r, s, order) && forall id :: id in order ==> id in r.info
    ensures var r' := TornDown(r, s, order);
            && CallsFor(r'.calls, |r.calls|, order) && r'.calls[..|r.calls|] == r.calls
            && r'.conns == r.conns - Listed(order)
            && (forall x :: x in Listed(order) <==> s in r.sessions && x in r.sessions[s].Values)
  {
    DroppedEachEffect(r.(sessions := r.sessions - {s}), order);
    hide DroppedEach;
  }

  /** A connect to a namespace the session is in does nothing; another registers the connection at its place. */
  lemma {:induction false} ConnectedEffect(r: Reg, s: Session, ns: Ns, id: ConnId)
    requires s in r.sessions && id !in r.info
    ensures var r' := Connected(r, s, ns, id, false);
            if ns in r.sessions[s] then r' == r
            else
              && EntryIs(r', s, ns, id) && id in r'.conns && r'.count == r.count + 1 && r'.calls == r.calls
              && id in r'.info && r'.info[id] == Info(s, ns, {})
              && r'.conns == r.conns + {id} && r'.members == r.members
              && (forall x :: x in r.info ==> r'.info[x] == r.info[x])
              && (forall s', ns', x :: s' != s || ns' != ns ==> (EntryIs(r', s', ns', x) <==> EntryIs(r, s', ns', x)))
  {
  }

  /** A connect whose reply fails leaves no connection: it is closed, with its callback, and not counted. */
  lemma {:induction false} FailedConnectEffect(r: Reg, s: Session, ns: Ns, id: ConnId)
    requires Sound(r) && s in r.sessions && ns !in r.sessions[s] && id !in r.info && id !in r.closeOnce
    ensures var r' := Connected(r, s, ns, id, true);
            && r'.conns == r.conns && r'.count == r.count && id in r'.closeOnce
            && |r'.calls| == |r.calls| + 1 && r'.calls[..|r.calls|] == r.calls
            && r'.calls[|r.calls|].id == id && r'.calls[|r.calls|].reason == ClientDisconnect
            && (forall s', ns' :: !EntryIs(r', s', ns', id)) && id in r'.info && (forall x :: !IsMember(r', id, x))
  {
    var r1 := Registered(r, s, ns, id);
    assert id !in r.conns && id in r1.info && r1.calls == r.calls && r1.closeOnce == r.closeOnce;
    assert r1.conns == r.conns + {id} && r1.count == r.count + 1;
    RegisteredIsSound(r, s, ns, id);
    ClosedEffect(r1, id);
    hide Sound, Registered, Closed, OthersAlone, EntryIs, IsMember;
  }

  // ----- runs -----

  datatype Action =
    | Open(s: Session)
    | Connect(s: Session, ns: Ns, id: ConnId, replyFails: bool)
    | Reject(id: ConnId)
    | Disconnect(s: Session, ns: Ns)
    | Close(id: ConnId)
    | Teardown(s: Session, order: seq<ConnId>)
    | Join(id: ConnId, room: RoomName)
    | Leave(id: ConnId, room: RoomName)
    | LeaveAll(id: ConnId)
    | ClearRoom(ns: Ns, room: RoomName)

  /**
   * The state after an operation. A new connection's id is fresh. Any connection ever made may join, leave,
   * be closed or be rejected at any time, so that a connect handler may do anything to its connection before
   * it rejects it.
   */
  ghost function Step(r: Reg, a: Action): Option<Reg> {
    match a
    case Open(s) => if s in r.sessions then None else Some(Opened(r, s))
    case Connect(s, ns, id, replyFails) =>
      if s !in r.sessions || id in r.info || id in r.closeOnce then None
      else Some(Connected(r, s, ns, id, replyFails))
    case Reject(id) => if id !in r.info then None else Some(RemovedConn(r, id, Rejected))
    case Disconnect(s, ns) =>
      if s in r.sessions && ns in r.sessions[s] && r.sessions[s][ns] !in r.info then None
      else Some(Disconnected(r, s, ns))
    case Close(id) => if id !in r.info then None else Some(Closed(r, id))
    case Teardown(s, order) =>
      if !InSomeOrder(r, s, order) || exists id :: id in order && id !in r.info then None
      else Some(TornDown(r, s, order))
    case Join(id, room) => if id !in r.info then None else Some(JoinedRoom(r, id, room))
    case Leave(id, room) => if id !in r.info then None else Some(LeftRoom(r, id, room))
    case LeaveAll(id) => if id !in r.info then None else Some(LeftAllRooms(r, id))
    case ClearRoom(ns, room) => Some(ClearedRoom(r, ns, room))
  }

  /** The first Close, or a rejection, of a connection that is not registered any more. */
  predicate IsStray(r: Reg, a: Action) {
    (a.Close? || a.Reject?) && a.id !in r.conns && (a.Close? ==> a.id !in r.closeOnce)
  }

  lemma {:induction false} OpenedIsSound(r: Reg, s: Session)
    requires Sound(r) && s !in r.sessions
    ensures Sound(Opened(r, s)) && (FullyIndexed(r) ==> FullyIndexed(Opened(r, s)))
    ensures Opened(r, s).strays == r.strays
  {
    var r' := Opened(r, s);
    SameCalls(r, r');
    SameRooms(r, r');
    hide CalledOnce, Indexed, FullyIndexed;
    forall s', ns | s' in r'.sessions && ns in r'.sessions[s']
      ensures EntryOk(r', s', ns)
    {
      assert EntryOk(r, s', ns);
    }
    forall x | x in r.conns
      ensures Linked(r', x)
    {
      assert Linked(r, x);
    }
  }

  lemma {:induction false} StepIsSound(r: Reg, a: Action)
    requires Sound(r) && Step(r, a).Some?
    ensures Sound(Step(r, a).value)
    ensures !a.ClearRoom? && FullyIndexed(r) ==> FullyIndexed(Step(r, a).value)
    ensures Step(r, a).value.strays == r.strays + (if IsStray(r, a) then 1 else 0)
  {
    hide Sound, FullyIndexed, Connected, Closed, TornDown, JoinedRoom, RemovedConn, Dropped;
    match a {
      case Open(s) => OpenedIsSound(r, s);
      case Connect(s, ns, id, replyFails) => ConnectedIsSound(r, s, ns, id, replyFails);
      case Reject(id) => RemovedConnIsSound(r, id, Rejected);
      case Disconnect(s, ns) => DisconnectedIsSound(r, s, ns);
      case Close(id) => ClosedIsSound(r, id);
      case Teardown(s, order) => TornDownIsSound(r, s, order);
      case Join(id, room) => JoinedIsSound(r, id, room);
      case Leave(id, room) => LeftRoomIsSound(r, id, room);
      case LeaveAll(id) => LeavingAllIsSound(r, id);
      case ClearRoom(ns, room) => ClearedRoomIsSound(r, ns, room);
    }
  }

  lemma {:induction false} DisconnectedIsSound(r: Reg, s: Session, ns: Ns)
    requires Sound(r)
    requires s in r.sessions && ns in r.sessions[s] ==> r.sessions[s][ns] in r.info
    ensures var r' := Disconnected(r, s, ns);
            Sound(r') && r'.strays == r.strays && (FullyIndexed(r) ==> FullyIndexed(r'))
  {
    if s in r.sessions && ns in r.sessions[s] {
      DisconnectedIsRemoval(r, s, ns);
      RemovedConnIsSound(r, r.sessions[s][ns], ClientDisconnect);
      hide Sound, FullyIndexed, RemovedConn, Dropped;
    }
  }

  ghost function Run(run: seq<Action>): Option<Reg> {
    if run == [] then Some(NOBODY)
    else
      match Run(run[..|run| - 1])
      case None => None
      case Some(r) => Step(r, run[|run| - 1])
  }

  ghost predicate NoClear(run: seq<Action>) {
    forall i :: 0 <= i < |run| ==> !run[i].ClearRoom?
  }

  /** A join that makes a member of a connection that is not registered. */
  predicate JoinsStray(r: Reg, a: Action) {
    a.Join? && a.id in r.info && a.id !in r.conns && MayJoin(r, a.id, a.room)
  }

  lemma DroppedIsEnrolled(r: Reg, id: ConnId, reason: Reason)
    requires id in r.info && Indexed(r) && Enrolled(r)
    ensures Enrolled(Dropped(r, id, reason))
  {
  }

  lemma {:induction false} RemovedIsEnrolled(r: Reg, id: ConnId, reason: Reason)
    requires id in r.info && Indexed(r) && Enrolled(r)
    ensures Enrolled(RemovedConn(r, id, reason))
  {
    var r' := Unlinked(r, id);
    assert r'.info == r.info && r'.members == r.members && r'.conns == r.conns;
    DroppedIsEnrolled(r', id, reason);
    hide Dropped, Linked;
  }

  lemma {:induction false} ClosedIsEnrolled(r: Reg, id: ConnId)
    requires id in r.info && Indexed(r) && Enrolled(r)
    ensures Enrolled(Closed(r, id))
  {
    if id !in r.closeOnce {
      LeftAllIsIndexed(r, id);
      RemovedIsEnrolled(LeftAllRooms(r, id).(closeOnce := r.closeOnce + {id}), id, ClientDisconnect);
    }
    hide RemovedConn, FullyIndexed;
  }

  lemma {:induction false} DroppedEachIsEnrolled(r: Reg, order: seq<ConnId>)
    requires (forall id :: id in order ==> id in r.info) && Indexed(r) && Enrolled(r)
    ensures Enrolled(DroppedEach(r, order)) && Indexed(DroppedEach(r, order))
    decreases |order|
  {
    if order != [] {
      var n := |order| - 1;
      DroppedEachIsEnrolled(r, order[..n]);
      DroppedEachEffect(r, order[..n]);
      DroppedIsEnrolled(DroppedEach(r, order[..n]), order[n], TransportClosed);
      DroppedIsIndexed(DroppedEach(r, order[..n]), order[n], TransportClosed);
    }
    hide Dropped, Indexed, Enrolled, FullyIndexed;
  }

  /** Members stay registered, but for a join of a connection that is not. */
  lemma {:induction false} StepIsEnrolled(r: Reg, a: Action)
    requires Sound(r) && Enrolled(r) && Step(r, a).Some? && !JoinsStray(r, a)
    ensures Enrolled(Step(r, a).value)
  {
    hide Placed, CalledOnce, FullyIndexed, Dropped, Unlinked, Linked, DroppedEach, JoinedRoom, LeftAllRooms;
    match a {
      case Connect(s, ns, id, replyFails) =>
        if ns !in r.sessions[s] {
          RegisteredIsSound(r, s, ns, id);
          ClosedIsEnrolled(Registered(r, s, ns, id), id);
        }
      case Reject(id) => RemovedIsEnrolled(r, id, Rejected);
      case Disconnect(s, ns) =>
        if s in r.sessions && ns in r.sessions[s] {
          DisconnectedIsRemoval(r, s, ns);
          RemovedIsEnrolled(r, r.sessions[s][ns], ClientDisconnect);
        }
      case Close(id) => ClosedIsEnrolled(r, id);
      case Teardown(s, order) => DroppedEachIsEnrolled(r.(sessions := r.sessions - {s}), order);
      case Join(id, room) => JoinEnrolsExact(r, id, room);
      case LeaveAll(id) => LeavingEnrols(r, id);
      case _ =>
    }
    hide Closed, RemovedConn;
  }

  lemma LeavingEnrols(r: Reg, id: ConnId)
    requires id in r.info && Enrolled(r)
    ensures Enrolled(LeftAllRooms(r, id))
  {
  }

  /** How many operations of a run were strays. */
  ghost function StrayRemovals(run: seq<Action>): nat {
    if run == [] then 0
    else
      var before, a := run[..|run| - 1], run[|run| - 1];
      StrayRemovals(before) + if Run(before).Some? && IsStray(Run(before).value, a) then 1 else 0
  }

  ghost predicate NoStrayJoin(run: seq<Action>) {
    forall k :: 0 <= k < |run| && Run(run[..k]).Some? ==> !JoinsStray(Run(run[..k]).value, run[k])
  }

  /**
   * After any run, table and session entries have the same size and the counter is short of it by exactly
   * the stray removals; every connection that is gone has had exactly one callback for its removal while
   * registered; a room's members know it; without ClearRoom they are all who joined; and they are registered
   * if nobody joins who is not.
   */
  lemma {:induction false} RunIsSound(run: seq<Action>)
    requires Run(run).Some?
    ensures var r := Run(run).value;
            && Sound(r) && |r.conns| == |Entries(r)|
            && |r.conns| - r.count == StrayRemovals(run)
            && (Agree(r) <==> StrayRemovals(run) == 0)
            && (NoClear(run) ==> FullyIndexed(r))
            && (NoStrayJoin(run) ==> Enrolled(r))
  {
    RunCountsStrays(run);
    RunEnrols(run);
    CountsAgree(Run(run).value);
    hide Run, NoStrayJoin, Enrolled, StrayRemovals, CalledOnce, Indexed, FullyIndexed, Entries, NoClear;
  }

  lemma NobodyIsSound()
    ensures Sound(NOBODY) && FullyIndexed(NOBODY)
  {
  }

  lemma {:induction false} RunCountsStrays(run: seq<Action>)
    requires Run(run).Some?
    ensures var r := Run(run).value;
            Sound(r) && r.strays == StrayRemovals(run) && (NoClear(run) ==> FullyIndexed(r))
  {
    hide Step, Sound, IsStray, FullyIndexed;
    if run == [] {
      NobodyIsSound();
    } else {
      var before := run[..|run| - 1];
      assert NoClear(run) ==> NoClear(before);
      RunCountsStrays(before);
      StepIsSound(Run(before).value, run[|run| - 1]);
    }
  }

  lemma {:induction false} RunEnrols(run: seq<Action>)
    requires Run(run).Some?
    ensures NoStrayJoin(run) ==> Enrolled(Run(run).value)
  {
    hide Step, Sound, FullyIndexed, StrayRemovals, JoinsStray;
    if run != [] && NoStrayJoin(run) {
      var before := run[..|run| - 1];
      assert forall k :: 0 <= k < |before| ==> before[..k] == run[..k] && before[k] == run[k];
      RunEnrols(before);
      RunCountsStrays(before);
      StepIsEnrolled(Run(before).value, run[|run| - 1]);
      hide Enrolled;
    }
  }

  lemma {:induction false} RunThen(run: seq<Action>, a: Action)
    requires Run(run).Some?
    ensures Run(run + [a]) == Step(Run(run).value, a)
    ensures StrayRemovals(run + [a]) == StrayRemovals(run) + if IsStray(Run(run).value, a) then 1 else 0
  {
    assert (run + [a])[..|run|] == run;
  }

  const ALONE: Info := Info(0, 0, {})

  /** The state with one session and its one connection. */
  const ONE_CONN: Reg := Reg(map[0 := map[0 := 7]], {7}, 1, map[7 := ALONE], {}, {}, [], 0)

  /** One session without connections. */
  const ONE_SESSION: Reg := NOBODY.(sessions := map[0 := map[]])

  lemma {:induction false} OpenOne()
    ensures Opened(NOBODY, 0) == ONE_SESSION
  {
    assert NOBODY.sessions[0 := map[]] == ONE_SESSION.sessions;
  }

  lemma {:induction false} RegisterOne()
    ensures Registered(ONE_SESSION, 0, 0, 7) == ONE_CONN
  {
    var m: map<Ns, ConnId> := map[];
    assert m[0 := 7] == map[0 := 7];
    assert ONE_SESSION.sessions[0 := map[0 := 7]] == ONE_CONN.sessions;
    assert ONE_SESSION.info[7 := ALONE] == ONE_CONN.info;
  }

  lemma {:induction false} ConnectOne() returns (run: seq<Action>)
    ensures run == [] + [Open(0)] + [Connect(0, 0, 7, false)]
    ensures Run(run) == Some(ONE_CONN) && StrayRemovals(run) == 0
  {
    OpenOne();
    RegisterOne();
    hide Opened, Registered, Closed, RemovedConn, Disconnected, TornDown;
    hide JoinedRoom, LeftRoom, LeftAllRooms, ClearedRoom;
    var r0 := [] + [Open(0)];
    RunThen([], Open(0));
    run := r0 + [Connect(0, 0, 7, false)];
    RunThen(r0, Connect(0, 0, 7, false));
    hide Run, StrayRemovals;
  }

  /** An ordinary Close after the client's disconnect is a stray: count -1, and a second callback. */
  lemma {:induction false} CloseCanBeStray()
    ensures var run := [] + [Open(0)] + [Connect(0, 0, 7, false)] + [Disconnect(0, 0)] + [Close(7)];
            && Run(run).Some? && StrayRemovals(run) == 1
            && var r := Run(run).value;
               r.count == -1 && |r.calls| == 2 && r.calls[0].id == r.calls[1].id == 7
  {
    var connected := ConnectOne();
    var s1 := Step(ONE_CONN, Disconnect(0, 0)).value;
    assert s1.count == 0 && s1.conns == {} && |s1.calls| == 1 && s1.calls[0].id == 7 && s1.closeOnce == {};
    var s2 := Step(s1, Close(7)).value;
    assert s2.count == -1 && |s2.calls| == 2 && s2.calls[1].id == 7 && s2.calls[0] == s1.calls[0];
    assert IsStray(s1, Close(7));
    hide Step;
    var gone := connected + [Disconnect(0, 0)];
    RunThen(connected, Disconnect(0, 0));
    RunThen(gone, Close(7));
    hide Run, StrayRemovals;
  }

  lemma {:induction false} DisconnectOne()
    ensures var r := Disconnected(ONE_CONN, 0, 0);
            && Enrolled(r) && r.conns == {} && 7 in r.info && r.info[7].joined == {}
  {
    assert Disconnected(ONE_CONN, 0, 0).members == {};
  }

  /** A connection that is gone can still join a room, and is then a member that is not registered. */
  lemma {:induction false} GoneCanJoin(room: RoomName)
    requires room != NO_ROOM
    ensures var run := [] + [Open(0)] + [Connect(0, 0, 7, false)] + [Disconnect(0, 0)] + [Join(7, room)];
            Run(run).Some? && !Enrolled(Run(run).value)
  {
    var connected := ConnectOne();
    DisconnectOne();
    var s1 := Disconnected(ONE_CONN, 0, 0);
    JoinEnrolsExact(s1, 7, room);
    hide Disconnected, JoinedRoom, Enrolled;
    assert Step(ONE_CONN, Disconnect(0, 0)) == Some(s1);
    assert Step(s1, Join(7, room)) == Some(JoinedRoom(s1, 7, room));
    hide Step;
    RunThen(connected, Disconnect(0, 0));
    RunThen(connected + [Disconnect(0, 0)], Join(7, room));
    hide Run, StrayRemovals;
  }

  /** Without ClearRoom, a join makes a member exactly of a named room in the set, or if there is space in it. */
  lemma {:induction false} JoinMakesMember(run: seq<Action>, id: ConnId, room: RoomName)
    requires Run(run).Some? && NoClear(run)
    requires id in Run(run).value.info
    ensures var r := Run(run).value;
            IsMember(JoinedRoom(r, id, room), id, room) <==> room in r.info[id].joined || MayJoin(r, id, room)
  {
    RunCountsStrays(run);
    JoinedIsSound(Run(run).value, id, room);
    hide Run, Sound, StrayRemovals, NoClear, JoinedRoom;
  }

  lemma ClearingIsFinal(r: Reg, id: ConnId, room: RoomName)
    requires id in r.info && room in r.info[id].joined
    ensures var r' := ClearedRoom(r, r.info[id].ns, room);
            && r'.info == r.info && r'.conns == r.conns
            && JoinedRoom(r', id, room) == r' && !IsMember(r', id, room)
  {
  }

  lemma {:induction false} JoinOne(room: RoomName)
    requires room != NO_ROOM
    ensures var r := JoinedRoom(ONE_CONN, 7, room);
            7 in r.conns && 7 in r.info && r.info[7].ns == 0 && room in r.info[7].joined
  {
  }

  /** With it, joining can fail: after a room is cleared, one who had joined it cannot join it again. */
  lemma {:induction false} ClearedRoomCannotBeRejoined(room: RoomName)
    requires room != NO_ROOM
    ensures var run := [] + [Open(0)] + [Connect(0, 0, 7, false)] + [Join(7, room)] + [ClearRoom(0, room)]
                       + [Join(7, room)];
            && Run(run).Some? && var r := Run(run).value;
               7 in r.conns && 7 in r.info && room in r.info[7].joined && !IsMember(r, 7, room)
  {
    var r2 := ConnectOne();
    JoinOne(room);
    var s3 := JoinedRoom(ONE_CONN, 7, room);
    ClearingIsFinal(s3, 7, room);
    var s4 := ClearedRoom(s3, 0, room);
    hide StrayRemovals, JoinedRoom, ClearedRoom, IsMember, IsStray;
    assert Step(ONE_CONN, Join(7, room)) == Some(s3);
    assert Step(s3, ClearRoom(0, room)) == Some(s4) == Step(s4, Join(7, room));
    hide Step;
    var r3 := r2 + [Join(7, room)];
    RunThen(r2, Join(7, room));
    var r4 := r3 + [ClearRoom(0, room)];
    RunThen(r3, ClearRoom(0, room));
    RunThen(r4, Join(7, room));
    hide Run;
  }

  // ----- the code -----

  class Server {
    var sessions: map<Session, map<Ns, ConnId>>
    var conns: set<ConnId>
    var connCount: int
    var info: map<ConnId, Info>
    var closeOnce: set<ConnId>
    var members: set<Membership>
    /** The callbacks made, and how many of them were for connections that were not registered. */
    ghost var calls: seq<Callback>
    ghost var strays: nat

    ghost function View(): Reg
      reads this
    {
      Reg(sessions, conns, connCount, info, closeOnce, members, calls, strays)
    }

    constructor ()
      ensures View() == NOBODY
    {
      sessions, conns, connCount, info := map[], {}, 0, map[];
      closeOnce, members, calls, strays := {}, {}, [], 0;
    }

    method LeaveAllRooms(id: ConnId)
      requires id in info
      modifies this
      ensures View() == LeftAllRooms(old(View()), id)
    {
      var ns := info[id].ns;
      members := set m | m in members && !(m.ns == ns && m.id == id);
      info := info[id := info[id].(joined := {})];
    }

    /** The end of every removal: rooms, table, counter, callback. */
    method Drop(id: ConnId, reason: Reason)
      requires id in info
      modifies this
      ensures View() == Dropped(old(View()), id, reason)
    {
      LeaveAllRooms(id);
      ghost var registered := id in conns;
      conns := conns - {id};
      connCount := connCount - 1;
      strays := if registered then strays else strays + 1;
      calls := calls + [Callback(id, reason, registered, connCount, conns, strays)];
    }

    method RemoveConn(id: ConnId, reason: Reason)
      requires id in info
      modifies this
      ensures View() == RemovedConn(old(View()), id, reason)
    {
      hide Dropped;
      var c := info[id];
      if c.session in sessions {
        var m: map<Ns, ConnId> := sessions[c.session];
        if c.ns in m && m[c.ns] == id {
          m := m - {c.ns};
          sessions := sessions[c.session := m];
        }
      }
      assert View() == Unlinked(old(View()), id);
      Drop(id, reason);
    }

    method CloseConn(id: ConnId)
      requires id in info
      modifies this
      ensures View() == Closed(old(View()), id)
    {
      hide RemovedConn;
      if id in closeOnce {
        return;
      }
      closeOnce := closeOnce + {id};
      LeaveAllRooms(id);
      assert View() == LeftAllRooms(old(View()), id).(closeOnce := old(closeOnce) + {id});
      RemoveConn(id, ClientDisconnect);
    }

    /** A connect, up to the connect handler: `ask` says that it is to be called. */
    method ConnectNamespace(s: Session, ns: Ns, id: ConnId, replyFails: bool) returns (ask: bool)
      requires s in sessions && id !in info
      modifies this
      ensures View() == Connected(old(View()), s, ns, id, replyFails)
      ensures ask == (ns !in old(sessions)[s] && !replyFails)
    {
      hide Closed;
      if ns in sessions[s] {
        return false;
      }
      var m: map<Ns, ConnId> := sessions[s];
      m := m[ns := id];
      sessions := sessions[s := m];
      info := info[id := Info(s, ns, {})];
      conns := conns + {id};
      connCount := connCount + 1;
      assert View() == Registered(old(View()), s, ns, id);
      if replyFails {
        CloseConn(id);
        return false;
      }
      ask := true;
    }

    /** What follows the connect handler's answer. */
    method AnswerConnect(id: ConnId, rejected: bool)
      requires id in info
      modifies this
      ensures View() == if rejected then RemovedConn(old(View()), id, Rejected) else old(View())
    {
      if rejected {
        RemoveConn(id, Rejected);
      }
    }

    method DisconnectNamespace(s: Session, ns: Ns)
      requires s in sessions && ns in sessions[s] ==> sessions[s][ns] in info
      modifies this
      ensures View() == Disconnected(old(View()), s, ns)
    {
      if s in sessions && ns in sessions[s] {
        var m: map<Ns, ConnId> := sessions[s];
        var id := m[ns];
        m := m - {ns};
        sessions := sessions[s := m];
        Drop(id, ClientDisconnect);
      }
    }

    /** The connections of the session are dropped in any order. */
    method TeardownSession(s: Session) returns (ghost order: seq<ConnId>)
      requires Sound(View())
      modifies this
      ensures InSomeOrder(old(View()), s, order) && (forall id :: id in order ==> id in old(info))
      ensures View() == TornDown(old(View()), s, order) && Sound(View())
    {
      ghost var r := View();
      var todo := if s in sessions then sessions[s].Values else {};
      EntriesAreKnown(r, s);
      sessions := sessions - {s};
      ghost var r0 := View();
      order := [];
      hide Sound, Dropped, PartlyOrdered;
      assert PartlyOrdered(r, s, [], todo) by { NotYetOrdered(r, s, todo); }
      while todo != {}
        invariant PartlyOrdered(r, s, order, todo) && (forall id :: id in order ==> id in r.info)
        invariant todo <= r.info.Keys == info.Keys
        invariant View() == DroppedEach(r0, order)
        decreases todo
      {
        var id :| id in todo;
        assert (order + [id])[..|order|] == order;
        OrderedFurther(r, s, order, todo, id);
        DropKeepsInfo(View(), id, TransportClosed);
        Drop(id, TransportClosed);
        todo := todo - {id};
        order := order + [id];
      }
      OrderedAtLast(r, s, order);
      TornDownIsSound(r, s, order);
    }

    method JoinRoom(id: ConnId, room: RoomName)
      requires id in info
      modifies this
      ensures View() == JoinedRoom(old(View()), id, room)
    {
      if room == NO_ROOM {
        return;
      }
      var c := info[id];
      if room in c.joined {
        return;
      }
      if |c.joined| >= MAX_ROOMS {
        return;
      }
      info := info[id := c.(joined := c.joined + {room})];
      members := members + {Membership(c.ns, room, id)};
    }

    method LeaveRoom(id: ConnId, room: RoomName)
      requires id in info
      modifies this
      ensures View() == LeftRoom(old(View()), id, room)
    {
      var c := info[id];
      info := info[id := c.(joined := c.joined - {room})];
      members := members - {Membership(c.ns, room, id)};
    }
  }

  /** A teardown that has dropped `order` and still has `todo` to drop. */
  ghost predicate PartlyOrdered(r: Reg, s: Session, order: seq<ConnId>, todo: set<ConnId>) {
    && (forall i, j :: 0 <= i < j < |order| ==> order[i] != order[j])
    && (forall id :: id in order ==> id !in todo)
    && (forall id :: id in order || id in todo <==> s in r.sessions && id in r.sessions[s].Values)
  }

  lemma NotYetOrdered(r: Reg, s: Session, todo: set<ConnId>)
    requires todo == if s in r.sessions then r.sessions[s].Values else {}
    ensures PartlyOrdered(r, s, [], todo)
  {
  }

  lemma OrderedFurther(r: Reg, s: Session, order: seq<ConnId>, todo: set<ConnId>, id: ConnId)
    requires PartlyOrdered(r, s, order, todo) && id in todo
    ensures PartlyOrdered(r, s, order + [id], todo - {id})
  {
  }

  lemma OrderedAtLast(r: Reg, s: Session, order: seq<ConnId>)
    requires PartlyOrdered(r, s, order, {})
    ensures InSomeOrder(r, s, order)
  {
  }

  lemma {:induction false} EntriesAreKnown(r: Reg, s: Session)
    requires Sound(r)
    ensures s in r.sessions ==> forall id :: id in r.sessions[s].Values ==> id in r.info
  {
    hide CalledOnce, Indexed;
    if s in r.sessions {
      forall ns | ns in r.sessions[s]
        ensures r.sessions[s][ns] in r.info
      {
        assert EntryOk(r, s, ns);
      }
    }
  }

  lemma DropKeepsInfo(r: Reg, id: ConnId, reason: Reason)
    requires id in r.info
    ensures Dropped(r, id, reason).info.Keys == r.info.Keys
  {
  }
}
