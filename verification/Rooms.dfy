/**
 * The room manager: named rooms, each with its members, as a set of (room, member) pairs. The code
 * keeps no empty room, so that the rooms it names are exactly those with members.
 */
module Rooms {

  datatype Name = Name(text: string)
  datatype Id = Id(text: string)

  /** Anything that can be sent an event; `conn` stands for the object behind the id. */
  datatype Member = Member(id: Id, conn: nat)

  type MemberMap = map<Id, Member>

  function Plus(ms: MemberMap, m: Member): MemberMap {
    if m.id in ms then ms else ms[m.id := m]
  }

  function Minus(ms: MemberMap, i: Id): MemberMap {
    ms - {i}
  }

  class Room {
    var members: MemberMap

    constructor ()
      ensures members == map[]
    {
      members := map[];
    }

    method Add(m: Member) returns (added: bool)
      modifies this
      ensures added == (m.id !in old(members))
      ensures members == Plus(old(members), m)
    {
      if m.id in members {
        return false;
      }
      members := members[m.id := m];
      added := true;
    }

    method Remove(m: Member) returns (removed: bool)
      modifies this
      ensures removed == (m.id in old(members))
      ensures members == Minus(old(members), m.id)
    {
      if m.id !in members {
        assert members == members - {m.id};
        return false;
      }
      members := members - {m.id};
      removed := true;
    }

    method Len() returns (n: nat)
      ensures n == |members| && (n == 0 <==> members == map[])
    {
      n := |members|;
    }

    /** The members in some order, each once. */
    method Snapshot() returns (out: seq<Member>)
      requires forall i :: i in members ==> members[i].id == i
      ensures DistinctIds(out) && IdsOf(out) == members.Keys
      ensures forall m :: m in out ==> m.id in members && members[m.id] == m
    {
      out := [];
      var todo := members.Keys;
      while todo != {}
        invariant todo <= members.Keys
        invariant DistinctIds(out) && IdsOf(out) == members.Keys - todo
        invariant forall m :: m in out ==> m.id in members && members[m.id] == m
        decreases todo
      {
        var i :| i in todo;
        IdsOfAppend(out, members[i]);
        out, todo := out + [members[i]], todo - {i};
      }
    }
  }

  predicate DistinctIds(ms: seq<Member>) {
    forall i, j :: 0 <= i < j < |ms| ==> ms[i].id != ms[j].id
  }

  function IdsOf(ms: seq<Member>): set<Id> {
    set i | 0 <= i < |ms| :: ms[i].id
  }

  lemma {:induction false} IdsOfAppend(ms: seq<Member>, m: Member)
    ensures IdsOf(ms + [m]) == IdsOf(ms) + {m.id}
  {
    var ns := ms + [m];
    assert ns[|ms|] == m;
    forall x | x in IdsOf(ms)
      ensures x in IdsOf(ns)
    {
      var i :| 0 <= i < |ms| && ms[i].id == x;
      assert ns[i].id == x;
    }
  }

  // ----- the rooms as a value -----

  type Table = map<Name, MemberMap>

  /** No room is empty, and a member is filed under its own id. */
  predicate WellFormed(t: Table) {
    && (forall n :: n in t ==> t[n] != map[])
    && (forall n, i :: n in t && i in t[n] ==> t[n][i].id == i)
  }

  /** The memberships: which id is in which room. */
  function Pairs(t: Table): set<(Name, Id)> {
    set n, i | n in t && i in t[n] :: (n, i)
  }

  predicate Has(t: Table, n: Name, i: Id) {
    n in t && i in t[n]
  }

  /** The room has this very member, and not only one with its id. */
  predicate Holds(t: Table, n: Name, m: Member) {
    Has(t, n, m.id) && t[n][m.id] == m
  }

  lemma PairsAre(t: Table)
    ensures forall n, i :: (n, i) in Pairs(t) <==> Has(t, n, i)
  {
  }

  function Joined(t: Table, n: Name, m: Member): Table {
    t[n := Plus(if n in t then t[n] else map[], m)]
  }

  function Left(t: Table, n: Name, m: Member): Table {
    if n !in t then t
    else
      var rest := Minus(t[n], m.id);
      if rest == map[] then t - {n} else t[n := rest]
  }

  function LeftAll(t: Table, m: Member): Table {
    map n | n in t && Minus(t[n], m.id) != map[] :: Minus(t[n], m.id)
  }

  /** One room's contents replaced, and the room dropped when nothing is left in it. */
  function Replaced(t: Table, n: Name, ms: MemberMap): Table {
    if ms == map[] then t[n := ms] - {n} else t[n := ms]
  }

  lemma JoinedIs(t: Table, n: Name, m: Member)
    ensures var t' := if n in t then t else t[n := map[]];
            t'[n := Plus(t'[n], m)] == Joined(t, n, m)
  {
  }

  lemma LeftIs(t: Table, n: Name, m: Member)
    requires n in t
    ensures Replaced(t, n, Minus(t[n], m.id)) == Left(t, n, m)
  {
  }

  /** The table when the rooms in `todo` are still to be left. */
  function LeftBut(t: Table, todo: set<Name>, m: Member): Table {
    map n | n in t && (n in todo || Minus(t[n], m.id) != map[]) :: if n in todo then t[n] else Minus(t[n], m.id)
  }

  lemma LeftButStep(t: Table, todo: set<Name>, n: Name, m: Member)
    requires n in todo && todo <= t.Keys
    ensures Replaced(LeftBut(t, todo, m), n, Minus(t[n], m.id)) == LeftBut(t, todo - {n}, m)
    ensures LeftBut(t, todo, m)[n] == t[n]
  {
  }

  lemma LeftButEnds(t: Table, m: Member)
    ensures LeftBut(t, t.Keys, m) == t && LeftBut(t, {}, m) == LeftAll(t, m)
  {
  }

  lemma {:induction false} JoinedPairs(t: Table, n: Name, m: Member)
    requires WellFormed(t)
    ensures WellFormed(Joined(t, n, m)) && Pairs(Joined(t, n, m)) == Pairs(t) + {(n, m.id)}
  {
    var t' := Joined(t, n, m);
    assert m.id in t'[n];
    assert forall k, i :: Has(t', k, i) <==> Has(t, k, i) || (k == n && i == m.id);
    PairsAre(t);
    PairsAre(t');
  }

  lemma {:induction false} LeftPairs(t: Table, n: Name, m: Member)
    requires WellFormed(t)
    ensures WellFormed(Left(t, n, m)) && Pairs(Left(t, n, m)) == Pairs(t) - {(n, m.id)}
  {
    var t' := Left(t, n, m);
    if n in t {
      assert forall i :: i in t[n] && i != m.id ==> i in Minus(t[n], m.id);
    }
    assert forall k, i :: Has(t', k, i) <==> Has(t, k, i) && !(k == n && i == m.id);
    PairsAre(t);
    PairsAre(t');
  }

  lemma {:induction false} LeftAllPairs(t: Table, m: Member)
    requires WellFormed(t)
    ensures WellFormed(LeftAll(t, m)) && Pairs(LeftAll(t, m)) == set p | p in Pairs(t) && p.1 != m.id
  {
    var t' := LeftAll(t, m);
    forall k, i | Has(t, k, i) && i != m.id
      ensures Has(t', k, i)
    {
      assert i in Minus(t[k], m.id);
    }
    assert forall k, i :: Has(t', k, i) <==> Has(t, k, i) && i != m.id;
    PairsAre(t);
    PairsAre(t');
  }

  /** Each of these members is in some room. */
  ghost predicate AllIn(t: Table, ms: seq<Member>) {
    forall m :: m in ms ==> exists n :: Holds(t, n, m)
  }

  lemma NobodyIsIn(t: Table)
    ensures AllIn(t, [])
  {
  }

  lemma {:induction false} MoreAreIn(t: Table, n: Name, ms: seq<Member>, more: seq<Member>)
    requires AllIn(t, ms) && n in t
    requires forall m :: m in more ==> m in ms || (m.id in t[n] && t[n][m.id] == m)
    ensures AllIn(t, more)
  {
    forall m | m in more
      ensures exists k :: Holds(t, k, m)
    {
      if m !in ms {
        assert Holds(t, n, m);
      }
    }
  }

  /** Who was in a room stays the same member, also when another one with its id joins; a new one is added as it is. */
  lemma JoinedHolds(t: Table, n: Name, m: Member)
    ensures forall k, x :: Holds(t, k, x) ==> Holds(Joined(t, n, m), k, x)
    ensures !Has(t, n, m.id) ==> Holds(Joined(t, n, m), n, m)
  {
  }

  /** And one who neither leaves nor is in a room that is cleared. */
  lemma {:induction false} LeftHolds(t: Table, n: Name, m: Member)
    ensures forall k, x :: Holds(t, k, x) && !(k == n && x.id == m.id) ==> Holds(Left(t, n, m), k, x)
    ensures forall k, x :: Holds(t, k, x) && x.id != m.id ==> Holds(LeftAll(t, m), k, x)
    ensures forall k, x :: Holds(t, k, x) && k != n ==> Holds(t - {n}, k, x)
  {
    forall k, x | Holds(t, k, x) && x.id != m.id
      ensures x.id in Minus(t[k], m.id)
    {
    }
  }

  lemma ClearedPairs(t: Table, n: Name)
    requires WellFormed(t)
    ensures WellFormed(t - {n}) && Pairs(t - {n}) == set p | p in Pairs(t) && p.0 != n
  {
  }

  /** Joining and leaving again changes nothing, for one who was not a member. */
  lemma {:induction false} JoinedThenLeft(t: Table, n: Name, m: Member)
    requires WellFormed(t) && !Has(t, n, m.id)
    ensures Left(Joined(t, n, m), n, m) == t
  {
    var t' := Joined(t, n, m);
    var before: MemberMap := if n in t then t[n] else map[];
    assert Minus(t'[n], m.id) == before;
    assert n in t ==> t[n] != map[];
  }

  // ----- the code -----

  class Manager {
    var rooms: map<Name, Room>
    /** The rooms as a value. */
    ghost var table: Table
    ghost var Repr: set<Room>

    ghost predicate Valid()
      reads this, Repr
    {
      WellFormed(table) && Mirrors(table)
    }

    /** The rooms are distinct objects whose contents are the table `t`. */
    ghost predicate Mirrors(t: Table)
      reads this, Repr
    {
      && (forall n, n' :: n in rooms && n' in rooms && n != n' ==> rooms[n] != rooms[n'])
      && (forall n :: n in rooms <==> n in t)
      && (forall n :: n in rooms ==> rooms[n] in Repr && rooms[n].members == t[n])
    }

    constructor ()
      ensures Valid() && table == map[] && Repr == {}
    {
      rooms, table, Repr := map[], map[], {};
    }

    /** The room called `name`, created if there is none. */
    method Obtain(name: Name) returns (r: Room)
      requires Mirrors(table)
      modifies this
      ensures Mirrors(table) && name in rooms && r == rooms[name] && fresh(Repr - old(Repr))
      ensures table == if name in old(table) then old(table) else old(table)[name := map[]]
    {
      if name in rooms {
        r := rooms[name];
      } else {
        r := new Room();
        rooms, Repr, table := rooms[name := r], Repr + {r}, table[name := map[]];
      }
    }

    method Drop(name: Name)
      requires Mirrors(table)
      modifies this
      ensures Mirrors(table) && table == old(table) - {name} && Repr == old(Repr)
    {
      rooms, table := rooms - {name}, table - {name};
    }

    /** Adds `m` to a room that exists. */
    method AddTo(name: Name, r: Room, m: Member) returns (added: bool)
      requires Mirrors(table) && name in rooms && r == rooms[name]
      modifies this`table, r
      ensures Mirrors(table) && table == old(table)[name := Plus(old(table)[name], m)]
      ensures added == (m.id !in old(table)[name])
    {
      hide Plus;
      assert r.members == table[name];
      added := r.Add(m);
      assert forall n :: n in rooms && n != name ==> rooms[n] != r;
      table := table[name := r.members];
    }

    /** Removes `m` from a room that exists, and reports how many members are left. */
    method RemoveFrom(name: Name, m: Member) returns (removed: bool, left: nat)
      requires Mirrors(table) && name in rooms
      modifies this`table, rooms[name]
      ensures Mirrors(table) && table == old(table)[name := Minus(old(table)[name], m.id)]
      ensures removed == (m.id in old(table)[name]) && (left == 0 <==> table[name] == map[])
    {
      hide Minus;
      var r := rooms[name];
      assert r.members == table[name];
      removed := r.Remove(m);
      left := r.Len();
      assert forall n :: n in rooms && n != name ==> rooms[n] != r;
      table := table[name := r.members];
    }

    /** Removes `m` from a room that exists, and drops the room if that leaves it empty. */
    method LeaveOne(name: Name, m: Member) returns (removed: bool)
      requires Mirrors(table) && name in table
      modifies this, Repr
      ensures Mirrors(table) && Repr == old(Repr)
      ensures table == Replaced(old(table), name, Minus(old(table)[name], m.id))
      ensures removed == (m.id in old(table)[name])
    {
      assert name in rooms && rooms[name] in Repr;
      hide Mirrors, Minus;
      var left;
      removed, left := RemoveFrom(name, m);
      if left == 0 {
        Drop(name);
      }
    }

    method Join(name: Name, m: Member) returns (added: bool)
      requires Valid()
      modifies this, Repr
      ensures Valid() && fresh(Repr - old(Repr))
      ensures table == Joined(old(table), name, m)
      ensures added <==> !Has(old(table), name, m.id)
    {
      JoinedPairs(table, name, m);
      JoinedIs(table, name, m);
      hide WellFormed, Pairs, Plus, Joined;
      var r := Obtain(name);
      hide Mirrors;
      added := AddTo(name, r, m);
    }

    method Leave(name: Name, m: Member) returns (removed: bool)
      requires Valid()
      modifies this, Repr
      ensures Valid() && Repr == old(Repr)
      ensures table == Left(old(table), name, m)
      ensures removed <==> Has(old(table), name, m.id)
    {
      LeftPairs(table, name, m);
      if name !in rooms {
        return false;
      }
      LeftIs(table, name, m);
      hide WellFormed, Pairs, Minus, Mirrors, Left, Replaced;
      removed := LeaveOne(name, m);
    }

    /** The rooms are visited in any order. */
    method LeaveAll(m: Member)
      requires Valid()
      modifies this, Repr
      ensures Valid() && Repr == old(Repr)
      ensures table == LeftAll(old(table), m)
    {
      ghost var t := table;
      LeftAllPairs(t, m);
      LeftButEnds(t, m);
      hide WellFormed, Pairs, Minus, LeftBut, LeftAll;
      var todo := rooms.Keys;
      assert todo == t.Keys;
      while todo != {}
        invariant Mirrors(table) && Repr == old(Repr)
        invariant todo <= t.Keys && table == LeftBut(t, todo, m)
        decreases todo
      {
        var name :| name in todo;
        LeftButStep(t, todo, name, m);
        var _ := LeaveOne(name, m);
        todo := todo - {name};
      }
    }

    method InRoom(name: Name, m: Member) returns (found: bool)
      requires Valid()
      ensures found <==> (name, m.id) in Pairs(table)
    {
      found := name in rooms && m.id in rooms[name].members;
    }

    method Len(name: Name) returns (n: nat)
      requires Valid()
      ensures n == |MembersOf(table, name)|
    {
      MembersOfRoom(table, name);
      n := if name in rooms then |rooms[name].members| else 0;
    }

    /** The names, in some order. */
    method Names() returns (names: seq<Name>)
      requires Valid()
      ensures Distinct(names)
      ensures (set n | n in names) == (set p | p in Pairs(table) :: p.0)
    {
      names := [];
      var todo := rooms.Keys;
      while todo != {}
        invariant todo <= rooms.Keys
        invariant Distinct(names)
        invariant forall n :: n in names <==> n in rooms.Keys - todo
        decreases todo
      {
        var n :| n in todo;
        assert n !in names;
        names, todo := names + [n], todo - {n};
      }
      RoomsAreInhabited(table);
    }

    method Clear(name: Name)
      requires Valid()
      modifies this
      ensures Valid() && Repr == old(Repr)
      ensures table == old(table) - {name}
    {
      ClearedPairs(table, name);
      rooms, table := rooms - {name}, table - {name};
    }

    method Members(name: Name) returns (out: seq<Member>)
      requires Valid()
      ensures DistinctIds(out) && IdsOf(out) == MembersOf(table, name)
      ensures forall m :: m in out ==> Holds(table, name, m)
    {
      MembersOfRoom(table, name);
      if name !in rooms {
        return [];
      }
      out := rooms[name].Snapshot();
    }

    /** `sent` is the members whose Emit is called, in order. */
    method Send(name: Name, skip: set<Id>) returns (sent: seq<Member>)
      requires Valid()
      ensures DistinctIds(sent) && IdsOf(sent) == MembersOf(table, name) - skip
      ensures forall m :: m in sent ==> Holds(table, name, m)
    {
      var ms := Members(name);
      sent := [];
      for k := 0 to |ms|
        invariant DistinctIds(sent) && forall m :: m in sent ==> m in ms
        invariant IdsOf(sent) == IdsOf(ms[..k]) - skip
      {
        assert ms[..k + 1] == ms[..k] + [ms[k]];
        IdsOfAppend(ms[..k], ms[k]);
        if ms[k].id in skip {
          continue;
        }
        IdsOfAppend(sent, ms[k]);
        sent := sent + [ms[k]];
      }
      assert ms[..|ms|] == ms;
    }

    /** One room's part of a broadcast: those not seen before. */
    method SendUnseen(r: Room, sent: seq<Member>, seen: set<Id>) returns (sent': seq<Member>, seen': set<Id>)
      requires forall i :: i in r.members ==> r.members[i].id == i
      requires DistinctIds(sent) && IdsOf(sent) == seen
      ensures DistinctIds(sent') && IdsOf(sent') == seen' == seen + r.members.Keys
      ensures forall m :: m in sent' ==> m in sent || (m.id in r.members && r.members[m.id] == m)
    {
      sent', seen' := sent, seen;
      var ms := r.Snapshot();
      for k := 0 to |ms|
        invariant DistinctIds(sent') && IdsOf(sent') == seen'
        invariant forall m :: m in sent' ==> m in sent || m in ms
        invariant seen' == seen + IdsOf(ms[..k])
      {
        assert ms[..k + 1] == ms[..k] + [ms[k]];
        IdsOfAppend(ms[..k], ms[k]);
        if ms[k].id in seen' {
          continue;
        }
        IdsOfAppend(sent', ms[k]);
        seen' := seen' + {ms[k].id};
        sent' := sent' + [ms[k]];
      }
      assert ms[..|ms|] == ms;
    }

    /** Every member of any room is sent the event once, however many rooms it is in. */
    method SendAll() returns (sent: seq<Member>)
      requires Valid()
      ensures DistinctIds(sent) && IdsOf(sent) == set p | p in Pairs(table) :: p.1
      ensures AllIn(table, sent)
    {
      hide AllIn;
      NobodyIsIn(table);
      sent := [];
      var seen: set<Id> := {};
      var todo := rooms.Keys;
      while todo != {}
        invariant todo <= rooms.Keys
        invariant DistinctIds(sent) && IdsOf(sent) == seen
        invariant AllIn(table, sent)
        invariant seen == set n, i | n in rooms.Keys - todo && i in rooms[n].members :: i
        decreases todo
      {
        var name :| name in todo;
        ghost var before := sent;
        sent, seen := SendUnseen(rooms[name], sent, seen);
        MoreAreIn(table, name, before, sent);
        todo := todo - {name};
      }
      MembersOfAny(table);
      assert seen == set n, i | n in table && i in table[n] :: i;
    }
  }

  predicate Distinct(names: seq<Name>) {
    forall i, j :: 0 <= i < j < |names| ==> names[i] != names[j]
  }

  function MembersOf(t: Table, n: Name): set<Id> {
    set p | p in Pairs(t) && p.0 == n :: p.1
  }

  lemma {:induction false} MembersOfRoom(t: Table, n: Name)
    ensures MembersOf(t, n) == if n in t then t[n].Keys else {}
  {
    if n in t {
      assert forall i :: i in t[n] ==> (n, i) in Pairs(t) && (n, i).1 == i;
    }
  }

  lemma {:induction false} MembersOfAny(t: Table)
    ensures (set p | p in Pairs(t) :: p.1) == set n, i | n in t && i in t[n] :: i
  {
    forall n, i | n in t && i in t[n]
      ensures i in set p | p in Pairs(t) :: p.1
    {
      assert (n, i) in Pairs(t) && (n, i).1 == i;
    }
  }

  lemma {:induction false} RoomsAreInhabited(t: Table)
    requires WellFormed(t)
    ensures t.Keys == set p | p in Pairs(t) :: p.0
  {
    forall n | n in t
      ensures n in set p | p in Pairs(t) :: p.0
    {
      var i :| i in t[n];
      assert (n, i) in Pairs(t) && (n, i).0 == n;
    }
  }
}
