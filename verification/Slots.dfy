/**
 * Connection slots: a request reserves a slot for its address under the server's lock, and later either
 * gives it back or turns it into a session. The limits are checked when the slot is reserved.
 */
module Slots {
  import opened Options

  type Sid = nat
  type Ip = nat

  /** A limit of 0 means no limit. */
  datatype Limits = Limits(total: nat, perIp: nat)

  /**
   * `reserved` are the slots taken by requests that have neither inserted a session nor released them.
   * The table of polling sessions has a lock of its own: `entering` are the sessions in it that are not
   * inserted yet, and `leaving` those removed from the server that may still be in it.
   */
  datatype Slots = Slots(active: map<Sid, Ip>, ipCount: map<Ip, nat>, reserved: multiset<Ip>,
                         polling: set<Sid>, entering: set<Sid>, leaving: set<Sid>)

  const NONE_TAKEN: Slots := Slots(map[], map[], multiset{}, {}, {}, {})

  function Get(m: map<Ip, nat>, ip: Ip): nat {
    if ip in m then m[ip] else 0
  }

  datatype Refusal = ServerFull | IpFull

  function Refuses(l: Limits, s: Slots, ip: Ip): Option<Refusal> {
    if l.total > 0 && |s.active| >= l.total then Some(ServerFull)
    else if l.perIp > 0 && Get(s.ipCount, ip) >= l.perIp then Some(IpFull)
    else None
  }

  /** One slot of `ip` given back; the code stores no zero. */
  function Lowered(m: map<Ip, nat>, ip: Ip): map<Ip, nat> {
    if Get(m, ip) > 1 then m[ip := m[ip] - 1] else m - {ip}
  }

  function Acquired(l: Limits, s: Slots, ip: Ip): Slots {
    if Refuses(l, s, ip) != None then s
    else s.(ipCount := s.ipCount[ip := Get(s.ipCount, ip) + 1], reserved := s.reserved + multiset{ip})
  }

  function Released(s: Slots, ip: Ip): Slots {
    s.(ipCount := Lowered(s.ipCount, ip), reserved := s.reserved - multiset{ip})
  }

  function Inserted(s: Slots, sid: Sid, ip: Ip): Slots {
    s.(active := s.active[sid := ip], reserved := s.reserved - multiset{ip}, entering := s.entering - {sid})
  }

  /** The first half of a removal, under the server's lock. */
  function Removed(s: Slots, sid: Sid): Slots {
    var s' := s.(leaving := s.leaving + {sid});
    if sid !in s.active then s'
    else s'.(active := s.active - {sid}, ipCount := Lowered(s.ipCount, s.active[sid]))
  }

  function EnteredPolling(s: Slots, sid: Sid): Slots {
    s.(polling := s.polling + {sid}, entering := s.entering + {sid})
  }

  function LeftPolling(s: Slots, sid: Sid): Slots {
    s.(polling := s.polling - {sid}, leaving := s.leaving - {sid})
  }

  /** An upgrade takes no slot; the session leaves the table of polling sessions. */
  function Upgraded(s: Slots, sid: Sid): Slots {
    s.(polling := s.polling - {sid})
  }

  /** Removing a session again changes nothing. */
  lemma RemovedTwice(s: Slots, sid: Sid)
    ensures Removed(Removed(s, sid), sid) == Removed(s, sid)
  {
  }

  // ----- runs -----

  datatype Action =
    | Acquire(ip: Ip)
    | Release(ip: Ip)
    | Insert(sid: Sid, ip: Ip)
    | Remove(sid: Sid)
    | EnterPolling(sid: Sid)
    | LeavePolling(sid: Sid)
    | Upgrade(sid: Sid)

  /** A reservation is released or inserted by the request that holds it, and a new session id is fresh. */
  function Step(l: Limits, s: Slots, a: Action): Option<Slots> {
    match a
    case Acquire(ip) => Some(Acquired(l, s, ip))
    case Release(ip) => if ip in s.reserved then Some(Released(s, ip)) else None
    case Insert(sid, ip) => if ip in s.reserved && sid !in s.active then Some(Inserted(s, sid, ip)) else None
    case Remove(sid) => Some(Removed(s, sid))
    case EnterPolling(sid) => if sid in s.active then None else Some(EnteredPolling(s, sid))
    case LeavePolling(sid) => if sid in s.leaving then Some(LeftPolling(s, sid)) else None
    case Upgrade(sid) => Some(Upgraded(s, sid))
  }

  function Run(l: Limits, run: seq<Action>): Option<Slots> {
    if run == [] then Some(NONE_TAKEN)
    else
      match Run(l, run[..|run| - 1])
      case None => None
      case Some(s) => Step(l, s, run[|run| - 1])
  }

  /** The active sessions of an address. */
  function Of(active: map<Sid, Ip>, ip: Ip): set<Sid> {
    set sid | sid in active && active[sid] == ip
  }

  lemma OfAdded(active: map<Sid, Ip>, sid: Sid, ip: Ip)
    requires sid !in active
    ensures forall x :: Of(active[sid := ip], x) == Of(active, x) + if x == ip then {sid} else {}
  {
  }

  lemma OfDropped(active: map<Sid, Ip>, sid: Sid)
    requires sid in active
    ensures forall x :: Of(active - {sid}, x) == Of(active, x) - {sid}
    ensures forall x :: sid in Of(active, x) <==> x == active[sid]
  {
  }

  /**
   * The count stored for an address is its active sessions plus its reservations; no zero is stored, and
   * the limit per address holds.
   */
  ghost predicate Conserved(l: Limits, s: Slots) {
    && (forall ip :: Get(s.ipCount, ip) == |Of(s.active, ip)| + s.reserved[ip])
    && (forall ip :: ip in s.ipCount ==> s.ipCount[ip] > 0)
    && (l.perIp > 0 ==> forall ip :: ip in s.ipCount ==> s.ipCount[ip] <= l.perIp)
  }

  lemma {:induction false} AcquireConserves(l: Limits, s: Slots, ip: Ip)
    requires Conserved(l, s)
    ensures Conserved(l, Acquired(l, s, ip))
  {
    hide Of;
    var s' := Acquired(l, s, ip);
    if Refuses(l, s, ip) == None {
      assert s'.ipCount[ip] == Get(s.ipCount, ip) + 1 && s'.reserved[ip] == s.reserved[ip] + 1;
      assert forall x :: x != ip ==> Get(s'.ipCount, x) == Get(s.ipCount, x) && s'.reserved[x] == s.reserved[x];
    }
  }

  lemma LoweredGet(m: map<Ip, nat>, ip: Ip)
    requires forall x :: x in m ==> m[x] > 0
    requires Get(m, ip) > 0
    ensures forall x :: Get(Lowered(m, ip), x) == Get(m, x) - if x == ip then 1 else 0
    ensures forall x :: x in Lowered(m, ip) ==> 0 < Lowered(m, ip)[x] <= m[x]
  {
  }

  lemma {:induction false} ReleaseConserves(l: Limits, s: Slots, ip: Ip)
    requires Conserved(l, s) && ip in s.reserved
    ensures Conserved(l, Released(s, ip))
  {
    LoweredGet(s.ipCount, ip);
    hide Of, Lowered, Get;
    assert forall x :: (s.reserved - multiset{ip})[x] == s.reserved[x] - if x == ip then 1 else 0;
  }

  lemma {:induction false} InsertConserves(l: Limits, s: Slots, sid: Sid, ip: Ip)
    requires Conserved(l, s) && ip in s.reserved && sid !in s.active
    ensures Conserved(l, Inserted(s, sid, ip))
  {
    var s' := Inserted(s, sid, ip);
    OfAdded(s.active, sid, ip);
    assert sid !in Of(s.active, ip);
    hide Of, Get;
    forall x
      ensures Get(s'.ipCount, x) == |Of(s'.active, x)| + s'.reserved[x]
    {
      assert Of(s'.active, x) == Of(s.active, x) + if x == ip then {sid} else {};
      assert s'.reserved[x] == s.reserved[x] - if x == ip then 1 else 0;
    }
  }

  lemma {:induction false} RemoveConserves(l: Limits, s: Slots, sid: Sid)
    requires Conserved(l, s)
    ensures Conserved(l, Removed(s, sid))
  {
    if sid in s.active {
      var ip := s.active[sid];
      OfDropped(s.active, sid);
      assert sid in Of(s.active, ip);
      hide Of;
      assert Get(s.ipCount, ip) > 0;
      LoweredGet(s.ipCount, ip);
      hide Lowered, Get;
    }
  }

  lemma ConservedSame(l: Limits, s: Slots, s': Slots)
    requires Conserved(l, s) && SameCounts(s, s')
    ensures Conserved(l, s')
  {
  }

  predicate SameCounts(s: Slots, s': Slots) {
    s'.active == s.active && s'.ipCount == s.ipCount && s'.reserved == s.reserved
  }

  lemma {:induction false} StepConserves(l: Limits, s: Slots, a: Action)
    requires Conserved(l, s) && Step(l, s, a).Some?
    ensures Conserved(l, Step(l, s, a).value)
  {
    hide Conserved, Acquired, Released, Inserted, Removed;
    match a {
      case Acquire(ip) => AcquireConserves(l, s, ip);
      case Release(ip) => ReleaseConserves(l, s, ip);
      case Insert(sid, ip) => InsertConserves(l, s, sid, ip);
      case Remove(sid) => RemoveConserves(l, s, sid);
      case _ => ConservedSame(l, s, Step(l, s, a).value);
    }
  }

  lemma {:induction false} RunConserves(l: Limits, run: seq<Action>)
    requires Run(l, run).Some?
    ensures Conserved(l, Run(l, run).value)
  {
    if run == [] {
      assert forall ip: Ip :: Of(map[], ip) == {};
    } else {
      RunConserves(l, run[..|run| - 1]);
      StepConserves(l, Run(l, run[..|run| - 1]).value, run[|run| - 1]);
    }
  }

  ghost predicate PollingKnown(s: Slots) {
    forall sid :: sid in s.polling ==> sid in s.active || sid in s.entering || sid in s.leaving
  }

  lemma NothingPolls()
    ensures PollingKnown(NONE_TAKEN)
  {
  }

  lemma {:induction false} StepPolls(l: Limits, s: Slots, a: Action)
    requires PollingKnown(s) && Step(l, s, a).Some?
    ensures PollingKnown(Step(l, s, a).value)
  {
    hide Lowered, Refuses;
  }

  /**
   * In every run, a polling session is active, or its request has not inserted it yet, or its removal has
   * not reached the table yet.
   */
  lemma {:induction false} PollingIsActive(l: Limits, run: seq<Action>)
    requires Run(l, run).Some?
    ensures PollingKnown(Run(l, run).value)
  {
    hide Step, PollingKnown;
    if run == [] {
      assert PollingKnown(NONE_TAKEN) by { NothingPolls(); }
    } else {
      PollingIsActive(l, run[..|run| - 1]);
      StepPolls(l, Run(l, run[..|run| - 1]).value, run[|run| - 1]);
    }
  }

  /** At most `p` reservations are ever in flight during the run. */
  ghost predicate InFlightAtMost(l: Limits, run: seq<Action>, p: nat) {
    forall k :: 0 <= k <= |run| ==> Run(l, run[..k]).Some? ==> |Run(l, run[..k]).value.reserved| <= p
  }

  /**
   * The total limit ignores reservations, so it can be exceeded, but by less than the number of
   * reservations in flight.
   */
  lemma {:induction false} TotalIsBounded(l: Limits, run: seq<Action>, p: nat)
    requires Run(l, run).Some? && l.total > 0 && p > 0 && InFlightAtMost(l, run, p)
    ensures var s := Run(l, run).value;
            |s.active| + |s.reserved| <= l.total + p - 1
  {
    if run != [] {
      var before := run[..|run| - 1];
      assert forall k :: 0 <= k <= |before| ==> before[..k] == run[..k];
      TotalIsBounded(l, before, p);
      assert run[..|run|] == run;
      StepTotal(l, Run(l, before).value, run[|run| - 1]);
    }
  }

  lemma {:induction false} RemovedTotal(s: Slots, sid: Sid)
    ensures |Removed(s, sid).active| <= |s.active| && Removed(s, sid).reserved == s.reserved
  {
    hide Lowered;
    if sid in s.active {
      assert (s.active - {sid}).Keys == s.active.Keys - {sid};
    }
  }

  lemma {:induction false} InsertedTotal(s: Slots, sid: Sid, ip: Ip)
    requires ip in s.reserved && sid !in s.active
    ensures var s' := Inserted(s, sid, ip);
            |s'.active| == |s.active| + 1 && |s'.reserved| == |s.reserved| - 1
  {
    assert s.active[sid := ip].Keys == s.active.Keys + {sid};
  }

  /** Slots only grow when one is reserved, and then the limit was not reached. */
  lemma {:induction false} StepTotal(l: Limits, s: Slots, a: Action)
    requires Step(l, s, a).Some?
    ensures var s' := Step(l, s, a).value;
            || |s'.active| + |s'.reserved| <= |s.active| + |s.reserved|
            || (l.total > 0 ==> |s'.active| < l.total)
  {
    match a {
      case Remove(sid) => RemovedTotal(s, sid);
      case Insert(sid, ip) => InsertedTotal(s, sid, ip);
      case _ =>
    }
    hide Lowered, Removed, Inserted;
  }

  lemma {:induction false} RunThen(l: Limits, run: seq<Action>, a: Action)
    requires Run(l, run).Some?
    ensures Run(l, run + [a]) == Step(l, Run(l, run).value, a)
  {
    assert (run + [a])[..|run|] == run;
  }

  lemma {:induction false} InFlightThen(l: Limits, run: seq<Action>, a: Action, p: nat)
    requires Run(l, run).Some? && InFlightAtMost(l, run, p)
    requires Run(l, run + [a]).Some? ==> |Run(l, run + [a]).value.reserved| <= p
    ensures InFlightAtMost(l, run + [a], p)
  {
    var longer := run + [a];
    forall k | 0 <= k <= |longer| && Run(l, longer[..k]).Some?
      ensures |Run(l, longer[..k]).value.reserved| <= p
    {
      if k <= |run| {
        assert longer[..k] == run[..k];
      } else {
        assert longer[..k] == longer;
      }
    }
  }

  /** One more reservation, while the limit on sessions is not reached. */
  lemma {:induction false} ReserveMore(l: Limits, run: seq<Action>, ip: Ip, p: nat) returns (longer: seq<Action>)
    requires l.perIp == 0 && Run(l, run).Some? && InFlightAtMost(l, run, p)
    requires |Run(l, run).value.active| < l.total && |Run(l, run).value.reserved| < p
    ensures Run(l, longer) == Some(Acquired(l, Run(l, run).value, ip)) && InFlightAtMost(l, longer, p)
    ensures Run(l, longer).value.reserved == Run(l, run).value.reserved + multiset{ip}
  {
    RunThen(l, run, Acquire(ip));
    InFlightThen(l, run, Acquire(ip), p);
    longer := run + [Acquire(ip)];
    hide Run;
  }

  /** The sessions are those numbered below `n`, and all reservations are of `ip`. */
  ghost predicate Filled(s: Slots, ip: Ip, n: nat, reserved: nat) {
    && (forall sid :: sid in s.active ==> sid < n)
    && |s.active| == n
    && |s.reserved| == reserved && s.reserved[ip] == reserved
  }

  lemma {:induction false} FilledMore(s: Slots, ip: Ip, n: nat, k: nat)
    requires Filled(s, ip, n, k) && k > 0
    ensures ip in s.reserved && n !in s.active
    ensures Filled(Inserted(s, n, ip), ip, n + 1, k - 1) && |Inserted(s, n, ip).reserved| <= k
  {
    assert s.active[n := ip].Keys == s.active.Keys + {n};
  }

  lemma {:induction false} InsertMore(l: Limits, run: seq<Action>, ip: Ip, n: nat, k: nat, p: nat)
    returns (longer: seq<Action>)
    requires Run(l, run).Some? && InFlightAtMost(l, run, p) && Filled(Run(l, run).value, ip, n, k) && 0 < k <= p
    ensures Run(l, longer).Some? && InFlightAtMost(l, longer, p) && Filled(Run(l, longer).value, ip, n + 1, k - 1)
  {
    FilledMore(Run(l, run).value, ip, n, k);
    RunThen(l, run, Insert(n, ip));
    InFlightThen(l, run, Insert(n, ip), p);
    longer := run + [Insert(n, ip)];
    hide Run, Filled, Inserted, InFlightAtMost;
  }

  /** Sessions accepted one after the other, up to one below the limit. */
  lemma {:induction false} FillTo(l: Limits, ip: Ip, n: nat, p: nat) returns (run: seq<Action>)
    requires l.perIp == 0 && n < l.total && p > 0
    ensures Run(l, run).Some? && InFlightAtMost(l, run, p) && Filled(Run(l, run).value, ip, n, 0)
  {
    if n == 0 {
      run := [];
    } else {
      var before := FillTo(l, ip, n - 1, p);
      var reserving := ReserveMore(l, before, ip, p);
      run := InsertMore(l, reserving, ip, n - 1, 1, p);
      hide Run, InFlightAtMost;
    }
  }

  /** Then `k` reservations, all within the limit, as sessions are all that is counted. */
  lemma {:induction false} ReserveUpTo(l: Limits, ip: Ip, k: nat, p: nat) returns (run: seq<Action>)
    requires l.perIp == 0 && l.total > 0 && 0 < p && k <= p
    ensures Run(l, run).Some? && InFlightAtMost(l, run, p) && Filled(Run(l, run).value, ip, l.total - 1, k)
  {
    if k == 0 {
      run := FillTo(l, ip, l.total - 1, p);
    } else {
      var before := ReserveUpTo(l, ip, k - 1, p);
      run := ReserveMore(l, before, ip, p);
      hide Run, InFlightAtMost;
    }
  }

  lemma {:induction false} InsertAll(l: Limits, run: seq<Action>, ip: Ip, n: nat, k: nat, p: nat)
    returns (longer: seq<Action>)
    requires Run(l, run).Some? && InFlightAtMost(l, run, p) && Filled(Run(l, run).value, ip, n, k) && k <= p
    ensures Run(l, longer).Some? && InFlightAtMost(l, longer, p) && Filled(Run(l, longer).value, ip, n + k, 0)
    decreases k
  {
    longer := run;
    if k > 0 {
      longer := InsertMore(l, run, ip, n, k, p);
      longer := InsertAll(l, longer, ip, n + 1, k - 1, p);
    }
    hide Run, InFlightAtMost;
  }

  /** For every limit and every `p`, a run with at most `p` reservations in flight reaches that bound with sessions. */
  lemma {:induction false} TotalBoundIsReached(l: Limits, ip: Ip, p: nat) returns (run: seq<Action>)
    requires l.perIp == 0 && l.total > 0 && p > 0
    ensures Run(l, run).Some? && InFlightAtMost(l, run, p)
    ensures |Run(l, run).value.active| == l.total + p - 1
  {
    run := ReserveUpTo(l, ip, p, p);
    run := InsertAll(l, run, ip, l.total - 1, p, p);
    hide Run, InFlightAtMost;
  }

  /** Giving a fresh reservation back leaves the counts as they were. */
  lemma {:induction false} ReleaseUndoesAcquire(l: Limits, s: Slots, ip: Ip)
    requires Conserved(l, s) && Refuses(l, s, ip) == None
    ensures Released(Acquired(l, s, ip), ip) == s
  {
    hide Of;
  }

  // ----- what each step does -----

  /**
   * A request gets a slot exactly if the sessions are below the total limit and those of its address, with its
   * reservations, below that limit; the total is looked at first.
   */
  lemma {:induction false} AcceptsExact(l: Limits, s: Slots, ip: Ip)
    requires Conserved(l, s)
    ensures var free := l.total == 0 || |s.active| < l.total;
            var own := l.perIp == 0 || |Of(s.active, ip)| + s.reserved[ip] < l.perIp;
            && (Refuses(l, s, ip) == None <==> free && own)
            && (Refuses(l, s, ip) == Some(ServerFull) <==> !free)
            && (free && own ==> Acquired(l, s, ip).reserved == s.reserved + multiset{ip})
            && (!(free && own) ==> Acquired(l, s, ip) == s)
  {
    hide Of;
  }

  /** The two halves of a removal: no table has the session any more, its address has one less, others the same. */
  lemma {:induction false} RemovalEffect(l: Limits, s: Slots, sid: Sid)
    requires Conserved(l, s)
    ensures var s' := LeftPolling(Removed(s, sid), sid);
            && sid !in s'.active && sid !in s'.polling && s'.reserved == s.reserved
            && (forall x :: x != sid ==> (x in s'.active <==> x in s.active) && (x in s'.polling <==> x in s.polling))
            && (forall x :: x in s'.active ==> s'.active[x] == s.active[x])
            && (forall ip :: Get(s'.ipCount, ip) ==
                  Get(s.ipCount, ip) - if sid in s.active && s.active[sid] == ip then 1 else 0)
  {
    if sid in s.active {
      var ip := s.active[sid];
      OfDropped(s.active, sid);
      assert sid in Of(s.active, ip);
      hide Of;
      LoweredGet(s.ipCount, ip);
      hide Lowered, Get;
    }
  }

  /** An upgrade ends the polling of its session and changes nothing else; entering polling begins it. */
  lemma PollingEffect(s: Slots, sid: Sid)
    ensures var s' := Upgraded(s, sid);
            && sid !in s'.polling && s'.active == s.active && s'.ipCount == s.ipCount && s'.reserved == s.reserved
            && forall x :: x != sid ==> (x in s'.polling <==> x in s.polling)
    ensures sid in EnteredPolling(s, sid).polling
  {
  }

  // ----- the code -----

  class Server {
    const limits: Limits
    var active: map<Sid, Ip>
    var ipCount: map<Ip, nat>
    var pollSess: set<Sid>
    ghost var reserved: multiset<Ip>
    ghost var entering: set<Sid>
    ghost var leaving: set<Sid>

    ghost function View(): Slots
      reads this
    {
      Slots(active, ipCount, reserved, pollSess, entering, leaving)
    }

    constructor (limits: Limits)
      ensures this.limits == limits && View() == NONE_TAKEN
    {
      this.limits := limits;
      active, ipCount, pollSess := map[], map[], {};
      reserved, entering, leaving := multiset{}, {}, {};
    }

    method AcquireConnSlot(ip: Ip) returns (err: Option<Refusal>)
      modifies this
      ensures err == Refuses(limits, old(View()), ip)
      ensures View() == Acquired(limits, old(View()), ip)
    {
      if limits.total > 0 && |active| >= limits.total {
        return Some(ServerFull);
      }
      if limits.perIp > 0 && Get(ipCount, ip) >= limits.perIp {
        return Some(IpFull);
      }
      ipCount := ipCount[ip := Get(ipCount, ip) + 1];
      reserved := reserved + multiset{ip};
      err := None;
    }

    method LowerCount(ip: Ip)
      modifies this`ipCount
      ensures ipCount == Lowered(old(ipCount), ip)
    {
      if Get(ipCount, ip) > 1 {
        ipCount := ipCount[ip := ipCount[ip] - 1];
      } else {
        ipCount := ipCount - {ip};
      }
    }

    method ReleaseConnSlot(ip: Ip)
      modifies this
      ensures View() == Released(old(View()), ip)
    {
      LowerCount(ip);
      reserved := reserved - multiset{ip};
    }

    /** Under the lock of the table of polling sessions. */
    method EnterPolling(sid: Sid)
      modifies this
      ensures View() == EnteredPolling(old(View()), sid)
    {
      pollSess := pollSess + {sid};
      entering := entering + {sid};
    }

    method InsertSession(sid: Sid, ip: Ip)
      modifies this
      ensures View() == Inserted(old(View()), sid, ip)
    {
      active := active[sid := ip];
      reserved, entering := reserved - multiset{ip}, entering - {sid};
    }

    /** The first half of a removal, under the server's lock. */
    method RemoveSession(sid: Sid)
      modifies this
      ensures View() == Removed(old(View()), sid)
    {
      if sid in active {
        var ip := active[sid];
        active := active - {sid};
        LowerCount(ip);
      }
      leaving := leaving + {sid};
    }

    /** The second half, under the lock of the table of polling sessions. */
    method LeavePolling(sid: Sid)
      modifies this
      ensures View() == LeftPolling(old(View()), sid)
    {
      pollSess := pollSess - {sid};
      leaving := leaving - {sid};
    }

    method UpgradeSession(sid: Sid)
      modifies this
      ensures View() == Upgraded(old(View()), sid)
    {
      pollSess := pollSess - {sid};
    }

    /** The slot side of serving a new connection: reserve, then insert or, if set-up fails, release. */
    method Serve(ip: Ip, sid: Sid, setUp: bool, polling: bool) returns (err: Option<Refusal>)
      requires Conserved(limits, View()) && sid !in active
      modifies this
      ensures Conserved(limits, View()) && reserved == old(reserved)
      ensures err == Refuses(limits, old(View()), ip)
      ensures active == if err == None && setUp then old(active)[sid := ip] else old(active)
      ensures pollSess == old(pollSess) + if err == None && setUp && polling then {sid} else {}
      ensures !(err == None && setUp) ==> View() == old(View())
    {
      hide Conserved, Released, Acquired, Lowered;
      ghost var s := View();
      AcquireConserves(limits, s, ip);
      if Refuses(limits, s, ip) == None {
        ReleaseUndoesAcquire(limits, s, ip);
        ReservedAfter(limits, s, ip);
      } else {
        RefusedIsSame(limits, s, ip);
      }
      err := AcquireConnSlot(ip);
      if err != None {
        return;
      }
      if !setUp {
        ReleaseConnSlot(ip);
        return;
      }
      EnterSession(sid, ip, polling);
    }

    method EnterSession(sid: Sid, ip: Ip, polling: bool)
      requires Conserved(limits, View()) && ip in reserved && sid !in active
      modifies this
      ensures Conserved(limits, View()) && reserved == old(reserved) - multiset{ip}
      ensures active == old(active)[sid := ip] && pollSess == old(pollSess) + if polling then {sid} else {}
    {
      hide Conserved;
      if polling {
        ConservedSame(limits, View(), EnteredPolling(View(), sid));
        EnterPolling(sid);
      }
      InsertConserves(limits, View(), sid, ip);
      InsertSession(sid, ip);
    }

    lemma ReservedAfter(l: Limits, s: Slots, ip: Ip)
      requires Refuses(l, s, ip) == None
      ensures var s' := Acquired(l, s, ip);
              && ip in s'.reserved && s'.reserved - multiset{ip} == s.reserved
              && s'.active == s.active && s'.polling == s.polling
    {
    }

    lemma RefusedIsSame(l: Limits, s: Slots, ip: Ip)
      requires Refuses(l, s, ip) != None
      ensures Acquired(l, s, ip) == s
    {
    }
  }
}
