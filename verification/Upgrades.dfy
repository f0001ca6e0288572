/**
 * Reading across transport upgrades: one reader takes the current transport, reads from it without any
 * lock, and decides afterwards whether an error it met was only the old transport being replaced.
 */
module Upgrades {
  import opened Options

  /** Transports are numbered in the order they become current. */
  type Gen = nat
  type Msg = nat

  datatype Reader = Ready | Reading(gen: Gen) | Failed(gen: Gen)

  datatype Delivery = Delivery(gen: Gen, msg: Msg)

  /**
   * `sent` is all that ever arrived on a transport and `queue` what is still unread; `toClose` are the
   * replaced transports not yet closed, `dead` the closed ones, `broken` those that failed by themselves.
   */
  datatype State = State(current: Gen, sent: map<Gen, seq<Msg>>, queue: map<Gen, seq<Msg>>,
                         toClose: set<Gen>, dead: set<Gen>, broken: set<Gen>,
                         reader: Reader, delivered: seq<Delivery>, errors: seq<Gen>)

  const FIRST: State := State(0, map[], map[], {}, {}, {}, Ready, [], [])

  function At(m: map<Gen, seq<Msg>>, g: Gen): seq<Msg> {
    if g in m then m[g] else []
  }

  datatype Action =
    | Arrive(gen: Gen, msg: Msg)
    | Swap
    | CloseOld(gen: Gen)
    | Break(gen: Gen)
    | Take
    | Deliver
    | Fail
    | Recheck

  /** A closed transport may still yield what it had received, or an error: either is possible. */
  function Step(s: State, a: Action): Option<State> {
    match a
    case Arrive(g, m) =>
      Some(s.(sent := s.sent[g := At(s.sent, g) + [m]], queue := s.queue[g := At(s.queue, g) + [m]]))
    case Swap => Some(s.(current := s.current + 1, toClose := s.toClose + {s.current}))
    case CloseOld(g) =>
      if g !in s.toClose then None else Some(s.(toClose := s.toClose - {g}, dead := s.dead + {g}))
    case Break(g) => Some(s.(dead := s.dead + {g}, broken := s.broken + {g}))
    case Take => if s.reader != Ready then None else Some(s.(reader := Reading(s.current)))
    case Deliver =>
      if !s.reader.Reading? || At(s.queue, s.reader.gen) == [] then None
      else
        var g := s.reader.gen;
        var q := At(s.queue, g);
        Some(s.(queue := s.queue[g := q[1..]], delivered := s.delivered + [Delivery(g, q[0])], reader := Ready))
    case Fail =>
      if !s.reader.Reading? || s.reader.gen !in s.dead then None else Some(s.(reader := Failed(s.reader.gen)))
    case Recheck =>
      if !s.reader.Failed? then None
      else if s.current != s.reader.gen then Some(s.(reader := Ready))
      else Some(s.(reader := Ready, errors := s.errors + [s.reader.gen]))
  }

  function Run(run: seq<Action>): Option<State> {
    if run == [] then Some(FIRST)
    else
      match Run(run[..|run| - 1])
      case None => None
      case Some(s) => Step(s, run[|run| - 1])
  }

  /** The messages delivered from transport `g`. */
  function From(ds: seq<Delivery>, g: Gen): seq<Msg> {
    if ds == [] then []
    else
      var before := From(ds[..|ds| - 1], g);
      var d := ds[|ds| - 1];
      if d.gen == g then before + [d.msg] else before
  }

  /** Deliveries never go back to an earlier transport. */
  predicate Ordered(ds: seq<Delivery>) {
    forall i, j :: 0 <= i < j < |ds| ==> ds[i].gen <= ds[j].gen
  }

  ghost predicate Inv(s: State) {
    && Ordered(s.delivered)
    && (forall i :: 0 <= i < |s.delivered| ==> s.delivered[i].gen <= ReaderGen(s))
    && ReaderGen(s) <= s.current
    && (forall g :: At(s.sent, g) == From(s.delivered, g) + At(s.queue, g))
    && (forall g :: g in s.toClose ==> g < s.current)
    && (forall g :: g in s.dead ==> g < s.current || g in s.broken)
    && (s.reader.Failed? ==> s.reader.gen in s.dead)
    && (forall i :: 0 <= i < |s.errors| ==> s.errors[i] in s.broken)
  }

  /** The transport the reader is at, or would take next. */
  function ReaderGen(s: State): Gen {
    if s.reader == Ready then s.current else s.reader.gen
  }

  lemma {:induction false} FromDelivered(ds: seq<Delivery>, d: Delivery)
    ensures forall g :: From(ds + [d], g) == From(ds, g) + if d.gen == g then [d.msg] else []
  {
    assert (ds + [d])[..|ds|] == ds;
  }

  lemma {:induction false} DeliverIsFifo(s: State, x: Gen)
    requires s.reader.Reading? && At(s.queue, s.reader.gen) != []
    requires At(s.sent, x) == From(s.delivered, x) + At(s.queue, x)
    ensures var s' := Step(s, Deliver).value;
            At(s'.sent, x) == From(s'.delivered, x) + At(s'.queue, x)
  {
    var g := s.reader.gen;
    var q := At(s.queue, g);
    FromDelivered(s.delivered, Delivery(g, q[0]));
    if x == g {
      assert q == [q[0]] + q[1..];
      assert From(s.delivered, g) + q == From(s.delivered, g) + [q[0]] + q[1..];
    } else {
      assert From(s.delivered, x) + [] == From(s.delivered, x);
    }
  }

  lemma {:induction false} DeliverKeeps(s: State)
    requires Inv(s) && s.reader.Reading? && At(s.queue, s.reader.gen) != []
    ensures Inv(Step(s, Deliver).value)
  {
    var s' := Step(s, Deliver).value;
    forall x
      ensures At(s'.sent, x) == From(s'.delivered, x) + At(s'.queue, x)
    {
      DeliverIsFifo(s, x);
    }
    hide From, At;
  }

  lemma {:induction false} ArriveKeeps(s: State, g: Gen, m: Msg)
    requires Inv(s)
    ensures Inv(Step(s, Arrive(g, m)).value)
  {
    var s' := Step(s, Arrive(g, m)).value;
    forall x
      ensures At(s'.sent, x) == From(s'.delivered, x) + At(s'.queue, x)
    {
      assert At(s.sent, x) == From(s.delivered, x) + At(s.queue, x);
    }
    hide From, At;
  }

  lemma {:induction false} StepKeeps(s: State, a: Action)
    requires Inv(s) && Step(s, a).Some?
    ensures Inv(Step(s, a).value)
  {
    if a.Deliver? {
      DeliverKeeps(s);
    } else if a.Arrive? {
      ArriveKeeps(s, a.gen, a.msg);
    } else {
      var s' := Step(s, a).value;
      assert s'.sent == s.sent && s'.queue == s.queue && s'.delivered == s.delivered;
      hide From, At;
    }
  }

  /**
   * However reads, arrivals, upgrades and failures interleave: messages are delivered in the order of
   * transports, and of arrival within one, without gaps; and a returned error is that of a transport
   * that failed by itself, never that of one closed because it was replaced.
   */
  lemma {:induction false} UpgradesKeepOrder(run: seq<Action>)
    requires Run(run).Some?
    ensures var s := Run(run).value;
            && Inv(s) && Ordered(s.delivered)
            && (forall g :: From(s.delivered, g) <= At(s.sent, g))
            && (forall i :: 0 <= i < |s.errors| ==> s.errors[i] in s.broken)
  {
    if run != [] {
      UpgradesKeepOrder(run[..|run| - 1]);
      StepKeeps(Run(run[..|run| - 1]).value, run[|run| - 1]);
    }
  }

  lemma {:induction false} RunThen(run: seq<Action>, a: Action)
    requires Run(run).Some?
    ensures Run(run + [a]) == Step(Run(run).value, a)
  {
    assert (run + [a])[..|run|] == run;
  }

  // ----- what happened, by the list of steps alone -----

  /** The messages that arrived on a transport. */
  function Arrivals(run: seq<Action>, g: Gen): seq<Msg> {
    if run == [] then []
    else
      var before, a := Arrivals(run[..|run| - 1], g), run[|run| - 1];
      if a.Arrive? && a.gen == g then before + [a.msg] else before
  }

  function Swaps(run: seq<Action>): nat {
    if run == [] then 0 else Swaps(run[..|run| - 1]) + if run[|run| - 1] == Swap then 1 else 0
  }

  ghost predicate Recorded(run: seq<Action>, s: State) {
    && (forall g :: At(s.sent, g) == Arrivals(run, g))
    && s.current == Swaps(run)
    && (forall g :: g in s.broken <==> Break(g) in run)
  }

  lemma StepRecords(s: State, a: Action)
    requires Step(s, a).Some?
    ensures var s' := Step(s, a).value;
            && (forall g :: At(s'.sent, g) ==
                  if a.Arrive? && a.gen == g then At(s.sent, g) + [a.msg] else At(s.sent, g))
            && s'.current == s.current + (if a == Swap then 1 else 0)
            && s'.broken == (if a.Break? then s.broken + {a.gen} else s.broken)
  {
  }

  lemma {:induction false} RunIsRecorded(run: seq<Action>)
    requires Run(run).Some?
    ensures Recorded(run, Run(run).value)
  {
    if run != [] {
      var before, a := run[..|run| - 1], run[|run| - 1];
      RunIsRecorded(before);
      StepRecords(Run(before).value, a);
      assert run == before + [a];
      hide Step, At;
    }
  }

  /**
   * After every run, what was delivered from a transport is the first of the messages that arrived on it, the
   * transports come in the order of the upgrades, and an error was returned only for one that had failed.
   */
  lemma {:induction false} DeliversArrivals(run: seq<Action>)
    requires Run(run).Some?
    ensures var s := Run(run).value;
            && (forall g :: From(s.delivered, g) <= Arrivals(run, g))
            && (forall i, j :: 0 <= i < j < |s.delivered| ==> s.delivered[i].gen <= s.delivered[j].gen)
            && (forall i :: 0 <= i < |s.delivered| ==> s.delivered[i].gen <= Swaps(run))
            && (forall i :: 0 <= i < |s.errors| ==> Break(s.errors[i]) in run)
  {
    RunIsRecorded(run);
    UpgradesKeepOrder(run);
    hide Run, From, At, Arrivals, Swaps;
  }

  /** The state after a transport was replaced and closed under a read, which has failed. */
  const REPLACED: State := FIRST.(current := 1, dead := {0}, reader := Failed(0))

  lemma {:induction false} ReplacedUnderRead() returns (run: seq<Action>)
    ensures run == [] + [Take] + [Swap] + [CloseOld(0)] + [Fail] && Run(run) == Some(REPLACED)
  {
    var s1 := FIRST.(reader := Reading(0));
    var s2 := s1.(current := 1, toClose := {0});
    var s3 := s2.(toClose := {}, dead := {0});
    assert s2.toClose - {0} == {} && s2.dead + {0} == {0} && s1.toClose + {0} == {0};
    assert Step(FIRST, Take) == Some(s1) && Step(s1, Swap) == Some(s2);
    assert Step(s2, CloseOld(0)) == Some(s3) && Step(s3, Fail) == Some(REPLACED);
    assert Run([]) == Some(FIRST);
    hide Step, Run;
    RunThen([], Take);
    RunThen([] + [Take], Swap);
    RunThen([] + [Take] + [Swap], CloseOld(0));
    RunThen([] + [Take] + [Swap] + [CloseOld(0)], Fail);
    run := [] + [Take] + [Swap] + [CloseOld(0)] + [Fail];
  }

  /** A read that is under way when its transport is replaced and closed fails, and goes on at the new one. */
  lemma {:induction false} ReplacedWhileReading(msg: Msg)
    ensures var replaced := [] + [Take] + [Swap] + [CloseOld(0)] + [Fail];
            var run := replaced + [Recheck] + [Arrive(1, msg)] + [Take] + [Deliver];
            Run(run).Some? && Run(run).value.delivered == [Delivery(1, msg)] && Run(run).value.errors == []
  {
    var s1 := REPLACED.(reader := Ready);
    var s2 := s1.(sent := map[1 := [msg]], queue := map[1 := [msg]]);
    var s3 := s2.(reader := Reading(1));
    var s4 := s3.(queue := map[1 := []], delivered := [Delivery(1, msg)], reader := Ready);
    assert At(map[], 1) + [msg] == [msg] && [msg][1..] == [];
    assert map[][1 := [msg]] == map[1 := [msg]] && map[1 := [msg]][1 := []] == map[1 := []];
    assert Step(REPLACED, Recheck) == Some(s1) && Step(s1, Arrive(1, msg)) == Some(s2);
    assert [] + [Delivery(1, msg)] == [Delivery(1, msg)];
    assert Step(s2, Take) == Some(s3) && Step(s3, Deliver) == Some(s4);
    hide Step, Run;
    var run := ReplacedUnderRead();
    RunThen(run, Recheck);
    RunThen(run + [Recheck], Arrive(1, msg));
    RunThen(run + [Recheck] + [Arrive(1, msg)], Take);
    RunThen(run + [Recheck] + [Arrive(1, msg)] + [Take], Deliver);
  }

  /** How many of the errors returned were those of a transport. */
  function Returned(es: seq<Gen>, g: Gen): nat {
    if es == [] then 0 else Returned(es[..|es| - 1], g) + if es[|es| - 1] == g then 1 else 0
  }

  /**
   * After every run in which the reader has met an error, the error is returned if the transport is still the
   * current one; if not, the reader goes on, and reads next from the one that is.
   */
  lemma {:induction false} FailureIsReturnedIff(run: seq<Action>)
    requires Run(run).Some? && Run(run).value.reader.Failed?
    ensures var s := Run(run).value;
            var g := s.reader.gen;
            && Run(run + [Recheck]).Some?
            && var s' := Run(run + [Recheck]).value;
               && Returned(s'.errors, g) == Returned(s.errors, g) + (if g == s.current then 1 else 0)
               && s'.delivered == s.delivered && s'.reader == Ready
               && Run(run + [Recheck] + [Take]).Some?
               && Run(run + [Recheck] + [Take]).value.reader == Reading(s.current)
  {
    var s := Run(run).value;
    RunThen(run, Recheck);
    RunThen(run + [Recheck], Take);
    assert (s.errors + [s.reader.gen])[..|s.errors|] == s.errors;
    hide Run;
  }

  /** A reader at a transport that has a message unread can deliver the oldest of them, and is then ready again. */
  lemma {:induction false} OldestIsDelivered(run: seq<Action>)
    requires Run(run).Some? && Run(run).value.reader.Reading?
    requires At(Run(run).value.queue, Run(run).value.reader.gen) != []
    ensures var s := Run(run).value;
            var g := s.reader.gen;
            && Run(run + [Deliver]).Some? && |From(s.delivered, g)| < |At(s.sent, g)|
            && var s' := Run(run + [Deliver]).value;
               && s'.delivered == s.delivered + [Delivery(g, At(s.sent, g)[|From(s.delivered, g)|])]
               && s'.reader == Ready && s'.errors == s.errors
  {
    var s := Run(run).value;
    UpgradesKeepOrder(run);
    RunThen(run, Deliver);
    assert At(s.sent, s.reader.gen) == From(s.delivered, s.reader.gen) + At(s.queue, s.reader.gen);
    hide Run, From;
  }
}
