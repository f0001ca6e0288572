/**
 * Acknowledgement callbacks of one connection: emits in several goroutines draw ids from one counter and
 * file their callbacks in one of two tables; replies take them out again.
 */
module Acks {
  import opened Options
  import opened ByteSeqs
  import opened Packets
  import A = Attachments

  type Thread = nat
  type AckId = nat

  /** The callback itself, told apart by a number. */
  type Fn = nat

  // ----- what a callback is given -----

  /** The JSON library's two decodings of a text: into a value, and into the texts of an array's elements. */
  datatype DecoderFns = DecoderFns(value: Bytes -> Option<A.Value>, elements: Bytes -> Option<seq<Bytes>>)

  /** The two agree, and `null` decodes to an array without elements, as a Go slice does. */
  predicate Agrees(f: DecoderFns, d: Bytes) {
    match f.elements(d)
    case None => f.value(d).Some? ==> !f.value(d).value.Arr? && !f.value(d).value.Null?
    case Some(es) =>
      && f.value(d).Some?
      && match f.value(d).value
         case Null => es == []
         case Arr(items) =>
           |es| == |items| && forall i :: 0 <= i < |es| ==> f.value(es[i]) == Some(items[i])
         case _ => false
  }

  type Decoder = f: DecoderFns | forall d: Bytes :: Agrees(f, d) witness DecoderFns(d => None, d => None)

  datatype AckError = NotJson | BadPlaceholder | NoElements

  /** The arguments of a callback: undecoded elements, or values, or an error. */
  datatype Given = Elements(texts: seq<Bytes>) | Values(items: seq<A.Value>) | Failed(error: AckError)

  function GivenBy(lib: Decoder, p: Packet, bufs: seq<Bytes>): Given {
    if IsBinary(p.typ) then
      match lib.value(p.data)
      case None => Failed(NotJson)
      case Some(v) =>
        var r := A.Reconstruct(v, bufs);
        if r.Err? then Failed(BadPlaceholder)
        else if r.value.Arr? then Values(r.value.items)
        else Values([r.value])
    else
      match lib.elements(p.data)
      case None => Failed(NoElements)
      case Some(es) => if es == [] then Failed(NoElements) else Elements(es[1..])
  }

  /** The values a callback finds in what it is given. */
  function ValuesIn(lib: Decoder, g: Given): Option<seq<A.Value>> {
    match g
    case Failed(_) => None
    case Values(items) => Some(items)
    case Elements(texts) =>
      if forall i :: 0 <= i < |texts| ==> lib.value(texts[i]).Some? then
        Some(seq(|texts|, i requires 0 <= i < |texts| => lib.value(texts[i]).value))
      else None
  }

  /** The acknowledgement `p` with its buffers is one for the values `vs`. */
  predicate Carries(lib: Decoder, p: Packet, bufs: seq<Bytes>, vs: seq<A.Value>) {
    var v := lib.value(p.data);
    v.Some? && if IsBinary(p.typ) then A.Reconstruct(v.value, bufs) == Ok(A.Arr(vs)) else v.value == A.Arr(vs)
  }

  /**
   * The callback gets the values of a reply exactly when the reply is binary: of a plain one it gets all
   * but the first value, and an error when there is none.
   */
  lemma {:induction false} AckValuesExact(lib: Decoder, p: Packet, bufs: seq<Bytes>, vs: seq<A.Value>)
    requires Carries(lib, p, bufs, vs)
    ensures var got := ValuesIn(lib, GivenBy(lib, p, bufs));
            && (got == Some(vs) <==> IsBinary(p.typ))
            && (!IsBinary(p.typ) ==> got == if vs == [] then None else Some(vs[1..]))
  {
    if !IsBinary(p.typ) {
      assert Agrees(lib, p.data);
      var es := lib.elements(p.data).value;
      if es == [] {
        assert vs == [];
      } else {
        assert forall i :: 0 <= i < |es[1..]| ==> lib.value(es[1..][i]) == Some(vs[1..][i]);
        assert ValuesIn(lib, Elements(es[1..])).value == vs[1..];
      }
    }
  }

  /** The callback is given an error exactly when nothing can be read from the reply, or a placeholder is bad. */
  lemma {:induction false} FailureExact(lib: Decoder, p: Packet, bufs: seq<Bytes>)
    ensures GivenBy(lib, p, bufs).Failed? <==>
            if p.typ == 0x35 || p.typ == 0x36 then
              lib.value(p.data) == None || A.Reconstruct(lib.value(p.data).value, bufs).Err?
            else lib.elements(p.data) == None || lib.elements(p.data) == Some([])
  {
  }

  /** A binary reply whose payload is no array gives that one value. */
  lemma {:induction false} SingleValueIsGiven(lib: Decoder, p: Packet, bufs: seq<Bytes>, v: A.Value)
    requires IsBinary(p.typ) && lib.value(p.data).Some? && !v.Arr?
    requires A.Reconstruct(lib.value(p.data).value, bufs) == Ok(v)
    ensures ValuesIn(lib, GivenBy(lib, p, bufs)) == Some([v])
  {
  }

  const ONE: Bytes := [0x31]
  const ARRAY_OF_ONE: Bytes := [0x5B, 0x31, 0x5D]

  /** A library that knows the texts `1` and `[1]`. */
  const SMALL: Decoder := DecoderFns(
    d => if d == ONE then Some(A.Num(1.0)) else if d == ARRAY_OF_ONE then Some(A.Arr([A.Num(1.0)])) else None,
    d => if d == ARRAY_OF_ONE then Some([ONE]) else None)

  /** The plain acknowledgement 37[1] carries one value, and its callback gets none. */
  lemma {:induction false} PlainAckLosesItsValue()
    ensures var p := Packet(ACK, ROOT, Some(7), ARRAY_OF_ONE, 0);
            && Encode(p) == Ok([ACK, 0x37] + ARRAY_OF_ONE)
            && Carries(SMALL, p, [], [A.Num(1.0)])
            && GivenBy(SMALL, p, []) == Elements([])
  {
    RootIsNormal();
    var p := Packet(ACK, ROOT, Some(7), ARRAY_OF_ONE, 0);
    assert Decimal(7) == [0x37];
    assert [ACK] + [] + [] + [0x37] + ARRAY_OF_ONE == [ACK, 0x37] + ARRAY_OF_ONE;
    hide NormalizeNS;
  }

  // ----- the tables -----

  datatype Kind = Plain | Binary

  datatype Stage = Issued | Filed

  /** An emit between drawing its id and the end of its send. */
  datatype Emit = Emit(id: AckId, kind: Kind, fn: Fn, stage: Stage)

  /** A callback that was run, and what it was given. */
  datatype Fired = Fired(id: AckId, kind: Kind, fn: Fn, given: Given)

  /** `log` has every id drawn, in order, with the callback it was drawn for. */
  datatype State = State(last: AckId, acks: map<AckId, Fn>, binaryAcks: map<AckId, Fn>,
                         emits: map<Thread, Emit>, log: seq<Emit>, fired: seq<Fired>)

  const IDLE: State := State(0, map[], map[], map[], [], [])

  function Table(s: State, k: Kind): map<AckId, Fn> {
    if k == Plain then s.acks else s.binaryAcks
  }

  function WithTable(s: State, k: Kind, m: map<AckId, Fn>): State {
    if k == Plain then s.(acks := m) else s.(binaryAcks := m)
  }

  function Drawn(s: State, t: Thread, k: Kind, fn: Fn): State {
    var e := Emit(s.last + 1, k, fn, Issued);
    s.(last := s.last + 1, emits := s.emits[t := e], log := s.log + [e])
  }

  function FiledAt(s: State, t: Thread): State
    requires t in s.emits
  {
    var e := s.emits[t];
    WithTable(s, e.kind, Table(s, e.kind)[e.id := e.fn]).(emits := s.emits[t := e.(stage := Filed)])
  }

  function SendDone(s: State, t: Thread, ok: bool): State
    requires t in s.emits
  {
    var e := s.emits[t];
    (if ok then s else WithTable(s, e.kind, Table(s, e.kind) - {e.id})).(emits := s.emits - {t})
  }

  /** A reply runs the callback filed under its id in the table of its kind, and takes it out. */
  function Replied(s: State, id: AckId, k: Kind, g: Given): State {
    if id !in Table(s, k) then s
    else WithTable(s, k, Table(s, k) - {id}).(fired := s.fired + [Fired(id, k, Table(s, k)[id], g)])
  }

  datatype Action =
    | Draw(thread: Thread, kind: Kind, fn: Fn)
    | File(thread: Thread)
    | Done(thread: Thread, ok: bool)
    | Reply(id: AckId, kind: Kind, given: Given)

  /** The state after a step; ids are drawn while they fit an `int`. */
  function Step(s: State, a: Action): Option<State> {
    match a
    case Draw(t, k, fn) => if t in s.emits || s.last + 1 > MAX_INT then None else Some(Drawn(s, t, k, fn))
    case File(t) => if t !in s.emits || s.emits[t].stage != Issued then None else Some(FiledAt(s, t))
    case Done(t, ok) => if t !in s.emits || s.emits[t].stage != Filed then None else Some(SendDone(s, t, ok))
    case Reply(id, k, g) => Some(Replied(s, id, k, g))
  }

  function Run(run: seq<Action>): Option<State> {
    if run == [] then Some(IDLE)
    else
      match Run(run[..|run| - 1])
      case None => None
      case Some(s) => Step(s, run[|run| - 1])
  }

  /** Ids are 1, 2, 3, ... in the order they were drawn. */
  predicate Sequential(s: State) {
    |s.log| == s.last && forall i :: 0 <= i < |s.log| ==> s.log[i].id == i + 1
  }

  /** `id` was drawn for the callback `fn` of kind `k`. */
  predicate DrawnFor(s: State, id: AckId, k: Kind, fn: Fn) {
    0 < id <= |s.log| && s.log[id - 1].kind == k && s.log[id - 1].fn == fn
  }

  predicate HasFired(s: State, id: AckId) {
    exists i :: 0 <= i < |s.fired| && s.fired[i].id == id
  }

  ghost predicate EmitsOk(s: State) {
    && (forall t :: t in s.emits ==> DrawnFor(s, s.emits[t].id, s.emits[t].kind, s.emits[t].fn))
    && (forall t, u :: t in s.emits && u in s.emits && s.emits[t].id == s.emits[u].id ==> t == u)
    && (forall t :: t in s.emits && s.emits[t].stage == Issued ==> Untouched(s, s.emits[t].id))
  }

  /** An id whose callback has been neither filed nor run. */
  predicate Untouched(s: State, id: AckId) {
    id !in s.acks && id !in s.binaryAcks && !HasFired(s, id)
  }

  ghost predicate TablesOk(s: State) {
    && (forall id :: id in s.acks ==> DrawnFor(s, id, Plain, s.acks[id]) && !HasFired(s, id))
    && (forall id :: id in s.binaryAcks ==> DrawnFor(s, id, Binary, s.binaryAcks[id]) && !HasFired(s, id))
  }

  ghost predicate FiredOk(s: State) {
    && (forall i :: 0 <= i < |s.fired| ==> DrawnFor(s, s.fired[i].id, s.fired[i].kind, s.fired[i].fn))
    && (forall i, j :: 0 <= i < j < |s.fired| ==> s.fired[i].id != s.fired[j].id)
  }

  ghost predicate Inv(s: State) {
    Sequential(s) && EmitsOk(s) && TablesOk(s) && FiredOk(s)
  }

  /** Nothing about ids already drawn changes while the log only grows and nothing is run. */
  lemma HistoryGrows(s: State, s': State)
    requires s.log <= s'.log && s'.fired == s.fired
    ensures forall id, k, f :: DrawnFor(s, id, k, f) ==> DrawnFor(s', id, k, f)
    ensures forall id :: HasFired(s', id) <==> HasFired(s, id)
  {
  }

  lemma {:induction false} FreshId(s: State, t: Thread, k: Kind, fn: Fn)
    requires Inv(s)
    ensures Untouched(s, s.last + 1) && DrawnFor(Drawn(s, t, k, fn), s.last + 1, k, fn)
    ensures forall u :: u in s.emits ==> s.emits[u].id <= s.last
  {
    assert forall u :: u in s.emits ==> DrawnFor(s, s.emits[u].id, s.emits[u].kind, s.emits[u].fn);
  }

  lemma {:induction false} DrawKeepsEmits(s: State, t: Thread, k: Kind, fn: Fn)
    requires Inv(s) && t !in s.emits
    ensures EmitsOk(Drawn(s, t, k, fn))
  {
    FreshId(s, t, k, fn);
    hide DrawnFor, HasFired, TablesOk, FiredOk;
    HistoryGrows(s, Drawn(s, t, k, fn));
  }

  lemma {:induction false} DrawKeeps(s: State, t: Thread, k: Kind, fn: Fn)
    requires Inv(s) && t !in s.emits
    ensures Inv(Drawn(s, t, k, fn))
  {
    DrawKeepsEmits(s, t, k, fn);
    hide DrawnFor, HasFired, EmitsOk;
    HistoryGrows(s, Drawn(s, t, k, fn));
  }

  lemma {:induction false} FileKeeps(s: State, t: Thread)
    requires Inv(s) && t in s.emits && s.emits[t].stage == Issued
    ensures Inv(FiledAt(s, t))
  {
    hide DrawnFor, HasFired;
    HistoryGrows(s, FiledAt(s, t));
  }

  lemma {:induction false} DoneKeeps(s: State, t: Thread, ok: bool)
    requires Inv(s) && t in s.emits
    ensures Inv(SendDone(s, t, ok))
  {
    hide DrawnFor, HasFired;
    HistoryGrows(s, SendDone(s, t, ok));
  }

  lemma {:induction false} ReplyFacts(s: State, id: AckId, k: Kind, g: Given)
    requires id in Table(s, k)
    ensures var s' := Replied(s, id, k, g);
            && (forall x :: HasFired(s', x) <==> HasFired(s, x) || x == id)
            && (forall x, k', f :: DrawnFor(s, x, k', f) <==> DrawnFor(s', x, k', f))
  {
    var s' := Replied(s, id, k, g);
    assert s'.fired[|s.fired|].id == id;
    forall x | HasFired(s, x)
      ensures HasFired(s', x)
    {
      var i :| 0 <= i < |s.fired| && s.fired[i].id == x;
      assert s'.fired[i].id == x;
    }
  }

  lemma {:induction false} ReplyFiredOk(s: State, id: AckId, k: Kind, g: Given)
    requires TablesOk(s) && FiredOk(s) && id in Table(s, k)
    ensures FiredOk(Replied(s, id, k, g))
  {
    ReplyFacts(s, id, k, g);
    assert forall i :: 0 <= i < |s.fired| ==> HasFired(s, s.fired[i].id);
  }

  lemma {:induction false} ReplyKeeps(s: State, id: AckId, k: Kind, g: Given)
    requires Inv(s)
    ensures Inv(Replied(s, id, k, g))
  {
    if id in Table(s, k) {
      ReplyFiredOk(s, id, k, g);
      ReplyFacts(s, id, k, g);
      hide HasFired, DrawnFor, FiredOk;
    }
  }

  lemma {:induction false} RunKeeps(run: seq<Action>)
    requires Run(run).Some?
    ensures Inv(Run(run).value)
  {
    if run != [] {
      RunKeeps(run[..|run| - 1]);
      var s, a := Run(run[..|run| - 1]).value, run[|run| - 1];
      hide Inv;
      match a {
        case Draw(t, k, fn) => DrawKeeps(s, t, k, fn);
        case File(t) => FileKeeps(s, t);
        case Done(t, ok) => DoneKeeps(s, t, ok);
        case Reply(id, k, g) => ReplyKeeps(s, id, k, g);
      }
    }
  }

  /**
   * However emits, failed sends and replies interleave: ids are distinct and increasing, no id is in
   * both tables, and a callback runs at most once, only for a reply with its own id and kind.
   */
  lemma {:induction false} CallbacksRunOnce(run: seq<Action>)
    requires Run(run).Some?
    ensures var s := Run(run).value;
            && Sequential(s)
            && s.acks.Keys !! s.binaryAcks.Keys
            && FiredOk(s)
            && (forall i :: 0 <= i < |s.fired| ==>
                  s.fired[i].id !in s.acks && s.fired[i].id !in s.binaryAcks)
  {
    RunKeeps(run);
    var s := Run(run).value;
    forall i | 0 <= i < |s.fired|
      ensures HasFired(s, s.fired[i].id)
    {
    }
  }

  /** The draws of a run, in order. */
  function DrawsIn(run: seq<Action>): (ds: seq<Action>)
    ensures forall i :: 0 <= i < |ds| ==> ds[i].Draw?
  {
    if run == [] then []
    else
      var before, a := DrawsIn(run[..|run| - 1]), run[|run| - 1];
      if a.Draw? then before + [a] else before
  }

  predicate LogOk(s: State, ds: seq<Action>)
    requires forall i :: 0 <= i < |ds| ==> ds[i].Draw?
  {
    && |s.log| == |ds| == s.last
    && (forall i :: 0 <= i < |ds| ==> s.log[i].id == i + 1 && s.log[i].kind == ds[i].kind && s.log[i].fn == ds[i].fn)
    && (forall t :: t in s.emits ==> 0 < s.emits[t].id <= |ds| && ds[s.emits[t].id - 1].thread == t)
  }

  /** The n-th draw of a run got the id n, for its own callback, and only its goroutine goes on with it. */
  lemma {:induction false} LogIsDraws(run: seq<Action>)
    requires Run(run).Some?
    ensures LogOk(Run(run).value, DrawsIn(run))
  {
    if run != [] {
      LogIsDraws(run[..|run| - 1]);
      StepLogs(Run(run[..|run| - 1]).value, run[|run| - 1], DrawsIn(run[..|run| - 1]));
      hide LogOk, Step;
    }
  }

  /** A step that draws nothing leaves the log as it is, and no goroutine takes over an id. */
  predicate SameLog(s: State, s': State) {
    && s'.log == s.log && s'.last == s.last
    && forall t :: t in s'.emits ==> t in s.emits && s'.emits[t].id == s.emits[t].id
  }

  lemma StepSameLog(s: State, a: Action)
    requires Step(s, a).Some? && !a.Draw?
    ensures SameLog(s, Step(s, a).value)
  {
  }

  lemma {:induction false} StepLogs(s: State, a: Action, ds: seq<Action>)
    requires Step(s, a).Some? && (forall i :: 0 <= i < |ds| ==> ds[i].Draw?) && LogOk(s, ds)
    ensures LogOk(Step(s, a).value, if a.Draw? then ds + [a] else ds)
  {
    if !a.Draw? {
      StepSameLog(s, a);
      hide Step;
    }
  }

  // ----- a callback stays filed until its reply, unless its send failed -----

  /** The ids whose callbacks have been filed in the run. */
  function FiledIn(run: seq<Action>): set<AckId> {
    if run == [] then {}
    else
      var before, a := run[..|run| - 1], run[|run| - 1];
      FiledIn(before) + match Run(before)
                        case None => {}
                        case Some(s) => if a.File? && a.thread in s.emits then {s.emits[a.thread].id} else {}
  }

  /** The ids whose sends have failed in the run. */
  function FailedIn(run: seq<Action>): set<AckId> {
    if run == [] then {}
    else
      var before, a := run[..|run| - 1], run[|run| - 1];
      FailedIn(before) + match Run(before)
                         case None => {}
                         case Some(s) =>
                           if a.Done? && !a.ok && a.thread in s.emits then {s.emits[a.thread].id} else {}
  }

  predicate FiredAs(s: State, id: AckId, k: Kind, fn: Fn) {
    exists i :: 0 <= i < |s.fired| && s.fired[i].id == id && s.fired[i].kind == k && s.fired[i].fn == fn
  }

  /** The callback drawn with the id is in the table of its kind, or has been run. */
  predicate FiledOrFired(s: State, id: AckId) {
    && 0 < id <= |s.log|
    && var e := s.log[id - 1];
       (id in Table(s, e.kind) && Table(s, e.kind)[id] == e.fn) || FiredAs(s, id, e.kind, e.fn)
  }

  /** The emit of a filed id is past the filing, and that of a failed one is over. */
  ghost predicate EmitsPast(s: State, filed: set<AckId>, failed: set<AckId>) {
    forall t :: t in s.emits ==>
      && s.emits[t].id !in failed
      && (s.emits[t].stage == Filed <==> s.emits[t].id in filed)
  }

  ghost predicate KeptOk(s: State, filed: set<AckId>, failed: set<AckId>) {
    && EmitsPast(s, filed, failed)
    && failed <= filed
    && (forall id :: id in filed ==> 0 < id <= |s.log|)
    && (forall id :: id in filed && id !in failed ==> FiledOrFired(s, id))
    && (forall id :: id in failed ==> id !in s.acks && id !in s.binaryAcks)
  }

  lemma {:induction false} FiredGrows(s: State, s': State, id: AckId)
    requires s.log <= s'.log && s.fired <= s'.fired && 0 < id <= |s.log|
    ensures var e := s.log[id - 1];
            FiredAs(s, id, e.kind, e.fn) ==> FiredAs(s', id, e.kind, e.fn)
  {
    var e := s.log[id - 1];
    if FiredAs(s, id, e.kind, e.fn) {
      var i :| 0 <= i < |s.fired| && s.fired[i].id == id && s.fired[i].kind == e.kind && s.fired[i].fn == e.fn;
      assert s'.fired[i] == s.fired[i];
    }
  }

  lemma {:induction false} DrawKeepsFiled(s: State, t: Thread, k: Kind, fn: Fn, filed: set<AckId>, failed: set<AckId>)
    requires Inv(s) && KeptOk(s, filed, failed) && t !in s.emits
    ensures KeptOk(Drawn(s, t, k, fn), filed, failed)
  {
    var s' := Drawn(s, t, k, fn);
    forall id | id in filed && id !in failed
      ensures FiledOrFired(s', id)
    {
      FiredGrows(s, s', id);
    }
    hide FiredAs, FiledOrFired, DrawnFor, HasFired;
  }

  lemma {:induction false} FileKeepsFiled(s: State, t: Thread, filed: set<AckId>, failed: set<AckId>)
    requires Inv(s) && KeptOk(s, filed, failed) && t in s.emits && s.emits[t].stage == Issued
    ensures KeptOk(FiledAt(s, t), filed + {s.emits[t].id}, failed)
  {
    var s', e := FiledAt(s, t), s.emits[t];
    assert DrawnFor(s, e.id, e.kind, e.fn);
    forall id | id in filed + {e.id} && id !in failed
      ensures FiledOrFired(s', id)
    {
      if id != e.id {
        FiredGrows(s, s', id);
      }
    }
    hide FiredAs, FiledOrFired, HasFired;
  }

  lemma {:induction false} DoneKeepsFiled(s: State, t: Thread, ok: bool, filed: set<AckId>, failed: set<AckId>)
    requires Inv(s) && KeptOk(s, filed, failed) && t in s.emits && s.emits[t].stage == Filed
    ensures KeptOk(SendDone(s, t, ok), filed, failed + if ok then {} else {s.emits[t].id})
  {
    var s', e := SendDone(s, t, ok), s.emits[t];
    assert DrawnFor(s, e.id, e.kind, e.fn);
    OtherTableLacks(s, e.id, e.kind, e.fn);
    var failed' := failed + if ok then {} else {e.id};
    forall id | id in filed && id !in failed'
      ensures FiledOrFired(s', id)
    {
      FiredGrows(s, s', id);
    }
    hide FiredAs, FiledOrFired, DrawnFor, HasFired;
  }

  lemma {:induction false} OtherTableLacks(s: State, id: AckId, k: Kind, fn: Fn)
    requires TablesOk(s) && DrawnFor(s, id, k, fn)
    ensures id !in Table(s, if k == Plain then Binary else Plain)
  {
  }

  lemma {:induction false} ReplyKeepsFiled(s: State, id: AckId, k: Kind, g: Given,
                                           filed: set<AckId>, failed: set<AckId>)
    requires Inv(s) && KeptOk(s, filed, failed)
    ensures KeptOk(Replied(s, id, k, g), filed, failed)
  {
    var s' := Replied(s, id, k, g);
    forall x | x in filed && x !in failed
      ensures FiledOrFired(s', x)
    {
      FiredGrows(s, s', x);
      if x == id && id in Table(s, k) {
        var n := |s.fired|;
        assert DrawnFor(s, id, k, Table(s, k)[id]);
        assert s'.fired[n].id == id && s'.fired[n].kind == k;
      }
    }
    hide FiredAs, FiledOrFired, DrawnFor, HasFired;
  }

  lemma {:induction false} RunKeepsFiled(run: seq<Action>)
    requires Run(run).Some?
    ensures Inv(Run(run).value) && KeptOk(Run(run).value, FiledIn(run), FailedIn(run))
  {
    RunKeeps(run);
    hide Inv, KeptOk, FiledAt, Drawn, SendDone, Replied;
    if run == [] {
      NothingFiled();
    } else {
      var before, a := run[..|run| - 1], run[|run| - 1];
      RunKeepsFiled(before);
      var s := Run(before).value;
      assert FiledIn(before) + {} == FiledIn(before) && FailedIn(before) + {} == FailedIn(before);
      match a {
        case Draw(t, k, fn) => DrawKeepsFiled(s, t, k, fn, FiledIn(before), FailedIn(before));
        case File(t) => FileKeepsFiled(s, t, FiledIn(before), FailedIn(before));
        case Done(t, ok) => DoneKeepsFiled(s, t, ok, FiledIn(before), FailedIn(before));
        case Reply(id, k, g) => ReplyKeepsFiled(s, id, k, g, FiledIn(before), FailedIn(before));
      }
    }
  }

  lemma NothingFiled()
    ensures KeptOk(IDLE, {}, {})
  {
  }

  /**
   * After every run, a callback that was filed and whose send has not failed is in the table of its kind, or
   * has been run; one whose send has failed is in neither table.
   */
  lemma {:induction false} FiledUntilRun(run: seq<Action>, id: AckId)
    requires Run(run).Some? && id in FiledIn(run)
    ensures var s := Run(run).value;
            && (id !in FailedIn(run) ==> FiledOrFired(s, id))
            && (id in FailedIn(run) ==> id !in s.acks && id !in s.binaryAcks)
  {
    RunKeepsFiled(run);
    hide Run, FiledIn, FailedIn, FiledOrFired, EmitsPast, Inv;
  }

  /** So a reply with its id and kind runs it, unless one has before: it is run now, and given what this one gives. */
  lemma {:induction false} ReplyRunsIt(run: seq<Action>, id: AckId, g: Given)
    requires Run(run).Some? && id in FiledIn(run) && id !in FailedIn(run)
    ensures var s := Run(run).value;
            && 0 < id <= |s.log|
            && var e := s.log[id - 1];
               && Run(run + [Reply(id, e.kind, g)]).Some?
               && var s' := Run(run + [Reply(id, e.kind, g)]).value;
                  && FiredAs(s', id, e.kind, e.fn)
                  && (!HasFired(s, id) ==> s'.fired == s.fired + [Fired(id, e.kind, e.fn, g)])
  {
    FiledUntilRun(run, id);
    RunKeeps(run);
    var s := Run(run).value;
    var e := s.log[id - 1];
    var a := Reply(id, e.kind, g);
    assert (run + [a])[..|run|] == run;
    FiredGrows(s, Replied(s, id, e.kind, g), id);
    if id in Table(s, e.kind) {
      assert Replied(s, id, e.kind, g).fired[|s.fired|] == Fired(id, e.kind, e.fn, g);
    } else {
      FiredAsIsFired(s, id, e.kind, e.fn);
    }
    hide FiledIn, FailedIn, EmitsOk, Sequential, FiredOk;
  }

  lemma {:induction false} FiredAsIsFired(s: State, id: AckId, k: Kind, fn: Fn)
    ensures FiredAs(s, id, k, fn) ==> HasFired(s, id)
  {
  }

  /** A reply of the other kind, or with another id, does not run or lose a callback. */
  lemma OthersAreKept(s: State, id: AckId, k: Kind, g: Given, other: AckId, kind: Kind)
    requires other in Table(s, kind) && (id != other || k != kind)
    ensures var s' := Replied(s, id, k, g);
            other in Table(s', kind) && Table(s', kind)[other] == Table(s, kind)[other]
  {
  }

  // ----- the code -----

  class AckTables {
    var last: AckId
    var acks: map<AckId, Fn>
    var binaryAcks: map<AckId, Fn>
    ghost var emits: map<Thread, Emit>
    ghost var log: seq<Emit>
    ghost var fired: seq<Fired>

    ghost function View(): State
      reads this
    {
      State(last, acks, binaryAcks, emits, log, fired)
    }

    constructor ()
      ensures View() == IDLE
    {
      last, acks, binaryAcks, emits, log, fired := 0, map[], map[], map[], [], [];
    }

    /** The next id; a plain emit is refused, after the count, when the id does not fit an `int`. */
    method DrawId(kind: Kind, fn: Fn, ghost t: Thread) returns (id: Option<AckId>)
      modifies this
      ensures last == old(last) + 1
      ensures id == if kind == Plain && last > MAX_INT then None else Some(last)
      ensures View() == if id == None then old(View()).(last := last) else Drawn(old(View()), t, kind, fn)
    {
      last := last + 1;
      if kind == Plain && last > MAX_INT {
        return None;
      }
      id := Some(last);
      emits, log := emits[t := Emit(last, kind, fn, Issued)], log + [Emit(last, kind, fn, Issued)];
    }

    method FileCallback(id: AckId, kind: Kind, fn: Fn, ghost t: Thread)
      requires t in emits && emits[t].id == id && emits[t].kind == kind && emits[t].fn == fn
      modifies this
      ensures View() == FiledAt(old(View()), t)
    {
      if kind == Plain {
        acks := acks[id := fn];
      } else {
        binaryAcks := binaryAcks[id := fn];
      }
      emits := emits[t := emits[t].(stage := Filed)];
    }

    method AfterSend(id: AckId, kind: Kind, ok: bool, ghost t: Thread)
      requires t in emits && emits[t].id == id && emits[t].kind == kind
      modifies this
      ensures View() == SendDone(old(View()), t, ok)
    {
      if !ok {
        if kind == Plain {
          acks := acks - {id};
        } else {
          binaryAcks := binaryAcks - {id};
        }
      }
      emits := emits - {t};
    }

    /** The callback to run, if any, and what it is given. */
    method FireAck(lib: Decoder, id: AckId, p: Packet, buffers: seq<Bytes>) returns (fn: Option<Fn>, given: Given)
      modifies this
      ensures given == GivenBy(lib, p, buffers)
      ensures var k := if IsBinary(p.typ) then Binary else Plain;
              && View() == Replied(old(View()), id, k, given)
              && fn == if id in Table(old(View()), k) then Some(Table(old(View()), k)[id]) else None
    {
      if IsBinary(p.typ) {
        given := Failed(NotJson);
        var v := lib.value(p.data);
        if v.Some? {
          var r := A.Reconstruct(v.value, buffers);
          match r
          case Err(_) => given := Failed(BadPlaceholder);
          case Ok(w) => given := if w.Arr? then Values(w.items) else Values([w]);
        }
        fn := if id in binaryAcks then Some(binaryAcks[id]) else None;
        binaryAcks := binaryAcks - {id};
      } else {
        var es := lib.elements(p.data);
        if es == None || es.value == [] {
          given := Failed(NoElements);
        } else {
          given := Elements(es.value[1..]);
        }
        fn := if id in acks then Some(acks[id]) else None;
        acks := acks - {id};
      }
      if fn.Some? {
        fired := fired + [Fired(id, if IsBinary(p.typ) then Binary else Plain, fn.value, given)];
      }
    }
  }
}
