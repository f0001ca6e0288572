/**
 * The session receive loop: it decodes text messages into packets, and holds a binary packet back
 * until the binary messages that complete it have arrived.
 */
module Sessions {
  import opened Options
  import opened ByteSeqs
  import opened Frames
  import opened Messages
  import opened Packets

  const MAX_SESSION_ATTACHMENTS: nat := 64

  datatype Message = Message(op: Opcode, raw: Bytes)

  /** One call of the packet dispatcher. */
  datatype Dispatch = Dispatch(pkt: Packet, buffers: seq<Bytes>)

  /** A binary packet whose buffers are still arriving. */
  datatype Pending = Pending(pkt: Packet, buffers: seq<Bytes>)

  datatype LoopState = LoopState(connectedAny: bool, pending: Option<Pending>)

  const START: LoopState := LoopState(false, None)

  datatype LoopStep = Ended | Next(state: LoopState, calls: seq<Dispatch>)

  function OnBinary(s: LoopState, raw: Bytes): LoopStep {
    if s.pending.None? then Ended
    else
      var p, bufs := s.pending.value.pkt, s.pending.value.buffers + [raw];
      if |bufs| == p.attachments then Next(s.(pending := None), [Dispatch(p, bufs)])
      else Next(s.(pending := Some(Pending(p, bufs))), [])
  }

  function OnPacket(s: LoopState, p: Packet): LoopStep {
    if !s.connectedAny && p.typ != CONNECT then Ended
    else if IsBinary(p.typ) then
      if p.attachments > MAX_SESSION_ATTACHMENTS then Ended
      else Next(LoopState(true, Some(Pending(p, []))), [])
    else Next(LoopState(true, s.pending), [Dispatch(p, [])])
  }

  function OnMessage(j: Json, s: LoopState, m: Message): LoopStep {
    if m.op == OP_BINARY then OnBinary(s, m.raw)
    else if m.raw == [] then Next(s, [])
    else
      match Decode(j, m.raw)
      case Err(_) => Ended
      case Ok(p) => OnPacket(s, p)
  }

  /** The dispatches the loop makes on a list of messages. */
  function Run(j: Json, s: LoopState, ms: seq<Message>): seq<Dispatch>
    decreases |ms|
  {
    if ms == [] then []
    else
      match OnMessage(j, s, ms[0])
      case Ended => []
      case Next(s', calls) => calls + Run(j, s', ms[1..])
  }

  /** The messages a connection delivers before reading fails. */
  function Delivered(cfg: Config, st: Stream): seq<Message>
    decreases |st.frames|
  {
    var r := Read(cfg, Idle, st);
    if r.out.err != None then [] else [Message(r.out.op, r.out.msg)] + Delivered(cfg, r.left)
  }

  /** What is left of the stream after `k` reads. */
  function After(cfg: Config, st: Stream, k: nat): Stream {
    if k == 0 then st else Read(cfg, Idle, After(cfg, st, k - 1)).left
  }

  lemma {:induction false} AfterFirst(cfg: Config, st: Stream, k: nat)
    ensures After(cfg, st, k + 1) == After(cfg, Read(cfg, Idle, st).left, k)
  {
    hide Read;
    if k > 0 {
      AfterFirst(cfg, st, k - 1);
    }
  }

  /** Message `i` delivered is what read `i` returned, and the next read after the last one fails. */
  lemma {:induction false} DeliveredExact(cfg: Config, st: Stream)
    ensures var ms := Delivered(cfg, st);
            && (forall i :: 0 <= i < |ms| ==>
                  var r := Read(cfg, Idle, After(cfg, st, i));
                  r.out.err == None && ms[i] == Message(r.out.op, r.out.msg))
            && Read(cfg, Idle, After(cfg, st, |ms|)).out.err != None
    decreases |st.frames|
  {
    hide Read;
    var r, ms := Read(cfg, Idle, st), Delivered(cfg, st);
    if r.out.err == None {
      DeliveredExact(cfg, r.left);
      forall i | 0 < i <= |ms|
        ensures After(cfg, st, i) == After(cfg, r.left, i - 1)
      {
        AfterFirst(cfg, st, i - 1);
      }
    }
  }

  // ----- reassembly on arbitrary input -----

  /** The state after the first `k` messages; None once the loop has ended. */
  function LoopStateAt(j: Json, ms: seq<Message>, k: nat): Option<LoopState>
    requires k <= |ms|
  {
    if k == 0 then Some(START)
    else
      match LoopStateAt(j, ms, k - 1)
      case None => None
      case Some(s) =>
        var step := OnMessage(j, s, ms[k - 1]);
        if step.Ended? then None else Some(step.state)
  }

  /** The dispatches caused by message `k`. */
  function CallsAt(j: Json, ms: seq<Message>, k: nat): seq<Dispatch>
    requires k < |ms|
  {
    match LoopStateAt(j, ms, k)
    case None => []
    case Some(s) =>
      var step := OnMessage(j, s, ms[k]);
      if step.Ended? then [] else step.calls
  }

  function CallsFrom(j: Json, ms: seq<Message>, k: nat): seq<Dispatch>
    requires k <= |ms|
    decreases |ms| - k
  {
    if k == |ms| then [] else CallsAt(j, ms, k) + CallsFrom(j, ms, k + 1)
  }

  lemma {:induction false} EndedStaysEnded(j: Json, ms: seq<Message>, k: nat)
    requires k <= |ms| && LoopStateAt(j, ms, k) == None
    ensures CallsFrom(j, ms, k) == []
    decreases |ms| - k
  {
    if k < |ms| {
      EndedStaysEnded(j, ms, k + 1);
    }
  }

  /** The loop's dispatches, message by message. */
  lemma {:induction false} RunIsCalls(j: Json, ms: seq<Message>, k: nat)
    requires k <= |ms| && LoopStateAt(j, ms, k).Some?
    ensures Run(j, LoopStateAt(j, ms, k).value, ms[k..]) == CallsFrom(j, ms, k)
    decreases |ms| - k
  {
    hide OnMessage;
    if k < |ms| {
      assert ms[k..][1..] == ms[k + 1..];
      if LoopStateAt(j, ms, k + 1).Some? {
        RunIsCalls(j, ms, k + 1);
      } else {
        EndedStaysEnded(j, ms, k + 1);
      }
    }
  }

  predicate IsHeader(j: Json, m: Message) {
    m.op != OP_BINARY && m.raw != [] && Decode(j, m.raw).Ok? && IsBinary(Decode(j, m.raw).value.typ)
  }

  function Binaries(ms: seq<Message>): seq<Bytes> {
    if ms == [] then []
    else
      var bs := Binaries(ms[..|ms| - 1]);
      var m := ms[|ms| - 1];
      if m.op == OP_BINARY then bs + [m.raw] else bs
  }

  /** Message `h` is the latest binary header before `k`, and `bufs` are the binary messages since. */
  ghost predicate CollectedSince(j: Json, ms: seq<Message>, h: nat, k: nat, p: Packet, bufs: seq<Bytes>) {
    && h < k <= |ms|
    && IsHeader(j, ms[h]) && Decode(j, ms[h].raw) == Ok(p)
    && bufs == Binaries(ms[h + 1..k])
    && (forall i :: h < i < k ==> !IsHeader(j, ms[i]))
  }

  lemma {:induction false} BinariesStep(ms: seq<Message>, h: nat, k: nat)
    requires h < k < |ms|
    ensures Binaries(ms[h + 1..k + 1]) ==
            Binaries(ms[h + 1..k]) + (if ms[k].op == OP_BINARY then [ms[k].raw] else [])
  {
    assert ms[h + 1..k + 1][..k - h - 1] == ms[h + 1..k];
  }

  lemma {:induction false} CollectedNone(j: Json, ms: seq<Message>, h: nat, p: Packet)
    requires h < |ms| && IsHeader(j, ms[h]) && Decode(j, ms[h].raw) == Ok(p)
    ensures CollectedSince(j, ms, h, h + 1, p, [])
  {
    hide Decode, IsHeader;
    assert ms[h + 1..h + 1] == [];
  }

  lemma {:induction false} CollectedMore(j: Json, ms: seq<Message>, h: nat, k: nat, p: Packet, bufs: seq<Bytes>)
    requires k < |ms| && CollectedSince(j, ms, h, k, p, bufs) && !IsHeader(j, ms[k])
    ensures CollectedSince(j, ms, h, k + 1, p, bufs + if ms[k].op == OP_BINARY then [ms[k].raw] else [])
  {
    hide Decode, IsHeader, Binaries;
    BinariesStep(ms, h, k);
  }

  /** After a message a packet is pending because the message is its header, or was pending before. */
  lemma {:induction false} PendingStep(j: Json, s: LoopState, m: Message)
    requires OnMessage(j, s, m).Next? && OnMessage(j, s, m).state.pending.Some?
    ensures var q := OnMessage(j, s, m).state.pending.value;
            if IsHeader(j, m) then
              Decode(j, m.raw) == Ok(q.pkt) && q.buffers == [] && 0 < q.pkt.attachments <= MAX_SESSION_ATTACHMENTS
            else
              && s.pending.Some?
              && if m.op == OP_BINARY then
                   && q == Pending(s.pending.value.pkt, s.pending.value.buffers + [m.raw])
                   && |q.buffers| != q.pkt.attachments
                 else q == s.pending.value
  {
    if IsHeader(j, m) {
      DecodedParts(j, m.raw);
    }
    hide Decode;
  }

  lemma {:induction false} LoopStateStep(j: Json, ms: seq<Message>, k: nat)
    requires k <= |ms| && LoopStateAt(j, ms, k).Some? && LoopStateAt(j, ms, k).value.pending.Some?
    ensures k > 0 && LoopStateAt(j, ms, k - 1).Some?
    ensures var step := OnMessage(j, LoopStateAt(j, ms, k - 1).value, ms[k - 1]);
            step.Next? && step.state == LoopStateAt(j, ms, k).value
  {
    hide OnMessage;
  }

  /** A pending packet waits for more buffers than it has, and has the binary messages since its header. */
  lemma {:induction false} PendingIsPartial(j: Json, ms: seq<Message>, k: nat) returns (h: nat)
    requires k <= |ms| && LoopStateAt(j, ms, k).Some? && LoopStateAt(j, ms, k).value.pending.Some?
    ensures var q := LoopStateAt(j, ms, k).value.pending.value;
            && CollectedSince(j, ms, h, k, q.pkt, q.buffers)
            && |q.buffers| < q.pkt.attachments <= MAX_SESSION_ATTACHMENTS
  {
    hide Decode, OnMessage, IsHeader, CollectedSince, LoopStateAt;
    LoopStateStep(j, ms, k);
    var s, m := LoopStateAt(j, ms, k - 1).value, ms[k - 1];
    PendingStep(j, s, m);
    if IsHeader(j, m) {
      h := k - 1;
      CollectedNone(j, ms, h, LoopStateAt(j, ms, k).value.pending.value.pkt);
    } else {
      h := PendingIsPartial(j, ms, k - 1);
      var q := s.pending.value;
      CollectedMore(j, ms, h, k - 1, q.pkt, q.buffers);
      assert q.buffers + [] == q.buffers;
    }
  }

  /**
   * Whatever the messages, a dispatched packet carries its own number of buffers: none if it is not
   * binary, and otherwise between 1 and 64, the binary messages read since its header, in order.
   */
  lemma {:induction false} DispatchIsComplete(j: Json, ms: seq<Message>, k: nat) returns (h: nat)
    requires k < |ms|
    ensures |CallsAt(j, ms, k)| <= 1
    ensures forall d :: d in CallsAt(j, ms, k) ==>
              if IsBinary(d.pkt.typ) then
                && 1 <= d.pkt.attachments <= MAX_SESSION_ATTACHMENTS
                && |d.buffers| == d.pkt.attachments
                && ms[k].op == OP_BINARY
                && CollectedSince(j, ms, h, k + 1, d.pkt, d.buffers)
              else d.buffers == [] && Decode(j, ms[k].raw) == Ok(d.pkt)
  {
    hide Decode;
    h := 0;
    var s := LoopStateAt(j, ms, k);
    if s.Some? && ms[k].op == OP_BINARY && s.value.pending.Some? {
      h := PendingIsPartial(j, ms, k);
      BinariesStep(ms, h, k);
    }
  }

  // ----- exactly what the loop does -----

  /** The latest of the first `k` messages that is the header of a binary packet; -1 if there is none. */
  function LatestHeader(j: Json, ms: seq<Message>, k: nat): (h: int)
    requires k <= |ms|
    ensures -1 <= h < k
  {
    if k == 0 then -1 else if IsHeader(j, ms[k - 1]) then k - 1 else LatestHeader(j, ms, k - 1)
  }

  /** What is awaited, when the latest header is known. */
  function AwaitingFrom(j: Json, ms: seq<Message>, h: int, k: nat): Option<Pending>
    requires -1 <= h < k <= |ms|
  {
    if h < 0 || Decode(j, ms[h].raw).Err? then None
    else Lacking(Decode(j, ms[h].raw).value, Binaries(ms[h + 1..k]))
  }

  /** The binary packet that still lacks buffers after `k` messages, with the binary messages since its header. */
  function Awaiting(j: Json, ms: seq<Message>, k: nat): Option<Pending>
    requires k <= |ms|
  {
    AwaitingFrom(j, ms, LatestHeader(j, ms, k), k)
  }

  function Lacking(p: Packet, bufs: seq<Bytes>): Option<Pending> {
    if |bufs| < p.attachments then Some(Pending(p, bufs)) else None
  }

  predicate HasConnect(j: Json, ms: seq<Message>, k: nat)
    requires k <= |ms|
  {
    exists i :: 0 <= i < k && ms[i].op != 0x2 && ms[i].raw != [] && Decode(j, ms[i].raw).Ok?
                && Decode(j, ms[i].raw).value.typ == 0x30
  }

  /**
   * The session ends at message `k`: a binary message that no packet awaits, or a text that does not decode, or
   * is no CONNECT before any CONNECT, or announces more than 64 buffers.
   */
  predicate Breaks(j: Json, ms: seq<Message>, k: nat)
    requires k < |ms|
  {
    var m := ms[k];
    if m.op == 0x2 then Awaiting(j, ms, k) == None
    else
      m.raw != [] &&
      match Decode(j, m.raw)
      case Err(_) => true
      case Ok(p) =>
        || (p.typ != 0x30 && !HasConnect(j, ms, k))
        || ((p.typ == 0x35 || p.typ == 0x36) && p.attachments > 64)
  }

  lemma {:induction false} HasConnectStep(j: Json, ms: seq<Message>, k: nat)
    requires k < |ms|
    ensures HasConnect(j, ms, k + 1) <==>
            || HasConnect(j, ms, k)
            || (ms[k].op != 0x2 && ms[k].raw != [] && Decode(j, ms[k].raw).Ok?
                && Decode(j, ms[k].raw).value.typ == 0x30)
  {
    hide Decode;
  }

  lemma {:induction false} LatestStays(j: Json, ms: seq<Message>, k: nat)
    requires k < |ms| && !IsHeader(j, ms[k])
    ensures LatestHeader(j, ms, k + 1) == LatestHeader(j, ms, k)
  {
    hide Decode, IsHeader;
  }

  function WithOneMore(q: Option<Pending>, raw: Bytes): Option<Pending> {
    if q == None then None else Lacking(q.value.pkt, q.value.buffers + [raw])
  }

  lemma LackingOneMore(p: Packet, bufs: seq<Bytes>, raw: Bytes)
    ensures Lacking(p, bufs + [raw]) == WithOneMore(Lacking(p, bufs), raw)
  {
  }

  lemma {:induction false} AwaitingFromStep(j: Json, ms: seq<Message>, h: int, k: nat)
    requires -1 <= h < k < |ms|
    ensures AwaitingFrom(j, ms, h, k + 1) ==
            if ms[k].op == 0x2 then WithOneMore(AwaitingFrom(j, ms, h, k), ms[k].raw) else AwaitingFrom(j, ms, h, k)
  {
    hide Decode, Binaries, Lacking, WithOneMore;
    if h >= 0 && Decode(j, ms[h].raw).Ok? {
      var bs := Binaries(ms[h + 1..k]);
      BinariesStep(ms, h, k);
      LackingOneMore(Decode(j, ms[h].raw).value, bs, ms[k].raw);
      assert bs + [] == bs;
    }
    assert WithOneMore(None, ms[k].raw) == None by { NothingMore(ms[k].raw); }
  }

  lemma NothingMore(raw: Bytes)
    ensures WithOneMore(None, raw) == None
  {
  }

  /** How one message that is no header changes what is awaited. */
  lemma {:induction false} AwaitingStep(j: Json, ms: seq<Message>, k: nat)
    requires k < |ms| && !IsHeader(j, ms[k])
    ensures Awaiting(j, ms, k + 1) ==
            if ms[k].op == 0x2 then WithOneMore(Awaiting(j, ms, k), ms[k].raw) else Awaiting(j, ms, k)
  {
    hide Decode, IsHeader, LatestHeader, AwaitingFrom, WithOneMore;
    LatestStays(j, ms, k);
    AwaitingFromStep(j, ms, LatestHeader(j, ms, k), k);
  }

  lemma {:induction false} AwaitingHeader(j: Json, ms: seq<Message>, k: nat)
    requires k < |ms| && IsHeader(j, ms[k])
    ensures Awaiting(j, ms, k + 1) == Some(Pending(Decode(j, ms[k].raw).value, []))
  {
    DecodedParts(j, ms[k].raw);
    assert ms[k + 1..k + 1] == [];
    hide Decode;
  }

  /** What the loop knows after `k` messages that did not end it. */
  function StateOf(j: Json, ms: seq<Message>, k: nat): LoopState
    requires k <= |ms|
  {
    LoopState(HasConnect(j, ms, k), Awaiting(j, ms, k))
  }

  /** A pending packet has fewer buffers than it needs. */
  lemma AwaitingLacks(j: Json, ms: seq<Message>, k: nat)
    requires k <= |ms|
    ensures var q := Awaiting(j, ms, k);
            q.Some? ==> |q.value.buffers| < q.value.pkt.attachments
  {
  }

  lemma {:induction false} OnMessageExact(j: Json, ms: seq<Message>, k: nat)
    requires k < |ms|
    ensures var step := OnMessage(j, StateOf(j, ms, k), ms[k]);
            && (step.Ended? <==> Breaks(j, ms, k))
            && (step.Next? ==> step.state == StateOf(j, ms, k + 1))
  {
    HasConnectStep(j, ms, k);
    AwaitingLacks(j, ms, k);
    if IsHeader(j, ms[k]) {
      AwaitingHeader(j, ms, k);
    } else {
      AwaitingStep(j, ms, k);
    }
    hide Decode, Awaiting, HasConnect;
  }

  /**
   * Whatever the messages, the loop has ended after `k` of them exactly if one of them broke it; and if not,
   * it knows whether there has been a CONNECT, and which binary packet awaits buffers, no more.
   */
  lemma {:induction false} LoopStateExact(j: Json, ms: seq<Message>, k: nat)
    requires k <= |ms|
    ensures LoopStateAt(j, ms, k) == if exists i :: 0 <= i < k && Breaks(j, ms, i) then None
                                     else Some(StateOf(j, ms, k))
  {
    hide OnMessage, Breaks, StateOf;
    if k == 0 {
      assert StateOf(j, ms, 0) == START by { NothingKnown(j, ms); }
    } else {
      LoopStateExact(j, ms, k - 1);
      OnMessageExact(j, ms, k - 1);
    }
  }

  lemma NothingKnown(j: Json, ms: seq<Message>)
    ensures StateOf(j, ms, 0) == START
  {
  }

  /**
   * And what message `k` makes it dispatch: a packet that is not binary at once, the packet that awaits
   * buffers with the last of them, and nothing else.
   */
  lemma {:induction false} CallsExact(j: Json, ms: seq<Message>, k: nat)
    requires k < |ms| && !Breaks(j, ms, k) && forall i :: 0 <= i < k ==> !Breaks(j, ms, i)
    ensures CallsAt(j, ms, k) ==
            if ms[k].op == 0x2 then
              var q := Awaiting(j, ms, k).value;
              var bs := q.buffers + [ms[k].raw];
              if |bs| == q.pkt.attachments then [Dispatch(q.pkt, bs)] else []
            else if ms[k].raw == [] || IsHeader(j, ms[k]) then []
            else [Dispatch(Decode(j, ms[k].raw).value, [])]
  {
    LoopStateExact(j, ms, k);
    OnMessageExact(j, ms, k);
    hide Decode, Awaiting, HasConnect, LoopStateAt;
    assert LoopStateAt(j, ms, k) == Some(StateOf(j, ms, k));
  }

  /** Whatever the messages, nothing is dispatched before a CONNECT. */
  lemma {:induction false} ConnectComesFirst(j: Json, ms: seq<Message>)
    ensures Run(j, START, ms) != [] ==> Run(j, START, ms)[0].pkt.typ == CONNECT
    decreases |ms|
  {
    hide Decode;
    if ms != [] && OnMessage(j, START, ms[0]).Next? && OnMessage(j, START, ms[0]).calls == [] {
      assert OnMessage(j, START, ms[0]).state == START;
      ConnectComesFirst(j, ms[1..]);
    }
  }

  // ----- the code -----

  /** What the loop does with one message; `ended` says that it returns. */
  method HandleMessage(j: Json, connectedAny: bool, pending: Option<Pending>, op: Opcode, raw: Bytes)
    returns (ended: bool, connectedAny': bool, pending': Option<Pending>, calls: seq<Dispatch>)
    ensures var step := OnMessage(j, LoopState(connectedAny, pending), Message(op, raw));
            && ended == step.Ended?
            && (!ended ==> step == Next(LoopState(connectedAny', pending'), calls))
  {
    hide Decode;
    ended, connectedAny', pending', calls := false, connectedAny, pending, [];
    if op == OP_BINARY {
      if pending == None {
        ended := true;
        return;
      }
      var p, bufs := pending.value.pkt, pending.value.buffers + [raw];
      if |bufs| == p.attachments {
        pending' := None;
        calls := [Dispatch(p, bufs)];
      } else {
        pending' := Some(Pending(p, bufs));
      }
      return;
    }
    if |raw| == 0 {
      return;
    }
    var d := DecodePacket(j, raw);
    if d.Err? {
      ended := true;
      return;
    }
    var p := d.value;
    if !connectedAny {
      if p.typ != CONNECT {
        ended := true;
        return;
      }
      connectedAny' := true;
    }
    if IsBinary(p.typ) {
      if p.attachments > MAX_SESSION_ATTACHMENTS {
        ended := true;
        return;
      }
      pending' := Some(Pending(p, []));
      return;
    }
    calls := [Dispatch(p, [])];
  }

  /** The loop over one connection; the result lists the dispatcher's calls. */
  method HandleSession(j: Json, tc: WSConn) returns (calls: seq<Dispatch>)
    requires tc.Valid()
    modifies tc, tc.reader, tc.writer
    ensures calls == Run(j, START, Delivered(tc.cfg, ParseAll(tc.cfg.max, old(tc.reader.rest))))
  {
    hide OnMessage, Read, SpecRead, ParseAll;
    ghost var all := Delivered(tc.cfg, ParseAll(tc.cfg.max, tc.reader.rest));
    calls := [];
    var connectedAny, pending: Option<Pending> := false, None;
    while true
      invariant tc.Valid() && tc.reader == old(tc.reader) && tc.writer == old(tc.writer)
      invariant Run(j, START, all) ==
                calls + Run(j, LoopState(connectedAny, pending),
                            Delivered(tc.cfg, ParseAll(tc.cfg.max, tc.reader.rest)))
      decreases |tc.reader.rest|
    {
      ReadIsSpec(tc.cfg, ParseAll(tc.cfg.max, tc.reader.rest));
      var r := tc.ReadMessage();
      if r.err != None {
        return;
      }
      ghost var later := Delivered(tc.cfg, ParseAll(tc.cfg.max, tc.reader.rest));
      RunOnce(j, LoopState(connectedAny, pending), Message(r.op, r.msg), later);
      var ended, more;
      ended, connectedAny, pending, more := HandleMessage(j, connectedAny, pending, r.op, r.msg);
      if ended {
        return;
      }
      AppendAssoc(calls, more, Run(j, LoopState(connectedAny, pending), later));
      calls := calls + more;
    }
  }

  lemma {:induction false} RunOnce(j: Json, s: LoopState, m: Message, later: seq<Message>)
    ensures var step := OnMessage(j, s, m);
            Run(j, s, [m] + later) == if step.Ended? then [] else step.calls + Run(j, step.state, later)
  {
    hide OnMessage;
    assert ([m] + later)[1..] == later;
  }
}
