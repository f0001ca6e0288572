/**
 * Sending packets: one call writes a text header and then its buffers while it holds the session lock.
 * Other goroutines write pings and replies between any two of those frames, so atomicity is about what
 * is left of the wire once these are taken out. An upgrade does not take that lock: it can come between
 * two frames of one call, and the rest of them then go to the new transport.
 */
module Sending {
  import opened Options
  import opened ByteSeqs
  import opened Frames
  import opened Messages
  import opened Packets

  datatype SendError = NotEncodable(why: EncodeError) | SessionClosed | WriteFailed(cause: Error)

  // ----- one call -----

  /** The frames of a packet and its buffers. */
  function GroupWrites(raw: Bytes, bufs: seq<Bytes>): seq<Written> {
    [Written(OP_TEXT, [EIO_MESSAGE] + raw)] + BufferWrites(bufs)
  }

  function BufferWrites(bufs: seq<Bytes>): seq<Written> {
    seq(|bufs|, i requires 0 <= i < |bufs| => Written(OP_BINARY, bufs[i]))
  }

  /** How many buffers are within the payload limit before the first that is not. */
  function FittingPrefix(cfg: Config, bufs: seq<Bytes>): (n: nat)
    ensures n <= |bufs|
    ensures forall i :: 0 <= i < n ==> !TooLong(cfg, |bufs[i]|)
    ensures n < |bufs| ==> TooLong(cfg, |bufs[n]|)
  {
    if bufs == [] || TooLong(cfg, |bufs[0]|) then 0 else 1 + FittingPrefix(cfg, bufs[1..])
  }

  /** What one call writes, and what it returns. */
  datatype SendResult = SendResult(writes: seq<Written>, err: Option<SendError>)

  function Send(cfg: Config, closed: bool, p: Packet, bufs: seq<Bytes>): SendResult {
    match Encode(p)
    case Err(e) => SendResult([], Some(NotEncodable(e)))
    case Ok(raw) =>
      if closed then SendResult([], Some(SessionClosed))
      else if TooLong(cfg, |raw| + 1) then SendResult([], Some(WriteFailed(PayloadTooLarge)))
      else
        var n := FittingPrefix(cfg, bufs);
        SendResult(GroupWrites(raw, bufs[..n]),
                   if n < |bufs| then Some(WriteFailed(PayloadTooLarge)) else None)
  }

  predicate AllFit(cfg: Config, bufs: seq<Bytes>) {
    forall i :: 0 <= i < |bufs| ==> !TooLong(cfg, |bufs[i]|)
  }

  /** A call writes its whole group or nothing, unless its header fits and one of its buffers does not. */
  lemma {:induction false} SendIsWholeIff(cfg: Config, closed: bool, p: Packet, bufs: seq<Bytes>)
    requires Encode(p).Ok?
    ensures var r := Send(cfg, closed, p, bufs);
            var raw := Encode(p).value;
            && (r.writes == [] || r.writes == GroupWrites(raw, bufs) <==>
                closed || TooLong(cfg, |raw| + 1) || AllFit(cfg, bufs))
            && (r.err == None <==> r.writes == GroupWrites(raw, bufs))
  {
    hide Encode;
    var raw := Encode(p).value;
    var n := FittingPrefix(cfg, bufs);
    assert |GroupWrites(raw, bufs[..n])| == 1 + n && |GroupWrites(raw, bufs)| == 1 + |bufs|;
    if n == |bufs| {
      assert bufs[..n] == bufs;
    }
  }

  /** Why a call fails: what it is given cannot be encoded, or the session is closed, or else a frame is too long. */
  lemma {:induction false} SendErrorExact(cfg: Config, closed: bool, p: Packet, bufs: seq<Bytes>)
    ensures var r := Send(cfg, closed, p, bufs);
            && (Encode(p).Err? ==> r == SendResult([], Some(NotEncodable(Encode(p).error))))
            && (Encode(p).Ok? && closed ==> r == SendResult([], Some(SessionClosed)))
            && (Encode(p).Ok? && !closed ==>
                  && (r.err == Some(WriteFailed(PayloadTooLarge)) <==>
                      0 < cfg.max < |Encode(p).value| + 1 || exists i :: 0 <= i < |bufs| && 0 < cfg.max < |bufs[i]|)
                  && (r.err == None || r.err == Some(WriteFailed(PayloadTooLarge))))
  {
    hide Encode;
    var n := FittingPrefix(cfg, bufs);
    assert n < |bufs| ==> TooLong(cfg, |bufs[n]|);
  }

  /**
   * What a call that succeeds puts on the wire: one text, whose first byte is the mark of a message, so that
   * the receiving side strips it and decodes the packet, its namespace normalised; then each buffer.
   */
  lemma {:induction false} SentIsReceived(j: Json, cfg: Config, closed: bool, p: Packet, bufs: seq<Bytes>)
    requires Send(cfg, closed, p, bufs).err == None
    ensures Encode(p).Ok?
    ensures var ws, raw := Send(cfg, closed, p, bufs).writes, Encode(p).value;
            && |ws| == 1 + |bufs|
            && ws[0] == Written(0x1, [0x34] + raw)
            && HandleEIO(0x1, ws[0].payload) == Stripped(ReadOut(0x1, raw, None), [])
            && (Readable(j, p, raw) ==> Decode(j, HandleEIO(0x1, ws[0].payload).out.msg) == Ok(Normalized(p)))
            && (forall i :: 0 <= i < |bufs| ==> ws[1 + i] == Written(0x2, bufs[i]))
  {
    hide Decode, Readable, HandleEIO;
    SendErrorExact(cfg, closed, p, bufs);
    var raw := Encode(p).value;
    RoundTrip(j, p, raw);
    MarksOfEngineIO(raw);
    SendIsWholeIff(cfg, closed, p, bufs);
    hide Encode, Send;
    assert ([0x34] + raw)[1..] == raw;
  }

  lemma {:induction false} FramesOfGroup(before: seq<Written>, raw: Bytes, bufs: seq<Bytes>)
    ensures var view := AsFrames(before + GroupWrites(raw, bufs));
            && |view| == |before| + 1 + |bufs|
            && view[..|before|] == AsFrames(before)
            && view[|before|] == Frame(true, 0x1, [0x34] + raw)
            && (forall i :: 0 <= i < |bufs| ==> view[|before| + 1 + i] == Frame(true, 0x2, bufs[i]))
  {
    var ws := before + GroupWrites(raw, bufs);
    assert AsFrames(ws)[..|before|] == AsFrames(before);
    forall i | 0 <= i < |bufs|
      ensures AsFrames(ws)[|before| + 1 + i] == Frame(true, 0x2, bufs[i])
    {
      assert ws[|before| + 1 + i] == BufferWrites(bufs)[i];
    }
  }

  /** And what a client makes of it: after what was written before, a message frame and a frame for each buffer. */
  lemma {:induction false} ClientGetsPacket(cfg: Config, before: seq<Written>, p: Packet, bufs: seq<Bytes>)
    requires Send(cfg, false, p, bufs).err == None && Encode(p).Ok?
    requires AllSized(before + Send(cfg, false, p, bufs).writes)
    ensures var view := ClientView(ServerBytes(before + Send(cfg, false, p, bufs).writes));
            && |view| == |before| + 1 + |bufs|
            && view[..|before|] == AsFrames(before)
            && view[|before|] == Frame(true, 0x1, [0x34] + Encode(p).value)
            && (forall i :: 0 <= i < |bufs| ==> view[|before| + 1 + i] == Frame(true, 0x2, bufs[i]))
  {
    ClientSeesWrites(before + Send(cfg, false, p, bufs).writes);
    SendIsWholeIff(cfg, false, p, bufs);
    FramesOfGroup(before, Encode(p).value, bufs);
    hide Encode, Send, ClientView, ServerBytes, AsFrames, GroupWrites, AllSized;
  }

  // ----- the code -----

  class EngineSession {
    const tr: WSConn
    var closed: bool

    constructor (tr: WSConn)
      ensures this.tr == tr && !closed
    {
      this.tr := tr;
      closed := false;
    }

    method SendBuffers(bufs: seq<Bytes>) returns (err: Option<SendError>)
      requires tr.Valid()
      modifies tr.writer, tr`log
      ensures tr.Valid()
      ensures var n := FittingPrefix(tr.cfg, bufs);
              && err == (if n < |bufs| then Some(WriteFailed(PayloadTooLarge)) else None)
              && WritesOf(tr.log) == WritesOf(old(tr.log)) + BufferWrites(bufs[..n])
    {
      hide WritesOf, ServerBytes;
      ghost var n := FittingPrefix(tr.cfg, bufs);
      for i := 0 to |bufs|
        invariant i <= n && tr.Valid()
        invariant WritesOf(tr.log) == WritesOf(old(tr.log)) + BufferWrites(bufs[..i])
      {
        ghost var logi := tr.log;
        var failed := tr.WriteBinary(bufs[i]);
        if failed.Some? {
          assert tr.log == logi;
          return Some(WriteFailed(failed.value));
        }
        WritesStep(logi, OP_BINARY, bufs[i]);
        BufferWritesStep(bufs, i);
        AppendAssoc(WritesOf(old(tr.log)), BufferWrites(bufs[..i]), [Written(OP_BINARY, bufs[i])]);
      }
      err := None;
    }

    method SendPacket(p: Packet, bufs: seq<Bytes>) returns (err: Option<SendError>)
      requires tr.Valid()
      modifies tr.writer, tr`log
      ensures tr.Valid()
      ensures var r := Send(tr.cfg, closed, p, bufs);
              err == r.err && WritesOf(tr.log) == WritesOf(old(tr.log)) + r.writes
    {
      hide Encode;
      var enc := EncodePacket(p);
      if enc.Err? {
        return Some(NotEncodable(enc.error));
      }
      if closed {
        return Some(SessionClosed);
      }
      var text := [EIO_MESSAGE] + enc.value;
      var failed := tr.WriteText(text);
      if failed.Some? {
        assert old(tr.log) + [] == old(tr.log);
        return Some(WriteFailed(failed.value));
      }
      WritesStep(old(tr.log), OP_TEXT, text);
      err := SendBuffers(bufs);
      AppendAssoc(WritesOf(old(tr.log)), [Written(OP_TEXT, text)],
                  BufferWrites(bufs[..FittingPrefix(tr.cfg, bufs)]));
    }
  }

  lemma BufferWritesStep(bufs: seq<Bytes>, i: nat)
    requires i < |bufs|
    ensures BufferWrites(bufs[..i + 1]) == BufferWrites(bufs[..i]) + [Written(OP_BINARY, bufs[i])]
  {
  }

  lemma {:induction false} WritesStep(log: seq<Effect>, op: Opcode, p: Bytes)
    ensures WritesOf(log + [Sent(op, p)]) == WritesOf(log) + [Written(op, p)]
  {
    assert (log + [Sent(op, p)])[..|log|] == log;
  }

  // ----- many callers, one step per frame -----

  /** One call to send, with the buffers it was given. */
  datatype Call = Call(pkt: Packet, buffers: seq<Bytes>)

  /** Transports are numbered in the order they become current. */
  type Gen = nat

  /** A frame written to one of the transports. */
  datatype Routed = Routed(gen: Gen, frame: Written)

  /** What a call wrote, and the transport that was current when it got the lock. */
  datatype Record = Record(gen: Gen, writes: seq<Written>)

  /**
   * `wire` is every frame written so far, to any transport. `holder` is the goroutine that holds the
   * session lock, `left` what it still has to write, and `calls` every call that has got the lock, in order.
   */
  datatype Shared = Shared(wire: seq<Routed>, current: Gen, holder: Option<nat>, left: seq<Written>, closed: bool,
                           calls: seq<Record>)

  datatype Action =
    | Lock(thread: nat, call: Call)
    | WriteNext(thread: nat)
    | Unlock(thread: nat)
    | Background(gen: Gen, frame: Written)
    | Upgrade
    | CloseSession

  /** Pings, and the reader's replies: control frames and Engine.IO pongs. */
  predicate IsBackground(w: Written) {
    w.op >= 8 || (w.op == OP_TEXT && w.payload != [] && (w.payload[0] == EIO_PING || w.payload[0] == EIO_PONG))
  }

  /** The state after a step; None when the step is not possible. */
  function Step(cfg: Config, s: Shared, a: Action): Option<Shared> {
    match a
    case Lock(t, call) =>
      if s.holder != None then None
      else
        var ws := Send(cfg, s.closed, call.pkt, call.buffers).writes;
        Some(s.(holder := Some(t), left := ws, calls := s.calls + [Record(s.current, ws)]))
    case WriteNext(t) =>
      if s.holder != Some(t) || s.left == [] then None
      else Some(s.(wire := s.wire + [Routed(s.current, s.left[0])], left := s.left[1..]))
    case Unlock(t) =>
      if s.holder != Some(t) || s.left != [] then None else Some(s.(holder := None))
    case Background(g, w) =>
      if !IsBackground(w) then None else Some(s.(wire := s.wire + [Routed(g, w)]))
    case Upgrade => Some(s.(current := s.current + 1))
    case CloseSession => Some(s.(closed := true))
  }

  const QUIET: Shared := Shared([], 0, None, [], false, [])

  function Steps(cfg: Config, run: seq<Action>): Option<Shared> {
    if run == [] then Some(QUIET)
    else
      match Steps(cfg, run[..|run| - 1])
      case None => None
      case Some(s) => Step(cfg, s, run[|run| - 1])
  }

  /** The frames of the wire in order, whatever transport they went to, without background frames. */
  function Foreground(wire: seq<Routed>): seq<Written> {
    if wire == [] then []
    else
      var ws := Foreground(wire[..|wire| - 1]);
      var w := wire[|wire| - 1].frame;
      if IsBackground(w) then ws else ws + [w]
  }

  /** What went to one transport. */
  function On(wire: seq<Routed>, g: Gen): seq<Routed> {
    if wire == [] then []
    else
      var ws := On(wire[..|wire| - 1], g);
      var x := wire[|wire| - 1];
      if x.gen == g then ws + [x] else ws
  }

  function FramesTo(wire: seq<Routed>, g: Gen): seq<Written> {
    var ws := On(wire, g);
    seq(|ws|, i requires 0 <= i < |ws| => ws[i].frame)
  }

  /** The writes of all calls, one whole call after another. */
  function Join(calls: seq<Record>): seq<Written> {
    if calls == [] then [] else Join(calls[..|calls| - 1]) + calls[|calls| - 1].writes
  }

  function CallsOn(calls: seq<Record>, g: Gen): seq<Record> {
    if calls == [] then []
    else
      var cs := CallsOn(calls[..|calls| - 1], g);
      var c := calls[|calls| - 1];
      if c.gen == g then cs + [c] else cs
  }

  predicate NoBackground(ws: seq<Written>) {
    forall i :: 0 <= i < |ws| ==> !IsBackground(ws[i])
  }

  /** What is still to be written completes the wire to the calls so far, one whole call after another. */
  predicate Orderly(s: Shared) {
    && Foreground(s.wire) + s.left == Join(s.calls)
    && NoBackground(s.left)
    && (s.holder == None ==> s.left == [])
  }

  lemma {:induction false} SendIsForeground(cfg: Config, closed: bool, p: Packet, bufs: seq<Bytes>)
    ensures NoBackground(Send(cfg, closed, p, bufs).writes)
  {
    hide Encode;
  }

  lemma {:induction false} ForegroundStep(wire: seq<Routed>, x: Routed)
    ensures Foreground(wire + [x]) == Foreground(wire) + (if IsBackground(x.frame) then [] else [x.frame])
  {
    assert (wire + [x])[..|wire|] == wire;
  }

  lemma {:induction false} OnStep(wire: seq<Routed>, x: Routed, g: Gen)
    ensures On(wire + [x], g) == On(wire, g) + (if x.gen == g then [x] else [])
  {
    assert (wire + [x])[..|wire|] == wire;
  }

  lemma {:induction false} JoinStep(calls: seq<Record>, c: Record)
    ensures Join(calls + [c]) == Join(calls) + c.writes
  {
    assert (calls + [c])[..|calls|] == calls;
  }

  lemma {:induction false} CallsOnStep(calls: seq<Record>, c: Record, g: Gen)
    ensures CallsOn(calls + [c], g) == CallsOn(calls, g) + (if c.gen == g then [c] else [])
  {
    assert (calls + [c])[..|calls|] == calls;
  }

  lemma AppendNothing<T>(a: seq<T>)
    ensures a + [] == a
  {
  }

  lemma {:induction false} LockIsOrderly(s: Shared, t: nat, c: Record)
    requires Orderly(s) && s.holder == None && NoBackground(c.writes)
    ensures Orderly(s.(holder := Some(t), left := c.writes, calls := s.calls + [c]))
  {
    JoinStep(s.calls, c);
    AppendNothing(Foreground(s.wire));
    hide Foreground, Join, NoBackground;
  }

  lemma {:induction false} WriteIsOrderly(s: Shared)
    requires Orderly(s) && s.left != []
    ensures Orderly(s.(wire := s.wire + [Routed(s.current, s.left[0])], left := s.left[1..]))
  {
    ForegroundStep(s.wire, Routed(s.current, s.left[0]));
    hide Foreground, Join;
    assert [s.left[0]] + s.left[1..] == s.left;
    AppendAssoc(Foreground(s.wire), [s.left[0]], s.left[1..]);
  }

  lemma {:induction false} BackgroundIsOrderly(s: Shared, x: Routed)
    requires Orderly(s) && IsBackground(x.frame)
    ensures Orderly(s.(wire := s.wire + [x]))
  {
    ForegroundStep(s.wire, x);
    AppendNothing(Foreground(s.wire));
    hide Foreground, Join;
  }

  lemma {:induction false} StepIsOrderly(cfg: Config, s: Shared, a: Action)
    requires Orderly(s) && Step(cfg, s, a).Some?
    ensures Orderly(Step(cfg, s, a).value)
  {
    match a {
      case Lock(t, call) =>
        SendIsForeground(cfg, s.closed, call.pkt, call.buffers);
        LockIsOrderly(s, t, Record(s.current, Send(cfg, s.closed, call.pkt, call.buffers).writes));
      case WriteNext(_) => WriteIsOrderly(s);
      case Background(g, w) => BackgroundIsOrderly(s, Routed(g, w));
      case _ =>
    }
    hide Send, Foreground, Join, NoBackground;
  }

  lemma {:induction false} RunIsOrderly(cfg: Config, run: seq<Action>)
    requires Steps(cfg, run).Some?
    ensures Orderly(Steps(cfg, run).value)
  {
    hide Send;
    if run != [] {
      RunIsOrderly(cfg, run[..|run| - 1]);
      StepIsOrderly(cfg, Steps(cfg, run[..|run| - 1]).value, run[|run| - 1]);
    }
  }

  /** The pings and replies on the wire, with their transports. */
  function Replies(wire: seq<Routed>): seq<Routed> {
    if wire == [] then []
    else
      var ws, x := Replies(wire[..|wire| - 1]), wire[|wire| - 1];
      if IsBackground(x.frame) then ws + [x] else ws
  }

  /** The background writes of a run. */
  function BackgroundOf(run: seq<Action>): seq<Routed> {
    if run == [] then []
    else
      var before, a := BackgroundOf(run[..|run| - 1]), run[|run| - 1];
      if a.Background? then before + [Routed(a.gen, a.frame)] else before
  }

  lemma {:induction false} RepliesStep(wire: seq<Routed>, x: Routed)
    ensures Replies(wire + [x]) == Replies(wire) + (if IsBackground(x.frame) then [x] else [])
  {
    assert (wire + [x])[..|wire|] == wire;
  }

  /** Calls neither hold back nor reorder pings and replies: they are written at once, each to its transport. */
  lemma {:induction false} RepliesAreWritten(cfg: Config, run: seq<Action>)
    requires Steps(cfg, run).Some?
    ensures Replies(Steps(cfg, run).value.wire) == BackgroundOf(run)
  {
    hide Send;
    if run != [] {
      var before, a := run[..|run| - 1], run[|run| - 1];
      var s := Steps(cfg, before).value;
      RepliesAreWritten(cfg, before);
      RunIsOrderly(cfg, before);
      match a {
        case WriteNext(_) => RepliesStep(s.wire, Routed(s.current, s.left[0]));
        case Background(g, w) => RepliesStep(s.wire, Routed(g, w));
        case _ =>
      }
      hide Foreground, Join, Replies;
    }
  }

  // ----- what each call is -----

  /** No call got the lock with a buffer over the payload limit. */
  predicate AllWhole(cfg: Config, run: seq<Action>) {
    forall i :: 0 <= i < |run| ==> run[i].Lock? ==> AllFit(cfg, run[i].call.buffers)
  }

  predicate ClosedBy(run: seq<Action>) {
    exists i :: 0 <= i < |run| && run[i].CloseSession?
  }

  /** A call refused before it writes: it cannot be encoded, the session is closed, or its header is too long. */
  predicate Refused(cfg: Config, closed: bool, c: Call) {
    Encode(c.pkt).Err? || closed || TooLong(cfg, |Encode(c.pkt).value| + 1)
  }

  /** A call that got the lock, and whether the session was closed by then. */
  datatype Locked = Locked(call: Call, closed: bool)

  function Locks(run: seq<Action>): seq<Locked> {
    if run == [] then []
    else
      var before, a := run[..|run| - 1], run[|run| - 1];
      if a.Lock? then Locks(before) + [Locked(a.call, ClosedBy(before))] else Locks(before)
  }

  function WholeGroup(cfg: Config, l: Locked): seq<Written> {
    if Refused(cfg, l.closed, l.call) then [] else GroupWrites(Encode(l.call.pkt).value, l.call.buffers)
  }

  /** The calls wrote, in the order of the lock, nothing if they were refused and else their whole group. */
  predicate GroupsOf(cfg: Config, run: seq<Action>, calls: seq<Record>) {
    var ls := Locks(run);
    |calls| == |ls| && forall i :: 0 <= i < |calls| ==> calls[i].writes == WholeGroup(cfg, ls[i])
  }

  lemma {:induction false} WholeOrRefused(cfg: Config, closed: bool, c: Call)
    requires AllFit(cfg, c.buffers)
    ensures Send(cfg, closed, c.pkt, c.buffers).writes == WholeGroup(cfg, Locked(c, closed))
  {
    hide Encode;
    if Encode(c.pkt).Ok? {
      SendIsWholeIff(cfg, closed, c.pkt, c.buffers);
    }
  }

  lemma {:induction false} ClosedStep(run: seq<Action>)
    requires run != []
    ensures ClosedBy(run) <==> ClosedBy(run[..|run| - 1]) || run[|run| - 1].CloseSession?
  {
    var before := run[..|run| - 1];
    if ClosedBy(before) {
      var i :| 0 <= i < |before| && before[i].CloseSession?;
      assert run[i].CloseSession?;
    }
    if ClosedBy(run) {
      var i :| 0 <= i < |run| && run[i].CloseSession?;
      assert i < |before| ==> before[i].CloseSession?;
    }
  }

  lemma {:induction false} RunGroups(cfg: Config, run: seq<Action>)
    requires Steps(cfg, run).Some? && AllWhole(cfg, run)
    ensures var s := Steps(cfg, run).value;
            GroupsOf(cfg, run, s.calls) && (s.closed <==> ClosedBy(run))
  {
    hide Encode, Send, WholeGroup;
    if run != [] {
      var before, a := run[..|run| - 1], run[|run| - 1];
      assert AllWhole(cfg, before) by {
        assert forall i :: 0 <= i < |before| ==> before[i] == run[i];
      }
      RunGroups(cfg, before);
      ClosedStep(run);
      hide ClosedBy;
      if a.Lock? {
        WholeOrRefused(cfg, Steps(cfg, before).value.closed, a.call);
      }
    }
  }

  /**
   * However calls, background writes and upgrades interleave, when no call is in progress the frames
   * written are, but for pings and replies, one whole group after another: each header followed by exactly
   * its buffers, and nothing for a call that was refused. A client finds on each transport what was
   * written to it.
   */
  lemma {:induction false} PacketsAreAtomic(cfg: Config, run: seq<Action>)
    requires Steps(cfg, run).Some? && AllWhole(cfg, run)
    ensures var s := Steps(cfg, run).value;
            && GroupsOf(cfg, run, s.calls)
            && (s.holder == None ==> Foreground(s.wire) == Join(s.calls))
            && Foreground(s.wire) <= Join(s.calls)
            && (forall g :: AllSized(FramesTo(s.wire, g)) ==>
                  ClientView(ServerBytes(FramesTo(s.wire, g))) == AsFrames(FramesTo(s.wire, g)))
  {
    hide Encode, Send;
    var s := Steps(cfg, run).value;
    RunIsOrderly(cfg, run);
    RunGroups(cfg, run);
    AppendNothing(Foreground(s.wire));
    forall g | AllSized(FramesTo(s.wire, g))
      ensures ClientView(ServerBytes(FramesTo(s.wire, g))) == AsFrames(FramesTo(s.wire, g))
    {
      ClientSeesWrites(FramesTo(s.wire, g));
    }
  }

  // ----- upgrades -----

  /** The call in progress has written its header and still has a buffer to write. */
  predicate Midway(s: Shared) {
    s.left != [] && s.left[0].op == OP_BINARY
  }

  /** No upgrade takes effect between the header of a group and its last buffer. */
  predicate NeverMidway(cfg: Config, run: seq<Action>) {
    forall k :: 0 <= k < |run| && run[k].Upgrade? && Steps(cfg, run[..k]).Some? ==>
      !Midway(Steps(cfg, run[..k]).value)
  }

  /** A header, then buffers; or nothing. */
  predicate IsGroup(ws: seq<Written>) {
    ws != [] ==> ws[0].op == OP_TEXT && forall i :: 0 < i < |ws| ==> ws[i].op == OP_BINARY
  }

  /** `recs` are the calls, each with one transport that may be another than it found current. */
  predicate Assigns(recs: seq<Record>, calls: seq<Record>) {
    |recs| == |calls| && forall i :: 0 <= i < |calls| ==> recs[i].writes == calls[i].writes
  }

  /** Each transport has the calls assigned to it, one whole call after another. */
  ghost predicate WholeOn(s: Shared, recs: seq<Record>) {
    && Assigns(recs, s.calls)
    && forall g :: Foreground(On(s.wire, g)) == Join(CallsOn(recs, g))
  }

  // ----- what is left of a call -----

  /** What is left to write is the end of the last call: all of it, or some of its buffers. */
  predicate LeftOfLast(s: Shared) {
    && (forall i :: 0 <= i < |s.calls| ==> IsGroup(s.calls[i].writes))
    && (s.left != [] ==>
          && s.calls != []
          && (Midway(s) || s.left == s.calls[|s.calls| - 1].writes)
          && (forall i :: 0 < i < |s.left| ==> s.left[i].op == OP_BINARY))
  }

  lemma {:induction false} CallIsGroup(cfg: Config, closed: bool, c: Call)
    ensures IsGroup(Send(cfg, closed, c.pkt, c.buffers).writes)
  {
    hide Encode;
  }

  lemma {:induction false} RunLeaves(cfg: Config, run: seq<Action>)
    requires Steps(cfg, run).Some?
    ensures LeftOfLast(Steps(cfg, run).value)
  {
    hide Send;
    if run != [] {
      RunLeaves(cfg, run[..|run| - 1]);
      RunIsOrderly(cfg, run[..|run| - 1]);
      StepLeaves(cfg, Steps(cfg, run[..|run| - 1]).value, run[|run| - 1]);
    }
  }

  lemma {:induction false} StepLeaves(cfg: Config, s: Shared, a: Action)
    requires LeftOfLast(s) && Orderly(s) && Step(cfg, s, a).Some?
    ensures LeftOfLast(Step(cfg, s, a).value)
  {
    hide Foreground, Join;
    if a.Lock? {
      CallIsGroup(cfg, s.closed, a.call);
    }
    hide Send;
  }

  // ----- no upgrade midway: whole groups on each transport -----

  /** The transports have the calls assigned to them, but for what is left of the last one. */
  ghost predicate WholeBut(s: Shared, recs: seq<Record>) {
    && Assigns(recs, s.calls)
    && (s.left != [] ==> recs != [] && recs[|recs| - 1].gen == s.current)
    && forall g :: PartlyOn(s, recs, g)
  }

  predicate PartlyOn(s: Shared, recs: seq<Record>, g: Gen) {
    Foreground(On(s.wire, g)) + (if g == s.current then s.left else []) == Join(CallsOn(recs, g))
  }

  lemma {:induction false} LockIsWhole(s: Shared, t: nat, c: Record, recs: seq<Record>, g: Gen)
    requires PartlyOn(s, recs, g) && s.left == [] && c.gen == s.current
    ensures PartlyOn(s.(holder := Some(t), left := c.writes, calls := s.calls + [c]), recs + [c], g)
  {
    CallsOnStep(recs, c, g);
    JoinStep(CallsOn(recs, g), c);
    AppendNothing(CallsOn(recs, g));
    AppendNothing(Foreground(On(s.wire, g)));
    hide Foreground, Join, On, CallsOn;
  }

  lemma {:induction false} WriteIsWhole(s: Shared, recs: seq<Record>, g: Gen)
    requires PartlyOn(s, recs, g) && s.left != [] && !IsBackground(s.left[0])
    ensures PartlyOn(s.(wire := s.wire + [Routed(s.current, s.left[0])], left := s.left[1..]), recs, g)
  {
    var x := Routed(s.current, s.left[0]);
    OnStep(s.wire, x, g);
    AppendNothing(On(s.wire, g));
    ForegroundStep(On(s.wire, g), x);
    AppendAssoc(Foreground(On(s.wire, g)), [s.left[0]], s.left[1..]);
    assert [s.left[0]] + s.left[1..] == s.left;
    hide Foreground, Join, On, CallsOn;
  }

  lemma {:induction false} BackgroundIsWhole(s: Shared, x: Routed, recs: seq<Record>, g: Gen)
    requires PartlyOn(s, recs, g) && IsBackground(x.frame)
    ensures PartlyOn(s.(wire := s.wire + [x]), recs, g)
  {
    OnStep(s.wire, x, g);
    AppendNothing(On(s.wire, g));
    ForegroundStep(On(s.wire, g), x);
    AppendNothing(Foreground(On(s.wire, g)));
    hide Foreground, Join, On, CallsOn;
  }

  /** The last call moves to the new transport if it has not been started. */
  function Moved(s: Shared, recs: seq<Record>): seq<Record> {
    if s.left == [] || recs == [] then recs
    else recs[..|recs| - 1] + [recs[|recs| - 1].(gen := s.current + 1)]
  }

  lemma SameEnd<T>(a: seq<T>, b: seq<T>, c: seq<T>)
    requires a + c == b + c
    ensures a == b
  {
    assert a == (a + c)[..|a|] && b == (b + c)[..|b|];
  }

  lemma {:induction false} UpgradeIsWhole(s: Shared, recs: seq<Record>, g: Gen)
    requires PartlyOn(s, recs, g)
    requires s.left != [] ==>
               recs != [] && recs[|recs| - 1].gen == s.current && s.left == recs[|recs| - 1].writes
    ensures PartlyOn(s.(current := s.current + 1), Moved(s, recs), g)
  {
    AppendNothing(Foreground(On(s.wire, g)));
    if s.left != [] {
      var n := |recs| - 1;
      assert recs == recs[..n] + [recs[n]];
      UnstartedMoves(s, recs[..n], recs[n], g);
    }
    hide Foreground, Join, On, CallsOn;
  }

  /** A call that has written nothing can as well be on the next transport. */
  lemma {:induction false} UnstartedMoves(s: Shared, before: seq<Record>, last: Record, g: Gen)
    requires PartlyOn(s, before + [last], g) && last.gen == s.current && s.left == last.writes
    ensures PartlyOn(s.(current := s.current + 1), before + [last.(gen := s.current + 1)], g)
  {
    var moved := last.(gen := s.current + 1);
    var fs, cs := Foreground(On(s.wire, g)), CallsOn(before, g);
    AppendNothing(fs);
    AppendNothing(cs);
    CallsOnStep(before, last, g);
    CallsOnStep(before, moved, g);
    JoinStep(cs, last);
    JoinStep(cs, moved);
    hide Foreground, Join, On, CallsOn;
    if g == s.current {
      SameEnd(fs, Join(cs), s.left);
    }
  }

  /** How one step that is no upgrade midway changes the assignment. */
  function Reassigned(cfg: Config, s: Shared, recs: seq<Record>, a: Action): seq<Record> {
    match a
    case Lock(_, call) => recs + [Record(s.current, Send(cfg, s.closed, call.pkt, call.buffers).writes)]
    case Upgrade => Moved(s, recs)
    case _ => recs
  }

  lemma {:induction false} StepIsPartlyOn(cfg: Config, s: Shared, recs: seq<Record>, a: Action, g: Gen)
    requires WholeBut(s, recs) && LeftOfLast(s) && Orderly(s) && Step(cfg, s, a).Some?
    requires a.Upgrade? ==> !Midway(s)
    ensures PartlyOn(Step(cfg, s, a).value, Reassigned(cfg, s, recs, a), g)
  {
    hide Send, PartlyOn, Foreground, Join;
    match a {
      case Lock(t, call) =>
        LockIsWhole(s, t, Record(s.current, Send(cfg, s.closed, call.pkt, call.buffers).writes), recs, g);
      case WriteNext(_) => WriteIsWhole(s, recs, g);
      case Background(h, w) => BackgroundIsWhole(s, Routed(h, w), recs, g);
      case Upgrade => UpgradeIsWhole(s, recs, g);
      case Unlock(_) => SamePartly(s, s.(holder := None), recs, g);
      case CloseSession => SamePartly(s, s.(closed := true), recs, g);
    }
  }

  lemma SamePartly(s: Shared, s': Shared, recs: seq<Record>, g: Gen)
    requires PartlyOn(s, recs, g) && s'.wire == s.wire && s'.current == s.current && s'.left == s.left
    ensures PartlyOn(s', recs, g)
  {
  }

  lemma {:induction false} StepIsWholeBut(cfg: Config, s: Shared, recs: seq<Record>, a: Action)
    requires WholeBut(s, recs) && LeftOfLast(s) && Orderly(s) && Step(cfg, s, a).Some?
    requires a.Upgrade? ==> !Midway(s)
    ensures WholeBut(Step(cfg, s, a).value, Reassigned(cfg, s, recs, a))
  {
    hide Send, PartlyOn, Foreground, Join;
    forall g
      ensures PartlyOn(Step(cfg, s, a).value, Reassigned(cfg, s, recs, a), g)
    {
      StepIsPartlyOn(cfg, s, recs, a, g);
    }
  }

  lemma {:induction false} RunIsWholeBut(cfg: Config, run: seq<Action>) returns (recs: seq<Record>)
    requires Steps(cfg, run).Some? && NeverMidway(cfg, run)
    ensures WholeBut(Steps(cfg, run).value, recs)
  {
    hide Send, Step, WholeBut, Midway;
    if run == [] {
      recs := [];
      NothingSent();
    } else {
      var before, a := run[..|run| - 1], run[|run| - 1];
      assert forall k :: 0 <= k < |before| ==> before[..k] == run[..k] && before[k] == run[k];
      recs := RunIsWholeBut(cfg, before);
      RunIsOrderly(cfg, before);
      RunLeaves(cfg, before);
      var s := Steps(cfg, before).value;
      assert a.Upgrade? ==> !Midway(s) by {
        assert run[..|run| - 1] == before;
      }
      StepIsWholeBut(cfg, s, recs, a);
      recs := Reassigned(cfg, s, recs, a);
    }
  }

  lemma NothingSent()
    ensures WholeBut(QUIET, [])
  {
  }

  // ----- an upgrade midway: a transport that starts with a buffer -----

  predicate StartsWithBuffer(wire: seq<Routed>, g: Gen) {
    var ws := Foreground(On(wire, g));
    ws != [] && ws[0].op == OP_BINARY
  }

  /** Nothing has been written to a transport that is not current yet. */
  ghost predicate FreshAbove(s: Shared) {
    forall g :: g > s.current ==> Foreground(On(s.wire, g)) == []
  }

  /** A group is split, or will be by the next frame, which is the first on its transport. */
  ghost predicate Split(s: Shared) {
    || (exists g :: StartsWithBuffer(s.wire, g))
    || (Midway(s) && Foreground(On(s.wire, s.current)) == [])
  }

  /** What one more frame makes of the foreground of a transport. */
  lemma {:induction false} FrameAdds(wire: seq<Routed>, x: Routed, g: Gen)
    ensures Foreground(On(wire + [x], g)) ==
            Foreground(On(wire, g)) + if x.gen == g && !IsBackground(x.frame) then [x.frame] else []
  {
    OnStep(wire, x, g);
    AppendNothing(On(wire, g));
    ForegroundStep(On(wire, g), x);
    AppendNothing(Foreground(On(wire, g)));
    hide Foreground, On;
  }

  lemma {:induction false} StepKeepsFresh(cfg: Config, s: Shared, a: Action)
    requires FreshAbove(s) && Step(cfg, s, a).Some?
    ensures FreshAbove(Step(cfg, s, a).value)
  {
    hide Send, Foreground, On;
    var s' := Step(cfg, s, a).value;
    forall g | g > s'.current
      ensures Foreground(On(s'.wire, g)) == []
    {
      if a.WriteNext? {
        FrameAdds(s.wire, Routed(s.current, s.left[0]), g);
      } else if a.Background? {
        FrameAdds(s.wire, Routed(a.gen, a.frame), g);
      }
    }
  }

  lemma {:induction false} StepKeepsSplit(cfg: Config, s: Shared, a: Action)
    requires Split(s) && FreshAbove(s) && Orderly(s) && Step(cfg, s, a).Some?
    ensures Split(Step(cfg, s, a).value)
  {
    hide Send, Foreground, On, Join;
    var s' := Step(cfg, s, a).value;
    if g :| StartsWithBuffer(s.wire, g) {
      if a.WriteNext? {
        FrameAdds(s.wire, Routed(s.current, s.left[0]), g);
      } else if a.Background? {
        FrameAdds(s.wire, Routed(a.gen, a.frame), g);
      }
      assert StartsWithBuffer(s'.wire, g);
    } else if a.WriteNext? {
      FrameAdds(s.wire, Routed(s.current, s.left[0]), s.current);
      assert StartsWithBuffer(s'.wire, s.current);
    } else if a.Background? {
      FrameAdds(s.wire, Routed(a.gen, a.frame), s.current);
    }
  }

  lemma {:induction false} RunKeepsSplit(cfg: Config, run: seq<Action>)
    requires Steps(cfg, run).Some?
    ensures FreshAbove(Steps(cfg, run).value)
    ensures !NeverMidway(cfg, run) ==> Split(Steps(cfg, run).value)
  {
    hide Send, Step, Split, FreshAbove, Midway;
    if run == [] {
      NothingFresh();
    } else {
      var before, a := run[..|run| - 1], run[|run| - 1];
      var s := Steps(cfg, before).value;
      RunKeepsSplit(cfg, before);
      RunIsOrderly(cfg, before);
      StepKeepsFresh(cfg, s, a);
      if !NeverMidway(cfg, before) {
        StepKeepsSplit(cfg, s, a);
      } else if !NeverMidway(cfg, run) {
        LastIsMidway(cfg, run);
        UpgradeSplits(cfg, s);
      }
    }
  }

  lemma NothingFresh()
    ensures FreshAbove(QUIET)
  {
  }

  lemma {:induction false} LastIsMidway(cfg: Config, run: seq<Action>)
    requires run != [] && !NeverMidway(cfg, run)
    ensures var before := run[..|run| - 1];
            || !NeverMidway(cfg, before)
            || (run[|run| - 1].Upgrade? && Steps(cfg, before).Some? && Midway(Steps(cfg, before).value))
  {
    hide Step, Midway;
    var before := run[..|run| - 1];
    var k :| 0 <= k < |run| && run[k].Upgrade? && Steps(cfg, run[..k]).Some? && Midway(Steps(cfg, run[..k]).value);
    if k < |before| {
      assert before[..k] == run[..k] && before[k] == run[k];
    }
  }

  lemma UpgradeSplits(cfg: Config, s: Shared)
    requires Midway(s) && FreshAbove(s)
    ensures Step(cfg, s, Upgrade).Some? && Split(Step(cfg, s, Upgrade).value)
  {
    hide Send, Foreground, On;
  }

  lemma {:induction false} JoinStarts(recs: seq<Record>)
    requires forall i :: 0 <= i < |recs| ==> IsGroup(recs[i].writes)
    ensures Join(recs) != [] ==> Join(recs)[0].op == OP_TEXT
  {
    if recs != [] {
      JoinStarts(recs[..|recs| - 1]);
    }
  }

  lemma {:induction false} CallsOnAreCalls(recs: seq<Record>, g: Gen)
    ensures forall c :: c in CallsOn(recs, g) ==> c in recs
  {
    if recs != [] {
      CallsOnAreCalls(recs[..|recs| - 1], g);
    }
  }

  lemma {:induction false} BufferFirstIsNotWhole(s: Shared, recs: seq<Record>, g: Gen)
    requires LeftOfLast(s) && StartsWithBuffer(s.wire, g)
    ensures !WholeOn(s, recs)
  {
    if WholeOn(s, recs) {
      CallsOnAreCalls(recs, g);
      var cs := CallsOn(recs, g);
      forall i | 0 <= i < |cs|
        ensures IsGroup(cs[i].writes)
      {
        assert cs[i] in recs;
      }
      JoinStarts(cs);
    }
  }

  // ----- exactly when each transport has whole groups -----

  /**
   * When no call is in progress, the calls can be assigned to transports so that each transport carries,
   * but for pings and replies, the whole groups assigned to it, in the order of the lock, if and only if no
   * upgrade came between the header of a group and its last buffer.
   */
  lemma {:induction false} TransportsAreWholeIff(cfg: Config, run: seq<Action>)
    requires Steps(cfg, run).Some? && Steps(cfg, run).value.holder == None
    ensures (exists recs :: WholeOn(Steps(cfg, run).value, recs)) <==> NeverMidway(cfg, run)
  {
    var s := Steps(cfg, run).value;
    RunIsOrderly(cfg, run);
    hide Steps, Foreground, Join, On, CallsOn;
    if NeverMidway(cfg, run) {
      var recs := RunIsWholeBut(cfg, run);
      forall g
        ensures Foreground(On(s.wire, g)) == Join(CallsOn(recs, g))
      {
        assert PartlyOn(s, recs, g);
        AppendNothing(Foreground(On(s.wire, g)));
      }
      assert WholeOn(s, recs);
    } else {
      RunKeepsSplit(cfg, run);
      RunLeaves(cfg, run);
      var g :| StartsWithBuffer(s.wire, g);
      forall recs
        ensures !WholeOn(s, recs)
      {
        BufferFirstIsNotWhole(s, recs, g);
      }
    }
  }

  /** And these are the whole groups of the calls that were not refused. */
  lemma {:induction false} EachTransportIsWhole(cfg: Config, run: seq<Action>) returns (recs: seq<Record>)
    requires Steps(cfg, run).Some? && AllWhole(cfg, run) && NeverMidway(cfg, run)
    ensures var s := Steps(cfg, run).value;
            && GroupsOf(cfg, run, recs)
            && (forall g :: Foreground(On(s.wire, g)) <= Join(CallsOn(recs, g)))
            && (s.holder == None ==> WholeOn(s, recs))
  {
    var s := Steps(cfg, run).value;
    recs := RunIsWholeBut(cfg, run);
    RunIsOrderly(cfg, run);
    RunGroups(cfg, run);
    hide Steps, Foreground, Join, On, CallsOn, AllWhole, NeverMidway, WholeGroup, Locks;
    forall g
      ensures Foreground(On(s.wire, g)) <= Join(CallsOn(recs, g))
      ensures s.left == [] ==> Foreground(On(s.wire, g)) == Join(CallsOn(recs, g))
    {
      assert PartlyOn(s, recs, g);
      AppendNothing(Foreground(On(s.wire, g)));
    }
  }

  lemma {:induction false} RunThen(cfg: Config, run: seq<Action>, a: Action)
    requires Steps(cfg, run).Some?
    ensures Steps(cfg, run + [a]) == Step(cfg, Steps(cfg, run).value, a)
  {
    assert (run + [a])[..|run|] == run;
  }

  /** The rest of a call, written to the current transport. */
  function RestOf(ws: seq<Written>, g: Gen): seq<Routed> {
    seq(|ws|, i requires 0 <= i < |ws| => Routed(g, ws[i]))
  }

  lemma {:induction false} WriteRest(cfg: Config, run: seq<Action>, n: nat) returns (longer: seq<Action>)
    requires Steps(cfg, run).Some? && Steps(cfg, run).value.holder == Some(0)
    requires n <= |Steps(cfg, run).value.left|
    ensures Steps(cfg, longer).Some? && Steps(cfg, longer).value.holder == Some(0)
    ensures var s, s' := Steps(cfg, run).value, Steps(cfg, longer).value;
            && s'.left == s.left[n..] && s'.wire == s.wire + RestOf(s.left[..n], s.current)
            && s'.current == s.current
  {
    hide Send;
    longer := run;
    var s := Steps(cfg, run).value;
    if n == 0 {
      assert s.wire + RestOf(s.left[..0], s.current) == s.wire;
    } else {
      var before := WriteRest(cfg, run, n - 1);
      RunThen(cfg, before, WriteNext(0));
      longer := before + [WriteNext(0)];
      assert RestOf(s.left[..n], s.current) ==
             RestOf(s.left[..n - 1], s.current) + [Routed(s.current, s.left[n - 1])];
    }
    hide Steps;
  }

  /** Any call that is not refused and has a buffer can be split: its header on one transport, the rest on the next. */
  lemma {:induction false} UpgradeCanSplit(cfg: Config, c: Call) returns (run: seq<Action>)
    requires !Refused(cfg, false, c) && AllFit(cfg, c.buffers) && c.buffers != []
    ensures Steps(cfg, run).Some? && Steps(cfg, run).value.holder == None
    ensures var ws := GroupWrites(Encode(c.pkt).value, c.buffers);
            Steps(cfg, run).value.wire == [Routed(0, ws[0])] + RestOf(ws[1..], 1)
  {
    WholeOrRefused(cfg, false, c);
    hide Encode, Refused, Send;
    var ws := GroupWrites(Encode(c.pkt).value, c.buffers);
    hide GroupWrites;
    var locked := [] + [Lock(0, c)];
    RunThen(cfg, [], Lock(0, c));
    var s1 := Steps(cfg, locked).value;
    assert s1.left == ws && s1.wire == [] && s1.current == 0 && s1.holder == Some(0);
    RunThen(cfg, locked, WriteNext(0));
    RunThen(cfg, locked + [WriteNext(0)], Upgrade);
    var upgraded := locked + [WriteNext(0)] + [Upgrade];
    var s3 := Steps(cfg, upgraded).value;
    assert s3.left == ws[1..] && s3.wire == [Routed(0, ws[0])] && s3.current == 1 && s3.holder == Some(0);
    run := WriteRest(cfg, upgraded, |ws| - 1);
    assert ws[1..][..|ws| - 1] == ws[1..];
    RunThen(cfg, run, Unlock(0));
    run := run + [Unlock(0)];
    hide Steps;
  }
}
