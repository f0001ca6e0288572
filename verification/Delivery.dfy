/**
 * The whole receive path: client bytes, through frames, messages, Engine.IO stripping and the session
 * loop, come out as exactly the packets that were sent, with their buffers.
 */
module Delivery {
  import opened Options
  import opened ByteSeqs
  import opened Frames
  import opened Messages
  import opened Packets
  import opened Sessions

  /** A packet with its binary buffers. */
  datatype Group = Group(pkt: Packet, buffers: seq<Bytes>)

  function Text(p: Packet): Bytes {
    var r := Encode(p);
    if r.Ok? then r.value else []
  }

  /** A group a client may send: readable, complete, valid text, and within the limits. */
  predicate Good(j: Json, cfg: Config, g: Group) {
    var text := Text(g.pkt);
    && Encode(g.pkt).Ok? && Readable(j, g.pkt, text)
    && (if IsBinary(g.pkt.typ) then |g.buffers| == g.pkt.attachments <= MAX_SESSION_ATTACHMENTS else g.buffers == [])
    && (cfg.checkUtf8 ==> cfg.utf8([EIO_MESSAGE] + text))
    && !TooLong(cfg, |text| + 1)
    && (forall i :: 0 <= i < |g.buffers| ==> !TooLong(cfg, |g.buffers[i]|))
  }

  function BufferMessages(bufs: seq<Bytes>): seq<Message> {
    seq(|bufs|, i requires 0 <= i < |bufs| => Message(OP_BINARY, bufs[i]))
  }

  /** The WebSocket messages that carry a group, and what is left of them after stripping. */
  function WireMessages(g: Group): seq<Message> {
    [Message(OP_TEXT, [EIO_MESSAGE] + Text(g.pkt))] + BufferMessages(g.buffers)
  }

  function PlainMessages(g: Group): seq<Message> {
    [Message(OP_TEXT, Text(g.pkt))] + BufferMessages(g.buffers)
  }

  function AllWireMessages(gs: seq<Group>): seq<Message> {
    if gs == [] then [] else WireMessages(gs[0]) + AllWireMessages(gs[1..])
  }

  function AllPlainMessages(gs: seq<Group>): seq<Message> {
    if gs == [] then [] else PlainMessages(gs[0]) + AllPlainMessages(gs[1..])
  }

  // ----- messages through the reader -----

  /** A message that reading either drops (an Engine.IO ping, pong or noop) or delivers. */
  predicate Passes(cfg: Config, m: Message) {
    && (m.op == OP_TEXT || m.op == OP_BINARY)
    && !TooLong(cfg, |m.raw|)
    && (Finish(cfg, m.op, m.raw).Go? || Finish(cfg, m.op, m.raw).out.err == None)
  }

  predicate IsNoise(cfg: Config, m: Message) {
    Finish(cfg, m.op, m.raw).Go?
  }

  function WithoutNoise(cfg: Config, ms: seq<Message>): seq<Message> {
    if ms == [] then []
    else if IsNoise(cfg, ms[0]) then WithoutNoise(cfg, ms[1..])
    else [ms[0]] + WithoutNoise(cfg, ms[1..])
  }

  function StripOne(cfg: Config, m: Message): Message {
    var o := Finish(cfg, m.op, m.raw);
    if o.Go? then m else Message(o.out.op, o.out.msg)
  }

  function StripAll(cfg: Config, ms: seq<Message>): seq<Message> {
    if ms == [] then [] else [StripOne(cfg, ms[0])] + StripAll(cfg, ms[1..])
  }

  function Flatten(blocks: seq<seq<Frame>>): seq<Frame> {
    if blocks == [] then [] else blocks[0] + Flatten(blocks[1..])
  }

  ghost predicate CarriesAll(blocks: seq<seq<Frame>>, ms: seq<Message>) {
    && |blocks| == |ms|
    && forall i :: 0 <= i < |ms| ==> CarriesMessage(blocks[i], ms[i].op, ms[i].raw)
  }

  lemma {:induction false} DeliveredOnce(cfg: Config, m: Message, block: seq<Frame>, rest: seq<Frame>, end: Error)
    requires Passes(cfg, m) && CarriesMessage(block, m.op, m.raw) && AllKnown(rest)
    ensures Delivered(cfg, Stream(block + rest, end)) ==
            (if IsNoise(cfg, m) then [] else [StripOne(cfg, m)]) + Delivered(cfg, Stream(rest, end))
  {
    hide Read, Finish, CarriesMessage;
    ReadCarried(cfg, block, m.op, m.raw, rest, end);
  }

  lemma {:induction false} FlattenKnown(blocks: seq<seq<Frame>>, ms: seq<Message>)
    requires CarriesAll(blocks, ms)
    ensures AllKnown(Flatten(blocks))
  {
    if blocks != [] {
      FlattenKnown(blocks[1..], ms[1..]);
      assert CarriesMessage(blocks[0], ms[0].op, ms[0].raw);
    }
  }

  /** Reading on delivers each message in turn, stripped, and drops the noise. */
  lemma {:induction false} DeliveredAll(cfg: Config, ms: seq<Message>, blocks: seq<seq<Frame>>,
                                        rest: seq<Frame>, end: Error)
    requires (forall m :: m in ms ==> Passes(cfg, m)) && CarriesAll(blocks, ms) && AllKnown(rest)
    ensures Delivered(cfg, Stream(Flatten(blocks) + rest, end)) ==
            StripAll(cfg, WithoutNoise(cfg, ms)) + Delivered(cfg, Stream(rest, end))
  {
    hide Passes, IsNoise, StripOne, Delivered, CarriesMessage;
    if ms == [] {
      assert Flatten(blocks) + rest == rest;
    } else {
      var later := Flatten(blocks[1..]) + rest;
      AppendAssoc(blocks[0], Flatten(blocks[1..]), rest);
      assert forall i :: 0 <= i < |ms[1..]| ==> ms[1..][i] == ms[i + 1] && blocks[1..][i] == blocks[i + 1];
      FlattenKnown(blocks[1..], ms[1..]);
      DeliveredOnce(cfg, ms[0], blocks[0], later, end);
      DeliveredAll(cfg, ms[1..], blocks[1..], rest, end);
      if !IsNoise(cfg, ms[0]) {
        var ws := WithoutNoise(cfg, ms[1..]);
        assert ([ms[0]] + ws)[1..] == ws;
        AppendAssoc([StripOne(cfg, ms[0])], StripAll(cfg, ws), Delivered(cfg, Stream(rest, end)));
      }
    }
  }

  // ----- the messages of groups -----

  lemma {:induction false} TextIsStripped(j: Json, cfg: Config, g: Group)
    requires Good(j, cfg, g)
    ensures var m := WireMessages(g)[0];
            Passes(cfg, m) && StripOne(cfg, m) == PlainMessages(g)[0]
  {
    hide Readable;
    var text := Text(g.pkt);
    assert text != [] by { EncodedText(g.pkt, text); }
    assert ([EIO_MESSAGE] + text)[1..] == text;
    hide Encode;
  }

  lemma {:induction false} StripAppend(cfg: Config, a: seq<Message>, b: seq<Message>)
    ensures StripAll(cfg, a + b) == StripAll(cfg, a) + StripAll(cfg, b)
  {
    hide StripOne;
    if a == [] {
      assert a + b == b;
    } else {
      StripAppend(cfg, a[1..], b);
      assert (a + b)[1..] == a[1..] + b;
      AppendAssoc([StripOne(cfg, a[0])], StripAll(cfg, a[1..]), StripAll(cfg, b));
    }
  }

  lemma {:induction false} BuffersPassThrough(cfg: Config, bufs: seq<Bytes>)
    ensures StripAll(cfg, BufferMessages(bufs)) == BufferMessages(bufs)
  {
    if bufs != [] {
      assert BufferMessages(bufs)[1..] == BufferMessages(bufs[1..]);
      BuffersPassThrough(cfg, bufs[1..]);
      assert BufferMessages(bufs) == [Message(OP_BINARY, bufs[0])] + BufferMessages(bufs[1..]);
    }
  }

  lemma {:induction false} GroupsStripped(j: Json, cfg: Config, gs: seq<Group>)
    requires forall g :: g in gs ==> Good(j, cfg, g)
    ensures StripAll(cfg, AllWireMessages(gs)) == AllPlainMessages(gs)
  {
    hide Good, StripOne, Text;
    if gs != [] {
      var g := gs[0];
      TextIsStripped(j, cfg, g);
      BuffersPassThrough(cfg, g.buffers);
      StripAppend(cfg, WireMessages(g), AllWireMessages(gs[1..]));
      assert WireMessages(g)[1..] == BufferMessages(g.buffers);
      GroupsStripped(j, cfg, gs[1..]);
    }
  }

  // ----- the messages of groups through the session loop -----

  const CONNECTED: LoopState := LoopState(true, None)

  function DispatchOf(g: Group): Dispatch {
    Dispatch(Normalized(g.pkt), g.buffers)
  }

  function DispatchesOf(gs: seq<Group>): seq<Dispatch> {
    if gs == [] then [] else [DispatchOf(gs[0])] + DispatchesOf(gs[1..])
  }

  /** The remaining buffers of a pending packet complete it. */
  lemma {:induction false} RunBuffers(j: Json, p: Packet, have: seq<Bytes>, bufs: seq<Bytes>, later: seq<Message>)
    requires bufs != [] && |have| + |bufs| == p.attachments
    ensures Run(j, LoopState(true, Some(Pending(p, have))), BufferMessages(bufs) + later) ==
            [Dispatch(p, have + bufs)] + Run(j, CONNECTED, later)
    decreases |bufs|
  {
    hide Run, OnMessage;
    var s, m := LoopState(true, Some(Pending(p, have))), Message(OP_BINARY, bufs[0]);
    var rest := BufferMessages(bufs[1..]) + later;
    assert BufferMessages(bufs) + later == [m] + rest;
    RunOnce(j, s, m, rest);
    BufferStep(j, p, have, bufs[0]);
    assert [bufs[0]] + bufs[1..] == bufs;
    AppendAssoc(have, [bufs[0]], bufs[1..]);
    if |bufs| == 1 {
      assert rest == later;
      assert have + [bufs[0]] + [] == have + [bufs[0]];
    } else {
      RunBuffers(j, p, have + [bufs[0]], bufs[1..], later);
    }
  }

  lemma {:induction false} BufferStep(j: Json, p: Packet, have: seq<Bytes>, b: Bytes)
    ensures OnMessage(j, LoopState(true, Some(Pending(p, have))), Message(OP_BINARY, b)) ==
            if |have| + 1 == p.attachments then Next(CONNECTED, [Dispatch(p, have + [b])])
            else Next(LoopState(true, Some(Pending(p, have + [b]))), [])
  {
    hide Decode;
  }

  lemma {:induction false} GroupHeader(j: Json, cfg: Config, s: LoopState, g: Group)
    requires Good(j, cfg, g) && s.pending == None && (s.connectedAny || g.pkt.typ == CONNECT)
    ensures var step := OnMessage(j, s, Message(OP_TEXT, Text(g.pkt)));
            var p := Normalized(g.pkt);
            step == if IsBinary(p.typ) then Next(LoopState(true, Some(Pending(p, []))), [])
                    else Next(CONNECTED, [Dispatch(p, [])])
  {
    var text := Text(g.pkt);
    assert text != [] by { EncodedText(g.pkt, text); }
    RoundTrip(j, g.pkt, text);
    hide Encode, Decode, Readable;
  }

  lemma {:induction false} RunHeader(j: Json, cfg: Config, s: LoopState, g: Group, rest: seq<Message>)
    requires Good(j, cfg, g) && s.pending == None && (s.connectedAny || g.pkt.typ == CONNECT)
    ensures var p := Normalized(g.pkt);
            Run(j, s, [Message(OP_TEXT, Text(g.pkt))] + rest) ==
            if IsBinary(p.typ) then Run(j, LoopState(true, Some(Pending(p, []))), rest)
            else [Dispatch(p, [])] + Run(j, CONNECTED, rest)
  {
    GroupHeader(j, cfg, s, g);
    hide Good, Text, OnMessage, Run, Normalized, IsBinary;
    RunOnce(j, s, Message(OP_TEXT, Text(g.pkt)), rest);
  }

  lemma {:induction false} RunGroup(j: Json, cfg: Config, s: LoopState, g: Group, later: seq<Message>)
    requires Good(j, cfg, g) && s.pending == None && (s.connectedAny || g.pkt.typ == CONNECT)
    ensures Run(j, s, PlainMessages(g) + later) == [DispatchOf(g)] + Run(j, CONNECTED, later)
  {
    BinaryHasBuffers(j, cfg, g);
    var rest := BufferMessages(g.buffers) + later;
    RunHeader(j, cfg, s, g, rest);
    hide Good, Text, Run, IsBinary;
    AppendAssoc([Message(OP_TEXT, Text(g.pkt))], BufferMessages(g.buffers), later);
    if IsBinary(g.pkt.typ) {
      RunBuffers(j, Normalized(g.pkt), [], g.buffers, later);
      assert [] + g.buffers == g.buffers;
    } else {
      assert rest == later;
    }
  }

  lemma {:induction false} BinaryHasBuffers(j: Json, cfg: Config, g: Group)
    requires Good(j, cfg, g)
    ensures if IsBinary(g.pkt.typ) then |g.buffers| == g.pkt.attachments && g.buffers != [] else g.buffers == []
  {
    hide Readable;
  }

  lemma {:induction false} RunGroups(j: Json, cfg: Config, s: LoopState, gs: seq<Group>, later: seq<Message>)
    requires forall g :: g in gs ==> Good(j, cfg, g)
    requires gs != [] && s.pending == None && (s.connectedAny || gs[0].pkt.typ == CONNECT)
    ensures Run(j, s, AllPlainMessages(gs) + later) == DispatchesOf(gs) + Run(j, CONNECTED, later)
    decreases |gs|
  {
    hide Good, Run, PlainMessages, DispatchOf;
    var more := AllPlainMessages(gs[1..]);
    AppendAssoc(PlainMessages(gs[0]), more, later);
    RunGroup(j, cfg, s, gs[0], more + later);
    if |gs| == 1 {
      assert more + later == later;
    } else {
      RunGroups(j, cfg, CONNECTED, gs[1..], later);
      AppendAssoc([DispatchOf(gs[0])], DispatchesOf(gs[1..]), Run(j, CONNECTED, later));
    }
  }

  // ----- the composition -----

  /** Groups, the messages that carry them, the fragments of each message, and the frames on the wire. */
  datatype Transmission = Transmission(groups: seq<Group>, messages: seq<Message>, blocks: seq<seq<Frame>>,
                                       wire: seq<Encoded>)

  /** The wire carries the groups, under any masks, in any fragments, with any pings, pongs and noise. */
  ghost predicate Transmits(cfg: Config, tx: Transmission) {
    && Sendable(tx.wire, cfg.max)
    && FramesOf(tx.wire) == Flatten(tx.blocks)
    && CarriesAll(tx.blocks, tx.messages)
    && (forall m :: m in tx.messages ==> Passes(cfg, m))
    && WithoutNoise(cfg, tx.messages) == AllWireMessages(tx.groups)
  }

  /** Good groups, of which the first is a CONNECT. */
  ghost predicate Proper(j: Json, cfg: Config, gs: seq<Group>) {
    gs != [] && gs[0].pkt.typ == CONNECT && forall g :: g in gs ==> Good(j, cfg, g)
  }

  /**
   * Any list of good groups starting with a CONNECT, however it is framed, is dispatched in order with
   * exactly its buffers, and the loop goes on with whatever bytes follow.
   */
  lemma {:induction false} EndToEnd(j: Json, cfg: Config, tx: Transmission, tail: Bytes)
    requires Proper(j, cfg, tx.groups) && Transmits(cfg, tx)
    ensures Run(j, START, Delivered(cfg, ParseAll(cfg.max, WireBytes(tx.wire, cfg.max) + tail))) ==
            DispatchesOf(tx.groups) + Run(j, CONNECTED, Delivered(cfg, ParseAll(cfg.max, tail)))
  {
    hide Good, Run, Passes, Delivered, ParseAll, CarriesAll, Sendable, WireBytes, StripAll, WithoutNoise;
    var t := ParseAll(cfg.max, tail);
    ParseSent(tx.wire, tail, cfg.max);
    KnownFrames(cfg.max, tail);
    DeliveredAll(cfg, tx.messages, tx.blocks, t.frames, t.end);
    GroupsStripped(j, cfg, tx.groups);
    RunGroups(j, cfg, START, tx.groups, Delivered(cfg, t));
  }

  lemma KnownFrames(max: nat, s: Bytes)
    ensures AllKnown(ParseAll(max, s).frames)
  {
  }

  /** The session loop, run on those bytes alone, calls the dispatcher on exactly the groups sent. */
  method Receive(j: Json, cfg: Config, input: Bytes, ghost tx: Transmission) returns (calls: seq<Dispatch>)
    requires Proper(j, cfg, tx.groups) && Transmits(cfg, tx) && input == WireBytes(tx.wire, cfg.max)
    ensures calls == DispatchesOf(tx.groups)
  {
    var tc := new WSConn(cfg, input);
    calls := HandleSession(j, tc);
    EndToEnd(j, cfg, tx, []);
    assert input + [] == input;
    assert Delivered(cfg, ParseAll(cfg.max, [])) == [];
    assert Run(j, CONNECTED, []) == [];
  }

  // ----- one way to transmit -----

  /** A message in one frame, with the shortest length form. */
  function OneFrame(m: Message, mask: Bytes): Encoded {
    Encoded(Frame(true, m.op, m.raw), mask, ShortestForm(|m.raw|))
  }

  function OneFrameEach(ms: seq<Message>, mask: Bytes): seq<Encoded> {
    seq(|ms|, i requires 0 <= i < |ms| => OneFrame(ms[i], mask))
  }

  function Singletons(ms: seq<Message>): seq<seq<Frame>> {
    seq(|ms|, i requires 0 <= i < |ms| => [Frame(true, ms[i].op, ms[i].raw)])
  }

  lemma {:induction false} SingletonsFlatten(ms: seq<Message>, mask: Bytes)
    ensures FramesOf(OneFrameEach(ms, mask)) == Flatten(Singletons(ms))
  {
    if ms != [] {
      SingletonsFlatten(ms[1..], mask);
      assert Singletons(ms)[1..] == Singletons(ms[1..]);
      assert FramesOf(OneFrameEach(ms, mask)) ==
             [Frame(true, ms[0].op, ms[0].raw)] + FramesOf(OneFrameEach(ms[1..], mask));
    }
  }

  lemma {:induction false} OneFrameCarries(op: Opcode, m: Bytes)
    requires op == OP_TEXT || op == OP_BINARY
    ensures CarriesMessage([Frame(true, op, m)], op, m)
  {
    var f := Frame(true, op, m);
    assert [f][..0] == [] && Data([f]) == [f];
    assert Payloads([f]) == [] + m == m;
  }

  lemma {:induction false} WireMessagesPass(j: Json, cfg: Config, gs: seq<Group>)
    requires forall g :: g in gs ==> Good(j, cfg, g)
    ensures forall m :: m in AllWireMessages(gs) ==> Passes(cfg, m) && !IsNoise(cfg, m)
  {
    if gs != [] {
      var g := gs[0];
      TextIsNotNoise(j, cfg, g);
      BuffersPass(j, cfg, g);
      hide Good, Passes, IsNoise;
      WireMessagesPass(j, cfg, gs[1..]);
      assert forall m :: m in WireMessages(g) ==> m == WireMessages(g)[0] || m in BufferMessages(g.buffers);
    }
  }

  lemma {:induction false} TextIsNotNoise(j: Json, cfg: Config, g: Group)
    requires Good(j, cfg, g)
    ensures Passes(cfg, WireMessages(g)[0]) && !IsNoise(cfg, WireMessages(g)[0])
  {
    TextIsStripped(j, cfg, g);
    hide Readable;
    assert Text(g.pkt) != [] by { EncodedText(g.pkt, Text(g.pkt)); }
    assert ([EIO_MESSAGE] + Text(g.pkt))[1..] == Text(g.pkt);
    hide Encode;
  }

  lemma {:induction false} BuffersPass(j: Json, cfg: Config, g: Group)
    requires Good(j, cfg, g)
    ensures forall m :: m in BufferMessages(g.buffers) ==> Passes(cfg, m) && !IsNoise(cfg, m)
  {
    hide Readable, Encode;
  }

  lemma {:induction false} NothingIsNoise(cfg: Config, ms: seq<Message>)
    requires forall m :: m in ms ==> !IsNoise(cfg, m)
    ensures WithoutNoise(cfg, ms) == ms
  {
    hide IsNoise;
    if ms != [] {
      NothingIsNoise(cfg, ms[1..]);
      assert [ms[0]] + ms[1..] == ms;
    }
  }

  /** Sending each message in one frame, under any mask, is a transmission: there always is one. */
  lemma {:induction false} PlainTransmission(j: Json, cfg: Config, gs: seq<Group>, mask: Bytes)
    requires |mask| == 4 && (forall g :: g in gs ==> Good(j, cfg, g))
    requires forall m :: m in AllWireMessages(gs) ==> |m.raw| <= MAX_INT
    ensures var ms := AllWireMessages(gs);
            Transmits(cfg, Transmission(gs, ms, Singletons(ms), OneFrameEach(ms, mask)))
  {
    hide Good, IsNoise, Sendable, CarriesAll, Flatten, FramesOf;
    var ms := AllWireMessages(gs);
    WireMessagesPass(j, cfg, gs);
    NothingIsNoise(cfg, ms);
    SingletonsFlatten(ms, mask);
    SingletonsCarry(cfg, ms);
    OneFrameIsSendable(cfg, ms, mask);
  }

  lemma {:induction false} SingletonsCarry(cfg: Config, ms: seq<Message>)
    requires forall m :: m in ms ==> Passes(cfg, m)
    ensures CarriesAll(Singletons(ms), ms)
  {
    forall i | 0 <= i < |ms|
      ensures CarriesMessage(Singletons(ms)[i], ms[i].op, ms[i].raw)
    {
      assert Passes(cfg, ms[i]);
      OneFrameCarries(ms[i].op, ms[i].raw);
    }
    hide Passes, CarriesMessage;
  }

  lemma {:induction false} OneFrameIsSendable(cfg: Config, ms: seq<Message>, mask: Bytes)
    requires |mask| == 4 && (forall m :: m in ms ==> Passes(cfg, m) && |m.raw| <= MAX_INT)
    ensures Sendable(OneFrameEach(ms, mask), cfg.max)
  {
    hide Finish;
    forall i | 0 <= i < |ms|
      ensures Legal(OneFrame(ms[i], mask).frame, cfg.max)
    {
      assert Passes(cfg, ms[i]);
    }
  }
}
