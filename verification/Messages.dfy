/**
 * Message reassembly (RFC 6455 sections 5.4 and 5.5) and Engine.IO stripping: the loop that turns
 * frames into the messages the session engine sees.
 */
module Messages {
  import opened Options
  import opened Bits
  import opened ByteSeqs
  import opened Frames

  const EIO_CLOSE: Byte := 0x31
  const EIO_PING: Byte := 0x32
  const EIO_PONG: Byte := 0x33
  const EIO_MESSAGE: Byte := 0x34
  const EIO_NOOP: Byte := 0x36
  const PROBE: Bytes := [0x70, 0x72, 0x6F, 0x62, 0x65]

  /** `max == 0` means no payload limit; `utf8` is the library's validity check. */
  datatype Config = Config(max: nat, checkUtf8: bool, utf8: Bytes -> bool)

  /** What reading does besides returning a message. */
  datatype Effect = Sent(op: Opcode, payload: Bytes) | PongSignal | HangUp

  datatype ReadOut = ReadOut(op: Opcode, msg: Bytes, err: Option<Error>)

  function CloseWith(code: nat): seq<Effect> {
    [Sent(OP_CLOSE, ToBE(code, 2)), HangUp]
  }

  // ----- the frames in a byte stream -----

  /** The frames of a stream, and why there are no more. */
  datatype Stream = Stream(frames: seq<Frame>, end: Error)

  function ParseAll(max: nat, s: Bytes): (st: Stream)
    ensures forall f :: f in st.frames ==> Legal(f, max)
    decreases |s|
  {
    match ReadFrame(s, max)
    case Bad(e, _) => Stream([], e)
    case Got(f, rest) =>
      GotIsLegal(s, f, rest, max);
      var st := ParseAll(max, rest);
      Stream([f] + st.frames, st.end)
  }

  lemma {:induction false} GotIsLegal(s: Bytes, f: Frame, rest: Bytes, max: nat)
    requires ReadFrame(s, max) == Got(f, rest)
    ensures Legal(f, max)
  {
    ReadFrameExact(s, f, rest, max);
  }

  lemma ParseAllOf(max: nat, s: Bytes, f: Frame, rest: Bytes)
    requires ReadFrame(s, max) == Got(f, rest)
    ensures ParseAll(max, s) == Stream([f] + ParseAll(max, rest).frames, ParseAll(max, rest).end)
  {
  }

  /** A frame as a client sends it. */
  datatype Encoded = Encoded(frame: Frame, mask: Bytes, form: LenForm)

  predicate Sendable(es: seq<Encoded>, max: nat) {
    forall i :: 0 <= i < |es| ==>
      |es[i].mask| == 4 && Holds(es[i].form, |es[i].frame.payload|) && Legal(es[i].frame, max)
  }

  function WireBytes(es: seq<Encoded>, max: nat): Bytes
    requires Sendable(es, max)
  {
    if es == [] then [] else Masked(es[0].frame, es[0].mask, es[0].form) + WireBytes(es[1..], max)
  }

  function FramesOf(es: seq<Encoded>): seq<Frame> {
    seq(|es|, i requires 0 <= i < |es| => es[i].frame)
  }

  /** A client's byte stream splits into exactly the frames sent, whatever masks and length forms it used. */
  lemma {:induction false} ParseSent(es: seq<Encoded>, tail: Bytes, max: nat)
    requires Sendable(es, max)
    ensures var t := ParseAll(max, tail);
            ParseAll(max, WireBytes(es, max) + tail) == Stream(FramesOf(es) + t.frames, t.end)
  {
    var t := ParseAll(max, tail);
    if es == [] {
      assert WireBytes(es, max) + tail == tail;
      assert FramesOf(es) + t.frames == t.frames;
    } else {
      ParseSent(es[1..], tail, max);
      ParseSentFirst(es, tail, max);
      FramesOfCons(es);
      AppendAssoc([es[0].frame], FramesOf(es[1..]), t.frames);
    }
  }

  lemma {:induction false} ParseSentFirst(es: seq<Encoded>, tail: Bytes, max: nat)
    requires Sendable(es, max) && es != []
    ensures var more := ParseAll(max, WireBytes(es[1..], max) + tail);
            ParseAll(max, WireBytes(es, max) + tail) == Stream([es[0].frame] + more.frames, more.end)
  {
    var e, more := es[0], WireBytes(es[1..], max) + tail;
    assert WireBytes(es, max) + tail == Masked(e.frame, e.mask, e.form) + more;
    ReadMasked(e.frame, e.mask, e.form, more, max);
    ParseAllOf(max, WireBytes(es, max) + tail, e.frame, more);
  }

  lemma FramesOfCons(es: seq<Encoded>)
    requires es != []
    ensures FramesOf(es) == [es[0].frame] + FramesOf(es[1..])
  {
  }

  // ----- Engine.IO stripping -----

  datatype Stripped = Stripped(out: ReadOut, fx: seq<Effect>)

  function HandleEIO(op: Opcode, p: Bytes): (r: Stripped)
    decreases |p|
  {
    if op == OP_BINARY || p == [] then Stripped(ReadOut(op, p, None), [])
    else if p[0] == EIO_PONG then
      var r := HandleEIO(OP_TEXT, p[1..]);
      Stripped(r.out, [PongSignal] + r.fx)
    else if p[0] == EIO_MESSAGE then Stripped(ReadOut(OP_TEXT, p[1..], None), [])
    else if p[0] == EIO_PING then
      if p[1..] == PROBE then Stripped(ReadOut(OP_TEXT, p, None), [])
      else Stripped(ReadOut(OP_TEXT, [], None), [Sent(OP_TEXT, [EIO_PONG] + p[1..])])
    else if p[0] == EIO_CLOSE then Stripped(ReadOut(OP_CLOSE, p, Some(EOF)), [])
    else if p[0] == EIO_NOOP then Stripped(ReadOut(OP_TEXT, [], None), [])
    else Stripped(ReadOut(OP_TEXT, p, None), [])
  }

  /** The number of pong marks at the front of a message. */
  function LeadingPongs(p: Bytes): (k: nat)
    ensures k <= |p| && (forall i :: 0 <= i < k ==> p[i] == EIO_PONG)
    ensures k < |p| ==> p[k] != EIO_PONG
  {
    if p == [] || p[0] != EIO_PONG then 0 else 1 + LeadingPongs(p[1..])
  }

  /** A text message without its leading pong marks. */
  function Peeled(p: Bytes): Bytes {
    p[LeadingPongs(p)..]
  }

  /** What one mark at the front of a peeled message makes of it. */
  function Unmarked(rest: Bytes): ReadOut {
    if rest == [] || rest[0] == EIO_NOOP then ReadOut(OP_TEXT, [], None)
    else if rest[0] == EIO_MESSAGE then ReadOut(OP_TEXT, rest[1..], None)
    else if rest[0] == EIO_PING && rest != [EIO_PING] + PROBE then ReadOut(OP_TEXT, [], None)
    else if rest[0] == EIO_CLOSE then ReadOut(OP_CLOSE, rest, Some(EOF))
    else ReadOut(OP_TEXT, rest, None)
  }

  /**
   * All leading pongs are signalled and peeled off; then the next mark alone decides what is returned,
   * and only a ping that is no probe is answered. Probes and unknown marks are returned as they are.
   */
  lemma {:induction false} StripPeelsPongs(p: Bytes)
    ensures var k, rest, r := LeadingPongs(p), Peeled(p), HandleEIO(OP_TEXT, p);
            && |r.fx| >= k && (forall i :: 0 <= i < k ==> r.fx[i] == PongSignal)
            && r.fx[k..] == (if rest != [] && rest[0] == EIO_PING && rest != [EIO_PING] + PROBE
                             then [Sent(OP_TEXT, [EIO_PONG] + rest[1..])] else [])
            && r.out == Unmarked(rest)
    decreases |p|
  {
    if LeadingPongs(p) > 0 {
      StripPeelsPongs(p[1..]);
      var k, fx := LeadingPongs(p), HandleEIO(OP_TEXT, p).fx;
      assert p[1..][k - 1..] == p[k..];
      assert fx[1..] == HandleEIO(OP_TEXT, p[1..]).fx && fx[1..][k - 1..] == fx[k..];
    } else if p != [] {
      assert p == [p[0]] + p[1..];
    }
  }

  // ----- the read loop as a fold over frames -----

  /** The message under assembly between two frames. */
  datatype Assembly = Idle | Partial(op: Opcode, msg: Bytes)

  datatype Outcome = Go(asm: Assembly, fx: seq<Effect>) | Stop(out: ReadOut, fx: seq<Effect>)

  /** A complete message: checked, stripped, and returned unless there is nothing left of it. */
  function Finish(cfg: Config, op: Opcode, m: Bytes): Outcome {
    if op == OP_TEXT && cfg.checkUtf8 && !cfg.utf8(m) then
      Stop(ReadOut(op, m, Some(Protocol)), CloseWith(1007))
    else
      var h := HandleEIO(op, m);
      if h.out.err == None && h.out.msg == [] && h.out.op != OP_BINARY then Go(Idle, h.fx)
      else Stop(h.out, h.fx)
  }

  predicate TooLong(cfg: Config, n: nat) {
    cfg.max > 0 && n > cfg.max
  }

  /** What one frame asks for: carry on, return at once, or finish the complete message `m`. */
  datatype Action =
    | Carry(asm: Assembly, fx: seq<Effect>)
    | Return(out: ReadOut, fx: seq<Effect>)
    | Complete(op: Opcode, m: Bytes)

  const PROTOCOL_ERROR: Action := Return(ReadOut(0, [], Some(Protocol)), CloseWith(1002))

  function CloseReply(p: Bytes): Action {
    Return(ReadOut(OP_CLOSE, p, Some(EOF)), [Sent(OP_CLOSE, p)])
  }

  function Classify(cfg: Config, asm: Assembly, f: Frame): Action {
    if f.op == OP_PING then Carry(asm, [Sent(OP_PONG, f.payload)])
    else if f.op == OP_PONG then Carry(asm, [PongSignal])
    else if f.op == OP_CLOSE then CloseReply(f.payload)
    else if f.op == OP_CONTINUATION then
      if asm.Idle? then PROTOCOL_ERROR
      else if TooLong(cfg, |asm.msg| + |f.payload|) then Return(ReadOut(0, [], Some(PayloadTooLarge)), [])
      else if f.fin then Complete(asm.op, asm.msg + f.payload)
      else Carry(Partial(asm.op, asm.msg + f.payload), [])
    else if (f.op != OP_TEXT && f.op != OP_BINARY) || asm.Partial? then PROTOCOL_ERROR
    else if f.fin then Complete(f.op, f.payload)
    else Carry(Partial(f.op, f.payload), [])
  }

  function Perform(cfg: Config, a: Action): Outcome {
    match a
    case Carry(asm, fx) => Go(asm, fx)
    case Return(out, fx) => Stop(out, fx)
    case Complete(op, m) => Finish(cfg, op, m)
  }

  datatype ReadResult = ReadResult(out: ReadOut, fx: seq<Effect>, left: Stream)

  /** Reading stops with the stream's own error when the frames run out. */
  function Exhausted(end: Error): ReadResult {
    ReadResult(ReadOut(0, [], Some(end)),
               if end == UnmaskedFrame || end == Protocol then CloseWith(1002) else [],
               Stream([], end))
  }

  function Read(cfg: Config, asm: Assembly, st: Stream): (r: ReadResult)
    ensures r.out.err == None ==> |r.left.frames| < |st.frames|
    decreases |st.frames|
  {
    if st.frames == [] then Exhausted(st.end)
    else
      var left := Stream(st.frames[1..], st.end);
      match Perform(cfg, Classify(cfg, asm, st.frames[0]))
      case Stop(out, fx) => ReadResult(out, fx, left)
      case Go(asm', fx) => Prepend(fx, Read(cfg, asm', left))
  }

  function Prepend(fx: seq<Effect>, r: ReadResult): ReadResult {
    r.(fx := fx + r.fx)
  }

  // ----- the specification: first ending frame, data frames before it -----

  predicate IsData(f: Frame) {
    f.op < 8
  }

  function Data(fs: seq<Frame>): seq<Frame> {
    if fs == [] then []
    else
      var ds := Data(fs[..|fs| - 1]);
      var f := fs[|fs| - 1];
      if IsData(f) then ds + [f] else ds
  }

  function Payloads(fs: seq<Frame>): Bytes {
    if fs == [] then [] else Payloads(fs[..|fs| - 1]) + fs[|fs| - 1].payload
  }

  /** A data frame is out of sequence when it continues nothing, or starts a message inside another. */
  predicate OutOfSequence(ds: seq<Frame>, f: Frame) {
    IsData(f) && (f.op == OP_CONTINUATION <==> ds == [])
  }

  predicate Oversize(cfg: Config, ds: seq<Frame>, f: Frame) {
    IsData(f) && ds != [] && TooLong(cfg, |Payloads(ds)| + |f.payload|)
  }

  /** Frame `i` ends the message that starts at frame 0: it is a close, an error or a final fragment. */
  predicate Ends(cfg: Config, fs: seq<Frame>, i: nat)
    requires i < |fs|
  {
    var ds, f := Data(fs[..i]), fs[i];
    f.op == OP_CLOSE || OutOfSequence(ds, f) || Oversize(cfg, ds, f) || (IsData(f) && f.fin)
  }

  function FirstEnd(cfg: Config, fs: seq<Frame>, from: nat): (i: nat)
    requires from <= |fs|
    ensures from <= i <= |fs| && (i < |fs| ==> Ends(cfg, fs, i))
    ensures forall j :: from <= j < i ==> !Ends(cfg, fs, j)
    decreases |fs| - from
  {
    if from == |fs| || Ends(cfg, fs, from) then from else FirstEnd(cfg, fs, from + 1)
  }

  function ControlEffect(f: Frame): seq<Effect> {
    if f.op == OP_PING then [Sent(OP_PONG, f.payload)]
    else if f.op == OP_PONG then [PongSignal]
    else []
  }

  /** The answers to the pings and pongs among `fs`. */
  function ControlFx(fs: seq<Frame>): seq<Effect> {
    if fs == [] then [] else ControlEffect(fs[0]) + ControlFx(fs[1..])
  }

  /** What the ending frame asks for, given the data frames before it. */
  function Conclude(cfg: Config, ds: seq<Frame>, f: Frame): Action {
    if f.op == OP_CLOSE then CloseReply(f.payload)
    else if OutOfSequence(ds, f) then PROTOCOL_ERROR
    else if Oversize(cfg, ds, f) then Return(ReadOut(0, [], Some(PayloadTooLarge)), [])
    else Complete((ds + [f])[0].op, Payloads(ds + [f]))
  }

  function Left(fs: seq<Frame>, i: nat, end: Error): Stream {
    Stream(if i < |fs| then fs[i + 1..] else [], end)
  }

  /** The result at the ending frame `i`; `next` is what reading on gives if nothing is left of the message. */
  function Concluded(cfg: Config, fs: seq<Frame>, i: nat, end: Error, next: ReadResult): ReadResult
    requires i <= |fs|
  {
    if i == |fs| then Exhausted(end)
    else
      match Perform(cfg, Conclude(cfg, Data(fs[..i]), fs[i]))
      case Stop(out, fx) => ReadResult(out, fx, Left(fs, i, end))
      case Go(_, fx) => Prepend(fx, next)
  }

  /** The first message of a frame list that survives stripping, without any carried state. */
  function SpecRead(cfg: Config, st: Stream): ReadResult
    decreases |st.frames|
  {
    var fs := st.frames;
    var i := FirstEnd(cfg, fs, 0);
    var next := if i == |fs| then Exhausted(st.end) else SpecRead(cfg, Left(fs, i, st.end));
    Prepend(ControlFx(fs[..i]), Concluded(cfg, fs, i, st.end, next))
  }

  function StateAfter(ds: seq<Frame>): Assembly {
    if ds == [] then Idle else Partial(ds[0].op, Payloads(ds))
  }

  lemma {:induction false} DataStep(fs: seq<Frame>, i: nat)
    requires i < |fs|
    ensures Data(fs[..i + 1]) == Data(fs[..i]) + (if IsData(fs[i]) then [fs[i]] else [])
  {
    assert fs[..i + 1][..i] == fs[..i];
  }

  lemma {:induction false} PayloadsStep(ds: seq<Frame>, f: Frame)
    ensures Payloads(ds + [f]) == Payloads(ds) + f.payload
  {
    assert (ds + [f])[..|ds|] == ds;
  }

  /** Before the ending frame, one step of the fold keeps its state equal to what the data frames say. */
  lemma {:induction false} CarriesOn(cfg: Config, fs: seq<Frame>, i: nat)
    requires i < |fs| && !Ends(cfg, fs, i) && KnownOp(fs[i].op)
    ensures Classify(cfg, StateAfter(Data(fs[..i])), fs[i])
         == Carry(StateAfter(Data(fs[..i + 1])), ControlEffect(fs[i]))
  {
    DataStep(fs, i);
    if IsData(fs[i]) {
      CarriesData(cfg, Data(fs[..i]), fs[i]);
    } else {
      assert Data(fs[..i]) + [] == Data(fs[..i]);
    }
  }

  lemma {:induction false} CarriesData(cfg: Config, ds: seq<Frame>, f: Frame)
    requires IsData(f) && KnownOp(f.op) && !f.fin && !OutOfSequence(ds, f) && !Oversize(cfg, ds, f)
    ensures Classify(cfg, StateAfter(ds), f) == Carry(StateAfter(ds + [f]), [])
  {
    PayloadsStep(ds, f);
    assert [] + f.payload == f.payload;
  }

  lemma {:induction false} EndsHere(cfg: Config, fs: seq<Frame>, i: nat)
    requires i < |fs| && Ends(cfg, fs, i) && KnownOp(fs[i].op)
    ensures Classify(cfg, StateAfter(Data(fs[..i])), fs[i]) == Conclude(cfg, Data(fs[..i]), fs[i])
  {
    PayloadsStep(Data(fs[..i]), fs[i]);
    assert [] + fs[i].payload == fs[i].payload;
  }

  ghost predicate AllKnown(fs: seq<Frame>) {
    forall f :: f in fs ==> KnownOp(f.op)
  }

  lemma {:induction false} ReadFromIsSpec(cfg: Config, fs: seq<Frame>, k: nat, end: Error)
    requires AllKnown(fs) && k <= |fs|
    ensures var i := FirstEnd(cfg, fs, k);
            Read(cfg, StateAfter(Data(fs[..k])), Stream(fs[k..], end)) ==
            Prepend(ControlFx(fs[k..i]), Concluded(cfg, fs, i, end, Read(cfg, Idle, Left(fs, i, end))))
    decreases |fs| - k
  {
    var i := FirstEnd(cfg, fs, k);
    if k == i {
      assert fs[k..i] == [];
      ReadAtEnd(cfg, fs, k, end);
    } else {
      ReadFromIsSpec(cfg, fs, k + 1, end);
      CarriesOn(cfg, fs, k);
      assert fs[k..][1..] == fs[k + 1..];
      ReadOnce(cfg, StateAfter(Data(fs[..k])), fs[k..], end);
      assert fs[k..i][0] == fs[k] && fs[k..i][1..] == fs[k + 1..i];
      PrependTwice(ControlEffect(fs[k]), ControlFx(fs[k + 1..i]),
                   Concluded(cfg, fs, i, end, Read(cfg, Idle, Left(fs, i, end))));
    }
  }

  lemma {:induction false} ReadAtEnd(cfg: Config, fs: seq<Frame>, k: nat, end: Error)
    requires AllKnown(fs) && k <= |fs| && (k < |fs| ==> Ends(cfg, fs, k))
    ensures Read(cfg, StateAfter(Data(fs[..k])), Stream(fs[k..], end))
         == Prepend([], Concluded(cfg, fs, k, end, Read(cfg, Idle, Left(fs, k, end))))
  {
    if k < |fs| {
      EndsHere(cfg, fs, k);
      FinishIdles(cfg, Conclude(cfg, Data(fs[..k]), fs[k]));
      assert fs[k..][1..] == fs[k + 1..];
    }
  }

  lemma ReadOnce(cfg: Config, asm: Assembly, fs: seq<Frame>, end: Error)
    requires fs != [] && Classify(cfg, asm, fs[0]).Carry?
    ensures var a := Classify(cfg, asm, fs[0]);
            Read(cfg, asm, Stream(fs, end)) == Prepend(a.fx, Read(cfg, a.asm, Stream(fs[1..], end)))
  {
  }

  lemma {:induction false} PrependTwice(a: seq<Effect>, b: seq<Effect>, r: ReadResult)
    ensures Prepend(a, Prepend(b, r)) == Prepend(a + b, r)
  {
    AppendAssoc(a, b, r.fx);
  }

  lemma FinishIdles(cfg: Config, a: Action)
    requires !a.Carry?
    ensures Perform(cfg, a).Go? ==> Perform(cfg, a).asm == Idle
  {
  }

  /** The read loop returns what the one-pass specification over the frame list says. */
  lemma {:induction false} ReadIsSpec(cfg: Config, st: Stream)
    requires AllKnown(st.frames)
    ensures Read(cfg, Idle, st) == SpecRead(cfg, st)
    decreases |st.frames|
  {
    var fs := st.frames;
    ReadFromIsSpec(cfg, fs, 0, st.end);
    var i := FirstEnd(cfg, fs, 0);
    assert fs[..0] == [] && fs[0..] == fs && fs[0..i] == fs[..i];
    if i < |fs| {
      ReadIsSpec(cfg, Left(fs, i, st.end));
    }
  }

  // ----- consequences -----

  /** A message in fragments, with pings and pongs anywhere before the last of them. */
  ghost predicate CarriesMessage(block: seq<Frame>, op: Opcode, m: Bytes) {
    var ds := Data(block);
    && block != [] && IsData(block[|block| - 1])
    && (forall f :: f in block ==> KnownOp(f.op) && f.op != OP_CLOSE)
    && (op == OP_TEXT || op == OP_BINARY)
    && (forall i :: 0 <= i < |ds| ==>
          (ds[i].op == if i == 0 then op else OP_CONTINUATION) && (ds[i].fin <==> i == |ds| - 1))
    && Payloads(ds) == m
  }

  lemma {:induction false} DataAppend(a: seq<Frame>, b: seq<Frame>)
    ensures Data(a + b) == Data(a) + Data(b)
  {
    if b == [] {
      assert a + b == a;
    } else {
      DataAppend(a, b[..|b| - 1]);
      assert (a + b)[..|a + b| - 1] == a + b[..|b| - 1];
    }
  }

  lemma {:induction false} PayloadsAppend(a: seq<Frame>, b: seq<Frame>)
    ensures Payloads(a + b) == Payloads(a) + Payloads(b)
  {
    if b == [] {
      assert a + b == a;
    } else {
      PayloadsAppend(a, b[..|b| - 1]);
      assert (a + b)[..|a + b| - 1] == a + b[..|b| - 1];
      AppendAssoc(Payloads(a), Payloads(b[..|b| - 1]), b[|b| - 1].payload);
    }
  }

  /** Where a data frame of a block stands among the block's data frames. */
  lemma {:induction false} DataAt(block: seq<Frame>, j: nat)
    requires j < |block| && IsData(block[j])
    ensures var d, ds := |Data(block[..j])|, Data(block);
            d < |ds| && ds[d] == block[j] && ds[..d] == Data(block[..j])
    ensures j < |block| - 1 && IsData(block[|block| - 1]) ==> |Data(block[..j])| < |Data(block)| - 1
  {
    DataStep(block, j);
    DataAppend(block[..j + 1], block[j + 1..]);
    assert block == block[..j + 1] + block[j + 1..];
  }

  lemma {:induction false} BlockQuiet(cfg: Config, block: seq<Frame>, op: Opcode, m: Bytes, rest: seq<Frame>, j: nat)
    requires CarriesMessage(block, op, m) && !TooLong(cfg, |m|) && j < |block| - 1
    ensures !Ends(cfg, block + rest, j)
  {
    assert (block + rest)[..j] == block[..j];
    if IsData(block[j]) {
      DataAt(block, j);
      PayloadsPrefix(Data(block), |Data(block[..j])|);
    }
  }

  lemma {:induction false} PayloadsPrefix(ds: seq<Frame>, d: nat)
    requires d < |ds|
    ensures |Payloads(ds[..d])| + |ds[d].payload| <= |Payloads(ds)|
  {
    assert ds == ds[..d] + [ds[d]] + ds[d + 1..];
    PayloadsAppend(ds[..d] + [ds[d]], ds[d + 1..]);
    PayloadsStep(ds[..d], ds[d]);
  }

  lemma {:induction false} BlockEnds(cfg: Config, block: seq<Frame>, op: Opcode, m: Bytes, rest: seq<Frame>)
    requires CarriesMessage(block, op, m) && !TooLong(cfg, |m|)
    ensures FirstEnd(cfg, block + rest, 0) == |block| - 1
    ensures Conclude(cfg, Data((block + rest)[..|block| - 1]), (block + rest)[|block| - 1]) == Complete(op, m)
  {
    var fs, n := block + rest, |block| - 1;
    forall j | 0 <= j < n
      ensures !Ends(cfg, fs, j)
    {
      BlockQuiet(cfg, block, op, m, rest, j);
    }
    assert fs[..n] == block[..n] && block[..n + 1] == block;
    DataStep(block, n);
    DataAt(block, n);
    PayloadsStep(Data(block[..n]), block[n]);
    FirstEndAt(cfg, fs, 0, n);
  }

  lemma {:induction false} FirstEndAt(cfg: Config, fs: seq<Frame>, k: nat, n: nat)
    requires k <= n < |fs| && Ends(cfg, fs, n) && forall j :: k <= j < n ==> !Ends(cfg, fs, j)
    ensures FirstEnd(cfg, fs, k) == n
  {
    var i := FirstEnd(cfg, fs, k);
    assert i >= n && !(n < i);
  }

  /**
   * However a message is fragmented and whatever pings and pongs interrupt it, reading it is finishing
   * the concatenation of its fragments; what follows the last fragment is untouched.
   */
  lemma {:induction false} ReadCarried(cfg: Config, block: seq<Frame>, op: Opcode, m: Bytes,
                                       rest: seq<Frame>, end: Error)
    requires CarriesMessage(block, op, m) && !TooLong(cfg, |m|) && AllKnown(rest)
    ensures Read(cfg, Idle, Stream(block + rest, end)) ==
            Prepend(ControlFx(block[..|block| - 1]),
                    match Finish(cfg, op, m)
                    case Stop(out, fx) => ReadResult(out, fx, Stream(rest, end))
                    case Go(_, fx) => Prepend(fx, Read(cfg, Idle, Stream(rest, end))))
  {
    var fs, n := block + rest, |block| - 1;
    BlockEnds(cfg, block, op, m, rest);
    ReadFromIsSpec(cfg, fs, 0, end);
    assert fs[..0] == [] && fs[0..] == fs && fs[0..n] == block[..n] && fs[n + 1..] == rest;
    assert Perform(cfg, Complete(op, m)) == Finish(cfg, op, m);
  }

  /** A data frame out of sequence, met before the message ends, is always a protocol error. */
  lemma {:induction false} OutOfSequenceIsRejected(cfg: Config, st: Stream, i: nat)
    requires i < |st.frames| && OutOfSequence(Data(st.frames[..i]), st.frames[i])
    requires forall j :: 0 <= j < i ==> !Ends(cfg, st.frames, j)
    ensures var r := SpecRead(cfg, st);
            r.out == ReadOut(0, [], Some(Protocol)) && r.fx == ControlFx(st.frames[..i]) + CloseWith(1002)
  {
    FirstEndAt(cfg, st.frames, 0, i);
  }

  /** The grammar of section 5.4: a continuation exactly when a message is open. */
  predicate WellSequenced(open: bool, fs: seq<Frame>)
    decreases |fs|
  {
    fs != [] ==>
      if IsData(fs[0]) then (fs[0].op == OP_CONTINUATION <==> open) && WellSequenced(!fs[0].fin, fs[1..])
      else WellSequenced(open, fs[1..])
  }

  /** A complete text message that the UTF-8 check rejects. */
  predicate BadText(cfg: Config, op: Opcode, m: Bytes) {
    op == OP_TEXT && cfg.checkUtf8 && !cfg.utf8(m)
  }

  /** Every text message that the frames complete passes the UTF-8 check. */
  predicate TextsValid(cfg: Config, asm: Assembly, fs: seq<Frame>)
    decreases |fs|
  {
    fs != [] ==>
      match Classify(cfg, asm, fs[0])
      case Carry(asm', _) => TextsValid(cfg, asm', fs[1..])
      case Return(_, _) => true
      case Complete(op, m) => !BadText(cfg, op, m) && TextsValid(cfg, Idle, fs[1..])
  }

  /** Frames that follow the grammar and complete only valid texts are never a protocol error. */
  lemma {:induction false} WellSequencedIsAccepted(cfg: Config, asm: Assembly, st: Stream)
    requires AllKnown(st.frames) && WellSequenced(asm.Partial?, st.frames)
    requires TextsValid(cfg, asm, st.frames) && st.end != Protocol
    ensures Read(cfg, asm, st).out.err != Some(Protocol)
    decreases |st.frames|
  {
    if st.frames != [] {
      var a := Classify(cfg, asm, st.frames[0]);
      if a.Complete? {
        FinishIsNoProtocolError(cfg, a.op, a.m);
      }
      var o := Perform(cfg, a);
      if o.Go? {
        hide Finish;
        WellSequencedIsAccepted(cfg, o.asm, Stream(st.frames[1..], st.end));
      }
    }
  }

  lemma {:induction false} FinishIsNoProtocolError(cfg: Config, op: Opcode, m: Bytes)
    requires !BadText(cfg, op, m)
    ensures Finish(cfg, op, m).Stop? ==> Finish(cfg, op, m).out.err != Some(Protocol)
    ensures Finish(cfg, op, m).Go? ==> Finish(cfg, op, m).asm == Idle
  {
    StrippedIsNoProtocolError(op, m);
  }

  lemma {:induction false} StrippedIsNoProtocolError(op: Opcode, m: Bytes)
    ensures HandleEIO(op, m).out.err != Some(Protocol)
    decreases |m|
  {
    if op != OP_BINARY && m != [] && m[0] == EIO_PONG {
      StrippedIsNoProtocolError(OP_TEXT, m[1..]);
    }
  }

  // ----- exactly which frames are an error, and which -----

  /** A valid text message of which stripping leaves nothing, so that reading goes on. */
  predicate LeavesNothing(cfg: Config, op: Opcode, m: Bytes) {
    op == OP_TEXT && !BadText(cfg, op, m) && Unmarked(Peeled(m)).msg == []
  }

  /** The frame completes a message with the data frames before it. */
  predicate Completes(cfg: Config, ds: seq<Frame>, f: Frame) {
    IsData(f) && f.fin && !OutOfSequence(ds, f) && !Oversize(cfg, ds, f)
  }

  function MessageOp(ds: seq<Frame>, f: Frame): Opcode {
    (ds + [f])[0].op
  }

  predicate Skips(cfg: Config, ds: seq<Frame>, f: Frame) {
    Completes(cfg, ds, f) && LeavesNothing(cfg, MessageOp(ds, f), Payloads(ds + [f]))
  }

  /** The stream without the whole messages at its front that leave nothing. */
  function Deciding(cfg: Config, st: Stream): Stream
    decreases |st.frames|
  {
    var fs := st.frames;
    var i := FirstEnd(cfg, fs, 0);
    if i < |fs| && Skips(cfg, Data(fs[..i]), fs[i]) then Deciding(cfg, Left(fs, i, st.end)) else st
  }

  predicate SaysClose(m: Bytes) {
    Peeled(m) != [] && Peeled(m)[0] == EIO_CLOSE
  }

  /** The error of the frame that ends the first message, and the close code sent for it, if any. */
  datatype Verdict = Verdict(err: Option<Error>, code: Option<nat>)

  function Judge(cfg: Config, ds: seq<Frame>, f: Frame): Verdict {
    var op, m := MessageOp(ds, f), Payloads(ds + [f]);
    if f.op == OP_CLOSE then Verdict(Some(EOF), None)
    else if OutOfSequence(ds, f) then Verdict(Some(Protocol), Some(1002))
    else if Oversize(cfg, ds, f) then Verdict(Some(PayloadTooLarge), None)
    else if BadText(cfg, op, m) then Verdict(Some(Protocol), Some(1007))
    else if op == OP_TEXT && SaysClose(m) then Verdict(Some(EOF), None)
    else Verdict(None, None)
  }

  /** The verdict on a stream: that of its first ending frame, or of the end of the stream. */
  function VerdictOn(cfg: Config, st: Stream): Verdict {
    var i := FirstEnd(cfg, st.frames, 0);
    if i < |st.frames| then Judge(cfg, Data(st.frames[..i]), st.frames[i])
    else Verdict(Some(st.end), if st.end == UnmaskedFrame || st.end == Protocol then Some(1002) else None)
  }

  /** The effects end with the close frame for `code` and the hang-up, or there is no hang-up without a code. */
  predicate ClosesWith(fx: seq<Effect>, code: Option<nat>) {
    if code.Some? then |fx| >= 2 && fx[|fx| - 2..] == CloseWith(code.value) else HangUp !in fx
  }

  lemma {:induction false} ControlsStayOpen(fs: seq<Frame>)
    ensures HangUp !in ControlFx(fs)
  {
    if fs != [] {
      ControlsStayOpen(fs[1..]);
    }
  }

  lemma {:induction false} StrippingStaysOpen(op: Opcode, m: Bytes)
    ensures HangUp !in HandleEIO(op, m).fx
    decreases |m|
  {
    if op != OP_BINARY && m != [] && m[0] == EIO_PONG {
      StrippingStaysOpen(OP_TEXT, m[1..]);
    }
  }

  lemma {:induction false} PrependedCloses(fx: seq<Effect>, r: ReadResult, code: Option<nat>)
    requires HangUp !in fx && ClosesWith(r.fx, code)
    ensures ClosesWith(Prepend(fx, r).fx, code)
  {
    if code.Some? {
      assert (fx + r.fx)[|fx + r.fx| - 2..] == r.fx[|r.fx| - 2..];
    }
  }

  lemma {:induction false} FinishIsJudged(cfg: Config, op: Opcode, m: Bytes)
    requires op == OP_TEXT || op == OP_BINARY
    ensures var o := Finish(cfg, op, m);
            && (o.Go? <==> LeavesNothing(cfg, op, m))
            && (BadText(cfg, op, m) ==> o.Stop? && o.out.err == Some(Protocol) && o.fx == CloseWith(1007))
            && (!BadText(cfg, op, m) ==> HangUp !in o.fx)
            && (!BadText(cfg, op, m) && o.Stop? ==>
                  o.out.err == if op == OP_TEXT && SaysClose(m) then Some(EOF) else None)
  {
    StripPeelsPongs(m);
    StrippingStaysOpen(op, m);
    hide LeadingPongs, Peeled;
  }

  lemma {:induction false} ConcludeIsJudged(cfg: Config, ds: seq<Frame>, f: Frame)
    requires KnownOp(f.op) && (f.op == OP_CLOSE || OutOfSequence(ds, f) || Oversize(cfg, ds, f) || (IsData(f) && f.fin))
    requires ds != [] ==> ds[0].op == OP_TEXT || ds[0].op == OP_BINARY
    ensures var o := Perform(cfg, Conclude(cfg, ds, f));
            && (o.Go? <==> Skips(cfg, ds, f))
            && (o.Go? ==> HangUp !in o.fx)
            && (o.Stop? ==> o.out.err == Judge(cfg, ds, f).err && ClosesWith(o.fx, Judge(cfg, ds, f).code))
  {
    hide Finish, LeavesNothing, BadText, SaysClose, Payloads, Oversize, TooLong;
    if IsData(f) && !OutOfSequence(ds, f) {
      FinishIsJudged(cfg, MessageOp(ds, f), Payloads(ds + [f]));
    }
  }

  /** Before the end of a message, its first data frame starts it. */
  lemma {:induction false} DataStarts(cfg: Config, fs: seq<Frame>, i: nat)
    requires AllKnown(fs) && i <= |fs| && forall j :: 0 <= j < i ==> !Ends(cfg, fs, j)
    ensures var ds := Data(fs[..i]);
            ds != [] ==> ds[0].op == OP_TEXT || ds[0].op == OP_BINARY
  {
    if i > 0 {
      DataStarts(cfg, fs, i - 1);
      DataStep(fs, i - 1);
      assert !Ends(cfg, fs, i - 1) && fs[i - 1] in fs;
    }
  }

  lemma ExhaustedCloses(end: Error)
    ensures ClosesWith(Exhausted(end).fx, if end == UnmaskedFrame || end == Protocol then Some(1002) else None)
  {
  }

  lemma {:induction false} EndIsJudged(cfg: Config, fs: seq<Frame>, i: nat)
    requires AllKnown(fs) && i < |fs| && Ends(cfg, fs, i)
    requires forall j :: 0 <= j < i ==> !Ends(cfg, fs, j)
    ensures var ds, f := Data(fs[..i]), fs[i];
            var o := Perform(cfg, Conclude(cfg, ds, f));
            && (o.Go? <==> Skips(cfg, ds, f))
            && (o.Go? ==> HangUp !in o.fx)
            && (o.Stop? ==> o.out.err == Judge(cfg, ds, f).err && ClosesWith(o.fx, Judge(cfg, ds, f).code))
  {
    DataStarts(cfg, fs, i);
    ConcludeIsJudged(cfg, Data(fs[..i]), fs[i]);
    hide Judge, Perform, Conclude, Skips, Data, ClosesWith;
  }

  /**
   * Reading returns the error, and closes with the code, of the verdict on the deciding part of the
   * stream; there is no error exactly when that verdict has none, and without a code no hang-up.
   */
  lemma {:induction false} ErrorsExact(cfg: Config, st: Stream)
    requires AllKnown(st.frames)
    ensures var r, v := SpecRead(cfg, st), VerdictOn(cfg, Deciding(cfg, st));
            r.out.err == v.err && ClosesWith(r.fx, v.code)
    decreases |st.frames|
  {
    hide Ends, Data, Judge, Perform, Conclude, Skips, ControlFx, ClosesWith;
    var fs := st.frames;
    var i := FirstEnd(cfg, fs, 0);
    var v := VerdictOn(cfg, Deciding(cfg, st));
    var next := if i == |fs| then Exhausted(st.end) else SpecRead(cfg, Left(fs, i, st.end));
    var r := Concluded(cfg, fs, i, st.end, next);
    assert r.out.err == v.err && ClosesWith(r.fx, v.code) by {
      if i < |fs| {
        EndIsJudged(cfg, fs, i);
        if Skips(cfg, Data(fs[..i]), fs[i]) {
          ErrorsExact(cfg, Left(fs, i, st.end));
          PrependedCloses(Perform(cfg, Conclude(cfg, Data(fs[..i]), fs[i])).fx, next, v.code);
        }
      } else {
        ExhaustedCloses(st.end);
      }
    }
    ControlsStayOpen(fs[..i]);
    PrependedCloses(ControlFx(fs[..i]), r, v.code);
  }

  /**
   * A protocol error is returned exactly when the deciding part of the stream ends in one, or its first
   * ending frame is a data frame out of sequence or completes an invalid text.
   */
  lemma {:induction false} ProtocolErrorIff(cfg: Config, st: Stream)
    requires AllKnown(st.frames)
    ensures var d := Deciding(cfg, st);
            var i := FirstEnd(cfg, d.frames, 0);
            SpecRead(cfg, st).out.err == Some(Protocol) <==>
              if i == |d.frames| then d.end == Protocol
              else
                var ds, f := Data(d.frames[..i]), d.frames[i];
                || OutOfSequence(ds, f)
                || (Completes(cfg, ds, f) && BadText(cfg, MessageOp(ds, f), Payloads(ds + [f])))
  {
    ErrorsExact(cfg, st);
    hide Read, SpecRead, Deciding;
  }

  /** What the frame reader rejects, as seen in the bytes. */
  ghost predicate Violates(s: Bytes) {
    BadFirstByte(s) || LengthTooBig(s) || StartsBadControl(s) || Unmasked(s)
  }

  lemma {:induction false} DecidingEnd(cfg: Config, st: Stream)
    ensures Deciding(cfg, st).end == st.end
    decreases |st.frames|
  {
    var i := FirstEnd(cfg, st.frames, 0);
    if i < |st.frames| && Skips(cfg, Data(st.frames[..i]), st.frames[i]) {
      DecidingEnd(cfg, Left(st.frames, i, st.end));
    }
  }

  /**
   * After any frames that decide nothing, bytes that break the grammar of frames end reading with a
   * protocol error, or with that for a missing mask, and with close code 1002.
   */
  lemma {:induction false} ViolationIsRejected(cfg: Config, es: seq<Encoded>, tail: Bytes)
    requires Sendable(es, cfg.max) && Violates(tail)
    requires var d := Deciding(cfg, Stream(FramesOf(es), ParseAll(cfg.max, tail).end));
             FirstEnd(cfg, d.frames, 0) == |d.frames|
    ensures var r := SpecRead(cfg, ParseAll(cfg.max, WireBytes(es, cfg.max) + tail));
            && r.out.err == Some(if Unmasked(tail) then UnmaskedFrame else Protocol)
            && ClosesWith(r.fx, Some(1002))
  {
    ParseSent(es, tail, cfg.max);
    ProtocolErrorExact(tail, cfg.max);
    UnmaskedExact(tail, cfg.max);
    var st := Stream(FramesOf(es), ParseAll(cfg.max, tail).end);
    assert FramesOf(es) + [] == FramesOf(es);
    ErrorsExact(cfg, st);
    DecidingEnd(cfg, st);
  }

  // ----- answers and results, byte by byte -----

  /** A close frame is answered by one with the same payload, and ends the connection's messages. */
  lemma {:induction false} CloseIsEchoed(cfg: Config, st: Stream, i: nat)
    requires i < |st.frames| && st.frames[i].op == 0x8
    requires forall j :: 0 <= j < i ==> !Ends(cfg, st.frames, j)
    ensures var r, p := SpecRead(cfg, st), st.frames[i].payload;
            && r.out == ReadOut(0x8, p, Some(EOF))
            && r.fx == ControlFx(st.frames[..i]) + [Sent(0x8, p)]
            && r.left == Stream(st.frames[i + 1..], st.end)
  {
    FirstEndAt(cfg, st.frames, 0, i);
  }

  /** A ping is answered by a pong with its payload, and a pong signalled, at any point of a message. */
  lemma {:induction false} ControlIsAnswered(cfg: Config, asm: Assembly, f: Frame, fs: seq<Frame>, end: Error)
    requires f.op == 0x9 || f.op == 0xA
    ensures Read(cfg, asm, Stream([f] + fs, end)) ==
            Prepend([if f.op == 0x9 then Sent(0xA, f.payload) else PongSignal], Read(cfg, asm, Stream(fs, end)))
  {
    assert ([f] + fs)[1..] == fs;
  }

  /** The close frames for a protocol error and for invalid text. */
  lemma {:induction false} CloseCodes()
    ensures CloseWith(1002) == [Sent(0x8, [0x03, 0xEA]), HangUp]
    ensures CloseWith(1007) == [Sent(0x8, [0x03, 0xEF]), HangUp]
  {
    assert ToBE(0, 0) == [];
    assert ToBE(3, 1) == ToBE(0, 0) + [3];
    assert ToBE(1002, 2) == ToBE(3, 1) + [0xEA] == [3, 0xEA];
    assert ToBE(1007, 2) == ToBE(3, 1) + [0xEF] == [3, 0xEF];
  }

  /** What the marks of Engine.IO do: message, noop, close, pong, probe and any other ping. */
  lemma {:induction false} MarksOfEngineIO(p: Bytes)
    ensures HandleEIO(0x1, [0x34] + p) == Stripped(ReadOut(0x1, p, None), [])
    ensures HandleEIO(0x1, [0x36] + p) == Stripped(ReadOut(0x1, [], None), [])
    ensures HandleEIO(0x1, [0x31] + p) == Stripped(ReadOut(0x8, [0x31] + p, Some(EOF)), [])
    ensures var r := HandleEIO(0x1, p);
            HandleEIO(0x1, [0x33] + p) == Stripped(r.out, [PongSignal] + r.fx)
    ensures HandleEIO(0x1, [0x32] + p) ==
            if p == [0x70, 0x72, 0x6F, 0x62, 0x65] then Stripped(ReadOut(0x1, [0x32] + p, None), [])
            else Stripped(ReadOut(0x1, [], None), [Sent(0x1, [0x33] + p)])
  {
    forall b: Byte
      ensures ([b] + p)[1..] == p
    {
    }
  }

  /**
   * A message in any fragments within the limit is returned: a binary one as it is, a valid text one stripped
   * if that leaves something, and an invalid text one with a protocol error and close code 1007.
   */
  lemma {:induction false} ReadReturns(cfg: Config, block: seq<Frame>, op: Opcode, m: Bytes,
                                       rest: seq<Frame>, end: Error)
    requires CarriesMessage(block, op, m) && !TooLong(cfg, |m|) && AllKnown(rest)
    ensures var r := Read(cfg, Idle, Stream(block + rest, end));
            var before := ControlFx(block[..|block| - 1]);
            if BadText(cfg, op, m) then
              && r.out == ReadOut(0x1, m, Some(Protocol)) && r.fx == before + CloseWith(1007)
              && r.left == Stream(rest, end)
            else if op == 0x2 then
              r == ReadResult(ReadOut(0x2, m, None), before, Stream(rest, end))
            else if Unmarked(Peeled(m)).msg != [] then
              r == ReadResult(Unmarked(Peeled(m)), before + HandleEIO(0x1, m).fx, Stream(rest, end))
            else
              var next := Read(cfg, Idle, Stream(rest, end));
              r == ReadResult(next.out, before + (HandleEIO(0x1, m).fx + next.fx), next.left)
  {
    ReadCarried(cfg, block, op, m, rest, end);
    StripPeelsPongs(m);
    var before := ControlFx(block[..|block| - 1]);
    assert before + [] == before;
    hide Read, ControlFx, Peeled, CarriesMessage;
  }

  /** The payload is reported as too large exactly for a frame so announced, or a message grown over the limit. */
  lemma {:induction false} TooLargeIff(cfg: Config, st: Stream)
    requires AllKnown(st.frames)
    ensures var d := Deciding(cfg, st);
            var i := FirstEnd(cfg, d.frames, 0);
            SpecRead(cfg, st).out.err == Some(PayloadTooLarge) <==>
              if i == |d.frames| then d.end == PayloadTooLarge
              else
                var ds, f := Data(d.frames[..i]), d.frames[i];
                ds != [] && f.op == 0x0 && 0 < cfg.max < |Payloads(ds)| + |f.payload|
  {
    ErrorsExact(cfg, st);
    DecidingKnown(cfg, st);
    hide Read, SpecRead, Deciding;
  }

  lemma {:induction false} DecidingKnown(cfg: Config, st: Stream)
    requires AllKnown(st.frames)
    ensures AllKnown(Deciding(cfg, st).frames)
    decreases |st.frames|
  {
    var i := FirstEnd(cfg, st.frames, 0);
    if i < |st.frames| && Skips(cfg, Data(st.frames[..i]), st.frames[i]) {
      DecidingKnown(cfg, Left(st.frames, i, st.end));
    }
  }

  /** The stream without its pings and pongs. */
  function WithoutPings(fs: seq<Frame>): seq<Frame> {
    if fs == [] then []
    else if fs[0].op == OP_PING || fs[0].op == OP_PONG then WithoutPings(fs[1..])
    else [fs[0]] + WithoutPings(fs[1..])
  }

  /** Pings and pongs never change what is read, at any point of a partial message. */
  lemma {:induction false} PingsAreInert(cfg: Config, asm: Assembly, fs: seq<Frame>, end: Error)
    ensures Read(cfg, asm, Stream(fs, end)).out == Read(cfg, asm, Stream(WithoutPings(fs), end)).out
    decreases |fs|
  {
    if fs != [] {
      var ws := WithoutPings(fs);
      match Perform(cfg, Classify(cfg, asm, fs[0])) {
        case Stop(_, _) =>
          assert ws[0] == fs[0];
        case Go(asm', _) =>
          PingsAreInert(cfg, asm', fs[1..], end);
          if ws != WithoutPings(fs[1..]) {
            assert ws[0] == fs[0] && ws[1..] == WithoutPings(fs[1..]);
          }
      }
    }
  }

  /** Replies are legal frames, and neither they nor the partial message exceed the payload limit. */
  predicate ModestEffect(cfg: Config, e: Effect) {
    e.Sent? ==> Writable(e.op, |e.payload|) && !(e.op < 8 && TooLong(cfg, |e.payload|))
  }

  ghost predicate ModestFx(cfg: Config, fx: seq<Effect>) {
    forall e :: e in fx ==> ModestEffect(cfg, e)
  }

  predicate ModestState(cfg: Config, asm: Assembly) {
    asm.Partial? ==> !TooLong(cfg, |asm.msg|)
  }

  lemma {:induction false} StrippedIsModest(cfg: Config, op: Opcode, p: Bytes)
    requires !TooLong(cfg, |p|)
    ensures var h := HandleEIO(op, p);
            |h.out.msg| <= |p| && ModestFx(cfg, h.fx)
    decreases |p|
  {
    if op != OP_BINARY && p != [] && p[0] == EIO_PONG {
      StrippedIsModest(cfg, OP_TEXT, p[1..]);
    }
  }

  lemma StepIsModest(cfg: Config, asm: Assembly, f: Frame)
    requires Legal(f, cfg.max) && ModestState(cfg, asm)
    ensures match Classify(cfg, asm, f)
            case Carry(asm', fx) => ModestState(cfg, asm') && ModestFx(cfg, fx)
            case Return(out, fx) => out.err != None && ModestFx(cfg, fx)
            case Complete(op, m) => !TooLong(cfg, |m|)
  {
  }

  /** At every frame up to the end of a message, the part assembled so far is within the limit. */
  lemma {:induction false} PartialIsModest(cfg: Config, fs: seq<Frame>, k: nat)
    requires (forall f :: f in fs ==> Legal(f, cfg.max)) && k <= FirstEnd(cfg, fs, 0)
    ensures ModestState(cfg, StateAfter(Data(fs[..k]))) && !TooLong(cfg, |Payloads(Data(fs[..k]))|)
  {
    if k > 0 {
      PartialIsModest(cfg, fs, k - 1);
      assert fs[k - 1] in fs;
      CarriesOn(cfg, fs, k - 1);
      StepIsModest(cfg, StateAfter(Data(fs[..k - 1])), fs[k - 1]);
    }
  }

  lemma {:induction false} ReadIsModest(cfg: Config, asm: Assembly, st: Stream)
    requires (forall f :: f in st.frames ==> Legal(f, cfg.max)) && ModestState(cfg, asm)
    ensures var r := Read(cfg, asm, st);
            ModestFx(cfg, r.fx) && (r.out.err == None ==> !TooLong(cfg, |r.out.msg|))
    decreases |st.frames|
  {
    if st.frames != [] {
      var a := Classify(cfg, asm, st.frames[0]);
      StepIsModest(cfg, asm, st.frames[0]);
      if a.Complete? {
        StrippedIsModest(cfg, a.op, a.m);
      }
      var o := Perform(cfg, a);
      if o.Go? {
        ReadIsModest(cfg, o.asm, Stream(st.frames[1..], st.end));
      }
    }
  }

  lemma {:induction false} ParsedFirst(cfg: Config, asm: Assembly, s: Bytes, f: Frame, rest: Bytes)
    requires ReadFrame(s, cfg.max) == Got(f, rest)
    ensures Legal(f, cfg.max)
    ensures var left := ParseAll(cfg.max, rest);
            var r, o := Read(cfg, asm, ParseAll(cfg.max, s)), Perform(cfg, Classify(cfg, asm, f));
            && (o.Stop? ==> r == ReadResult(o.out, o.fx, left))
            && (o.Go? ==> r == Prepend(o.fx, Read(cfg, o.asm, left)))
  {
    GotIsLegal(s, f, rest, cfg.max);
    ParseAllOf(cfg.max, s, f, rest);
    assert ([f] + ParseAll(cfg.max, rest).frames)[1..] == ParseAll(cfg.max, rest).frames;
  }

  lemma ParsedEnd(cfg: Config, asm: Assembly, s: Bytes)
    requires ReadFrame(s, cfg.max).Bad?
    ensures Read(cfg, asm, ParseAll(cfg.max, s)) == Exhausted(ReadFrame(s, cfg.max).error)
  {
  }

  /** The loop's three variables as one state. */
  function Pack(fragmented: bool, opcode: Opcode, msg: Bytes): Assembly {
    if fragmented then Partial(opcode, msg) else Idle
  }

  // ----- the code -----

  function WritesOf(fx: seq<Effect>): seq<Written> {
    if fx == [] then []
    else
      var ws := WritesOf(fx[..|fx| - 1]);
      match fx[|fx| - 1]
      case Sent(op, p) => ws + [Written(op, p)]
      case _ => ws
  }

  lemma {:induction false} ServerBytesAppend(ws: seq<Written>, w: Written)
    ensures ServerBytes(ws + [w]) == ServerBytes(ws) + ServerFrame(w.op, w.payload)
  {
    if ws == [] {
      assert [w][1..] == [] && ServerBytes([]) == [];
      assert ServerBytes([w]) == ServerFrame(w.op, w.payload) + [];
    } else {
      ServerBytesAppend(ws[1..], w);
      assert (ws + [w])[1..] == ws[1..] + [w] && (ws + [w])[0] == ws[0];
      AppendAssoc(ServerFrame(ws[0].op, ws[0].payload), ServerBytes(ws[1..]), ServerFrame(w.op, w.payload));
    }
  }

  /** The server's end of one WebSocket connection. */
  class WSConn {
    const cfg: Config
    var reader: Reader
    var writer: Writer
    /** The one-slot channel that tells the heartbeat a pong arrived. */
    var pong: bool
    ghost var log: seq<Effect>

    /** Everything on the wire is the frames of the logged writes, in order. */
    ghost predicate Valid()
      reads this, writer
    {
      writer.out == ServerBytes(WritesOf(log))
    }

    constructor (cfg: Config, input: Bytes)
      ensures Valid() && this.cfg == cfg && reader.rest == input && log == [] && !pong
      ensures fresh(reader) && fresh(writer)
    {
      this.cfg := cfg;
      reader := new Reader(input);
      writer := new Writer();
      pong, log := false, [];
    }

    method SignalPong()
      requires Valid()
      modifies this`pong, this`log
      ensures Valid() && pong && log == old(log) + [PongSignal]
    {
      pong := true;
      log := log + [PongSignal];
      assert log[..|log| - 1] == old(log);
    }

    /** A frame the writer refuses is dropped without a word. */
    method SendFrame(op: Opcode, p: Bytes)
      requires Valid()
      modifies writer, this`log
      ensures Valid() && log == old(log) + if Writable(op, |p|) then [Sent(op, p)] else []
    {
      var err := WriteFrame(writer, op, p);
      if err != None {
        return;
      }
      ServerBytesAppend(WritesOf(log), Written(op, p));
      log := log + [Sent(op, p)];
      assert log[..|log| - 1] == old(log);
    }

    method WriteText(p: Bytes) returns (err: Option<Error>)
      requires Valid()
      modifies writer, this`log
      ensures Valid()
      ensures err == if TooLong(cfg, |p|) then Some(PayloadTooLarge) else None
      ensures log == old(log) + if TooLong(cfg, |p|) then [] else [Sent(OP_TEXT, p)]
    {
      if |p| > cfg.max && cfg.max > 0 {
        return Some(PayloadTooLarge);
      }
      SendFrame(OP_TEXT, p);
      err := None;
    }

    method WriteBinary(p: Bytes) returns (err: Option<Error>)
      requires Valid()
      modifies writer, this`log
      ensures Valid()
      ensures err == if TooLong(cfg, |p|) then Some(PayloadTooLarge) else None
      ensures log == old(log) + if TooLong(cfg, |p|) then [] else [Sent(OP_BINARY, p)]
    {
      if |p| > cfg.max && cfg.max > 0 {
        return Some(PayloadTooLarge);
      }
      SendFrame(OP_BINARY, p);
      err := None;
    }

    method SendCloseCode(code: nat)
      requires Valid()
      modifies writer, this`log
      ensures Valid() && log == old(log) + CloseWith(code)
    {
      SendFrame(OP_CLOSE, ToBE(code, 2));
      log := log + [HangUp];
      assert log[..|log| - 1] == old(log) + [Sent(OP_CLOSE, ToBE(code, 2))];
    }

    method Strip(op: Opcode, p: Bytes) returns (r: ReadOut)
      requires Valid() && !TooLong(cfg, |p|)
      modifies writer, this`log, this`pong
      ensures Valid() && r == HandleEIO(op, p).out && log == old(log) + HandleEIO(op, p).fx
      decreases |p|
    {
      if op == OP_BINARY || |p| == 0 {
        return ReadOut(op, p, None);
      }
      if p[0] == EIO_PONG {
        SignalPong();
        r := Strip(OP_TEXT, p[1..]);
        AppendAssoc(old(log), [PongSignal], HandleEIO(OP_TEXT, p[1..]).fx);
      } else if p[0] == EIO_MESSAGE {
        r := ReadOut(OP_TEXT, p[1..], None);
      } else if p[0] == EIO_PING {
        if |p| > 1 && p[1..] == PROBE {
          return ReadOut(OP_TEXT, p, None);
        }
        var _ := WriteText([EIO_PONG] + p[1..]);
        r := ReadOut(OP_TEXT, [], None);
      } else if p[0] == EIO_CLOSE {
        r := ReadOut(OP_CLOSE, p, Some(EOF));
      } else if p[0] == EIO_NOOP {
        r := ReadOut(OP_TEXT, [], None);
      } else {
        r := ReadOut(OP_TEXT, p, None);
      }
    }

    /** A complete message; `more` says that nothing was left of it. */
    method FinishMessage(op: Opcode, m: Bytes) returns (more: bool, r: ReadOut)
      requires Valid() && !TooLong(cfg, |m|)
      modifies writer, this`log, this`pong
      ensures Valid() && log == old(log) + Finish(cfg, op, m).fx
      ensures more <==> Finish(cfg, op, m).Go?
      ensures !more ==> r == Finish(cfg, op, m).out
    {
      if op == OP_TEXT && cfg.checkUtf8 && !cfg.utf8(m) {
        SendCloseCode(1007);
        return false, ReadOut(op, m, Some(Protocol));
      }
      r := Strip(op, m);
      more := r.err == None && |r.msg| == 0 && r.op != OP_BINARY;
    }

    /** One round of the read loop; `stop` says that `r` is to be returned. */
    method HandleFrame(f: Frame, fragmented: bool, opcode: Opcode, msg: Bytes)
      returns (stop: bool, r: ReadOut, fragmented': bool, opcode': Opcode, msg': Bytes)
      requires Valid() && Legal(f, cfg.max)
      requires fragmented ==> !TooLong(cfg, |msg|)
      modifies writer, this`log, this`pong
      ensures Valid()
      ensures var o := Perform(cfg, Classify(cfg, Pack(fragmented, opcode, msg), f));
              && log == old(log) + o.fx
              && stop == o.Stop?
              && (stop ==> r == o.out)
              && (!stop ==> Pack(fragmented', opcode', msg') == o.asm)
      ensures fragmented' ==> !TooLong(cfg, |msg'|)
    {
      stop, r := false, ReadOut(0, [], None);
      fragmented', opcode', msg' := fragmented, opcode, msg;
      var complete, op, m := false, f.op, f.payload;
      if f.op == OP_PING {
        SendFrame(OP_PONG, f.payload);
        return;
      }
      if f.op == OP_PONG {
        SignalPong();
        return;
      }
      if f.op == OP_CLOSE {
        SendFrame(OP_CLOSE, f.payload);
        stop, r := true, ReadOut(OP_CLOSE, f.payload, Some(EOF));
        return;
      }
      if f.op == OP_CONTINUATION {
        if !fragmented {
          SendCloseCode(1002);
          stop, r := true, ReadOut(0, [], Some(Protocol));
          return;
        }
        if |msg| + |f.payload| > cfg.max && cfg.max > 0 {
          stop, r := true, ReadOut(0, [], Some(PayloadTooLarge));
          return;
        }
        msg' := msg + f.payload;
        if !f.fin {
          return;
        }
        fragmented', op, m := false, opcode, msg';
      } else {
        if (f.op != OP_TEXT && f.op != OP_BINARY) || fragmented {
          SendCloseCode(1002);
          stop, r := true, ReadOut(0, [], Some(Protocol));
          return;
        }
        if !f.fin {
          fragmented', opcode', msg' := true, f.op, f.payload;
          return;
        }
      }
      assert Classify(cfg, Pack(fragmented, opcode, msg), f) == Complete(op, m);
      var more;
      more, r := FinishMessage(op, m);
      FinishIdles(cfg, Complete(op, m));
      stop := !more;
    }

    method ReadMessage() returns (r: ReadOut)
      requires Valid()
      modifies reader, writer, this`log, this`pong
      ensures Valid()
      ensures var spec := SpecRead(cfg, ParseAll(cfg.max, old(reader.rest)));
              && r == spec.out && log == old(log) + spec.fx
              && (r.err == None ==> ParseAll(cfg.max, reader.rest) == spec.left)
      ensures r.err == None ==> !TooLong(cfg, |r.msg|) && |reader.rest| < |old(reader.rest)|
    {
      ghost var st0 := ParseAll(cfg.max, reader.rest);
      ghost var done := [];
      ReadIsSpec(cfg, st0);
      ReadIsModest(cfg, Idle, st0);
      var msg: Bytes, opcode: Opcode, fragmented := [], 0, false;
      assert Read(cfg, Idle, st0) == Prepend(done, Read(cfg, Idle, st0));
      hide Read, SpecRead, ParseAll, Perform, Classify, ReadFrame;
      while true
        invariant Valid() && log == old(log) + done && |reader.rest| <= |old(reader.rest)|
        invariant Read(cfg, Idle, st0) ==
                  Prepend(done, Read(cfg, Pack(fragmented, opcode, msg), ParseAll(cfg.max, reader.rest)))
        invariant fragmented ==> !TooLong(cfg, |msg|)
        decreases |reader.rest|
      {
        ghost var asm := Pack(fragmented, opcode, msg);
        ghost var here := reader.rest;
        var f, err := ReadFrameFrom(reader, cfg.max);
        if err != None {
          ParsedEnd(cfg, asm, here);
          if err == Some(UnmaskedFrame) || err == Some(Protocol) {
            SendCloseCode(1002);
          }
          r := ReadOut(0, [], err);
          AppendAssoc(old(log), done, Exhausted(err.value).fx);
          return;
        }
        ParsedFirst(cfg, asm, here, f, reader.rest);
        ghost var fx := Perform(cfg, Classify(cfg, asm, f)).fx;
        var stop;
        stop, r, fragmented, opcode, msg := HandleFrame(f, fragmented, opcode, msg);
        AppendAssoc(old(log), done, fx);
        if stop {
          return;
        }
        PrependTwice(done, fx, Read(cfg, Pack(fragmented, opcode, msg), ParseAll(cfg.max, reader.rest)));
        done := done + fx;
      }
    }
  }
}
