/**
 * One WebSocket frame on the wire (RFC 6455 sections 5.2 and 5.3): the server's frame reader, which
 * accepts only masked frames, and its frame writer, which emits only unmasked ones. The two missing
 * halves, a client's masked encoding and a client's unmasked decoder, are specification functions.
 */
module Frames {
  import opened Options
  import opened Bits
  import opened ByteSeqs

  /** The four opcode bits of a frame. */
  type Opcode = x: int | 0 <= x < 0x10

  const OP_CONTINUATION: Opcode := 0x0
  const OP_TEXT: Opcode := 0x1
  const OP_BINARY: Opcode := 0x2
  const OP_CLOSE: Opcode := 0x8
  const OP_PING: Opcode := 0x9
  const OP_PONG: Opcode := 0xA

  datatype Error = EOF | UnexpectedEOF | UnmaskedFrame | PayloadTooLarge | Protocol

  datatype Frame = Frame(fin: bool, op: Opcode, payload: Bytes)

  // ----- what a legal frame is -----

  predicate KnownOp(op: Opcode) {
    op <= OP_BINARY || OP_CLOSE <= op <= OP_PONG
  }

  /** Control frames are unfragmented and short; `max == 0` means no limit on the payload. */
  predicate Legal(f: Frame, max: nat) {
    && KnownOp(f.op)
    && (f.op >= 8 ==> f.fin && |f.payload| <= 125)
    && |f.payload| <= MAX_INT
    && (max > 0 ==> |f.payload| <= max)
  }

  // ----- a client's masked encoding -----

  /** The three ways to write a payload length. */
  datatype LenForm = Short | Word | Quad

  predicate Holds(form: LenForm, n: nat) {
    match form
    case Short => n <= 125
    case Word => n <= 0xFFFF
    case Quad => n <= MAX_INT
  }

  /** The length bytes, the mask bit first; the extended forms keep the low bytes of the length. */
  function LenBytes(form: LenForm, n: nat, masked: bool): (s: Bytes)
    requires form == Short ==> n <= 125
    ensures s != []
  {
    var bit := if masked then 0x80 else 0;
    match form
    case Short => [bit + n]
    case Word => [bit + 126] + ToBE(n, 2)
    case Quad => [bit + 127] + ToBE(n, 8)
  }

  function ShortestForm(n: nat): LenForm {
    if n <= 125 then Short else if n <= 0xFFFF then Word else Quad
  }

  function XorMask(p: Bytes, mask: Bytes): (r: Bytes)
    requires |mask| == 4
    ensures |r| == |p|
  {
    seq(|p|, i requires 0 <= i < |p| => Xor(p[i], mask[i % 4]))
  }

  lemma {:induction false} XorMaskTwice(p: Bytes, mask: Bytes)
    requires |mask| == 4
    ensures XorMask(XorMask(p, mask), mask) == p
  {
    forall i | 0 <= i < |p|
      ensures XorMask(XorMask(p, mask), mask)[i] == p[i]
    {
      XorTwice(p[i], mask[i % 4]);
    }
  }

  function FirstByte(fin: bool, op: Opcode): Byte {
    (if fin then 0x80 else 0) + op
  }

  /** The masked encoding of `f`, with any mask and any length form that can hold the length. */
  function Masked(f: Frame, mask: Bytes, form: LenForm): Bytes
    requires |mask| == 4 && Holds(form, |f.payload|)
  {
    [FirstByte(f.fin, f.op)] + LenBytes(form, |f.payload|, true) + mask + XorMask(f.payload, mask)
  }

  // ----- the frame reader as a function -----

  datatype ReadResult =
    | Got(frame: Frame, rest: Bytes)
    | Bad(error: Error, rest: Bytes)

  /** What a full read of `n` bytes reports when the stream holds fewer. */
  function ShortRead(s: Bytes): Error {
    if s == [] then EOF else UnexpectedEOF
  }

  datatype LenResult =
    | Len(n: nat, rest: Bytes)
    | BadLen(error: Error, rest: Bytes)

  /** The payload length, given the second byte of the frame and the bytes after it. */
  function ReadLen(b1: Byte, s: Bytes): (r: LenResult)
    ensures |r.rest| <= |s|
  {
    if LowSeven(b1) == 126 then
      if |s| < 2 then BadLen(ShortRead(s), []) else Len(FromBE(s[..2]), s[2..])
    else if LowSeven(b1) == 127 then
      if |s| < 8 then BadLen(ShortRead(s), [])
      else if TopBit(s[0]) then BadLen(Protocol, s[8..])
      else Len(FromBE(s[..8]), s[8..])
    else
      Len(LowSeven(b1), s)
  }

  /** The mask and payload of a frame whose header announced `n` bytes. */
  function ReadBody(fin: bool, op: Opcode, n: nat, s: Bytes, max: nat): (r: ReadResult)
    ensures |r.rest| <= |s|
  {
    if op >= 8 && (!fin || n > 125) then Bad(Protocol, s)
    else if max > 0 && n > max then Bad(PayloadTooLarge, s)
    else if |s| < 4 then Bad(ShortRead(s), [])
    else
      var mask, body := s[..4], s[4..];
      if |body| < n then Bad(ShortRead(body), [])
      else Got(Frame(fin, op, XorMask(body[..n], mask)), body[n..])
  }

  /** The part of a frame after its first byte. */
  function ReadAfterOp(fin: bool, op: Opcode, s: Bytes, max: nat): (r: ReadResult)
    ensures |r.rest| <= |s|
  {
    if s == [] then Bad(EOF, [])
    else if !TopBit(s[0]) then Bad(UnmaskedFrame, s[1..])
    else
      match ReadLen(s[0], s[1..])
      case BadLen(e, rest) => Bad(e, rest)
      case Len(n, rest) => ReadBody(fin, op, n, rest, max)
  }

  function ReadFrame(s: Bytes, max: nat): (r: ReadResult)
    ensures r.Got? ==> |r.rest| < |s|
  {
    if s == [] then Bad(EOF, [])
    else if Reserved(s[0]) != 0 || !KnownOp(LowFour(s[0])) then Bad(Protocol, s[1..])
    else ReadAfterOp(TopBit(s[0]), LowFour(s[0]), s[1..], max)
  }

  // ----- the reader accepts exactly the masked encodings of legal frames -----

  lemma FirstByteBits(fin: bool, op: Opcode)
    ensures var b := FirstByte(fin, op);
            Reserved(b) == 0 && LowFour(b) == op && TopBit(b) == fin
  {
  }

  lemma {:induction false} ReadLenOf(form: LenForm, n: nat, t: Bytes)
    requires Holds(form, n)
    ensures var h := LenBytes(form, n, true);
            && TopBit(h[0])
            && ReadLen(h[0], h[1..] + t) == Len(n, t)
  {
    var h := LenBytes(form, n, true);
    match form {
      case Short =>
        assert h[1..] + t == t;
      case Word =>
        var w := ToBE(n, 2);
        Pow256Values();
        FromToBE(n, 2);
        assert (w + t)[..2] == w && (w + t)[2..] == t;
        assert h[1..] == w;
      case Quad =>
        var w := ToBE(n, 8);
        Pow256Values();
        FromToBE(n, 8);
        TopBitOf(w);
        assert (w + t)[..8] == w && (w + t)[8..] == t;
        assert h[1..] == w;
    }
  }

  lemma {:induction false} Pow256Values()
    ensures Pow256(2) == 0x10000
    ensures Pow256(8) == 0x1_0000_0000_0000_0000 && 128 * Pow256(7) == MAX_INT + 1
  {
    assert Pow256(2) == 0x100 * Pow256(1) && Pow256(1) == 0x100;
    assert Pow256(4) == 0x10000 * Pow256(2);
    assert Pow256(7) == 0x100_0000 * Pow256(4);
  }

  lemma {:induction false} ReadBodyOf(f: Frame, mask: Bytes, rest: Bytes, max: nat)
    requires |mask| == 4 && Legal(f, max)
    ensures ReadBody(f.fin, f.op, |f.payload|, mask + XorMask(f.payload, mask) + rest, max) == Got(f, rest)
  {
    var x := XorMask(f.payload, mask);
    var s := mask + x + rest;
    assert s[..4] == mask && s[4..] == x + rest;
    assert (x + rest)[..|x|] == x && (x + rest)[|x|..] == rest;
    XorMaskTwice(f.payload, mask);
  }

  lemma {:induction false} ReadAfterOpOf(f: Frame, mask: Bytes, form: LenForm, rest: Bytes, max: nat)
    requires |mask| == 4 && Holds(form, |f.payload|) && Legal(f, max)
    ensures var h := LenBytes(form, |f.payload|, true);
            ReadAfterOp(f.fin, f.op, h + (mask + XorMask(f.payload, mask) + rest), max) == Got(f, rest)
  {
    var h := LenBytes(form, |f.payload|, true);
    var body := mask + XorMask(f.payload, mask) + rest;
    assert (h + body)[0] == h[0] && (h + body)[1..] == h[1..] + body;
    ReadLenOf(form, |f.payload|, body);
    ReadBodyOf(f, mask, rest, max);
  }

  /** Reading the masked encoding of a legal frame returns that frame and consumes exactly its bytes. */
  lemma {:induction false} ReadMasked(f: Frame, mask: Bytes, form: LenForm, rest: Bytes, max: nat)
    requires |mask| == 4 && Holds(form, |f.payload|) && Legal(f, max)
    ensures ReadFrame(Masked(f, mask, form) + rest, max) == Got(f, rest)
  {
    var h := LenBytes(form, |f.payload|, true);
    var body := mask + XorMask(f.payload, mask) + rest;
    var s := Masked(f, mask, form) + rest;
    assert s[0] == FirstByte(f.fin, f.op) && s[1..] == h + body;
    FirstByteBits(f.fin, f.op);
    ReadAfterOpOf(f, mask, form, rest, max);
  }

  /** `s` starts with a masked encoding of the legal frame `f`, and `rest` is what follows it. */
  ghost predicate EncodesThen(s: Bytes, f: Frame, rest: Bytes, max: nat) {
    && Legal(f, max)
    && exists mask: Bytes, form | |mask| == 4 && Holds(form, |f.payload|) :: s == Masked(f, mask, form) + rest
  }

  lemma {:induction false} ExtendedLenOf(form: LenForm, s: Bytes, k: nat)
    requires (form == Word && k == 2) || (form == Quad && k == 8)
    requires |s| >= k && (form == Quad ==> !TopBit(s[0]))
    ensures var n := FromBE(s[..k]);
            Holds(form, n) && LenBytes(form, n, true)[1..] + s[k..] == s
  {
    var x := s[..k];
    ToFromBE(x);
    assert s == x + s[k..];
    Pow256Values();
    if form == Quad {
      TopBitOf(x);
    }
    assert LenBytes(form, FromBE(x), true)[1..] == ToBE(FromBE(x), k);
  }

  lemma {:induction false} LenBytesOf(b1: Byte, s: Bytes, n: nat, rest: Bytes) returns (form: LenForm)
    requires TopBit(b1) && ReadLen(b1, s) == Len(n, rest)
    ensures Holds(form, n) && [b1] + s == LenBytes(form, n, true) + rest
  {
    form := if LowSeven(b1) == 126 then Word else if LowSeven(b1) == 127 then Quad else Short;
    if form != Short {
      ExtendedLenOf(form, s, if form == Word then 2 else 8);
    }
    var h := LenBytes(form, n, true);
    assert h[0] == b1;
    assert h[1..] + rest == s;
    assert h == [b1] + h[1..];
  }

  lemma {:induction false} AfterOpMasked(f: Frame, s: Bytes, rest: Bytes, max: nat) returns (mask: Bytes, form: LenForm)
    requires ReadAfterOp(f.fin, f.op, s, max) == Got(f, rest)
    ensures |mask| == 4 && Holds(form, |f.payload|) && |f.payload| <= MAX_INT
    ensures (f.op >= 8 ==> f.fin && |f.payload| <= 125) && (max > 0 ==> |f.payload| <= max)
    ensures s == LenBytes(form, |f.payload|, true) + (mask + XorMask(f.payload, mask) + rest)
  {
    var len := ReadLen(s[0], s[1..]);
    form := LenBytesOf(s[0], s[1..], len.n, len.rest);
    mask := len.rest[..4];
    BodyRead(f, len.n, len.rest, rest, max);
    assert s == [s[0]] + s[1..];
    HoldsLimit(form, len.n);
  }

  lemma {:induction false} MaskedOf(s: Bytes, f: Frame, rest: Bytes, max: nat) returns (mask: Bytes, form: LenForm)
    requires ReadFrame(s, max) == Got(f, rest)
    ensures |mask| == 4 && Holds(form, |f.payload|) && Legal(f, max)
    ensures s == Masked(f, mask, form) + rest
  {
    SameHeader(s, f, rest, max);
    mask, form := AfterOpMasked(f, s[1..], rest, max);
    FirstByteOf(s[0]);
    MaskedJoin(s, f, mask, form, rest);
  }

  lemma {:induction false} MaskedJoin(s: Bytes, f: Frame, mask: Bytes, form: LenForm, rest: Bytes)
    requires |mask| == 4 && Holds(form, |f.payload|)
    requires s != [] && s[0] == FirstByte(f.fin, f.op)
    requires s[1..] == LenBytes(form, |f.payload|, true) + (mask + XorMask(f.payload, mask) + rest)
    ensures s == Masked(f, mask, form) + rest
  {
    var b, h, x := [FirstByte(f.fin, f.op)], LenBytes(form, |f.payload|, true), XorMask(f.payload, mask);
    hide LenBytes, XorMask, FirstByte, Holds;
    assert s == [s[0]] + s[1..];
    AppendAssoc(b, h, mask + x + rest);
    AppendAssoc(b + h, mask + x, rest);
    AppendAssoc(b + h, mask, x);
  }

  /** What the reader accepts is a masked encoding of the frame it returns. */
  lemma {:induction false} ReadOnlyMasked(s: Bytes, f: Frame, rest: Bytes, max: nat)
    requires ReadFrame(s, max) == Got(f, rest)
    ensures EncodesThen(s, f, rest, max)
  {
    var mask, form := MaskedOf(s, f, rest, max);
  }

  lemma SameHeader(s: Bytes, f: Frame, rest: Bytes, max: nat)
    requires ReadFrame(s, max) == Got(f, rest)
    ensures Reserved(s[0]) == 0 && KnownOp(f.op) && f.fin == TopBit(s[0]) && f.op == LowFour(s[0])
    ensures ReadAfterOp(f.fin, f.op, s[1..], max) == Got(f, rest)
  {
  }

  lemma HoldsLimit(form: LenForm, n: nat)
    requires Holds(form, n)
    ensures n <= MAX_INT
  {
  }

  lemma FirstByteOf(b: Byte)
    requires Reserved(b) == 0
    ensures FirstByte(TopBit(b), LowFour(b)) == b
  {
  }

  lemma {:induction false} BodyRead(f: Frame, n: nat, s: Bytes, rest: Bytes, max: nat)
    requires ReadBody(f.fin, f.op, n, s, max) == Got(f, rest)
    ensures |s| >= 4 && n == |f.payload| && s == s[..4] + XorMask(f.payload, s[..4]) + rest
    ensures (f.op >= 8 ==> f.fin && n <= 125) && (max > 0 ==> n <= max)
  {
    var mask, body := s[..4], s[4..];
    XorMaskTwice(body[..n], mask);
    assert body == body[..n] + rest;
  }

  /** The frame reader returns `f` exactly on the masked encodings of `f`, when `f` is legal. */
  lemma {:induction false} ReadFrameExact(s: Bytes, f: Frame, rest: Bytes, max: nat)
    ensures ReadFrame(s, max) == Got(f, rest) <==> EncodesThen(s, f, rest, max)
  {
    if ReadFrame(s, max) == Got(f, rest) {
      ReadOnlyMasked(s, f, rest, max);
    }
    if EncodesThen(s, f, rest, max) {
      var mask: Bytes, form :| |mask| == 4 && Holds(form, |f.payload|) && s == Masked(f, mask, form) + rest;
      ReadMasked(f, mask, form, rest, max);
    }
  }

  // ----- what the reader rejects -----

  /** The first byte has a reserved bit, or an opcode that is not defined. */
  predicate BadFirstByte(s: Bytes) {
    s != [] && (Reserved(s[0]) != 0 || !KnownOp(LowFour(s[0])))
  }

  /** A known opcode, and no mask bit. */
  predicate Unmasked(s: Bytes) {
    |s| >= 2 && !BadFirstByte(s) && !TopBit(s[1])
  }

  /** A masked header with an eight-byte length whose top bit is set. */
  predicate LengthTooBig(s: Bytes) {
    |s| >= 10 && !BadFirstByte(s) && s[1] == 0xFF && TopBit(s[2])
  }

  /** What a header says: final, opcode, length and the form it is written in. */
  datatype Header = Header(fin: bool, op: Opcode, form: LenForm, n: nat)

  predicate ValidHeader(h: Header) {
    KnownOp(h.op) && Holds(h.form, h.n)
  }

  function HeaderBytes(h: Header, masked: bool): (s: Bytes)
    requires ValidHeader(h)
    ensures |s| >= 2
  {
    [FirstByte(h.fin, h.op)] + LenBytes(h.form, h.n, masked)
  }

  /** A header of a control frame that is fragmented or over 125 bytes. */
  predicate BadControl(h: Header) {
    ValidHeader(h) && h.op >= 8 && (!h.fin || h.n > 125)
  }

  ghost predicate StartsBadControl(s: Bytes) {
    exists h, rest | BadControl(h) :: s == HeaderBytes(h, true) + rest
  }

  /** The reader on a complete masked header: only the checks on the payload are left. */
  lemma {:induction false} ReadHeader(h: Header, rest: Bytes, max: nat)
    requires ValidHeader(h)
    ensures ReadFrame(HeaderBytes(h, true) + rest, max) == ReadBody(h.fin, h.op, h.n, rest, max)
  {
    var lb := LenBytes(h.form, h.n, true);
    var s := HeaderBytes(h, true) + rest;
    assert s[0] == FirstByte(h.fin, h.op) && s[1..] == lb + rest;
    assert (lb + rest)[0] == lb[0] && (lb + rest)[1..] == lb[1..] + rest;
    FirstByteBits(h.fin, h.op);
    ReadLenOf(h.form, h.n, rest);
  }

  /** A fragmented or over-long control frame is a protocol error, whatever follows its header. */
  lemma {:induction false} BadControlIsRejected(h: Header, rest: Bytes, max: nat)
    requires BadControl(h)
    ensures ReadFrame(HeaderBytes(h, true) + rest, max) == Bad(Protocol, rest)
  {
    ReadHeader(h, rest, max);
  }

  /** A frame without a mask is refused as such, if its opcode is known, whatever follows its header. */
  lemma {:induction false} UnmaskedIsRejected(h: Header, rest: Bytes, max: nat)
    requires ValidHeader(h)
    ensures var s := HeaderBytes(h, false) + rest;
            ReadFrame(s, max) == Bad(UnmaskedFrame, s[2..])
  {
    FirstByteBits(h.fin, h.op);
    var lb := LenBytes(h.form, h.n, false);
    var s := HeaderBytes(h, false) + rest;
    assert s[0] == FirstByte(h.fin, h.op) && s[1] == lb[0];
  }

  lemma {:induction false} HeaderOf(s: Bytes, n: nat, rest: Bytes) returns (h: Header)
    requires |s| >= 2 && !BadFirstByte(s) && TopBit(s[1]) && ReadLen(s[1], s[2..]) == Len(n, rest)
    ensures h.fin == TopBit(s[0]) && h.op == LowFour(s[0]) && h.n == n
    ensures ValidHeader(h) && s == HeaderBytes(h, true) + rest
  {
    var form := LenBytesOf(s[1], s[2..], n, rest);
    h := Header(TopBit(s[0]), LowFour(s[0]), form, n);
    FirstByteOf(s[0]);
    assert s == [s[0]] + ([s[1]] + s[2..]);
    AppendAssoc([s[0]], LenBytes(form, n, true), rest);
  }

  /**
   * Reading reports a protocol error on exactly three kinds of input: a bad first byte, an eight-byte
   * length with its top bit set, and a fragmented or over-long control frame.
   */
  lemma {:induction false} ProtocolErrorExact(s: Bytes, max: nat)
    ensures var r := ReadFrame(s, max);
            r.Bad? && r.error == Protocol <==> BadFirstByte(s) || LengthTooBig(s) || StartsBadControl(s)
  {
    if StartsBadControl(s) {
      var h, rest :| BadControl(h) && s == HeaderBytes(h, true) + rest;
      BadControlIsRejected(h, rest, max);
    } else if !BadFirstByte(s) && !LengthTooBig(s) && |s| >= 2 && TopBit(s[1]) {
      assert s[1..][0] == s[1] && s[1..][1..] == s[2..];
      match ReadLen(s[1], s[2..]) {
        case BadLen(_, _) =>
          assert LowSeven(s[1]) == 127 ==> s[1] == 0xFF;
        case Len(n, rest) =>
          var h := HeaderOf(s, n, rest);
          assert !BadControl(h);
      }
    }
  }

  /** And the missing mask is reported exactly when it is missing from a frame with a known opcode. */
  lemma {:induction false} UnmaskedExact(s: Bytes, max: nat)
    ensures var r := ReadFrame(s, max);
            r.Bad? && r.error == UnmaskedFrame <==> Unmasked(s)
  {
    if |s| >= 2 {
      assert s[1..][0] == s[1];
    }
  }

  /** A payload over the limit is reported exactly for a header that is legal but for that. */
  lemma {:induction false} TooLargeExact(s: Bytes, max: nat)
    ensures var r := ReadFrame(s, max);
            r.Bad? && r.error == PayloadTooLarge <==>
              exists h, rest | ValidHeader(h) && !BadControl(h) && 0 < max < h.n :: s == HeaderBytes(h, true) + rest
  {
    if h, rest :| ValidHeader(h) && !BadControl(h) && 0 < max < h.n && s == HeaderBytes(h, true) + rest {
      ReadHeader(h, rest, max);
    } else if |s| >= 2 && !BadFirstByte(s) && TopBit(s[1]) {
      assert s[1..][0] == s[1] && s[1..][1..] == s[2..];
      match ReadLen(s[1], s[2..]) {
        case BadLen(_, _) =>
        case Len(n, rest) =>
          var h := HeaderOf(s, n, rest);
      }
    }
  }

  /** A header that is legal, and within the limit. */
  predicate Admits(h: Header, max: nat) {
    ValidHeader(h) && !BadControl(h) && (max > 0 ==> h.n <= max)
  }

  /** The input ends between two reads: before a byte of the header, its long length, the mask or the payload. */
  ghost predicate EndsBetween(s: Bytes, max: nat) {
    || s == []
    || (|s| == 1 && !BadFirstByte(s))
    || (|s| == 2 && !BadFirstByte(s) && TopBit(s[1]) && LowSeven(s[1]) >= 126)
    || (exists h | Admits(h, max) :: s == HeaderBytes(h, true))
    || (exists h, mask: Bytes | Admits(h, max) && h.n > 0 && |mask| == 4 :: s == HeaderBytes(h, true) + mask)
  }

  lemma {:induction false} BodyEndsBetween(h: Header, rest: Bytes, max: nat)
    requires Admits(h, max)
    ensures var r := ReadBody(h.fin, h.op, h.n, rest, max);
            r.Bad? && r.error == EOF <==> rest == [] || (|rest| == 4 && h.n > 0)
  {
  }

  lemma {:induction false} EndIsPlain(s: Bytes, max: nat)
    requires EndsBetween(s, max)
    ensures ReadFrame(s, max).Bad? && ReadFrame(s, max).error == EOF
  {
    if h :| Admits(h, max) && s == HeaderBytes(h, true) {
      assert s == HeaderBytes(h, true) + [];
      ReadHeader(h, [], max);
    } else if h, mask: Bytes :| Admits(h, max) && h.n > 0 && |mask| == 4 && s == HeaderBytes(h, true) + mask {
      ReadHeader(h, mask, max);
    }
    hide HeaderBytes, Admits, ReadBody;
  }

  lemma {:induction false} PlainEnd(s: Bytes, max: nat)
    requires ReadFrame(s, max).Bad? && ReadFrame(s, max).error == EOF
    ensures EndsBetween(s, max)
  {
    if |s| >= 2 {
      assert s[1..][0] == s[1] && s[1..][1..] == s[2..];
      match ReadLen(s[1], s[2..]) {
        case BadLen(_, _) =>
        case Len(n, rest) =>
          var h := HeaderOf(s, n, rest);
          BodyEndsBetween(h, rest, max);
          assert HeaderBytes(h, true) + [] == HeaderBytes(h, true);
      }
    }
  }

  /** The end of the input is a plain end exactly between two reads; inside one it is an unexpected end. */
  lemma {:induction false} EofExact(s: Bytes, max: nat)
    ensures var r := ReadFrame(s, max);
            r.Bad? && r.error == EOF <==> EndsBetween(s, max)
  {
    var r := ReadFrame(s, max);
    if EndsBetween(s, max) {
      EndIsPlain(s, max);
    } else if r.Bad? && r.error == EOF {
      PlainEnd(s, max);
    }
    hide ReadFrame, EndsBetween;
  }

  // ----- the frame writer, and a client's unmasked decoder -----

  predicate Writable(op: Opcode, n: nat) {
    op >= 8 ==> op in {OP_CLOSE, OP_PING, OP_PONG} && n <= 125
  }

  /** What the server puts on the wire for one frame. */
  function ServerFrame(op: Opcode, p: Bytes): Bytes
  {
    [0x80 + op] + LenBytes(ShortestForm(|p|), |p|, false) + p
  }

  /** A client's decoder of one unmasked frame (RFC 6455 section 5.2). */
  function ReadServerFrame(s: Bytes): (r: ReadResult)
    ensures r.Got? ==> |r.rest| < |s|
  {
    if |s| < 2 then Bad(ShortRead(s), [])
    else if Reserved(s[0]) != 0 || TopBit(s[1]) then Bad(Protocol, s[2..])
    else
      match ReadLen(s[1], s[2..])
      case BadLen(e, rest) => Bad(e, rest)
      case Len(n, rest) =>
        if |rest| < n then Bad(ShortRead(rest), [])
        else Got(Frame(TopBit(s[0]), LowFour(s[0]), rest[..n]), rest[n..])
  }

  lemma {:induction false} ReadServerLenOf(form: LenForm, n: nat, t: Bytes)
    requires Holds(form, n)
    ensures var h := LenBytes(form, n, false);
            && !TopBit(h[0])
            && ReadLen(h[0], h[1..] + t) == Len(n, t)
  {
    ReadLenOf(form, n, t);
    var h, m := LenBytes(form, n, false), LenBytes(form, n, true);
    assert h[1..] == m[1..];
  }

  /** A client reads back every frame the server writes, whatever follows it. */
  lemma {:induction false} ReadServerWritten(op: Opcode, p: Bytes, rest: Bytes)
    requires |p| <= MAX_INT
    ensures ReadServerFrame(ServerFrame(op, p) + rest) == Got(Frame(true, op, p), rest)
  {
    var h := LenBytes(ShortestForm(|p|), |p|, false);
    var s := ServerFrame(op, p) + rest;
    assert s == [0x80 + op] + h + (p + rest);
    assert s[1] == h[0] && s[2..] == h[1..] + (p + rest);
    ReadServerLenOf(ShortestForm(|p|), |p|, p + rest);
    assert (p + rest)[..|p|] == p && (p + rest)[|p|..] == rest;
    FirstByteBits(true, op);
  }

  /** The writer's length form is never longer than another one that holds the same length. */
  lemma WriterUsesShortestForm(form: LenForm, n: nat)
    requires Holds(form, n)
    ensures Holds(ShortestForm(n), n)
    ensures |LenBytes(ShortestForm(n), n, false)| <= |LenBytes(form, n, false)|
    ensures |LenBytes(ShortestForm(n), n, false)| == |LenBytes(form, n, false)| <==> form == ShortestForm(n)
  {
  }

  /** Of the known opcodes, the writer takes exactly the payloads that are legal in one frame. */
  lemma WritableIsLegal(op: Opcode, p: Bytes)
    requires KnownOp(op) && |p| <= MAX_INT
    ensures Writable(op, |p|) <==> Legal(Frame(true, op, p), 0)
  {
  }

  const HELLO: Bytes := [0x48, 0x65, 0x6C, 0x6C, 0x6F]

  lemma {:induction false} HelloMasked()
    ensures XorMask(HELLO, [0x37, 0xFA, 0x21, 0x3D]) == [0x7F, 0x9F, 0x4D, 0x51, 0x58]
  {
    XorForm(0x48, 0x37);
    XorForm(0x65, 0xFA);
    XorForm(0x6C, 0x21);
    XorForm(0x6C, 0x3D);
    XorForm(0x6F, 0x37);
    hide Xor;
  }

  lemma {:induction false} LongLength()
    ensures ToBE(65536, 8) == [0, 0, 0, 0, 0, 1, 0, 0]
  {
    assert ToBE(0, 1) == ToBE(0, 0) + [0];
    assert ToBE(0, 2) == ToBE(0, 1) + [0];
    assert ToBE(0, 3) == ToBE(0, 2) + [0];
    assert ToBE(0, 4) == ToBE(0, 3) + [0];
    assert ToBE(0, 5) == ToBE(0, 4) + [0];
    assert ToBE(1, 6) == ToBE(0, 5) + [1];
    assert ToBE(256, 7) == ToBE(1, 6) + [0];
    assert ToBE(65536, 8) == ToBE(256, 7) + [0];
  }

  lemma {:induction false} HelloBytes(mask: Bytes, body: Bytes)
    requires |mask| == 4 && XorMask(HELLO, mask) == body
    ensures Masked(Frame(true, 0x1, HELLO), mask, Short) == [0x81, 0x85] + mask + body
  {
    hide XorMask;
    assert [0x81, 0x85] == [0x81] + [0x85];
  }

  /** The first example of section 5.7: a masked text. */
  lemma {:induction false} ReadsHello()
    ensures ReadFrame([0x81, 0x85, 0x37, 0xFA, 0x21, 0x3D, 0x7F, 0x9F, 0x4D, 0x51, 0x58], 0)
         == Got(Frame(true, 0x1, HELLO), [])
  {
    var f, mask := Frame(true, 0x1, HELLO), [0x37, 0xFA, 0x21, 0x3D];
    var body := [0x7F, 0x9F, 0x4D, 0x51, 0x58];
    HelloMasked();
    ReadMasked(f, mask, Short, [], 0);
    HelloBytes(mask, body);
    hide XorMask, ReadFrame, Masked;
    assert Masked(f, mask, Short) + [] == [0x81, 0x85] + mask + body;
  }

  /** And others: an unmasked text, and unmasked binaries of 256 bytes and of 64 KiB. */
  lemma {:induction false} WritesExamples(p: Bytes, q: Bytes)
    requires |p| == 256 && |q| == 65536
    ensures ServerFrame(0x1, HELLO) == [0x81, 0x05] + HELLO
    ensures ServerFrame(0x2, p) == [0x82, 0x7E, 0x01, 0x00] + p
    ensures ServerFrame(0x2, q) == [0x82, 0x7F, 0, 0, 0, 0, 0, 1, 0, 0] + q
  {
    assert ToBE(256, 2) == [1, 0] by {
      assert ToBE(1, 1) == ToBE(0, 0) + [1];
    }
    LongLength();
    hide ToBE;
    assert [0x82] + ([0x7E] + [1, 0]) == [0x82, 0x7E, 1, 0];
    assert [0x82] + ([0x7F] + [0, 0, 0, 0, 0, 1, 0, 0]) == [0x82, 0x7F, 0, 0, 0, 0, 0, 1, 0, 0];
  }

  /** One write: the opcode and the payload. */
  datatype Written = Written(op: Opcode, payload: Bytes)

  predicate AllSized(ws: seq<Written>) {
    forall i :: 0 <= i < |ws| ==> |ws[i].payload| <= MAX_INT
  }

  function ServerBytes(ws: seq<Written>): Bytes
  {
    if ws == [] then [] else ServerFrame(ws[0].op, ws[0].payload) + ServerBytes(ws[1..])
  }

  /** All the frames a client finds in a server's byte stream. */
  function ClientView(s: Bytes): seq<Frame>
    decreases |s|
  {
    match ReadServerFrame(s)
    case Bad(_, _) => []
    case Got(f, rest) => [f] + ClientView(rest)
  }

  function AsFrames(ws: seq<Written>): (fs: seq<Frame>) {
    seq(|ws|, i requires 0 <= i < |ws| => Frame(true, ws[i].op, ws[i].payload))
  }

  lemma {:induction false} ClientViewFirst(ws: seq<Written>)
    requires AllSized(ws) && ws != []
    ensures ClientView(ServerBytes(ws)) ==
            [Frame(true, ws[0].op, ws[0].payload)] + ClientView(ServerBytes(ws[1..]))
  {
    ReadServerWritten(ws[0].op, ws[0].payload, ServerBytes(ws[1..]));
  }

  lemma AsFramesCons(ws: seq<Written>)
    requires ws != []
    ensures AsFrames(ws) == [Frame(true, ws[0].op, ws[0].payload)] + AsFrames(ws[1..])
  {
  }

  /** A client splits the server's byte stream into exactly the frames written, in order. */
  lemma {:induction false} ClientSeesWrites(ws: seq<Written>)
    requires AllSized(ws)
    ensures ClientView(ServerBytes(ws)) == AsFrames(ws)
  {
    if ws != [] {
      ClientViewFirst(ws);
      ClientSeesWrites(ws[1..]);
      AsFramesCons(ws);
    }
  }

  /** Two different lists of writes never produce the same bytes. */
  lemma {:induction false} WritesSplitUniquely(ws: seq<Written>, vs: seq<Written>)
    requires AllSized(ws) && AllSized(vs) && ServerBytes(ws) == ServerBytes(vs)
    ensures ws == vs
  {
    ClientSeesWrites(ws);
    ClientSeesWrites(vs);
    forall i | 0 <= i < |ws|
      ensures i < |vs| && ws[i] == vs[i]
    {
      assert AsFrames(ws)[i] == AsFrames(vs)[i];
    }
    assert |AsFrames(ws)| == |AsFrames(vs)|;
  }

  // ----- the code: a buffered reader, in-place unmasking, a buffered writer -----

  /** The bytes that arrive on a connection before it ends, consumed from the front. */
  class Reader {
    var rest: Bytes

    constructor (input: Bytes)
      ensures rest == input
    {
      rest := input;
    }

    method ReadByte() returns (b: Byte, err: Option<Error>)
      modifies this
      ensures old(rest) == [] ==> err == Some(EOF) && rest == []
      ensures old(rest) != [] ==> err == None && b == old(rest)[0] && rest == old(rest)[1..]
    {
      if rest == [] {
        return 0, Some(EOF);
      }
      b, err, rest := rest[0], None, rest[1..];
    }

    method ReadFull(p: array<Byte>) returns (err: Option<Error>)
      modifies this, p
      ensures |old(rest)| < p.Length ==> err == Some(ShortRead(old(rest))) && rest == []
      ensures |old(rest)| >= p.Length ==>
                err == None && p[..] == old(rest)[..p.Length] && rest == old(rest)[p.Length..]
    {
      if |rest| < p.Length {
        err, rest := Some(ShortRead(rest)), [];
        return;
      }
      forall i | 0 <= i < p.Length {
        p[i] := rest[i];
      }
      err, rest := None, rest[p.Length..];
    }
  }

  method Unmask(p: array<Byte>, mask: Bytes)
    requires |mask| == 4
    modifies p
    ensures p[..] == XorMask(old(p[..]), mask)
  {
    for i := 0 to p.Length
      invariant forall k :: 0 <= k < i ==> p[k] == Xor(old(p[k]), mask[k % 4])
      invariant forall k :: i <= k < p.Length ==> p[k] == old(p[k])
    {
      p[i] := Xor(p[i], mask[i % 4]);
    }
  }

  /** The extended length of a frame. */
  method ReadLength(r: Reader, b1: Byte) returns (n: nat, err: Option<Error>)
    modifies r
    ensures match ReadLen(b1, old(r.rest))
            case Len(len, rest) => err == None && n == len && r.rest == rest
            case BadLen(e, rest) => err == Some(e) && r.rest == rest
  {
    n, err := LowSeven(b1), None;
    if LowSeven(b1) == 126 {
      var x := new Byte[2];
      err := r.ReadFull(x);
      if err == None {
        n := FromBE(x[..]);
      }
    } else if LowSeven(b1) == 127 {
      var x := new Byte[8];
      err := r.ReadFull(x);
      if err == None {
        if TopBit(x[0]) {
          return n, Some(Protocol);
        }
        n := FromBE(x[..]);
      }
    }
  }

  /** The checks on a decoded header, then the mask and the payload. */
  method ReadPayload(r: Reader, fin: bool, op: Opcode, n: nat, max: nat) returns (f: Frame, err: Option<Error>)
    modifies r
    ensures match ReadBody(fin, op, n, old(r.rest), max)
            case Got(g, rest) => err == None && f == g && r.rest == rest
            case Bad(e, rest) => err == Some(e) && f == Frame(false, 0, []) && r.rest == rest
  {
    f := Frame(false, 0, []);
    if op >= 8 && (!fin || n > 125) {
      return f, Some(Protocol);
    }
    if max > 0 && n > max {
      return f, Some(PayloadTooLarge);
    }
    var mask := new Byte[4];
    err := r.ReadFull(mask);
    if err != None {
      return;
    }
    var p := new Byte[n];
    if n > 0 {
      err := r.ReadFull(p);
      if err != None {
        return;
      }
      Unmask(p, mask[..]);
    }
    f := Frame(fin, op, p[..]);
  }

  method ReadFrameFrom(r: Reader, max: nat) returns (f: Frame, err: Option<Error>)
    modifies r
    ensures match ReadFrame(old(r.rest), max)
            case Got(g, rest) => err == None && f == g && r.rest == rest
            case Bad(e, rest) => err == Some(e) && f == Frame(false, 0, []) && r.rest == rest
  {
    f := Frame(false, 0, []);
    var b0, b1;
    b0, err := r.ReadByte();
    if err != None {
      return;
    }
    if Reserved(b0) != 0 {
      return f, Some(Protocol);
    }
    var fin, op := TopBit(b0), LowFour(b0);
    if 3 <= op <= 7 || op >= 11 {
      return f, Some(Protocol);
    }
    b1, err := r.ReadByte();
    if err != None {
      return;
    }
    if !TopBit(b1) {
      return f, Some(UnmaskedFrame);
    }
    var n;
    n, err := ReadLength(r, b1);
    if err != None {
      return;
    }
    f, err := ReadPayload(r, fin, op, n, max);
  }

  /** A buffered writer: everything written so far. */
  class Writer {
    var out: Bytes

    constructor ()
      ensures out == []
    {
      out := [];
    }

    method Write(p: Bytes)
      modifies this
      ensures out == old(out) + p
    {
      out := out + p;
    }
  }

  method WriteFrame(w: Writer, op: Opcode, p: Bytes) returns (err: Option<Error>)
    modifies w
    ensures err == if Writable(op, |p|) then None else Some(Protocol)
    ensures w.out == if Writable(op, |p|) then old(w.out) + ServerFrame(op, p) else old(w.out)
  {
    if op >= 8 && (!(op == OP_CLOSE || op == OP_PING || op == OP_PONG) || |p| > 125) {
      return Some(Protocol);
    }
    w.Write([0x80 + op]);
    var n := |p|;
    if n <= 125 {
      w.Write([n]);
    } else if n <= 65535 {
      w.Write([126]);
      w.Write(ToBE(n, 2));
    } else {
      w.Write([127]);
      w.Write(ToBE(n, 8));
    }
    w.Write(p);
    err := None;
  }
}
