/**
 * The Socket.IO packet text format: type, attachment count and dash, namespace and comma, ack id,
 * JSON payload. Every part after the type is optional, so the printer and the parser only undo each
 * other because no part can be mistaken for the start of the next one.
 */
module Packets {
  import opened Options
  import opened Bits
  import opened ByteSeqs

  const CONNECT: Byte := 0x30
  const DISCONNECT: Byte := 0x31
  const EVENT: Byte := 0x32
  const ACK: Byte := 0x33
  const CONNECT_ERROR: Byte := 0x34
  const BINARY_EVENT: Byte := 0x35
  const BINARY_ACK: Byte := 0x36

  const PLUS: Byte := 0x2B
  const COMMA: Byte := 0x2C
  const DASH: Byte := 0x2D
  const SLASH: Byte := 0x2F
  const OPEN_BRACE: Byte := 0x7B
  const ROOT: Bytes := [SLASH]
  const MAX_PACKET: nat := 0x10_0000
  const MAX_COUNT: nat := 1024

  // ----- the JSON library -----

  /** `valid` accepts a JSON text; `arrayLen` is the length of the array a text decodes to, if it does. */
  datatype JsonFns = JsonFns(valid: Bytes -> bool, arrayLen: Bytes -> Option<nat>)

  /** No JSON text is empty or starts with a slash, and no array (nor null) starts with a digit. */
  ghost predicate Lawful(j: JsonFns) {
    && (forall d: Bytes :: j.valid(d) ==> d != [] && d[0] != SLASH)
    && (forall d: Bytes :: j.arrayLen(d).Some? ==> d != [] && !IsDigit(d[0]))
  }

  type Json = j: JsonFns | Lawful(j) witness JsonFns(d => false, d => None)

  // ----- packets -----

  datatype Packet = Packet(typ: Byte, ns: Bytes, id: Option<GoInt>, data: Bytes, attachments: GoInt)

  predicate ValidType(t: Byte) {
    CONNECT <= t <= BINARY_ACK
  }

  predicate IsBinary(t: Byte) {
    t == BINARY_EVENT || t == BINARY_ACK
  }

  /** The types whose text may carry an id. */
  predicate MayHaveId(t: Byte) {
    IsBinary(t) || t == EVENT || t == ACK
  }

  // ----- namespaces -----

  predicate IsSpace1(a: Byte) {
    0x09 <= a <= 0x0D || a == 0x20
  }

  predicate IsSpace2(a: Byte, b: Byte) {
    a == 0xC2 && (b == 0x85 || b == 0xA0)
  }

  predicate IsSpace3(a: Byte, b: Byte, c: Byte) {
    || (a == 0xE1 && b == 0x9A && c == 0x80)
    || (a == 0xE2 && b == 0x80 && (0x80 <= c <= 0x8A || c == 0xA8 || c == 0xA9 || c == 0xAF))
    || (a == 0xE2 && b == 0x81 && c == 0x9F)
    || (a == 0xE3 && b == 0x80 && c == 0x80)
  }

  /** The length of the Unicode white-space character, in UTF-8, that `s` starts with; 0 if none. */
  function SpaceAtStart(s: Bytes): (n: nat)
    ensures n <= |s|
  {
    if |s| >= 1 && IsSpace1(s[0]) then 1
    else if |s| >= 2 && IsSpace2(s[0], s[1]) then 2
    else if |s| >= 3 && IsSpace3(s[0], s[1], s[2]) then 3
    else 0
  }

  function SpaceAtEnd(s: Bytes): (n: nat)
    ensures n <= |s|
  {
    var k := |s|;
    if k >= 1 && IsSpace1(s[k - 1]) then 1
    else if k >= 2 && IsSpace2(s[k - 2], s[k - 1]) then 2
    else if k >= 3 && IsSpace3(s[k - 3], s[k - 2], s[k - 1]) then 3
    else 0
  }

  function TrimLeft(s: Bytes): Bytes
    decreases |s|
  {
    var n := SpaceAtStart(s);
    if n == 0 then s else TrimLeft(s[n..])
  }

  function TrimRight(s: Bytes): Bytes
    decreases |s|
  {
    var n := SpaceAtEnd(s);
    if n == 0 then s else TrimRight(s[..|s| - n])
  }

  function TrimSpace(s: Bytes): Bytes {
    TrimRight(TrimLeft(s))
  }

  predicate StartsWithSlash(s: Bytes) {
    s != [] && s[0] == SLASH
  }

  function NormalizeNS(ns: Bytes): (r: Bytes)
    ensures StartsWithSlash(r)
  {
    var t := TrimSpace(ns);
    if t == [] then ROOT else if !StartsWithSlash(t) then ROOT + t else t
  }

  lemma {:induction false} TrimKeepsSlash(s: Bytes)
    requires StartsWithSlash(s)
    ensures TrimLeft(s) == s && StartsWithSlash(TrimRight(s))
    decreases |s|
  {
    var n := SpaceAtEnd(s);
    if n > 0 {
      TrimKeepsSlash(s[..|s| - n]);
    }
  }

  /** A namespace that starts with a slash is only trimmed. */
  lemma {:induction false} NormalizeSlashed(ns: Bytes)
    requires StartsWithSlash(ns)
    ensures NormalizeNS(ns) == TrimSpace(ns)
  {
    TrimKeepsSlash(ns);
  }

  lemma {:induction false} TrimRightEnds(s: Bytes)
    ensures SpaceAtEnd(TrimRight(s)) == 0
    decreases |s|
  {
    var n := SpaceAtEnd(s);
    if n > 0 {
      TrimRightEnds(s[..|s| - n]);
    }
  }

  /** Normalising twice is normalising once. */
  lemma {:induction false} NormalizeTwice(ns: Bytes)
    ensures NormalizeNS(NormalizeNS(ns)) == NormalizeNS(ns)
  {
    var r := NormalizeNS(ns);
    TrimRightEnds(TrimLeft(ns));
    NormalizeSlashed(r);
    TrimKeepsSlash(r);
    assert SpaceAtEnd(r) == 0;
  }

  /** White-space characters, one after the other. */
  predicate White(s: Bytes)
    decreases |s|
  {
    s == [] || (SpaceAtStart(s) > 0 && White(s[SpaceAtStart(s)..]))
  }

  /** The encoding in UTF-8 of a code point. */
  function Utf8(c: nat): Bytes
    requires c < 0x10000
  {
    if c < 0x80 then [c]
    else if c < 0x800 then [0xC0 + c / 0x40, 0x80 + c % 0x40]
    else [0xE0 + c / 0x1000, 0x80 + c / 0x40 % 0x40, 0x80 + c % 0x40]
  }

  /** The code points with the property White_Space. */
  predicate WhiteSpace(c: nat) {
    || 0x09 <= c <= 0x0D || c == 0x20 || c == 0x85 || c == 0xA0 || c == 0x1680
    || 0x2000 <= c <= 0x200A || c == 0x2028 || c == 0x2029 || c == 0x202F || c == 0x205F || c == 0x3000
  }

  /** A text has space at its start, or at its end, exactly if a white-space character is there. */
  lemma {:induction false} SpaceExact(c: nat, t: Bytes)
    requires WhiteSpace(c)
    ensures SpaceAtStart(Utf8(c) + t) == |Utf8(c)| && SpaceAtEnd(t + Utf8(c)) == |Utf8(c)|
  {
    var u := Utf8(c);
    assert (u + t)[..|u|] == u && (t + u)[|t|..] == u;
  }

  lemma {:induction false} SpaceIsACharacter(s: Bytes) returns (c: nat)
    requires SpaceAtStart(s) > 0
    ensures WhiteSpace(c) && s[..SpaceAtStart(s)] == Utf8(c)
  {
    if IsSpace1(s[0]) {
      c := s[0];
    } else if |s| >= 2 && IsSpace2(s[0], s[1]) {
      c := s[1];
    } else {
      var x: int, y: int, z: int := s[0], s[1], s[2];
      c := (x - 0xE0) * 0x1000 + (y - 0x80) * 0x40 + (z - 0x80);
    }
  }

  lemma SpaceStays(s: Bytes, t: Bytes)
    ensures SpaceAtStart(s) > 0 ==> SpaceAtStart(s + t) == SpaceAtStart(s)
  {
  }

  lemma {:induction false} WhiteThenWhite(s: Bytes, t: Bytes)
    requires White(s) && White(t)
    ensures White(s + t)
    decreases |s|
  {
    if s == [] {
      assert s + t == t;
    } else {
      var n := SpaceAtStart(s);
      SpaceStays(s, t);
      assert (s + t)[n..] == s[n..] + t;
      WhiteThenWhite(s[n..], t);
    }
  }

  lemma {:induction false} TrimLeftExact(s: Bytes) returns (a: Bytes)
    ensures s == a + TrimLeft(s) && White(a) && SpaceAtStart(TrimLeft(s)) == 0
    decreases |s|
  {
    var n := SpaceAtStart(s);
    a := [];
    if n > 0 {
      var rest := TrimLeftExact(s[n..]);
      var c := s[..n];
      assert SpaceAtStart(c) == n && c[n..] == [];
      WhiteThenWhite(c, rest);
      a := c + rest;
      AppendAssoc(c, rest, TrimLeft(s));
    }
  }

  lemma {:induction false} SpaceIsWhite(s: Bytes)
    requires SpaceAtEnd(s) > 0
    ensures SpaceAtEnd(s) <= |s| && White(s[|s| - SpaceAtEnd(s)..])
  {
    var c := s[|s| - SpaceAtEnd(s)..];
    assert SpaceAtStart(c) == |c| && c[|c|..] == [];
  }

  lemma NothingIsWhite()
    ensures White([])
  {
  }

  lemma {:induction false} TrimRightExact(s: Bytes) returns (b: Bytes)
    ensures s == TrimRight(s) + b && White(b) && SpaceAtEnd(TrimRight(s)) == 0
    decreases |s|
  {
    hide SpaceAtEnd, White;
    b := [];
    if SpaceAtEnd(s) > 0 {
      SpaceIsWhite(s);
      var m := |s| - SpaceAtEnd(s);
      var before := TrimRightExact(s[..m]);
      WhiteThenWhite(before, s[m..]);
      b := before + s[m..];
      AppendAssoc(TrimRight(s), before, s[m..]);
      assert s == s[..m] + s[m..];
    } else {
      NothingIsWhite();
    }
  }

  /**
   * A namespace is white space, a core that neither starts nor ends with any, and white space; normalised it
   * is the core, with a slash in front if that is missing.
   */
  lemma {:induction false} NormalizeExact(ns: Bytes) returns (a: Bytes, core: Bytes, b: Bytes)
    ensures ns == a + core + b && White(a) && White(b)
    ensures SpaceAtStart(core) == 0 && SpaceAtEnd(core) == 0
    ensures NormalizeNS(ns) == if core != [] && core[0] == 0x2F then core else [0x2F] + core
  {
    a := TrimLeftExact(ns);
    b := TrimRightExact(TrimLeft(ns));
    core := TrimSpace(ns);
    SpaceStays(core, b);
    AppendAssoc(a, core, b);
    assert ROOT + [] == ROOT;
    hide TrimLeft, TrimRight;
  }

  /** NUL, CR and LF are not allowed in a namespace. */
  predicate HasControl(ns: Bytes) {
    0x00 in ns || 0x0D in ns || 0x0A in ns
  }

  // ----- printing -----

  datatype EncodeError =
    UnknownType | BadCount | CountRequired | CountForbidden | NegativeId | IdForbidden | BadNamespace

  function CheckEncodable(p: Packet): Option<EncodeError> {
    if !ValidType(p.typ) then Some(UnknownType)
    else if p.attachments < 0 || p.attachments > MAX_COUNT then Some(BadCount)
    else if IsBinary(p.typ) && p.attachments == 0 then Some(CountRequired)
    else if !IsBinary(p.typ) && p.attachments != 0 then Some(CountForbidden)
    else if p.id.Some? && p.id.value < 0 then Some(NegativeId)
    else if (p.typ == CONNECT || p.typ == DISCONNECT || p.typ == CONNECT_ERROR) && p.id.Some? then Some(IdForbidden)
    else if HasControl(NormalizeNS(p.ns)) then Some(BadNamespace)
    else None
  }

  /** Attachments go with the binary types, and ids with the types that may carry one. */
  lemma EncodableRules(p: Packet)
    ensures CheckEncodable(p) == None <==>
            && ValidType(p.typ)
            && 0 <= p.attachments <= MAX_COUNT && (p.attachments > 0 <==> IsBinary(p.typ))
            && (p.id.Some? ==> MayHaveId(p.typ) && p.id.value >= 0)
            && !HasControl(NormalizeNS(p.ns))
  {
  }

  function CountText(p: Packet): Bytes {
    if IsBinary(p.typ) && p.attachments >= 0 then Decimal(p.attachments) + [DASH] else []
  }

  function NsText(ns: Bytes): Bytes {
    if ns == ROOT then [] else ns + [COMMA]
  }

  function IdText(id: Option<GoInt>): Bytes {
    if id.Some? && id.value >= 0 then Decimal(id.value) else []
  }

  function Encode(p: Packet): Result<Bytes, EncodeError> {
    match CheckEncodable(p)
    case Some(e) => Err(e)
    case None => Ok([p.typ] + CountText(p) + NsText(NormalizeNS(p.ns)) + IdText(p.id) + p.data)
  }

  // ----- validation -----

  datatype ValidateError =
    | BadType | ConnectWithId | ConnectNotObject | DisconnectWithExtras | EventWithoutPayload | EventNotArray
    | AckWithoutId | AckWithoutPayload | AckNotArray | ErrorNotObject | UnexpectedAttachments

  function Validate(j: Json, p: Packet): Option<ValidateError> {
    var shape :=
      if !ValidType(p.typ) then Some(BadType)
      else if p.typ == CONNECT then
        if p.id.Some? then Some(ConnectWithId)
        else if p.data != [] && (p.data[0] != OPEN_BRACE || !j.valid(p.data)) then Some(ConnectNotObject)
        else None
      else if p.typ == DISCONNECT then
        if p.id.Some? || p.data != [] then Some(DisconnectWithExtras) else None
      else if p.typ == EVENT || p.typ == BINARY_EVENT then
        if p.data == [] then Some(EventWithoutPayload)
        else if j.arrayLen(p.data).None? || j.arrayLen(p.data).value == 0 then Some(EventNotArray)
        else None
      else if p.typ == ACK || p.typ == BINARY_ACK then
        if p.id.None? then Some(AckWithoutId)
        else if p.data == [] then Some(AckWithoutPayload)
        else if j.arrayLen(p.data).None? then Some(AckNotArray)
        else None
      else if p.id.Some? || p.data == [] || p.data[0] != OPEN_BRACE then Some(ErrorNotObject)
      else None;
    if shape.Some? then shape
    else if !IsBinary(p.typ) && p.attachments != 0 then Some(UnexpectedAttachments)
    else None
  }

  /** The same rules by part of the packet: type, id, payload, attachments. */
  lemma ValidateRules(j: Json, p: Packet)
    ensures Validate(j, p) == None <==>
            && ValidType(p.typ)
            && (p.id.Some? ==> MayHaveId(p.typ))
            && (p.typ == ACK || p.typ == BINARY_ACK ==> p.id.Some?)
            && (p.typ == DISCONNECT ==> p.data == [])
            && (p.data == [] ==> p.typ == CONNECT || p.typ == DISCONNECT)
            && (p.data != [] && (p.typ == CONNECT || p.typ == CONNECT_ERROR) ==> p.data[0] == OPEN_BRACE)
            && (p.data != [] && p.typ == CONNECT ==> j.valid(p.data))
            && (MayHaveId(p.typ) ==> j.arrayLen(p.data).Some?)
            && (p.typ == EVENT || p.typ == BINARY_EVENT ==> j.arrayLen(p.data) != Some(0))
            && (p.attachments != 0 ==> IsBinary(p.typ))
  {
  }

  // ----- parsing -----

  datatype DecodeError =
    | Empty | TooLarge | BadTypeByte | MissingCount | BadCountText | BadNamespaceText | IdOutOfRange | BadJson
    | Rejected(why: ValidateError)

  /** Go's `strconv.Atoi`: an optional sign, then digits, within the range of `int`. */
  function Atoi(s: Bytes): Option<GoInt> {
    var signed := s != [] && (s[0] == PLUS || s[0] == DASH);
    var digits := if signed then s[1..] else s;
    if digits == [] || !AllDigits(digits) then None
    else
      var n: int := DecimalValue(digits);
      var v := if signed && s[0] == DASH then -n else n;
      if -MAX_INT - 1 <= v <= MAX_INT then Some(v) else None
  }

  /** One part of the text, and what follows it. */
  datatype Part<+T> = Part(value: T, rest: Bytes)

  function ReadCount(t: Byte, s: Bytes): Result<Part<GoInt>, DecodeError> {
    if !IsBinary(t) then Ok(Part(0, s))
    else
      var dash := IndexByte(s, DASH);
      if dash <= 0 then Err(MissingCount)
      else
        var n := Atoi(s[..dash]);
        if n.None? || n.value <= 0 || n.value > MAX_COUNT then Err(BadCountText)
        else Ok(Part(n.value, s[dash + 1..]))
  }

  function ReadNs(s: Bytes): Result<Part<Bytes>, DecodeError> {
    if !StartsWithSlash(s) then Ok(Part(ROOT, s))
    else
      var i := IndexByte(s, COMMA);
      var ns := if i >= 0 then s[..i] else s;
      if ns == [] || HasControl(ns) then Err(BadNamespaceText)
      else Ok(Part(ns, if i >= 0 then s[i + 1..] else []))
  }

  function ReadId(t: Byte, s: Bytes): Result<Part<Option<GoInt>>, DecodeError> {
    var n := DigitRun(s);
    if !MayHaveId(t) || n == 0 then Ok(Part(None, s))
    else
      var v := DecimalValue(s[..n]);
      if v > MAX_INT then Err(IdOutOfRange) else Ok(Part(Some(v), s[n..]))
  }

  /** The payload and the final checks. */
  function ReadData(j: Json, p: Packet): Result<Packet, DecodeError> {
    if p.data != [] && !j.valid(p.data) then Err(BadJson)
    else
      match Validate(j, p)
      case Some(e) => Err(Rejected(e))
      case None => Ok(p)
  }

  function DecodeParts(j: Json, t: Byte, s: Bytes): Result<Packet, DecodeError> {
    match ReadCount(t, s)
    case Err(e) => Err(e)
    case Ok(count) =>
      match ReadNs(count.rest)
      case Err(e) => Err(e)
      case Ok(ns) =>
        match ReadId(t, ns.rest)
        case Err(e) => Err(e)
        case Ok(id) => ReadData(j, Packet(t, ns.value, id.value, id.rest, count.value))
  }

  function Decode(j: Json, raw: Bytes): Result<Packet, DecodeError> {
    if raw == [] then Err(Empty)
    else if |raw| > MAX_PACKET then Err(TooLarge)
    else if !ValidType(raw[0]) then Err(BadTypeByte)
    else DecodeParts(j, raw[0], raw[1..])
  }

  // ----- each part is read back, whatever follows it -----

  lemma {:induction false} DecimalHasOnlyDigits(n: nat, b: Byte)
    requires !IsDigit(b)
    ensures b !in Decimal(n) && Decimal(n)[0] != b
  {
    assert IsDigit(Decimal(n)[0]);
  }

  lemma {:induction false} ReadCountText(t: Byte, text: Bytes, rest: Bytes)
    requires IsBinary(t) && text != [] && DASH !in text && Atoi(text).Some? && 0 < Atoi(text).value <= MAX_COUNT
    ensures ReadCount(t, text + [DASH] + rest) == Ok(Part(Atoi(text).value, rest))
  {
    hide Atoi;
    var s := text + [DASH] + rest;
    IndexByteOf(text, DASH, rest);
    assert s[..|text|] == text && s[|text| + 1..] == rest;
  }

  lemma {:induction false} ReadCountOf(p: Packet, t: Bytes)
    requires CheckEncodable(p) == None
    ensures ReadCount(p.typ, CountText(p) + t) == Ok(Part(p.attachments, t))
  {
    if IsBinary(p.typ) {
      var d := Decimal(p.attachments);
      DecimalHasOnlyDigits(p.attachments, DASH);
      DecimalHasOnlyDigits(p.attachments, PLUS);
      DecimalRoundTrip(p.attachments);
      assert Atoi(d) == Some(p.attachments);
      ReadCountText(p.typ, d, t);
      hide Atoi, ReadCount, Decimal;
    } else {
      assert CountText(p) + t == t;
    }
  }

  lemma {:induction false} ReadNsOf(ns: Bytes, t: Bytes)
    requires StartsWithSlash(ns) && !HasControl(ns) && COMMA !in ns
    requires !StartsWithSlash(t)
    ensures ReadNs(NsText(ns) + t) == Ok(Part(ns, t))
  {
    if ns == ROOT {
      assert NsText(ns) + t == t;
    } else {
      var s := ns + [COMMA] + t;
      IndexByteOf(ns, COMMA, t);
      assert s[..|ns|] == ns && s[|ns| + 1..] == t;
    }
  }

  lemma {:induction false} ReadIdOf(t: Byte, id: Option<GoInt>, s: Bytes)
    requires id.Some? ==> MayHaveId(t) && id.value >= 0
    requires MayHaveId(t) ==> s == [] || !IsDigit(s[0])
    ensures ReadId(t, IdText(id) + s) == Ok(Part(id, s))
  {
    match id {
      case None =>
        assert IdText(id) + s == s;
      case Some(n) =>
        var d := Decimal(n);
        DigitRunOf(d, s);
        DecimalRoundTrip(n);
        assert (d + s)[..|d|] == d && (d + s)[|d|..] == s;
    }
  }

  // ----- round trip -----

  function Normalized(p: Packet): Packet {
    p.(ns := NormalizeNS(p.ns))
  }

  /** Parts of a decoded packet that printing depends on. */
  lemma {:induction false} DecodedParts(j: Json, raw: Bytes)
    requires Decode(j, raw).Ok?
    ensures var p := Decode(j, raw).value;
            && Validate(j, p) == None && (p.data == [] || j.valid(p.data))
            && StartsWithSlash(p.ns) && COMMA !in p.ns && !HasControl(p.ns)
            && (p.id.Some? ==> MayHaveId(p.typ) && p.id.value >= 0)
            && (if IsBinary(p.typ) then 0 < p.attachments <= MAX_COUNT else p.attachments == 0)
            && |raw| <= MAX_PACKET
  {
    var count := ReadCount(raw[0], raw[1..]).value;
    NsIsClean(count.rest);
  }

  lemma NsIsClean(s: Bytes)
    requires ReadNs(s).Ok?
    ensures var ns := ReadNs(s).value.value;
            StartsWithSlash(ns) && COMMA !in ns && !HasControl(ns)
  {
  }

  /** What must hold of a packet for its text to be read back. */
  predicate Readable(j: Json, p: Packet, raw: Bytes) {
    && Validate(j, p) == None
    && (p.data == [] || j.valid(p.data))
    && COMMA !in NormalizeNS(p.ns)
    && |raw| <= MAX_PACKET
  }

  lemma {:induction false} EncodedText(p: Packet, raw: Bytes)
    requires Encode(p) == Ok(raw)
    ensures raw != [] && raw[0] == p.typ
    ensures raw[1..] == CountText(p) + (NsText(NormalizeNS(p.ns)) + (IdText(p.id) + p.data))
  {
    var c, n, i := CountText(p), NsText(NormalizeNS(p.ns)), IdText(p.id);
    AppendAssoc(n, i, p.data);
    AppendAssoc(c, n + i, p.data);
    AppendAssoc(c, n, i);
    AppendAssoc([p.typ], c, n);
    AppendAssoc([p.typ], c + n, i);
    AppendAssoc([p.typ], c + n + i, p.data);
  }

  lemma {:induction false} PartsOf(j: Json, p: Packet)
    requires CheckEncodable(p) == None
    requires Validate(j, p) == None && (p.data == [] || j.valid(p.data)) && COMMA !in NormalizeNS(p.ns)
    ensures var t2 := IdText(p.id) + p.data;
            var t1 := NsText(NormalizeNS(p.ns)) + t2;
            && ReadCount(p.typ, CountText(p) + t1) == Ok(Part(p.attachments, t1))
            && ReadNs(t1) == Ok(Part(NormalizeNS(p.ns), t2))
            && ReadId(p.typ, t2) == Ok(Part(p.id, p.data))
  {
    var t2 := IdText(p.id) + p.data;
    ReadCountOf(p, NsText(NormalizeNS(p.ns)) + t2);
    ReadIdOf(p.typ, p.id, p.data);
    if p.id.Some? {
      assert t2[0] == Decimal(p.id.value)[0] && IsDigit(t2[0]);
    } else {
      assert t2 == p.data;
    }
    ReadNsOf(NormalizeNS(p.ns), t2);
  }

  lemma ValidateIgnoresNs(j: Json, p: Packet)
    ensures Validate(j, Normalized(p)) == Validate(j, p)
  {
  }

  lemma {:induction false} DecodeEncoded(j: Json, p: Packet, raw: Bytes)
    requires Encode(p) == Ok(raw) && Readable(j, p, raw)
    ensures Decode(j, raw) == Ok(Normalized(p))
  {
    EncodedText(p, raw);
    PartsOf(j, p);
    ValidateIgnoresNs(j, p);
    assert ReadData(j, Normalized(p)) == Ok(Normalized(p));
    assert DecodeParts(j, p.typ, raw[1..]) == Ok(Normalized(p));
  }

  lemma {:induction false} DecodedIsReadable(j: Json, p: Packet, raw: Bytes)
    requires Decode(j, raw) == Ok(Normalized(p))
    ensures Readable(j, p, raw)
  {
    DecodedParts(j, raw);
    ValidateIgnoresNs(j, p);
  }

  /**
   * The text of a packet decodes to that packet, its namespace normalised, exactly when the packet is
   * valid, its payload is JSON, its namespace has no comma and the text is within the size limit.
   */
  lemma {:induction false} RoundTrip(j: Json, p: Packet, raw: Bytes)
    requires Encode(p) == Ok(raw)
    ensures Decode(j, raw) == Ok(Normalized(p)) <==> Readable(j, p, raw)
  {
    if Readable(j, p, raw) {
      DecodeEncoded(j, p, raw);
    } else if Decode(j, raw) == Ok(Normalized(p)) {
      DecodedIsReadable(j, p, raw);
    }
  }

  /**
   * Whatever was decoded can be printed again, and the printed text decodes to the same packet exactly
   * when its namespace is trimmed and the text is within the size limit.
   */
  lemma {:induction false} Canonical(j: Json, raw: Bytes)
    requires Decode(j, raw).Ok?
    ensures var p := Decode(j, raw).value;
            && Encode(p).Ok?
            && (Decode(j, Encode(p).value) == Ok(p) <==>
                TrimSpace(p.ns) == p.ns && |Encode(p).value| <= MAX_PACKET)
  {
    var p := Decode(j, raw).value;
    DecodedParts(j, raw);
    NormalizeSlashed(p.ns);
    TrimIsSub(p.ns);
    RoundTrip(j, p, Encode(p).value);
    if TrimSpace(p.ns) == p.ns {
      assert Normalized(p) == p;
    } else if Decode(j, Encode(p).value) == Ok(p) {
      RoundTripNs(j, p);
    }
  }

  lemma {:induction false} TrimIsSub(s: Bytes)
    requires StartsWithSlash(s)
    ensures forall b :: b in TrimSpace(s) ==> b in s
  {
    TrimKeepsSlash(s);
    TrimRightIsSub(s);
  }

  lemma {:induction false} TrimRightIsSub(s: Bytes)
    ensures TrimRight(s) <= s
    decreases |s|
  {
    var n := SpaceAtEnd(s);
    if n > 0 {
      TrimRightIsSub(s[..|s| - n]);
    }
  }

  lemma {:induction false} CountShrinks(t: Byte, s: Bytes)
    requires ReadCount(t, s).Ok?
    ensures var c := ReadCount(t, s).value;
            c.value >= 0 && (if IsBinary(t) then |Decimal(c.value)| + 1 else 0) + |c.rest| <= |s|
  {
    if IsBinary(t) {
      var text := s[..IndexByte(s, DASH)];
      var digits := if text[0] == PLUS || text[0] == DASH then text[1..] else text;
      assert text[0] != DASH by { assert text[0] == s[0] && s[0] in s[..IndexByte(s, DASH)]; }
      DecimalIsShortest(digits);
    }
  }

  lemma {:induction false} RootIsNormal()
    ensures NormalizeNS(ROOT) == ROOT
  {
    NormalizeSlashed(ROOT);
    assert TrimSpace(ROOT) == ROOT;
  }

  lemma {:induction false} NormalizeShrinks(ns: Bytes)
    requires StartsWithSlash(ns)
    ensures |NormalizeNS(ns)| <= |ns|
  {
    NormalizeSlashed(ns);
    TrimKeepsSlash(ns);
    TrimRightIsSub(ns);
    hide NormalizeNS, TrimRight, TrimLeft;
  }

  lemma {:induction false} NsGrows(s: Bytes)
    requires ReadNs(s).Ok?
    ensures var ns := ReadNs(s).value;
            |NsText(NormalizeNS(ns.value))| + |ns.rest| <= |s| + 1
  {
    hide NormalizeNS, HasControl;
    if StartsWithSlash(s) {
      NsIsClean(s);
      NormalizeShrinks(ReadNs(s).value.value);
    } else {
      RootIsNormal();
    }
  }

  lemma {:induction false} IdShrinks(t: Byte, s: Bytes)
    requires ReadId(t, s).Ok?
    ensures var id := ReadId(t, s).value;
            |IdText(id.value)| + |id.rest| <= |s|
  {
    var n := DigitRun(s);
    if MayHaveId(t) && n > 0 {
      DecimalIsShortest(s[..n]);
    }
  }

  /** The three parts after the type, printed and read. */
  lemma {:induction false} PartsGrow(t: Byte, s: Bytes)
    requires ReadCount(t, s).Ok? && ReadNs(ReadCount(t, s).value.rest).Ok?
    requires ReadId(t, ReadNs(ReadCount(t, s).value.rest).value.rest).Ok?
    ensures var count := ReadCount(t, s).value;
            var ns := ReadNs(count.rest).value;
            var id := ReadId(t, ns.rest).value;
            && count.value >= 0
            && (if IsBinary(t) then |Decimal(count.value)| + 1 else 0) + |NsText(NormalizeNS(ns.value))|
               + |IdText(id.value)| + |id.rest| <= |s| + 1
  {
    CountShrinks(t, s);
    NsGrows(ReadCount(t, s).value.rest);
    IdShrinks(t, ReadNs(ReadCount(t, s).value.rest).value.rest);
    hide ReadCount, ReadNs, ReadId, NsText, IdText, NormalizeNS, Decimal;
  }

  /** The parts that the reader finds in a text that decodes. */
  lemma DecodedFrom(j: Json, raw: Bytes)
    requires Decode(j, raw).Ok?
    ensures raw != [] && ReadCount(raw[0], raw[1..]).Ok? && ReadNs(ReadCount(raw[0], raw[1..]).value.rest).Ok?
    ensures var count := ReadCount(raw[0], raw[1..]).value;
            var ns := ReadNs(count.rest).value;
            var id := ReadId(raw[0], ns.rest);
            id.Ok? && Decode(j, raw).value == Packet(raw[0], ns.value, id.value.value, id.value.rest, count.value)
  {
  }

  /** Printing a decoded packet takes at most one byte more than it was read from: a missing comma. */
  lemma {:induction false} PrintsNoLonger(j: Json, raw: Bytes)
    requires Decode(j, raw).Ok?
    ensures var p := Decode(j, raw).value;
            Encode(p).Ok? && |Encode(p).value| <= |raw| + 1
  {
    var p := Decode(j, raw).value;
    Canonical(j, raw);
    DecodedFrom(j, raw);
    PartsGrow(raw[0], raw[1..]);
    EncodedText(p, Encode(p).value);
    hide Decode, Encode, ReadCount, ReadNs, ReadId, NsText, IdText, NormalizeNS, Decimal;
  }

  /** A printed text never decodes to an untrimmed namespace. */
  lemma {:induction false} RoundTripNs(j: Json, p: Packet)
    requires Encode(p).Ok? && StartsWithSlash(p.ns) && COMMA !in p.ns
    requires Decode(j, Encode(p).value) == Ok(p)
    ensures TrimSpace(p.ns) == p.ns
  {
    var raw := Encode(p).value;
    NormalizeSlashed(p.ns);
    TrimIsSub(p.ns);
    DecodedParts(j, raw);
    DecodeEncoded(j, p, raw);
  }

  // ----- what a text says, as a grammar -----

  /** The count and its dash: digits, zeros in front and a plus sign allowed, and nothing for other types. */
  ghost predicate SpellsCount(t: Byte, n: int, s: Bytes) {
    if t == 0x35 || t == 0x36 then
      && 0 < n <= 1024
      && exists d: Bytes | d != [] && AllDigits(d) ::
           DecimalValue(d) == n && (s == d + [0x2D] || s == [0x2B] + d + [0x2D])
    else n == 0 && s == []
  }

  /** The namespace and its comma, which may be missing at the end of the text; nothing stands for the root. */
  predicate SpellsNs(ns: Bytes, s: Bytes, rest: Bytes) {
    if s == [] then ns == [0x2F] && (rest != [] ==> rest[0] != 0x2F)
    else
      && ns != [] && ns[0] == 0x2F && 0x2C !in ns && 0x00 !in ns && 0x0A !in ns && 0x0D !in ns
      && (s == ns + [0x2C] || (s == ns && rest == []))
  }

  /** The id: all the digits there are, zeros in front allowed, for events and acknowledgements only. */
  predicate SpellsId(t: Byte, id: Option<GoInt>, s: Bytes, rest: Bytes) {
    var may := t == 0x32 || t == 0x33 || t == 0x35 || t == 0x36;
    && (may && rest != [] ==> !IsDigit(rest[0]))
    && match id
       case None => s == []
       case Some(n) => may && s != [] && AllDigits(s) && DecimalValue(s) == n
  }

  /** The text is the type, the count, the namespace, the id and the payload of the packet, one after the other. */
  ghost predicate Spells(raw: Bytes, p: Packet) {
    && 0x30 <= p.typ <= 0x36
    && exists c, n, i ::
         && raw == [p.typ] + (c + (n + (i + p.data)))
         && SpellsCount(p.typ, p.attachments, c) && SpellsNs(p.ns, n, i + p.data) && SpellsId(p.typ, p.id, i, p.data)
  }

  lemma {:induction false} DigitsHaveNo(d: Bytes, b: Byte)
    requires AllDigits(d) && !IsDigit(b)
    ensures b !in d && (d != [] ==> d[0] != b)
  {
  }

  lemma {:induction false} AtoiSpelled(text: Bytes, d: Bytes)
    requires d != [] && AllDigits(d) && DecimalValue(d) <= 1024 && (text == d || text == [0x2B] + d)
    ensures Atoi(text) == Some(DecimalValue(d)) && DASH !in text
  {
    DigitsHaveNo(d, DASH);
    DigitsHaveNo(d, PLUS);
    assert text != d ==> text[1..] == d;
  }

  lemma {:induction false} ReadSpelledCount(t: Byte, n: GoInt, s: Bytes, rest: Bytes)
    requires SpellsCount(t, n, s)
    ensures ReadCount(t, s + rest) == Ok(Part(n, rest))
  {
    if t == 0x35 || t == 0x36 {
      var d: Bytes :| d != [] && AllDigits(d) && DecimalValue(d) == n && (s == d + [0x2D] || s == [0x2B] + d + [0x2D]);
      var text := if s == d + [0x2D] then d else [0x2B] + d;
      AtoiSpelled(text, d);
      ReadCountText(t, text, rest);
      hide Atoi, DecimalValue, AllDigits, ReadCount;
      assert s == text + [DASH];
    } else {
      assert s + rest == rest;
    }
  }

  lemma {:induction false} CountIsSpelled(t: Byte, s: Bytes) returns (c: Bytes)
    requires ReadCount(t, s).Ok?
    ensures s == c + ReadCount(t, s).value.rest && SpellsCount(t, ReadCount(t, s).value.value, c)
  {
    c := [];
    if IsBinary(t) {
      var dash := IndexByte(s, DASH);
      var text := s[..dash];
      c := text + [DASH];
      assert text[0] != DASH by { assert text[0] == s[0] && s[0] in s[..dash]; }
      if text[0] == PLUS {
        assert text == [0x2B] + text[1..];
      }
      var d := if text[0] == PLUS then text[1..] else text;
      assert AllDigits(d) && d != [] && DecimalValue(d) == ReadCount(t, s).value.value;
      assert c == d + [0x2D] || c == [0x2B] + d + [0x2D];
    }
  }

  lemma {:induction false} ReadSpelledNs(ns: Bytes, s: Bytes, rest: Bytes)
    requires SpellsNs(ns, s, rest)
    ensures ReadNs(s + rest) == Ok(Part(ns, rest))
  {
    if s == [] {
      assert s + rest == rest;
    } else if s == ns + [0x2C] {
      IndexByteOf(ns, COMMA, rest);
      assert (s + rest)[..|ns|] == ns && (s + rest)[|ns| + 1..] == rest;
    } else {
      assert s + rest == ns;
    }
  }

  lemma {:induction false} NsIsSpelled(s: Bytes) returns (n: Bytes)
    requires ReadNs(s).Ok?
    ensures s == n + ReadNs(s).value.rest && SpellsNs(ReadNs(s).value.value, n, ReadNs(s).value.rest)
  {
    var r := ReadNs(s).value;
    n := if !StartsWithSlash(s) then [] else if COMMA in s then r.value + [COMMA] else s;
  }

  lemma {:induction false} ReadSpelledId(t: Byte, id: Option<GoInt>, s: Bytes, rest: Bytes)
    requires SpellsId(t, id, s, rest)
    ensures ReadId(t, s + rest) == Ok(Part(id, rest))
  {
    if id.None? {
      assert s + rest == rest;
    } else {
      DigitRunOf(s, rest);
      assert (s + rest)[..|s|] == s && (s + rest)[|s|..] == rest;
    }
  }

  lemma {:induction false} IdIsSpelled(t: Byte, s: Bytes) returns (i: Bytes)
    requires ReadId(t, s).Ok?
    ensures s == i + ReadId(t, s).value.rest && SpellsId(t, ReadId(t, s).value.value, i, ReadId(t, s).value.rest)
  {
    i := if MayHaveId(t) then s[..DigitRun(s)] else [];
  }

  lemma {:induction false} SpelledIsDecoded(j: Json, raw: Bytes, p: Packet)
    requires Spells(raw, p) && |raw| <= MAX_PACKET && (p.data != [] ==> j.valid(p.data)) && Validate(j, p) == None
    ensures Decode(j, raw) == Ok(p)
  {
    var c, n, i :|
      && raw == [p.typ] + (c + (n + (i + p.data)))
      && SpellsCount(p.typ, p.attachments, c) && SpellsNs(p.ns, n, i + p.data) && SpellsId(p.typ, p.id, i, p.data);
    ReadSpelledCount(p.typ, p.attachments, c, n + (i + p.data));
    ReadSpelledNs(p.ns, n, i + p.data);
    ReadSpelledId(p.typ, p.id, i, p.data);
    hide ReadCount, ReadNs, ReadId, SpellsCount, SpellsNs, SpellsId, Validate;
    assert raw[0] == p.typ && raw[1..] == c + (n + (i + p.data));
  }

  lemma {:induction false} DecodedIsSpelled(j: Json, raw: Bytes)
    requires Decode(j, raw).Ok?
    ensures Spells(raw, Decode(j, raw).value)
  {
    DecodedFrom(j, raw);
    hide Decode, SpellsCount, SpellsNs, SpellsId, ReadCount, ReadNs, ReadId;
    var p := Decode(j, raw).value;
    var s1 := ReadCount(raw[0], raw[1..]).value.rest;
    var s2 := ReadNs(s1).value.rest;
    var c := CountIsSpelled(raw[0], raw[1..]);
    var n := NsIsSpelled(s1);
    var i := IdIsSpelled(raw[0], s2);
    assert raw == [p.typ] + (c + (n + (i + p.data)));
  }

  /**
   * Decoding gives a packet exactly if the text spells it out, is within the size limit and has a payload
   * that is JSON, and the packet is valid.
   */
  lemma {:induction false} DecodeExact(j: Json, raw: Bytes, p: Packet)
    ensures Decode(j, raw) == Ok(p) <==>
            && Spells(raw, p) && |raw| <= 0x10_0000
            && (p.data != [] ==> j.valid(p.data)) && Validate(j, p) == None
  {
    if Decode(j, raw) == Ok(p) {
      DecodedIsSpelled(j, raw);
      DecodedParts(j, raw);
    }
    hide Decode, Spells, Validate;
    if Spells(raw, p) && |raw| <= 0x10_0000 && (p.data != [] ==> j.valid(p.data)) && Validate(j, p) == None {
      SpelledIsDecoded(j, raw, p);
    }
  }

  // ----- the texts that printing gives back -----

  /** The count has neither sign nor leading zero. */
  predicate CanonicalCount(t: Byte, s: Bytes) {
    IsBinary(t) ==> IndexByte(s, DASH) >= 0 && Numeral(s[..IndexByte(s, DASH)])
  }

  function AfterCount(t: Byte, s: Bytes): Bytes {
    if IsBinary(t) then s[IndexByte(s, DASH) + 1..] else s
  }

  /** A namespace is not the root, does not end with white space, and is followed by a comma. */
  predicate CanonicalNs(s: Bytes) {
    StartsWithSlash(s) ==> IndexByte(s, COMMA) > 1 && SpaceAtEnd(s[..IndexByte(s, COMMA)]) == 0
  }

  function AfterNs(s: Bytes): Bytes {
    if StartsWithSlash(s) then s[IndexByte(s, COMMA) + 1..] else s
  }

  /** The id has no leading zero. */
  predicate CanonicalId(t: Byte, s: Bytes) {
    MayHaveId(t) && DigitRun(s) > 1 ==> s[0] != 0x30
  }

  predicate CanonicalText(raw: Bytes) {
    && raw != []
    && CanonicalCount(raw[0], raw[1..])
    && CanonicalNs(AfterCount(raw[0], raw[1..]))
    && CanonicalId(raw[0], AfterNs(AfterCount(raw[0], raw[1..])))
  }

  lemma {:induction false} SamePrefix(a: Bytes, b: Bytes, rest: Bytes)
    ensures a + rest == b + rest <==> a == b
  {
    if a + rest == b + rest {
      assert a == (a + rest)[..|a|] && b == (b + rest)[..|a|];
    }
  }

  lemma {:induction false} CountCanonical(t: Byte, s: Bytes)
    requires ReadCount(t, s).Ok?
    ensures var c := ReadCount(t, s).value;
            && c.value >= 0 && AfterCount(t, s) == c.rest
            && ((if IsBinary(t) then Decimal(c.value) + [DASH] else []) + c.rest == s <==> CanonicalCount(t, s))
  {
    CountShrinks(t, s);
    var c := ReadCount(t, s).value;
    if IsBinary(t) {
      var text := s[..IndexByte(s, DASH)];
      assert s == text + [DASH] + c.rest;
      DecimalIsNumeral(c.value);
      if Numeral(text) {
        NumeralIsDecimal(text);
      }
      SamePrefix(Decimal(c.value), text, [DASH]);
      SamePrefix(Decimal(c.value) + [DASH], text + [DASH], c.rest);
    } else {
      assert [] + c.rest == s;
    }
  }

  lemma {:induction false} NsCanonical(s: Bytes)
    requires ReadNs(s).Ok?
    ensures var ns := ReadNs(s).value;
            && (CanonicalNs(s) ==> AfterNs(s) == ns.rest)
            && (NsText(NormalizeNS(ns.value)) + ns.rest == s <==> CanonicalNs(s))
  {
    var ns := ReadNs(s).value;
    if StartsWithSlash(s) {
      NsIsClean(s);
      NormalizeSlashed(ns.value);
      TrimKeepsSlash(ns.value);
      hide NormalizeNS, HasControl;
      if COMMA in s {
        SlashedCanonical(s);
      } else {
        hide TrimSpace;
        assert NsText(NormalizeNS(ns.value)) + ns.rest != s;
      }
    } else {
      RootIsNormal();
      hide NormalizeNS;
      assert [] + s == s;
    }
  }

  lemma {:induction false} SlashedCanonical(s: Bytes)
    requires StartsWithSlash(s) && COMMA in s && ReadNs(s).Ok?
    ensures var ns := ReadNs(s).value;
            NsText(NormalizeNS(ns.value)) + ns.rest == s <==> CanonicalNs(s)
  {
    var ns := ReadNs(s).value;
    NsIsClean(s);
    NormalizeSlashed(ns.value);
    TrimKeepsSlash(ns.value);
    TrimRightEnds(ns.value);
    hide NormalizeNS, HasControl, TrimLeft;
    assert s == ns.value + [COMMA] + ns.rest;
    SamePrefix(TrimSpace(ns.value), ns.value, [COMMA]);
    SamePrefix(TrimSpace(ns.value) + [COMMA], ns.value + [COMMA], ns.rest);
  }

  lemma {:induction false} IdCanonical(t: Byte, s: Bytes)
    requires ReadId(t, s).Ok?
    ensures var id := ReadId(t, s).value;
            IdText(id.value) + id.rest == s <==> CanonicalId(t, s)
  {
    var id, n := ReadId(t, s).value, DigitRun(s);
    if MayHaveId(t) && n > 0 {
      var digits := s[..n];
      assert s == digits + id.rest;
      DecimalIsNumeral(id.value.value);
      if Numeral(digits) {
        NumeralIsDecimal(digits);
      }
      SamePrefix(Decimal(id.value.value), digits, id.rest);
    } else {
      assert [] + s == s;
    }
  }

  /** A decoded packet can be printed, and its parts are then read back. */
  lemma {:induction false} DecodedPrints(j: Json, raw: Bytes)
    requires Decode(j, raw).Ok?
    ensures var p := Decode(j, raw).value;
            && CheckEncodable(p) == None && Encode(p).Ok?
            && Validate(j, p) == None && (p.data == [] || j.valid(p.data)) && COMMA !in NormalizeNS(p.ns)
  {
    var p := Decode(j, raw).value;
    DecodedParts(j, raw);
    NormalizeSlashed(p.ns);
    TrimIsSub(p.ns);
    hide Decode, NormalizeNS, TrimSpace, Validate;
  }

  lemma {:induction false} SameTails(a: Bytes, b: Bytes)
    requires a != [] && b != [] && a[0] == b[0]
    ensures a == b <==> a[1..] == b[1..]
  {
    assert a == [a[0]] + a[1..] && b == [b[0]] + b[1..];
  }

  /** Three parts in front of `d` make up `s` exactly when each is found where the one before ends. */
  lemma ThreeParts(s: Bytes, a: Bytes, b: Bytes, c: Bytes, d: Bytes, s1: Bytes, s2: Bytes)
    requires s == a + (b + (c + d)) ==> s1 == b + (c + d)
    requires s1 == b + (c + d) ==> s2 == c + d
    ensures s == a + (b + (c + d)) <==> a + s1 == s && b + s2 == s1 && c + d == s2
  {
  }

  /** If the printed text is the text read, then each printed part is the part read. */
  lemma {:induction false} PartsMatch(j: Json, raw: Bytes)
    requires Decode(j, raw).Ok?
    ensures var p := Decode(j, raw).value;
            var s1 := ReadCount(raw[0], raw[1..]).value.rest;
            var s2 := ReadNs(s1).value.rest;
            && Encode(p).Ok?
            && (Encode(p).value == raw <==>
                && CountText(p) + s1 == raw[1..]
                && NsText(NormalizeNS(p.ns)) + s2 == s1
                && IdText(p.id) + p.data == s2)
  {
    DecodedPrints(j, raw);
    DecodedFrom(j, raw);
    hide Decode, Encode, ReadCount, ReadNs, ReadId, NsText, IdText, CountText, NormalizeNS, Validate, CheckEncodable;
    var p := Decode(j, raw).value;
    EncodedText(p, Encode(p).value);
    PartsOf(j, p);
    SameTails(Encode(p).value, raw);
    var s1 := ReadCount(raw[0], raw[1..]).value.rest;
    ThreeParts(raw[1..], CountText(p), NsText(NormalizeNS(p.ns)), IdText(p.id), p.data, s1, ReadNs(s1).value.rest);
  }

  /**
   * Printing what was parsed gives the text back exactly when the text is canonical: no sign or leading
   * zero in the count, no spelled-out root, a trimmed namespace with its comma, no leading zero in the id.
   */
  lemma {:induction false} PrintsBackExact(j: Json, raw: Bytes)
    requires Decode(j, raw).Ok?
    ensures Encode(Decode(j, raw).value) == Ok(raw) <==> CanonicalText(raw)
  {
    DecodedFrom(j, raw);
    PartsMatch(j, raw);
    var s1 := ReadCount(raw[0], raw[1..]).value.rest;
    CountCanonical(raw[0], raw[1..]);
    NsCanonical(s1);
    IdCanonical(raw[0], ReadNs(s1).value.rest);
    hide Decode, Encode, ReadCount, ReadNs, ReadId, NsText, IdText, NormalizeNS;
    hide CanonicalCount, CanonicalNs, CanonicalId, AfterCount, AfterNs;
  }

  /** Printing does not undo parsing: a text may spell out the root namespace that printing omits. */
  lemma {:induction false} ExplicitRoot(j: Json)
    ensures var raw := [CONNECT, SLASH];
            && Decode(j, raw) == Ok(Packet(CONNECT, ROOT, None, [], 0))
            && Encode(Decode(j, raw).value) == Ok([CONNECT])
  {
    NormalizeSlashed(ROOT);
    assert TrimSpace(ROOT) == ROOT;
    assert ReadNs([SLASH]) == Ok(Part(ROOT, []));
    var p := Packet(CONNECT, ROOT, None, [], 0);
    assert CountText(p) == NsText(NormalizeNS(p.ns)) == IdText(p.id) == p.data == [];
    assert [CONNECT] + [] + [] + [] + [] == [CONNECT];
  }

  const NULL_TEXT: Bytes := [0x6E, 0x75, 0x6C, 0x6C]

  /**
   * An acknowledgement may have the payload `null`: validation asks only for a text that decodes to an
   * array, and Go decodes `null` to one without elements.
   */
  lemma {:induction false} NullAckDecodes(j: Json)
    requires j.valid(NULL_TEXT) && j.arrayLen(NULL_TEXT) == Some(0)
    ensures Decode(j, [ACK, 0x31] + NULL_TEXT) == Ok(Packet(ACK, ROOT, Some(1), NULL_TEXT, 0))
  {
    var s := [0x31] + NULL_TEXT;
    assert ([ACK, 0x31] + NULL_TEXT)[1..] == s;
    DigitRunOf([0x31], NULL_TEXT);
    assert s[..1] == [0x31] && s[1..] == NULL_TEXT;
    assert DecimalValue([0x31]) == 1 by {
      assert [0x31][..0] == [];
    }
    assert ReadId(ACK, s) == Ok(Part(Some(1), NULL_TEXT));
  }

  // ----- the code -----

  method EncodePacket(p: Packet) returns (r: Result<Bytes, EncodeError>)
    ensures r == Encode(p)
  {
    if !ValidType(p.typ) {
      return Err(UnknownType);
    }
    if p.attachments < 0 || p.attachments > MAX_COUNT {
      return Err(BadCount);
    }
    if IsBinary(p.typ) && p.attachments == 0 {
      return Err(CountRequired);
    }
    if !IsBinary(p.typ) && p.attachments != 0 {
      return Err(CountForbidden);
    }
    if p.id.Some? && p.id.value < 0 {
      return Err(NegativeId);
    }
    if (p.typ == CONNECT || p.typ == DISCONNECT || p.typ == CONNECT_ERROR) && p.id.Some? {
      return Err(IdForbidden);
    }
    var ns := NormalizeNS(p.ns);
    var b := [p.typ];
    if IsBinary(p.typ) {
      b := b + Decimal(p.attachments);
      b := b + [DASH];
    }
    assert b == [p.typ] + CountText(p);
    if ns != ROOT {
      if !StartsWithSlash(ns) || HasControl(ns) {
        return Err(BadNamespace);
      }
      b := b + ns;
      b := b + [COMMA];
    }
    assert b == [p.typ] + CountText(p) + NsText(ns);
    if p.id.Some? {
      b := b + Decimal(p.id.value);
    }
    assert b == [p.typ] + CountText(p) + NsText(ns) + IdText(p.id);
    if |p.data| > 0 {
      b := b + p.data;
    }
    assert b == [p.typ] + CountText(p) + NsText(ns) + IdText(p.id) + p.data;
    r := Ok(b);
  }

  method TakeCount(t: Byte, s: Bytes) returns (r: Result<Part<GoInt>, DecodeError>)
    ensures r == ReadCount(t, s)
  {
    if !IsBinary(t) {
      return Ok(Part(0, s));
    }
    var dash := IndexByte(s, DASH);
    if dash <= 0 {
      return Err(MissingCount);
    }
    var n := Atoi(s[..dash]);
    if n.None? || n.value <= 0 || n.value > MAX_COUNT {
      return Err(BadCountText);
    }
    r := Ok(Part(n.value, s[dash + 1..]));
  }

  method TakeNs(s: Bytes) returns (r: Result<Part<Bytes>, DecodeError>)
    ensures r == ReadNs(s)
  {
    var ns, rest := ROOT, s;
    if StartsWithSlash(rest) {
      var idx := IndexByte(rest, COMMA);
      if idx >= 0 {
        ns, rest := rest[..idx], rest[idx + 1..];
      } else {
        ns, rest := rest, [];
      }
      if ns == [] || HasControl(ns) {
        return Err(BadNamespaceText);
      }
    }
    r := Ok(Part(ns, rest));
  }

  method TakeId(t: Byte, s: Bytes) returns (r: Result<Part<Option<GoInt>>, DecodeError>)
    ensures r == ReadId(t, s)
  {
    if !MayHaveId(t) {
      return Ok(Part(None, s));
    }
    var i := 0;
    while i < |s| && IsDigit(s[i])
      invariant 0 <= i <= |s| && AllDigits(s[..i])
    {
      i := i + 1;
    }
    assert s == s[..i] + s[i..];
    DigitRunOf(s[..i], s[i..]);
    if i == 0 {
      return Ok(Part(None, s));
    }
    var v := DecimalValue(s[..i]);
    if v > MAX_INT {
      return Err(IdOutOfRange);
    }
    r := Ok(Part(Some(v), s[i..]));
  }

  method DecodePacket(j: Json, raw: Bytes) returns (r: Result<Packet, DecodeError>)
    ensures r == Decode(j, raw)
  {
    if |raw| == 0 {
      return Err(Empty);
    }
    if |raw| > MAX_PACKET {
      return Err(TooLarge);
    }
    var t := raw[0];
    if !ValidType(t) {
      return Err(BadTypeByte);
    }
    var count := TakeCount(t, raw[1..]);
    if count.Err? {
      return Err(count.error);
    }
    var ns := TakeNs(count.value.rest);
    if ns.Err? {
      return Err(ns.error);
    }
    var id := TakeId(t, ns.value.rest);
    if id.Err? {
      return Err(id.error);
    }
    var p := Packet(t, ns.value.value, id.value.value, id.value.rest, count.value.value);
    if p.data != [] && !j.valid(p.data) {
      return Err(BadJson);
    }
    var err := Validate(j, p);
    if err.Some? {
      return Err(Rejected(err.value));
    }
    r := Ok(p);
  }
}
