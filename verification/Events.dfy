/**
 * Building an event packet from values: binary leaves become attachments, and whether there are any
 * decides the packet's type. What is built is fit to be sent within limits, and the values are restored
 * from what is dispatched at the other end.
 */
module Events {
  import opened Options
  import opened ByteSeqs
  import opened Messages
  import opened Packets
  import opened Sessions
  import opened Attachments
  import opened Delivery

  function EventPacket(ns: Bytes, id: Option<GoInt>, data: Bytes, attachments: nat): Packet
    requires attachments <= MAX_INT
  {
    Packet(if attachments > 0 then BINARY_EVENT else EVENT, ns, id, data, attachments)
  }

  lemma {:induction false} EventIsEncodable(ns: Bytes, id: Option<GoInt>, data: Bytes, attachments: nat)
    requires attachments <= MAX_INT
    ensures Encode(EventPacket(ns, id, data, attachments)).Ok? <==>
            attachments <= MAX_COUNT && (id.Some? ==> id.value >= 0) && !HasControl(NormalizeNS(ns))
  {
    hide NormalizeNS, HasControl;
  }

  datatype BuildError = NotMarshalled | NotEncodable(why: EncodeError)

  /** `marshal` is the JSON library's printer, which may fail. The attachments are counted by a Go `int`. */
  method BuildEventPacket(marshal: Value -> Option<Bytes>, ns: Bytes, event: string, id: Option<GoInt>,
                          args: seq<Value>)
    returns (r: Result<Packet, BuildError>, clean: Value, buffers: seq<Bytes>)
    requires |BinPaths(Arr([Str(event)] + args), [])| <= MAX_INT
    ensures var v := Arr([Str(event)] + args);
            && (exists num :: Deconstructed(v, [], clean, num, [], buffers))
            && |buffers| == |BinPaths(v, [])|
            && (Reconstruct(clean, buffers) == Ok(v) <==> NoFakes(v))
            && (r.Ok? <==>
                  && marshal(clean).Some? && |buffers| <= MAX_COUNT && (id.Some? ==> id.value >= 0)
                  && !HasControl(NormalizeNS(ns)))
            && (r.Ok? ==>
                  && r.value.typ == (if ContainsBinary(v) then 0x35 else 0x32)
                  && r.value.ns == ns && r.value.id == id && r.value.data == marshal(clean).value
                  && r.value.attachments == |buffers|
                  && Encode(r.value).Ok?
                  && (IsBinary(r.value.typ) <==> ContainsBinary(v)))
  {
    hide Encode, Deconstructed, Reconstruct, NoFakes, BinPaths, ContainsBinary;
    var v := Arr([Str(event)] + args);
    clean, buffers := SplitBinary(v);
    var data := marshal(clean);
    if data.None? {
      return Err(NotMarshalled), clean, buffers;
    }
    EventIsEncodable(ns, id, data.value, |buffers|);
    var p := EventPacket(ns, id, data.value, |buffers|);
    var e := EncodePacket(p);
    r := if e.Err? then Err(NotEncodable(e.error)) else Ok(p);
  }

  /**
   * A packet so built, whose text the JSON library takes for a non-empty array, is fit for delivery
   * exactly when it has at most 64 attachments, a namespace without comma, and parts within the limits.
   */
  lemma {:induction false} BuiltIsGoodIff(j: Json, cfg: Config, p: Packet, buffers: seq<Bytes>)
    requires Encode(p).Ok? && |buffers| <= MAX_COUNT
    requires p == EventPacket(p.ns, p.id, p.data, |buffers|)
    requires j.valid(p.data) && j.arrayLen(p.data).Some? && j.arrayLen(p.data).value > 0
    requires cfg.checkUtf8 ==> cfg.utf8([EIO_MESSAGE] + Text(p))
    ensures Good(j, cfg, Group(p, buffers)) <==>
            && |buffers| <= MAX_SESSION_ATTACHMENTS && COMMA !in NormalizeNS(p.ns) && |Text(p)| <= MAX_PACKET
            && !TooLong(cfg, |Text(p)| + 1)
            && (forall i :: 0 <= i < |buffers| ==> !TooLong(cfg, |buffers[i]|))
  {
    hide Encode, NormalizeNS, TooLong;
  }

  lemma {:induction false} DispatchesAt(gs: seq<Group>, k: nat)
    requires k < |gs|
    ensures |DispatchesOf(gs)| == |gs| && DispatchesOf(gs)[k] == DispatchOf(gs[k])
    decreases |gs|
  {
    hide DispatchOf;
    if |gs| > 1 {
      DispatchesAt(gs[1..], if k == 0 then 0 else k - 1);
    }
  }

  /**
   * If a group of a transmission has the text and the buffers that a value was taken apart into, and the
   * receiver's JSON library reads that text back, then reconstructing from what is dispatched for it
   * gives the value exactly when no object of the value claims to be a placeholder.
   */
  lemma {:induction false} ValuesArrive(j: Json, cfg: Config, tx: Transmission, unmarshal: Bytes -> Option<Value>,
                                        k: nat, v: Value, clean: Value, num: map<Path, nat>)
    requires Proper(j, cfg, tx.groups) && Transmits(cfg, tx) && k < |tx.groups|
    requires Deconstructed(v, [], clean, num, [], tx.groups[k].buffers)
    requires unmarshal(tx.groups[k].pkt.data) == Some(clean)
    ensures var calls := Run(j, START, Delivered(cfg, ParseAll(cfg.max, WireBytes(tx.wire, cfg.max))));
            && |calls| == |tx.groups|
            && var got := unmarshal(calls[k].pkt.data);
               got.Some? && (Reconstruct(got.value, calls[k].buffers) == Ok(v) <==> NoFakes(v))
  {
    var wire := WireBytes(tx.wire, cfg.max);
    hide Proper, Transmits, Run, Delivered, ParseAll, WireBytes, Reconstruct, NoFakes, Sendable;
    EndToEnd(j, cfg, tx, []);
    NothingFollows(j, cfg);
    assert wire + [] == wire;
    assert DispatchesOf(tx.groups) + [] == DispatchesOf(tx.groups);
    DispatchesAt(tx.groups, k);
    RestoreExact(v, [], num, tx.groups[k].buffers);
  }

  lemma NothingFollows(j: Json, cfg: Config)
    ensures Run(j, CONNECTED, Delivered(cfg, ParseAll(cfg.max, []))) == []
  {
  }
}
