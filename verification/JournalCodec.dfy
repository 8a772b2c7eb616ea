/**
  The journal record codec: a magic followed by three length-prefixed fields.

  Protobuf is a parameter: `Proto` bundles the two serializers and parsers, and
  the round trip theorem assumes only that parsing undoes serializing.
 */
module JournalCodec {
  import opened Bytes
  import opened Options
  import opened Sequences

  datatype Proto<!H, !R> = Proto(
    headerBytes: H -> Bytes, parseHeader: Bytes -> Option<H>,
    receiptBytes: R -> Bytes, parseReceipt: Bytes -> Option<R>)

  datatype Record<+H, +R> = Record(blockId: Bytes, header: H, receipt: R)

  datatype DecodeError = InvalidMagic | TruncatedRecord | BadHeader | BadReceipt | TrailingBytes

  datatype Decoded<+H, +R> = Ok(record: Record<H, R>) | Err(error: DecodeError)

  datatype FieldRead = Field(bytes: Bytes, next: nat) | Short

  /** "SDRJ1" */
  const MAGIC: Bytes := [83, 68, 82, 74, 49]

  function FieldBytes(v: Bytes): Bytes {
    BigEndian(|v|, 8) + v
  }

  function Frame(id: Bytes, header: Bytes, receipt: Bytes): Bytes {
    MAGIC + FieldBytes(id) + FieldBytes(header) + FieldBytes(receipt)
  }

  function Encode<H, R>(p: Proto<H, R>, r: Record<H, R>): Bytes {
    Frame(r.blockId, p.headerBytes(r.header), p.receiptBytes(r.receipt))
  }

  function ReadFieldAt(value: Bytes, offset: nat): (f: FieldRead)
    requires offset <= |value|
    ensures f.Field? ==> offset <= f.next <= |value|
  {
    if |value| - offset < 8 then Short
    else
      var size := Value(value[offset..offset + 8]);
      if size > |value| - offset - 8 then Short
      else Field(value[offset + 8..offset + 8 + size], offset + 8 + size)
  }

  /** decode_journal_record. */
  function Decode<H, R>(p: Proto<H, R>, value: Bytes): Decoded<H, R> {
    if |value| < 5 || value[..5] != MAGIC then Err(InvalidMagic)
    else match ReadFieldAt(value, 5)
      case Short => Err(TruncatedRecord)
      case Field(id, o1) =>
        match ReadFieldAt(value, o1)
        case Short => Err(TruncatedRecord)
        case Field(hb, o2) => DecodeTail(p, value, id, hb, o2)
  }

  function DecodeTail<H, R>(p: Proto<H, R>, value: Bytes, id: Bytes, hb: Bytes, offset: nat): Decoded<H, R>
    requires offset <= |value|
  {
    match p.parseHeader(hb)
    case None => Err(BadHeader)
    case Some(header) =>
      match ReadFieldAt(value, offset)
      case Short => Err(TruncatedRecord)
      case Field(rb, o3) =>
        match p.parseReceipt(rb)
        case None => Err(BadReceipt)
        case Some(receipt) => if o3 != |value| then Err(TrailingBytes) else Ok(Record(id, header, receipt))
  }

  // ---- Fields ----------------------------------------------------------------

  lemma {:induction false} FieldIsRead(value: Bytes, offset: nat, v: Bytes)
    requires |v| < Pow256(8) && offset + 8 + |v| <= |value|
    requires value[offset..offset + 8 + |v|] == FieldBytes(v)
    ensures ReadFieldAt(value, offset) == Field(v, offset + 8 + |v|)
  {
    var f := value[offset..offset + 8 + |v|];
    assert value[offset..offset + 8] == f[..8] == BigEndian(|v|, 8);
    assert value[offset + 8..offset + 8 + |v|] == f[8..] == v;
    ValueOfBigEndian(|v|, 8);
  }

  lemma {:induction false} ReadFieldIsField(value: Bytes, offset: nat)
    requires offset <= |value| && ReadFieldAt(value, offset).Field?
    ensures var f := ReadFieldAt(value, offset);
      f.next == offset + 8 + |f.bytes| && |f.bytes| < Pow256(8) && value[offset..f.next] == FieldBytes(f.bytes)
  {
    var f := ReadFieldAt(value, offset);
    BigEndianOfValue(value[offset..offset + 8]);
    ValueBound(value[offset..offset + 8]);
    assert value[offset..f.next] == value[offset..offset + 8] + value[offset + 8..f.next];
  }

  lemma {:induction false} ReadFieldExtends(value: Bytes, more: Bytes, offset: nat)
    requires offset <= |value| && ReadFieldAt(value, offset).Field?
    ensures ReadFieldAt(value + more, offset) == ReadFieldAt(value, offset)
  {
    var w := value + more;
    var f := ReadFieldAt(value, offset);
    assert w[offset..offset + 8] == value[offset..offset + 8];
    assert w[offset + 8..f.next] == value[offset + 8..f.next];
  }

  // ---- Records ---------------------------------------------------------------

  lemma {:induction false} FrameDecodes<H, R>(p: Proto<H, R>, id: Bytes, hb: Bytes, rb: Bytes)
    requires |id| < Pow256(8) && |hb| < Pow256(8) && |rb| < Pow256(8)
    requires p.parseHeader(hb).Some? && p.parseReceipt(rb).Some?
    ensures Decode(p, Frame(id, hb, rb)) == Ok(Record(id, p.parseHeader(hb).value, p.parseReceipt(rb).value))
  {
    FrameFields(id, hb, rb);
    var value := Frame(id, hb, rb);
    var o2 := ReadFieldAt(value, ReadFieldAt(value, 5).next).next;
    assert DecodeTail(p, value, id, hb, o2) == Ok(Record(id, p.parseHeader(hb).value, p.parseReceipt(rb).value));
  }

  /** The three fields of a frame are read one after the other, up to its end. */
  lemma {:induction false} FrameFields(id: Bytes, hb: Bytes, rb: Bytes)
    requires |id| < Pow256(8) && |hb| < Pow256(8) && |rb| < Pow256(8)
    ensures var value := Frame(id, hb, rb);
      var o1, o2 := 13 + |id|, 21 + |id| + |hb|;
      && |value| == o2 + 8 + |rb| && value[..5] == MAGIC && ReadFieldAt(value, 5) == Field(id, o1)
      && ReadFieldAt(value, o1) == Field(hb, o2) && ReadFieldAt(value, o2) == Field(rb, |value|)
  {
    var value := Frame(id, hb, rb);
    FourParts(MAGIC, FieldBytes(id), FieldBytes(hb), FieldBytes(rb));
    FieldIsRead(value, 5, id);
    FieldIsRead(value, 13 + |id|, hb);
    FieldIsRead(value, 21 + |id| + |hb|, rb);
  }

  ghost predicate IsFrameOf<H, R>(p: Proto<H, R>, value: Bytes, r: Record<H, R>, id: Bytes, hb: Bytes, rb: Bytes) {
    && value == Frame(id, hb, rb)
    && |id| < Pow256(8) && |hb| < Pow256(8) && |rb| < Pow256(8)
    && p.parseHeader(hb) == Some(r.header) && p.parseReceipt(rb) == Some(r.receipt) && r.blockId == id
  }

  /** The bytes that decode are exactly the frames whose two messages parse. */
  lemma {:induction false} DecodesExactlyFrames<H, R>(p: Proto<H, R>, value: Bytes, r: Record<H, R>)
    ensures Decode(p, value) == Ok(r) <==> exists id, hb, rb :: IsFrameOf(p, value, r, id, hb, rb)
  {
    if Decode(p, value) == Ok(r) {
      var f1 := ReadFieldAt(value, 5);
      var f2 := ReadFieldAt(value, f1.next);
      var f3 := ReadFieldAt(value, f2.next);
      ReadFieldIsField(value, 5);
      ReadFieldIsField(value, f1.next);
      ReadFieldIsField(value, f2.next);
      FourPieces(value, 5, f1.next, f2.next);
      assert IsFrameOf(p, value, r, f1.bytes, f2.bytes, f3.bytes);
    }
    forall id, hb, rb | IsFrameOf(p, value, r, id, hb, rb)
      ensures Decode(p, value) == Ok(r)
    {
      FrameDecodes(p, id, hb, rb);
    }
  }

  lemma {:induction false} FourPieces(value: Bytes, a: nat, b: nat, c: nat)
    requires a <= b <= c <= |value|
    ensures value == value[..a] + value[a..b] + value[b..c] + value[c..|value|]
  {
  }

  /** Round trip, for all field contents that fit a 64-bit length. */
  lemma {:induction false} RoundTrip<H, R>(p: Proto<H, R>, r: Record<H, R>)
    requires p.parseHeader(p.headerBytes(r.header)) == Some(r.header)
    requires p.parseReceipt(p.receiptBytes(r.receipt)) == Some(r.receipt)
    requires |r.blockId| < Pow256(8)
    requires |p.headerBytes(r.header)| < Pow256(8) && |p.receiptBytes(r.receipt)| < Pow256(8)
    ensures Decode(p, Encode(p, r)) == Ok(r)
  {
    FrameDecodes(p, r.blockId, p.headerBytes(r.header), p.receiptBytes(r.receipt));
  }

  /** Anything accepted stops being accepted when bytes are appended. */
  lemma {:induction false} ExtensionRejected<H, R>(p: Proto<H, R>, value: Bytes, more: Bytes)
    requires Decode(p, value).Ok? && more != []
    ensures Decode(p, value + more) == Err(TrailingBytes)
  {
    var f1 := ReadFieldAt(value, 5);
    var f2 := ReadFieldAt(value, f1.next);
    assert (value + more)[..5] == value[..5];
    ReadFieldExtends(value, more, 5);
    ReadFieldExtends(value, more, f1.next);
    ReadFieldExtends(value, more, f2.next);
  }

  /** No strict prefix of anything accepted is accepted. */
  lemma {:induction false} PrefixFree<H, R>(p: Proto<H, R>, value: Bytes, n: nat)
    requires Decode(p, value).Ok? && n < |value|
    ensures Decode(p, value[..n]).Err?
  {
    assert value[..n] + value[n..] == value;
    if Decode(p, value[..n]).Ok? {
      ExtensionRejected(p, value[..n], value[n..]);
    }
  }

  lemma {:induction false} FrameInjective(id: Bytes, hb: Bytes, rb: Bytes, id': Bytes, hb': Bytes, rb': Bytes)
    requires |id| < Pow256(8) && |hb| < Pow256(8) && |rb| < Pow256(8)
    requires |id'| < Pow256(8) && |hb'| < Pow256(8) && |rb'| < Pow256(8)
    requires Frame(id, hb, rb) == Frame(id', hb', rb')
    ensures id == id' && hb == hb' && rb == rb'
  {
    var raw: Proto<Bytes, Bytes> := Proto(b => b, b => Some(b), b => b, b => Some(b));
    FrameDecodes(raw, id, hb, rb);
    FrameDecodes(raw, id', hb', rb');
  }

  // ---- The code --------------------------------------------------------------

  /** append_field. */
  method AppendField(out: Bytes, v: Bytes) returns (r: Bytes)
    ensures r == out + FieldBytes(v)
  {
    r := AppendU64(out, |v|);
    r := r + v;
  }

  method EncodeRecord<H, R>(p: Proto<H, R>, record: Record<H, R>) returns (out: Bytes)
    ensures out == Encode(p, record)
  {
    out := MAGIC;
    out := AppendField(out, record.blockId);
    out := AppendField(out, p.headerBytes(record.header));
    out := AppendField(out, p.receiptBytes(record.receipt));
  }

  /** read_field. */
  method ReadField(value: Bytes, offset: nat) returns (f: FieldRead)
    requires offset <= |value|
    ensures f == ReadFieldAt(value, offset)
  {
    var size := ReadU64(value, offset);
    if size.Truncated? || size.value > |value| - size.offset {
      return Short;
    }
    return Field(value[size.offset..size.offset + size.value], size.offset + size.value);
  }

  method DecodeRecord<H, R>(p: Proto<H, R>, value: Bytes) returns (r: Decoded<H, R>)
    ensures r == Decode(p, value)
  {
    if |value| < 5 || value[..5] != MAGIC {
      return Err(InvalidMagic);
    }
    var id := ReadField(value, 5);
    if id.Short? {
      return Err(TruncatedRecord);
    }
    var hb := ReadField(value, id.next);
    if hb.Short? {
      return Err(TruncatedRecord);
    }
    var header := p.parseHeader(hb.bytes);
    if header.None? {
      return Err(BadHeader);
    }
    var rb := ReadField(value, hb.next);
    if rb.Short? {
      return Err(TruncatedRecord);
    }
    var receipt := p.parseReceipt(rb.bytes);
    if receipt.None? {
      return Err(BadReceipt);
    }
    if rb.next != |value| {
      return Err(TrailingBytes);
    }
    return Ok(Record(id.bytes, header.value, receipt.value));
  }
}
