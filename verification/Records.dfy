/** `decode_record`: the length-prefixed framing of one journal payload. */
module Records {
  import opened Basics
  import opened Positional

  const PAYLOAD_MAGIC: Bytes := [0x53, 0x44, 0x52, 0x4a, 0x31]  // SDRJ1
  const TWO_TO_64: nat := 0x1_0000_0000_0000_0000

  /** Big-endian bytes as a number: `struct.unpack(">Q", ...)` on eight of them. */
  function FromBytes(b: Bytes): nat
  {
    FromDigits(256, b)
  }

  /** n in `width` big-endian bytes. */
  function ToBytes(width: nat, n: nat): (r: Bytes)
    ensures |r| == width
  {
    if width == 0 then [] else ToBytes(width - 1, n / 256) + [n % 256]
  }

  lemma {:induction false} FromInvertsTo(width: nat, n: nat)
    requires n < Pow(256, width)
    ensures FromBytes(ToBytes(width, n)) == n
  {
    if width > 0 {
      var r := ToBytes(width, n);
      assert r[..width - 1] == ToBytes(width - 1, n / 256);
      FromInvertsTo(width - 1, n / 256);
    }
  }

  lemma {:induction false} ToInvertsFrom(b: Bytes)
    ensures ToBytes(|b|, FromBytes(b)) == b
    ensures FromBytes(b) < Pow(256, |b|)
  {
    if b != [] {
      ToInvertsFrom(b[..|b| - 1]);
      assert b == b[..|b| - 1] + [b[|b| - 1]];
    }
  }

  lemma EightBytes()
    ensures Pow(256, 8) == TWO_TO_64
  {
    assert Pow(256, 4) == 0x1_0000_0000 by { assert Pow(256, 2) == 0x1_0000 by { assert Pow(256, 1) == 256; } }
    assert Pow(256, 6) == 0x1_0000_0000_0000 by { assert Pow(256, 5) == 0x100_0000_0000; }
    assert Pow(256, 7) == 0x100_0000_0000_0000;
  }

  datatype Record = Record(blockId: Bytes, header: Bytes, receipt: Bytes)

  /** The local function `field`: a slice past the end is shortened, the position is not. */
  function FramedAt(payload: Bytes, pos: nat): (r: Result<(Bytes, nat)>)
    ensures r.Ok? ==> r.value.1 >= pos + 8
  {
    var head := Slice(payload, pos, 8);
    if |head| != 8 then Err(StructError)
    else
      var size := FromBytes(head);
      Ok((Slice(payload, pos + 8, size), pos + 8 + size))
  }

  /** `decode_record`. */
  function DecodeRecord(payload: Bytes): Result<Record>
  {
    if Slice(payload, 0, 5) != PAYLOAD_MAGIC then Err(AssertionError)
    else
      match FramedAt(payload, 5)
      case Err(e) => Err(e)
      case Ok((blockId, p)) =>
        match FramedAt(payload, p)
        case Err(e) => Err(e)
        case Ok((header, q)) =>
          match FramedAt(payload, q)
          case Err(e) => Err(e)
          case Ok((receipt, end)) =>
            if end != |payload| then Err(AssertionError) else Ok(Record(blockId, header, receipt))
  }

  function Framed(b: Bytes): Bytes
  {
    ToBytes(8, |b|) + b
  }

  function EncodeRecord(r: Record): Bytes
  {
    PAYLOAD_MAGIC + (Framed(r.blockId) + (Framed(r.header) + Framed(r.receipt)))
  }

  predicate RecordFits(r: Record)
  {
    |r.blockId| < TWO_TO_64 && |r.header| < TWO_TO_64 && |r.receipt| < TWO_TO_64
  }

  lemma FramedReadsBack(payload: Bytes, pos: nat, b: Bytes)
    requires |b| < TWO_TO_64 && OccursAt(payload, Framed(b), pos)
    ensures FramedAt(payload, pos) == Ok((b, pos + |Framed(b)|))
  {
    hide ToBytes, FromBytes;
    OccursSplit(payload, ToBytes(8, |b|), b, pos);
    EightBytes();
    FromInvertsTo(8, |b|);
  }

  /** A field that ends inside the payload is the frame standing there. */
  lemma FramedStandsThere(payload: Bytes, pos: nat)
    requires FramedAt(payload, pos).Ok? && FramedAt(payload, pos).value.1 <= |payload|
    ensures var (b, next) := FramedAt(payload, pos).value;
      |b| < TWO_TO_64 && next == pos + |Framed(b)| && OccursAt(payload, Framed(b), pos)
  {
    hide ToBytes, FromBytes;
    var (b, next) := FramedAt(payload, pos).value;
    var head := Slice(payload, pos, 8);
    ToInvertsFrom(head);
    EightBytes();
    assert FromBytes(head) == |b|;
    assert OccursAt(payload, head, pos) && OccursAt(payload, b, pos + 8);
    OccursSplit(payload, head, b, pos);
  }

  /** `decode_record` accepts exactly the well-framed byte strings and inverts the framing. */
  lemma DecodesExactlyEncoded(payload: Bytes, r: Record)
    ensures DecodeRecord(payload) == Ok(r) <==> RecordFits(r) && payload == EncodeRecord(r)
  {
    hide FramedAt, Framed;
    if RecordFits(r) && payload == EncodeRecord(r) { EncodedDecodes(r); }
    if DecodeRecord(payload) == Ok(r) {
      var (_, p) := FramedAt(payload, 5).value;
      var (_, q) := FramedAt(payload, p).value;
      var (_, end) := FramedAt(payload, q).value;
      FramedGrows(payload, p);
      FramedGrows(payload, q);
      FramedStandsThere(payload, 5);
      FramedStandsThere(payload, p);
      FramedStandsThere(payload, q);
      OccursSplit(payload, Framed(r.header), Framed(r.receipt), p);
      OccursSplit(payload, Framed(r.blockId), Framed(r.header) + Framed(r.receipt), 5);
      assert payload == payload[..5] + payload[5..];
    }
  }

  lemma FramedGrows(payload: Bytes, pos: nat)
    requires FramedAt(payload, pos).Ok?
    ensures FramedAt(payload, pos).value.1 >= pos + 8
  {
  }

  lemma EncodedDecodes(r: Record)
    requires RecordFits(r)
    ensures DecodeRecord(EncodeRecord(r)) == Ok(r)
  {
    hide FramedAt, Framed;
    var payload := EncodeRecord(r);
    var rest := Framed(r.blockId) + (Framed(r.header) + Framed(r.receipt));
    assert payload == PAYLOAD_MAGIC + rest;
    assert OccursAt(payload, rest, 5) by { assert payload[5..5 + |rest|] == rest; }
    OccursSplit(payload, Framed(r.blockId), Framed(r.header) + Framed(r.receipt), 5);
    var p := 5 + |Framed(r.blockId)|;
    OccursSplit(payload, Framed(r.header), Framed(r.receipt), p);
    FramedReadsBack(payload, 5, r.blockId);
    FramedReadsBack(payload, p, r.header);
    FramedReadsBack(payload, p + |Framed(r.header)|, r.receipt);
    assert Slice(payload, 0, 5) == PAYLOAD_MAGIC;
  }

  /** The receipt of a decoded record is a piece of the payload. */
  lemma ReceiptIsSlice(payload: Bytes)
    requires DecodeRecord(payload).Ok?
    ensures Contains(payload, DecodeRecord(payload).value.receipt)
  {
    var r := DecodeRecord(payload).value;
    DecodesExactlyEncoded(payload, r);
    hide DecodeRecord;
    hide ToBytes, Contains;
    var (front, size) := (PAYLOAD_MAGIC + Framed(r.blockId) + Framed(r.header), ToBytes(8, |r.receipt|));
    assert payload == front + (size + r.receipt);
    Assoc(front, size, r.receipt);
    ContainsEnd(front + size, r.receipt);
  }
}
