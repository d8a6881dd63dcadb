/** The account nonce as the RPC carries it: a protobuf `value_type` with field 5, in base64url. */
module Nonce {
  import opened Basics
  import opened Varints
  import opened Protobuf
  import opened Base64

  function NonceBytes(n: nat): Bytes
  {
    EncodeFields([VarintField(5, n)])
  }

  lemma NonceBytesAre(n: nat)
    ensures NonceBytes(n) == [0x28] + Varint(n)
  {
    assert EncodeFields([VarintField(5, n)][1..]) == [];
  }

  /** `encode_nonce_value` of the Python script, with padding. */
  method EncodeNoncePython(n: nat) returns (s: string)
    ensures s == EncodePadded(UrlSafe, NonceBytes(n))
  {
    NonceBytesAre(n);
    var tag := WriteVarint(5 * 8 + 0);
    var value := WriteVarint(n);
    s := EncodePadded(UrlSafe, tag + value);
  }

  /** `encodeNonceValue` of the JavaScript benchmark, without padding. */
  method EncodeNonceJs(n: nat) returns (s: string)
    ensures s == EncodeUnpadded(UrlSafe, NonceBytes(n))
  {
    NonceBytesAre(n);
    var bytes: Bytes := [0x28];
    var next: nat := n;
    while next >= 0x80
      invariant [0x28] + Varint(n) == bytes + Varint(next)
    {
      Assoc(bytes, [0x80 + next % 0x80], Varint(next / 0x80));
      bytes := bytes + [next % 0x80 + 0x80];
      next := next / 0x80;
    }
    s := EncodeUnpadded(UrlSafe, bytes + [next]);
  }

  /** The loop of `decode_nonce_value` from `pos` on. */
  function NonceFrom(data: Bytes, pos: nat): Result<nat>
    decreases if pos < |data| then |data| - pos else 0
  {
    if pos >= |data| then Err(ValueError)
    else
      match VarintAt(data, pos)
      case None => Err(ValueError)
      case Some((tag, p)) =>
        match VarintAt(data, p)
        case None => Err(ValueError)
        case Some((n, q)) =>
          if tag == 5 * 8 then Ok(n)
          else if tag % 8 == 0 then NonceFrom(data, q)
          else if tag % 8 == 2 then NonceFrom(data, q + n)
          else Err(ValueError)
  }

  function DecodeNonce(s: string): Result<nat>
  {
    match Decode(s)
    case Err(e) => Err(e)
    case Ok(data) => NonceFrom(data, 0)
  }

  /** `decode_nonce_value`. Every failure is a ValueError, so the order of the checks does not show. */
  method DecodeNonceValue(s: string) returns (r: Result<nat>)
    ensures r == DecodeNonce(s)
  {
    hide VarintAt;
    var decoded := Decode(s);
    if decoded.Err? { return Err(decoded.error); }
    var data := decoded.value;
    var index: nat := 0;
    while index < |data|
      invariant NonceFrom(data, 0) == NonceFrom(data, index)
      decreases if index < |data| then |data| - index else 0
    {
      var tag := ReadVarint(data, index, ValueError);
      if tag.Err? { return Err(tag.error); }
      var field: nat, wire: nat := tag.value.0 / 8, tag.value.0 % 8;
      if field == 5 && wire == 0 {
        var value := ReadVarint(data, tag.value.1, ValueError);
        if value.Err? { return Err(value.error); }
        return Ok(value.value.0);
      }
      if wire == 0 {
        var skipped := ReadVarint(data, tag.value.1, ValueError);
        if skipped.Err? { return Err(skipped.error); }
        index := skipped.value.1;
      } else if wire == 2 {
        var length := ReadVarint(data, tag.value.1, ValueError);
        if length.Err? { return Err(length.error); }
        index := length.value.1 + length.value.0;
      } else {
        return Err(ValueError);
      }
    }
    return Err(ValueError);
  }

  predicate IsNonceField(f: WireField)
  {
    f.number == 5 && f.wire == 0
  }

  /** The fields the nonce reader can step over or stop at. */
  predicate Readable(fs: seq<WireField>)
  {
    forall i :: 0 <= i < |fs| ==> fs[i].wire == 0 || fs[i].wire == 2
  }

  /** The value of the first varint field number 5. */
  function FirstNonce(fs: seq<WireField>): Result<nat>
  {
    if fs == [] then Err(ValueError)
    else if IsNonceField(fs[0]) then Ok(fs[0].val.n)
    else FirstNonce(fs[1..])
  }

  lemma StepOver(data: Bytes, pos: nat, f: WireField)
    requires (f.wire == 0 || f.wire == 2) && OccursAt(data, EncodeField(f), pos)
    ensures NonceFrom(data, pos) == if IsNonceField(f) then Ok(f.val.n) else NonceFrom(data, pos + |EncodeField(f)|)
  {
    hide VarintAt, Varint;
    OccursSplit(data, Varint(Tag(f)), Payload(f), pos);
    ReadInvertsWrite(data, pos, Tag(f));
    var p := pos + |Varint(Tag(f))|;
    match f.val {
      case Num(n) =>
        ReadInvertsWrite(data, p, n);
      case Raw(b) =>
        OccursSplit(data, Varint(|b|), b, p);
        ReadInvertsWrite(data, p, |b|);
    }
  }

  lemma {:induction false} NonceOfFields(data: Bytes, pos: nat, fs: seq<WireField>)
    requires Readable(fs) && OccursAt(data, EncodeFields(fs), pos)
    ensures FirstNonce(fs).Ok? ==> NonceFrom(data, pos) == FirstNonce(fs)
    ensures FirstNonce(fs).Err? ==> NonceFrom(data, pos) == NonceFrom(data, pos + |EncodeFields(fs)|)
    decreases |fs|
  {
    hide NonceFrom, EncodeField;
    if fs != [] {
      OccursSplit(data, EncodeField(fs[0]), EncodeFields(fs[1..]), pos);
      StepOver(data, pos, fs[0]);
      if !IsNonceField(fs[0]) { NonceOfFields(data, pos + |EncodeField(fs[0])|, fs[1..]); }
    }
  }

  /** On any message of varint and length-delimited fields, in either encoding, the reader returns the
      first varint field number 5, and raises a ValueError exactly when there is none. */
  lemma DecodesFirstNonce(fs: seq<WireField>)
    requires Readable(fs)
    ensures DecodeNonce(EncodePadded(UrlSafe, EncodeFields(fs))) == FirstNonce(fs)
    ensures DecodeNonce(EncodeUnpadded(UrlSafe, EncodeFields(fs))) == FirstNonce(fs)
  {
    hide EncodeFields, Decode, EncodePadded, EncodeUnpadded, FirstNonce, NonceFrom;
    var data := EncodeFields(fs);
    DecodeInvertsEncode(UrlSafe, data);
    NonceOfFields(data, 0, fs);
    FirstNonceError(fs);
    NothingLeft(data);
  }

  lemma NothingLeft(data: Bytes)
    ensures NonceFrom(data, |data|) == Err(ValueError)
  {
  }

  lemma {:induction false} FirstNonceError(fs: seq<WireField>)
    ensures FirstNonce(fs).Err? ==> FirstNonce(fs) == Err(ValueError)
  {
    if fs != [] { FirstNonceError(fs[1..]); }
  }

  /** The nonce comes back from the Python and from the JavaScript encoding, also behind other fields. */
  lemma NonceReadsBack(before: seq<WireField>, n: nat, behind: seq<WireField>)
    requires Readable(before) && Readable(behind)
    requires forall i :: 0 <= i < |before| ==> !IsNonceField(before[i])
    ensures var b := EncodeFields(before + [VarintField(5, n)] + behind);
      DecodeNonce(EncodePadded(UrlSafe, b)) == DecodeNonce(EncodeUnpadded(UrlSafe, b)) == Ok(n)
    ensures DecodeNonce(EncodePadded(UrlSafe, NonceBytes(n))) == Ok(n)
    ensures DecodeNonce(EncodeUnpadded(UrlSafe, NonceBytes(n))) == Ok(n)
  {
    hide EncodeFields, Readable, EncodePadded, EncodeUnpadded, DecodeNonce;
    ReadableParts(before, n, behind);
    FirstBehind(before, n, behind);
    DecodesFirstNonce(before + [VarintField(5, n)] + behind);
    DecodesFirstNonce([VarintField(5, n)]);
  }

  lemma ReadableParts(before: seq<WireField>, n: nat, behind: seq<WireField>)
    requires Readable(before) && Readable(behind)
    ensures Readable(before + [VarintField(5, n)] + behind) && Readable([VarintField(5, n)])
  {
  }

  lemma {:induction false} FirstBehind(before: seq<WireField>, n: nat, behind: seq<WireField>)
    requires forall i :: 0 <= i < |before| ==> !IsNonceField(before[i])
    ensures FirstNonce(before + [VarintField(5, n)] + behind) == Ok(n)
  {
    var fs := before + [VarintField(5, n)] + behind;
    if before != [] {
      assert fs[1..] == before[1..] + [VarintField(5, n)] + behind;
      FirstBehind(before[1..], n, behind);
    }
  }
}
