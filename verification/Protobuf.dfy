/** The protobuf field reader and the field encoders of the scripts. */
module Protobuf {
  import opened Basics
  import opened Varints

  /** A field value as the reader yields it: an integer for wire type 0, raw bytes otherwise. */
  datatype Val = Num(n: nat) | Raw(b: Bytes)

  datatype Field = Field(number: nat, wire: nat, val: Val)

  /** What a generator yields, and the exception that ends it early, if any. */
  datatype Stream<+T> = Stream(items: seq<T>, fault: Option<Error>)

  /** One turn of the loop in `iter_fields`: the field at `pos` and the position behind it. */
  function FieldAt(buf: Bytes, pos: nat): (r: Result<(Field, nat)>)
    ensures r.Ok? ==> r.value.1 > pos
  {
    match VarintAt(buf, pos)
    case None => Err(IndexError)
    case Some((tag, p)) =>
      var (number, wire) := (tag / 8, tag % 8);
      if wire == 0 then
        match VarintAt(buf, p)
        case None => Err(IndexError)
        case Some((n, q)) => Ok((Field(number, 0, Num(n)), q))
      else if wire == 2 then
        match VarintAt(buf, p)
        case None => Err(IndexError)
        case Some((len, q)) => Ok((Field(number, 2, Raw(Slice(buf, q, len))), q + len))
      else if wire == 1 then Ok((Field(number, 1, Raw(Slice(buf, p, 8))), p + 8))
      else if wire == 5 then Ok((Field(number, 5, Raw(Slice(buf, p, 4))), p + 4))
      else Err(ValueError)
  }

  /** All fields from `pos` on. A length that points past the end leaves `pos` past the end. */
  function Fields(buf: Bytes, pos: nat): Stream<Field>
    decreases if pos < |buf| then |buf| - pos else 0
  {
    if pos >= |buf| then Stream([], None)
    else
      match FieldAt(buf, pos)
      case Err(e) => Stream([], Some(e))
      case Ok((f, next)) => After([f], Fields(buf, next))
  }

  function After<T>(items: seq<T>, rest: Stream<T>): Stream<T>
  {
    Stream(items + rest.items, rest.fault)
  }

  /** The body of the loop in `iter_fields`. */
  method ReadField(buf: Bytes, pos: nat) returns (r: Result<(Field, nat)>)
    ensures r == FieldAt(buf, pos)
  {
    var tag := ReadVarint(buf, pos, IndexError);
    if tag.Err? { return Err(tag.error); }
    var number: nat, wire: nat, next: nat := tag.value.0 / 8, tag.value.0 % 8, tag.value.1;
    if wire == 0 {
      var n := ReadVarint(buf, next, IndexError);
      if n.Err? { return Err(n.error); }
      r := Ok((Field(number, wire, Num(n.value.0)), n.value.1));
    } else if wire == 2 {
      var length := ReadVarint(buf, next, IndexError);
      if length.Err? { return Err(length.error); }
      r := Ok((Field(number, wire, Raw(Slice(buf, length.value.1, length.value.0))),
               length.value.1 + length.value.0));
    } else if wire == 1 {
      r := Ok((Field(number, wire, Raw(Slice(buf, next, 8))), next + 8));
    } else if wire == 5 {
      r := Ok((Field(number, wire, Raw(Slice(buf, next, 4))), next + 4));
    } else {
      r := Err(ValueError);
    }
  }

  lemma AfterTwice<T>(a: seq<T>, b: seq<T>, rest: Stream<T>)
    ensures After(a, After(b, rest)) == After(a + b, rest)
  {
    assert a + (b + rest.items) == (a + b) + rest.items;
  }

  /** `iter_fields`. */
  method IterFields(buf: Bytes) returns (r: Stream<Field>)
    ensures r == Fields(buf, 0)
  {
    var items: seq<Field> := [];
    var pos: nat := 0;
    while pos < |buf|
      invariant Fields(buf, 0) == After(items, Fields(buf, pos))
      decreases if pos < |buf| then |buf| - pos else 0
    {
      var step := ReadField(buf, pos);
      match step
      case Err(e) =>
        return Stream(items, Some(e));
      case Ok((f, next)) =>
        AfterTwice(items, [f], Fields(buf, next));
        items, pos := items + [f], next;
    }
    return Stream(items, None);
  }

  // ----- encoders -----

  predicate WellFormed(f: Field)
  {
    match f.val
    case Num(_) => f.wire == 0
    case Raw(b) => f.wire == 2 || (f.wire == 1 && |b| == 8) || (f.wire == 5 && |b| == 4)
  }

  /** The fields an encoder writes. */
  type WireField = f: Field | WellFormed(f) witness Field(0, 0, Num(0))

  function Tag(f: Field): nat
  {
    f.number * 8 + f.wire
  }

  function Payload(f: Field): Bytes
  {
    match f.val
    case Num(n) => Varint(n)
    case Raw(b) => if f.wire == 2 then Varint(|b|) + b else b
  }

  /** A field on the wire. */
  function EncodeField(f: WireField): Bytes
  {
    Varint(Tag(f)) + Payload(f)
  }

  function EncodeFields(fs: seq<WireField>): Bytes
  {
    if fs == [] then [] else EncodeField(fs[0]) + EncodeFields(fs[1..])
  }

  function VarintField(number: nat, n: nat): (f: Field)
    ensures WellFormed(f)
  {
    Field(number, 0, Num(n))
  }

  function BytesField(number: nat, b: Bytes): (f: Field)
    ensures WellFormed(f)
  {
    Field(number, 2, Raw(b))
  }

  /** Where the tag ends and, for a length-delimited field, where the length ends. */
  lemma FieldFromParts(buf: Bytes, pos: nat, f: WireField, p: nat, q: nat)
    requires VarintAt(buf, pos) == Some((Tag(f), p))
    requires match f.val
      case Num(n) => VarintAt(buf, p) == Some((n, q))
      case Raw(b) => if f.wire == 2 then VarintAt(buf, p) == Some((|b|, q)) && Slice(buf, q, |b|) == b
                     else q == p && Slice(buf, q, |b|) == b
    ensures FieldAt(buf, pos) == Ok((f, if f.val.Num? then q else q + |f.val.b|))
  {
    assert Tag(f) / 8 == f.number && Tag(f) % 8 == f.wire;
  }

  lemma SliceAt(buf: Bytes, b: Bytes, q: nat)
    requires OccursAt(buf, b, q)
    ensures Slice(buf, q, |b|) == b
  {
  }

  lemma FieldAtEncoded(buf: Bytes, pos: nat, f: WireField)
    requires OccursAt(buf, EncodeField(f), pos)
    ensures FieldAt(buf, pos) == Ok((f, pos + |EncodeField(f)|))
  {
    hide FieldAt, VarintAt, Varint;
    var tag := Varint(Tag(f));
    var p := pos + |tag|;
    OccursSplit(buf, tag, Payload(f), pos);
    ReadInvertsWrite(buf, pos, Tag(f));
    match f.val {
      case Num(n) =>
        ReadInvertsWrite(buf, p, n);
        FieldFromParts(buf, pos, f, p, p + |Varint(n)|);
      case Raw(b) =>
        if f.wire == 2 {
          OccursSplit(buf, Varint(|b|), b, p);
          ReadInvertsWrite(buf, p, |b|);
          SliceAt(buf, b, p + |Varint(|b|)|);
          FieldFromParts(buf, pos, f, p, p + |Varint(|b|)|);
        } else {
          SliceAt(buf, b, p);
          FieldFromParts(buf, pos, f, p, p);
        }
    }
  }

  lemma FieldsStep(buf: Bytes, pos: nat, f: Field, next: nat)
    requires FieldAt(buf, pos) == Ok((f, next)) && pos < |buf|
    ensures Fields(buf, pos) == After([f], Fields(buf, next))
  {
  }

  /** The reader yields the fields of an encoded list, then goes on with what follows it. */
  lemma {:induction false} FieldsOfPrefix(buf: Bytes, pos: nat, fs: seq<WireField>)
    requires OccursAt(buf, EncodeFields(fs), pos)
    ensures Fields(buf, pos) == After(fs, Fields(buf, pos + |EncodeFields(fs)|))
    decreases |fs|
  {
    hide FieldAt, EncodeField, VarintAt;
    if fs != [] {
      var (first, rest) := (EncodeField(fs[0]), EncodeFields(fs[1..]));
      OccursSplit(buf, first, rest, pos);
      FieldAtEncoded(buf, pos, fs[0]);
      FieldsStep(buf, pos, fs[0], pos + |first|);
      FieldsOfPrefix(buf, pos + |first|, fs[1..]);
      AfterTwice([fs[0]], fs[1..], Fields(buf, pos + |first + rest|));
      assert fs == [fs[0]] + fs[1..];
    }
  }

  /** `iter_fields` over any concatenation of encoded fields returns exactly those fields. */
  lemma FieldsInvertEncode(fs: seq<WireField>)
    ensures Fields(EncodeFields(fs), 0) == Stream(fs, None)
  {
    hide FieldAt, EncodeField, EncodeFields, VarintAt;
    FieldsOfPrefix(EncodeFields(fs), 0, fs);
  }

  lemma EncodeFieldsIsInjective(fs: seq<WireField>, gs: seq<WireField>)
    requires EncodeFields(fs) == EncodeFields(gs)
    ensures fs == gs
  {
    FieldsInvertEncode(fs);
    FieldsInvertEncode(gs);
  }

  /** A raw value the reader yields is a contiguous piece of what it reads. */
  lemma {:induction false} RawValuesAreSlices(buf: Bytes, pos: nat, i: nat)
    requires i < |Fields(buf, pos).items|
    ensures var v := Fields(buf, pos).items[i].val; v.Raw? ==> Contains(buf, v.b)
    decreases i
  {
    var (f, next) := FieldAt(buf, pos).value;
    if i == 0 {
      if f.val.Raw? {
        ShortSlice(buf, f.val.b, pos);
      }
    } else {
      RawValuesAreSlices(buf, next, i - 1);
    }
  }

  lemma ShortSlice(buf: Bytes, b: Bytes, pos: nat)
    requires FieldAt(buf, pos).Ok? && FieldAt(buf, pos).value.0.val == Raw(b)
    ensures Contains(buf, b)
  {
    var tag := VarintAt(buf, pos).value;
    var at := if tag.0 % 8 == 2 then VarintAt(buf, tag.1).value.1 else tag.1;
    var len := if tag.0 % 8 == 2 then VarintAt(buf, tag.1).value.0 else if tag.0 % 8 == 1 then 8 else 4;
    assert b == Slice(buf, at, len);
    if at >= |buf| { ContainsSlice(buf, 0, 0); }
    else if at + len <= |buf| { ContainsSlice(buf, at, at + len); }
    else { ContainsSlice(buf, at, |buf|); assert buf[at..] == buf[at..|buf|]; }
  }
}
