/** `canonicalizeJson`, the text that is signed: members sorted by key, no white space, escaped strings. */
module CanonicalJson {
  import opened Basics
  import opened Sorting

  /** Strings are sequences of UTF-16 code units, so key order is that of section 3.2.3 of RFC 8785. They
      are escaped as `JSON.stringify` does it: section 7 of RFC 8259, and lone surrogates as well. */
  type CodeUnit = x: int | 0 <= x < 0x1_0000
  type Str = seq<CodeUnit>

  /** A number is its shortest decimal text, which JavaScript prints one for one for finite numbers
      (with -0 read as 0). */
  datatype Json =
    | Null
    | Bool(b: bool)
    | Number(text: Str)
    | String(s: Str)
    | Array(items: seq<Json>)
    | Object(members: seq<Member>)

  datatype Member = Member(key: Str, value: Json)

  const QUOTE: CodeUnit := 0x22
  const COMMA: CodeUnit := 0x2c
  const COLON: CodeUnit := 0x3a
  const BACKSLASH: CodeUnit := 0x5c
  const OPEN_ARRAY: CodeUnit := 0x5b
  const CLOSE_ARRAY: CodeUnit := 0x5d
  const OPEN_OBJECT: CodeUnit := 0x7b
  const CLOSE_OBJECT: CodeUnit := 0x7d

  // ----- strings -----

  predicate HighSurrogate(u: CodeUnit) { 0xd800 <= u < 0xdc00 }

  predicate LowSurrogate(u: CodeUnit) { 0xdc00 <= u < 0xe000 }

  function HexDigit(d: int): CodeUnit
    requires 0 <= d < 16
  {
    if d < 10 then 0x30 + d else 0x61 + d - 10
  }

  function Hex4(u: CodeUnit): (r: Str)
    ensures |r| == 4
  {
    [HexDigit(u / 0x1000), HexDigit(u / 0x100 % 16), HexDigit(u / 0x10 % 16), HexDigit(u % 16)]
  }

  /** The letter of a two-character escape: \b \t \n \f \r \" \\. */
  function ShortEscape(u: CodeUnit): Option<CodeUnit>
  {
    if u == 8 then Some(0x62) else if u == 9 then Some(0x74) else if u == 10 then Some(0x6e)
    else if u == 12 then Some(0x66) else if u == 13 then Some(0x72)
    else if u == QUOTE || u == BACKSLASH then Some(u)
    else None
  }

  /** How many code units are printed together: two for a surrogate pair. */
  function Width(s: Str): (n: nat)
    requires s != []
    ensures 1 <= n <= 2 && n <= |s|
  {
    if |s| > 1 && HighSurrogate(s[0]) && LowSurrogate(s[1]) then 2 else 1
  }

  /** The text of the first character. */
  function Chunk(s: Str): (r: Str)
    requires s != []
    ensures r != []
  {
    var u := s[0];
    if Width(s) == 2 then [u, s[1]]
    else if ShortEscape(u).Some? then [BACKSLASH, ShortEscape(u).value]
    else if u < 0x20 || HighSurrogate(u) || LowSurrogate(u) then [BACKSLASH, 0x75] + Hex4(u)
    else [u]
  }

  function Escaped(s: Str): Str
  {
    if s == [] then [] else Chunk(s) + Escaped(s[Width(s)..])
  }

  function Quoted(s: Str): Str
  {
    [QUOTE] + Escaped(s) + [QUOTE]
  }

  lemma HexDigitInjective(d: int, e: int)
    requires 0 <= d < 16 && 0 <= e < 16 && HexDigit(d) == HexDigit(e)
    ensures d == e
  {
  }

  lemma Nibbles(u: CodeUnit)
    ensures u == u / 0x1000 * 0x1000 + u / 0x100 % 16 * 0x100 + u / 0x10 % 16 * 0x10 + u % 16
  {
    assert u / 0x100 == u / 0x1000 * 16 + u / 0x100 % 16;
    assert u / 0x10 == u / 0x100 * 16 + u / 0x10 % 16;
  }

  lemma Hex4Injective(u: CodeUnit, v: CodeUnit)
    requires Hex4(u) == Hex4(v)
    ensures u == v
  {
    hide HexDigit;
    var (x, y) := (Hex4(u), Hex4(v));
    assert x[0] == y[0] && x[1] == y[1] && x[2] == y[2] && x[3] == y[3];
    HexDigitInjective(u / 0x1000, v / 0x1000);
    HexDigitInjective(u / 0x100 % 16, v / 0x100 % 16);
    HexDigitInjective(u / 0x10 % 16, v / 0x10 % 16);
    HexDigitInjective(u % 16, v % 16);
    Nibbles(u);
    Nibbles(v);
  }

  lemma Cut(a: Str, x: Str, b: Str, y: Str)
    requires a + x == b + y && |a| == |b|
    ensures a == b && x == y
  {
    assert a == (a + x)[..|a|] && b == (b + y)[..|b|];
    assert x == (a + x)[|a|..] && y == (b + y)[|b|..];
  }

  /** The first character can be read off the text, whatever follows. */
  lemma ChunksAreACode(s: Str, t: Str, x: Str, y: Str)
    requires s != [] && t != [] && Chunk(s) + x == Chunk(t) + y
    ensures Width(s) == Width(t) && s[..Width(s)] == t[..Width(t)] && x == y
  {
    var (c, d) := (Chunk(s), Chunk(t));
    assert c[0] == (c + x)[0] == (d + y)[0] == d[0];
    if |c| > 1 && |d| > 1 { assert c[1] == (c + x)[1] == (d + y)[1] == d[1]; }
    ChunkLengths(s, t);
    Cut(c, x, d, y);
    SameChunk(s, t);
  }

  lemma ChunkLengths(s: Str, t: Str)
    requires s != [] && t != []
    requires Chunk(s)[0] == Chunk(t)[0]
    requires |Chunk(s)| > 1 && |Chunk(t)| > 1 ==> Chunk(s)[1] == Chunk(t)[1]
    ensures |Chunk(s)| == |Chunk(t)|
  {
  }

  lemma SameChunk(s: Str, t: Str)
    requires s != [] && t != [] && Chunk(s) == Chunk(t)
    ensures Width(s) == Width(t) && s[..Width(s)] == t[..Width(t)]
  {
    hide Hex4;
    var (c, d) := (Chunk(s), Chunk(t));
    assert c[0] == d[0];
    if |c| > 1 { assert c[1] == d[1]; }
    if |c| == 6 {
      assert Hex4(s[0]) == c[2..] == d[2..] == Hex4(t[0]);
      Hex4Injective(s[0], t[0]);
    }
    assert s[..1] == [s[0]] && t[..1] == [t[0]];
    if Width(s) == 2 { assert s[..2] == c && t[..2] == d; }
  }

  lemma ChunkDoesNotClose(s: Str, x: Str)
    requires s != []
    ensures (Chunk(s) + x)[0] != QUOTE
  {
  }

  /** A quoted string ends where its text says, and the text determines the string. */
  lemma {:induction false} EscapedIsPrefixFree(s: Str, t: Str, x: Str, y: Str)
    requires Escaped(s) + ([QUOTE] + x) == Escaped(t) + ([QUOTE] + y)
    ensures s == t && x == y
    decreases |s| + |t|
  {
    hide Chunk, Width;
    var (p, q) := ([QUOTE] + x, [QUOTE] + y);
    if s == [] || t == [] {
      assert [] + p == p && [] + q == q;
      if s != [] { Assoc(Chunk(s), Escaped(s[Width(s)..]), p); ChunkDoesNotClose(s, Escaped(s[Width(s)..]) + p); }
      if t != [] { Assoc(Chunk(t), Escaped(t[Width(t)..]), q); ChunkDoesNotClose(t, Escaped(t[Width(t)..]) + q); }
      assert p[0] == QUOTE && q[0] == QUOTE;
      assert s == [] && t == [];
      Cut([QUOTE], x, [QUOTE], y);
    } else {
      var (u, v) := (s[Width(s)..], t[Width(t)..]);
      Assoc(Chunk(s), Escaped(u), p);
      Assoc(Chunk(t), Escaped(v), q);
      ChunksAreACode(s, t, Escaped(u) + p, Escaped(v) + q);
      EscapedIsPrefixFree(u, v, x, y);
      assert s == s[..Width(s)] + u && t == t[..Width(t)] + v;
    }
  }

  lemma QuotedIsPrefixFree(s: Str, t: Str, x: Str, y: Str)
    requires Quoted(s) + x == Quoted(t) + y
    ensures s == t && x == y
  {
    hide Escaped;
    assert Quoted(s) + x == [QUOTE] + (Escaped(s) + ([QUOTE] + x));
    assert Quoted(t) + y == [QUOTE] + (Escaped(t) + ([QUOTE] + y));
    Cut([QUOTE], Escaped(s) + ([QUOTE] + x), [QUOTE], Escaped(t) + ([QUOTE] + y));
    EscapedIsPrefixFree(s, t, x, y);
  }

  // ----- values -----

  const NULL_TEXT: Str := [0x6e, 0x75, 0x6c, 0x6c]
  const TRUE_TEXT: Str := [0x74, 0x72, 0x75, 0x65]
  const FALSE_TEXT: Str := [0x66, 0x61, 0x6c, 0x73, 0x65]

  /** A member as printed: its key, and the text of its value. */
  datatype Printed = Printed(key: Str, text: Str)

  predicate PrintedLe(p: Printed, q: Printed) { LexLe(p.key, q.key) }

  predicate MemberLe(p: Member, q: Member) { LexLe(p.key, q.key) }

  function PrintedText(p: Printed): Str
  {
    Quoted(p.key) + [COLON] + p.text
  }

  /** `join(',')` */
  function Join(texts: seq<Str>): Str
  {
    if texts == [] then []
    else if |texts| == 1 then texts[0]
    else texts[0] + [COMMA] + Join(texts[1..])
  }

  /** `canonicalizeJson` */
  function Canonical(j: Json): Str
  {
    match j
    case Null => NULL_TEXT
    case Bool(b) => if b then TRUE_TEXT else FALSE_TEXT
    case Number(text) => text
    case String(s) => Quoted(s)
    case Array(items) => [OPEN_ARRAY] + Join(Texts(items)) + [CLOSE_ARRAY]
    case Object(members) =>
      [OPEN_OBJECT] + Join(Map(PrintedText, Sort(PrintedLe, PrintAll(members)))) + [CLOSE_OBJECT]
  }

  function Texts(items: seq<Json>): (r: seq<Str>)
    ensures |r| == |items|
  {
    if items == [] then [] else [Canonical(items[0])] + Texts(items[1..])
  }

  function PrintAll(members: seq<Member>): (r: seq<Printed>)
    ensures |r| == |members|
  {
    if members == [] then []
    else [Printed(members[0].key, Canonical(members[0].value))] + PrintAll(members[1..])
  }

  predicate NumeralChar(u: CodeUnit) { 0x30 <= u <= 0x39 || u == 0x2b || u == 0x2d || u == 0x2e || u == 0x65 }

  predicate IsNumeral(text: Str)
  {
    && text != [] && (0x30 <= text[0] <= 0x39 || text[0] == 0x2d)
    && forall i :: 0 <= i < |text| ==> NumeralChar(text[i])
  }

  predicate DistinctKeys(members: seq<Member>)
  {
    forall i, j :: 0 <= i < j < |members| ==> members[i].key != members[j].key
  }

  /** The values JavaScript can hold: numbers have numerals, an object has one value per key. */
  predicate Valid(j: Json)
  {
    match j
    case Number(text) => IsNumeral(text)
    case Array(items) => forall i :: 0 <= i < |items| ==> Valid(items[i])
    case Object(members) => DistinctKeys(members) && forall i :: 0 <= i < |members| ==> Valid(members[i].value)
    case _ => true
  }

  /** Equal up to the order of object members. */
  ghost predicate Equal(a: Json, b: Json)
  {
    match (a, b)
    case (Null, Null) => true
    case (Bool(x), Bool(y)) => x == y
    case (Number(x), Number(y)) => x == y
    case (String(x), String(y)) => x == y
    case (Array(x), Array(y)) => |x| == |y| && forall i :: 0 <= i < |x| ==> Equal(x[i], y[i])
    case (Object(x), Object(y)) =>
      && (forall i :: 0 <= i < |x| ==> HasEqual(x[i], y))
      && (forall k :: 0 <= k < |y| ==> IsEqualTo(x, y[k]))
    case _ => false
  }

  /** Some member of y has the key of m and an equal value. */
  ghost predicate HasEqual(m: Member, y: seq<Member>)
  {
    exists k :: 0 <= k < |y| && m.key == y[k].key && Equal(m.value, y[k].value)
  }

  /** Some member of x has the key of n and an equal value. */
  ghost predicate IsEqualTo(x: seq<Member>, n: Member)
  {
    exists i :: 0 <= i < |x| && x[i].key == n.key && Equal(x[i].value, n.value)
  }

  // ----- unambiguous -----

  /** What can follow a value: nothing, a comma, or a closing bracket. */
  predicate Ends(x: Str)
  {
    x == [] || x[0] == COMMA || x[0] == CLOSE_ARRAY || x[0] == CLOSE_OBJECT
  }

  datatype Kind = KNull | KTrue | KFalse | KNumber | KString | KArray | KObject | KOther

  /** The kind of a value shows in the first code unit of its text. */
  function KindOf(u: CodeUnit): Kind
  {
    if u == 0x6e then KNull else if u == 0x74 then KTrue else if u == 0x66 then KFalse
    else if 0x30 <= u <= 0x39 || u == 0x2d then KNumber
    else if u == QUOTE then KString else if u == OPEN_ARRAY then KArray else if u == OPEN_OBJECT then KObject
    else KOther
  }

  function JsonKind(j: Json): Kind
  {
    match j
    case Null => KNull
    case Bool(b) => if b then KTrue else KFalse
    case Number(_) => KNumber
    case String(_) => KString
    case Array(_) => KArray
    case Object(_) => KObject
  }

  lemma FirstShowsKind(j: Json)
    requires Valid(j)
    ensures Canonical(j) != [] && KindOf(Canonical(j)[0]) == JsonKind(j)
  {
    hide Join, Map, Sort, Escaped;
  }

  /** The length of the longest numeral at the front. */
  function Run(s: Str): nat
  {
    if s == [] || !NumeralChar(s[0]) then 0 else 1 + Run(s[1..])
  }

  lemma {:induction false} RunOfNumeral(a: Str, x: Str)
    requires (forall i :: 0 <= i < |a| ==> NumeralChar(a[i])) && Ends(x)
    ensures Run(a + x) == |a|
  {
    if a == [] {
      assert a + x == x;
    } else {
      assert (a + x)[1..] == a[1..] + x;
      RunOfNumeral(a[1..], x);
    }
  }

  lemma SortedMembers(members: seq<Member>)
    ensures Sort(PrintedLe, PrintAll(members)) == PrintAll(Sort(MemberLe, members))
    decreases |members|
  {
    hide Canonical;
    if members != [] {
      SortedMembers(members[1..]);
      InsertMember(members[0], Sort(MemberLe, members[1..]));
    }
  }

  lemma {:induction false} InsertMember(m: Member, ms: seq<Member>)
    ensures Insert(PrintedLe, Printed(m.key, Canonical(m.value)), PrintAll(ms)) == PrintAll(Insert(MemberLe, m, ms))
    decreases |ms|
  {
    hide Canonical;
    if ms == [] {
      assert [m][1..] == [];
    } else if MemberLe(m, ms[0]) {
      assert ([m] + ms)[1..] == ms;
    } else {
      InsertMember(m, ms[1..]);
      assert PrintAll(ms)[1..] == PrintAll(ms[1..]);
      var r := Insert(MemberLe, m, ms[1..]);
      assert ([ms[0]] + r)[1..] == r;
    }
  }

  /** The text of a list of members in the order given. */
  function MembersText(members: seq<Member>): Str
  {
    Join(Map(PrintedText, PrintAll(members)))
  }

  lemma JoinStep(texts: seq<Str>, x: Str)
    requires texts != []
    ensures Join(texts) + x == texts[0] + (if |texts| == 1 then x else [COMMA] + (Join(texts[1..]) + x))
  {
    if |texts| > 1 {
      var rest := Join(texts[1..]);
      assert Join(texts) == texts[0] + [COMMA] + rest;
      hide Join;
      Assoc(texts[0], [COMMA], rest);
      Assoc(texts[0], [COMMA] + rest, x);
      Assoc([COMMA], rest, x);
    }
  }

  /** What follows the first of several joined texts. */
  function Behind(texts: seq<Str>, x: Str): (r: Str)
    requires texts != []
    ensures Ends(x) ==> Ends(r)
  {
    if |texts| == 1 then x else [COMMA] + (Join(texts[1..]) + x)
  }

  /** Closed by a bracket: lists of joined texts end together. */
  predicate Closed(x: Str)
  {
    x != [] && (x[0] == CLOSE_ARRAY || x[0] == CLOSE_OBJECT)
  }

  lemma BehindTogether(s: seq<Str>, t: seq<Str>, x: Str, y: Str)
    requires s != [] && t != [] && Closed(x) && Closed(y) && Behind(s, x) == Behind(t, y)
    ensures |s| == 1 <==> |t| == 1
    ensures |s| == 1 ==> x == y
    ensures |s| > 1 ==> Join(s[1..]) + x == Join(t[1..]) + y
  {
    hide Join;
    assert Behind(s, x)[0] == Behind(t, y)[0];
    if |s| > 1 { Cut([COMMA], Join(s[1..]) + x, [COMMA], Join(t[1..]) + y); }
  }

  /** A value does not begin like a bracket closes. */
  lemma ValueDoesNotClose(j: Json, x: Str)
    requires Valid(j)
    ensures !Closed(Canonical(j) + x)
  {
    hide Canonical;
    FirstShowsKind(j);
    assert (Canonical(j) + x)[0] == Canonical(j)[0];
  }

  /** The text of a value determines the value, up to member order, and where the text ends. */
  lemma {:induction false} CanonicalIsPrefixFree(a: Json, b: Json, x: Str, y: Str)
    requires Valid(a) && Valid(b) && Ends(x) && Ends(y)
    requires Canonical(a) + x == Canonical(b) + y
    ensures Equal(a, b) && x == y
    decreases a
  {
    hide Join, Map, Sort, Escaped, Texts, PrintAll;
    FirstShowsKind(a);
    FirstShowsKind(b);
    assert Canonical(a)[0] == (Canonical(a) + x)[0] == (Canonical(b) + y)[0] == Canonical(b)[0];
    match a {
      case Null => Cut(NULL_TEXT, x, NULL_TEXT, y);
      case Bool(v) => Cut(Canonical(a), x, Canonical(b), y);
      case Number(text) =>
        RunOfNumeral(text, x);
        RunOfNumeral(b.text, y);
        Cut(text, x, b.text, y);
      case String(s) => QuotedIsPrefixFree(s, b.s, x, y);
      case Array(items) =>
        StripBrackets(OPEN_ARRAY, Join(Texts(items)), Join(Texts(b.items)), CLOSE_ARRAY, x, y);
        ItemsArePrefixFree(a, items, b.items, [CLOSE_ARRAY] + x, [CLOSE_ARRAY] + y);
        Cut([CLOSE_ARRAY], x, [CLOSE_ARRAY], y);
      case Object(members) =>
        SortedMembers(members);
        SortedMembers(b.members);
        var (ms, ns) := (Sort(MemberLe, members), Sort(MemberLe, b.members));
        SameElements(ms, members);
        SameElements(ns, b.members);
        MembersInside(a, members, ms);
        MembersInside(b, b.members, ns);
        StripBrackets(OPEN_OBJECT, MembersText(ms), MembersText(ns), CLOSE_OBJECT, x, y);
        MembersArePrefixFree(a, ms, ns, [CLOSE_OBJECT] + x, [CLOSE_OBJECT] + y);
        Cut([CLOSE_OBJECT], x, [CLOSE_OBJECT], y);
        EqualObjects(members, b.members, ms, ns);
    }
  }

  lemma MembersInside(whole: Json, members: seq<Member>, ms: seq<Member>)
    requires whole == Object(members) && Valid(whole) && forall m :: m in ms <==> m in members
    ensures forall m :: m in ms ==> m.value < whole
    ensures forall i :: 0 <= i < |ms| ==> Valid(ms[i].value)
  {
    forall m | m in ms ensures m.value < whole && Valid(m.value) {
      assert m in members;
      var i :| 0 <= i < |members| && members[i] == m;
    }
    forall i | 0 <= i < |ms| ensures Valid(ms[i].value) { assert ms[i] in ms; }
  }

  lemma StripBrackets(open: CodeUnit, s: Str, t: Str, close: CodeUnit, x: Str, y: Str)
    requires ([open] + s + [close]) + x == ([open] + t + [close]) + y
    ensures s + ([close] + x) == t + ([close] + y)
  {
    assert ([open] + s + [close]) + x == [open] + (s + ([close] + x));
    assert ([open] + t + [close]) + y == [open] + (t + ([close] + y));
    Cut([open], s + ([close] + x), [open], t + ([close] + y));
  }

  lemma TextsStep(items: seq<Json>)
    requires items != []
    ensures Texts(items)[0] == Canonical(items[0]) && Texts(items)[1..] == Texts(items[1..])
  {
    hide Canonical;
  }

  lemma ItemsDoNotClose(items: seq<Json>, x: Str)
    requires items != [] && Valid(items[0])
    ensures !Closed(Join(Texts(items)) + x)
  {
    hide Canonical, Join;
    TextsStep(items);
    JoinStep(Texts(items), x);
    ValueDoesNotClose(items[0], Behind(Texts(items), x));
  }

  lemma {:induction false} ItemsArePrefixFree(whole: Json, s: seq<Json>, t: seq<Json>, x: Str, y: Str)
    requires forall j :: j in s ==> j < whole
    requires (forall i :: 0 <= i < |s| ==> Valid(s[i])) && forall i :: 0 <= i < |t| ==> Valid(t[i])
    requires Closed(x) && Closed(y) && Join(Texts(s)) + x == Join(Texts(t)) + y
    ensures |s| == |t| && x == y && forall i :: 0 <= i < |s| ==> Equal(s[i], t[i])
    decreases whole, |s|
  {
    hide Canonical, Equal, Valid;
    assert [] + x == x && [] + y == y;
    if s != [] { ItemsDoNotClose(s, x); }
    if t != [] { ItemsDoNotClose(t, y); }
    assert s == [] <==> t == [];
    if s != [] {
      TextsStep(s);
      TextsStep(t);
      JoinStep(Texts(s), x);
      JoinStep(Texts(t), y);
      assert s[0] in s;
      CanonicalIsPrefixFree(s[0], t[0], Behind(Texts(s), x), Behind(Texts(t), y));
      BehindTogether(Texts(s), Texts(t), x, y);
      if |s| > 1 {
        assert forall j :: j in s[1..] ==> j in s;
        assert forall i :: 0 <= i < |s| - 1 ==> s[1..][i] == s[i + 1];
        assert forall i :: 0 <= i < |t| - 1 ==> t[1..][i] == t[i + 1];
        ItemsArePrefixFree(whole, s[1..], t[1..], x, y);
      }
      forall i | 0 <= i < |s| ensures Equal(s[i], t[i]) {
        if i > 0 { assert s[i] == s[1..][i - 1] && t[i] == t[1..][i - 1]; }
      }
    }
  }

  function MemberTexts(ms: seq<Member>): (r: seq<Str>)
    ensures |r| == |ms|
  {
    Map(PrintedText, PrintAll(ms))
  }

  lemma MemberTextsStep(ms: seq<Member>)
    requires ms != []
    ensures MemberTexts(ms)[0] == Quoted(ms[0].key) + [COLON] + Canonical(ms[0].value)
    ensures MemberTexts(ms)[1..] == MemberTexts(ms[1..])
  {
    hide Canonical, Quoted;
    assert PrintAll(ms)[1..] == PrintAll(ms[1..]);
  }

  lemma MemberDoesNotClose(m: Member, x: Str)
    ensures !Closed((Quoted(m.key) + [COLON] + Canonical(m.value)) + x)
  {
    hide Canonical, Escaped;
  }

  lemma MemberParts(m: Member, x: Str)
    ensures (Quoted(m.key) + [COLON] + Canonical(m.value)) + x == Quoted(m.key) + ([COLON] + (Canonical(m.value) + x))
  {
    hide Canonical, Quoted;
  }

  lemma MembersDoNotClose(ms: seq<Member>, x: Str)
    requires ms != []
    ensures !Closed(Join(MemberTexts(ms)) + x)
  {
    hide Canonical, Join, Quoted, MemberTexts;
    MemberTextsStep(ms);
    JoinStep(MemberTexts(ms), x);
    MemberDoesNotClose(ms[0], Behind(MemberTexts(ms), x));
  }

  lemma NoMembers()
    ensures Join(MemberTexts([])) == []
  {
  }

  lemma TailsFit(whole: Json, s: seq<Member>, t: seq<Member>)
    requires s != [] && t != [] && forall m :: m in s ==> m.value < whole
    requires (forall i :: 0 <= i < |s| ==> Valid(s[i].value)) && forall i :: 0 <= i < |t| ==> Valid(t[i].value)
    ensures forall m :: m in s[1..] ==> m.value < whole
    ensures (forall i :: 0 <= i < |s[1..]| ==> Valid(s[1..][i].value))
    ensures forall i :: 0 <= i < |t[1..]| ==> Valid(t[1..][i].value)
  {
    hide Valid;
    assert forall m :: m in s[1..] ==> m in s;
  }

  lemma PairwiseFromTail(s: seq<Member>, t: seq<Member>)
    requires s != [] && |s| == |t| && s[0].key == t[0].key && Equal(s[0].value, t[0].value)
    requires forall i :: 0 <= i < |s[1..]| ==> s[1..][i].key == t[1..][i].key && Equal(s[1..][i].value, t[1..][i].value)
    ensures forall i :: 0 <= i < |s| ==> s[i].key == t[i].key && Equal(s[i].value, t[i].value)
  {
    hide Equal;
    forall i | 0 <= i < |s| ensures s[i].key == t[i].key && Equal(s[i].value, t[i].value) {
      if i > 0 { assert s[i] == s[1..][i - 1] && t[i] == t[1..][i - 1]; }
    }
  }

  lemma {:induction false} MembersArePrefixFree(whole: Json, s: seq<Member>, t: seq<Member>, x: Str, y: Str)
    requires forall m :: m in s ==> m.value < whole
    requires (forall i :: 0 <= i < |s| ==> Valid(s[i].value)) && forall i :: 0 <= i < |t| ==> Valid(t[i].value)
    requires Closed(x) && Closed(y) && MembersText(s) + x == MembersText(t) + y
    ensures |s| == |t| && x == y
    ensures forall i :: 0 <= i < |s| ==> s[i].key == t[i].key && Equal(s[i].value, t[i].value)
    decreases whole, |s|
  {
    hide Canonical, Equal, Valid, Quoted, MemberTexts, PrintAll, Map;
    assert MembersText(s) == Join(MemberTexts(s)) && MembersText(t) == Join(MemberTexts(t))
      by { MembersTextIs(s); MembersTextIs(t); }
    assert [] + x == x && [] + y == y;
    if s != [] { MembersDoNotClose(s, x); }
    if t != [] { MembersDoNotClose(t, y); }
    NoMembers();
    assert s == [] <==> t == [];
    if s != [] {
      MemberTextsStep(s);
      MemberTextsStep(t);
      JoinStep(MemberTexts(s), x);
      JoinStep(MemberTexts(t), y);
      var (p, q) := (Behind(MemberTexts(s), x), Behind(MemberTexts(t), y));
      MemberParts(s[0], p);
      MemberParts(t[0], q);
      QuotedIsPrefixFree(s[0].key, t[0].key,
        [COLON] + (Canonical(s[0].value) + p), [COLON] + (Canonical(t[0].value) + q));
      Cut([COLON], Canonical(s[0].value) + p, [COLON], Canonical(t[0].value) + q);
      assert s[0] in s;
      CanonicalIsPrefixFree(s[0].value, t[0].value, p, q);
      BehindTogether(MemberTexts(s), MemberTexts(t), x, y);
      if |s| > 1 {
        TailsFit(whole, s, t);
        MembersTextIs(s[1..]);
        MembersTextIs(t[1..]);
        MembersArePrefixFree(whole, s[1..], t[1..], x, y);
      }
      PairwiseFromTail(s, t);
    }
  }

  lemma MembersTextIs(ms: seq<Member>)
    ensures MembersText(ms) == Join(MemberTexts(ms))
  {
  }

  lemma EqualObjects(x: seq<Member>, y: seq<Member>, ms: seq<Member>, ns: seq<Member>)
    requires (forall m :: m in ms <==> m in x) && (forall n :: n in ns <==> n in y) && |ms| == |ns|
    requires forall i :: 0 <= i < |ms| ==> ms[i].key == ns[i].key && Equal(ms[i].value, ns[i].value)
    ensures Equal(Object(x), Object(y))
  {
    forall i | 0 <= i < |x| ensures HasEqual(x[i], y) {
      assert x[i] in ms;
      var p :| 0 <= p < |ms| && ms[p] == x[i];
      assert ns[p] in y;
      var k :| 0 <= k < |y| && y[k] == ns[p];
    }
    forall k | 0 <= k < |y| ensures IsEqualTo(x, y[k]) {
      assert y[k] in ns;
      var p :| 0 <= p < |ns| && ns[p] == y[k];
      assert ms[p] in x;
      var i :| 0 <= i < |x| && x[i] == ms[p];
    }
  }

  // ----- equal values print the same -----

  lemma {:induction false} PrintAllAt(ms: seq<Member>, i: nat)
    requires i < |ms|
    ensures PrintAll(ms)[i] == Printed(ms[i].key, Canonical(ms[i].value))
  {
    hide Canonical;
    if i > 0 { PrintAllAt(ms[1..], i - 1); }
  }

  lemma {:induction false} TextsAt(items: seq<Json>, i: nat)
    requires i < |items|
    ensures Texts(items)[i] == Canonical(items[i])
  {
    hide Canonical;
    if i > 0 { TextsAt(items[1..], i - 1); }
  }

  lemma PrintedLeIsTotalPreorder()
    ensures TotalPreorder(PrintedLe)
  {
    forall p: Printed, q: Printed ensures PrintedLe(p, q) || PrintedLe(q, p) { LexTotal(p.key, q.key); }
    forall p: Printed, q: Printed, r: Printed | PrintedLe(p, q) && PrintedLe(q, r) ensures PrintedLe(p, r) {
      LexTransitive(p.key, q.key, r.key);
    }
  }

  lemma {:induction false} DistinctOnce(ms: seq<Member>, p: Printed)
    requires DistinctKeys(ms)
    ensures multiset(PrintAll(ms))[p] <= 1
  {
    hide Canonical;
    if ms != [] {
      DistinctOnce(ms[1..], p);
      var (head, rest) := (PrintAll(ms)[0], PrintAll(ms[1..]));
      assert PrintAll(ms) == [head] + rest;
      if p == head && p in rest {
        var i :| 0 <= i < |rest| && rest[i] == p;
        PrintAllAt(ms[1..], i);
        assert false;
      }
      assert multiset(PrintAll(ms)) == multiset{head} + multiset(rest);
    }
  }

  lemma SamePrinted(x: seq<Member>, y: seq<Member>)
    requires DistinctKeys(x) && DistinctKeys(y)
    requires forall p :: p in PrintAll(x) <==> p in PrintAll(y)
    ensures Sort(PrintedLe, PrintAll(x)) == Sort(PrintedLe, PrintAll(y))
  {
    hide PrintAll, Sort;
    var (s, t) := (PrintAll(x), PrintAll(y));
    forall p ensures multiset(s)[p] == multiset(t)[p] {
      DistinctOnce(x, p);
      DistinctOnce(y, p);
      assert p in s <==> p in multiset(s);
      assert p in t <==> p in multiset(t);
    }
    PrintedLeIsTotalPreorder();
    forall p, q | p in s && q in s && PrintedLe(p, q) && PrintedLe(q, p) ensures p == q {
      LexAntisymmetric(p.key, q.key);
      SameKeySamePrinted(x, p, q);
    }
    SortForgetsOrder(PrintedLe, s, t);
  }

  lemma SameKeySamePrinted(x: seq<Member>, p: Printed, q: Printed)
    requires DistinctKeys(x) && p in PrintAll(x) && q in PrintAll(x) && p.key == q.key
    ensures p == q
  {
    hide PrintAll, Canonical;
    var i :| 0 <= i < |PrintAll(x)| && PrintAll(x)[i] == p;
    var j :| 0 <= j < |PrintAll(x)| && PrintAll(x)[j] == q;
    PrintAllAt(x, i);
    PrintAllAt(x, j);
  }

  lemma ArraysPrintSame(s: seq<Json>, t: seq<Json>)
    requires |s| == |t| && forall i :: 0 <= i < |s| ==> Canonical(s[i]) == Canonical(t[i])
    ensures Canonical(Array(s)) == Canonical(Array(t))
  {
    forall i | 0 <= i < |s| ensures Texts(s)[i] == Texts(t)[i] {
      TextsAt(s, i);
      TextsAt(t, i);
    }
    assert Texts(s) == Texts(t);
  }

  /** Some member of y is printed like m. */
  ghost predicate PrintedIn(m: Member, y: seq<Member>)
  {
    exists k :: 0 <= k < |y| && m.key == y[k].key && Canonical(m.value) == Canonical(y[k].value)
  }

  /** Every member of x is printed like some member of y. */
  ghost predicate PrintedAmong(x: seq<Member>, y: seq<Member>)
  {
    forall i :: 0 <= i < |x| ==> PrintedIn(x[i], y)
  }

  lemma AmongPrinted(x: seq<Member>, y: seq<Member>, p: Printed)
    requires PrintedAmong(x, y) && p in PrintAll(x)
    ensures p in PrintAll(y)
  {
    hide Canonical, PrintAll;
    var i :| 0 <= i < |PrintAll(x)| && PrintAll(x)[i] == p;
    PrintAllAt(x, i);
    assert PrintedIn(x[i], y);
    var k :| 0 <= k < |y| && x[i].key == y[k].key && Canonical(x[i].value) == Canonical(y[k].value);
    PrintAllAt(y, k);
    assert PrintAll(y)[k] == p;
  }

  lemma ObjectsPrintSame(x: seq<Member>, y: seq<Member>)
    requires DistinctKeys(x) && DistinctKeys(y) && PrintedAmong(x, y) && PrintedAmong(y, x)
    ensures Canonical(Object(x)) == Canonical(Object(y))
  {
    hide PrintAll, PrintedAmong, Join, Map, Sort;
    forall p ensures p in PrintAll(x) <==> p in PrintAll(y) {
      if p in PrintAll(x) { AmongPrinted(x, y, p); }
      if p in PrintAll(y) { AmongPrinted(y, x, p); }
    }
    SamePrinted(x, y);
  }

  lemma {:induction false} EqualPrintsSame(a: Json, b: Json)
    requires Valid(a) && Valid(b) && Equal(a, b)
    ensures Canonical(a) == Canonical(b)
    decreases a
  {
    if a.Array? {
      EqualArraysPrintSame(a, b);
    } else if a.Object? {
      EqualObjectsPrintSame(a, b);
    }
  }

  lemma {:induction false} EqualArraysPrintSame(a: Json, b: Json)
    requires Valid(a) && Valid(b) && Equal(a, b) && a.Array?
    ensures Canonical(a) == Canonical(b)
    decreases a, 0
  {
    hide Canonical;
    forall i | 0 <= i < |a.items| ensures Canonical(a.items[i]) == Canonical(b.items[i]) {
      EqualPrintsSame(a.items[i], b.items[i]);
    }
    ArraysPrintSame(a.items, b.items);
  }

  lemma {:induction false} HasEqualPrints(m: Member, y: seq<Member>)
    requires Valid(m.value) && (forall k :: 0 <= k < |y| ==> Valid(y[k].value)) && HasEqual(m, y)
    ensures PrintedIn(m, y)
    decreases m
  {
    hide Canonical, Valid, Equal;
    var k :| 0 <= k < |y| && m.key == y[k].key && Equal(m.value, y[k].value);
    EqualPrintsSame(m.value, y[k].value);
  }

  lemma {:induction false} IsEqualToPrints(x: seq<Member>, n: Member)
    requires Valid(n.value) && (forall i :: 0 <= i < |x| ==> Valid(x[i].value)) && IsEqualTo(x, n)
    ensures PrintedIn(n, x)
    decreases x
  {
    hide Canonical, Valid, Equal;
    var i :| 0 <= i < |x| && x[i].key == n.key && Equal(x[i].value, n.value);
    EqualPrintsSame(x[i].value, n.value);
  }

  lemma {:induction false} EqualObjectsPrintSame(a: Json, b: Json)
    requires Valid(a) && Valid(b) && Equal(a, b) && a.Object?
    ensures Canonical(a) == Canonical(b)
    decreases a, 0
  {
    hide Canonical, HasEqual, IsEqualTo, PrintedIn;
    var (x, y) := (a.members, b.members);
    forall i | 0 <= i < |x| ensures PrintedIn(x[i], y) { HasEqualPrints(x[i], y); }
    forall k | 0 <= k < |y| ensures PrintedIn(y[k], x) { IsEqualToPrints(x, y[k]); }
    ObjectsPrintSame(x, y);
  }

  /** Two values have the same canonical text exactly when they are equal up to member order: the signed
      text is unambiguous, under any nesting and any characters in strings. */
  lemma CanonicalExactlyWhenEqual(a: Json, b: Json)
    requires Valid(a) && Valid(b)
    ensures Canonical(a) == Canonical(b) <==> Equal(a, b)
  {
    hide Canonical, Equal, Valid;
    if Canonical(a) == Canonical(b) {
      assert Canonical(a) + [] == Canonical(b) + [];
      CanonicalIsPrefixFree(a, b, [], []);
    }
    if Equal(a, b) { EqualPrintsSame(a, b); }
  }
}
