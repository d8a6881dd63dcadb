/**
 A reader of JSON texts (RFC 8259), with the characters spelled out. It accepts no white space and only the
 spellings of section 3.2.2.2 of RFC 8785: the two-character escapes where there is one, `\u` with four lower-case
 digits for the other control characters and for lone surrogates, and everything else as itself. What
 `canonicalizeJson` prints is read back as the value it printed, with the members of every object in ascending
 order of their keys.
 */
module JsonReader {
  import opened Basics
  import opened Sorting
  import opened CanonicalJson

  // ----- the reader -----

  predicate IsHigh(u: CodeUnit) { 0xd800 <= u <= 0xdbff }

  predicate IsLow(u: CodeUnit) { 0xdc00 <= u <= 0xdfff }

  /** Control characters without a short escape, and surrogates. */
  predicate HasLongEscape(u: CodeUnit)
  {
    (u < 0x20 && u !in [0x08, 0x09, 0x0a, 0x0c, 0x0d]) || IsHigh(u) || IsLow(u)
  }

  function ReadHexDigit(u: CodeUnit): (r: Option<nat>)
    ensures r.Some? ==> r.value < 16
  {
    if '0' as int <= u <= '9' as int then Some(u - '0' as int)
    else if 'a' as int <= u <= 'f' as int then Some(u - 'a' as int + 10)
    else None
  }

  function ReadHex4(a: CodeUnit, b: CodeUnit, c: CodeUnit, d: CodeUnit): Option<CodeUnit>
  {
    match (ReadHexDigit(a), ReadHexDigit(b), ReadHexDigit(c), ReadHexDigit(d))
    case (Some(p), Some(q), Some(r), Some(t)) => Some(((p * 16 + q) * 16 + r) * 16 + t)
    case _ => None
  }

  /** What follows a backslash: the code unit it stands for, and the rest. */
  function ReadEscape(s: Str): (r: Option<(CodeUnit, Str)>)
    ensures r.Some? ==> |r.value.1| < |s|
  {
    if s == [] then None
    else if s[0] == '"' as int || s[0] == '\\' as int then Some((s[0], s[1..]))
    else if s[0] == 'b' as int then Some((0x08, s[1..]))
    else if s[0] == 't' as int then Some((0x09, s[1..]))
    else if s[0] == 'n' as int then Some((0x0a, s[1..]))
    else if s[0] == 'f' as int then Some((0x0c, s[1..]))
    else if s[0] == 'r' as int then Some((0x0d, s[1..]))
    else if s[0] == 'u' as int && |s| >= 5 then
      match ReadHex4(s[1], s[2], s[3], s[4])
      case None => None
      case Some(u) => if HasLongEscape(u) then Some((u, s[5..])) else None
    else None
  }

  function Prefixed(front: Str, r: Option<(Str, Str)>): Option<(Str, Str)>
  {
    match r case None => None case Some((t, rest)) => Some((front + t, rest))
  }

  /** An escaped code unit before the rest of a string; a pair of surrogates is not escaped. */
  function PutBefore(u: CodeUnit, r: Option<(Str, Str)>): Option<(Str, Str)>
  {
    match r
    case None => None
    case Some((t, rest)) => if IsHigh(u) && t != [] && IsLow(t[0]) then None else Some(([u] + t, rest))
  }

  /** A string, from behind its first quotation mark on, and what follows it. */
  function ReadString(s: Str): (r: Option<(Str, Str)>)
    ensures r.Some? ==> |r.value.1| < |s|
    decreases |s|
  {
    if s == [] then None
    else if s[0] == '"' as int then Some(([], s[1..]))
    else if s[0] == '\\' as int then
      match ReadEscape(s[1..])
      case None => None
      case Some((u, rest)) => PutBefore(u, ReadString(rest))
    else if |s| > 1 && IsHigh(s[0]) && IsLow(s[1]) then Prefixed(s[..2], ReadString(s[2..]))
    else if s[0] < 0x20 || IsHigh(s[0]) || IsLow(s[0]) then None
    else Prefixed([s[0]], ReadString(s[1..]))
  }

  predicate IsDigit(u: CodeUnit) { '0' as int <= u <= '9' as int }

  /** The length of the number at the front. */
  function NumberLength(s: Str): (n: nat)
    ensures n <= |s|
  {
    if s == [] then 0
    else if IsDigit(s[0]) || s[0] == '+' as int || s[0] == '-' as int || s[0] == '.' as int || s[0] == 'e' as int then
      1 + NumberLength(s[1..])
    else 0
  }

  /** A value, and what follows it. */
  function ReadValue(s: Str): (r: Option<(Json, Str)>)
    ensures r.Some? ==> |r.value.1| < |s|
    decreases |s|, 0
  {
    if s == [] then None
    else if |s| >= 4 && s[..4] == ['n' as int, 'u' as int, 'l' as int, 'l' as int] then Some((Null, s[4..]))
    else if |s| >= 4 && s[..4] == ['t' as int, 'r' as int, 'u' as int, 'e' as int] then Some((Bool(true), s[4..]))
    else if |s| >= 5 && s[..5] == ['f' as int, 'a' as int, 'l' as int, 's' as int, 'e' as int] then
      Some((Bool(false), s[5..]))
    else if IsDigit(s[0]) || s[0] == '-' as int then
      var n: nat := NumberLength(s);
      if n == 0 then None else Some((Number(s[..n]), s[n..]))
    else if s[0] == '"' as int then
      match ReadString(s[1..])
      case None => None
      case Some((t, rest)) => Some((String(t), rest))
    else if s[0] == '[' as int then
      if |s| > 1 && s[1] == ']' as int then Some((Array([]), s[2..]))
      else
        match ReadItems(s[1..])
        case None => None
        case Some((items, rest)) => Some((Array(items), rest))
    else if s[0] == '{' as int then
      if |s| > 1 && s[1] == '}' as int then Some((Object([]), s[2..]))
      else
        match ReadMembers(s[1..])
        case None => None
        case Some((members, rest)) => Some((Object(members), rest))
    else None
  }

  /** Values between commas, up to the closing bracket. */
  function ReadItems(s: Str): (r: Option<(seq<Json>, Str)>)
    ensures r.Some? ==> |r.value.1| < |s|
    decreases |s|, 1
  {
    match ReadValue(s)
    case None => None
    case Some((j, rest)) =>
      if rest == [] then None
      else if rest[0] == ']' as int then Some(([j], rest[1..]))
      else if rest[0] == ',' as int then
        match ReadItems(rest[1..])
        case None => None
        case Some((items, end)) => Some(([j] + items, end))
      else None
  }

  /** A key, a colon and a value. */
  function ReadMember(s: Str): (r: Option<(Member, Str)>)
    ensures r.Some? ==> |r.value.1| < |s|
    decreases |s|, 1
  {
    if s == [] || s[0] != '"' as int then None
    else
      match ReadString(s[1..])
      case None => None
      case Some((key, rest)) =>
        if rest == [] || rest[0] != ':' as int then None
        else
          match ReadValue(rest[1..])
          case None => None
          case Some((j, end)) => Some((Member(key, j), end))
  }

  /** Members between commas, up to the closing brace. */
  function ReadMembers(s: Str): (r: Option<(seq<Member>, Str)>)
    ensures r.Some? ==> |r.value.1| < |s|
    decreases |s|, 2
  {
    match ReadMember(s)
    case None => None
    case Some((m, rest)) =>
      if rest == [] then None
      else if rest[0] == '}' as int then Some(([m], rest[1..]))
      else if rest[0] == ',' as int then
        match ReadMembers(rest[1..])
        case None => None
        case Some((members, end)) => Some(([m] + members, end))
      else None
  }

  /** The members of every object stand in ascending order of their keys. */
  ghost predicate Ascending(j: Json)
  {
    match j
    case Array(items) => forall i :: 0 <= i < |items| ==> Ascending(items[i])
    case Object(members) => AscendingKeys(members) && forall i :: 0 <= i < |members| ==> Ascending(members[i].value)
    case _ => true
  }

  ghost predicate AscendingKeys(members: seq<Member>)
  {
    forall i, k :: 0 <= i < k < |members| ==> Precedes(members[i].key, members[k].key)
  }

  // ----- strings read back -----

  lemma DigitReadsBack(d: int)
    requires 0 <= d < 16
    ensures ReadHexDigit(HexDigit(d)) == Some(d)
  {
  }

  lemma Hex4ReadsBack(u: CodeUnit)
    ensures var r := Hex4(u); ReadHex4(r[0], r[1], r[2], r[3]) == Some(u)
  {
    DigitReadsBack(u / 0x1000);
    DigitReadsBack(u / 0x100 % 16);
    DigitReadsBack(u / 0x10 % 16);
    DigitReadsBack(u % 16);
    hide HexDigit, ReadHexDigit;
    FromNibbles(u);
  }

  lemma FromNibbles(u: CodeUnit)
    ensures ((u / 0x1000 * 16 + u / 0x100 % 16) * 16 + u / 0x10 % 16) * 16 + u % 16 == u
  {
    Nibbles(u);
  }

  lemma HexReadsBack(u: CodeUnit, y: Str)
    requires HasLongEscape(u)
    ensures ReadEscape([0x75] + Hex4(u) + y) == Some((u, y))
  {
    hide Hex4, ReadHex4, HasLongEscape;
    Hex4ReadsBack(u);
    var s := [0x75] + Hex4(u) + y;
    assert s[1] == Hex4(u)[0] && s[2] == Hex4(u)[1] && s[3] == Hex4(u)[2] && s[4] == Hex4(u)[3];
    assert s[5..] == y;
  }

  lemma ShortReadsBack(u: CodeUnit, y: Str)
    requires ShortEscape(u).Some?
    ensures ReadEscape([ShortEscape(u).value] + y) == Some((u, y))
  {
    assert ([ShortEscape(u).value] + y)[1..] == y;
  }

  lemma ReadPlain(u: CodeUnit, y: Str)
    requires u >= 0x20 && u != '"' as int && u != '\\' as int && !IsHigh(u) && !IsLow(u)
    ensures ReadString([u] + y) == Prefixed([u], ReadString(y))
  {
    assert ([u] + y)[1..] == y;
  }

  lemma ReadPair(u: CodeUnit, v: CodeUnit, y: Str)
    requires IsHigh(u) && IsLow(v)
    ensures ReadString([u, v] + y) == Prefixed([u, v], ReadString(y))
  {
    var s := [u, v] + y;
    assert s[..2] == [u, v] && s[2..] == y;
  }

  lemma ReadEscaped(e: Str, u: CodeUnit, y: Str)
    requires ReadEscape(e + y) == Some((u, y))
    ensures ReadString(['\\' as int] + (e + y)) == PutBefore(u, ReadString(y))
  {
    assert (['\\' as int] + (e + y))[1..] == e + y;
  }

  /** The text of the first character is read as that character. */
  lemma ChunkReadsBack(s: Str, y: Str, x: Str)
    requires s != [] && ReadString(y) == Some((s[Width(s)..], x))
    ensures ReadString(Chunk(s) + y) == Some((s, x))
  {
    hide ReadString, ReadEscape, Hex4;
    assert s == s[..Width(s)] + s[Width(s)..];
    var u := s[0];
    if Width(s) == 2 {
      ReadPair(u, s[1], y);
      assert s[..2] == [u, s[1]];
    } else {
      assert s[..1] == [u];
      if ShortEscape(u).Some? {
        ShortReadsBack(u, y);
        ReadEscaped([ShortEscape(u).value], u, y);
        assert Chunk(s) + y == ['\\' as int] + ([ShortEscape(u).value] + y);
      } else if u < 0x20 || HighSurrogate(u) || LowSurrogate(u) {
        HexReadsBack(u, y);
        ReadEscaped([0x75] + Hex4(u), u, y);
        assert Chunk(s) + y == ['\\' as int] + (([0x75] + Hex4(u)) + y);
      } else {
        ReadPlain(u, y);
      }
    }
  }

  lemma {:induction false} StringReadsBack(s: Str, x: Str)
    ensures ReadString(Escaped(s) + (['"' as int] + x)) == Some((s, x))
    decreases |s|
  {
    hide Chunk, Width;
    var y := ['"' as int] + x;
    if s == [] {
      assert [] + y == y && y[1..] == x;
    } else {
      var rest := s[Width(s)..];
      Assoc(Chunk(s), Escaped(rest), y);
      StringReadsBack(rest, x);
      ChunkReadsBack(s, Escaped(rest) + y, x);
    }
  }

  /** A quoted string, and what follows it. */
  lemma QuotedReadsBack(s: Str, x: Str)
    ensures var t := Quoted(s) + x; t != [] && t[0] == '"' as int && ReadString(t[1..]) == Some((s, x))
  {
    hide ReadString, Escaped;
    var t := Quoted(s) + x;
    assert t == ['"' as int] + (Escaped(s) + (['"' as int] + x));
    assert t[1..] == Escaped(s) + (['"' as int] + x);
    StringReadsBack(s, x);
  }

  // ----- values read back -----

  lemma {:induction false} NumberReadsBack(a: Str, x: Str)
    requires (forall i :: 0 <= i < |a| ==> NumeralChar(a[i])) && Ends(x)
    ensures NumberLength(a + x) == |a|
  {
    if a == [] {
      assert a + x == x;
    } else {
      assert (a + x)[1..] == a[1..] + x;
      NumberReadsBack(a[1..], x);
    }
  }

  /** Read back as an equal value with ascending keys, up to x. */
  ghost predicate ReadsAs(s: Str, j: Json, x: Str)
  {
    var r := ReadValue(s);
    r.Some? && r.value.1 == x && Equal(r.value.0, j) && Ascending(r.value.0)
  }

  lemma ScalarReadsBack(j: Json, x: Str)
    requires Valid(j) && Ends(x) && !j.Array? && !j.Object?
    ensures ReadsAs(Canonical(j) + x, j, x)
  {
    hide ReadString, Quoted, NumberLength;
    var t := Canonical(j) + x;
    match j {
      case Null => assert t[..4] == NULL_TEXT && t[4..] == x;
      case Bool(b) =>
        if b {
          assert t[..4] == TRUE_TEXT && t[4..] == x;
        } else {
          assert t[0] == 'f' as int && t[..5] == FALSE_TEXT && t[5..] == x;
          assert t[..4] == FALSE_TEXT[..4];
        }
      case Number(text) =>
        NumberReadsBack(text, x);
        assert t[0] == text[0] && t[..|text|] == text && t[|text|..] == x;
        assert |t| >= 4 ==> t[..4][0] == t[0];
        assert |t| >= 5 ==> t[..5][0] == t[0];
      case String(s) =>
        QuotedReadsBack(s, x);
        assert |t| >= 4 ==> t[..4][0] == t[0];
        assert |t| >= 5 ==> t[..5][0] == t[0];
    }
  }

  lemma ArrayText(items: seq<Json>, x: Str)
    ensures Canonical(Array(items)) + x == ['[' as int] + (Join(Texts(items)) + ([']' as int] + x))
  {
    hide Join;
    Assoc(['[' as int], Join(Texts(items)), [']' as int]);
    Assoc(['[' as int], Join(Texts(items)) + [']' as int], x);
    Assoc(Join(Texts(items)), [']' as int], x);
  }

  lemma NoItems()
    ensures Join(Texts([])) == []
  {
  }

  /** How the reader begins an array. */
  lemma ReadArrayStart(s: Str)
    ensures s != [] && s[0] == ']' as int ==> ReadValue(['[' as int] + s) == Some((Array([]), s[1..]))
    ensures s == [] || s[0] != ']' as int ==> (ReadValue(['[' as int] + s) ==
      match ReadItems(s) case None => None case Some((items, rest)) => Some((Array(items), rest)))
  {
    hide ReadItems, ReadMembers, NumberLength, ReadString;
    ReadBracket('[' as int, s);
  }

  /** How it begins an object. */
  lemma ReadObjectStart(s: Str)
    ensures s != [] && s[0] == '}' as int ==> ReadValue(['{' as int] + s) == Some((Object([]), s[1..]))
    ensures s == [] || s[0] != '}' as int ==> (ReadValue(['{' as int] + s) ==
      match ReadMembers(s) case None => None case Some((members, rest)) => Some((Object(members), rest)))
  {
    hide ReadItems, ReadMembers, NumberLength, ReadString;
    ReadBracket('{' as int, s);
  }

  lemma ReadBracket(u: CodeUnit, s: Str)
    ensures var t := [u] + s; t[0] == u && t[1..] == s && (|t| > 1 ==> t[1] == s[0] && t[2..] == s[1..])
    ensures var t := [u] + s; (|t| >= 4 ==> t[..4][0] == u) && (|t| >= 5 ==> t[..5][0] == u)
  {
  }

  /** One step through an array. */
  lemma ReadItem(s: Str, j: Json, y: Str)
    requires ReadsAs(s, j, y) && y != []
    ensures y[0] == ']' as int ==> ReadItems(s) == Some(([ReadValue(s).value.0], y[1..]))
    ensures y[0] == ',' as int && ReadItems(y[1..]).Some? ==>
      var (items, end) := ReadItems(y[1..]).value; ReadItems(s) == Some(([ReadValue(s).value.0] + items, end))
  {
    hide ReadValue, Equal, Ascending;
  }

  /** The value read is equal to the other, and its keys ascend. */
  ghost predicate Fits(v: Json, j: Json) { Equal(v, j) && Ascending(v) }

  ghost predicate ItemsFit(vs: seq<Json>, items: seq<Json>)
  {
    |vs| == |items| && forall i :: 0 <= i < |items| ==> Fits(vs[i], items[i])
  }

  lemma FitsCons(v: Json, vs: seq<Json>, items: seq<Json>)
    requires items != [] && Fits(v, items[0]) && ItemsFit(vs, items[1..])
    ensures ItemsFit([v] + vs, items)
  {
    hide Fits;
    var r := [v] + vs;
    forall i | 0 <= i < |items| ensures Fits(r[i], items[i]) {
      if i > 0 { assert r[i] == vs[i - 1] && items[i] == items[1..][i - 1]; }
    }
  }

  lemma {:induction false} ItemsReadBack(whole: Json, items: seq<Json>, x: Str)
    requires items != [] && (forall j :: j in items ==> j < whole) && forall i :: 0 <= i < |items| ==> Valid(items[i])
    ensures var r := ReadItems(Join(Texts(items)) + ([']' as int] + x));
      r.Some? && r.value.1 == x && ItemsFit(r.value.0, items)
    decreases whole, |items|
  {
    hide Canonical, Valid, Join, ReadValue, ReadItems, ReadsAs, Equal, Ascending;
    var (texts, y) := (Texts(items), [']' as int] + x);
    var behind := CanonicalJson.Behind(texts, y);
    TextsStep(items);
    JoinStep(texts, y);
    assert items[0] in items;
    ValueReadsBack(items[0], behind);
    var s := Canonical(items[0]) + behind;
    ReadItem(s, items[0], behind);
    assert ReadsAs(s, items[0], behind);
    ReadsAsMeans(s, items[0], behind);
    var v := ReadValue(s).value.0;
    assert y[1..] == x;
    if |items| == 1 {
      FitsCons(v, [], items);
      assert [v] + [] == [v];
    } else {
      var rest := items[1..];
      assert forall j :: j in rest ==> j in items;
      ItemsReadBack(whole, rest, x);
      assert behind[1..] == Join(Texts(rest)) + y;
      FitsCons(v, ReadItems(behind[1..]).value.0, items);
    }
  }

  lemma ReadsAsMeans(s: Str, j: Json, y: Str)
    requires ReadsAs(s, j, y)
    ensures ReadValue(s).Some? && Equal(ReadValue(s).value.0, j) && Ascending(ReadValue(s).value.0)
  {
  }

  lemma ObjectText(members: seq<Member>, x: Str)
    ensures Canonical(Object(members)) + x ==
      ['{' as int] + (Join(MemberTexts(Sort(MemberLe, members))) + (['}' as int] + x))
  {
    hide Join, Map, Sort, PrintAll;
    SortedMembers(members);
    var text := Join(MemberTexts(Sort(MemberLe, members)));
    Assoc(['{' as int], text, ['}' as int]);
    Assoc(['{' as int], text + ['}' as int], x);
    Assoc(text, ['}' as int], x);
  }

  /** One member, and one step through an object. */
  lemma ReadOneMember(m: Member, y: Str)
    requires ReadsAs(Canonical(m.value) + y, m.value, y)
    ensures var r := ReadMember((Quoted(m.key) + [':' as int] + Canonical(m.value)) + y);
      r == Some((Member(m.key, ReadValue(Canonical(m.value) + y).value.0), y))
  {
    hide ReadValue, Canonical, ReadString, Quoted, Equal, Ascending;
    var rest := [':' as int] + (Canonical(m.value) + y);
    MemberParts(m, y);
    QuotedReadsBack(m.key, rest);
    assert rest[1..] == Canonical(m.value) + y;
  }

  lemma ReadNextMember(s: Str, m: Member, y: Str)
    requires ReadMember(s) == Some((m, y)) && y != []
    ensures y[0] == '}' as int ==> ReadMembers(s) == Some(([m], y[1..]))
    ensures y[0] == ',' as int && ReadMembers(y[1..]).Some? ==>
      var (members, end) := ReadMembers(y[1..]).value; ReadMembers(s) == Some(([m] + members, end))
  {
    hide ReadMember;
  }

  ghost predicate MembersFit(rs: seq<Member>, ms: seq<Member>)
  {
    |rs| == |ms| && forall i :: 0 <= i < |ms| ==> rs[i].key == ms[i].key && Fits(rs[i].value, ms[i].value)
  }

  lemma MembersFitCons(r: Member, rs: seq<Member>, ms: seq<Member>)
    requires ms != [] && r.key == ms[0].key && Fits(r.value, ms[0].value) && MembersFit(rs, ms[1..])
    ensures MembersFit([r] + rs, ms)
  {
    hide Fits;
    var t := [r] + rs;
    forall i | 0 <= i < |ms| ensures t[i].key == ms[i].key && Fits(t[i].value, ms[i].value) {
      if i > 0 { assert t[i] == rs[i - 1] && ms[i] == ms[1..][i - 1]; }
    }
  }

  lemma {:induction false} MembersReadBack(whole: Json, ms: seq<Member>, x: Str)
    requires ms != [] && (forall m :: m in ms ==> m.value < whole)
    requires forall i :: 0 <= i < |ms| ==> Valid(ms[i].value)
    ensures var r := ReadMembers(Join(MemberTexts(ms)) + (['}' as int] + x));
      r.Some? && r.value.1 == x && MembersFit(r.value.0, ms)
    decreases whole, |ms|
  {
    hide Canonical, Valid, Join, ReadValue, ReadMembers, ReadMember, ReadsAs, Equal, Ascending, Quoted, MemberTexts;
    var (texts, y) := (MemberTexts(ms), ['}' as int] + x);
    var behind := CanonicalJson.Behind(texts, y);
    MemberTextsStep(ms);
    JoinStep(texts, y);
    assert ms[0] in ms;
    ValueReadsBack(ms[0].value, behind);
    ReadOneMember(ms[0], behind);
    ReadsAsMeans(Canonical(ms[0].value) + behind, ms[0].value, behind);
    var r := Member(ms[0].key, ReadValue(Canonical(ms[0].value) + behind).value.0);
    ReadNextMember(texts[0] + behind, r, behind);
    assert y[1..] == x;
    if |ms| == 1 {
      MembersFitCons(r, [], ms);
      assert [r] + [] == [r];
    } else {
      var rest := ms[1..];
      TailsFit(whole, ms, ms);
      MembersReadBack(whole, rest, x);
      assert behind[1..] == Join(MemberTexts(rest)) + y;
      MembersFitCons(r, ReadMembers(behind[1..]).value.0, ms);
    }
  }

  /** Sorting members with distinct keys gives ascending keys. */
  lemma SortAscends(members: seq<Member>)
    requires DistinctKeys(members)
    ensures AscendingKeys(Sort(MemberLe, members))
  {
    var ms := Sort(MemberLe, members);
    MemberLeIsTotalPreorder();
    SortIsSorted(MemberLe, members);
    hide Sort, Precedes;
    SameElements(ms, members);
    forall i, k | 0 <= i < k < |ms| ensures Precedes(ms[i].key, ms[k].key) {
      LexLeIff(ms[i].key, ms[k].key);
      if ms[i].key == ms[k].key {
        SameKeySameMember(members, ms[i], ms[k]);
        TwiceCounts(ms, i, k);
        OnceInMembers(members, ms[i]);
        assert false;
      }
    }
  }

  lemma MemberLeIsTotalPreorder()
    ensures TotalPreorder(MemberLe)
  {
    forall p: Member, q: Member ensures MemberLe(p, q) || MemberLe(q, p) { LexTotal(p.key, q.key); }
    forall p: Member, q: Member, r: Member | MemberLe(p, q) && MemberLe(q, r) ensures MemberLe(p, r) {
      LexTransitive(p.key, q.key, r.key);
    }
  }

  lemma SameKeySameMember(members: seq<Member>, m: Member, n: Member)
    requires DistinctKeys(members) && m in members && n in members && m.key == n.key
    ensures m == n
  {
    var i :| 0 <= i < |members| && members[i] == m;
    var k :| 0 <= k < |members| && members[k] == n;
  }

  lemma {:induction false} OnceInMembers(members: seq<Member>, m: Member)
    requires DistinctKeys(members)
    ensures multiset(members)[m] <= 1
  {
    if members != [] {
      var (head, rest) := (members[0], members[1..]);
      OnceInMembers(rest, m);
      assert members == [head] + rest;
      assert m == head ==> m !in rest;
      assert multiset(members) == multiset{head} + multiset(rest);
    }
  }

  lemma FitAscends(rs: seq<Member>, ms: seq<Member>)
    requires MembersFit(rs, ms) && AscendingKeys(ms)
    ensures Ascending(Object(rs))
  {
    hide Precedes, Equal;
  }

  lemma FitIsEqual(rs: seq<Member>, ms: seq<Member>, members: seq<Member>)
    requires MembersFit(rs, ms) && forall m :: m in ms <==> m in members
    ensures Equal(Object(rs), Object(members))
  {
    hide Equal, Ascending;
    EqualObjects(rs, members, rs, ms);
  }

  lemma {:induction false} ValueReadsBack(j: Json, x: Str)
    requires Valid(j) && Ends(x)
    ensures ReadsAs(Canonical(j) + x, j, x)
    decreases j
  {
    hide Canonical, ReadValue, ReadItems, ReadMembers, Join, Sort, Texts, MemberTexts;
    match j {
      case Array(items) =>
        ArrayText(items, x);
        var y := [']' as int] + x;
        ReadArrayStart(Join(Texts(items)) + y);
        if items == [] {
          NoItems();
          assert [] + y == y;
        } else {
          ItemsDoNotClose(items, y);
          ItemsReadBack(j, items, x);
        }
      case Object(members) =>
        ObjectText(members, x);
        var (ms, y) := (Sort(MemberLe, members), ['}' as int] + x);
        SameElements(ms, members);
        ReadObjectStart(Join(MemberTexts(ms)) + y);
        if members == [] {
          NoMembers();
          assert ms == [] && [] + y == y;
        } else {
          MembersInside(j, members, ms);
          MembersDoNotClose(ms, y);
          MembersReadBack(j, ms, x);
          var rs := ReadMembers(Join(MemberTexts(ms)) + y).value.0;
          SortAscends(members);
          FitAscends(rs, ms);
          FitIsEqual(rs, ms, members);
        }
      case _ => ScalarReadsBack(j, x);
    }
  }

  /** The signed text of a value is a JSON text of that value, with the members of every object in ascending order
      of their keys. */
  lemma CanonicalReadsBack(j: Json)
    requires Valid(j)
    ensures var r := ReadValue(Canonical(j));
      r.Some? && r.value.1 == [] && Equal(r.value.0, j) && Ascending(r.value.0)
  {
    hide Canonical, ReadValue, Valid;
    ValueReadsBack(j, []);
    assert Canonical(j) + [] == Canonical(j);
  }

  // ----- what is read is canonical -----

  lemma EscapeIsChunk(s: Str, u: CodeUnit, rest: Str, t: Str)
    requires ReadEscape(s) == Some((u, rest)) && (IsHigh(u) && t != [] ==> !IsLow(t[0]))
    ensures ['\\' as int] + s == Chunk([u] + t) + rest && Width([u] + t) == 1
  {
    hide ReadEscape, Chunk;
    EscapeIsText(s, u, rest);
    ChunkOfOne(u, t);
    assert ['\\' as int] + s == (['\\' as int] + Letters(u)) + rest;
  }

  /** What stands behind the backslash. */
  function Letters(u: CodeUnit): Str { if ShortEscape(u).Some? then [ShortEscape(u).value] else ['u' as int] + Hex4(u) }

  lemma ChunkOfOne(u: CodeUnit, t: Str)
    requires (ShortEscape(u).Some? || HasLongEscape(u)) && (IsHigh(u) && t != [] ==> !IsLow(t[0]))
    ensures Chunk([u] + t) == ['\\' as int] + Letters(u) && Width([u] + t) == 1
  {
    hide Hex4;
    var s := [u] + t;
    assert s[0] == u && (t != [] ==> s[1] == t[0]);
  }

  lemma EscapeIsText(s: Str, u: CodeUnit, rest: Str)
    requires ReadEscape(s) == Some((u, rest))
    ensures s == Letters(u) + rest && (ShortEscape(u).Some? || HasLongEscape(u))
  {
    hide ReadHex4, Hex4;
    if s[0] == 'u' as int {
      HexIsRead(s[1], s[2], s[3], s[4]);
      assert s == (['u' as int] + [s[1], s[2], s[3], s[4]]) + s[5..];
      NoShortEscape(u);
    } else {
      assert s == [s[0]] + s[1..];
    }
  }

  lemma NoShortEscape(u: CodeUnit)
    ensures HasLongEscape(u) ==> ShortEscape(u).None?
  {
  }

  lemma HexIsRead(a: CodeUnit, b: CodeUnit, c: CodeUnit, d: CodeUnit)
    ensures ReadHex4(a, b, c, d).Some? ==> Hex4(ReadHex4(a, b, c, d).value) == [a, b, c, d]
  {
    if ReadHex4(a, b, c, d).Some? {
      var (p, q) := (ReadHexDigit(a).value, ReadHexDigit(b).value);
      var (r, t) := (ReadHexDigit(c).value, ReadHexDigit(d).value);
      DigitIsRead(a);
      DigitIsRead(b);
      DigitIsRead(c);
      DigitIsRead(d);
      hide HexDigit, ReadHexDigit;
      NibblesOf(p, q, r, t);
    }
  }

  lemma DigitIsRead(u: CodeUnit)
    ensures ReadHexDigit(u).Some? ==> HexDigit(ReadHexDigit(u).value) == u
  {
  }

  lemma NibblesOf(p: nat, q: nat, r: nat, t: nat)
    requires p < 16 && q < 16 && r < 16 && t < 16
    ensures var u := ((p * 16 + q) * 16 + r) * 16 + t;
      u / 0x1000 == p && u / 0x100 % 16 == q && u / 0x10 % 16 == r && u % 16 == t
  {
    var u := ((p * 16 + q) * 16 + r) * 16 + t;
    assert u / 0x10 == (p * 16 + q) * 16 + r && u / 0x100 == p * 16 + q;
  }

  lemma {:induction false} StringIsQuoted(s: Str)
    ensures ReadString(s).Some? ==>
      var (t, rest) := ReadString(s).value; s == Escaped(t) + (['"' as int] + rest)
    decreases |s|
  {
    hide ReadEscape, Chunk, Width;
    if ReadString(s).Some? {
      var (t, rest) := ReadString(s).value;
      var y := ['"' as int] + rest;
      if s[0] == '"' as int {
        assert t == [] && [] + y == y && s == [s[0]] + s[1..];
      } else if s[0] == '\\' as int {
        var (u, more) := ReadEscape(s[1..]).value;
        StringIsQuoted(more);
        EscapeIsChunk(s[1..], u, more, ReadString(more).value.0);
        assert t == [u] + t[1..] && t[Width(t)..] == t[1..];
        assert s == [s[0]] + s[1..];
        Assoc(Chunk(t), Escaped(t[1..]), y);
      } else {
        var n := if |s| > 1 && IsHigh(s[0]) && IsLow(s[1]) then 2 else 1;
        StringIsQuoted(s[n..]);
        PlainChunk(s, n, t[n..]);
        assert t == s[..n] + t[n..] && s == s[..n] + s[n..];
        Assoc(Chunk(t), Escaped(t[n..]), y);
      }
    }
  }

  lemma PlainChunk(s: Str, n: nat, t: Str)
    requires s != [] && s[0] >= 0x20 && s[0] != '"' as int && s[0] != '\\' as int
    requires if |s| > 1 && IsHigh(s[0]) && IsLow(s[1]) then n == 2 else n == 1 && !IsHigh(s[0]) && !IsLow(s[0])
    ensures Width(s[..n] + t) == n && Chunk(s[..n] + t) == s[..n]
  {
    var r := s[..n] + t;
    assert r[0] == s[0] && (n == 2 ==> r[1] == s[1]);
    assert s[..1] == [s[0]] && (n == 2 ==> s[..2] == [s[0], s[1]]);
  }

  lemma {:induction false} NumberIsNumeral(s: Str)
    ensures forall i :: 0 <= i < NumberLength(s) ==> NumeralChar(s[i])
  {
    if NumberLength(s) > 0 {
      NumberIsNumeral(s[1..]);
      assert forall i :: 0 < i < NumberLength(s) ==> s[i] == s[1..][i - 1];
    }
  }

  /** The text read is the canonical text of the value, if the keys ascend. */
  ghost predicate IsCanonical(s: Str, j: Json, rest: Str)
  {
    Ascending(j) ==> Valid(j) && s == Canonical(j) + rest
  }

  lemma WordIsCanonical(s: Str)
    requires ReadValue(s).Some? && (ReadValue(s).value.0.Null? || ReadValue(s).value.0.Bool?)
    ensures s == Canonical(ReadValue(s).value.0) + ReadValue(s).value.1
  {
    hide ReadString, NumberLength, ReadItems, ReadMembers;
    assert |s| >= 4 ==> s == s[..4] + s[4..];
    assert |s| >= 5 ==> s == s[..5] + s[5..];
  }

  lemma NumberIsCanonical(s: Str)
    requires ReadValue(s).Some? && ReadValue(s).value.0.Number?
    ensures var (j, rest) := ReadValue(s).value; IsNumeral(j.text) && s == j.text + rest
  {
    hide ReadString, NumberLength, ReadItems, ReadMembers;
    NumberIsNumeral(s);
    var (j, rest) := ReadValue(s).value;
    assert j.text == s[..NumberLength(s)] && j.text[0] == s[0];
  }

  lemma StringIsCanonical(s: Str)
    requires ReadValue(s).Some? && ReadValue(s).value.0.String?
    ensures var (j, rest) := ReadValue(s).value; s == Quoted(j.s) + rest
  {
    hide ReadString, NumberLength, ReadItems, ReadMembers, Escaped;
    StringIsQuoted(s[1..]);
    var (j, rest) := ReadValue(s).value;
    assert s[0] == '"' as int && ReadString(s[1..]) == Some((j.s, rest));
    hide ReadValue;
    assert s == [s[0]] + s[1..];
    assert Quoted(j.s) + rest == ['"' as int] + (Escaped(j.s) + (['"' as int] + rest));
  }

  lemma ScalarIsCanonical(s: Str)
    requires ReadValue(s).Some? && !ReadValue(s).value.0.Array? && !ReadValue(s).value.0.Object?
    ensures IsCanonical(s, ReadValue(s).value.0, ReadValue(s).value.1)
  {
    hide ReadValue, Quoted;
    match ReadValue(s).value.0 {
      case Number(_) => NumberIsCanonical(s);
      case String(_) => StringIsCanonical(s);
      case _ => WordIsCanonical(s);
    }
  }

  lemma JoinCons(x: Str, texts: seq<Str>, y: Str)
    ensures Join([x]) == x
    ensures texts != [] ==> Join([x] + texts) + y == x + ([',' as int] + (Join(texts) + y))
  {
    if texts != [] { JoinStep([x] + texts, y); }
    assert ([x] + texts)[1..] == texts;
  }

  ghost predicate ItemsCanonical(s: Str, items: seq<Json>, rest: Str)
  {
    && items != []
    && ((forall i :: 0 <= i < |items| ==> Ascending(items[i])) ==>
          (forall i :: 0 <= i < |items| ==> Valid(items[i])) && s == Join(Texts(items)) + ([']' as int] + rest))
  }

  lemma {:induction false} ItemsAreCanonical(s: Str)
    ensures ReadItems(s).Some? ==> ItemsCanonical(s, ReadItems(s).value.0, ReadItems(s).value.1)
    decreases |s|, 2
  {
    hide ReadValue, Canonical, Ascending, Valid, Join, Texts;
    if ReadItems(s).Some? {
      var (items, end) := ReadItems(s).value;
      var (j, rest) := ReadValue(s).value;
      ValueIsCanonical(s);
      assert rest == [rest[0]] + rest[1..];
      TextsCons(j, items[1..]);
      if rest[0] == ']' as int {
        JoinCons(Canonical(j), [], []);
        assert items == [j] + items[1..] && items[1..] == [];
        assert Texts(items) == [Canonical(j)];
        assert (forall i :: 0 <= i < |items| ==> Ascending(items[i])) ==> Ascending(items[0]);
      } else {
        ItemsAreCanonical(rest[1..]);
        JoinCons(Canonical(j), Texts(items[1..]), [']' as int] + end);
        assert items == [j] + items[1..];
        if forall i :: 0 <= i < |items| ==> Ascending(items[i]) {
          assert Ascending(items[0]) && forall i :: 0 <= i < |items[1..]| ==> items[1..][i] == items[i + 1];
          forall i | 0 <= i < |items| ensures Valid(items[i]) { assert i > 0 ==> items[i] == items[1..][i - 1]; }
        }
      }
    }
  }

  lemma TextsCons(j: Json, items: seq<Json>)
    ensures Texts([j] + items) == [Canonical(j)] + Texts(items)
    ensures Texts([]) == [] && (items != [] ==> Texts(items) != [])
  {
    hide Canonical;
    assert ([j] + items)[1..] == items;
  }

  lemma MemberIsCanonical(s: Str)
    requires ReadMember(s).Some?
    ensures var (m, rest) := ReadMember(s).value;
      Ascending(m.value) ==> Valid(m.value) && s == (Quoted(m.key) + [':' as int] + Canonical(m.value)) + rest
    decreases |s|, 2
  {
    hide ReadValue, Canonical, Ascending, Valid, ReadString;
    var (m, end) := ReadMember(s).value;
    var rest := ReadString(s[1..]).value.1;
    StringIsQuoted(s[1..]);
    ValueIsCanonical(rest[1..]);
    hide Escaped;
    assert rest == [rest[0]] + rest[1..] && s == [s[0]] + s[1..];
    if Ascending(m.value) {
      MemberParts(m, end);
      assert Quoted(m.key) + rest == ['"' as int] + (Escaped(m.key) + (['"' as int] + rest));
    }
  }

  ghost predicate MembersCanonical(s: Str, ms: seq<Member>, rest: Str)
  {
    && ms != []
    && ((forall i :: 0 <= i < |ms| ==> Ascending(ms[i].value)) ==>
          (forall i :: 0 <= i < |ms| ==> Valid(ms[i].value)) && s == Join(MemberTexts(ms)) + (['}' as int] + rest))
  }

  lemma MemberTextsCons(m: Member, ms: seq<Member>)
    ensures MemberTexts([m] + ms) == [Quoted(m.key) + [':' as int] + Canonical(m.value)] + MemberTexts(ms)
    ensures MemberTexts([]) == [] && (ms != [] ==> MemberTexts(ms) != [])
  {
    hide Canonical, Quoted, PrintAll, Map;
    MemberTextsStep([m] + ms);
    assert ([m] + ms)[0] == m && ([m] + ms)[1..] == ms;
    SplitFirst(MemberTexts([m] + ms));
  }

  lemma SplitFirst(texts: seq<Str>)
    requires texts != []
    ensures texts == [texts[0]] + texts[1..]
  {
  }

  lemma {:induction false} MembersAreCanonical(s: Str)
    ensures ReadMembers(s).Some? ==> MembersCanonical(s, ReadMembers(s).value.0, ReadMembers(s).value.1)
    decreases |s|, 3
  {
    hide ReadMember, Canonical, Ascending, Valid, Join, MemberTexts, Quoted;
    if ReadMembers(s).Some? {
      var (ms, end) := ReadMembers(s).value;
      var (m, rest) := ReadMember(s).value;
      MemberIsCanonical(s);
      assert rest == [rest[0]] + rest[1..];
      MemberTextsCons(m, ms[1..]);
      var text := Quoted(m.key) + [':' as int] + Canonical(m.value);
      if rest[0] == '}' as int {
        JoinCons(text, [], []);
        assert ms == [m] + ms[1..] && ms[1..] == [];
        assert MemberTexts(ms) == [text];
        assert (forall i :: 0 <= i < |ms| ==> Ascending(ms[i].value)) ==> Ascending(ms[0].value);
      } else {
        MembersAreCanonical(rest[1..]);
        JoinCons(text, MemberTexts(ms[1..]), ['}' as int] + end);
        assert ms == [m] + ms[1..];
        if forall i :: 0 <= i < |ms| ==> Ascending(ms[i].value) {
          assert Ascending(ms[0].value) && forall i :: 0 <= i < |ms[1..]| ==> ms[1..][i] == ms[i + 1];
          forall i | 0 <= i < |ms| ensures Valid(ms[i].value) { assert i > 0 ==> ms[i] == ms[1..][i - 1]; }
        }
      }
    }
  }

  lemma NotBeforeItself(x: Str)
    ensures !Precedes(x, x)
  {
  }

  lemma AscendingIsSorted(ms: seq<Member>)
    requires AscendingKeys(ms)
    ensures Sort(MemberLe, ms) == ms && DistinctKeys(ms)
  {
    forall i, k | 0 <= i < k < |ms| ensures MemberLe(ms[i], ms[k]) && ms[i].key != ms[k].key {
      LexLeIff(ms[i].key, ms[k].key);
      NotBeforeItself(ms[i].key);
    }
    hide Precedes;
    forall m, n | m in ms && n in ms && MemberLe(m, n) && MemberLe(n, m) ensures m == n {
      LexAntisymmetric(m.key, n.key);
      SameKeySameMember(ms, m, n);
    }
    MemberLeIsTotalPreorder();
    SortIsSorted(MemberLe, ms);
    SortedIsUnique(MemberLe, ms, Sort(MemberLe, ms));
  }

  lemma {:induction false} ValueIsCanonical(s: Str)
    ensures ReadValue(s).Some? ==> IsCanonical(s, ReadValue(s).value.0, ReadValue(s).value.1)
    decreases |s|, 1
  {
    if ReadValue(s).Some? {
      var (j, rest) := ReadValue(s).value;
      if j.Array? {
        ArrayIsCanonical(s);
      } else if j.Object? {
        ObjectIsCanonical(s);
      } else {
        ScalarIsCanonical(s);
      }
    }
  }

  /** An array begins with its bracket. */
  lemma ArrayBegins(s: Str)
    requires ReadValue(s).Some? && ReadValue(s).value.0.Array?
    ensures s[0] == '[' as int && s == ['[' as int] + s[1..]
  {
    hide ReadItems, ReadMembers, ReadString, NumberLength;
  }

  lemma ObjectBegins(s: Str)
    requires ReadValue(s).Some? && ReadValue(s).value.0.Object?
    ensures s[0] == '{' as int && s == ['{' as int] + s[1..]
  {
    hide ReadItems, ReadMembers, ReadString, NumberLength;
  }

  lemma {:induction false} ArrayIsCanonical(s: Str)
    requires ReadValue(s).Some? && ReadValue(s).value.0.Array?
    ensures IsCanonical(s, ReadValue(s).value.0, ReadValue(s).value.1)
    decreases |s|, 0
  {
    ArrayBegins(s);
    ReadArrayStart(s[1..]);
    hide ReadValue, ReadItems, Canonical;
    var (j, rest) := ReadValue(s).value;
    ArrayText(j.items, rest);
    ItemsAreCanonical(s[1..]);
    if j.items == [] {
      NoItems();
      assert s[1..] == [']' as int] + s[2..] && [] + ([']' as int] + rest) == [']' as int] + rest;
    }
  }

  lemma ObjectFromMembers(s: Str, ms: seq<Member>, rest: Str)
    requires MembersCanonical(s, ms, rest)
    ensures IsCanonical(['{' as int] + s, Object(ms), rest)
  {
    hide Canonical, Sort, MemberTexts, Join;
    if Ascending(Object(ms)) {
      ObjectText(ms, rest);
      AscendingIsSorted(ms);
    }
  }

  lemma EmptyObject(rest: Str)
    ensures IsCanonical(['{' as int] + (['}' as int] + rest), Object([]), rest)
  {
    hide Canonical, MemberTexts, Join;
    ObjectText([], rest);
    NoMembers();
    assert Sort(MemberLe, []) == [] && [] + (['}' as int] + rest) == ['}' as int] + rest;
  }

  lemma {:induction false} ObjectIsCanonical(s: Str)
    requires ReadValue(s).Some? && ReadValue(s).value.0.Object?
    ensures IsCanonical(s, ReadValue(s).value.0, ReadValue(s).value.1)
    decreases |s|, 0
  {
    ObjectBegins(s);
    ReadObjectStart(s[1..]);
    hide ReadValue, ReadMembers, IsCanonical, MembersCanonical;
    var (j, rest) := ReadValue(s).value;
    if s[1..] != [] && s[1..][0] == '}' as int {
      EmptyObject(rest);
      assert s[1..] == ['}' as int] + s[1..][1..];
    } else {
      MembersAreCanonical(s[1..]);
      ObjectFromMembers(s[1..], j.members, rest);
    }
  }

  /** And the other way round: a text that is read to its end, with ascending keys, is the signed text of what was
      read, a value that JavaScript can hold. */
  lemma OnlyCanonicalIsRead(s: Str)
    requires ReadValue(s).Some? && ReadValue(s).value.1 == [] && Ascending(ReadValue(s).value.0)
    ensures var j := ReadValue(s).value.0; Valid(j) && Canonical(j) == s
  {
    hide ReadValue, Canonical, Ascending, Valid;
    ValueIsCanonical(s);
    assert Canonical(ReadValue(s).value.0) + [] == Canonical(ReadValue(s).value.0);
  }
}
