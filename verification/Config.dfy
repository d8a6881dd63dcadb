/**
 The line editor for the `block_producer:` section of the configuration file: writing a key, and
 commenting a key out.

 The section starts behind the first line that reads `block_producer:` when trimmed, and ends at the next
 line that starts with neither white space nor `#`. A line is for a key when the key and a colon follow
 its indentation, with at most one `#` and white space in between; so commented-out lines count. The first
 such line is the one that is edited. A key that has none is added directly under the header, and a text
 without the section gets one at its end.

 The laws are stated about the lines: what is above the section, its header, and what follows. Trailing
 empty lines never matter, because both editors strip them.
 */
module Config {
  import opened Basics
  import opened Lines

  // ----- single lines -----

  predicate IsKeyChar(c: char) { 'a' <= c <= 'z' || 'A' <= c <= 'Z' || '0' <= c <= '9' || c == '_' || c == '-' }

  /** Keys that stand for themselves in a regular expression. */
  predicate IsKey(key: string) { key != "" && forall i :: 0 <= i < |key| ==> IsKeyChar(key[i]) }

  predicate IsSection(line: string) { Trim(line) == "block_producer:" }

  /** A line that ends the section: it starts with neither white space nor `#`. */
  predicate Ends(line: string) { line != "" && !IsSpace(line[0]) && line[0] != '#' }

  function SkipHash(s: string): string { if s != "" && s[0] == '#' then s[1..] else s }

  /** What follows `^\s*#?\s*`. */
  function Rest(line: string): string { TrimStart(SkipHash(TrimStart(line))) }

  predicate Matches(line: string, key: string) { key + ":" <= Rest(line) }

  function Leading(line: string): string { line[..SpaceCount(line)] }

  // Indentation, a hash and a space, and what follows them: the replacement that comments a line out.
  function Commented(line: string): string { Leading(line) + "# " + Rest(line) }

  predicate IsCommented(line: string) { var t := TrimStart(line); t != "" && t[0] == '#' }

  function Setting(key: string, value: string): string { "  " + key + ": " + value }

  lemma SpaceCountIs(s: string, n: nat)
    requires n <= |s| && (forall i :: 0 <= i < n ==> IsSpace(s[i])) && (n < |s| ==> !IsSpace(s[n]))
    ensures SpaceCount(s) == n
  {
    hide IsSpace;
  }

  lemma TrimStartOfSpaces(p: string, s: string)
    requires forall i :: 0 <= i < |p| ==> IsSpace(p[i])
    ensures SpaceCount(p + s) == |p| + SpaceCount(s) && TrimStart(p + s) == TrimStart(s)
  {
    hide IsSpace;
    SpaceCountIs(p + s, |p| + SpaceCount(s));
  }

  lemma KeyStart(key: string, x: string)
    requires IsKey(key)
    ensures !IsSpace(key[0]) && key[0] != '#'
    ensures TrimStart(key + x) == key + x && SkipHash(key + x) == key + x
  {
    assert (key + x)[0] == key[0] && IsKeyChar(key[0]);
  }

  lemma SettingRest(key: string, value: string)
    requires IsKey(key)
    ensures Rest(Setting(key, value)) == key + (": " + value)
  {
    hide SpaceCount;
    var t := key + (": " + value);
    assert Setting(key, value) == "  " + t;
    TrimStartOfSpaces("  ", t);
    KeyStart(key, ": " + value);
  }

  /** A written line is found again under its own key and under no other. */
  lemma SettingMatches(key: string, value: string, other: string)
    requires IsKey(key) && IsKey(other)
    ensures Matches(Setting(key, value), other) <==> other == key
    ensures !Ends(Setting(key, value)) && Setting(key, value) != ""
  {
    hide Rest, IsKey, IsSpace;
    IsSpaceSpace();
    SettingRest(key, value);
    var t := key + (": " + value);
    assert t[..|key| + 1] == key + ":";
    KeysDiffer(key, other, t);
    assert Setting(key, value)[0] == ' ';
  }

  lemma IsSpaceSpace()
    ensures IsSpace(' ')
  {
  }

  lemma FirstColon(key: string, t: string)
    requires IsKey(key) && key + ":" <= t
    ensures key == t[..|key|] && t[|key|] == ':' && forall i :: 0 <= i < |key| ==> t[i] != ':'
  {
    assert t[..|key| + 1] == key + ":";
    forall i | 0 <= i < |key| ensures t[i] != ':' { assert t[i] == key[i] && IsKeyChar(key[i]); }
    assert t[|key|] == (key + ":")[|key|];
  }

  lemma KeysDiffer(key: string, other: string, t: string)
    requires IsKey(key) && IsKey(other) && key + ":" <= t
    ensures other + ":" <= t <==> other == key
  {
    hide IsKey;
    FirstColon(key, t);
    if other + ":" <= t { FirstColon(other, t); }
  }

  lemma OneKeyMatches(line: string, key: string, other: string)
    requires IsKey(key) && IsKey(other) && Matches(line, key)
    ensures Matches(line, other) <==> other == key
  {
    KeysDiffer(key, other, Rest(line));
  }

  lemma RestStartsBare(line: string)
    ensures SpaceCount(Rest(line)) == 0 && forall i :: 0 <= i < |Leading(line)| ==> IsSpace(Leading(line)[i])
  {
    hide IsSpace;
    SpaceCountIs(Rest(line), 0);
  }

  lemma HashLine(rest: string)
    requires SpaceCount(rest) == 0
    ensures SpaceCount("# " + rest) == 0 && SkipHash("# " + rest) == " " + rest && TrimStart(" " + rest) == rest
  {
    HashIsNoSpace();
    hide IsSpace, SpaceCount;
    assert ("# " + rest)[0] == '#';
    SpaceCountIs("# " + rest, 0);
    TrimStartOfSpaces(" ", rest);
  }

  lemma RestAfterHash(p: string, rest: string)
    requires SpaceCount(rest) == 0 && forall i :: 0 <= i < |p| ==> IsSpace(p[i])
    ensures SpaceCount(p + ("# " + rest)) == |p| && Rest(p + ("# " + rest)) == rest
    ensures TrimStart(p + ("# " + rest)) == "# " + rest
  {
    hide IsSpace, SpaceCount, SkipHash;
    HashLine(rest);
    TrimStartOfSpaces(p, "# " + rest);
    assert TrimStart("# " + rest) == "# " + rest;
  }

  lemma CommentedShape(line: string)
    ensures var r := Commented(line);
      Rest(r) == Rest(line) && Leading(r) == Leading(line) && TrimStart(r) == "# " + Rest(line)
    ensures Commented(line)[0] == '#' || IsSpace(Commented(line)[0])
  {
    hide IsSpace, SpaceCount, Rest, TrimStart;
    var (p, rest) := (Leading(line), Rest(line));
    RestStartsBare(line);
    RestAfterHash(p, rest);
    assert Commented(line) == p + ("# " + rest);
    assert p != "" ==> Commented(line)[0] == p[0];
    assert p == "" ==> Commented(line)[0] == '#';
  }

  /** Commenting out leaves a line that still matches its key, and does so only once. */
  lemma CommentedFacts(line: string)
    ensures Rest(Commented(line)) == Rest(line) && IsCommented(Commented(line)) && !Ends(Commented(line))
    ensures Commented(Commented(line)) == Commented(line) && Commented(line) != ""
  {
    hide IsSpace, SpaceCount, Rest, TrimStart, Leading;
    CommentedShape(line);
  }

  lemma HashIsNoSpace()
    ensures !IsSpace('#') && IsSpace(' ')
  {
  }

  // ----- the lines of a section -----

  predicate Found(body: seq<string>, key: string)
  {
    body != [] && !Ends(body[0]) && (Matches(body[0], key) || Found(body[1..], key))
  }

  /** The first line for the key within the section, edited. */
  function EditFirst(body: seq<string>, key: string, f: string -> string): (r: seq<string>)
    ensures |r| == |body|
  {
    if body == [] || Ends(body[0]) then body
    else if Matches(body[0], key) then [f(body[0])] + body[1..]
    else [body[0]] + EditFirst(body[1..], key, f)
  }

  lemma {:induction false} EditElements(body: seq<string>, key: string, f: string -> string)
    ensures var r := EditFirst(body, key, f); forall i :: 0 <= i < |r| ==> r[i] == body[i] || r[i] == f(body[i])
  {
    hide Matches, Ends;
    if body != [] && !Ends(body[0]) && !Matches(body[0], key) {
      EditElements(body[1..], key, f);
      var (r, t) := (EditFirst(body, key, f), EditFirst(body[1..], key, f));
      assert forall i :: 0 < i < |r| ==> r[i] == t[i - 1] && body[i] == body[1..][i - 1];
    }
  }

  /** The line that a reader of the section finds for a key: the first one that matches. */
  function First(body: seq<string>, key: string): Option<string>
  {
    if body == [] || Ends(body[0]) then None
    else if Matches(body[0], key) then Some(body[0])
    else First(body[1..], key)
  }

  function Always(line: string): string -> string { _ => line }

  function PutBody(body: seq<string>, key: string, line: string): seq<string>
  {
    if Found(body, key) then EditFirst(body, key, Always(line)) else [line] + body
  }

  /** An edit that keeps lines where a search finds them. */
  ghost predicate KeepsPlace(f: string -> string, key: string)
  {
    forall line :: Matches(line, key) ==> Matches(f(line), key) && !Ends(f(line)) && f(line) != ""
  }

  lemma {:induction false} EditTwice(body: seq<string>, key: string, f: string -> string, g: string -> string,
      h: string -> string)
    requires KeepsPlace(f, key) && forall x :: g(f(x)) == h(x)
    ensures Found(EditFirst(body, key, f), key) == Found(body, key)
    ensures EditFirst(EditFirst(body, key, f), key, g) == EditFirst(body, key, h)
  {
    hide Matches, Ends;
    if body != [] && !Ends(body[0]) {
      var r := EditFirst(body, key, f);
      if Matches(body[0], key) {
        assert r[0] == f(body[0]) && r[1..] == body[1..];
      } else {
        EditTwice(body[1..], key, f, g, h);
        assert r[0] == body[0] && r[1..] == EditFirst(body[1..], key, f);
      }
    }
  }

  lemma {:induction false} FirstAfterEdit(body: seq<string>, key: string, f: string -> string)
    requires KeepsPlace(f, key)
    ensures First(body, key).Some? <==> Found(body, key)
    ensures First(EditFirst(body, key, f), key) == if Found(body, key) then Some(f(First(body, key).value)) else None
  {
    hide Matches, Ends;
    if body != [] && !Ends(body[0]) && !Matches(body[0], key) {
      FirstAfterEdit(body[1..], key, f);
      assert EditFirst(body, key, f)[1..] == EditFirst(body[1..], key, f);
    }
  }

  lemma {:induction false} OtherAfterEdit(body: seq<string>, key: string, other: string, f: string -> string)
    requires KeepsPlace(f, key) && IsKey(key) && IsKey(other) && key != other
    ensures First(EditFirst(body, key, f), other) == First(body, other)
  {
    hide Matches, Ends, IsKey;
    if body != [] && !Ends(body[0]) {
      var r := EditFirst(body, key, f);
      if Matches(body[0], key) {
        OneKeyMatches(body[0], key, other);
        OneKeyMatches(f(body[0]), key, other);
        assert r[0] == f(body[0]) && r[1..] == body[1..];
      } else {
        OtherAfterEdit(body[1..], key, other, f);
        assert r[0] == body[0] && r[1..] == EditFirst(body[1..], key, f);
      }
    }
  }

  ghost predicate IsSetting(line: string, key: string)
  {
    Matches(line, key) && !Ends(line) && line != ""
  }

  /** Writing twice is writing the second line. */
  lemma PutTwice(body: seq<string>, key: string, a: string, b: string)
    requires IsSetting(a, key)
    ensures PutBody(PutBody(body, key, a), key, b) == PutBody(body, key, b)
  {
    hide Matches, Ends;
    if Found(body, key) {
      EditTwice(body, key, Always(a), Always(b), Always(b));
    } else {
      assert ([a] + body)[1..] == body;
    }
  }

  lemma PutIsFound(body: seq<string>, key: string, a: string)
    requires IsSetting(a, key)
    ensures First(PutBody(body, key, a), key) == Some(a)
  {
    hide Matches, Ends;
    FirstAfterEdit(body, key, Always(a));
  }

  lemma PutKeepsOthers(body: seq<string>, key: string, other: string, a: string)
    requires IsSetting(a, key) && IsKey(key) && IsKey(other) && key != other
    ensures First(PutBody(body, key, a), other) == First(body, other)
  {
    hide Matches, Ends, IsKey;
    if Found(body, key) {
      OtherAfterEdit(body, key, other, Always(a));
    } else {
      OneKeyMatches(a, key, other);
      assert ([a] + body)[1..] == body;
    }
  }

  /** Writing what is there changes nothing. */
  lemma {:induction false} PutSame(body: seq<string>, key: string, a: string)
    requires First(body, key) == Some(a)
    ensures PutBody(body, key, a) == body
  {
    hide Matches, Ends;
    if !Matches(body[0], key) {
      PutSame(body[1..], key, a);
    }
  }

  lemma {:induction false} EditSnoc(body: seq<string>, key: string, f: string -> string)
    ensures EditFirst(body + [""], key, f) == EditFirst(body, key, f) + [""]
    ensures IsKey(key) ==> (Found(body + [""], key) <==> Found(body, key))
    ensures IsKey(key) ==> First(body + [""], key) == First(body, key)
  {
    BlankLine(key);
    if body != [] {
      assert (body + [""])[1..] == body[1..] + [""];
      EditSnoc(body[1..], key, f);
    }
  }

  lemma BlankLine(key: string)
    ensures !Ends("") && !Matches("", key)
  {
    assert Rest("") == "";
  }

  /** Empty lines at the end do not matter to an edit. */
  lemma {:induction false} EditForgetsBlank(body: seq<string>, key: string, f: string -> string)
    requires KeepsPlace(f, key) && IsKey(key)
    ensures StripBlank(EditFirst(body, key, f)) == EditFirst(StripBlank(body), key, f)
    ensures Found(StripBlank(body), key) <==> Found(body, key)
    ensures First(StripBlank(body), key) == First(body, key)
  {
    hide EditFirst, Found, First, Matches, Ends, KeepsPlace, IsKey;
    if body != [] && body[|body| - 1] == "" {
      var pre := body[..|body| - 1];
      assert body == pre + [""];
      EditForgetsBlank(pre, key, f);
      EditSnoc(pre, key, f);
      assert EditFirst(body, key, f)[..|pre|] == EditFirst(pre, key, f);
    } else if body != [] {
      EditLast(body, key, f);
    }
  }

  lemma {:induction false} EditLast(body: seq<string>, key: string, f: string -> string)
    requires body != [] && body[|body| - 1] != "" && KeepsPlace(f, key)
    ensures EditFirst(body, key, f)[|body| - 1] != ""
  {
    hide Matches, Ends;
    if !Ends(body[0]) && !Matches(body[0], key) && |body| > 1 {
      EditLast(body[1..], key, f);
    }
  }

  lemma PutForgetsBlank(body: seq<string>, key: string, line: string)
    requires IsSetting(line, key) && IsKey(key)
    ensures StripBlank(PutBody(body, key, line)) == PutBody(StripBlank(body), key, line)
    ensures PutBody(body + [""], key, line) == PutBody(body, key, line) + [""]
  {
    hide Matches, Ends, EditFirst, Found, IsKey;
    EditForgetsBlank(body, key, Always(line));
    EditSnoc(body, key, Always(line));
    StripBlankConcat([line], body);
    assert StripBlank([line]) == [line];
  }

  // ----- the whole text -----

  function SectionIndex(lines: seq<string>): (i: nat)
    ensures i <= |lines| && forall j :: 0 <= j < i ==> !IsSection(lines[j])
    ensures i < |lines| ==> IsSection(lines[i])
  {
    hide IsSection;
    if lines == [] || IsSection(lines[0]) then 0 else 1 + SectionIndex(lines[1..])
  }

  ghost predicate NoSection(lines: seq<string>) { forall i :: 0 <= i < |lines| ==> !IsSection(lines[i]) }

  /** `upsertBlockProducerConfigValue` */
  function Upsert(content: string, key: string, value: string): string
  {
    var lines := Split(content);
    var s: nat := SectionIndex(lines);
    if s == |lines| then
      var prefix := TrimEnd(content);
      prefix + (if prefix != "" then "\n\n" else "") + "block_producer:\n  " + key + ": " + value + "\n"
    else
      StripBreaks(Join(lines[..s + 1] + PutBody(lines[s + 1..], key, Setting(key, value)))) + "\n"
  }

  /** `commentBlockProducerConfigValue` */
  function Comment(content: string, key: string): (string, bool)
  {
    var lines := Split(content);
    var s: nat := SectionIndex(lines);
    if s == |lines| then (content, false) else
      var first := First(lines[s + 1..], key);
      if first.None? then (content, false) else
        (StripBreaks(Join(lines[..s + 1] + EditFirst(lines[s + 1..], key, Commented))) + "\n",
          !IsCommented(first.value))
  }

  /** A text as the editor sees it: the lines before the section, its header, and the lines after. */
  datatype Parts = Parts(above: seq<string>, header: string, body: seq<string>)

  /** A text without a section is seen as having an empty one at its end. */
  function PartsOf(content: string): Parts
  {
    var lines := Split(content);
    var s: nat := SectionIndex(lines);
    if s < |lines| then Parts(lines[..s], lines[s], lines[s + 1..])
    else Parts(if TrimEnd(content) == "" then [] else RawSplit(TrimEnd(content)) + [""], "block_producer:", [])
  }

  /** The lines of a text that the editor has written. */
  function Written(p: Parts, body: seq<string>): seq<string>
  {
    p.above + [p.header] + StripBlank(body) + [""]
  }

  lemma HeaderIsSection()
    ensures IsSection("block_producer:")
  {
    var s := "block_producer:";
    assert !IsSpace(s[0]) && !IsSpace(s[|s| - 1]);
    assert SpaceCount(s) == 0;
    assert TrimStart(s) == s && TrimEnd(s) == s;
  }

  lemma SectionIsNotBlank()
    ensures !IsSection("")
  {
  }

  lemma SectionAt(lines: seq<string>, above: seq<string>, header: string, body: seq<string>)
    requires NoSection(above) && IsSection(header) && lines == above + [header] + body
    ensures SectionIndex(lines) == |above|
    ensures lines[..|above|] == above && lines[|above|] == header && lines[|above| + 1..] == body
  {
    hide IsSection;
    var s: nat := SectionIndex(lines);
    assert lines[|above|] == header;
    assert forall j :: 0 <= j < |above| ==> lines[j] == above[j];
  }

  // Trailing white space does not hide or make a section.

  lemma TrimSpace(line: string, c: char)
    requires IsSpace(c)
    ensures Trim(line + [c]) == Trim(line)
  {
    hide IsSpace;
    var n: nat := SpaceCount(line);
    if n == |line| {
      SpaceCountIs(line + [c], |line| + 1);
      assert TrimStart(line + [c]) == "" && TrimStart(line) == "";
    } else {
      SpaceCountIs(line + [c], n);
      assert TrimStart(line + [c]) == TrimStart(line) + [c];
      assert (TrimStart(line) + [c])[..|TrimStart(line)|] == TrimStart(line);
    }
  }

  lemma DropCrKeepsSection(line: string)
    ensures IsSection(DropCr(line)) <==> IsSection(line)
  {
    if EndsWith(line, '\r') {
      assert line == DropCr(line) + ['\r'];
      TrimSpace(DropCr(line), '\r');
    }
  }

  lemma {:induction false} DropCrsKeepSections(lines: seq<string>)
    ensures NoSection(DropCrs(lines)) <==> NoSection(lines)
  {
    hide IsSection, DropCr;
    if |lines| > 1 {
      DropCrKeepsSection(lines[0]);
      DropCrsKeepSections(lines[1..]);
      NoSectionCons(lines);
      NoSectionCons(DropCrs(lines));
      assert DropCrs(lines)[1..] == DropCrs(lines[1..]);
    }
  }

  lemma NoSectionCons(lines: seq<string>)
    requires lines != []
    ensures NoSection(lines) <==> !IsSection(lines[0]) && NoSection(lines[1..])
  {
    hide IsSection;
    if !NoSection(lines) {
      var i :| 0 <= i < |lines| && IsSection(lines[i]);
      assert i > 0 ==> lines[1..][i - 1] == lines[i];
    }
  }

  lemma RawSplitSnocLine(s: string, c: char)
    requires IsLine(s)
    ensures RawSplit(s) == [s]
    ensures RawSplit(s + [c]) == if c == '\n' then [s, ""] else [s + [c]]
  {
    hide RawSplit;
    RawSplitLine(s, "");
    RawSplitLine("", "");
    if c == '\n' {
      assert s + [c] == s + "\n" + "";
    } else {
      RawSplitLine(s + [c], "");
    }
  }

  function Snoc(r: seq<string>, c: char): seq<string>
    requires r != []
  {
    if c == '\n' then r + [""] else r[..|r| - 1] + [r[|r| - 1] + [c]]
  }

  lemma SnocCons(x: string, r: seq<string>, c: char)
    requires r != []
    ensures Snoc([x] + r, c) == [x] + Snoc(r, c)
  {
    assert ([x] + r)[..|[x] + r| - 1] == [x] + r[..|r| - 1];
  }

  lemma {:induction false} RawSplitSnoc(s: string, c: char)
    ensures RawSplit(s + [c]) == Snoc(RawSplit(s), c)
    decreases |s|
  {
    hide RawSplit, Snoc;
    var i: nat := Break(s);
    if i == |s| {
      RawSplitSnocLine(s, c);
      SnocOne(s, c);
    } else {
      var rest := s[i + 1..];
      RawSplitLine(s[..i], rest);
      RawSplitLine(s[..i], rest + [c]);
      assert s == s[..i] + "\n" + rest && s + [c] == s[..i] + "\n" + (rest + [c]);
      RawSplitSnoc(rest, c);
      SnocCons(s[..i], RawSplit(rest), c);
    }
  }

  lemma SnocOne(s: string, c: char)
    ensures Snoc([s], c) == if c == '\n' then [s, ""] else [s + [c]]
  {
  }

  lemma {:induction false} TrimEndKeepsSections(s: string)
    ensures NoSection(RawSplit(TrimEnd(s))) <==> NoSection(RawSplit(s))
  {
    if s != "" && IsSpace(s[|s| - 1]) {
      var (t, c) := (s[..|s| - 1], s[|s| - 1]);
      assert s == t + [c];
      TrimEndKeepsSections(t);
      RawSplitSnoc(t, c);
      SnocSections(RawSplit(t), c);
    }
  }

  lemma SnocSections(r: seq<string>, c: char)
    requires r != [] && IsSpace(c)
    ensures NoSection(Snoc(r, c)) <==> NoSection(r)
  {
    hide IsSection, IsSpace;
    SectionIsNotBlank();
    SectionSnoc(r, "");
    var (pre, last) := (r[..|r| - 1], r[|r| - 1]);
    assert r == pre + [last];
    SectionSnoc(pre, last);
    SectionSnoc(pre, last + [c]);
    SpaceKeepsSection(last, c);
  }

  lemma SpaceKeepsSection(line: string, c: char)
    requires IsSpace(c)
    ensures IsSection(line + [c]) <==> IsSection(line)
  {
    hide Trim, IsSpace;
    TrimSpace(line, c);
  }

  lemma SectionSnoc(pre: seq<string>, last: string)
    ensures NoSection(pre + [last]) <==> NoSection(pre) && !IsSection(last)
  {
    hide IsSection;
    var r := pre + [last];
    assert r[|pre|] == last;
    assert forall i :: 0 <= i < |pre| ==> r[i] == pre[i];
    if NoSection(r) {
      forall i | 0 <= i < |pre| ensures !IsSection(pre[i]) { assert r[i] == pre[i]; }
    }
  }

  lemma PartsAreProper(content: string)
    ensures var p := PartsOf(content);
      NoSection(p.above) && IsSection(p.header) && AreLines(p.above) && IsLine(p.header) && AreLines(p.body)
  {
    hide IsSection, IsSpace;
    HeaderIsSection();
    SectionIsNotBlank();
    SplitGivesLines(content);
    var lines := Split(content);
    if SectionIndex(lines) == |lines| {
      assert NoSection(lines);
      SplitIsDropCrs(content);
      DropCrsKeepSections(RawSplit(content));
      TrimEndKeepsSections(content);
      SplitGivesLines(TrimEnd(content));
      SectionSnoc(RawSplit(TrimEnd(content)), "");
    }
  }

  // ----- what the editor writes -----

  ghost predicate Proper(p: Parts)
  {
    NoSection(p.above) && IsSection(p.header) && AreLines(p.above) && IsLine(p.header) && AreLines(p.body)
  }

  lemma TextOfWritten(p: Parts, body: seq<string>)
    requires Proper(p) && AreLines(body)
    ensures StripBreaks(Join(p.above + [p.header] + body)) + "\n" == Join(Written(p, body))
  {
    hide IsSection, Join, StripBreaks;
    SectionIsNotBlank();
    var top := p.above + [p.header];
    StripBreaksIsStripBlank(top + body);
    StripBlankConcat(top, body);
    assert StripBlank(top) == top;
    var kept := top + StripBlank(body);
    assert StripBlank(top + body) == kept;
    JoinAppend(kept, [""]);
    JoinBlank();
  }

  lemma JoinBlank()
    ensures Join([""]) == ""
  {
  }

  lemma JoinTail(header: string, line: string)
    ensures Join([header, line, ""]) == header + "\n" + line + "\n"
  {
    JoinAppend([header], [line, ""]);
    JoinAppend([line], [""]);
    assert [header] + [line, ""] == [header, line, ""] && [line] + [""] == [line, ""];
    JoinBlank();
    assert Join([header]) == header && Join([line]) == line;
    hide Join;
    assert line + "\n" + "" == line + "\n";
    assert header + "\n" + (line + "\n") == header + "\n" + line + "\n";
  }

  lemma NewSectionText(prefix: string, header: string, line: string)
    ensures Join((if prefix == "" then [] else RawSplit(prefix) + [""]) + [header] + [line] + [""])
         == prefix + (if prefix != "" then "\n\n" else "") + header + "\n" + line + "\n"
  {
    hide RawSplit;
    var tail := [header, line, ""];
    JoinTail(header, line);
    if prefix == "" {
      assert [] + [header] + [line] + [""] == tail;
    } else {
      var above := RawSplit(prefix) + [""];
      JoinInvertsRawSplit(prefix);
      JoinAppend(RawSplit(prefix), [""]);
      JoinAppend(above, tail);
      assert above + [header] + [line] + [""] == above + tail;
    }
  }

  lemma ConcatIsLine(a: string, b: string)
    ensures IsLine(a + b) <==> IsLine(a) && IsLine(b)
  {
    assert forall i :: 0 <= i < |a| ==> (a + b)[i] == a[i];
    assert forall i :: 0 <= i < |b| ==> (a + b)[|a| + i] == b[i];
  }

  lemma SettingIsLine(key: string, value: string)
    requires IsKey(key) && IsLine(value)
    ensures IsLine(Setting(key, value)) && IsSetting(Setting(key, value), key)
  {
    hide Matches, Ends;
    SettingMatches(key, value, key);
    assert IsLine(key) by { assert forall i :: 0 <= i < |key| ==> IsKeyChar(key[i]); }
    assert IsLine("  ") && IsLine(": ");
    hide IsLine, IsKey;
    ConcatIsLine("  ", key);
    ConcatIsLine("  " + key, ": ");
    ConcatIsLine("  " + key + ": ", value);
  }

  lemma PutGivesLines(body: seq<string>, key: string, line: string)
    requires AreLines(body) && IsLine(line)
    ensures AreLines(PutBody(body, key, line))
  {
    hide EditFirst, Found;
    EditElements(body, key, Always(line));
  }

  lemma UpsertWithSection(content: string, key: string, value: string)
    requires IsKey(key) && IsLine(value) && SectionIndex(Split(content)) < |Split(content)|
    ensures var p := PartsOf(content);
      Upsert(content, key, value) == Join(Written(p, PutBody(p.body, key, Setting(key, value))))
  {
    hide IsSection, IsKey, IsLine, Split, Join, RawSplit, StripBreaks, StripBlank, TrimEnd, PutBody, Setting,
      IsSetting, Written;
    var (p, line) := (PartsOf(content), Setting(key, value));
    PartsAreProper(content);
    SettingIsLine(key, value);
    PutGivesLines(p.body, key, line);
    var lines := Split(content);
    assert lines[..SectionIndex(lines) + 1] == p.above + [p.header];
    TextOfWritten(p, PutBody(p.body, key, line));
  }

  lemma UpsertWithoutSection(content: string, key: string, value: string)
    requires IsKey(key) && IsLine(value) && SectionIndex(Split(content)) == |Split(content)|
    ensures var p := PartsOf(content);
      Upsert(content, key, value) == Join(Written(p, PutBody(p.body, key, Setting(key, value))))
  {
    hide IsSection, Split, Join, RawSplit, StripBreaks, TrimEnd, Found, EditFirst, SectionIndex, IsKey;
    var line := Setting(key, value);
    NotFoundInNothing(key);
    assert [line] + [] == [line];
    StripOne(line);
    NewSectionText(TrimEnd(content), "block_producer:", line);
    NewSectionSpelling(key, value);
    var above := if TrimEnd(content) == "" then [] else RawSplit(TrimEnd(content)) + [""];
    assert Written(PartsOf(content), [line]) == above + ["block_producer:"] + [line] + [""];
  }

  lemma StripOne(line: string)
    requires line != ""
    ensures StripBlank([line]) == [line]
  {
  }

  lemma NewSectionSpelling(key: string, value: string)
    ensures forall x: string :: (x + "block_producer:" + "\n" + Setting(key, value) + "\n"
      == x + "block_producer:\n  " + key + ": " + value + "\n")
  {
    forall x: string
      ensures (x + "block_producer:" + "\n" + Setting(key, value) + "\n"
        == x + "block_producer:\n  " + key + ": " + value + "\n")
    {
      assert "block_producer:" + ("\n" + "  ") == "block_producer:\n  ";
      assert x + "block_producer:" + "\n" + Setting(key, value) + "\n"
        == x + ("block_producer:" + ("\n" + "  ")) + key + ": " + value + "\n";
    }
  }

  /** Writing a key puts its line into the section and leaves every other line. */
  lemma UpsertIsWritten(content: string, key: string, value: string)
    requires IsKey(key) && IsLine(value)
    ensures var p := PartsOf(content);
      Upsert(content, key, value) == Join(Written(p, PutBody(p.body, key, Setting(key, value))))
  {
    hide PartsOf, Upsert, IsKey, IsLine, Join, Written;
    if SectionIndex(Split(content)) < |Split(content)| {
      UpsertWithSection(content, key, value);
    } else {
      UpsertWithoutSection(content, key, value);
    }
  }

  lemma NotFoundInNothing(key: string)
    ensures !Found([], key)
  {
  }

  /** Commenting out edits one line and leaves every other line. */
  lemma CommentIsWritten(content: string, key: string)
    ensures var p := PartsOf(content);
      Comment(content, key).0 ==
        if First(p.body, key).None? then content else Join(Written(p, EditFirst(p.body, key, Commented)))
  {
    hide IsSection, Join, RawSplit, StripBreaks, TrimEnd;
    var p := PartsOf(content);
    PartsAreProper(content);
    var lines := Split(content);
    var s: nat := SectionIndex(lines);
    if s < |lines| && First(p.body, key).Some? {
      assert lines[..s + 1] == p.above + [p.header];
      forall i | 0 <= i < |p.body| ensures IsLine(Commented(p.body[i])) { CommentedIsLine(p.body[i]); }
      EditElements(p.body, key, Commented);
      TextOfWritten(p, EditFirst(p.body, key, Commented));
    }
  }

  lemma CommentedIsLine(line: string)
    requires IsLine(line)
    ensures IsLine(Commented(line))
    ensures EndsWith(Commented(line), '\r') ==> EndsWith(line, '\r')
  {
    hide IsSpace, SpaceCount;
    var t := TrimStart(line);
    assert IsLine(t) && IsLine(SkipHash(t)) && IsLine(Rest(line));
  }

  /** Written lines without carriage returns at their ends are read back as they are. */
  lemma WrittenSplits(p: Parts, body: seq<string>)
    requires Proper(p) && AreLines(body) && NoCrs(Written(p, body))
    ensures PartsOf(Join(Written(p, body))) == p.(body := StripBlank(body) + [""])
  {
    hide IsSection, Join, RawSplit, Split, StripBlank;
    var w := Written(p, body);
    StripBlankGivesLines(body);
    RawSplitInvertsJoin(w);
    SplitIsDropCrs(Join(w));
    DropCrsShrinks(w);
    assert w == p.above + [p.header] + (StripBlank(body) + [""]);
    SectionAt(w, p.above, p.header, StripBlank(body) + [""]);
  }

  lemma StripBlankSnoc(lines: seq<string>)
    ensures StripBlank(lines + [""]) == StripBlank(lines)
  {
    StripBlankConcat(lines, [""]);
    assert StripBlank([""]) == StripBlank([]) == [];
  }

  lemma PutOnWritten(p: Parts, body: seq<string>, key: string, line: string)
    requires IsSetting(line, key) && IsKey(key)
    ensures Written(p, PutBody(StripBlank(body) + [""], key, line)) == Written(p, PutBody(body, key, line))
  {
    hide StripBlank, PutBody, IsSetting, IsKey;
    var x := StripBlank(body);
    PutForgetsBlank(x, key, line);
    StripBlankSnoc(PutBody(x, key, line));
    PutForgetsBlank(body, key, line);
    StripBlankTwice(PutBody(body, key, line));
  }

  // ----- the lines, told by the source's patterns -----

  ghost predicate Blank(s: string) { forall i :: 0 <= i < |s| ==> IsSpace(s[i]) }

  /** What `^\s*#?\s*key:` matches. */
  ghost predicate IsFor(line: string, key: string)
  {
    exists a, mark, b, rest :: IsMarked(line, a, mark, b, key + ":" + rest)
  }

  /** White space, perhaps a `#`, white space, and the rest. */
  ghost predicate IsMarked(line: string, a: string, mark: string, b: string, rest: string)
  {
    Blank(a) && mark in ["", "#"] && Blank(b) && line == a + (mark + (b + rest))
  }

  lemma StartOf(s: string)
    ensures Blank(Leading(s)) && s == Leading(s) + TrimStart(s)
  {
  }

  /** The rest begins with neither white space nor `#`. */
  ghost predicate Bare(rest: string) { rest != "" && !IsSpace(rest[0]) && rest[0] != '#' }

  lemma RestOfPlain(a: string, rest: string)
    requires Blank(a) && Bare(rest)
    ensures TrimStart(a + rest) == rest && Leading(a + rest) == a && SkipHash(rest) == rest && TrimStart(rest) == rest
  {
    hide IsSpace, SpaceCount;
    SpaceCountIs(rest, 0);
    TrimStartOfSpaces(a, rest);
    assert (a + rest)[..|a|] == a;
  }

  lemma RestOfHash(a: string, b: string, rest: string)
    requires Blank(a) && Blank(b) && Bare(rest)
    ensures var t := "#" + (b + rest);
      TrimStart(a + t) == t && Leading(a + t) == a && SkipHash(t) == b + rest && TrimStart(b + rest) == rest
  {
    HashIsNoSpace();
    hide IsSpace, SpaceCount;
    var t := "#" + (b + rest);
    assert t[0] == '#' && t[1..] == b + rest;
    SpaceCountIs(rest, 0);
    TrimStartOfSpaces(b, rest);
    SpaceCountIs(t, 0);
    TrimStartOfSpaces(a, t);
    assert (a + t)[..|a|] == a;
  }

  lemma RestOfMarked(line: string, a: string, mark: string, b: string, rest: string)
    requires IsMarked(line, a, mark, b, rest) && Bare(rest)
    ensures Rest(line) == rest && Leading(line) == (if mark == "" then a + b else a)
    ensures IsCommented(line) <==> mark == "#"
  {
    hide IsSpace, Leading, TrimStart, SkipHash;
    if mark == "" {
      assert Blank(a + b) && line == (a + b) + rest;
      RestOfPlain(a + b, rest);
    } else {
      assert line == a + ("#" + (b + rest));
      RestOfHash(a, b, rest);
      assert ("#" + (b + rest))[0] == '#';
    }
  }

  lemma KeyIsBare(key: string, rest: string)
    requires IsKey(key)
    ensures Bare(key + ":" + rest)
  {
    KeyStart(key, ":");
    assert (key + ":" + rest)[0] == key[0];
  }

  lemma MarkedRest(line: string)
    ensures exists a, mark, b :: IsMarked(line, a, mark, b, Rest(line))
  {
    StartOf(line);
    var t := TrimStart(line);
    var u := SkipHash(t);
    StartOf(u);
    hide IsSpace, Leading, TrimStart;
    var mark := if t != "" && t[0] == '#' then "#" else "";
    assert t == mark + u;
    assert IsMarked(line, Leading(line), mark, Leading(u), Rest(line));
  }

  /** A line is for a key when the source's pattern says so. */
  lemma MatchesIff(line: string, key: string)
    requires IsKey(key)
    ensures Matches(line, key) <==> IsFor(line, key)
  {
    hide Rest, IsMarked, IsSpace, IsKey, Bare, Leading, IsCommented;
    var want := key + ":";
    if Matches(line, key) {
      MarkedRest(line);
      var a, mark, b :| IsMarked(line, a, mark, b, Rest(line));
      assert Rest(line) == want + Rest(line)[|want|..];
    }
    if IsFor(line, key) {
      var a, mark, b, rest :| IsMarked(line, a, mark, b, want + rest);
      KeyIsBare(key, rest);
      RestOfMarked(line, a, mark, b, want + rest);
      assert (want + rest)[..|want|] == want;
    }
  }

  /** The replacement of `^(\s*)#?\s*` by `$1# `, on the lines where it is made. */
  lemma CommentedIs(line: string, a: string, mark: string, b: string, key: string, rest: string)
    requires IsKey(key) && IsMarked(line, a, mark, b, key + ":" + rest)
    ensures Commented(line) == (if mark == "" then a + b else a) + "# " + (key + ":" + rest)
    ensures IsCommented(line) <==> mark == "#"
  {
    hide Rest, IsMarked, IsSpace, Leading, IsCommented, IsKey, Bare;
    KeyIsBare(key, rest);
    RestOfMarked(line, a, mark, b, key + ":" + rest);
  }

  lemma TrimEndIs(s: string, b: string)
    requires Blank(b) && (s != "" ==> !IsSpace(s[|s| - 1]))
    ensures TrimEnd(s + b) == s
  {
    hide IsSpace;
    if b == "" {
      assert s + b == s;
    } else {
      assert (s + b)[..|s + b| - 1] == s + b[..|b| - 1];
      TrimEndIs(s, b[..|b| - 1]);
    }
  }

  lemma EndOf(s: string)
    ensures Blank(s[|TrimEnd(s)|..])
  {
    hide IsSpace;
    if s != "" && IsSpace(s[|s| - 1]) { EndOf(s[..|s| - 1]); }
  }

  /** The header, as `trim` finds it. */
  lemma SectionIff(line: string)
    ensures IsSection(line) <==> exists a, b :: Blank(a) && Blank(b) && line == a + ("block_producer:" + b)
  {
    if IsSection(line) {
      StartOf(line);
      var t := TrimStart(line);
      EndOf(t);
      hide *;
      assert t == TrimEnd(t) + t[|TrimEnd(t)|..];
    }
    forall a, b | Blank(a) && Blank(b) && line == a + ("block_producer:" + b) ensures IsSection(line) {
      SectionHasIt(a, b);
    }
  }

  lemma SectionHasIt(a: string, b: string)
    requires Blank(a) && Blank(b)
    ensures IsSection(a + ("block_producer:" + b))
  {
    var (name, t) := ("block_producer:", "block_producer:" + b);
    assert t[0] == 'b' && !IsSpace('b') && name[|name| - 1] == ':' && !IsSpace(':');
    hide IsSpace;
    SpaceCountIs(t, 0);
    TrimStartOfSpaces(a, t);
    TrimEndIs(name, b);
  }

  /** Lines up to i are in the section: each is empty or begins with white space or `#`. */
  ghost predicate InSection(body: seq<string>, i: nat)
  {
    i < |body| && forall j :: 0 <= j <= i ==> body[j] == "" || IsSpace(body[j][0]) || body[j][0] == '#'
  }

  /** Line i is the first of the section that is for the key. */
  ghost predicate IsFirstFor(body: seq<string>, key: string, i: nat)
  {
    InSection(body, i) && IsFor(body[i], key) && forall j :: 0 <= j < i ==> !IsFor(body[j], key)
  }

  lemma {:induction false} FoundIndex(body: seq<string>, key: string) returns (i: nat)
    requires Found(body, key)
    ensures i < |body| && Matches(body[i], key) && forall j :: 0 <= j <= i ==> !Ends(body[j])
    ensures forall j :: 0 <= j < i ==> !Matches(body[j], key)
  {
    hide Matches, Ends;
    i := 0;
    if !Matches(body[0], key) {
      var k := FoundIndex(body[1..], key);
      i := k + 1;
    }
  }

  lemma FirstForIff(body: seq<string>, key: string, i: nat)
    requires IsKey(key) && i < |body|
    ensures IsFirstFor(body, key, i) <==>
      && Matches(body[i], key) && (forall j :: 0 <= j <= i ==> !Ends(body[j]))
      && forall j :: 0 <= j < i ==> !Matches(body[j], key)
  {
    hide Matches, IsFor, IsKey, IsSpace;
    forall j | 0 <= j <= i ensures Matches(body[j], key) <==> IsFor(body[j], key) { MatchesIff(body[j], key); }
  }

  /** Writing a key replaces the first line of the section that is for it; if there is none, the line is added at
      the start. */
  lemma PutIs(body: seq<string>, key: string, line: string)
    requires IsKey(key)
    ensures forall i: nat :: IsFirstFor(body, key, i) ==> i < |body| && PutBody(body, key, line) == body[i := line]
    ensures (forall i: nat :: !IsFirstFor(body, key, i)) ==> PutBody(body, key, line) == [line] + body
  {
    hide IsFirstFor, Found, EditFirst, IsKey, Matches, Ends;
    forall i: nat | IsFirstFor(body, key, i) ensures i < |body| && PutBody(body, key, line) == body[i := line] {
      FirstForInside(body, key, i);
      FirstForIff(body, key, i);
      FoundAt(body, key, Always(line), i);
    }
    if Found(body, key) {
      var i := FoundIndex(body, key);
      FirstForIff(body, key, i);
    }
  }

  lemma FirstForInside(body: seq<string>, key: string, i: nat)
    requires IsFirstFor(body, key, i)
    ensures i < |body|
  {
  }

  /** Commenting a key out replaces that line by its comment; what is found for a key is that line. */
  lemma FirstIs(body: seq<string>, key: string)
    requires IsKey(key)
    ensures forall i: nat :: IsFirstFor(body, key, i) ==>
      i < |body| && First(body, key) == Some(body[i])
      && EditFirst(body, key, Commented) == body[i := Commented(body[i])]
    ensures (forall i: nat :: !IsFirstFor(body, key, i)) ==> First(body, key).None?
  {
    hide IsFirstFor, Found, EditFirst, IsKey, Matches, Ends, Commented, First;
    forall i: nat | IsFirstFor(body, key, i)
      ensures i < |body| && First(body, key) == Some(body[i])
        && EditFirst(body, key, Commented) == body[i := Commented(body[i])]
    {
      FirstForInside(body, key, i);
      FirstForIff(body, key, i);
      FoundAt(body, key, Commented, i);
    }
    if Found(body, key) {
      var i := FoundIndex(body, key);
      FirstForIff(body, key, i);
    } else {
      CommentedKeepsPlace(key);
      FirstAfterEdit(body, key, Commented);
    }
  }

  // ----- the laws -----

  ghost predicate NoneEndsInCr(lines: seq<string>) { forall i :: 0 <= i < |lines| ==> !EndsWith(lines[i], '\r') }

  /** No line that the editor keeps ends in a carriage return. True of any text without carriage returns,
      and of a text with CRLF line ends that has the section. */
  ghost predicate Tidy(content: string)
  {
    var p := PartsOf(content);
    NoneEndsInCr(p.above) && !EndsWith(p.header, '\r') && NoneEndsInCr(p.body)
  }

  lemma {:induction false} StripBlankKeepsEnds(lines: seq<string>)
    ensures NoneEndsInCr(StripBlank(lines)) <==> NoneEndsInCr(lines)
  {
    if lines != [] && lines[|lines| - 1] == "" {
      StripBlankKeepsEnds(lines[..|lines| - 1]);
      assert lines == lines[..|lines| - 1] + [""];
      assert forall i :: 0 <= i < |lines| - 1 ==> lines[i] == lines[..|lines| - 1][i];
    }
  }

  /** Which written texts have no carriage return before a line break. */
  lemma WrittenNoCrs(p: Parts, body: seq<string>)
    ensures NoCrs(Written(p, body)) <==> NoneEndsInCr(p.above) && !EndsWith(p.header, '\r') && NoneEndsInCr(body)
  {
    hide StripBlank, EndsWith;
    StripBlankKeepsEnds(body);
    var b := StripBlank(body);
    var w := Written(p, body);
    assert forall i :: 0 <= i < |p.above| ==> w[i] == p.above[i];
    assert w[|p.above|] == p.header;
    assert forall i :: 0 <= i < |b| ==> w[|p.above| + 1 + i] == b[i];
    if NoCrs(w) {
      forall i | 0 <= i < |p.above| ensures !EndsWith(p.above[i], '\r') { assert !EndsWith(w[i], '\r'); }
      forall i | 0 <= i < |b| ensures !EndsWith(b[i], '\r') { assert !EndsWith(w[|p.above| + 1 + i], '\r'); }
    }
    forall i | 0 <= i < |w| - 1
      ensures w[i] == if i < |p.above| then p.above[i] else if i == |p.above| then p.header else b[i - |p.above| - 1]
    {
    }
  }

  /** Line i is the one that a write of the key replaces. */
  ghost predicate IsReplaced(body: seq<string>, key: string, i: nat)
  {
    && i < |body| && Matches(body[i], key) && (forall j :: 0 <= j <= i ==> !Ends(body[j]))
    && forall j :: 0 <= j < i ==> !Matches(body[j], key)
  }

  ghost predicate OnlyReplacedEndsInCr(body: seq<string>, key: string)
  {
    forall i :: 0 <= i < |body| && EndsWith(body[i], '\r') ==> IsReplaced(body, key, i)
  }

  /** No line ends in a carriage return but the one that a write of the key replaces. */
  ghost predicate KeepsNoCr(content: string, key: string)
  {
    var p := PartsOf(content);
    NoneEndsInCr(p.above) && !EndsWith(p.header, '\r') && OnlyReplacedEndsInCr(p.body, key)
  }

  lemma TidyKeepsNoCr(content: string, key: string)
    requires Tidy(content)
    ensures KeepsNoCr(content, key)
  {
    hide PartsOf, EndsWith;
  }

  lemma ReplacedTail(body: seq<string>, key: string)
    requires body != [] && !Ends(body[0]) && !Matches(body[0], key)
    ensures forall i :: 0 <= i < |body| - 1 ==> (IsReplaced(body, key, i + 1) <==> IsReplaced(body[1..], key, i))
    ensures !IsReplaced(body, key, 0)
  {
    hide Matches, Ends;
    var t := body[1..];
    assert forall j :: 0 <= j < |t| ==> t[j] == body[j + 1];
    forall i | 0 <= i < |t| ensures IsReplaced(body, key, i + 1) <==> IsReplaced(t, key, i) {
      assert forall j :: 0 < j < |body| ==> body[j] == t[j - 1];
    }
  }

  lemma OnlyReplacedTail(body: seq<string>, key: string)
    requires body != [] && !Ends(body[0]) && !Matches(body[0], key)
    ensures OnlyReplacedEndsInCr(body, key) <==> !EndsWith(body[0], '\r') && OnlyReplacedEndsInCr(body[1..], key)
  {
    hide Matches, Ends, IsReplaced, EndsWith;
    ReplacedTail(body, key);
    var t := body[1..];
    assert forall i :: 0 <= i < |t| ==> t[i] == body[i + 1];
    if EndsWith(body[0], '\r') {
      assert !IsReplaced(body, key, 0);
    } else if OnlyReplacedEndsInCr(t, key) {
      forall i | 0 <= i < |body| && EndsWith(body[i], '\r') ensures IsReplaced(body, key, i) {
        assert t[i - 1] == body[i];
      }
    } else {
      var i :| 0 <= i < |t| && EndsWith(t[i], '\r') && !IsReplaced(t, key, i);
      assert EndsWith(body[i + 1], '\r') && !IsReplaced(body, key, i + 1);
    }
  }

  lemma NoneEndsCons(x: string, t: seq<string>)
    ensures NoneEndsInCr([x] + t) <==> !EndsWith(x, '\r') && NoneEndsInCr(t)
  {
    var r := [x] + t;
    assert r[0] == x && forall i :: 0 <= i < |t| ==> r[i + 1] == t[i];
    if NoneEndsInCr(r) {
      forall i | 0 <= i < |t| ensures !EndsWith(t[i], '\r') { assert !EndsWith(r[i + 1], '\r'); }
    }
  }

  lemma FirstMatchOnly(body: seq<string>, key: string)
    requires body != [] && !Ends(body[0]) && Matches(body[0], key)
    ensures OnlyReplacedEndsInCr(body, key) <==> NoneEndsInCr(body[1..])
  {
    hide Matches, Ends, EndsWith;
    var t := body[1..];
    assert forall i :: 0 <= i < |t| ==> t[i] == body[i + 1];
    assert IsReplaced(body, key, 0);
    assert forall i :: 0 < i < |body| ==> !IsReplaced(body, key, i);
    if NoneEndsInCr(t) {
      assert forall i :: 0 < i < |body| ==> body[i] == t[i - 1];
      assert forall i :: 0 < i < |body| ==> !EndsWith(body[i], '\r');
    }
    if OnlyReplacedEndsInCr(body, key) {
      forall i | 0 <= i < |t| ensures !EndsWith(t[i], '\r') { assert !IsReplaced(body, key, i + 1); }
    }
  }

  lemma {:induction false} EditEndsInNoCr(body: seq<string>, key: string, line: string)
    requires !EndsWith(line, '\r') && Found(body, key)
    ensures NoneEndsInCr(EditFirst(body, key, Always(line))) <==> OnlyReplacedEndsInCr(body, key)
  {
    hide Matches, Ends, EndsWith, OnlyReplacedEndsInCr, NoneEndsInCr;
    if Matches(body[0], key) {
      FirstMatchOnly(body, key);
      NoneEndsCons(line, body[1..]);
    } else {
      EditEndsInNoCr(body[1..], key, line);
      OnlyReplacedTail(body, key);
      NoneEndsCons(body[0], EditFirst(body[1..], key, Always(line)));
    }
  }

  lemma {:induction false} ReplacedIsFound(body: seq<string>, key: string, i: nat)
    requires IsReplaced(body, key, i)
    ensures Found(body, key)
  {
    hide Matches, Ends;
    FoundAt(body, key, Always(""), i);
  }

  /** A write of the key leaves no line that ends in a carriage return exactly when only the line it replaces
      did. */
  lemma PutEndsInNoCr(body: seq<string>, key: string, line: string)
    requires !EndsWith(line, '\r')
    ensures NoneEndsInCr(PutBody(body, key, line)) <==> OnlyReplacedEndsInCr(body, key)
  {
    hide Found, EditFirst, EndsWith, IsReplaced;
    if Found(body, key) {
      EditEndsInNoCr(body, key, line);
    } else {
      NoneEndsCons(line, body);
      forall i: nat | IsReplaced(body, key, i) ensures false { ReplacedIsFound(body, key, i); }
    }
  }

  lemma PutNoCrs(content: string, key: string, value: string)
    requires !EndsWith(value, '\r')
    ensures var p := PartsOf(content);
      NoCrs(Written(p, PutBody(p.body, key, Setting(key, value)))) <==> KeepsNoCr(content, key)
  {
    hide PartsOf, PutBody, NoCrs, Written, NoneEndsInCr, OnlyReplacedEndsInCr;
    var p := PartsOf(content);
    assert !EndsWith(Setting(key, value), '\r');
    WrittenNoCrs(p, PutBody(p.body, key, Setting(key, value)));
    PutEndsInNoCr(p.body, key, Setting(key, value));
  }

  /** What the editor reads from a text that it has written. */
  lemma PartsAfterUpsert(content: string, key: string, value: string)
    requires KeepsNoCr(content, key) && IsKey(key) && IsLine(value) && !EndsWith(value, '\r')
    ensures var p := PartsOf(content);
      PartsOf(Upsert(content, key, value)) == p.(body := StripBlank(PutBody(p.body, key, Setting(key, value))) + [""])
  {
    hide PartsOf, IsKey, IsLine, PutBody, Tidy, Written, IsSection, StripBlank, Join, NoCrs, KeepsNoCr;
    var (p, line) := (PartsOf(content), Setting(key, value));
    PartsAreProper(content);
    SettingIsLine(key, value);
    PutGivesLines(p.body, key, line);
    PutNoCrs(content, key, value);
    UpsertIsWritten(content, key, value);
    WrittenSplits(p, PutBody(p.body, key, line));
  }

  /** The last write wins; with the same value, writing twice is writing once. */
  lemma LastWriteWins(content: string, key: string, first: string, last: string)
    requires KeepsNoCr(content, key) && IsKey(key) && IsLine(first) && !EndsWith(first, '\r') && IsLine(last)
    ensures Upsert(Upsert(content, key, first), key, last) == Upsert(content, key, last)
  {
    hide PartsOf, IsKey, IsLine, PutBody, Tidy, Written, StripBlank, Join, Setting, IsSetting, KeepsNoCr;
    var (p, a, b) := (PartsOf(content), Setting(key, first), Setting(key, last));
    SettingIsLine(key, first);
    SettingIsLine(key, last);
    PartsAfterUpsert(content, key, first);
    UpsertIsWritten(Upsert(content, key, first), key, last);
    PutOnWritten(p, PutBody(p.body, key, a), key, b);
    WrittenIgnoresBody(p, StripBlank(PutBody(p.body, key, a)) + [""],
      PutBody(StripBlank(PutBody(p.body, key, a)) + [""], key, b));
    PutTwice(p.body, key, a, b);
    UpsertIsWritten(content, key, last);
  }

  lemma WrittenIgnoresBody(p: Parts, other: seq<string>, body: seq<string>)
    ensures Written(p.(body := other), body) == Written(p, body)
  {
  }

  /** The line that a reader of the section finds for a key. */
  function Lookup(content: string, key: string): Option<string> { First(PartsOf(content).body, key) }

  lemma FirstForgetsBlank(body: seq<string>, key: string)
    requires IsKey(key)
    ensures First(StripBlank(body) + [""], key) == First(body, key)
  {
    hide First, StripBlank;
    CommentedKeepsPlace(key);
    EditForgetsBlank(body, key, Commented);
    EditSnoc(StripBlank(body), key, Commented);
  }

  lemma CommentedKeepsPlace(key: string)
    ensures KeepsPlace(Commented, key)
  {
    forall line | Matches(line, key)
      ensures Matches(Commented(line), key) && !Ends(Commented(line)) && Commented(line) != ""
    {
      CommentedFacts(line);
    }
  }

  lemma PartsAfterComment(content: string, key: string)
    requires Tidy(content) && First(PartsOf(content).body, key).Some?
    ensures var p := PartsOf(content);
      PartsOf(Comment(content, key).0) == p.(body := StripBlank(EditFirst(p.body, key, Commented)) + [""])
  {
    hide PartsOf, Join, IsSection, First, StripBlank, Comment, IsLine, Commented;
    var p := PartsOf(content);
    var body := EditFirst(p.body, key, Commented);
    PartsAreProper(content);
    EditElements(p.body, key, Commented);
    forall i | 0 <= i < |body| ensures IsLine(body[i]) && !EndsWith(body[i], '\r') { CommentedIsLine(p.body[i]); }
    WrittenNoCrs(p, body);
    CommentIsWritten(content, key);
    WrittenSplits(p, body);
  }

  lemma PutAfterComment(body: seq<string>, key: string, line: string)
    requires First(body, key).Some?
    ensures PutBody(EditFirst(body, key, Commented), key, line) == PutBody(body, key, line)
  {
    hide EditFirst, First, Found, Commented;
    CommentedKeepsPlace(key);
    FirstAfterEdit(body, key, Commented);
    EditTwice(body, key, Commented, Always(line), Always(line));
  }

  /** Commenting a key out does not matter to a later write; so write, comment out and write again
      restores the first text. */
  lemma CommentThenUpsert(content: string, key: string, value: string)
    requires Tidy(content) && IsKey(key) && IsLine(value)
    ensures Upsert(Comment(content, key).0, key, value) == Upsert(content, key, value)
  {
    hide PartsOf, IsKey, IsLine, Tidy, Written, StripBlank, Join, Setting, IsSetting, Comment, EditFirst, Upsert,
      First, Found, PutBody;
    var (p, line) := (PartsOf(content), Setting(key, value));
    CommentIsWritten(content, key);
    if First(p.body, key).Some? {
      var e := EditFirst(p.body, key, Commented);
      SettingIsLine(key, value);
      PartsAfterComment(content, key);
      UpsertIsWritten(Comment(content, key).0, key, value);
      WrittenIgnoresBody(p, StripBlank(e) + [""], PutBody(StripBlank(e) + [""], key, line));
      PutOnWritten(p, e, key, line);
      PutAfterComment(p.body, key, line);
      UpsertIsWritten(content, key, value);
    }
  }

  lemma WrittenEndsInNoCr(content: string, key: string, value: string)
    requires KeepsNoCr(content, key) && !EndsWith(value, '\r')
    ensures NoneEndsInCr(StripBlank(PutBody(PartsOf(content).body, key, Setting(key, value))) + [""])
  {
    hide PartsOf, PutBody, OnlyReplacedEndsInCr;
    var put := PutBody(PartsOf(content).body, key, Setting(key, value));
    assert !EndsWith(Setting(key, value), '\r');
    PutEndsInNoCr(PartsOf(content).body, key, Setting(key, value));
    StripBlankKeepsEnds(put);
  }

  lemma TidyAfterUpsert(content: string, key: string, value: string)
    requires KeepsNoCr(content, key) && IsKey(key) && IsLine(value) && !EndsWith(value, '\r')
    ensures Tidy(Upsert(content, key, value))
  {
    hide PartsOf, IsKey, IsLine, StripBlank, PutBody, EndsWith, Setting, Upsert;
    var p := PartsOf(content);
    PartsAfterUpsert(content, key, value);
    WrittenEndsInNoCr(content, key, value);
  }

  /** Write, comment out, write again. */
  lemma UpsertCommentUpsert(content: string, key: string, value: string)
    requires KeepsNoCr(content, key) && IsKey(key) && IsLine(value) && !EndsWith(value, '\r')
    ensures var r := Upsert(content, key, value); Upsert(Comment(r, key).0, key, value) == r
  {
    hide Tidy, Upsert, Comment, IsKey, IsLine, KeepsNoCr;
    TidyAfterUpsert(content, key, value);
    CommentThenUpsert(Upsert(content, key, value), key, value);
    LastWriteWins(content, key, value, value);
  }

  lemma EditCommented(body: seq<string>, key: string)
    ensures EditFirst(EditFirst(body, key, Commented), key, Commented) == EditFirst(body, key, Commented)
  {
    hide EditFirst, Commented;
    CommentedKeepsPlace(key);
    forall x ensures Commented(Commented(x)) == Commented(x) { CommentedFacts(x); }
    EditTwice(body, key, Commented, Commented, Commented);
  }

  /** What is found for a key after it has been commented out: its line, as a comment. */
  lemma LookupAfterComment(content: string, key: string)
    requires Tidy(content) && IsKey(key)
    ensures var x := Lookup(content, key);
      Lookup(Comment(content, key).0, key) == if x.None? then None else Some(Commented(x.value))
  {
    hide PartsOf, IsKey, Tidy, Written, StripBlank, Join, Comment, EditFirst, First, Found, Commented;
    var p := PartsOf(content);
    CommentIsWritten(content, key);
    if First(p.body, key).Some? {
      PartsAfterComment(content, key);
      CommentedKeepsPlace(key);
      FirstAfterEdit(p.body, key, Commented);
      FirstForgetsBlank(EditFirst(p.body, key, Commented), key);
    }
  }

  /** Commenting out again changes nothing, and says so. */
  lemma CommentTwice(content: string, key: string)
    requires Tidy(content) && IsKey(key) && Lookup(content, key).Some?
    ensures Comment(Comment(content, key).0, key) == (Comment(content, key).0, false)
  {
    hide PartsOf, IsKey, Tidy, Written, StripBlank, Join, Comment, EditFirst, First, Found, Commented;
    var p := PartsOf(content);
    var e := EditFirst(p.body, key, Commented);
    var r := Comment(content, key).0;
    CommentIsWritten(content, key);
    LookupAfterComment(content, key);
    PartsAfterComment(content, key);
    CommentIsWritten(r, key);
    CommentedOnWritten(p, e, key);
    WrittenIgnoresBody(p, StripBlank(e) + [""], EditFirst(StripBlank(e) + [""], key, Commented));
    EditCommented(p.body, key);
    CommentedFacts(First(p.body, key).value);
    CommentFlag(r, key);
  }

  lemma CommentFlag(content: string, key: string)
    ensures Comment(content, key).1 <==> Lookup(content, key).Some? && !IsCommented(Lookup(content, key).value)
  {
    hide Join, StripBreaks, TrimEnd, IsCommented;
  }

  lemma CommentedOnWritten(p: Parts, body: seq<string>, key: string)
    requires IsKey(key)
    ensures Written(p, EditFirst(StripBlank(body) + [""], key, Commented)) ==
      Written(p, EditFirst(body, key, Commented))
  {
    hide StripBlank, EditFirst, IsKey, Commented, Found, First;
    var x := StripBlank(body);
    CommentedKeepsPlace(key);
    EditSnoc(x, key, Commented);
    StripBlankSnoc(EditFirst(x, key, Commented));
    EditForgetsBlank(body, key, Commented);
    StripBlankTwice(EditFirst(body, key, Commented));
  }

  // ----- carriage returns -----

  lemma RestSnoc(y: string, c: char)
    requires IsSpace(c)
    ensures Rest(y + [c]) == Rest(y) + [c] || (Rest(y + [c]) == "" && Rest(y) == "")
  {
    hide IsSpace, SpaceCount;
    TrimStartSnoc(y, c);
    HashIsNoSpace();
    var t := TrimStart(y);
    if t != "" {
      assert SkipHash(t + [c]) == SkipHash(t) + [c];
      TrimStartSnoc(SkipHash(t), c);
    }
  }

  lemma TrimStartSnoc(y: string, c: char)
    requires IsSpace(c)
    ensures TrimStart(y + [c]) == if TrimStart(y) == "" then "" else TrimStart(y) + [c]
  {
    hide IsSpace;
    var n: nat := SpaceCount(y);
    SpaceCountIs(y + [c], if n == |y| then n + 1 else n);
  }

  lemma DropCrLine(x: string, key: string)
    requires IsKey(key)
    ensures Matches(DropCr(x), key) <==> Matches(x, key)
    ensures Ends(DropCr(x)) <==> Ends(x)
  {
    if EndsWith(x, '\r') {
      var y := DropCr(x);
      assert x == y + ['\r'] && IsSpace('\r');
      hide IsSpace, Rest;
      RestSnoc(y, '\r');
      var (want, rest) := (key + ":", Rest(y));
      assert want[|want| - 1] == ':';
      assert |want| == |rest| + 1 ==> (rest + ['\r'])[|want| - 1] == '\r';
    }
  }

  function WithoutCr(line: Option<string>): Option<string>
  {
    match line case None => None case Some(x) => Some(DropCr(x))
  }

  /** Carriage returns at line ends do not change which line is found. */
  lemma {:induction false} FirstDropped(body: seq<string>, key: string)
    requires body != [] && body[|body| - 1] == "" && IsKey(key)
    ensures First(DropCrs(body), key) == WithoutCr(First(body, key))
  {
    hide Matches, Ends, IsKey, DropCr;
    if |body| == 1 {
      BlankLine(key);
    } else {
      var r := DropCrs(body);
      assert r[0] == DropCr(body[0]) && r[1..] == DropCrs(body[1..]);
      DropCrLine(body[0], key);
      if !Matches(body[0], key) { FirstDropped(body[1..], key); }
    }
  }

  lemma {:induction false} DropCrsFrom(lines: seq<string>, s: nat)
    requires s < |lines|
    ensures DropCrs(lines)[s..] == DropCrs(lines[s..])
  {
    if s > 0 {
      DropCrsFrom(lines[1..], s - 1);
      assert DropCrs(lines)[1..] == DropCrs(lines[1..]);
      assert DropCrs(lines)[s..] == DropCrs(lines[1..])[s - 1..];
      assert lines[s..] == lines[1..][s - 1..];
    }
  }

  lemma {:induction false} DropCrsSectionIndex(lines: seq<string>)
    ensures SectionIndex(DropCrs(lines)) == SectionIndex(lines)
  {
    hide IsSection, DropCr;
    if |lines| > 1 {
      DropCrKeepsSection(lines[0]);
      DropCrsSectionIndex(lines[1..]);
      assert DropCrs(lines)[1..] == DropCrs(lines[1..]);
    }
  }

  /** What the editor reads from the lines it has written: they lose the carriage returns at their ends. */
  lemma WrittenDrops(p: Parts, body: seq<string>)
    requires Proper(p) && AreLines(body)
    ensures var (w, r) := (Written(p, body), PartsOf(Join(Written(p, body))));
      && Split(Join(w)) == DropCrs(w) && SectionIndex(DropCrs(w)) == |p.above| < |w|
      && r.body == DropCrs(StripBlank(body) + [""]) == DropCrs(w)[|p.above| + 1..]
  {
    hide IsSection, Join, Split, RawSplit, DropCrs, StripBlank, TrimEnd, IsLine;
    var w := Written(p, body);
    var rest := StripBlank(body) + [""];
    assert w == p.above + [p.header] + rest;
    StripBlankGivesLines(body);
    assert IsLine("") by { BlankIsLine(); }
    RawSplitInvertsJoin(w);
    SplitIsDropCrs(Join(w));
    SectionAt(w, p.above, p.header, rest);
    DropCrsSectionIndex(w);
    DropCrsFrom(w, |p.above| + 1);
  }

  /** What a second write does to a text with carriage returns before line breaks: it drops them. */
  lemma SecondWriteDrops(p: Parts, body: seq<string>, key: string, value: string)
    requires Proper(p) && AreLines(body) && IsKey(key) && First(body, key) == Some(Setting(key, value))
    requires !EndsWith(value, '\r')
    ensures var w := Written(p, body);
      Upsert(Join(w), key, value) == StripBreaks(Join(DropCrs(w))) + "\n"
  {
    hide IsSection, IsKey, Join, StripBreaks, Split, DropCrs, First, PutBody, StripBlank, TrimEnd, IsLine, Written,
      Proper;
    var (w, lines) := (Written(p, body), DropCrs(Written(p, body)));
    var rest := StripBlank(body) + [""];
    WrittenDrops(p, body);
    FirstForgetsBlank(body, key);
    assert !EndsWith(Setting(key, value), '\r');
    FirstDropped(rest, key);
    PutSame(DropCrs(rest), key, Setting(key, value));
    assert lines[..|p.above| + 1] + lines[|p.above| + 1..] == lines;
  }

  /** On any text, the written line is what is found for its key, and what is found for every other key is as
      before; in both a carriage return at the end of the line is lost, because it stands before a line break. */
  lemma LookupAfterUpsert(content: string, key: string, value: string, other: string)
    requires IsKey(key) && IsKey(other) && IsLine(value)
    ensures Lookup(Upsert(content, key, value), other) ==
      WithoutCr(if other == key then Some(Setting(key, value)) else Lookup(content, other))
  {
    hide PartsOf, IsKey, IsLine, StripBlank, Setting, IsSetting, PutBody, Proper, DropCrs, First, Split, Join,
      Upsert, WithoutCr, Written;
    var (p, line) := (PartsOf(content), Setting(key, value));
    var put := PutBody(p.body, key, line);
    ProperParts(content);
    SettingIsLine(key, value);
    ProperPut(p, key, line);
    UpsertIsWritten(content, key, value);
    WrittenDrops(p, put);
    FirstDropped(StripBlank(put) + [""], other);
    FirstForgetsBlank(put, other);
    if other == key { PutIsFound(p.body, key, line); } else { PutKeepsOthers(p.body, key, other, line); }
  }

  lemma ProperParts(content: string)
    ensures Proper(PartsOf(content))
  {
    hide PartsOf, IsSection, IsLine;
    PartsAreProper(content);
  }

  lemma ProperPut(p: Parts, key: string, line: string)
    requires Proper(p) && IsLine(line)
    ensures AreLines(PutBody(p.body, key, line))
  {
    hide PutBody, IsLine, IsSection;
    PutGivesLines(p.body, key, line);
  }

  lemma {:induction false} FirstIsElement(body: seq<string>, key: string)
    requires First(body, key).Some?
    ensures First(body, key).value in body && Matches(First(body, key).value, key)
  {
    hide Matches, Ends;
    if !Matches(body[0], key) { FirstIsElement(body[1..], key); }
  }

  /** Where no line keeps a carriage return at its end, what is found for another key is exactly as before. */
  lemma LookupOfOthers(content: string, key: string, value: string, other: string)
    requires KeepsNoCr(content, key) && IsKey(key) && IsKey(other) && other != key && IsLine(value)
    ensures Lookup(Upsert(content, key, value), other) == Lookup(content, other)
  {
    hide PartsOf, IsKey, IsLine, Matches, Upsert, First, Ends;
    LookupAfterUpsert(content, key, value, other);
    var body := PartsOf(content).body;
    if First(body, other).Some? {
      FirstIsElement(body, other);
      var i :| 0 <= i < |body| && body[i] == First(body, other).value;
      OneKeyMatches(body[i], other, key);
      assert !IsReplaced(body, key, i);
    }
  }

  lemma BlankIsLine()
    ensures IsLine("")
  {
  }

  lemma DroppedIsShorter(w: seq<string>)
    requires |w| >= 2 && w[|w| - 1] == ""
    ensures !NoCrs(w) ==> |StripBreaks(Join(DropCrs(w))) + "\n"| < |Join(w)|
  {
    hide NoCrs, DropCrs, StripBreaks;
    var d := DropCrs(w);
    DropCrsShrinks(w);
    DropCrsFrom(w, |w| - 1);
    assert w[|w| - 1..] == [""];
    OneLineStays("");
    assert d[|w| - 1..] == [""];
    assert d == d[..|w| - 1] + [""];
    JoinAppend(d[..|w| - 1], [""]);
    JoinBlank();
    hide Join;
    assert EndsWith(Join(d), '\n');
  }

  lemma OneLineStays(line: string)
    ensures DropCrs([line]) == [line]
  {
  }

  /** Writing a value twice is writing it once exactly when the first write leaves no CRLF. */
  lemma IdempotentIffNoCrLf(content: string, key: string, value: string)
    requires IsKey(key) && IsLine(value) && !EndsWith(value, '\r')
    ensures var r := Upsert(content, key, value);
      Upsert(r, key, value) == r <==> !HasCrLf(r)
  {
    hide PartsOf, IsSection, IsKey, IsLine, Join, StripBreaks, Upsert, StripBlank, PutBody, DropCrs, First, HasCrLf,
      Setting, IsSetting, NoCrs;
    var (p, line) := (PartsOf(content), Setting(key, value));
    var put := PutBody(p.body, key, line);
    var w := Written(p, put);
    PartsAreProper(content);
    SettingIsLine(key, value);
    PutGivesLines(p.body, key, line);
    PutIsFound(p.body, key, line);
    UpsertIsWritten(content, key, value);
    StripBlankGivesLines(put);
    BlankIsLine();
    CrLfInJoin(w);
    SecondWriteDrops(p, put, key, value);
    DroppedIsShorter(w);
    if NoCrs(w) {
      DropCrsShrinks(w);
      StripBlankGivesLines(put);
      StripBlankSnoc(put);
      StripBlankTwice(put);
      assert w == p.above + [p.header] + (StripBlank(put) + [""]);
      StripBlankSnoc(StripBlank(put));
      BlankStays(p, StripBlank(put));
      TextOfWritten(p, StripBlank(put) + [""]);
    }
  }

  /** Writing a value twice is writing it once exactly when, before the first write, no line ended in a
      carriage return but the one that the write replaces. (A line break CRLF is one, when the section is
      there: splitting removes it.) */
  lemma IdempotentIff(content: string, key: string, value: string)
    requires IsKey(key) && IsLine(value) && !EndsWith(value, '\r')
    ensures var r := Upsert(content, key, value);
      Upsert(r, key, value) == r <==> KeepsNoCr(content, key)
  {
    hide PartsOf, IsSection, IsKey, IsLine, Upsert, StripBlank, PutBody, HasCrLf, Setting, IsSetting, NoCrs,
      KeepsNoCr, Join;
    var (p, line) := (PartsOf(content), Setting(key, value));
    var put := PutBody(p.body, key, line);
    PartsAreProper(content);
    SettingIsLine(key, value);
    PutGivesLines(p.body, key, line);
    UpsertIsWritten(content, key, value);
    StripBlankGivesLines(put);
    BlankIsLine();
    CrLfInJoin(Written(p, put));
    PutNoCrs(content, key, value);
    IdempotentIffNoCrLf(content, key, value);
  }

  lemma BlankStays(p: Parts, body: seq<string>)
    requires StripBlank(body) == body
    ensures Written(p, body + [""]) == Written(p, body)
  {
    StripBlankSnoc(body);
  }

  /** Without the section, these lines are the ones of the text, but for white space at its end. */
  lemma KeepsNoCrWithoutSection(content: string, key: string)
    requires SectionIndex(Split(content)) == |Split(content)|
    ensures KeepsNoCr(content, key) <==> !HasCrLf(TrimEnd(content))
  {
    hide IsSection, RawSplit, Split, SectionIndex, HasCrLf, Join;
    var t := TrimEnd(content);
    var p := PartsOf(content);
    assert OnlyReplacedEndsInCr(p.body, key);
    assert !EndsWith("block_producer:", '\r');
    if t == "" {
      EmptyHasNoCrLf();
    } else {
      SplitGivesLines(t);
      JoinInvertsRawSplit(t);
      CrLfInJoin(RawSplit(t));
      LastLineEnd(t);
      NoneEndsSnoc(RawSplit(t), "");
      assert !EndsWith(t, '\r') by { hide *; TrimmedEnd(content); }
    }
  }

  lemma TrimmedEnd(content: string)
    ensures !EndsWith(TrimEnd(content), '\r')
  {
    assert IsSpace('\r');
  }

  lemma EmptyHasNoCrLf()
    ensures !HasCrLf("")
  {
  }

  lemma NoneEndsSnoc(lines: seq<string>, last: string)
    ensures NoneEndsInCr(lines + [last]) <==> NoneEndsInCr(lines) && !EndsWith(last, '\r')
  {
    var r := lines + [last];
    assert r[|lines|] == last && forall i :: 0 <= i < |lines| ==> r[i] == lines[i];
    if NoneEndsInCr(r) {
      forall i | 0 <= i < |lines| ensures !EndsWith(lines[i], '\r') { assert !EndsWith(r[i], '\r'); }
    }
  }

  /** The last line of a text ends as the text does. */
  lemma LastLineEnd(t: string)
    requires t != "" && !EndsWith(t, '\r')
    ensures NoneEndsInCr(RawSplit(t)) <==> NoCrs(RawSplit(t))
  {
    hide RawSplit;
    var r := RawSplit(t);
    var (pre, last) := (r[..|r| - 1], r[|r| - 1]);
    assert r == pre + [last];
    JoinInvertsRawSplit(t);
    if pre != [] {
      JoinAppend(pre, [last]);
      assert last != "" ==> t[|t| - 1] == last[|last| - 1];
    }
    assert !EndsWith(last, '\r');
  }

  /** So without the section, the second write changes the text exactly when it has CRLF line breaks before
      its trailing white space. */
  lemma CrLfWithoutSection(content: string, key: string, value: string)
    requires IsKey(key) && IsLine(value) && !EndsWith(value, '\r')
    requires forall i :: 0 <= i < |Split(content)| ==> !IsSection(Split(content)[i])
    ensures var r := Upsert(content, key, value); Upsert(r, key, value) == r <==> !HasCrLf(TrimEnd(content))
  {
    hide IsSection, Split, TrimEnd, Upsert, HasCrLf, IsKey, IsLine, KeepsNoCr;
    assert SectionIndex(Split(content)) == |Split(content)|;
    KeepsNoCrWithoutSection(content, key);
    IdempotentIff(content, key, value);
  }

  predicate NoCr(s: string) { forall i :: 0 <= i < |s| ==> s[i] != '\r' }

  lemma {:induction false} SplitGivesNoCr(s: string)
    requires NoCr(s)
    ensures forall i :: 0 <= i < |Split(s)| ==> NoCr(Split(s)[i])
    ensures forall i :: 0 <= i < |RawSplit(s)| ==> NoCr(RawSplit(s)[i])
    decreases |s|
  {
    var i: nat := Break(s);
    if i < |s| { SplitGivesNoCr(s[i + 1..]); }
  }

  /** Texts without carriage returns are tidy. */
  lemma NoCrIsTidy(content: string)
    requires NoCr(content)
    ensures Tidy(content)
  {
    hide IsSection, Split, RawSplit, TrimEnd;
    SplitGivesNoCr(content);
    var t := TrimEnd(content);
    assert NoCr(t) by { assert forall i :: 0 <= i < |t| ==> t[i] == content[i]; }
    SplitGivesNoCr(TrimEnd(content));
  }

  /** The laws of writing, for texts without carriage returns: the last write wins, commenting out before a write
      does not matter, and write, comment out, write gives the text of the first write. */
  lemma WritesWithoutCr(content: string, key: string, first: string, last: string)
    requires NoCr(content) && NoCr(first) && NoCr(last) && IsKey(key) && IsLine(first) && IsLine(last)
    ensures Upsert(Upsert(content, key, first), key, last) == Upsert(content, key, last)
    ensures Upsert(Comment(content, key).0, key, last) == Upsert(content, key, last)
    ensures var r := Upsert(content, key, last); Upsert(Comment(r, key).0, key, last) == r
  {
    hide Tidy, KeepsNoCr, Upsert, Comment, IsKey, IsLine;
    NoCrIsTidy(content);
    TidyKeepsNoCr(content, key);
    LastWriteWins(content, key, first, last);
    CommentThenUpsert(content, key, last);
    UpsertCommentUpsert(content, key, last);
  }

  /** The laws of reading, for texts without carriage returns. */
  lemma ReadsWithoutCr(content: string, key: string, value: string, other: string)
    requires NoCr(content) && NoCr(value) && IsKey(key) && IsKey(other) && IsLine(value)
    ensures Lookup(Upsert(content, key, value), other) ==
      if other == key then Some(Setting(key, value)) else Lookup(content, other)
    ensures var (x, r) := (Lookup(content, key), Comment(content, key).0);
      && Lookup(r, key) == (if x.None? then None else Some(Commented(x.value)))
      && (x.Some? ==> Comment(r, key) == (r, false))
  {
    hide Tidy, KeepsNoCr, Upsert, Comment, Lookup, Commented, IsKey, IsLine;
    NoCrIsTidy(content);
    TidyKeepsNoCr(content, key);
    LookupAfterUpsert(content, key, value, key);
    assert !EndsWith(Setting(key, value), '\r');
    if other != key { LookupOfOthers(content, key, value, other); }
    LookupAfterComment(content, key);
    if Lookup(content, key).Some? { CommentTwice(content, key); }
  }

  // ----- the two editors, step by step -----

  lemma FoundAt(body: seq<string>, key: string, f: string -> string, i: nat)
    requires i < |body| && (forall j :: 0 <= j <= i ==> !Ends(body[j]))
    requires (forall j :: 0 <= j < i ==> !Matches(body[j], key)) && Matches(body[i], key)
    ensures Found(body, key) && EditFirst(body, key, f) == body[i := f(body[i])] && First(body, key) == Some(body[i])
  {
    hide Matches, Ends;
    if i > 0 {
      FoundAt(body[1..], key, f, i - 1);
      assert body[1..][i - 1 := f(body[i])] == body[i := f(body[i])][1..];
    }
  }

  lemma {:induction false} NotFound(body: seq<string>, key: string, e: nat)
    requires e <= |body| && (e < |body| ==> Ends(body[e]))
    requires forall j :: 0 <= j < e ==> !Ends(body[j]) && !Matches(body[j], key)
    ensures !Found(body, key) && First(body, key).None?
  {
    hide Matches, Ends;
    if e > 0 { NotFound(body[1..], key, e - 1); }
  }

  lemma FoundBehind(lines: seq<string>, start: nat, index: nat, key: string, f: string -> string)
    requires start < index < |lines| && Matches(lines[index], key)
    requires forall j :: start < j <= index ==> !Ends(lines[j])
    requires forall j :: start < j < index ==> !Matches(lines[j], key)
    ensures var body := lines[start + 1..];
      && Found(body, key) && First(body, key) == Some(lines[index])
      && lines[..start + 1] + EditFirst(body, key, f) == lines[index := f(lines[index])]
  {
    hide Matches, Ends, Found, EditFirst, First;
    var (body, i) := (lines[start + 1..], index - start - 1);
    forall j | 0 <= j < |body| ensures body[j] == lines[start + 1 + j] { }
    FoundAt(body, key, f, i);
    assert lines[index := f(lines[index])] == lines[..start + 1] + body[i := f(body[i])];
  }

  lemma NotFoundBehind(lines: seq<string>, start: nat, end: nat, key: string)
    requires start < end <= |lines| && (end < |lines| ==> Ends(lines[end]))
    requires forall j :: start < j < end ==> !Ends(lines[j]) && !Matches(lines[j], key)
    ensures !Found(lines[start + 1..], key) && First(lines[start + 1..], key).None?
  {
    hide Matches, Ends, Found, First;
    var body := lines[start + 1..];
    forall j | 0 <= j < |body| ensures body[j] == lines[start + 1 + j] { }
    NotFound(body, key, end - start - 1);
  }

  /** The first loop: where the section ends. */
  method FindSectionEnd(lines: seq<string>, start: nat) returns (end: nat)
    requires start < |lines|
    ensures start < end <= |lines| && (end < |lines| ==> Ends(lines[end]))
    ensures forall j :: start < j < end ==> !Ends(lines[j])
  {
    hide Ends;
    end := |lines|;
    var index: nat := start + 1;
    while index < |lines|
      invariant start < index <= |lines| && end == |lines|
      invariant forall j :: start < j < index ==> !Ends(lines[j])
    {
      if Ends(lines[index]) {
        return index;
      }
      index := index + 1;
    }
  }

  /** The second loop: the first matching line of the section is replaced. */
  method ReplaceLine(lines: seq<string>, start: nat, end: nat, key: string, line: string)
    returns (r: seq<string>, replaced: bool)
    requires start < end <= |lines| && (end < |lines| ==> Ends(lines[end]))
    requires forall j :: start < j < end ==> !Ends(lines[j])
    ensures !replaced ==> PutBody(lines[start + 1..], key, line) == [line] + lines[start + 1..]
    ensures r == if replaced then lines[..start + 1] + PutBody(lines[start + 1..], key, line) else lines
  {
    hide Matches, Ends, Found, EditFirst, First;
    for index := start + 1 to end
      invariant forall j :: start < j < index ==> !Matches(lines[j], key)
    {
      if Matches(lines[index], key) {
        FoundBehind(lines, start, index, key, Always(line));
        return lines[index := line], true;
      }
    }
    NotFoundBehind(lines, start, end, key);
    return lines, false;
  }

  method UpsertBlockProducerConfigValue(content: string, key: string, value: string) returns (r: string)
    ensures r == Upsert(content, key, value)
  {
    hide IsSection, Matches, Ends, Setting, StripBreaks, Join, TrimEnd, Split, PutBody;
    var lines := Split(content);
    var sectionStart: nat := SectionIndex(lines);
    if sectionStart == |lines| {
      var prefix := TrimEnd(content);
      var separator := if prefix != "" then "\n\n" else "";
      return prefix + separator + "block_producer:\n  " + key + ": " + value + "\n";
    }
    var sectionEnd := FindSectionEnd(lines, sectionStart);
    var edited, replaced := ReplaceLine(lines, sectionStart, sectionEnd, key, Setting(key, value));
    if !replaced {
      edited := lines[..sectionStart + 1] + [Setting(key, value)] + lines[sectionStart + 1..];
      Assoc(lines[..sectionStart + 1], [Setting(key, value)], lines[sectionStart + 1..]);
    }
    r := StripBreaks(Join(edited)) + "\n";
  }

  method CommentBlockProducerConfigValue(content: string, key: string) returns (r: string, changed: bool)
    ensures (r, changed) == Comment(content, key)
  {
    hide IsSection, Matches, Ends, Commented, StripBreaks, Join, Split, Found, EditFirst, First, IsCommented;
    var lines := Split(content);
    var sectionStart: nat := SectionIndex(lines);
    if sectionStart == |lines| { return content, false; }
    var sectionEnd := FindSectionEnd(lines, sectionStart);
    var index: nat := sectionStart + 1;
    while index < sectionEnd
      invariant sectionStart < index <= sectionEnd
      invariant forall j :: sectionStart < j < index ==> !Matches(lines[j], key)
    {
      if Matches(lines[index], key) {
        FoundBehind(lines, sectionStart, index, key, Commented);
        var wasCommented := IsCommented(lines[index]);
        return StripBreaks(Join(lines[index := Commented(lines[index])])) + "\n", !wasCommented;
      }
      index := index + 1;
    }
    NotFoundBehind(lines, sectionStart, sectionEnd, key);
    return content, false;
  }
}
