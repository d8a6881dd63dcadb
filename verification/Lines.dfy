/** Text as lines: JavaScript's `split(/\r?\n/)`, `join('\n')`, `trim` and the stripping of line breaks. */
module Lines {

  /** What `trim` removes and `\s` matches. */
  predicate IsSpace(c: char)
  {
    '\t' <= c <= '\r' || c == ' ' || c == '\U{A0}' || c == '\U{1680}' || '\U{2000}' <= c <= '\U{200A}'
    || c == '\U{2028}' || c == '\U{2029}' || c == '\U{202F}' || c == '\U{205F}' || c == '\U{3000}' || c == '\U{FEFF}'
  }

  /** The number of white-space characters at the start. */
  function SpaceCount(s: string): (n: nat)
    ensures n <= |s| && forall i :: 0 <= i < n ==> IsSpace(s[i])
    ensures n < |s| ==> !IsSpace(s[n])
  {
    if s != "" && IsSpace(s[0]) then 1 + SpaceCount(s[1..]) else 0
  }

  function TrimStart(s: string): string { s[SpaceCount(s)..] }

  function TrimEnd(s: string): (r: string)
    ensures r <= s
    ensures r != "" ==> !IsSpace(r[|r| - 1])
  {
    if s != "" && IsSpace(s[|s| - 1]) then TrimEnd(s[..|s| - 1]) else s
  }

  function Trim(s: string): string { TrimEnd(TrimStart(s)) }

  predicate EndsWith(s: string, c: char) { s != "" && s[|s| - 1] == c }

  /** Without one carriage return at the end. */
  function DropCr(s: string): string { if EndsWith(s, '\r') then s[..|s| - 1] else s }

  function Break(s: string): (i: nat)
    ensures i <= |s|
    ensures i < |s| ==> s[i] == '\n'
    ensures forall j :: 0 <= j < i ==> s[j] != '\n'
  {
    if s == "" || s[0] == '\n' then 0 else 1 + Break(s[1..])
  }

  /** `split(/\r?\n/)` */
  function Split(s: string): (r: seq<string>)
    ensures r != []
    decreases |s|
  {
    var i: nat := Break(s);
    if i == |s| then [s] else [DropCr(s[..i])] + Split(s[i + 1..])
  }

  /** Splitting at line feeds only. */
  function RawSplit(s: string): (r: seq<string>)
    ensures r != []
    decreases |s|
  {
    var i: nat := Break(s);
    if i == |s| then [s] else [s[..i]] + RawSplit(s[i + 1..])
  }

  /** `join('\n')` */
  function Join(lines: seq<string>): string
  {
    if lines == [] then "" else if |lines| == 1 then lines[0] else lines[0] + "\n" + Join(lines[1..])
  }

  /** No carriage return before a line break. */
  function DropCrs(lines: seq<string>): (r: seq<string>)
    ensures |r| == |lines|
  {
    if |lines| <= 1 then lines else [DropCr(lines[0])] + DropCrs(lines[1..])
  }

  predicate IsLine(s: string) { forall i :: 0 <= i < |s| ==> s[i] != '\n' }

  predicate AreLines(lines: seq<string>) { forall i :: 0 <= i < |lines| ==> IsLine(lines[i]) }

  predicate HasCrLf(s: string) { exists i | 0 <= i < |s| - 1 :: s[i] == '\r' && s[i + 1] == '\n' }

  lemma {:induction false} SplitIsDropCrs(s: string)
    ensures Split(s) == DropCrs(RawSplit(s))
    decreases |s|
  {
    var i: nat := Break(s);
    if i < |s| {
      SplitIsDropCrs(s[i + 1..]);
      var rest := RawSplit(s[i + 1..]);
      assert RawSplit(s)[1..] == rest;
    }
  }

  lemma {:induction false} SplitGivesLines(s: string)
    ensures AreLines(Split(s)) && AreLines(RawSplit(s))
    decreases |s|
  {
    var i: nat := Break(s);
    if i < |s| { SplitGivesLines(s[i + 1..]); }
  }

  lemma JoinCons(x: string, rest: seq<string>)
    ensures Join([x]) == x
    ensures rest != [] ==> Join([x] + rest) == x + "\n" + Join(rest)
  {
    assert ([x] + rest)[1..] == rest;
  }

  lemma {:induction false} JoinInvertsRawSplit(s: string)
    ensures Join(RawSplit(s)) == s
    decreases |s|
  {
    hide RawSplit, Join;
    var i: nat := Break(s);
    hide Break;
    var (x, rest) := (s[..i], s[if i < |s| then i + 1 else i..]);
    RawSplitLine(x, rest);
    JoinCons(x, RawSplit(rest));
    if i < |s| {
      assert s == x + "\n" + rest;
      JoinInvertsRawSplit(rest);
    } else {
      assert s == x;
    }
  }

  lemma RawSplitAt(s: string, i: nat)
    requires i <= |s| && IsLine(s[..i]) && (i < |s| ==> s[i] == '\n')
    ensures RawSplit(s) == if i == |s| then [s] else [s[..i]] + RawSplit(s[i + 1..])
  {
    BreakIs(s, i);
    RawSplitOnce(s);
    hide Break, RawSplit;
  }

  lemma RawSplitOnce(s: string)
    ensures var i: nat := Break(s); RawSplit(s) == if i == |s| then [s] else [s[..i]] + RawSplit(s[i + 1..])
  {
    hide Break;
  }

  lemma BreakIs(s: string, i: nat)
    requires i <= |s| && IsLine(s[..i]) && (i < |s| ==> s[i] == '\n')
    ensures Break(s) == i
  {
    hide Break;
    assert forall j :: 0 <= j < i ==> s[j] == s[..i][j];
  }

  lemma RawSplitLine(x: string, rest: string)
    requires IsLine(x)
    ensures RawSplit(x) == [x] && RawSplit(x + "\n" + rest) == [x] + RawSplit(rest)
  {
    hide RawSplit;
    var s := x + "\n" + rest;
    assert x[..|x|] == x && s[..|x|] == x && s[|x| + 1..] == rest;
    RawSplitAt(x, |x|);
    RawSplitAt(s, |x|);
  }

  lemma {:induction false} RawSplitInvertsJoin(lines: seq<string>)
    requires lines != [] && AreLines(lines)
    ensures RawSplit(Join(lines)) == lines
  {
    hide RawSplit, IsLine;
    if |lines| == 1 {
      RawSplitLine(lines[0], "");
    } else {
      RawSplitInvertsJoin(lines[1..]);
      RawSplitLine(lines[0], Join(lines[1..]));
    }
  }

  lemma {:induction false} JoinAppend(a: seq<string>, b: seq<string>)
    requires a != [] && b != []
    ensures Join(a + b) == Join(a) + "\n" + Join(b)
  {
    if |a| == 1 {
      assert (a + b)[1..] == b;
    } else {
      JoinAppend(a[1..], b);
      assert (a + b)[1..] == a[1..] + b;
    }
  }

  // ----- trailing blank lines -----

  /** Without the empty lines at the end. */
  function StripBlank(lines: seq<string>): seq<string>
  {
    if lines != [] && lines[|lines| - 1] == "" then StripBlank(lines[..|lines| - 1]) else lines
  }

  /** `replace(/\n+$/, '')` */
  function StripBreaks(s: string): (r: string)
    ensures r <= s
    ensures EndsWith(s, '\n') ==> |r| < |s|
  {
    if EndsWith(s, '\n') then StripBreaks(s[..|s| - 1]) else s
  }

  /** Stripping line breaks from the text is stripping empty lines. */
  lemma {:induction false} StripBreaksIsStripBlank(lines: seq<string>)
    requires AreLines(lines)
    ensures StripBreaks(Join(lines)) == Join(StripBlank(lines))
  {
    if lines != [] {
      var (pre, last) := (lines[..|lines| - 1], lines[|lines| - 1]);
      assert lines == pre + [last];
      if pre == [] {
        StripBreaksOfLine(last);
      } else {
        JoinAppend(pre, [last]);
        if last == "" {
          StripBreaksIsStripBlank(pre);
          assert Join(lines)[..|Join(lines)| - 1] == Join(pre);
        } else {
          assert Join(lines)[|Join(lines)| - 1] == last[|last| - 1];
        }
      }
    }
  }

  lemma StripBreaksOfLine(s: string)
    requires IsLine(s)
    ensures StripBreaks(Join([s])) == Join(StripBlank([s]))
  {
    if s == "" { assert StripBlank([s]) == StripBlank([]); }
  }

  lemma {:induction false} StripBlankConcat(a: seq<string>, b: seq<string>)
    ensures StripBlank(a + b) == if StripBlank(b) == [] then StripBlank(a) else a + StripBlank(b)
  {
    if b == [] {
      assert a + b == a;
    } else {
      var pre := b[..|b| - 1];
      assert (a + b)[..|a + b| - 1] == a + pre;
      if b[|b| - 1] == "" { StripBlankConcat(a, pre); }
    }
  }

  lemma {:induction false} StripBlankGivesLines(lines: seq<string>)
    requires AreLines(lines)
    ensures AreLines(StripBlank(lines))
  {
    if lines != [] && lines[|lines| - 1] == "" { StripBlankGivesLines(lines[..|lines| - 1]); }
  }

  lemma {:induction false} StripBlankTwice(lines: seq<string>)
    ensures StripBlank(StripBlank(lines)) == StripBlank(lines)
  {
    if lines != [] && lines[|lines| - 1] == "" { StripBlankTwice(lines[..|lines| - 1]); }
  }

  // ----- carriage returns -----

  ghost predicate NoCrs(lines: seq<string>)
  {
    forall i :: 0 <= i < |lines| - 1 ==> !EndsWith(lines[i], '\r')
  }

  lemma {:induction false} DropCrsShrinks(lines: seq<string>)
    ensures NoCrs(lines) ==> DropCrs(lines) == lines
    ensures |Join(DropCrs(lines))| <= |Join(lines)|
    ensures !NoCrs(lines) ==> |Join(DropCrs(lines))| < |Join(lines)|
  {
    if |lines| > 1 {
      var rest := lines[1..];
      DropCrsShrinks(rest);
      assert DropCrs(lines)[1..] == DropCrs(rest);
      assert forall i :: 0 <= i < |rest| ==> rest[i] == lines[i + 1];
      if EndsWith(lines[0], '\r') {
        assert !NoCrs(lines);
      } else if !NoCrs(lines) {
        var i :| 0 <= i < |lines| - 1 && EndsWith(lines[i], '\r');
        assert EndsWith(rest[i - 1], '\r');
      }
    }
  }

  /** A text has a CRLF exactly when one of its lines, but the last, ends in a carriage return. */
  lemma {:induction false} CrLfInJoin(lines: seq<string>)
    requires lines != [] && AreLines(lines)
    ensures HasCrLf(Join(lines)) <==> !NoCrs(lines)
  {
    if |lines| == 1 {
    } else {
      var (x, rest) := (lines[0], lines[1..]);
      CrLfInJoin(rest);
      CrLfInPair(x, Join(rest));
      assert NoCrs(lines) <==> !EndsWith(x, '\r') && NoCrs(rest) by {
        assert forall i :: 0 <= i < |rest| ==> rest[i] == lines[i + 1];
        if !NoCrs(rest) {
          var i :| 0 <= i < |rest| - 1 && EndsWith(rest[i], '\r');
          assert EndsWith(lines[i + 1], '\r');
        }
      }
    }
  }

  lemma CrLfInPair(x: string, y: string)
    requires IsLine(x)
    ensures HasCrLf(x + "\n" + y) <==> EndsWith(x, '\r') || HasCrLf(y)
  {
    var s := x + "\n" + y;
    if HasCrLf(s) {
      var i :| 0 <= i < |s| - 1 && s[i] == '\r' && s[i + 1] == '\n';
      if i > |x| { assert y[i - |x| - 1] == '\r' && y[i - |x|] == '\n'; }
      else { assert forall j :: 0 <= j < |x| ==> s[j] == x[j]; assert s[|x|] == '\n'; }
    }
    if EndsWith(x, '\r') { assert s[|x| - 1] == '\r' && s[|x|] == '\n'; }
    if HasCrLf(y) {
      var i :| 0 <= i < |y| - 1 && y[i] == '\r' && y[i + 1] == '\n';
      assert s[|x| + 1 + i] == '\r' && s[|x| + 2 + i] == '\n';
    }
  }
}
