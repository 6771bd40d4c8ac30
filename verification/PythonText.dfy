/** The parts of Python's `str` that the release scripts go through: whitespace, lines and trimming. */
module PythonText {
  /** The characters at which `splitlines` ends a line; "\r\n" ends one line. */
  predicate IsBreak(c: char) {
    || '\n' <= c <= '\r' || '\U{1C}' <= c <= '\U{1E}' || c == '\U{85}' || '\U{2028}' <= c <= '\U{2029}'
  }

  /** The characters that `strip` removes and the pattern `\s` matches. */
  predicate IsSpace(c: char) {
    || IsBreak(c) || c == ' ' || c == '\t' || c == '\U{1F}' || c == '\U{A0}' || c == '\U{1680}'
    || '\U{2000}' <= c <= '\U{200A}' || c == '\U{202F}' || c == '\U{205F}' || c == '\U{3000}'
  }

  predicate Blank(s: string) {
    forall c :: c in s ==> IsSpace(c)
  }

  /** Free of line breaks. */
  predicate OneLine(s: string) {
    forall c :: c in s ==> !IsBreak(c)
  }

  predicate StartsWith(s: string, prefix: string) {
    prefix <= s
  }

  // ----- trimming a text

  function LStrip(s: string): string {
    if s != "" && IsSpace(s[0]) then LStrip(s[1..]) else s
  }

  function RStrip(s: string): string {
    if s != "" && IsSpace(s[|s| - 1]) then RStrip(s[..|s| - 1]) else s
  }

  function Strip(s: string): string {
    RStrip(LStrip(s))
  }

  /** Empty, or something other than whitespace first. */
  predicate SolidStart(t: string) {
    t == "" || !IsSpace(t[0])
  }

  predicate SolidEnd(t: string) {
    t == "" || !IsSpace(t[|t| - 1])
  }

  predicate Solid(t: string) {
    SolidStart(t) && SolidEnd(t)
  }

  /** `LStrip` takes the whitespace off the front, and nothing else. */
  lemma {:induction false} LStripParts(s: string) returns (w: string)
    ensures Blank(w) && s == w + LStrip(s) && SolidStart(LStrip(s))
  {
    if s != "" && IsSpace(s[0]) {
      var v := LStripParts(s[1..]);
      w := [s[0]] + v;
      assert s == [s[0]] + s[1..];
    } else {
      w := "";
    }
  }

  lemma {:induction false} RStripParts(s: string) returns (w: string)
    ensures Blank(w) && s == RStrip(s) + w && SolidEnd(RStrip(s))
  {
    if s != "" && IsSpace(s[|s| - 1]) {
      var v := RStripParts(s[..|s| - 1]);
      w := v + [s[|s| - 1]];
      assert s == s[..|s| - 1] + [s[|s| - 1]];
    } else {
      w := "";
    }
  }

  lemma {:induction false} LStripIs(w: string, t: string)
    requires Blank(w) && SolidStart(t)
    ensures LStrip(w + t) == t
  {
    if w == "" {
      assert w + t == t;
    } else {
      LStripIs(w[1..], t);
      assert (w + t)[1..] == w[1..] + t;
      assert w[0] in w && (w + t)[0] == w[0];
    }
  }

  lemma {:induction false} RStripIs(t: string, w: string)
    requires Blank(w) && SolidEnd(t)
    ensures RStrip(t + w) == t
  {
    if w == "" {
      assert t + w == t;
    } else {
      var k := |w| - 1;
      RStripIs(t, w[..k]);
      AppendLast(t, w);
      assert w[k] in w;
    }
  }

  lemma AppendLast(t: string, w: string)
    requires w != ""
    ensures (t + w)[|t + w| - 1] == w[|w| - 1] && (t + w)[..|t + w| - 1] == t + w[..|w| - 1]
  {
  }

  lemma LStripSkips(w: string, t: string)
    requires Blank(w)
    ensures LStrip(w + t) == LStrip(t)
  {
    var v := LStripParts(t);
    LStripIs(w + v, LStrip(t));
    assert w + t == w + v + LStrip(t);
  }

  lemma RStripSkips(t: string, w: string)
    requires Blank(w)
    ensures RStrip(t + w) == RStrip(t)
  {
    var v := RStripParts(t);
    RStripIs(RStrip(t), v + w);
    assert t + w == RStrip(t) + (v + w);
  }

  lemma LStripBefore(t: string, u: string)
    requires !Blank(t)
    ensures LStrip(t + u) == LStrip(t) + u && LStrip(t) != ""
  {
    var v := LStripParts(t);
    assert v + "" == v;
    LStripIs(v, LStrip(t) + u);
    assert t + u == v + (LStrip(t) + u);
  }

  lemma SomethingLeft(t: string)
    requires !Blank(t)
    ensures RStrip(t) != ""
  {
    var v := RStripParts(t);
    assert "" + v == v;
  }

  lemma TextLeft(s: string)
    requires !Blank(s)
    ensures !Blank(LStrip(s))
  {
    LStripBefore(s, "");
    var v := LStripParts(s);
    assert LStrip(s)[0] in LStrip(s);
  }

  lemma RStripAfter(u: string, t: string)
    requires !Blank(t)
    ensures RStrip(u + t) == u + RStrip(t) && RStrip(t) != ""
  {
    SomethingLeft(t);
    var v := RStripParts(t);
    RStripIs(u + RStrip(t), v);
    assert u + t == u + RStrip(t) + v;
  }

  lemma StripOfSolid(t: string)
    requires Solid(t)
    ensures Strip(t) == t
  {
    LStripIs("", t);
    assert "" + t == t;
    RStripIs(t, "");
    assert t + "" == t;
  }

  lemma StripOfBlank(w: string)
    requires Blank(w)
    ensures Strip(w) == ""
  {
    LStripIs(w, "");
    assert w + "" == w;
  }

  /** Whitespace at the ends of a text does not change what it strips to. */
  lemma StripIgnoresEnds(u: string, t: string, v: string)
    requires Blank(u) && Blank(v)
    ensures Strip(u + t + v) == Strip(t)
  {
    if Blank(t) {
      StripOfBlank(u + t + v);
      StripOfBlank(t);
    } else {
      assert u + t + v == u + (t + v);
      LStripSkips(u, t + v);
      LStripBefore(t, v);
      RStripSkips(LStrip(t), v);
    }
  }

  lemma StripOfLStrip(s: string)
    ensures Strip(LStrip(s)) == Strip(s)
  {
    var w := LStripParts(s);
    StripIgnoresEnds(w, LStrip(s), "");
    assert s == w + LStrip(s) + "";
  }

  lemma StripOfRStrip(s: string)
    ensures Strip(RStrip(s)) == Strip(s)
  {
    var w := RStripParts(s);
    StripIgnoresEnds("", RStrip(s), w);
    assert s == "" + RStrip(s) + w;
  }

  lemma BlankIsStripped(s: string)
    ensures Blank(s) <==> Strip(s) == ""
  {
    if Blank(s) {
      StripOfBlank(s);
    } else {
      LStripBefore(s, "");
      var w := LStripParts(s);
      var t := LStrip(s);
      assert t[0] in t;
      RStripAfter("", t);
    }
  }

  // ----- lines

  /** `separator.join(parts)` */
  function Join(separator: string, parts: seq<string>): string {
    if parts == [] then ""
    else if |parts| == 1 then parts[0]
    else parts[0] + separator + Join(separator, parts[1..])
  }

  lemma {:induction false} JoinAppend(separator: string, a: seq<string>, b: seq<string>)
    requires a != [] && b != []
    ensures Join(separator, a + b) == Join(separator, a) + separator + Join(separator, b)
  {
    assert (a + b)[1..] == a[1..] + b;
    if |a| > 1 {
      JoinAppend(separator, a[1..], b);
    } else {
      assert a[1..] + b == b;
    }
  }

  /** Index of the first line break, or the length. */
  function LineEnd(text: string): (k: nat)
    ensures k <= |text| && OneLine(text[..k]) && (k < |text| ==> IsBreak(text[k]))
  {
    if text == "" || IsBreak(text[0]) then 0 else
    var k := LineEnd(text[1..]);
    assert text[..k + 1] == [text[0]] + text[1..][..k];
    k + 1
  }

  /** How long the line break is that the text begins with. */
  function BreakWidth(text: string): nat {
    if |text| > 1 && text[0] == '\r' && text[1] == '\n' then 2 else 1
  }

  function SplitLines(text: string): (lines: seq<string>)
    ensures forall l :: l in lines ==> OneLine(l)
    decreases |text|
  {
    if text == "" then [] else
    var k := LineEnd(text);
    if k == |text| then [text]
    else [text[..k]] + SplitLines(text[k + BreakWidth(text[k..])..])
  }

  lemma {:induction false} LineEndIs(line: string, rest: string)
    requires OneLine(line) && rest != "" && IsBreak(rest[0])
    ensures LineEnd(line + rest) == |line|
  {
    if line == "" {
      assert line + rest == rest;
    } else {
      LineEndIs(line[1..], rest);
      assert (line + rest)[1..] == line[1..] + rest;
    }
  }

  lemma SplitFirstLine(line: string, rest: string)
    requires OneLine(line)
    ensures SplitLines(line + "\n" + rest) == [line] + SplitLines(rest)
  {
    var text := line + "\n" + rest;
    assert text == line + ("\n" + rest);
    LineEndIs(line, "\n" + rest);
    assert text[..|line|] == line && text[|line|..] == "\n" + rest && text[|line| + 1..] == rest;
  }

  /** Lines written out with an end to each read back as the same lines. */
  lemma {:induction false} SplitJoined(lines: seq<string>)
    requires lines != [] && forall l :: l in lines ==> OneLine(l)
    ensures SplitLines(Join("\n", lines) + "\n") == lines
  {
    if |lines| == 1 {
      SplitFirstLine(lines[0], "");
      assert lines[0] + "\n" + "" == lines[0] + "\n";
      assert [lines[0]] + SplitLines("") == lines;
    } else {
      SplitJoined(lines[1..]);
      SplitFirstLine(lines[0], Join("\n", lines[1..]) + "\n");
      assert lines[0] + "\n" + (Join("\n", lines[1..]) + "\n") == Join("\n", lines) + "\n";
      assert [lines[0]] + lines[1..] == lines;
    }
  }

  lemma SplitAtBreak(line: string, rest: string)
    requires OneLine(line) && rest != "" && IsBreak(rest[0])
    ensures SplitLines(line + rest) == [line] + SplitLines(rest[BreakWidth(rest)..])
  {
    var text := line + rest;
    LineEndIs(line, rest);
    var k, w := |line|, BreakWidth(rest);
    assert text[..k] == line && text[k..] == rest;
    assert text[k + w..] == rest[w..];
  }

  lemma SplitOneLine(line: string)
    requires OneLine(line)
    ensures SplitLines(line) == if line == "" then [] else [line]
  {
    LineEndOfLine(line);
  }

  lemma {:induction false} LineEndOfLine(line: string)
    requires OneLine(line)
    ensures LineEnd(line) == |line|
  {
    if line != "" {
      assert line[0] in line;
      LineEndOfLine(line[1..]);
    }
  }

  /** Two texts on lines of their own: a blank line appears between them when the first one ends a line. */
  lemma {:induction false} SplitTwo(a: string, b: string) returns (gap: seq<string>)
    ensures gap == [] || gap == [""]
    ensures SplitLines(a + "\n" + b) == SplitLines(a) + gap + SplitLines(b)
    decreases |a|, 1
  {
    var line, rest := LineAndRest(a);
    if rest == "" {
      assert a == line;
      SplitFirstLine(a, b);
      SplitOneLine(a);
      gap := if a == "" then [""] else [];
    } else {
      gap := SplitAfterBreak(a, rest, b);
      SplitAtBreak(line, rest);
      SplitLongerAtBreak(line, rest, b);
      Regroup(line, SplitLines(rest[BreakWidth(rest)..]), gap, SplitLines(b));
    }
  }

  lemma LineAndRest(a: string) returns (line: string, rest: string)
    ensures a == line + rest && OneLine(line) && (rest == "" || IsBreak(rest[0]))
  {
    var k := LineEnd(a);
    line, rest := a[..k], a[k..];
  }

  lemma SplitLongerAtBreak(line: string, rest: string, b: string)
    requires OneLine(line) && rest != "" && IsBreak(rest[0])
    ensures var tail := rest + "\n" + b;
            SplitLines(line + rest + "\n" + b) == [line] + SplitLines(tail[BreakWidth(tail)..])
  {
    AppendInside(line, rest, "\n", b);
    SplitAtBreak(line, rest + "\n" + b);
  }

  lemma AppendInside(a: string, b: string, c: string, d: string)
    ensures a + b + c + d == a + (b + c + d)
  {
  }

  lemma Regroup(line: string, x: seq<string>, y: seq<string>, z: seq<string>)
    ensures [line] + (x + y + z) == [line] + x + y + z
  {
  }

  lemma {:induction false} SplitAfterBreak(a: string, rest: string, b: string) returns (gap: seq<string>)
    requires rest != "" && |rest| <= |a|
    ensures gap == [] || gap == [""]
    ensures SplitLines((rest + "\n" + b)[BreakWidth(rest + "\n" + b)..])
            == SplitLines(rest[BreakWidth(rest)..]) + gap + SplitLines(b)
    decreases |a|, 0
  {
    var w := BreakWidth(rest + "\n" + b);
    if w > |rest| {
      gap := [];
      assert (rest + "\n" + b)[w..] == b && rest[1..] == "";
    } else {
      assert w == BreakWidth(rest);
      assert (rest + "\n" + b)[w..] == rest[w..] + "\n" + b;
      gap := SplitTwo(rest[w..], b);
    }
  }

  // ----- trimming a block of lines

  function TrimFront(lines: seq<string>): seq<string> {
    if lines == [] then []
    else if Blank(lines[0]) then TrimFront(lines[1..])
    else [LStrip(lines[0])] + lines[1..]
  }

  function TrimBack(lines: seq<string>): seq<string> {
    if lines == [] then []
    else if Blank(lines[|lines| - 1]) then TrimBack(lines[..|lines| - 1])
    else lines[..|lines| - 1] + [RStrip(lines[|lines| - 1])]
  }

  function TrimLines(lines: seq<string>): seq<string> {
    TrimBack(TrimFront(lines))
  }

  /** Trimming the front drops the blank lines there and the indentation of the first line left, nothing else. */
  lemma {:induction false} TrimFrontAt(lines: seq<string>, a: nat)
    requires a < |lines| && !Blank(lines[a]) && forall k :: 0 <= k < a ==> Blank(lines[k])
    ensures TrimFront(lines) == [LStrip(lines[a])] + lines[a + 1..]
  {
    if a > 0 {
      TrimFrontAt(lines[1..], a - 1);
      assert lines[1..][a..] == lines[a + 1..];
    }
  }

  /** The same at the back, with the whitespace that ends the last line left. */
  lemma {:induction false} TrimBackAt(lines: seq<string>, b: nat)
    requires b < |lines| && !Blank(lines[b]) && forall k :: b < k < |lines| ==> Blank(lines[k])
    ensures TrimBack(lines) == lines[..b] + [RStrip(lines[b])]
  {
    var n := |lines| - 1;
    if b < n {
      TrimBackAt(lines[..n], b);
      assert lines[..n][..b] == lines[..b];
    }
  }

  /** The lines `a` to `b`, without what is blank at the start of the first and at the end of the last. */
  function EndsTrimmed(lines: seq<string>, a: nat, b: nat): seq<string>
    requires a <= b < |lines|
  {
    if a == b then [Strip(lines[a])] else [LStrip(lines[a])] + lines[a + 1..b] + [RStrip(lines[b])]
  }

  /** Of a block whose first and last lines that are not blank are `a` and `b`, trimming changes these two at
      most, and each at its own end only; every line between them stays as it is, blank or not. */
  lemma TrimmedBlock(lines: seq<string>, a: nat, b: nat)
    requires a <= b < |lines| && !Blank(lines[a]) && !Blank(lines[b])
    requires forall k :: 0 <= k < a || b < k < |lines| ==> Blank(lines[k])
    ensures TrimLines(lines) == EndsTrimmed(lines, a, b)
  {
    TrimFrontAt(lines, a);
    var front := TrimFront(lines);
    TextLeft(lines[a]);
    assert forall k :: b - a < k < |front| ==> front[k] == lines[a + k];
    TrimBackAt(front, b - a);
    assert a < b ==> front[..b - a] == [LStrip(lines[a])] + lines[a + 1..b];
  }

  /** A block of blank lines is gone. */
  lemma {:induction false} TrimmedBlank(lines: seq<string>)
    requires forall k :: 0 <= k < |lines| ==> Blank(lines[k])
    ensures TrimFront(lines) == TrimBack(lines) == TrimLines(lines) == []
  {
    if lines != [] {
      TrimmedBlank(lines[1..]);
      TrimmedBlank(lines[..|lines| - 1]);
    }
  }

  lemma {:induction false} TrimFrontIsLStrip(lines: seq<string>)
    ensures LStrip(Join("\n", lines)) == Join("\n", TrimFront(lines))
  {
    if lines == [] {
    } else {
      var first, rest := lines[0], lines[1..];
      if rest != [] {
        assert lines == [first] + rest;
        JoinAppend("\n", [first], rest);
      }
      if Blank(first) {
        TrimFrontIsLStrip(rest);
        BlankLineFirst(first, rest);
      } else if rest != [] {
        LStripBefore(first, "\n" + Join("\n", rest));
        assert Join("\n", lines) == first + ("\n" + Join("\n", rest));
        JoinAppend("\n", [LStrip(first)], rest);
      }
    }
  }

  lemma BlankLineFirst(first: string, rest: seq<string>)
    requires Blank(first)
    ensures LStrip(Join("\n", [first] + rest)) == LStrip(Join("\n", rest))
  {
    if rest == [] {
      LStripSkips(first, "");
      assert first + "" == first && [first] + rest == [first];
    } else {
      JoinAppend("\n", [first], rest);
      LStripSkips(first + "\n", Join("\n", rest));
    }
  }

  lemma {:induction false} TrimBackIsRStrip(lines: seq<string>)
    ensures RStrip(Join("\n", lines)) == Join("\n", TrimBack(lines))
  {
    if lines == [] {
    } else {
      var front, last := lines[..|lines| - 1], lines[|lines| - 1];
      assert lines == front + [last];
      if front != [] {
        JoinAppend("\n", front, [last]);
      }
      if Blank(last) {
        TrimBackIsRStrip(front);
        BlankLineLast(front, last);
      } else if front != [] {
        RStripAfter(Join("\n", front) + "\n", last);
        JoinAppend("\n", front, [RStrip(last)]);
      }
    }
  }

  lemma BlankLineLast(front: seq<string>, last: string)
    requires Blank(last)
    ensures RStrip(Join("\n", front + [last])) == RStrip(Join("\n", front))
  {
    if front == [] {
      RStripSkips("", last);
      assert "" + last == last && front + [last] == [last];
    } else {
      JoinAppend("\n", front, [last]);
      RStripSkips(Join("\n", front), "\n" + last);
      assert Join("\n", front) + "\n" + last == Join("\n", front) + ("\n" + last);
    }
  }

  /** Trimming the text of a block of lines trims the block. */
  lemma TrimLinesIsStrip(lines: seq<string>)
    ensures Strip(Join("\n", lines)) == Join("\n", TrimLines(lines))
  {
    TrimFrontIsLStrip(lines);
    TrimBackIsRStrip(TrimFront(lines));
  }

  /** What is left of a block ends with a line that is not blank, so its text is empty only when there is
      nothing left. */
  lemma {:induction false} TrimBackEnds(lines: seq<string>)
    ensures Join("\n", TrimBack(lines)) == "" <==> TrimBack(lines) == []
  {
    if lines != [] {
      var front, last := lines[..|lines| - 1], lines[|lines| - 1];
      if Blank(last) {
        TrimBackEnds(front);
      } else {
        SomethingLeft(last);
        JoinEndsWith(front, RStrip(last));
      }
    }
  }

  lemma JoinEndsWith(front: seq<string>, last: string)
    requires last != ""
    ensures Join("\n", front + [last]) != ""
  {
    if front == [] {
      assert front + [last] == [last];
    } else {
      JoinAppend("\n", front, [last]);
    }
  }

  // ----- what trimming keeps: the lines that are not blank, up to their own ends

  /** What one line leaves. */
  function Mark(line: string): seq<string> {
    if Blank(line) then [] else [Strip(line)]
  }

  function Marks(lines: seq<string>): seq<string> {
    if lines == [] then [] else Mark(lines[0]) + Marks(lines[1..])
  }

  lemma {:induction false} MarksAppend(a: seq<string>, b: seq<string>)
    ensures Marks(a + b) == Marks(a) + Marks(b)
  {
    if a == [] {
      assert a + b == b;
    } else {
      MarksAppend(a[1..], b);
      assert (a + b)[1..] == a[1..] + b;
      GroupLeft(Mark(a[0]), Marks(a[1..]), Marks(b));
    }
  }

  lemma GroupLeft(x: seq<string>, y: seq<string>, z: seq<string>)
    ensures x + (y + z) == x + y + z
  {
  }

  lemma MarkOfTrimmed(line: string)
    ensures Mark(LStrip(line)) == Mark(line) == Mark(RStrip(line))
  {
    StripOfLStrip(line);
    StripOfRStrip(line);
    BlankIsStripped(line);
    BlankIsStripped(LStrip(line));
    BlankIsStripped(RStrip(line));
  }

  lemma {:induction false} MarksOfTrimFront(lines: seq<string>)
    ensures Marks(TrimFront(lines)) == Marks(lines)
  {
    if lines != [] {
      if Blank(lines[0]) {
        MarksOfTrimFront(lines[1..]);
        assert Mark(lines[0]) == [];
      } else {
        MarkOfTrimmed(lines[0]);
        assert TrimFront(lines)[1..] == lines[1..];
      }
    }
  }

  lemma MarksSnoc(lines: seq<string>, line: string)
    ensures Marks(lines + [line]) == Marks(lines) + Mark(line)
  {
    MarksAppend(lines, [line]);
    assert Marks([line]) == Mark(line) + Marks([]);
  }

  lemma {:induction false} MarksOfTrimBack(lines: seq<string>)
    ensures Marks(TrimBack(lines)) == Marks(lines)
  {
    if lines != [] {
      var front, last := lines[..|lines| - 1], lines[|lines| - 1];
      assert lines == front + [last];
      MarksSnoc(front, last);
      if Blank(last) {
        MarksOfTrimBack(front);
        assert Mark(last) == [];
      } else {
        MarksSnoc(front, RStrip(last));
        MarkOfTrimmed(last);
      }
    }
  }

  lemma MarksOfTrimLines(lines: seq<string>)
    ensures Marks(TrimLines(lines)) == Marks(lines)
  {
    MarksOfTrimFront(lines);
    MarksOfTrimBack(TrimFront(lines));
  }

  lemma TrimmedLineStaysLine(line: string)
    requires OneLine(line)
    ensures OneLine(LStrip(line)) && OneLine(RStrip(line))
  {
    var v := LStripParts(line);
    var w := RStripParts(line);
    assert forall c :: c in LStrip(line) ==> c in line;
    assert forall c :: c in RStrip(line) ==> c in line;
  }

  lemma {:induction false} TrimFrontStaysLines(lines: seq<string>)
    requires forall l :: l in lines ==> OneLine(l)
    ensures forall l :: l in TrimFront(lines) ==> OneLine(l)
  {
    if lines != [] {
      assert lines[0] in lines;
      TrimFrontStaysLines(lines[1..]);
      TrimmedLineStaysLine(lines[0]);
    }
  }

  lemma {:induction false} TrimBackStaysLines(lines: seq<string>)
    requires forall l :: l in lines ==> OneLine(l)
    ensures forall l :: l in TrimBack(lines) ==> OneLine(l)
  {
    if lines != [] {
      var front, last := lines[..|lines| - 1], lines[|lines| - 1];
      assert last in lines;
      TrimBackStaysLines(front);
      TrimmedLineStaysLine(last);
    }
  }
}
