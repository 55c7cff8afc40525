// How pkg/provenance/provenance.go cuts a SKILL.md into lines and finds the frontmatter in it. The program
// works by position in one byte slice; a document here is its pieces (opening fence, lines of the block, closing
// fence, body), or one text when there is no closed frontmatter, and rendering undoes cutting.

module Frontmatter {
  import opened Wrappers
  import Text

  const BOM: string := ['\U{EF}', '\U{BB}', '\U{BF}']

  predicate IsEol(c: char)
  {
    c == '\r' || c == '\n'
  }

  predicate StartsWithFrontmatter(b: string)
  {
    Text.HasPrefix(b, "---\n") || Text.HasPrefix(b, "---\r\n")
  }

  function OpenEnd(b: string): nat
  {
    if Text.HasPrefix(b, "---\r\n") then 5 else 4
  }

  /** bytes.IndexByte(b[pos:], '\n') + pos, or |b| when there is none. */
  function NextLF(b: string, pos: nat): (r: nat)
    requires pos <= |b|
    ensures pos <= r <= |b|
    decreases |b| - pos
  {
    if pos == |b| || b[pos] == '\n' then pos else NextLF(b, pos + 1)
  }

  lemma {:induction false} NextLFMeans(b: string, pos: nat)
    requires pos <= |b|
    ensures var r := NextLF(b, pos); (r < |b| ==> b[r] == '\n') && forall i | pos <= i < r :: b[i] != '\n'
    decreases |b| - pos
  {
    if pos < |b| && b[pos] != '\n' { NextLFMeans(b, pos + 1); }
  }

  // ---------------------------------------------------------------- lines

  /** A line with its terminator: the only LF is the last character. */
  predicate Complete(line: string)
  {
    line != [] && line[|line| - 1] == '\n' && forall i | 0 <= i < |line| - 1 :: line[i] != '\n'
  }

  predicate AllComplete(lines: seq<string>)
  {
    forall i | 0 <= i < |lines| :: Complete(lines[i])
  }

  /** The lines of b with their terminators; the last may have none. */
  function SplitLines(b: string): seq<string>
  {
    if b == [] then []
    else
      var rest := SplitLines(b[1..]);
      if b[0] == '\n' || rest == [] then [[b[0]]] + rest else [[b[0]] + rest[0]] + rest[1..]
  }

  function Join(lines: seq<string>): string
  {
    if lines == [] then [] else lines[0] + Join(lines[1..])
  }

  lemma {:induction false} JoinSplit(b: string)
    ensures Join(SplitLines(b)) == b
  {
    if b != [] {
      JoinSplit(b[1..]);
      var c, rest := [b[0]], SplitLines(b[1..]);
      assert b == c + b[1..];
      if b[0] == '\n' || rest == [] {
        JoinCons(c, rest);
      } else {
        JoinCons(c + rest[0], rest[1..]);
        assert c + (rest[0] + Join(rest[1..])) == (c + rest[0]) + Join(rest[1..]);
      }
    }
  }

  lemma JoinCons(line: string, rest: seq<string>)
    ensures Join([line] + rest) == line + Join(rest)
  {
    assert ([line] + rest)[1..] == rest;
  }

  lemma {:induction false} JoinConcat(a: seq<string>, b: seq<string>)
    ensures Join(a + b) == Join(a) + Join(b)
  {
    if a == [] { assert a + b == b; } else {
      assert (a + b)[0] == a[0] && (a + b)[1..] == a[1..] + b;
      JoinConcat(a[1..], b);
    }
  }

  lemma CompleteCons(c: char, line: string)
    ensures c != '\n' ==> (Complete([c] + line) <==> Complete(line))
    ensures c != '\n' ==> ('\n' in [c] + line <==> '\n' in line)
    ensures c == '\n' ==> Complete([c])
  {
    var all := [c] + line;
    assert all[1..] == line;
    if c != '\n' && Complete(all) {
      assert forall i | 0 <= i < |line| - 1 :: line[i] == all[i + 1];
    }
  }

  /** All lines but the last are complete; a last line without LF is non-empty and LF-free. */
  ghost predicate LinesShape(lines: seq<string>)
  {
    && (forall i | 0 <= i < |lines| - 1 :: Complete(lines[i]))
    && (lines != [] ==> var last := lines[|lines| - 1]; Complete(last) || (last != [] && '\n' !in last))
  }

  lemma ShapeCons(line: string, rest: seq<string>)
    requires LinesShape(rest) && (Complete(line) || (rest == [] && line != [] && '\n' !in line))
    ensures LinesShape([line] + rest)
  {
  }

  lemma {:induction false} SplitShape(b: string)
    ensures LinesShape(SplitLines(b))
  {
    if b != [] {
      SplitShape(b[1..]);
      var rest := SplitLines(b[1..]);
      if b[0] == '\n' || rest == [] {
        ShapeCons([b[0]], rest);
      } else {
        CompleteCons(b[0], rest[0]);
        assert |rest| > 1 ==> Complete(rest[0]);
        assert LinesShape(rest[1..]) by { assert |rest| > 1 ==> rest[1..][|rest| - 2] == rest[|rest| - 1]; }
        ShapeCons([b[0]] + rest[0], rest[1..]);
      }
    }
  }

  lemma {:induction false} FirstLine(line: string, tail: string)
    requires Complete(line)
    ensures SplitLines(line + tail) == [line] + SplitLines(tail)
  {
    var b := line + tail;
    assert b[0] == line[0] && b[1..] == line[1..] + tail;
    if |line| > 1 {
      var rest := line[1..];
      assert Complete(rest) by { assert forall i | 0 <= i < |rest| - 1 :: rest[i] == line[i + 1]; }
      FirstLine(rest, tail);
      assert ([rest] + SplitLines(tail))[1..] == SplitLines(tail);
      assert [line[0]] + rest == line;
    } else {
      assert line == ['\n'] && b[1..] == tail;
    }
  }

  /** A text without LF is one line. */
  lemma {:induction false} LastLine(t: string)
    requires t != [] && '\n' !in t
    ensures SplitLines(t) == [t]
  {
    if |t| > 1 {
      LastLine(t[1..]);
      assert [t[0]] + t[1..] == t;
    } else {
      assert t == [t[0]];
    }
  }

  lemma {:induction false} SplitJoin(lines: seq<string>, tail: string)
    requires AllComplete(lines)
    ensures SplitLines(Join(lines) + tail) == lines + SplitLines(tail)
  {
    if lines == [] { assert Join(lines) + tail == tail && lines + SplitLines(tail) == SplitLines(tail); } else {
      var first, rest := lines[0], lines[1..];
      SplitJoin(rest, tail);
      FirstLine(first, Join(rest) + tail);
      Assoc(first, Join(rest), tail);
      Assoc([first], rest, SplitLines(tail));
      assert [first] + rest == lines;
    }
  }

  // ---------------------------------------------------------------- the closing fence

  predicate IsFence(line: string)
  {
    Text.TrimRight(line, IsEol) == "---"
  }

  predicate IsClose(line: string)
  {
    Complete(line) && IsFence(line)
  }

  /** Lines cut at the first that passes a test. */
  datatype Fencing = NoFence | Fence(head: seq<string>, close: string, rest: seq<string>)

  function AtFence(lines: seq<string>, test: string -> bool): Fencing
  {
    if lines == [] then NoFence
    else if test(lines[0]) then Fence([], lines[0], lines[1..])
    else match AtFence(lines[1..], test)
      case NoFence => NoFence
      case Fence(head, close, rest) => Fence([lines[0]] + head, close, rest)
  }

  predicate NoneOf(lines: seq<string>, test: string -> bool)
  {
    forall i | 0 <= i < |lines| :: !test(lines[i])
  }

  lemma NoneCons(line: string, rest: seq<string>, test: string -> bool)
    requires !test(line) && NoneOf(rest, test)
    ensures NoneOf([line] + rest, test)
  {
  }

  lemma {:induction false} AtFenceMeans(lines: seq<string>, test: string -> bool)
    ensures match AtFence(lines, test)
      case NoFence => NoneOf(lines, test)
      case Fence(head, close, rest) => lines == head + [close] + rest && NoneOf(head, test) && test(close)
  {
    if lines != [] && !test(lines[0]) {
      AtFenceMeans(lines[1..], test);
      assert [lines[0]] + lines[1..] == lines;
      match AtFence(lines[1..], test)
      case NoFence => NoneCons(lines[0], lines[1..], test);
      case Fence(head, close, rest) => NoneCons(lines[0], head, test);
    }
  }

  lemma {:induction false} AtFenceOf(head: seq<string>, close: string, rest: seq<string>, test: string -> bool)
    requires NoneOf(head, test) && test(close)
    ensures AtFence(head + [close] + rest, test) == Fence(head, close, rest)
  {
    var all := head + [close] + rest;
    if head == [] {
      assert all[0] == close && all[1..] == rest;
    } else {
      assert all[0] == head[0] && all[1..] == head[1..] + [close] + rest;
      AtFenceOf(head[1..], close, rest, test);
      assert [head[0]] + head[1..] == head;
    }
  }

  /** A SKILL.md without BOM, cut at its fences. */
  datatype Doc =
    | Bare(text: string)
    | Unclosed(text: string)
    | Closed(open: string, lines: seq<string>, close: string, body: string)

  predicate WellFormed(d: Doc)
  {
    match d
    case Bare(text) => !StartsWithFrontmatter(text)
    case Unclosed(text) => StartsWithFrontmatter(text) && Cut(text).Unclosed?
    case Closed(open, lines, close, _) =>
      && (open == "---\n" || open == "---\r\n") && AllComplete(lines)
      && NoneOf(lines, IsFence) && IsClose(close)
  }

  function Cut(s: string): Doc
  {
    if !StartsWithFrontmatter(s) then Bare(s)
    else
      var n := OpenEnd(s);
      match AtFence(SplitLines(s[n..]), IsClose)
      case NoFence => Unclosed(s)
      case Fence(head, close, rest) => Closed(s[..n], head, close, Join(rest))
  }

  function Render(d: Doc): string
  {
    match d
    case Bare(text) => text
    case Unclosed(text) => text
    case Closed(open, lines, close, body) => open + Join(lines) + close + body
  }

  lemma JoinAround(head: seq<string>, line: string, rest: seq<string>)
    ensures Join(head + [line] + rest) == Join(head) + line + Join(rest)
  {
    Assoc(head, [line], rest);
    JoinConcat(head, [line] + rest);
    JoinCons(line, rest);
    Assoc(Join(head), line, Join(rest));
  }

  lemma Assoc<T>(a: seq<T>, b: seq<T>, c: seq<T>)
    ensures a + (b + c) == a + b + c
  {
  }

  lemma Reassemble(s: string, open: nat, y: string, z: string, w: string)
    requires open <= |s| && s[open..] == y + z + w
    ensures s[..open] + y + z + w == s
  {
    assert s[..open] + y + z + w == s[..open] + (y + z + w);
  }

  /** The lines before a fence are all complete, and none of them is a fence. */
  lemma BeforeFence(b: string, head: seq<string>, close: string, rest: seq<string>)
    requires AtFence(SplitLines(b), IsClose) == Fence(head, close, rest)
    ensures b == Join(head) + close + Join(rest)
    ensures AllComplete(head) && NoneOf(head, IsFence) && IsClose(close)
  {
    AtFenceMeans(SplitLines(b), IsClose);
    SplitShape(b);
    JoinSplit(b);
    JoinAround(head, close, rest);
    var all := head + [close] + rest;
    assert forall i | 0 <= i < |head| :: all[i] == head[i];
  }

  lemma RenderCut(s: string)
    ensures Render(Cut(s)) == s && WellFormed(Cut(s))
  {
    if StartsWithFrontmatter(s) {
      var n := OpenEnd(s);
      OpenIsFence(s);
      match AtFence(SplitLines(s[n..]), IsClose)
      case NoFence =>
      case Fence(head, close, rest) =>
        BeforeFence(s[n..], head, close, rest);
        Reassemble(s, n, Join(head), close, Join(rest));
    }
  }

  lemma OpenIsFence(s: string)
    requires StartsWithFrontmatter(s)
    ensures s[..OpenEnd(s)] == "---\n" || s[..OpenEnd(s)] == "---\r\n"
  {
  }

  lemma OpenOf(open: string, rest: string)
    requires open == "---\n" || open == "---\r\n"
    ensures StartsWithFrontmatter(open + rest) && OpenEnd(open + rest) == |open|
    ensures (open + rest)[..|open|] == open && (open + rest)[|open|..] == rest
  {
    var s := open + rest;
    assert s[..|open|] == open;
    assert open == "---\n" ==> s[3] == '\n';
  }

  lemma SplitClosed(lines: seq<string>, close: string, body: string)
    requires AllComplete(lines) && Complete(close)
    ensures SplitLines(Join(lines) + (close + body)) == lines + [close] + SplitLines(body)
  {
    SplitJoin(lines, close + body);
    FirstLine(close, body);
    Assoc(lines, [close], SplitLines(body));
  }

  lemma FourInARow(x: string, y: string, z: string, w: string)
    ensures x + y + z + w == x + (y + (z + w))
  {
  }

  /** The lines of a closed document, fences included. */
  lemma LinesOfClosed(d: Doc)
    requires WellFormed(d) && d.Closed?
    ensures SplitLines(Render(d)) == [d.open] + (d.lines + [d.close] + SplitLines(d.body))
  {
    FourInARow(d.open, Join(d.lines), d.close, d.body);
    FirstLine(d.open, Join(d.lines) + (d.close + d.body));
    SplitClosed(d.lines, d.close, d.body);
  }

  lemma CutRender(d: Doc)
    requires WellFormed(d)
    ensures Cut(Render(d)) == d
  {
    if d.Closed? {
      var inner := Join(d.lines) + (d.close + d.body);
      assert Render(d) == d.open + inner;
      OpenOf(d.open, inner);
      SplitClosed(d.lines, d.close, d.body);
      NoneClose(d.lines);
      AtFenceOf(d.lines, d.close, SplitLines(d.body), IsClose);
      JoinSplit(d.body);
    }
  }

  lemma NoneClose(lines: seq<string>)
    requires NoneOf(lines, IsFence)
    ensures NoneOf(lines, IsClose)
  {
  }

  /** What a search from pos for a complete line that passes the test should find in the lines that start there. */
  function Located(lines: seq<string>, pos: nat, test: string -> bool): Option<(nat, nat)>
  {
    if lines == [] then None
    else if Complete(lines[0]) && test(lines[0]) then Some((pos, pos + |lines[0]|))
    else Located(lines[1..], pos + |lines[0]|, test)
  }

  lemma LocatedStep(line: string, rest: seq<string>, pos: nat, test: string -> bool)
    ensures Located([line] + rest, pos, test) ==
      if Complete(line) && test(line) then Some((pos, pos + |line|)) else Located(rest, pos + |line|, test)
  {
    assert ([line] + rest)[1..] == rest;
  }

  /** The byte range that a cut puts the fence at, counted from pos. */
  function RangeOf(f: Fencing, pos: nat): Option<(nat, nat)>
  {
    match f
    case NoFence => None
    case Fence(head, close, _) => Some((pos + |Join(head)|, pos + |Join(head)| + |close|))
  }

  lemma {:induction false} LocatedMeans(lines: seq<string>, pos: nat)
    ensures Located(lines, pos, IsFence) == RangeOf(AtFence(lines, IsClose), pos)
  {
    if lines != [] && !IsClose(lines[0]) {
      LocatedMeans(lines[1..], pos + |lines[0]|);
      match AtFence(lines[1..], IsClose)
      case NoFence =>
      case Fence(head, _, _) => JoinCons(lines[0], head);
    }
  }

  // ---------------------------------------------------------------- the program's loops

  lemma CompleteHead(b: string, start: nat, i: nat)
    requires start <= i < |b| && b[i] == '\n' && forall j | start <= j < i :: b[j] != '\n'
    ensures SplitLines(b[start..]) == [b[start..i + 1]] + SplitLines(b[i + 1..])
  {
    assert b[start..] == b[start..i + 1] + b[i + 1..];
    FirstLine(b[start..i + 1], b[i + 1..]);
  }

  lemma LastHead(b: string, start: nat)
    requires start < |b| && forall j | start <= j < |b| :: b[j] != '\n'
    ensures SplitLines(b[start..]) == [b[start..]]
  {
    LastLine(b[start..]);
  }

  /** The lines from pos on, read off the whole text. */
  function LinesFrom(b: string, pos: nat): seq<string>
    requires pos <= |b|
    decreases |b| - pos
  {
    if pos == |b| then []
    else
      var nl := NextLF(b, pos);
      if nl == |b| then [b[pos..]] else [b[pos..nl + 1]] + LinesFrom(b, nl + 1)
  }

  lemma NextLine(b: string, pos: nat)
    requires pos < |b|
    ensures var nl := NextLF(b, pos);
      if nl == |b| then SplitLines(b[pos..]) == [b[pos..]]
      else SplitLines(b[pos..]) == [b[pos..nl + 1]] + SplitLines(b[nl + 1..])
  {
    NextLFMeans(b, pos);
    var nl := NextLF(b, pos);
    if nl < |b| { CompleteHead(b, pos, nl); } else { LastHead(b, pos); }
  }

  lemma NextLineComplete(b: string, pos: nat)
    requires pos < |b|
    ensures var nl := NextLF(b, pos); if nl == |b| then !Complete(b[pos..]) else Complete(b[pos..nl + 1])
  {
    NextLFMeans(b, pos);
  }

  lemma {:induction false} LinesFromMeans(b: string, pos: nat)
    requires pos <= |b|
    ensures LinesFrom(b, pos) == SplitLines(b[pos..])
    decreases |b| - pos
  {
    if pos < |b| {
      NextLine(b, pos);
      if NextLF(b, pos) < |b| { LinesFromMeans(b, NextLF(b, pos) + 1); }
    }
  }

  /** The search itself, line by line. */
  function CloseFrom(b: string, pos: nat, test: string -> bool): Option<(nat, nat)>
    requires pos <= |b|
    decreases |b| - pos
  {
    if pos == |b| then None
    else
      var nl := NextLF(b, pos);
      if nl == |b| then None
      else if test(b[pos..nl + 1]) then Some((pos, nl + 1))
      else CloseFrom(b, nl + 1, test)
  }

  lemma {:induction false} CloseFromMeans(b: string, pos: nat, test: string -> bool)
    requires pos <= |b|
    ensures CloseFrom(b, pos, test) == Located(LinesFrom(b, pos), pos, test)
    decreases |b| - pos
  {
    if pos < |b| {
      NextLineComplete(b, pos);
      var nl := NextLF(b, pos);
      if nl < |b| {
        LocatedStep(b[pos..nl + 1], LinesFrom(b, nl + 1), pos, test);
        CloseFromMeans(b, nl + 1, test);
      } else {
        LocatedStep(b[pos..], [], pos, test);
        assert [b[pos..]] + [] == [b[pos..]];
      }
    }
  }

  lemma ClosedAt(b: string, n: nat)
    requires n <= |b|
    ensures CloseFrom(b, n, IsFence) == RangeOf(AtFence(SplitLines(b[n..]), IsClose), n)
  {
    CloseFromMeans(b, n, IsFence);
    LinesFromMeans(b, n);
    LocatedMeans(SplitLines(b[n..]), n);
  }

  /** The closing fence's byte range, if the opened frontmatter is closed. */
  method FindFrontmatterCloseRange(b: string) returns (start: nat, end: nat, ok: bool)
    requires StartsWithFrontmatter(b)
    ensures ok <==> Cut(b).Closed?
    ensures ok ==> start == OpenEnd(b) + |Join(Cut(b).lines)| && end == start + |Cut(b).close|
  {
    ClosedAt(b, OpenEnd(b));
    start, end, ok := FindCloseFrom(b, OpenEnd(b), IsFence);
  }

  method FindCloseFrom(b: string, from: nat, test: string -> bool) returns (start: nat, end: nat, ok: bool)
    requires from <= |b|
    ensures CloseFrom(b, from, test) == if ok then Some((start, end)) else None
  {
    var pos := from;
    while pos < |b|
      invariant pos <= |b| && CloseFrom(b, from, test) == CloseFrom(b, pos, test)
    {
      var nl := NextLF(b, pos);
      if nl == |b| { return 0, 0, false; }
      if test(b[pos..nl + 1]) { return pos, nl + 1, true; }
      pos := nl + 1;
    }
    return 0, 0, false;
  }

  method SplitLinesPreserve(b: string) returns (out: seq<string>)
    ensures out == SplitLines(b)
  {
    out := [];
    var start := 0;
    for i := 0 to |b|
      invariant start <= i && NextLF(b, start) == NextLF(b, i)
      invariant LinesFrom(b, 0) == out + LinesFrom(b, start)
    {
      if b[i] == '\n' {
        assert out + ([b[start..i + 1]] + LinesFrom(b, i + 1)) == out + [b[start..i + 1]] + LinesFrom(b, i + 1);
        out := out + [b[start..i + 1]];
        start := i + 1;
      }
    }
    if start < |b| {
      out := out + [b[start..]];
    }
    LinesFromMeans(b, 0);
    assert b[0..] == b;
  }
}
