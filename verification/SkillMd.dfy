// ParseSkillMD's split of a SKILL.md into frontmatter lines and body (pkg/bundle/skillmd.go),
// and its agreement with the breadcrumb injector on where the frontmatter ends.

module SkillMd {
  import opened FirstMatch
  import opened Frontmatter
  import Breadcrumb
  import Text

  /** The parsed document before its YAML is decoded. */
  datatype Parsed = Parsed(hasFrontmatter: bool, fmLines: seq<string>, body: string)

  predicate IsCR(c: char)
  {
    c == '\r'
  }

  function DropLF(line: string): string
  {
    if line != [] && line[|line| - 1] == '\n' then line[..|line| - 1] else line
  }

  function DropCR(line: string): string
  {
    if line != [] && line[|line| - 1] == '\r' then line[..|line| - 1] else line
  }

  /** What bufio.ScanLines reports of a line: no LF, and one CR less. */
  function Token(line: string): string
  {
    DropCR(DropLF(line))
  }

  function Tokens(lines: seq<string>): seq<string>
  {
    Map(lines, Token)
  }

  predicate Closes(token: string)
  {
    Text.TrimRight(token, IsCR) == "---"
  }

  /** Index of the first token that is a fence, or |tokens|. */
  function CloseIndex(tokens: seq<string>): (k: nat)
    ensures k <= |tokens|
  {
    Position(tokens, Closes)
  }

  /** What the body keeps of a line: its terminator becomes LF, and a CR before it goes. */
  function Kept(line: string): string
  {
    if Complete(line) then Token(line) + "\n" else Token(line)
  }

  function BodyOf(lines: seq<string>): string
  {
    if lines == [] then "" else Kept(lines[0]) + BodyOf(lines[1..])
  }

  function WithoutBom(s: string): string
  {
    if Text.HasPrefix(s, BOM) then s[3..] else s
  }

  function Parse(s: string): Parsed
  {
    var raw := WithoutBom(s);
    if !StartsWithFrontmatter(raw) then Parsed(false, [], raw)
    else ParseLines(After(SplitLines(raw), 0))
  }

  /** The lines after the opening fence. */
  function ParseLines(lines: seq<string>): Parsed
  {
    var k := CloseIndex(Tokens(lines));
    Parsed(true, Tokens(lines[..k]), BodyOf(After(lines, k)))
  }

  // ---------------------------------------------------------------- the scanner loop

  /** The loop's body buffer: every token followed by LF, also the last. */
  function Written(tokens: seq<string>): string
  {
    if tokens == [] then "" else tokens[0] + "\n" + Written(tokens[1..])
  }

  /** Dropping the LF that was added to an unterminated last line gives the body. */
  lemma {:induction false} WrittenMeans(lines: seq<string>)
    requires lines != [] && forall i | 0 <= i < |lines| - 1 :: Complete(lines[i])
    ensures Written(Tokens(lines)) == BodyOf(lines) + if Complete(lines[|lines| - 1]) then "" else "\n"
  {
    var tokens := Tokens(lines);
    assert tokens[1..] == Tokens(lines[1..]);
    if |lines| == 1 {
      assert lines[1..] == [] && BodyOf(lines) == Kept(lines[0]) + "";
    } else {
      WrittenMeans(lines[1..]);
      Regroup(tokens[0] + "\n", BodyOf(lines[1..]), if Complete(lines[|lines| - 1]) then "" else "\n");
    }
  }

  lemma Regroup<T>(x: seq<T>, y: seq<T>, z: seq<T>)
    ensures x + (y + z) == (x + y) + z
  {
  }

  datatype Scan = Scan(state: int, fm: seq<string>, body: string)

  /** One turn of the scanner loop. */
  function Step(s: Scan, line: string): Scan
  {
    var closes := Closes(Token(line));
    if s.state == 0 then
      if closes then s.(state := 1) else s.(body := s.body + Token(line) + "\n")
    else if s.state == 1 then
      if closes then s.(state := 2) else s.(fm := s.fm + [Token(line)])
    else s.(body := s.body + Token(line) + "\n")
  }

  function ScanLines(lines: seq<string>, s: Scan): Scan
  {
    if lines == [] then s else ScanLines(lines[1..], Step(s, lines[0]))
  }

  lemma {:induction false} ScanBody(lines: seq<string>, fm: seq<string>, body: string)
    ensures ScanLines(lines, Scan(2, fm, body)) == Scan(2, fm, body + Written(Tokens(lines)))
  {
    if lines == [] { assert body + "" == body; } else {
      var first := Token(lines[0]) + "\n";
      ScanBody(lines[1..], fm, body + Token(lines[0]) + "\n");
      assert body + Token(lines[0]) + "\n" == body + first;
      Regroup(body, first, Written(Tokens(lines[1..])));
    }
  }

  /** Where the scan ends that starts inside the frontmatter. */
  lemma {:induction false} ScanInside(lines: seq<string>, fm: seq<string>)
    ensures ScanLines(lines, Scan(1, fm, "")) == Inside(lines, fm)
  {
    if lines == [] { assert fm + [] == fm; } else if Closes(Token(lines[0])) {
      ScanBody(lines[1..], fm, "");
      assert lines[..0] == [] && fm + [] == fm && "" + Written(Tokens(lines[1..])) == Written(Tokens(lines[1..]));
    } else {
      ScanInside(lines[1..], fm + [Token(lines[0])]);
      InsideStep(lines[0], lines[1..], fm);
      assert [lines[0]] + lines[1..] == lines;
    }
  }

  function Inside(lines: seq<string>, fm: seq<string>): Scan
  {
    var k := CloseIndex(Tokens(lines));
    if k == |lines| then Scan(1, fm + Tokens(lines), "")
    else Scan(2, fm + Tokens(lines[..k]), Written(Tokens(lines[k + 1..])))
  }

  lemma InsideStep(line: string, rest: seq<string>, fm: seq<string>)
    requires !Closes(Token(line))
    ensures Inside([line] + rest, fm) == Inside(rest, fm + [Token(line)])
  {
    var t, all, j := [Token(line)], [line] + rest, CloseIndex(Tokens(rest));
    MapHead(line, rest, Token);
    MapHead(line, rest[..j], Token);
    assert (t + Tokens(rest))[1..] == Tokens(rest);
    assert all[..j + 1] == [line] + rest[..j];
    assert j < |rest| ==> all[j + 1 + 1..] == rest[j + 1..];
    Regroup(fm, t, Tokens(rest));
    Regroup(fm, t, Tokens(rest[..j]));
  }

  /** What the parser returns once the loop is done. */
  function Finish(raw: string, s: Scan): Parsed
    requires raw != []
  {
    var n := |s.body|;
    Parsed(true, s.fm, if raw[|raw| - 1] != '\n' && n > 0 && s.body[n - 1] == '\n' then s.body[..n - 1] else s.body)
  }

  /** The first token of a text that opens a frontmatter is a fence. */
  lemma OpeningToken(raw: string)
    requires StartsWithFrontmatter(raw)
    ensures SplitLines(raw) != [] && Closes(Token(SplitLines(raw)[0]))
    ensures SplitLines(raw) == [raw[..OpenEnd(raw)]] + SplitLines(raw[OpenEnd(raw)..])
  {
    var open := OpenEnd(raw);
    OpenIsFence(raw);
    assert raw == raw[..open] + raw[open..];
    FirstLine(raw[..open], raw[open..]);
    assert Token(raw[..open]) == "---";
    Text.TrimRightMeans("---", IsCR);
  }

  /** A text ends in LF exactly when its last line does. */
  lemma LastOf(raw: string)
    requires raw != []
    ensures var lines := SplitLines(raw);
      lines != [] && lines[|lines| - 1] != [] && (Complete(lines[|lines| - 1]) <==> raw[|raw| - 1] == '\n')
  {
    SplitShape(raw);
    JoinSplit(raw);
    LastOfJoin(SplitLines(raw));
  }

  lemma {:induction false} LastOfJoin(lines: seq<string>)
    requires lines != [] && lines[|lines| - 1] != []
    ensures var all, last := Join(lines), lines[|lines| - 1]; all != [] && all[|all| - 1] == last[|last| - 1]
  {
    if |lines| > 1 { LastOfJoin(lines[1..]); } else { assert lines[0] + Join([]) == lines[0]; }
  }

  lemma LastLineWritten(tail: seq<string>, terminated: bool)
    requires tail != [] && (forall i | 0 <= i < |tail| - 1 :: Complete(tail[i])) && (terminated <==> Complete(tail[|tail| - 1]))
    ensures var body := Written(Tokens(tail)); body != "" && BodyOf(tail) == if terminated then body else body[..|body| - 1]
  {
    WrittenMeans(tail);
    var body := BodyOf(tail);
    assert (body + "\n")[..|body + "\n"| - 1] == body;
    assert body + "" == body;
    WrittenEnds(Tokens(tail));
  }

  /** The last step of the parser: the LF the loop added to an unterminated text goes. */
  lemma Unterminated(raw: string, lines: seq<string>, k: nat)
    requires lines == SplitLines(raw) && k < |lines|
    ensures var body := Written(Tokens(lines[k + 1..]));
      BodyOf(lines[k + 1..]) == if k + 1 < |lines| && body != "" && raw[|raw| - 1] != '\n' then body[..|body| - 1] else body
  {
    SplitShape(raw);
    LastOf(raw);
    var tail := lines[k + 1..];
    if tail != [] {
      assert tail[|tail| - 1] == lines[|lines| - 1];
      LastLineWritten(tail, raw[|raw| - 1] == '\n');
    }
  }

  /** The body buffer after the loop, and what the last step leaves of it. */
  lemma FinishBody(raw: string, fm: seq<string>, k: nat)
    requires raw != [] && k < |SplitLines(raw)|
    ensures var tail := SplitLines(raw)[k + 1..];
      Finish(raw, Scan(2, fm, Written(Tokens(tail)))) == Parsed(true, fm, BodyOf(tail))
  {
    var lines := SplitLines(raw);
    Unterminated(raw, lines, k);
    WrittenEnds(Tokens(lines[k + 1..]));
  }

  lemma FinishInside(raw: string)
    requires raw != [] && SplitLines(raw) != []
    ensures Finish(raw, Inside(SplitLines(raw)[1..], [])) == ParseLines(SplitLines(raw)[1..])
  {
    var lines := SplitLines(raw);
    var rest := lines[1..];
    var k := CloseIndex(Tokens(rest));
    if k < |rest| {
      FinishBody(raw, Tokens(rest[..k]), k + 1);
      assert rest[k + 1..] == lines[k + 1 + 1..] && [] + Tokens(rest[..k]) == Tokens(rest[..k]);
    } else {
      assert rest[..k] == rest && [] + Tokens(rest) == Tokens(rest);
    }
  }

  lemma ScanDone(raw: string)
    requires StartsWithFrontmatter(raw)
    ensures Finish(raw, ScanLines(SplitLines(raw), Scan(0, [], ""))) == ParseLines(After(SplitLines(raw), 0))
  {
    OpeningToken(raw);
    var lines := SplitLines(raw);
    assert Step(Scan(0, [], ""), lines[0]) == Scan(1, [], "");
    ScanInside(lines[1..], []);
    FinishInside(raw);
  }

  /** The scan of the lines from i on. */
  function ScanFrom(lines: seq<string>, i: nat, s: Scan): Scan
    requires i <= |lines|
    decreases |lines| - i
  {
    if i == |lines| then s else ScanFrom(lines, i + 1, Step(s, lines[i]))
  }

  lemma {:induction false} ScanFromMeans(lines: seq<string>, i: nat, s: Scan)
    requires i <= |lines|
    ensures ScanFrom(lines, i, s) == ScanLines(lines[i..], s)
    decreases |lines| - i
  {
    if i < |lines| {
      ScanFromMeans(lines, i + 1, Step(s, lines[i]));
      assert lines[i..][1..] == lines[i + 1..];
    }
  }

  method ScanTokens(lines: seq<string>) returns (fmLines: seq<string>, body: string)
    ensures var s := ScanLines(lines, Scan(0, [], "")); s.fm == fmLines && s.body == body
  {
    fmLines, body := [], [];
    var st := 0;
    for i := 0 to |lines|
      invariant ScanFrom(lines, i, Scan(st, fmLines, body)) == ScanFrom(lines, 0, Scan(0, [], ""))
    {
      var line := Token(lines[i]);
      if st == 0 {
        if Closes(line) { st := 1; } else { body := body + line + "\n"; }
      } else if st == 1 {
        if Closes(line) { st := 2; } else { fmLines := fmLines + [line]; }
      } else {
        body := body + line + "\n";
      }
    }
    ScanFromMeans(lines, 0, Scan(0, [], ""));
    assert lines[0..] == lines;
  }

  method ParseOpened(raw: string) returns (fmLines: seq<string>, body: string)
    requires StartsWithFrontmatter(raw)
    ensures Parsed(true, fmLines, body) == ParseLines(After(SplitLines(raw), 0))
  {
    var lines := SplitLinesPreserve(raw);
    ScanDone(raw);
    fmLines, body := ScanTokens(lines);
    if raw[|raw| - 1] != '\n' && |body| > 0 && body[|body| - 1] == '\n' {
      body := body[..|body| - 1];
    }
  }

  method ParseSkillMD(s: string) returns (hasFrontmatter: bool, fmLines: seq<string>, body: string)
    ensures Parsed(hasFrontmatter, fmLines, body) == Parse(s)
  {
    var raw := if Text.HasPrefix(s, BOM) then s[3..] else s;
    if !StartsWithFrontmatter(raw) { return false, [], raw; }
    hasFrontmatter := true;
    fmLines, body := ParseOpened(raw);
  }

  lemma {:induction false} WrittenEnds(tokens: seq<string>)
    ensures var w := Written(tokens); if tokens == [] then w == "" else w != "" && w[|w| - 1] == '\n'
  {
    if |tokens| > 1 { WrittenEnds(tokens[1..]); }
  }

  // ---------------------------------------------------------------- agreement with the injector

  lemma {:induction false} TrimNoLF(t: string)
    requires '\n' !in t
    ensures Text.TrimRight(t, IsEol) == Text.TrimRight(t, IsCR)
  {
    if t != [] && IsCR(t[|t| - 1]) { TrimNoLF(t[..|t| - 1]); }
  }

  /** On a terminated line the parser and the injector look for the same fence. */
  lemma SameFence(line: string)
    requires Complete(line)
    ensures Closes(Token(line)) <==> IsFence(line)
  {
    var t := DropLF(line);
    TrimNoLF(t);
    assert Text.TrimRight(line, IsEol) == Text.TrimRight(t, IsEol);
    assert Text.TrimRight(t, IsCR) == Text.TrimRight(Token(line), IsCR);
  }

  lemma SameIndex(lines: seq<string>, close: string, rest: seq<string>)
    requires AllComplete(lines) && NoneOf(lines, IsFence) && IsClose(close)
    ensures CloseIndex(Tokens(lines + [close] + rest)) == |lines|
  {
    SameFence(close);
    forall i | 0 <= i < |lines| ensures !Closes(Tokens(lines)[i]) {
      SameFence(lines[i]);
      MapAt(lines, Token, i);
    }
    MapConcat(lines + [close], rest, Token);
    MapAppend(lines, close, Token);
    PositionAt(Tokens(lines), Token(close), Tokens(rest), Closes);
  }

  /** Where the injector sees a closed frontmatter, the parser reads exactly its lines and its body. */
  lemma ParseClosed(raw: string)
    requires Cut(raw).Closed?
    ensures var d := Cut(raw); ParseLines(After(SplitLines(raw), 0)) == Parsed(true, Tokens(d.lines), BodyOf(SplitLines(d.body)))
  {
    RenderCut(raw);
    var d := Cut(raw);
    LinesOfClosed(d);
    var rest := d.lines + [d.close] + SplitLines(d.body);
    assert ([d.open] + rest)[1..] == rest;
    ParseLinesAt(d.lines, d.close, SplitLines(d.body));
  }

  lemma ParseLinesAt(lines: seq<string>, close: string, rest: seq<string>)
    requires AllComplete(lines) && NoneOf(lines, IsFence) && IsClose(close)
    ensures ParseLines(lines + [close] + rest) == Parsed(true, Tokens(lines), BodyOf(rest))
  {
    var all := lines + [close] + rest;
    SameIndex(lines, close, rest);
    assert all[..|lines|] == lines && After(all, |lines|) == rest;
  }

  lemma {:induction false} KeySeen(line: string, cut: nat)
    requires cut <= |line| && forall i | cut <= i < |line| :: IsEol(line[i])
    ensures Breadcrumb.HasKey(line) <==> Breadcrumb.HasKey(line[..cut])
  {
    if line != [] && Breadcrumb.IsBlank(line[0]) {
      assert cut > 0;
      KeySeen(line[1..], cut - 1);
      assert line[..cut][1..] == line[1..][..cut - 1];
    } else {
      KeySeenHere(line, cut);
    }
  }

  lemma KeySeenHere(line: string, cut: nat)
    requires cut <= |line| && (forall i | cut <= i < |line| :: IsEol(line[i])) && (line == [] || !Breadcrumb.IsBlank(line[0]))
    ensures Breadcrumb.HasKey(line) <==> Breadcrumb.HasKey(line[..cut])
  {
    var key := Breadcrumb.KEY + ":";
    assert Breadcrumb.HasKey(line) <==> Text.HasPrefix(line, key);
    assert Breadcrumb.HasKey(line[..cut]) <==> Text.HasPrefix(line[..cut], key);
    if Text.HasPrefix(line, key) {
      assert forall i | 0 <= i < |key| :: line[i] == key[i] && !IsEol(key[i]);
      assert |key| <= cut;
      assert line[..cut][..|key|] == line[..|key|];
    }
    if Text.HasPrefix(line[..cut], key) { assert line[..cut][..|key|] == line[..|key|]; }
  }

  lemma KeyToken(line: string)
    ensures Breadcrumb.HasKey(line) <==> Breadcrumb.HasKey(Token(line))
  {
    var n := |Token(line)|;
    assert Token(line) == line[..n];
    KeySeen(line, n);
  }

  /** fm with its first key line, or else a new last line, set to the reference. */
  ghost predicate FirstKeySet(fm: seq<string>, ref: string, k: nat, out: seq<string>)
  {
    && k <= |fm| && !Any(fm[..k], Breadcrumb.HasKey) && (k < |fm| ==> Breadcrumb.HasKey(fm[k]))
    && out == fm[..k] + [Breadcrumb.KeyLine(ref)] + After(fm, k)
  }

  lemma PutTokens(lines: seq<string>, ref: string) returns (k: nat)
    requires AllComplete(lines) && Breadcrumb.OneLine(ref)
    ensures FirstKeySet(Tokens(lines), ref, k, Tokens(Breadcrumb.Put(lines, ref)))
  {
    var eol;
    k, eol := Breadcrumb.PutMeans(lines, ref);
    KeyLineToken(ref, eol);
    TokensKeepKeys(lines, k);
    MapAround(lines, k, Breadcrumb.KeyLine(ref) + eol, Token);
  }

  lemma TokensKeepKeys(lines: seq<string>, k: nat)
    requires k <= |lines| && !Any(lines[..k], Breadcrumb.HasKey) && (k < |lines| ==> Breadcrumb.HasKey(lines[k]))
    ensures !Any(Tokens(lines)[..k], Breadcrumb.HasKey) && (k < |lines| ==> Breadcrumb.HasKey(Tokens(lines)[k]))
  {
    if k < |lines| {
      KeyToken(lines[k]);
      MapAt(lines, Token, k);
    }
    forall i | 0 <= i < k ensures !Breadcrumb.HasKey(Tokens(lines)[..k][i]) {
      assert lines[..k][i] == lines[i];
      KeyToken(lines[i]);
      MapAt(lines, Token, i);
    }
  }

  lemma KeyLineToken(ref: string, eol: string)
    requires Breadcrumb.OneLine(ref) && (eol == "\n" || eol == "\r\n")
    ensures Token(Breadcrumb.KeyLine(ref) + eol) == Breadcrumb.KeyLine(ref)
  {
    var key := Breadcrumb.KeyLine(ref);
    assert key[|key| - 1] == ref[|ref| - 1];
    assert eol == "\r\n" ==> DropLF(key + eol) == key + "\r";
    assert (key + "\r")[..|key|] == key && (key + "\n")[..|key|] == key;
  }

  lemma WithoutBomInject(s: string, ref: string)
    requires Breadcrumb.OneLine(ref)
    ensures WithoutBom(Breadcrumb.InjectText(s, ref)) == Breadcrumb.InjectBare(WithoutBom(s), ref)
  {
    if Text.HasPrefix(s, BOM) {
      var out := BOM + Breadcrumb.InjectBare(s[3..], ref);
      assert out[..3] == BOM && out[3..] == Breadcrumb.InjectBare(s[3..], ref);
    } else {
      Breadcrumb.InjectBareHasNoBom(s, ref);
    }
  }

  /**
   * The parser's view of an injected document, for every document with or without a BOM:
   * a closed frontmatter keeps its body and its lines but the key line; an unclosed one is left alone;
   * a document without frontmatter gains one with the key line only, and its text is read line by line.
   */
  lemma ParseInject(s: string, ref: string) returns (k: nat)
    requires Breadcrumb.OneLine(ref)
    ensures var t, p, q := WithoutBom(s), Parse(s), Parse(Breadcrumb.InjectText(s, ref));
      match Cut(t)
      case Closed(_, _, _, _) => q.hasFrontmatter && q.body == p.body && FirstKeySet(p.fmLines, ref, k, q.fmLines)
      case Unclosed(_) => q == p
      case Bare(_) => p == Parsed(false, [], t) && q == Parsed(true, [Breadcrumb.KeyLine(ref)], BodyOf(SplitLines(t)))
  {
    k := 0;
    var t := WithoutBom(s);
    WithoutBomInject(s, ref);
    Breadcrumb.CutInject(t, ref);
    RenderCut(t);
    RenderCut(Breadcrumb.InjectBare(t, ref));
    match Cut(t)
    case Closed(_, lines, _, _) =>
      ParseClosed(t);
      ParseClosed(Breadcrumb.InjectBare(t, ref));
      k := PutTokens(lines, ref);
    case Unclosed(_) =>
    case Bare(_) =>
      ParseClosed(Breadcrumb.InjectBare(t, ref));
      KeyLineToken(ref, "\n");
  }

  predicate EndsInCR(line: string)
  {
    Text.HasSuffix(line, "\r") || Text.HasSuffix(line, "\r\n")
  }

  /** A line as SplitLines makes it. */
  predicate OneLineOnly(line: string)
  {
    Complete(line) || '\n' !in line
  }

  lemma KeptMeans(line: string)
    requires OneLineOnly(line)
    ensures |Kept(line)| <= |line| && (Kept(line) == line <==> !EndsInCR(line)) && (Kept(line) != line ==> |Kept(line)| < |line|)
  {
    if Complete(line) {
      assert line == line[..|line| - 1] + "\n";
      assert EndsInCR(line) <==> |line| > 1 && line[|line| - 2] == '\r';
    } else {
      assert EndsInCR(line) <==> line != [] && line[|line| - 1] == '\r';
    }
  }

  lemma SamePieces(a: string, b: string, c: string, d: string)
    requires |a| <= |c| && |b| <= |d|
    ensures a + b == c + d <==> a == c && b == d
  {
    if a + b == c + d {
      assert |a| == |c| && (a + b)[..|a|] == a && (c + d)[..|a|] == c;
      assert (a + b)[|a|..] == b && (c + d)[|a|..] == d;
    }
  }

  lemma {:induction false} BodyExact(lines: seq<string>)
    requires forall i | 0 <= i < |lines| :: OneLineOnly(lines[i])
    ensures |BodyOf(lines)| <= |Join(lines)|
    ensures BodyOf(lines) == Join(lines) <==> !Any(lines, EndsInCR)
  {
    if lines != [] {
      KeptMeans(lines[0]);
      BodyExact(lines[1..]);
      AnyStep(lines, EndsInCR);
      SamePieces(Kept(lines[0]), BodyOf(lines[1..]), lines[0], Join(lines[1..]));
    }
  }

  predicate NoLineEndsInCR(t: string)
  {
    !Any(SplitLines(t), EndsInCR)
  }

  lemma LinesAreLines(t: string)
    ensures forall i | 0 <= i < |SplitLines(t)| :: OneLineOnly(SplitLines(t)[i])
  {
    SplitShape(t);
  }

  lemma TextExactIff(t: string)
    ensures BodyOf(SplitLines(t)) == t <==> NoLineEndsInCR(t)
  {
    LinesAreLines(t);
    JoinSplit(t);
    var lines := SplitLines(t);
    BodyExact(lines);
  }

  /** Injecting changes the parsed body exactly when it adds the first frontmatter to a text with a line that ends in CR. */
  lemma BodyKeptIff(s: string, ref: string)
    requires Breadcrumb.OneLine(ref)
    ensures var t := WithoutBom(s);
      Parse(Breadcrumb.InjectText(s, ref)).body == Parse(s).body <==> StartsWithFrontmatter(t) || NoLineEndsInCR(t)
  {
    var k := ParseInject(s, ref);
    var t := WithoutBom(s);
    TextExactIff(t);
    assert StartsWithFrontmatter(t) <==> !Cut(t).Bare?;
  }
}
