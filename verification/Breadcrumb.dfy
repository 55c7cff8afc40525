// InjectBreadcrumb and StripBreadcrumb (pkg/provenance/provenance.go) as a lens on the bytes of a SKILL.md.

module Breadcrumb {
  import opened FirstMatch
  import opened Frontmatter
  import Text

  const KEY := "installed_from"

  predicate IsBlank(c: char)
  {
    c == ' ' || c == '\t'
  }

  predicate HasKey(line: string)
  {
    var trimmed := Text.TrimLeft(line, IsBlank);
    Text.HasPrefix(trimmed, KEY) && |trimmed| > |KEY| && trimmed[|KEY|] == ':'
  }

  /** CRLF if the text has any. */
  function Dominant(b: string): string
  {
    if exists i :: 0 <= i < |b| - 1 && b[i] == '\r' && b[i + 1] == '\n' then "\r\n" else "\n"
  }

  function Ending(line: string, fallback: string): string
  {
    if Text.HasSuffix(line, "\r\n") then "\r\n" else if Text.HasSuffix(line, "\n") then "\n" else fallback
  }

  function KeyLine(ref: string): string
  {
    KEY + ": " + ref
  }

  /** The key line that takes the place of `line`. */
  function Rewrite(ref: string, fallback: string): string -> string
  {
    line => KeyLine(ref) + Ending(line, fallback)
  }

  /** replaceOrAppendKey on the raw frontmatter text. */
  function PutText(fm: string, ref: string): string
  {
    var lines, eol := SplitLines(fm), Dominant(fm);
    if Any(lines, HasKey) then Join(ReplaceFirst(lines, HasKey, Rewrite(ref, eol)))
    else (if fm != [] && fm[|fm| - 1] != '\n' then fm + eol else fm) + KeyLine(ref) + eol
  }

  /** The line loop: the first key line is rewritten, the others are copied. */
  method ReplaceLines(lines: seq<string>, ref: string, eol: string) returns (out: string, replaced: bool)
    ensures replaced <==> Any(lines, HasKey)
    ensures out == if replaced then Join(ReplaceFirst(lines, HasKey, Rewrite(ref, eol))) else Join(lines)
  {
    ghost var goal := Join(ReplaceFirst(lines, HasKey, Rewrite(ref, eol)));
    replaced := false;
    out := [];
    for i := 0 to |lines|
      invariant replaced <==> Any(lines[..i], HasKey)
      invariant replaced ==> goal == out + Join(lines[i..])
      invariant !replaced ==> out == Join(lines[..i]) && goal == out + Join(ReplaceFirst(lines[i..], HasKey, Rewrite(ref, eol)))
    {
      Extend(lines, i, ref, eol, out);
      if !replaced && HasKey(lines[i]) {
        out := out + KeyLine(ref) + Ending(lines[i], eol);
        replaced := true;
      } else {
        out := out + lines[i];
      }
    }
    assert lines[..|lines|] == lines && lines[|lines|..] == [];
  }

  method ReplaceOrAppendKey(fm: string, ref: string) returns (out: string)
    ensures out == PutText(fm, ref)
  {
    var eol := Dominant(fm);
    var lines := SplitLinesPreserve(fm);
    var replaced;
    out, replaced := ReplaceLines(lines, ref, eol);
    if !replaced {
      JoinSplit(fm);
      if |out| > 0 && out[|out| - 1] != '\n' { out := out + eol; }
      out := out + KeyLine(ref) + eol;
    }
  }

  /** How the pieces of the loop invariant move on by one line. */
  lemma Extend(lines: seq<string>, i: nat, ref: string, eol: string, out: string)
    requires i < |lines|
    ensures Any(lines[..i + 1], HasKey) <==> Any(lines[..i], HasKey) || HasKey(lines[i])
    ensures Join(lines[..i + 1]) == Join(lines[..i]) + lines[i]
    ensures out + Join(lines[i..]) == (out + lines[i]) + Join(lines[i + 1..])
    ensures var r := Rewrite(ref, eol);
      out + Join(ReplaceFirst(lines[i..], HasKey, r)) ==
        if HasKey(lines[i]) then (out + KeyLine(ref) + Ending(lines[i], eol)) + Join(lines[i + 1..])
        else (out + lines[i]) + Join(ReplaceFirst(lines[i + 1..], HasKey, r))
  {
    assert lines[..i + 1] == lines[..i] + [lines[i]];
    assert lines[i..] == [lines[i]] + lines[i + 1..];
    ExtendDone(lines[..i], lines[i]);
    ExtendAhead(lines[i], lines[i + 1..], ref, eol, out);
  }

  lemma ExtendDone(done: seq<string>, line: string)
    ensures Any(done + [line], HasKey) <==> Any(done, HasKey) || HasKey(line)
    ensures Join(done + [line]) == Join(done) + line
  {
    AnyAppend(done, line, HasKey);
    JoinConcat(done, [line]);
    JoinCons(line, []);
    assert [line] + [] == [line] && line + "" == line;
  }

  lemma ExtendAhead(line: string, rest: seq<string>, ref: string, eol: string, out: string)
    ensures out + Join([line] + rest) == (out + line) + Join(rest)
    ensures var r := Rewrite(ref, eol);
      out + Join(ReplaceFirst([line] + rest, HasKey, r)) ==
        if HasKey(line) then (out + KeyLine(ref) + Ending(line, eol)) + Join(rest)
        else (out + line) + Join(ReplaceFirst(rest, HasKey, r))
  {
    var r := Rewrite(ref, eol);
    JoinHead(line, rest, out);
    ReplaceHead(line, rest, r);
    JoinHead(r(line), rest, out);
    JoinHead(line, ReplaceFirst(rest, HasKey, r), out);
    Assoc(out, KeyLine(ref), Ending(line, eol));
  }

  lemma JoinHead(line: string, rest: seq<string>, out: string)
    ensures out + Join([line] + rest) == (out + line) + Join(rest)
  {
    JoinCons(line, rest);
    Assoc(out, line, Join(rest));
  }

  lemma ReplaceHead(line: string, rest: seq<string>, r: string -> string)
    ensures ReplaceFirst([line] + rest, HasKey, r) == if HasKey(line) then [r(line)] + rest else [line] + ReplaceFirst(rest, HasKey, r)
  {
    assert ([line] + rest)[1..] == rest;
  }

  // ---------------------------------------------------------------- the edit, on lines

  /** The frontmatter lines with the key set. */
  function Put(lines: seq<string>, ref: string): seq<string>
  {
    var eol := Dominant(Join(lines));
    if Any(lines, HasKey) then ReplaceFirst(lines, HasKey, Rewrite(ref, eol)) else lines + [KeyLine(ref) + eol]
  }

  function InjectDoc(d: Doc, ref: string): Doc
  {
    match d
    case Bare(text) => Closed("---\n", [KeyLine(ref) + "\n"], "---\n", text)
    case Unclosed(_) => d
    case Closed(open, lines, close, body) => Closed(open, Put(lines, ref), close, body)
  }

  /** The injected text of a document without BOM. */
  function InjectBare(s: string, ref: string): string
  {
    Render(InjectDoc(Cut(s), ref))
  }

  function InjectText(s: string, ref: string): string
  {
    if ref == "" then s
    else if Text.HasPrefix(s, BOM) then BOM + InjectBare(s[3..], ref)
    else InjectBare(s, ref)
  }

  /** A reference that stays on its line. */
  predicate OneLine(ref: string)
  {
    ref != "" && '\n' !in ref && '\r' !in ref
  }

  lemma KeyLineHasKey(ref: string, eol: string)
    ensures HasKey(KeyLine(ref) + eol)
  {
    var line := KeyLine(ref) + eol;
    assert line[0] == 'i' && Text.TrimLeft(line, IsBlank) == line;
    assert line[..|KEY|] == KEY;
  }

  lemma KeyLineShape(ref: string, eol: string)
    requires OneLine(ref) && (eol == "\n" || eol == "\r\n")
    ensures var line := KeyLine(ref) + eol;
      Complete(line) && !IsFence(line) && Ending(line, "") == eol
  {
    var line := KeyLine(ref) + eol;
    assert line[|line| - |eol|..] == eol;
    var last := line[|line| - 2];
    assert eol == "\n" ==> last == KeyLine(ref)[|KeyLine(ref)| - 1] && last != '\r';
    Text.TrimRightMeans(line, IsEol);
    assert line[0] != "---"[0];
  }

  lemma EndingOfComplete(line: string, a: string, b: string)
    requires Complete(line)
    ensures Ending(line, a) == Ending(line, b) && (Ending(line, a) == "\n" || Ending(line, a) == "\r\n")
  {
    assert line[|line| - 1..] == "\n";
  }

  /** Put changes one line: the first with the key, or a new last one. */
  lemma PutMeans(lines: seq<string>, ref: string) returns (k: nat, eol: string)
    requires AllComplete(lines)
    ensures k <= |lines| && !Any(lines[..k], HasKey) && (eol == "\n" || eol == "\r\n")
    ensures k < |lines| ==> HasKey(lines[k]) && eol == Ending(lines[k], "")
    ensures k == |lines| ==> eol == Dominant(Join(lines))
    ensures Put(lines, ref) == lines[..k] + [KeyLine(ref) + eol] + After(lines, k)
  {
    if Any(lines, HasKey) {
      k := First(lines, HasKey);
      var fallback := Dominant(Join(lines));
      ReplaceAt(lines[..k], lines[k], lines[k + 1..], HasKey, Rewrite(ref, fallback));
      SplitAt(lines, k);
      EndingOfComplete(lines[k], fallback, "");
      eol := Ending(lines[k], "");
    } else {
      k, eol := |lines|, Dominant(Join(lines));
      SplitAt(lines, k);
    }
  }

  lemma PutKeepsShape(lines: seq<string>, ref: string)
    requires AllComplete(lines) && OneLine(ref) && NoneOf(lines, IsFence)
    ensures AllComplete(Put(lines, ref)) && NoneOf(Put(lines, ref), IsFence)
  {
    var k, eol := PutMeans(lines, ref);
    KeyLineShape(ref, eol);
    AllAround(lines, k, KeyLine(ref) + eol, IsContent);
    Contents(Put(lines, ref));
  }

  /** A complete line that is not a fence. */
  predicate IsContent(line: string)
  {
    Complete(line) && !IsFence(line)
  }

  lemma Contents(lines: seq<string>)
    requires forall i | 0 <= i < |lines| :: IsContent(lines[i])
    ensures AllComplete(lines) && NoneOf(lines, IsFence)
  {
  }

  lemma PutPut(lines: seq<string>, r1: string, r2: string)
    requires AllComplete(lines) && OneLine(r1) && OneLine(r2)
    ensures Put(Put(lines, r1), r2) == Put(lines, r2)
  {
    var k, eol := PutMeans(lines, r1);
    var k2, eol2 := PutMeans(lines, r2);
    FirstUnique(lines, HasKey, k, k2);
    PutOver(lines[..k], r1, eol, After(lines, k), r2);
  }

  /** Setting the key where it is already set, with some tail and no key before it. */
  lemma PutOver(head: seq<string>, r1: string, eol: string, tail: seq<string>, r2: string)
    requires !Any(head, HasKey) && OneLine(r1) && (eol == "\n" || eol == "\r\n")
    ensures Put(head + [KeyLine(r1) + eol] + tail, r2) == head + [KeyLine(r2) + eol] + tail
  {
    var line := KeyLine(r1) + eol;
    var fallback := Dominant(Join(head + [line] + tail));
    KeyLineHasKey(r1, eol);
    KeyLineShape(r1, eol);
    EndingOfComplete(line, "", fallback);
    ReplaceAt(head, line, tail, HasKey, Rewrite(r2, fallback));
  }

  // ---------------------------------------------------------------- lens laws

  lemma InjectDocWellFormed(d: Doc, ref: string)
    requires WellFormed(d) && OneLine(ref)
    ensures WellFormed(InjectDoc(d, ref))
  {
    match d
    case Bare(_) =>
      KeyLineShape(ref, "\n");
      FenceLine();
    case Unclosed(_) =>
    case Closed(_, lines, _, _) => PutKeepsShape(lines, ref);
  }

  lemma FenceLine()
    ensures Complete("---\n") && IsFence("---\n")
  {
    assert Text.TrimRight("---\n", IsEol) == Text.TrimRight("---", IsEol);
  }

  /** The injected text is cut where the original was: only the lines between the fences can differ. */
  lemma CutInject(s: string, ref: string)
    requires OneLine(ref)
    ensures Cut(InjectBare(s, ref)) == InjectDoc(Cut(s), ref)
  {
    RenderCut(s);
    InjectDocWellFormed(Cut(s), ref);
    CutRender(InjectDoc(Cut(s), ref));
  }

  lemma InjectDocTwice(d: Doc, r1: string, r2: string)
    requires WellFormed(d) && OneLine(r1) && OneLine(r2)
    ensures InjectDoc(InjectDoc(d, r1), r2) == InjectDoc(d, r2)
  {
    match d
    case Bare(_) =>
      PutOver([], r1, "\n", [], r2);
      assert [] + [KeyLine(r1) + "\n"] + [] == [KeyLine(r1) + "\n"];
      assert [] + [KeyLine(r2) + "\n"] + [] == [KeyLine(r2) + "\n"];
    case Unclosed(_) =>
    case Closed(_, lines, _, _) => PutPut(lines, r1, r2);
  }

  lemma InjectBareHasNoBom(s: string, ref: string)
    requires !Text.HasPrefix(s, BOM)
    ensures !Text.HasPrefix(InjectBare(s, ref), BOM)
  {
    RenderCut(s);
    match Cut(s)
    case Bare(_) => assert InjectBare(s, ref)[0] == '-';
    case Unclosed(_) =>
    case Closed(open, _, _, _) => assert InjectBare(s, ref)[0] == open[0] == '-';
  }

  /** The last injection wins, for every document; with r1 == r2 this is idempotence. */
  lemma InjectInject(s: string, r1: string, r2: string)
    requires OneLine(r1) && OneLine(r2)
    ensures InjectText(InjectText(s, r1), r2) == InjectText(s, r2)
  {
    var t := if Text.HasPrefix(s, BOM) then s[3..] else s;
    CutInject(t, r1);
    RenderCut(t);
    InjectDocTwice(Cut(t), r1, r2);
    if Text.HasPrefix(s, BOM) {
      var once := BOM + InjectBare(t, r1);
      assert once[..3] == BOM && once[3..] == InjectBare(t, r1);
    } else {
      InjectBareHasNoBom(s, r1);
    }
  }

  lemma FivePieces(a: string, b: string, c: string, d: string, e: string, f: string)
    ensures a + (b + c + d) + e + f == (a + b) + c + (d + e + f)
  {
    assert a + (b + c + d) + e + f == a + b + c + d + e + f;
  }

  lemma RenderAroundLine(open: string, head: seq<string>, line: string, tail: seq<string>, close: string, body: string)
    ensures Render(Closed(open, head + [line] + tail, close, body)) == (open + Join(head)) + line + (Join(tail) + close + body)
  {
    JoinAround(head, line, tail);
    FivePieces(open, Join(head), line, Join(tail), close, body);
  }

  lemma RenderAtEnd(open: string, lines: seq<string>, close: string, body: string)
    ensures Render(Closed(open, lines, close, body)) == (open + Join(lines)) + "" + (Join([]) + close + body)
  {
    FivePieces(open, Join(lines), "", "", close, body);
    assert Join(lines) + "" + "" == Join(lines);
  }

  /** The line at k; nothing when k is past the end. */
  function LineAt(lines: seq<string>, k: nat): string
  {
    if k < |lines| then lines[k] else ""
  }

  lemma RenderAt(open: string, lines: seq<string>, k: nat, close: string, body: string)
    requires k <= |lines|
    ensures Render(Closed(open, lines, close, body))
         == (open + Join(lines[..k])) + LineAt(lines, k) + (Join(After(lines, k)) + close + body)
  {
    if k < |lines| {
      RenderAroundLine(open, lines[..k], lines[k], After(lines, k), close, body);
    } else {
      RenderAtEnd(open, lines, close, body);
    }
    SplitAt(lines, k);
  }

  /** On a closed document exactly one line is written; all bytes before and after it stay. */
  lemma InjectIsLocal(s: string, ref: string) returns (before: string, was: string, eol: string, after: string)
    requires OneLine(ref) && Cut(s).Closed?
    ensures s == before + was + after && InjectBare(s, ref) == before + (KeyLine(ref) + eol) + after
    ensures was == "" || (Complete(was) && HasKey(was) && eol == Ending(was, ""))
  {
    var d := Cut(s);
    RenderCut(s);
    var k;
    k, eol := PutMeans(d.lines, ref);
    before, was, after := d.open + Join(d.lines[..k]), LineAt(d.lines, k), Join(After(d.lines, k)) + d.close + d.body;
    RenderAt(d.open, d.lines, k, d.close, d.body);
    RenderAroundLine(d.open, d.lines[..k], KeyLine(ref) + eol, After(d.lines, k), d.close, d.body);
  }

  /** Exactly one key line is promised; a frontmatter that already had several keeps the others. */
  lemma KeyCountAfter(lines: seq<string>, ref: string)
    requires AllComplete(lines)
    ensures Count(Put(lines, ref), HasKey) == if Count(lines, HasKey) == 0 then 1 else Count(lines, HasKey)
  {
    var k, eol := PutMeans(lines, ref);
    KeyLineHasKey(ref, eol);
    WithoutSwap(lines, k, KeyLine(ref) + eol, HasKey);
    NoneIff(lines, HasKey);
    SplitAt(lines, k);
  }

  // ---------------------------------------------------------------- strip

  function StripDoc(d: Doc): Doc
  {
    if d.Closed? then d.(lines := Without(d.lines, HasKey)) else d
  }

  function StripText(s: string): string
  {
    Render(StripDoc(Cut(s)))
  }

  lemma WithoutKeyPut(lines: seq<string>, ref: string)
    requires AllComplete(lines)
    ensures Without(Put(lines, ref), HasKey) == Without(lines, HasKey)
  {
    var k, eol := PutMeans(lines, ref);
    KeyLineHasKey(ref, eol);
    WithoutSwap(lines, k, KeyLine(ref) + eol, HasKey);
  }

  /** The first key line reads ref already. */
  predicate AlreadySays(lines: seq<string>, ref: string)
  {
    exists k :: 0 <= k < |lines| && SaysAt(lines, k, ref)
  }

  predicate SaysAt(lines: seq<string>, k: nat, ref: string)
    requires k < |lines|
  {
    !Any(lines[..k], HasKey) && HasKey(lines[k]) && lines[k] == KeyLine(ref) + Ending(lines[k], "")
  }

  lemma PutNothingIff(lines: seq<string>, ref: string)
    requires AllComplete(lines)
    ensures Put(lines, ref) == lines <==> AlreadySays(lines, ref)
  {
    var k, eol := PutMeans(lines, ref);
    SplitAt(lines, k);
    if AlreadySays(lines, ref) {
      var j :| 0 <= j < |lines| && SaysAt(lines, j, ref);
      FirstUnique(lines, HasKey, j, k);
      assert lines[k] == KeyLine(ref) + eol;
    }
    if Put(lines, ref) == lines {
      assert |lines[..k] + [KeyLine(ref) + eol] + After(lines, k)| == |lines|;
      assert lines[k] == (lines[..k] + [KeyLine(ref) + eol] + After(lines, k))[k];
      assert SaysAt(lines, k, ref);
    }
  }

  /** Injecting writes nothing new: no closed frontmatter to write to, or the reference is there. */
  predicate NothingToWrite(d: Doc, ref: string)
  {
    d.Unclosed? || (d.Closed? && AlreadySays(d.lines, ref))
  }

  lemma InjectNothingIff(s: string, ref: string)
    requires OneLine(ref)
    ensures InjectBare(s, ref) == s <==> NothingToWrite(Cut(s), ref)
  {
    RenderCut(s);
    CutInject(s, ref);
    if Cut(s).Closed? { PutNothingIff(Cut(s).lines, ref); }
  }

  /** StripBreadcrumb does not look behind a BOM. */
  lemma StripBehindBom(x: string)
    ensures StripText(BOM + x) == BOM + x
  {
    assert (BOM + x)[0] == BOM[0] != '-';
    assert !StartsWithFrontmatter(BOM + x);
  }

  /**
   * Stripping undoes injecting exactly when the text opens a frontmatter; behind a BOM, where stripping finds nothing,
   * exactly when injecting had nothing to write.
   */
  lemma StripInjectIff(s: string, ref: string)
    requires OneLine(ref)
    ensures StripText(InjectText(s, ref)) == StripText(s)
      <==> if Text.HasPrefix(s, BOM) then NothingToWrite(Cut(s[3..]), ref) else StartsWithFrontmatter(s)
  {
    if Text.HasPrefix(s, BOM) {
      var x := s[3..];
      assert s == BOM + x;
      StripBehindBom(x);
      StripBehindBom(InjectBare(x, ref));
      InjectNothingIff(x, ref);
      assert BOM + InjectBare(x, ref) == BOM + x ==> (BOM + InjectBare(x, ref))[3..] == (BOM + x)[3..];
    } else {
      StripInjectBareIff(s, ref);
    }
  }

  lemma StripInjectBareIff(s: string, ref: string)
    requires OneLine(ref)
    ensures StripText(InjectBare(s, ref)) == StripText(s) <==> StartsWithFrontmatter(s)
  {
    CutInject(s, ref);
    RenderCut(s);
    match Cut(s)
    case Bare(_) =>
      KeyLineHasKey(ref, "\n");
      assert Without([KeyLine(ref) + "\n"], HasKey) == [];
      assert |StripText(InjectBare(s, ref))| == |s| + 8;
    case Unclosed(_) =>
    case Closed(_, lines, _, _) => WithoutKeyPut(lines, ref);
  }

  lemma {:induction false} WithoutKeyShortens(lines: seq<string>, p: string -> bool)
    requires forall i | 0 <= i < |lines| :: lines[i] != []
    ensures |Join(Without(lines, p))| <= |Join(lines)|
    ensures Any(lines, p) ==> |Join(Without(lines, p))| < |Join(lines)|
  {
    if lines != [] {
      AnyStep(lines, p);
      WithoutKeyShortens(lines[1..], p);
      var rest := Without(lines[1..], p);
      assert !p(lines[0]) ==> ([lines[0]] + rest)[1..] == rest;
      assert p(lines[0]) ==> Without(lines, p) == rest;
    }
  }

  /** Stripping changes nothing exactly when the frontmatter has no key line. */
  lemma StripNothingIff(s: string)
    ensures StripText(s) == s <==> !(Cut(s).Closed? && Any(Cut(s).lines, HasKey))
  {
    RenderCut(s);
    if Cut(s).Closed? {
      var d := Cut(s);
      WithoutKeyShortens(d.lines, HasKey);
      NoneIff(d.lines, HasKey);
      assert |StripText(s)| == |d.open| + |Join(Without(d.lines, HasKey))| + |d.close| + |d.body|;
      assert |s| == |d.open| + |Join(d.lines)| + |d.close| + |d.body|;
    }
  }

  // ---------------------------------------------------------------- the program's entry points

  lemma PutTextJoin(lines: seq<string>, ref: string)
    requires AllComplete(lines)
    ensures PutText(Join(lines), ref) == Join(Put(lines, ref))
  {
    var fm, eol := Join(lines), Dominant(Join(lines));
    SplitJoin(lines, "");
    assert fm + "" == fm && lines + SplitLines("") == lines;
    JoinEndsWithLF(lines);
    JoinConcat(lines, [KeyLine(ref) + eol]);
    assert [KeyLine(ref) + eol][1..] == [] && Join([KeyLine(ref) + eol]) == KeyLine(ref) + eol;
    assert fm + KeyLine(ref) + eol == fm + (KeyLine(ref) + eol);
  }

  lemma {:induction false} JoinEndsWithLF(lines: seq<string>)
    requires AllComplete(lines)
    ensures var fm := Join(lines); fm == [] || fm[|fm| - 1] == '\n'
  {
    if lines != [] { JoinEndsWithLF(lines[1..]); }
  }

  /** Where the two byte positions found by the search cut the text. */
  lemma CutAt(s: string, start: nat, end: nat)
    requires StartsWithFrontmatter(s) && Cut(s).Closed?
    requires start == OpenEnd(s) + |Join(Cut(s).lines)| && end == start + |Cut(s).close|
    ensures var d := Cut(s);
      && OpenEnd(s) <= start <= end <= |s|
      && d.open == s[..OpenEnd(s)] && Join(d.lines) == s[OpenEnd(s)..start] && d.close == s[start..end] && d.body == s[end..]
      && AllComplete(d.lines)
  {
    var d, n := Cut(s), OpenEnd(s);
    RenderCut(s);
    SplitShape(s[n..]);
    FourCuts(s, d.open, Join(d.lines), d.close, d.body);
  }

  lemma FourCuts(s: string, x: string, y: string, z: string, w: string)
    requires s == x + y + z + w
    ensures |x| + |y| + |z| <= |s| && x == s[..|x|] && y == s[|x|..|x| + |y|]
    ensures z == s[|x| + |y|..|x| + |y| + |z|] && w == s[|x| + |y| + |z|..]
  {
  }

  /** The edit of a text that opens a frontmatter, on the bytes. */
  method InjectOpened(src: string, ref: string) returns (out: string)
    requires StartsWithFrontmatter(src)
    ensures out == InjectBare(src, ref)
  {
    var closeStart, closeEnd, ok := FindFrontmatterCloseRange(src);
    if !ok { return src; }
    CutAt(src, closeStart, closeEnd);
    var openEnd := OpenEnd(src);
    var updated := ReplaceOrAppendKey(src[openEnd..closeStart], ref);
    PutTextJoin(Cut(src).lines, ref);
    out := src[..openEnd] + updated + src[closeStart..closeEnd] + src[closeEnd..];
  }

  method StripBreadcrumb(src: string) returns (out: string)
    ensures out == StripText(src)
  {
    if !StartsWithFrontmatter(src) { return src; }
    var openEnd := OpenEnd(src);
    var closeStart, closeEnd, ok := FindFrontmatterCloseRange(src);
    if !ok { return src; }
    CutAt(src, closeStart, closeEnd);
    var lines := SplitLinesPreserve(src[openEnd..closeStart]);
    SplitJoin(Cut(src).lines, "");
    assert Join(Cut(src).lines) + "" == Join(Cut(src).lines) && Cut(src).lines + SplitLines("") == Cut(src).lines;
    var stripped := DropKeyLines(lines);
    out := src[..openEnd] + stripped + src[closeStart..closeEnd] + src[closeEnd..];
  }

  method DropKeyLines(lines: seq<string>) returns (out: string)
    ensures out == Join(Without(lines, HasKey))
  {
    out := [];
    for i := 0 to |lines|
      invariant out == Join(Without(lines[..i], HasKey))
    {
      assert lines[..i + 1] == lines[..i] + [lines[i]];
      WithoutConcat(lines[..i], [lines[i]], HasKey);
      JoinConcat(Without(lines[..i], HasKey), Without([lines[i]], HasKey));
      assert [lines[i]][1..] == [] && Join([lines[i]]) == lines[i];
      if !HasKey(lines[i]) { out := out + lines[i]; }
    }
    assert lines[..|lines|] == lines;
  }

  /** The block inserted in front of a text without frontmatter. */
  function FreshBlock(ref: string): string
  {
    "---\n" + KeyLine(ref) + "\n---\n"
  }

  /** A BOM, no frontmatter, and room in the slice's backing array for the block to be appended in place. */
  predicate AppendsInPlace(s: string, capacity: nat, ref: string)
  {
    ref != "" && Text.HasPrefix(s, BOM) && !StartsWithFrontmatter(s[3..]) && 3 + |FreshBlock(ref)| <= capacity
  }

  /** What is left of the text once its first bytes have been overwritten by the block. */
  function Clobbered(text: string, block: string): string
  {
    if |block| <= |text| then block + text[|block|..] else block[..|text|]
  }

  function InjectResult(s: string, capacity: nat, ref: string): string
  {
    if AppendsInPlace(s, capacity, ref) then BOM + FreshBlock(ref) + Clobbered(s[3..], FreshBlock(ref))
    else InjectText(s, ref)
  }

  /**
   * InjectBreadcrumb on a Go slice: the first n elements of buf, whose length is the slice's capacity.
   * append(bom, fm...) reuses buf when it has room, and then src, still pointing into buf, reads the new bytes.
   */
  method InjectBreadcrumb(buf: array<char>, n: nat, ref: string) returns (out: string)
    requires n <= buf.Length
    modifies buf
    ensures out == InjectResult(old(buf[..n]), buf.Length, ref)
    ensures !AppendsInPlace(old(buf[..n]), buf.Length, ref) ==> buf[..] == old(buf[..])
  {
    ghost var s := buf[..n];
    if ref == "" { return buf[..n]; }
    var offset := if Text.HasPrefix(buf[..n], BOM) then 3 else 0;
    var bom, src := buf[..offset], buf[offset..n];
    ResultByCase(s, offset, buf.Length, ref);
    assert bom == s[..offset] && src == s[offset..];
    if StartsWithFrontmatter(src) {
      var edited := InjectOpened(src, ref);
      return bom + edited;
    }
    var fm := FreshBlock(ref);
    if offset == 3 && 3 + |fm| <= buf.Length {
      out := AppendInPlace(buf, n, fm);
    } else {
      out := bom + fm + src;
    }
  }

  /** The cases of the specification, by what follows the BOM (if any). */
  lemma ResultByCase(s: string, offset: nat, capacity: nat, ref: string)
    requires ref != "" && offset == (if Text.HasPrefix(s, BOM) then 3 else 0)
    ensures InjectResult(s, capacity, ref) ==
      if StartsWithFrontmatter(s[offset..]) then s[..offset] + InjectBare(s[offset..], ref)
      else if offset == 3 && 3 + |FreshBlock(ref)| <= capacity then s[..offset] + FreshBlock(ref) + Clobbered(s[offset..], FreshBlock(ref))
      else s[..offset] + FreshBlock(ref) + s[offset..]
  {
    if offset == 0 {
      assert s[0..] == s && s[..0] == [] && [] + InjectBare(s, ref) == InjectBare(s, ref);
    }
    if !StartsWithFrontmatter(s[offset..]) { BareInjected(s[offset..], ref, s[..offset]); }
  }

  /** append(append(bom, fm...), src...) when bom is the start of src's own array. */
  method AppendInPlace(buf: array<char>, n: nat, fm: string) returns (out: string)
    requires 3 <= n <= buf.Length && 3 + |fm| <= buf.Length
    modifies buf
    ensures out == old(buf[..3]) + fm + Clobbered(old(buf[3..n]), fm)
  {
    WriteAt(buf, 3, fm);
    assert buf[..3 + |fm|] == old(buf[..3]) + fm;
    assert buf[3..n] == Clobbered(old(buf[3..n]), fm);
    out := buf[..3 + |fm|] + buf[3..n];
  }

  lemma BareInjected(text: string, ref: string, bom: string)
    requires !StartsWithFrontmatter(text)
    ensures bom + InjectBare(text, ref) == bom + FreshBlock(ref) + text
  {
    var line := KeyLine(ref) + "\n";
    assert [line][1..] == [] && Join([line]) == line;
    assert InjectBare(text, ref) == "---\n" + line + "---\n" + text;
    assert "---\n" + line + "---\n" == FreshBlock(ref);
    assert bom + (FreshBlock(ref) + text) == bom + FreshBlock(ref) + text;
  }

  method WriteAt(buf: array<char>, at: nat, bytes: string)
    requires at + |bytes| <= buf.Length
    modifies buf
    ensures buf[..] == old(buf[..at]) + bytes + old(buf[at + |bytes|..])
  {
    for i := 0 to |bytes|
      invariant buf[..] == old(buf[..at]) + bytes[..i] + old(buf[at + i..])
    {
      buf[at + i] := bytes[i];
    }
  }

  /**
   * The in-place append keeps the document exactly when the text after the BOM is a prefix of "---";
   * any longer text loses its beginning.
   */
  lemma InPlaceKeepsTextIff(s: string, capacity: nat, ref: string)
    requires AppendsInPlace(s, capacity, ref)
    ensures InjectResult(s, capacity, ref) == InjectText(s, ref) <==> s[3..] <= "---"
  {
    var text, block := s[3..], FreshBlock(ref);
    BareInjected(text, ref, BOM);
    var x, y := BOM + block + Clobbered(text, block), BOM + block + text;
    assert InjectText(s, ref) == y;
    assert x[|BOM + block|..] == Clobbered(text, block) && y[|BOM + block|..] == text;
    assert block[..3] == "---" && block[..4] == "---\n";
    if |text| >= 4 {
      assert Clobbered(text, block)[..4] == "---\n";
    } else {
      assert Clobbered(text, block) == block[..|text|] == "---"[..|text|];
    }
  }
}
