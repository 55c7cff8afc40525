// The on-disk form of an instinct and the body hash used to recognise it again (pkg/instincts/format.go).

module InstinctFormat {
  import opened Digests
  import opened Substring
  import opened Wrappers
  import ContentHash
  import Text

  // ---------------------------------------------------------------- the normalised body

  predicate IsNewline(c: char)
  {
    c == '\n'
  }

  predicate IsBlank(c: char)
  {
    c == ' ' || c == '\t'
  }

  /** strings.Join(lines, "\n"). */
  function JoinLF(lines: seq<string>): string
    requires lines != []
  {
    if |lines| == 1 then lines[0] else lines[0] + "\n" + JoinLF(lines[1..])
  }

  /** Each line without its trailing blanks. */
  function TrimLines(lines: seq<string>): (r: seq<string>)
    ensures |r| == |lines|
  {
    if lines == [] then [] else [Text.TrimRight(lines[0], IsBlank)] + TrimLines(lines[1..])
  }

  function NormaliseBody(s: string): string
  {
    Text.TrimSpace(JoinLF(TrimLines(Split(Text.ReplaceCR(Text.ReplaceCRLF(s))))))
  }

  method NormalizeBody(s: string) returns (r: string)
    ensures r == NormaliseBody(s)
  {
    var t := Text.ReplaceCR(Text.ReplaceCRLF(s));
    var lines := Split(t);
    for j := 0 to |lines|
      invariant |lines| == |Split(t)| && TrimmedTo(Split(t), j, lines)
    {
      lines := lines[j := Text.TrimRight(lines[j], IsBlank)];
    }
    TrimLinesAre(Split(t), lines);
    r := Text.TrimSpace(JoinLF(lines));
  }

  /** The loop has rewritten the first j lines in place. */
  ghost predicate TrimmedTo(was: seq<string>, j: nat, lines: seq<string>)
    requires |lines| == |was|
  {
    && (forall i | 0 <= i < |was| && i < j :: lines[i] == Text.TrimRight(was[i], IsBlank))
    && (forall i | j <= i < |was| :: lines[i] == was[i])
  }

  lemma {:induction false} TrimLinesAre(was: seq<string>, lines: seq<string>)
    requires |lines| == |was| && TrimmedTo(was, |was|, lines)
    ensures lines == TrimLines(was)
  {
    if was != [] {
      TrimLinesAre(was[1..], lines[1..]);
      assert lines == [lines[0]] + lines[1..];
    }
  }

  function BodyHashOf(body: string): Digest
  {
    Digest(NormaliseBody(body))
  }

  // ---------------------------------------------------------------- what normalising does

  /** Two passes of ReplaceAll are one pass over CRLF, CR and LF. */
  lemma {:induction false} TwoPasses(s: string)
    ensures Text.ReplaceCR(Text.ReplaceCRLF(s)) == ContentHash.NormaliseLF(s)
  {
    if s != "" {
      if |s| > 1 && s[0] == '\r' && s[1] == '\n' {
        TwoPasses(s[2..]);
        ReplaceCRHead('\n', Text.ReplaceCRLF(s[2..]));
      } else {
        TwoPasses(s[1..]);
        ReplaceCRHead(s[0], Text.ReplaceCRLF(s[1..]));
      }
    }
  }

  lemma ReplaceCRHead(c: char, rest: string)
    ensures Text.ReplaceCR([c] + rest) == [if c == '\r' then '\n' else c] + Text.ReplaceCR(rest)
  {
    assert ([c] + rest)[1..] == rest;
  }

  /** The blanks at line ends taken out, character by character. */
  function Strip(t: string): string
  {
    if t == "" then ""
    else
      var rest := Strip(t[1..]);
      if IsBlank(t[0]) && (rest == "" || rest[0] == '\n') then rest else [t[0]] + rest
  }

  lemma {:induction false} TrimRightHead(c: char, line: string)
    ensures Text.TrimRight([c] + line, IsBlank) ==
      if Text.TrimRight(line, IsBlank) == "" && IsBlank(c) then "" else [c] + Text.TrimRight(line, IsBlank)
  {
    var all := [c] + line;
    if line == "" {
      assert all[..0] == "" && all == [c];
    } else if IsBlank(line[|line| - 1]) {
      assert all[..|all| - 1] == [c] + line[..|line| - 1];
      TrimRightHead(c, line[..|line| - 1]);
    }
  }

  lemma JoinHead(line: string, rest: seq<string>)
    ensures JoinLF([line] + rest) == if rest == [] then line else line + "\n" + JoinLF(rest)
  {
    assert ([line] + rest)[1..] == rest;
  }

  lemma {:induction false} SplitHasNoLF(t: string)
    ensures '\n' !in Split(t)[0]
  {
    if t != "" { SplitHasNoLF(t[1..]); }
  }

  /** The program's way, over a list of lines, and the character-wise way agree. */
  lemma {:induction false} StripIs(t: string)
    ensures JoinLF(TrimLines(Split(t))) == Strip(t)
  {
    if t == "" {
      assert TrimLines([""]) == [""];
    } else {
      StripIs(t[1..]);
      StripStep(t[0], t[1..], Split(t[1..]));
      assert t == [t[0]] + t[1..];
    }
  }

  lemma StripStep(c: char, t: string, lines: seq<string>)
    requires lines == Split(t) && JoinLF(TrimLines(lines)) == Strip(t)
    ensures JoinLF(TrimLines(Split([c] + t))) == Strip([c] + t)
  {
    assert ([c] + t)[1..] == t;
    var first, rest := Text.TrimRight(lines[0], IsBlank), TrimLines(lines[1..]);
    assert TrimLines(lines) == [first] + rest;
    JoinHead(first, rest);
    if c == '\n' {
      TrimHead("", lines);
      JoinHead("", TrimLines(lines));
    } else {
      TrimHead([c] + lines[0], lines[1..]);
      JoinHead(Text.TrimRight([c] + lines[0], IsBlank), rest);
      TrimRightHead(c, lines[0]);
      SplitHasNoLF(t);
      FirstOfTrimmed(lines[0]);
    }
  }

  lemma TrimHead(line: string, rest: seq<string>)
    ensures TrimLines([line] + rest) == [Text.TrimRight(line, IsBlank)] + TrimLines(rest)
  {
    assert ([line] + rest)[1..] == rest;
  }

  lemma FirstOfTrimmed(line: string)
    requires '\n' !in line
    ensures var r := Text.TrimRight(line, IsBlank); r == "" || r[0] != '\n'
  {
    Text.TrimRightMeans(line, IsBlank);
    var r := Text.TrimRight(line, IsBlank);
    assert r != "" ==> r[0] == line[0];
  }

  /** normalizeBody in short. */
  lemma NormaliseBodyIs(s: string)
    ensures NormaliseBody(s) == Text.TrimSpace(Strip(ContentHash.NormaliseLF(s)))
  {
    TwoPasses(s);
    StripIs(ContentHash.NormaliseLF(s));
  }

  // ---------------------------------------------------------------- newlines around a body do not matter

  lemma {:induction false} StripBack(t: string)
    ensures Strip(t + "\n") == Strip(t) + "\n"
  {
    if t == "" { assert "" + "\n" == "\n"; } else {
      assert (t + "\n")[1..] == t[1..] + "\n";
      StripBack(t[1..]);
    }
  }

  lemma StripFront(t: string)
    ensures Strip("\n" + t) == "\n" + Strip(t)
  {
    assert ("\n" + t)[1..] == t;
  }

  lemma {:induction false} TrimLeftBack(u: string)
    ensures Text.TrimLeft(u + "\n", Text.IsSpace) ==
      if Text.TrimLeft(u, Text.IsSpace) == "" then "" else Text.TrimLeft(u, Text.IsSpace) + "\n"
  {
    if u == "" { assert "" + "\n" == "\n" && "\n"[1..] == ""; } else {
      assert (u + "\n")[1..] == u[1..] + "\n";
      TrimLeftBack(u[1..]);
    }
  }

  lemma TrimSpaceBack(u: string)
    ensures Text.TrimSpace(u + "\n") == Text.TrimSpace(u)
  {
    TrimLeftBack(u);
    var l := Text.TrimLeft(u, Text.IsSpace);
    assert (l + "\n")[..|l|] == l;
  }

  lemma TrimSpaceFront(u: string)
    ensures Text.TrimSpace("\n" + u) == Text.TrimSpace(u)
  {
    assert ("\n" + u)[1..] == u;
  }

  lemma NormaliseChar(c: char, x: string)
    requires c != '\r'
    ensures ContentHash.NormaliseLF([c] + x) == [c] + ContentHash.NormaliseLF(x)
  {
    assert ([c] + x)[1..] == x;
  }

  lemma NormaliseReturn(x: string)
    ensures ContentHash.NormaliseLF("\r\n" + x) == "\n" + ContentHash.NormaliseLF(x)
    ensures x == "" || x[0] != '\n' ==> ContentHash.NormaliseLF("\r" + x) == "\n" + ContentHash.NormaliseLF(x)
  {
    assert ("\r\n" + x)[2..] == x && ("\r" + x)[1..] == x;
  }

  lemma Assoc(x: string, y: string, z: string)
    ensures x + (y + z) == x + y + z
  {
  }

  /** A newline put behind s shows in the normal form, unless it completes a CRLF. */
  predicate Back(s: string)
  {
    ContentHash.NormaliseLF(s + "\n")
      == if s != "" && s[|s| - 1] == '\r' then ContentHash.NormaliseLF(s) else ContentHash.NormaliseLF(s) + "\n"
  }

  lemma BackChar(c: char, x: string)
    requires c != '\r' && Back(x)
    ensures Back([c] + x)
  {
    assert [c] + x + "\n" == [c] + (x + "\n");
    NormaliseChar(c, x);
    NormaliseChar(c, x + "\n");
    Assoc([c], ContentHash.NormaliseLF(x), "\n");
  }

  lemma BackPair(x: string)
    requires Back(x)
    ensures Back("\r\n" + x)
  {
    assert "\r\n" + x + "\n" == "\r\n" + (x + "\n");
    NormaliseReturn(x);
    NormaliseReturn(x + "\n");
    Assoc("\n", ContentHash.NormaliseLF(x), "\n");
  }

  lemma BackReturn(x: string)
    requires Back(x) && x != "" && x[0] != '\n'
    ensures Back("\r" + x)
  {
    assert "\r" + x + "\n" == "\r" + (x + "\n");
    NormaliseReturn(x);
    NormaliseReturn(x + "\n");
    Assoc("\n", ContentHash.NormaliseLF(x), "\n");
  }

  lemma BackEnds()
    ensures Back("") && Back("\r")
  {
    NormaliseChar('\n', "");
    NormaliseReturn("");
    assert "" + "\n" == ['\n'] + "" && "\r" + "\n" == "\r\n" + "" && "\r" == "\r" + "";
  }

  lemma {:induction false} NormaliseBack(s: string)
    ensures Back(s)
  {
    BackEnds();
    if s != "" && s != "\r" {
      if s[0] == '\r' && s[1] == '\n' {
        NormaliseBack(s[2..]);
        BackPair(s[2..]);
        assert s == "\r\n" + s[2..];
      } else {
        NormaliseBack(s[1..]);
        if s[0] == '\r' { BackReturn(s[1..]); } else { BackChar(s[0], s[1..]); }
        assert s == [s[0]] + s[1..];
      }
    }
  }

  lemma NormaliseFront(s: string)
    ensures ContentHash.NormaliseLF("\n" + s) == "\n" + ContentHash.NormaliseLF(s)
  {
    assert ("\n" + s)[1..] == s;
  }

  lemma BodyBack(s: string)
    ensures NormaliseBody(s + "\n") == NormaliseBody(s)
  {
    NormaliseBodyIs(s);
    NormaliseBodyIs(s + "\n");
    NormaliseBack(s);
    StripBack(ContentHash.NormaliseLF(s));
    TrimSpaceBack(Strip(ContentHash.NormaliseLF(s)));
  }

  lemma BodyFront(s: string)
    ensures NormaliseBody("\n" + s) == NormaliseBody(s)
  {
    NormaliseBodyIs(s);
    NormaliseBodyIs("\n" + s);
    NormaliseFront(s);
    StripFront(ContentHash.NormaliseLF(s));
    TrimSpaceFront(Strip(ContentHash.NormaliseLF(s)));
  }

  lemma {:induction false} BodyTrimRight(s: string)
    ensures NormaliseBody(Text.TrimRight(s, IsNewline)) == NormaliseBody(s)
  {
    if s != "" && IsNewline(s[|s| - 1]) {
      var t := s[..|s| - 1];
      BodyTrimRight(t);
      BodyBack(t);
      assert t + "\n" == s;
    }
  }

  lemma {:induction false} BodyTrimLeft(s: string)
    ensures NormaliseBody(Text.TrimLeft(s, IsNewline)) == NormaliseBody(s)
  {
    if s != "" && IsNewline(s[0]) {
      BodyTrimLeft(s[1..]);
      BodyFront(s[1..]);
      assert "\n" + s[1..] == s;
    }
  }

  // ---------------------------------------------------------------- normalising twice

  /** No blank at the end of a line. */
  predicate Clean(t: string)
  {
    forall i | 0 <= i < |t| && IsBlank(t[i]) :: i + 1 < |t| && t[i + 1] != '\n'
  }

  lemma {:induction false} StripCleans(t: string)
    ensures Clean(Strip(t))
  {
    if t != "" {
      StripCleans(t[1..]);
      var rest, all := Strip(t[1..]), [t[0]] + Strip(t[1..]);
      if !(IsBlank(t[0]) && (rest == "" || rest[0] == '\n')) {
        forall i | 0 <= i < |all| && IsBlank(all[i]) ensures i + 1 < |all| && all[i + 1] != '\n' {
          if i > 0 { assert all[i] == rest[i - 1]; }
        }
      }
    }
  }

  lemma {:induction false} CleanStays(t: string)
    requires Clean(t)
    ensures Strip(t) == t
  {
    if t != "" {
      var rest := t[1..];
      forall i | 0 <= i < |rest| && IsBlank(rest[i]) ensures i + 1 < |rest| && rest[i + 1] != '\n' {
        assert t[i + 1] == rest[i];
      }
      CleanStays(rest);
      assert [t[0]] + rest == t;
    }
  }

  /** What TrimSpace leaves is a stretch of the text that starts and ends with a printing character. */
  lemma TrimSpaceMeans(s: string) returns (a: nat)
    ensures var r := Text.TrimSpace(s); At(s, r, a) && (r != "" ==> !Text.IsSpace(r[0]) && !Text.IsSpace(r[|r| - 1]))
  {
    var l := Text.TrimLeft(s, Text.IsSpace);
    var r := Text.TrimRight(l, Text.IsSpace);
    Text.TrimLeftMeans(s, Text.IsSpace);
    Text.TrimRightMeans(l, Text.IsSpace);
    a := |s| - |l|;
    forall q | 0 <= q < |r| ensures s[a + q] == r[q] {
      assert l[q] == s[a..][q];
      assert r[q] == l[..|r|][q];
    }
  }

  lemma TrimSpaceKeepsClean(t: string)
    requires Clean(t)
    ensures Clean(Text.TrimSpace(t))
  {
    var a := TrimSpaceMeans(t);
    var r := Text.TrimSpace(t);
    forall i | 0 <= i < |r| && IsBlank(r[i]) ensures i + 1 < |r| && r[i + 1] != '\n' {
      assert t[a + i] == r[i] && Text.IsSpace(r[i]);
      if i + 1 < |r| { assert t[a + (i + 1)] == r[i + 1]; }
    }
  }

  lemma {:induction false} StripElements(t: string, c: char)
    requires c in Strip(t)
    ensures c in t
  {
    if t != "" && c != t[0] { StripElements(t[1..], c); }
  }

  /** The normalised body is its own normal form. */
  lemma NormaliseBodyIdempotent(s: string)
    ensures NormaliseBody(NormaliseBody(s)) == NormaliseBody(s)
  {
    var n := ContentHash.NormaliseLF(s);
    var r := Text.TrimSpace(Strip(n));
    NormaliseBodyIs(s);
    NormaliseBodyIs(r);
    StripCleans(n);
    TrimSpaceKeepsClean(Strip(n));
    NoCR(s);
    ContentHash.NormaliseKeepsLF(r);
    CleanStays(r);
    var a := TrimSpaceMeans(Strip(n));
    Text.NothingToTrim(r);
  }

  lemma NoCR(s: string)
    ensures '\r' !in Text.TrimSpace(Strip(ContentHash.NormaliseLF(s)))
  {
    var n := ContentHash.NormaliseLF(s);
    ContentHash.NormalisedHasNoCR(s);
    TrimmedStretch(Strip(n), '\r');
    if '\r' in Strip(n) { StripElements(n, '\r'); }
  }

  lemma TrimmedStretch(t: string, c: char)
    ensures c in Text.TrimSpace(t) ==> c in t
  {
    var a := TrimSpaceMeans(t);
    var r := Text.TrimSpace(t);
    if c in r {
      var i :| 0 <= i < |r| && r[i] == c;
      assert t[a + i] == c;
    }
  }

  // ---------------------------------------------------------------- the file

  const DELIMITER := "---\n"
  const CLOSING := "\n---\n"

  /** The written file, for a YAML block. */
  function FileOf(fm: string, body: string): string
  {
    DELIMITER + fm + DELIMITER + "\n" + (Text.TrimRight(body, IsNewline) + "\n")
  }

  datatype Parts = Parts(fm: string, body: string)

  /** Decode up to the YAML: where the block ends, and the body after it. */
  method DecodeParts(text: string) returns (r: Option<Parts>)
    ensures r == Decoded(text)
  {
    if !Text.HasPrefix(text, DELIMITER) { return None; }
    var rest := text[|DELIMITER|..];
    var end := Index(rest, CLOSING);
    if end < 0 {
      end := Index(rest, "\n---");
      if end < 0 { return None; }
    }
    var bodyStart := end + 4;
    if bodyStart > |rest| { bodyStart := |rest|; }
    return Some(Parts(rest[..end], Text.TrimLeft(rest[bodyStart..], IsNewline)));
  }

  function CutAt(rest: string, end: nat): Parts
    requires end <= |rest|
  {
    Parts(rest[..end], Text.TrimLeft(rest[if end + 4 > |rest| then |rest| else end + 4..], IsNewline))
  }

  function Decoded(text: string): Option<Parts>
  {
    if !Text.HasPrefix(text, DELIMITER) then None
    else
      var rest := text[|DELIMITER|..];
      if Index(rest, CLOSING) >= 0 then Some(CutAt(rest, Index(rest, CLOSING)))
      else if Index(rest, "\n---") >= 0 then Some(CutAt(rest, Index(rest, "\n---")))
      else None
  }

  /** A marshalled YAML block ends in a newline. */
  predicate Block(fm: string)
  {
    fm != "" && fm[|fm| - 1] == '\n'
  }

  lemma RestOf(fm: string, body: string)
    ensures Text.HasPrefix(FileOf(fm, body), DELIMITER)
    ensures FileOf(fm, body)[|DELIMITER|..] == fm + (DELIMITER + ("\n" + (Text.TrimRight(body, IsNewline) + "\n")))
  {
  }

  /** The closing line is found at the end of the block, unless the block has one of its own. */
  lemma ClosingFound(fm: string, tail: string)
    requires Block(fm)
    ensures var rest := fm + (DELIMITER + tail);
      0 <= Index(rest, CLOSING) <= |fm| - 1 && (Index(rest, CLOSING) == |fm| - 1 <==> FreeOf(fm, CLOSING))
  {
    var rest := fm + (DELIMITER + tail);
    var at := |fm| - 1;
    forall q | 0 <= q < 5 ensures rest[at + q] == CLOSING[q] {
      if q > 0 { assert rest[at + q] == (DELIMITER + tail)[q - 1]; }
    }
    assert At(rest, CLOSING, at);
    IndexFromMeans(rest, CLOSING, 0);
    var i := Index(rest, CLOSING);
    assert 0 <= i <= at;
    if i < at {
      InsideBlock(fm, DELIMITER + tail, i);
      assert !FreeOf(fm, CLOSING);
    } else {
      forall k: nat ensures !At(fm, CLOSING, k) {
        if At(fm, CLOSING, k) { AtInLonger(fm, DELIMITER + tail, k); }
      }
    }
  }

  /** An earlier closing line lies wholly inside the block: it cannot share only the block's last newline. */
  lemma InsideBlock(fm: string, tail: string, i: nat)
    requires Block(fm) && i < |fm| - 1 && At(fm + tail, CLOSING, i)
    ensures At(fm, CLOSING, i)
  {
    var rest := fm + tail;
    assert rest[|fm| - 1] == '\n';
    if i + 5 > |fm| {
      AtChar(rest, CLOSING, i, |fm| - 1);
    }
    forall q | 0 <= q < 5 && i + 5 <= |fm| ensures fm[i + q] == CLOSING[q] { assert rest[i + q] == CLOSING[q]; }
  }

  lemma AtInLonger(fm: string, tail: string, k: nat)
    requires At(fm, CLOSING, k)
    ensures At(fm + tail, CLOSING, k)
  {
    forall q | 0 <= q < |CLOSING| ensures (fm + tail)[k + q] == CLOSING[q] { assert fm[k + q] == CLOSING[q]; }
  }

  /** The body that a written file gives back. */
  function Reread(body: string): string
  {
    Text.TrimLeft("\n" + ("\n" + (Text.TrimRight(body, IsNewline) + "\n")), IsNewline)
  }

  /** The body without the newlines around it. */
  function Core(body: string): string
  {
    Text.TrimRight(Text.TrimLeft(body, IsNewline), IsNewline)
  }

  /** What comes back: the body between its outer newlines and one newline, or nothing when there is nothing between. */
  lemma RereadIs(body: string)
    ensures Reread(body) == if Core(body) == "" then "" else Core(body) + "\n"
  {
    var b := Text.TrimRight(body, IsNewline);
    TrimLeftNewline("\n" + (b + "\n"));
    TrimLeftNewline(b + "\n");
    TrimsCommute(body);
    TrimLeftBefore(b);
  }

  lemma TrimLeftNewline(s: string)
    ensures Text.TrimLeft("\n" + s, IsNewline) == Text.TrimLeft(s, IsNewline)
  {
    assert ("\n" + s)[1..] == s;
  }

  /** A newline behind a text stays when the text has something to stop at. */
  lemma {:induction false} TrimLeftBefore(s: string)
    ensures var t := Text.TrimLeft(s, IsNewline); Text.TrimLeft(s + "\n", IsNewline) == if t == "" then "" else t + "\n"
  {
    if s == "" {
      assert ("" + "\n")[1..] == "";
    } else {
      assert (s + "\n")[1..] == s[1..] + "\n";
      TrimLeftBefore(s[1..]);
    }
  }

  /** Which side is trimmed first makes no difference. */
  lemma {:induction false} TrimsCommute(s: string)
    ensures Text.TrimLeft(Text.TrimRight(s, IsNewline), IsNewline) == Core(s)
  {
    if s != "" {
      if IsNewline(s[0]) {
        TrimRightBehind(s[0], s[1..]);
        TrimsCommute(s[1..]);
        assert [s[0]] + s[1..] == s;
      } else {
        TrimRightKeepsFirst(s);
      }
    }
  }

  lemma {:induction false} TrimRightBehind(c: char, s: string)
    requires IsNewline(c)
    ensures var t := Text.TrimRight(s, IsNewline);
      Text.TrimLeft(Text.TrimRight([c] + s, IsNewline), IsNewline) == Text.TrimLeft(t, IsNewline)
  {
    if s != "" && IsNewline(s[|s| - 1]) {
      assert ([c] + s)[..|s|] == [c] + s[..|s| - 1];
      TrimRightBehind(c, s[..|s| - 1]);
    } else if s == "" {
      assert ([c] + s)[..0] == "";
    } else {
      assert ([c] + s)[1..] == s;
    }
  }

  lemma TrimRightKeepsFirst(s: string)
    requires s != "" && !IsNewline(s[0])
    ensures var t := Text.TrimRight(s, IsNewline); t != "" && t[0] == s[0]
  {
    Text.TrimRightMeans(s, IsNewline);
    var t := Text.TrimRight(s, IsNewline);
    assert t == s[..|t|];
  }

  /** Decoding a written file gives the block back exactly when it has no closing line in it, and the body with it, up to outer newlines. */
  lemma DecodeEncodeIff(fm: string, body: string)
    requires Block(fm)
    ensures Decoded(FileOf(fm, body)).Some?
    ensures Decoded(FileOf(fm, body)).value.fm == fm[..|fm| - 1] <==> FreeOf(fm, CLOSING)
    ensures FreeOf(fm, CLOSING) ==>
      Decoded(FileOf(fm, body)).value.body == Reread(body) == if Core(body) == "" then "" else Core(body) + "\n"
  {
    RereadIs(body);
    RestOf(fm, body);
    var tail := "\n" + (Text.TrimRight(body, IsNewline) + "\n");
    var rest := fm + (DELIMITER + tail);
    ClosingFound(fm, tail);
    assert rest[..|fm| - 1] == fm[..|fm| - 1];
    assert rest[|fm| + 3..] == "\n" + tail;
  }

  /** So the hash that recognises a body survives writing and reading it. */
  lemma HashSurvives(body: string)
    ensures BodyHashOf(Reread(body)) == BodyHashOf(body)
  {
    var b := Text.TrimRight(body, IsNewline);
    BodyTrimLeft("\n" + ("\n" + (b + "\n")));
    BodyFront("\n" + (b + "\n"));
    BodyFront(b + "\n");
    BodyBack(b);
    BodyTrimRight(body);
  }
}
