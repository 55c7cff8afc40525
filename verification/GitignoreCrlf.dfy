// What becomes of a .gitignore with CRLF line endings: the file is read as if it had LF (pkg/gitignore/gitignore.go),
// so a write puts back foreign text that is no longer the user's bytes. The sentinels stay where they are, which
// makes each part of the file comparable with what is written back.

module GitignoreCrlf {
  import opened Gitignore
  import opened Substring
  import Text

  predicate HasCRLF(s: string)
  {
    exists i :: 0 <= i < |s| - 1 && s[i] == '\r' && s[i + 1] == '\n'
  }

  // ---------------------------------------------------------------- replacing CRLF

  /** Replacing shortens a text with CRLF and shows at the first one; any other text stays. */
  lemma {:induction false} ReplaceShows(s: string)
    ensures var t := Text.ReplaceCRLF(s);
      if HasCRLF(s) then |t| < |s| && exists k :: DifferAt(s, t, k) else t == s
  {
    if s != "" {
      if |s| > 1 && s[0] == '\r' && s[1] == '\n' {
        ReplaceShrinks(s[2..]);
        assert DifferAt(s, Text.ReplaceCRLF(s), 0);
      } else {
        ReplaceShows(s[1..]);
        HasCRLFAfter(s);
        var t := Text.ReplaceCRLF(s);
        assert t[1..] == Text.ReplaceCRLF(s[1..]);
        if HasCRLF(s) {
          var k :| DifferAt(s[1..], t[1..], k);
          assert DifferAt(s, t, k + 1);
        }
      }
    }
  }

  /** The two texts differ at k. */
  predicate DifferAt(s: string, t: string, k: int)
  {
    0 <= k < |s| && k < |t| && s[k] != t[k]
  }

  lemma {:induction false} ReplaceShrinks(s: string)
    ensures |Text.ReplaceCRLF(s)| <= |s|
  {
    if s != "" {
      if |s| > 1 && s[0] == '\r' && s[1] == '\n' { ReplaceShrinks(s[2..]); } else { ReplaceShrinks(s[1..]); }
    }
  }

  lemma HasCRLFAfter(s: string)
    requires s != "" && !(|s| > 1 && s[0] == '\r' && s[1] == '\n')
    ensures HasCRLF(s) <==> HasCRLF(s[1..])
  {
    if HasCRLF(s) {
      var i :| 0 <= i < |s| - 1 && s[i] == '\r' && s[i + 1] == '\n';
      assert s[1..][i - 1] == '\r' && s[1..][i] == '\n';
    }
    if HasCRLF(s[1..]) {
      var i :| 0 <= i < |s| - 2 && s[1..][i] == '\r' && s[1..][i + 1] == '\n';
      assert s[i + 1] == '\r' && s[i + 2] == '\n';
    }
  }

  lemma ReplaceLineEnd(x: string)
    ensures Text.ReplaceCRLF("\r\n" + x) == "\n" + Text.ReplaceCRLF(x)
  {
    assert ("\r\n" + x)[2..] == x;
  }

  lemma ReplaceChar(c: char, x: string)
    requires c != '\r' || x == "" || x[0] != '\n'
    ensures Text.ReplaceCRLF([c] + x) == [c] + Text.ReplaceCRLF(x)
  {
    assert ([c] + x)[1..] == x;
  }

  /** Replacing works on both sides of a place that does not cut a CRLF in two. */
  lemma {:induction false} ReplaceApart(a: string, b: string)
    requires a == "" || b == "" || a[|a| - 1] != '\r' || b[0] != '\n'
    ensures Text.ReplaceCRLF(a + b) == Text.ReplaceCRLF(a) + Text.ReplaceCRLF(b)
  {
    if a == "" {
      assert a + b == b;
    } else if |a| > 1 && a[0] == '\r' && a[1] == '\n' {
      var rest := a[2..];
      assert a == "\r\n" + rest && a + b == "\r\n" + (rest + b);
      ReplaceApart(rest, b);
      ReplaceLineEnd(rest);
      ReplaceLineEnd(rest + b);
    } else {
      var c, rest := a[0], a[1..];
      assert a == [c] + rest && a + b == [c] + (rest + b);
      assert rest != "" ==> (rest + b)[0] == rest[0];
      assert rest == "" ==> rest + b == b;
      ReplaceApart(rest, b);
      ReplaceChar(c, rest);
      ReplaceChar(c, rest + b);
    }
  }

  /** A word without line endings that a replaced text starts with stood there before. */
  lemma {:induction false} StartsAlike(s: string, p: string)
    requires '\n' !in p && p <= Text.ReplaceCRLF(s)
    ensures p <= s
  {
    if p != "" {
      assert s != "" && p[0] == Text.ReplaceCRLF(s)[0];
      assert Text.ReplaceCRLF(s) == [s[0]] + Text.ReplaceCRLF(s[1..]);
      assert p[1..] <= Text.ReplaceCRLF(s[1..]);
      StartsAlike(s[1..], p[1..]);
      assert p == [p[0]] + p[1..] && s == [s[0]] + s[1..];
    }
  }

  /** A sentinel found after replacing was there before. */
  lemma {:induction false} OccursBefore(s: string, p: string, k: nat) returns (j: nat)
    requires Sentinel(p) && At(Text.ReplaceCRLF(s), p, k)
    ensures At(s, p, j)
  {
    var t := Text.ReplaceCRLF(s);
    if k == 0 {
      assert p == t[..|p|];
      StartsAlike(s, p);
      j := 0;
    } else {
      var n := if |s| > 1 && s[0] == '\r' && s[1] == '\n' then 2 else 1;
      assert t == [t[0]] + Text.ReplaceCRLF(s[n..]);
      AtShift([t[0]], Text.ReplaceCRLF(s[n..]), p, k);
      j := OccursBefore(s[n..], p, k - 1);
      AtLater(s, p, n, j);
      j := n + j;
    }
  }

  lemma ReplaceKeepsFree(s: string, p: string)
    requires Sentinel(p) && FreeOf(s, p)
    ensures FreeOf(Text.ReplaceCRLF(s), p)
  {
    forall k: nat ensures !At(Text.ReplaceCRLF(s), p, k) {
      if At(Text.ReplaceCRLF(s), p, k) { var j := OccursBefore(s, p, k); }
    }
  }

  // ---------------------------------------------------------------- sentinels stay where they were

  lemma SentinelStays(p: string)
    requires Sentinel(p) && '\r' !in p
    ensures Text.ReplaceCRLF(p) == p
  {
    ReplaceShows(p);
  }

  /** The text around a sentinel is replaced on its own. */
  lemma ReplaceAround(a: string, p: string, b: string)
    requires Sentinel(p) && '\r' !in p
    ensures Text.ReplaceCRLF(a + (p + b)) == Text.ReplaceCRLF(a) + (p + Text.ReplaceCRLF(b))
  {
    assert (p + b)[0] == p[0] == '#' && p[|p| - 1] != '\r';
    ReplaceApart(a, p + b);
    ReplaceApart(p, b);
    SentinelStays(p);
  }

  lemma CutAt(s: string, p: string, i: nat)
    requires At(s, p, i)
    ensures s == s[..i] + (p + s[i + |p|..])
  {
    assert s[i..i + |p|] == p;
  }

  lemma IndexReplaced(s: string, p: string)
    requires Sentinel(p) && '\r' !in p
    ensures var i := Index(s, p);
      Index(Text.ReplaceCRLF(s), p) == if i == -1 then -1 else |Text.ReplaceCRLF(s[..i])|
  {
    var i := Index(s, p);
    if i == -1 {
      IndexNone(s, p);
      ReplaceKeepsFree(s, p);
      IndexNone(Text.ReplaceCRLF(s), p);
    } else {
      IndexFromMeans(s, p, 0);
      CutAt(s, p, i);
      ReplaceAround(s[..i], p, s[i + |p|..]);
      FreeBefore(s, p, i);
      ReplaceKeepsFree(s[..i], p);
      FoundBehind(Text.ReplaceCRLF(s[..i]), p, Text.ReplaceCRLF(s[i + |p|..]));
    }
  }

  /** A sentinel put behind a text that is free of it is found there. */
  lemma FoundBehind(before: string, p: string, rest: string)
    requires Sentinel(p) && FreeOf(before, p)
    ensures Index(before + (p + rest), p) == |before|
  {
    var s := before + (p + rest);
    forall q | 0 <= q < |p| ensures s[|before| + q] == p[q] { }
    forall k: nat | k < |before| ensures !At(s, p, k) { NoneBefore(before, p + rest, p, k); }
    IndexIs(s, p, |before|);
  }

  // ---------------------------------------------------------------- the section of the file as it is on disk

  /** SplitSection on the bytes of the file: the line of the closing sentinel may end in CRLF, and no blank line goes. */
  function RawSection(m: Marks, body: string): Cut
    requires m.Valid()
  {
    var i, j := Index(body, m.open), Index(body, m.close);
    if i == -1 && j == -1 then Plain
    else if i == -1 || j == -1 || j < i then Malformed
    else
      SectionBounds(m, body);
      Section(body[..i], body[i + |m.open|..j], SkipLineEnd(body[j + |m.close|..]))
  }

  function SkipLineEnd(s: string): string
  {
    if Text.HasPrefix(s, "\r\n") then s[2..] else if Text.HasPrefix(s, "\n") then s[1..] else s
  }

  function SkipLF(t: string): string
  {
    if t != "" && t[0] == '\n' then t[1..] else t
  }

  lemma SkipReplaced(s: string)
    ensures Text.ReplaceCRLF(SkipLineEnd(s)) == SkipLF(Text.ReplaceCRLF(s))
  {
    var crlf := |s| > 1 && s[0] == '\r' && s[1] == '\n';
    assert crlf <==> Text.HasPrefix(s, "\r\n");
    if crlf {
      assert ("\n" + Text.ReplaceCRLF(s[2..]))[1..] == Text.ReplaceCRLF(s[2..]);
    } else if s != "" {
      assert Text.HasPrefix(s, "\n") <==> s[0] == '\n';
      assert ([s[0]] + Text.ReplaceCRLF(s[1..]))[1..] == Text.ReplaceCRLF(s[1..]);
    }
  }

  predicate Plainly(m: Marks)
  {
    m.Valid() && '\r' !in m.open && '\r' !in m.close
  }

  /** Where a sentinel is after replacing, and what is around it. */
  lemma Replaced(body: string, n: string, p: string, i: nat)
    requires Sentinel(p) && '\r' !in p && n == Text.ReplaceCRLF(body) && i == Index(body, p)
    ensures i + |p| <= |body| && At(body, p, i) && |Text.ReplaceCRLF(body[..i])| + |p| <= |n|
    ensures Index(n, p) == |Text.ReplaceCRLF(body[..i])|
    ensures n[..Index(n, p)] == Text.ReplaceCRLF(body[..i]) && n[Index(n, p) + |p|..] == Text.ReplaceCRLF(body[i + |p|..])
  {
    IndexReplaced(body, p);
    IndexFromMeans(body, p, 0);
    CutAt(body, p, i);
    ReplaceAround(body[..i], p, body[i + |p|..]);
    Around3(Text.ReplaceCRLF(body[..i]), p, Text.ReplaceCRLF(body[i + |p|..]));
  }

  lemma Around3(a: string, p: string, b: string)
    ensures (a + (p + b))[..|a|] == a && (a + (p + b))[|a| + |p|..] == b
  {
  }

  lemma Positions(m: Marks, body: string, n: string, i: nat, j: nat)
    requires Plainly(m) && n == Text.ReplaceCRLF(body) && i == Index(body, m.open) && j == Index(body, m.close)
    ensures i <= j <==> Index(n, m.open) <= Index(n, m.close)
  {
    Replaced(body, n, m.open, i);
    Replaced(body, n, m.close, j);
    Together(body, m.open, m.close, i);
    if i < j { Further(body, m.open, i, m.close, j); } else { Further(body, m.close, j, m.open, i); }
  }

  /** A later sentinel stays later. */
  lemma Further(s: string, x: string, i: nat, y: string, j: nat)
    requires Sentinel(x) && Sentinel(y) && '\r' !in x && At(s, x, i) && At(s, y, j) && i < j
    ensures |Text.ReplaceCRLF(s[..i])| < |Text.ReplaceCRLF(s[..j])|
  {
    NotInside(s, x, i, y, j);
    assert s[i..i + |x|] == x;
    assert s[..j] == s[..i] + (x + s[i + |x|..j]);
    ReplaceAround(s[..i], x, s[i + |x|..j]);
  }

  /** What the program splits is what is on disk, with CRLF replaced in each part. */
  lemma SplitReplaced(m: Marks, body: string)
    requires Plainly(m)
    ensures match RawSection(m, body)
      case Plain => SplitSection(m, Text.ReplaceCRLF(body)) == Plain
      case Malformed => SplitSection(m, Text.ReplaceCRLF(body)) == Malformed
      case Section(before, _, after) =>
        var s := SplitSection(m, Text.ReplaceCRLF(body));
        s.Section? && s.before == DropBlank(Text.ReplaceCRLF(before)) && s.after == Text.ReplaceCRLF(after)
  {
    var i, j := Index(body, m.open), Index(body, m.close);
    IndexReplaced(body, m.open);
    IndexReplaced(body, m.close);
    if i != -1 && j != -1 {
      Positions(m, body, Text.ReplaceCRLF(body), i, j);
      if i <= j { SectionReplaced(m, body, Text.ReplaceCRLF(body), i, j); }
    }
  }

  lemma SectionReplaced(m: Marks, body: string, n: string, i: nat, j: nat)
    requires Plainly(m) && n == Text.ReplaceCRLF(body) && i == Index(body, m.open) && j == Index(body, m.close) && i <= j
    ensures var r, s := RawSection(m, body), SplitSection(m, n);
      r.Section? && s.Section? && s.before == DropBlank(Text.ReplaceCRLF(r.before)) && s.after == Text.ReplaceCRLF(r.after)
  {
    Positions(m, body, n, i, j);
    var before := ReplacedBefore(body, n, m.open, i);
    var rest := ReplacedBehind(body, n, m.close, j);
    SplitParts(m, n, Text.ReplaceCRLF(before), Text.ReplaceCRLF(rest));
    RawParts(m, body, before, rest);
    SkipReplaced(rest);
  }

  lemma ReplacedBefore(body: string, n: string, p: string, i: nat) returns (before: string)
    requires Sentinel(p) && '\r' !in p && n == Text.ReplaceCRLF(body) && i == Index(body, p)
    ensures before == body[..i] && 0 <= Index(n, p) && n[..Index(n, p)] == Text.ReplaceCRLF(before)
  {
    Replaced(body, n, p, i);
    before := body[..i];
  }

  lemma ReplacedBehind(body: string, n: string, p: string, j: nat) returns (rest: string)
    requires Sentinel(p) && '\r' !in p && n == Text.ReplaceCRLF(body) && j == Index(body, p)
    ensures j + |p| <= |body| && rest == body[j + |p|..]
    ensures 0 <= Index(n, p) && Index(n, p) + |p| <= |n| && n[Index(n, p) + |p|..] == Text.ReplaceCRLF(rest)
  {
    Replaced(body, n, p, j);
    rest := body[j + |p|..];
  }

  lemma SplitParts(m: Marks, n: string, before: string, rest: string)
    requires m.Valid() && 0 <= Index(n, m.open) <= Index(n, m.close) && Index(n, m.close) + |m.close| <= |n|
    requires n[..Index(n, m.open)] == before && n[Index(n, m.close) + |m.close|..] == rest
    ensures var s := SplitSection(m, n); s.Section? && s.before == DropBlank(before) && s.after == SkipLF(rest)
  {
    SectionBounds(m, n);
  }

  lemma RawParts(m: Marks, body: string, before: string, rest: string)
    requires m.Valid() && 0 <= Index(body, m.open) <= Index(body, m.close) && Index(body, m.close) + |m.close| <= |body|
    requires body[..Index(body, m.open)] == before && body[Index(body, m.close) + |m.close|..] == rest
    ensures var r := RawSection(m, body); r.Section? && r.before == before && r.after == SkipLineEnd(rest)
  {
    SectionBounds(m, body);
  }

  // ---------------------------------------------------------------- when the user's bytes stay

  /** The user's bytes on disk outside the section have no CRLF. */
  predicate CleanOutside(m: Marks, body: string)
    requires m.Valid()
  {
    match RawSection(m, body)
    case Plain => !HasCRLF(body)
    case Malformed => true
    case Section(before, _, after) => !HasCRLF(before) && !HasCRLF(after)
  }

  /** p, which a write puts around the block, is the user's text byte for byte, up to one newline before the block. */
  predicate BytesKept(m: Marks, body: string, p: Parts)
    requires m.Valid()
  {
    match RawSection(m, body)
    case Plain => body <= p.before && p.after == ""
    case Malformed => true
    case Section(before, _, after) => (p.before == before || p.before + "\n" == before) && p.after == after
  }

  lemma KeptPrefixIff(s: string, sep: string)
    ensures s <= Text.ReplaceCRLF(s) + sep <==> !HasCRLF(s)
  {
    ReplaceShows(s);
    var t := Text.ReplaceCRLF(s);
    if HasCRLF(s) {
      var k :| DifferAt(s, t, k);
      assert (t + sep)[k] == t[k];
    }
  }

  lemma KeptBeforeIff(s: string)
    ensures var d := DropBlank(Text.ReplaceCRLF(s)); (d == s || d + "\n" == s) <==> !HasCRLF(s)
  {
    ReplaceShows(s);
    var t := Text.ReplaceCRLF(s);
    DropBlankMeans(t);
    if HasCRLF(s) {
      var k :| DifferAt(s, t, k);
      assert DropBlank(t) == t ==> (DropBlank(t) + "\n")[k] == t[k];
    }
  }

  lemma OutsideKeptIff(m: Marks, body: string)
    requires Plainly(m) && RawSection(m, body) != Malformed
    ensures SplitSection(m, Text.ReplaceCRLF(body)) != Malformed
    ensures BytesKept(m, body, Around(m, Text.ReplaceCRLF(body))) <==> CleanOutside(m, body)
  {
    SplitReplaced(m, body);
    match RawSection(m, body)
    case Plain =>
      var n := Text.ReplaceCRLF(body);
      if n != "" { KeptPrefixIff(body, Separator(n)); } else { ReplaceShows(body); }
    case Section(before, _, after) =>
      KeptBeforeIff(before);
      ReplaceShows(after);
  }

  /** What stands between the parts after a write: the block, or nothing when no path is left. */
  function Middle(m: Marks, paths: seq<string>): string
  {
    if Cleaned(paths) == [] then "" else Block(m, Entries(Cleaned(paths)))
  }

  lemma MarksArePlain()
    ensures Plainly(MARKS)
  {
    MarksAreValid();
    OpenHasNoCR();
    CloseHasNoCR();
  }

  lemma OpenHasNoCR()
    ensures '\r' !in MARKS.open
  {
  }

  lemma CloseHasNoCR()
    ensures '\r' !in MARKS.close
  {
  }

  /**
   * An apply that writes keeps the user's bytes, up to one newline in front of the block, exactly when there is no
   * CRLF among them.
   */
  lemma ApplyKeepsBytesIff(body: string, paths: seq<string>)
    requires MARKS.Valid() && Applied(Present(body), paths).0 != Present(body)
    ensures RawSection(MARKS, body) != Malformed && SplitSection(MARKS, Text.ReplaceCRLF(body)) != Malformed
    ensures var p := Around(MARKS, Text.ReplaceCRLF(body));
      && Applied(Present(body), paths) == (Present(p.before + Middle(MARKS, paths) + p.after), true)
      && (BytesKept(MARKS, body, p) <==> CleanOutside(MARKS, body))
  {
    MarksArePlain();
    SplitReplaced(MARKS, body);
    OutsideKeptIff(MARKS, body);
    WrittenAround(MARKS, Text.ReplaceCRLF(body), paths);
  }

  /** A rewriting that changes the text puts the block, or nothing, between the parts around it. */
  lemma WrittenAround(m: Marks, n: string, paths: seq<string>)
    requires m.Valid() && SplitSection(m, n) != Malformed && Rewritten(m, n, paths) != Ok(n)
    ensures var p := Around(m, n); Rewritten(m, n, paths) == Ok(p.before + Middle(m, paths) + p.after)
  {
    var p := Around(m, n);
    if Cleaned(paths) == [] { assert p.before + "" + p.after == p.before + p.after; } else { RewriteAround(m, n, paths); }
  }

  /** For instance: the first write into this one-line file changes its line. */
  lemma CrlfLineChanges(paths: seq<string>)
    requires MARKS.Valid() && Cleaned(paths) != []
    ensures Applied(Present("a\r\n"), paths) == (Present("a\n\n" + Block(MARKS, Entries(Cleaned(paths)))), true)
    ensures !("a\r\n" <= "a\n\n" + Block(MARKS, Entries(Cleaned(paths))))
  {
    var body, n := "a\r\n", "a\n";
    assert body[1..] == "\r\n" && body[1..][2..] == "" && Text.ReplaceCRLF("\r\n") == "\n" + "";
    assert Text.ReplaceCRLF(body) == n;
    NoHashFree(n, MARKS.open);
    NoHashFree(n, MARKS.close);
    IndexNone(n, MARKS.open);
    IndexNone(n, MARKS.close);
    RewriteAround(MARKS, n, paths);
    assert Text.HasSuffix(n, "\n") && n + "\n" == "a\n\n";
    var out := "a\n\n" + Block(MARKS, Entries(Cleaned(paths)));
    assert out == n + "\n" + Block(MARKS, Entries(Cleaned(paths))) + "";
    assert out[1] == '\n' && body[1] == '\r' && |out| > 2;
  }
}
