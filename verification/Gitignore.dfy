// The managed block of .gitignore (pkg/gitignore/gitignore.go).

module Gitignore {
  import opened Substring
  import Order
  import Sorting
  import Text

  /** The two sentinels. The laws below need only what Valid says of them. */
  datatype Marks = Marks(open: string, close: string)
  {
    predicate Valid() {
      Sentinel(open) && Sentinel(close) && !(open <= close) && !(close <= open)
    }
  }

  /** One line whose only '#' is the first character. */
  predicate Sentinel(m: string)
  {
    m != "" && m[0] == '#' && forall q | 0 < q < |m| :: m[q] != '#' && m[q] != '\n'
  }

  const MARKS := Marks("# >>> fdh:managed-paths >>>", "# <<< fdh:managed-paths <<<")

  lemma MarksAreValid()
    ensures MARKS.Valid()
  {
    OpenIsSentinel();
    CloseIsSentinel();
    Differ(MARKS.open, MARKS.close, 2);
  }

  lemma OpenIsSentinel()
    ensures Sentinel(MARKS.open)
  {
  }

  lemma CloseIsSentinel()
    ensures Sentinel(MARKS.close)
  {
  }

  lemma Differ(a: string, b: string, i: nat)
    requires i < |a| && i < |b| && a[i] != b[i]
    ensures !(a <= b) && !(b <= a)
  {
  }

  const NEGATION_MANIFEST := "!.fdh/manifest.yaml"
  const NEGATION_LOCK := "!.fdh/lock.yaml"

  // ---------------------------------------------------------------- the entries

  /** The trimmed non-blank ones of the first n paths, first mentions only, in order of mention. */
  function FirstMentions(paths: seq<string>, n: nat): seq<string>
    requires n <= |paths|
  {
    if n == 0 then []
    else
      var before, p := FirstMentions(paths, n - 1), Text.TrimSpace(paths[n - 1]);
      if p == "" || p in before then before else before + [p]
  }

  function Cleaned(paths: seq<string>): seq<string>
  {
    Order.SortStrings(FirstMentions(paths, |paths|))
  }

  ghost predicate MentionedIn(paths: seq<string>, n: nat, p: string)
    requires n <= |paths|
  {
    p != "" && exists i :: 0 <= i < n && Text.TrimSpace(paths[i]) == p
  }

  ghost predicate Mentions(paths: seq<string>, p: string)
  {
    MentionedIn(paths, |paths|, p)
  }

  lemma {:induction false} FirstMentionsMeans(paths: seq<string>, n: nat, p: string)
    requires n <= |paths|
    ensures p in FirstMentions(paths, n) <==> MentionedIn(paths, n, p)
  {
    if n > 0 {
      FirstMentionsMeans(paths, n - 1, p);
      assert MentionedIn(paths, n, p) <==> MentionedIn(paths, n - 1, p) || (p != "" && Text.TrimSpace(paths[n - 1]) == p);
    }
  }

  lemma {:induction false} FirstMentionsDistinct(paths: seq<string>, n: nat)
    requires n <= |paths|
    ensures Sorting.Distinct(FirstMentions(paths, n))
  {
    if n > 0 { FirstMentionsDistinct(paths, n - 1); }
  }

  /** uniqueSorted gives each mentioned path once, in strict order. */
  lemma CleanedMeans(paths: seq<string>)
    ensures Order.StrictlySorted(Cleaned(paths))
    ensures forall p :: p in Cleaned(paths) <==> Mentions(paths, p)
  {
    var n := |paths|;
    FirstMentionsDistinct(paths, n);
    Sorting.PermutationKeepsDistinct(FirstMentions(paths, n), Cleaned(paths));
    forall p ensures p in Cleaned(paths) <==> Mentions(paths, p) { FirstMentionsMeans(paths, n, p); }
  }

  method UniqueSorted(paths: seq<string>) returns (out: seq<string>)
    ensures out == Cleaned(paths)
  {
    out := [];
    if |paths| == 0 {
      Order.StrictlySortedUnique(Order.SortStrings([]), []);
      return;
    }
    var seen: set<string> := {};
    for i := 0 to |paths|
      invariant out == FirstMentions(paths, i)
      invariant forall p :: p in seen <==> p in out
    {
      var p := Text.TrimSpace(paths[i]);
      if p == "" || p in seen { continue; }
      seen := seen + {p};
      out := out + [p];
    }
    out := Order.SortStrings(out);
  }

  predicate NeedsNegation(paths: seq<string>)
  {
    exists i :: 0 <= i < |paths| && Text.HasPrefix(paths[i], ".fdh/")
  }

  /** The lines of the block for a cleaned list. */
  function Entries(cleaned: seq<string>): seq<string>
  {
    cleaned + if NeedsNegation(cleaned) then [NEGATION_MANIFEST, NEGATION_LOCK] else []
  }

  // ---------------------------------------------------------------- the section

  function Lines(entries: seq<string>): string
  {
    if entries == [] then "" else entries[0] + "\n" + Lines(entries[1..])
  }

  function Block(m: Marks, entries: seq<string>): string
  {
    m.open + "\n" + Lines(entries) + m.close + "\n"
  }

  /** One of two newlines at the end goes. */
  function DropBlank(before: string): string
  {
    if Text.HasSuffix(before, "\n\n") then before[..|before| - 1] else before
  }

  datatype Cut = Plain | Malformed | Section(before: string, inside: string, after: string)

  lemma Together(body: string, x: string, y: string, i: nat)
    ensures At(body, x, i) && At(body, y, i) ==> x <= y || y <= x
  {
  }

  lemma HashFree(body: string, x: string, i: nat)
    requires Sentinel(x) && At(body, x, i)
    ensures body[i] == '#' && forall k | i < k < i + |x| :: body[k] != '#'
  {
    assert body[i + 0] == x[0];
    forall k | i < k < i + |x| ensures body[k] != '#' { assert body[i + (k - i)] == x[k - i]; }
  }

  /** A sentinel starts with '#', so it cannot start inside another one. */
  lemma NotInside(body: string, x: string, i: nat, y: string, j: nat)
    requires Sentinel(x) && Sentinel(y) && At(body, x, i) && At(body, y, j) && i < j
    ensures i + |x| <= j
  {
    HashFree(body, x, i);
    HashFree(body, y, j);
  }

  lemma SectionBounds(m: Marks, body: string)
    requires m.Valid() && 0 <= Index(body, m.open) <= Index(body, m.close)
    ensures Index(body, m.open) + |m.open| <= Index(body, m.close) && Index(body, m.close) + |m.close| <= |body|
  {
    var i, j := Index(body, m.open), Index(body, m.close);
    IndexFromMeans(body, m.open, 0);
    IndexFromMeans(body, m.close, 0);
    Together(body, m.open, m.close, i);
    if i < j { NotInside(body, m.open, i, m.close, j); }
  }

  function SplitSection(m: Marks, body: string): Cut
    requires m.Valid()
  {
    var i, j := Index(body, m.open), Index(body, m.close);
    if i == -1 && j == -1 then Plain
    else if i == -1 || j == -1 || j < i then Malformed
    else
      SectionBounds(m, body);
      var end := j + |m.close|;
      var end := if end < |body| && body[end] == '\n' then end + 1 else end;
      Section(DropBlank(body[..i]), body[i + |m.open|..j], body[end..])
  }

  /** The non-blank ones of the first n lines, trimmed. */
  function ManagedTo(lines: seq<string>, n: nat): seq<string>
    requires n <= |lines|
  {
    if n == 0 then []
    else
      var l := Text.TrimSpace(lines[n - 1]);
      if l == "" then ManagedTo(lines, n - 1) else ManagedTo(lines, n - 1) + [l]
  }

  function Managed(inside: string): seq<string>
  {
    ManagedTo(Split(inside), |Split(inside)|)
  }

  datatype Result<T> = Ok(value: T) | ErrMalformedSection

  function Separator(foreign: string): string
  {
    if Text.HasSuffix(foreign, "\n") then "\n" else "\n\n"
  }

  function Rewritten(m: Marks, existing: string, paths: seq<string>): Result<string>
    requires m.Valid()
  {
    var cleaned := Cleaned(paths);
    match SplitSection(m, existing)
    case Malformed => ErrMalformedSection
    case Plain =>
      if cleaned == [] then Ok(existing)
      else if existing == "" then Ok(Block(m, Entries(cleaned)))
      else Ok(existing + Separator(existing) + Block(m, Entries(cleaned)))
    case Section(before, _, after) =>
      if cleaned == [] then Ok(before + after) else Ok(before + Block(m, Entries(cleaned)) + after)
  }

  // ---------------------------------------------------------------- the program

  method ManagedLines(inside: string) returns (managed: seq<string>)
    ensures managed == Managed(inside)
  {
    managed := [];
    var lines := Split(inside);
    for i := 0 to |lines|
      invariant managed == ManagedTo(lines, i)
    {
      var l := Text.TrimSpace(lines[i]);
      if l == "" { continue; }
      managed := managed + [l];
    }
  }

  /** The section's lines, the text without it, and the two parts of that text. */
  method Sections(m: Marks, body: string) returns (managed: seq<string>, foreign: string, before: string, after: string, ok: bool)
    requires m.Valid()
    ensures match SplitSection(m, body)
      case Plain => ok && managed == [] && foreign == body && before == "" && after == ""
      case Malformed => !ok
      case Section(b, inside, a) => ok && managed == Managed(inside) && foreign == b + a && before == b && after == a
  {
    var beginIdx, endIdx := Index(body, m.open), Index(body, m.close);
    if beginIdx == -1 && endIdx == -1 { return [], body, "", "", true; }
    if beginIdx == -1 || endIdx == -1 || endIdx < beginIdx { return [], "", "", "", false; }
    managed, before, after := CutSection(m, body, beginIdx, endIdx);
    foreign := before + after;
    ok := true;
  }

  /** The three parts when both sentinels are where they should be. */
  method CutSection(m: Marks, body: string, beginIdx: nat, endIdx: nat) returns (managed: seq<string>, before: string, after: string)
    requires m.Valid() && beginIdx == Index(body, m.open) && endIdx == Index(body, m.close) && beginIdx <= endIdx
    ensures var s := SplitSection(m, body); s.Section? && managed == Managed(s.inside) && before == s.before && after == s.after
  {
    SectionBounds(m, body);
    before, after := CutOut(body, beginIdx, endIdx + |m.close|);
    managed := ManagedLines(body[beginIdx + |m.open|..endIdx]);
  }

  /** The text before a section, without a blank line that led to it, and the text after its last newline. */
  method CutOut(body: string, begin: nat, closeEnd: nat) returns (before: string, after: string)
    requires begin <= closeEnd <= |body|
    ensures before == DropBlank(body[..begin])
    ensures after == body[if closeEnd < |body| && body[closeEnd] == '\n' then closeEnd + 1 else closeEnd..]
  {
    var end := closeEnd;
    if end < |body| && body[end] == '\n' { end := end + 1; }
    before, after := body[..begin], body[end..];
    if Text.HasSuffix(before, "\n\n") { before := before[..|before| - 1]; }
  }

  lemma {:induction false} LinesAppend(entries: seq<string>, e: string)
    ensures Lines(entries + [e]) == Lines(entries) + e + "\n"
  {
    if entries == [] { assert [e][1..] == []; } else {
      assert (entries + [e])[1..] == entries[1..] + [e];
      LinesAppend(entries[1..], e);
    }
  }

  /** The string builder. */
  method BuildBlock(m: Marks, cleaned: seq<string>) returns (sb: string)
    ensures sb == Block(m, Entries(cleaned))
  {
    ghost var head := m.open + "\n";
    sb := m.open + "\n";
    for i := 0 to |cleaned|
      invariant sb == head + Lines(cleaned[..i])
    {
      assert cleaned[..i + 1] == cleaned[..i] + [cleaned[i]];
      LinesAppend(cleaned[..i], cleaned[i]);
      sb := sb + cleaned[i] + "\n";
    }
    assert cleaned[..|cleaned|] == cleaned;
    if NeedsNegation(cleaned) {
      LinesAppend(cleaned, NEGATION_MANIFEST);
      LinesAppend(cleaned + [NEGATION_MANIFEST], NEGATION_LOCK);
      assert cleaned + [NEGATION_MANIFEST] + [NEGATION_LOCK] == Entries(cleaned);
      sb := sb + NEGATION_MANIFEST + "\n" + NEGATION_LOCK + "\n";
    } else {
      assert cleaned + [] == cleaned;
    }
    sb := sb + m.close + "\n";
  }

  method Rewrite(m: Marks, existing: string, paths: seq<string>) returns (r: Result<string>)
    requires m.Valid()
    ensures r == Rewritten(m, existing, paths)
  {
    var cleaned := UniqueSorted(paths);
    var managed, foreign, before, after, ok := Sections(m, existing);
    if !ok { return ErrMalformedSection; }
    if |cleaned| == 0 { return Ok(foreign); }
    var block := BuildBlock(m, cleaned);
    assert "" + block + "" == block;
    if foreign == "" { return Ok(block); }
    if before != "" || after != "" { return Ok(before + block + after); }
    return Ok(foreign + Separator(foreign) + block);
  }

  // ---------------------------------------------------------------- finding the block again

  /** An entry that reads back as one line: trimmed, and without newline or closing sentinel in it. */
  ghost predicate Entry(m: Marks, e: string)
  {
    e != "" && Text.TrimSpace(e) == e && '\n' !in e && FreeOf(e, m.close)
  }

  ghost predicate AllEntries(m: Marks, entries: seq<string>)
  {
    forall i | 0 <= i < |entries| :: Entry(m, entries[i])
  }

  lemma {:induction false} LinesEnd(entries: seq<string>)
    ensures var l := Lines(entries); l == "" || l[|l| - 1] == '\n'
  {
    if entries != [] { LinesEnd(entries[1..]); }
  }

  /** Nothing on one line can span a newline. */
  lemma WithinLine(first: string, rest: string, p: string, k: nat)
    requires p != "" && '\n' !in p && At(first + "\n" + rest, p, k)
    ensures k + |p| <= |first| || k > |first|
  {
    var s := first + "\n" + rest;
    assert s[|first|] == '\n';
    if k <= |first| < k + |p| { AtChar(s, p, k, |first|); }
  }

  lemma AtShift(first: string, rest: string, p: string, k: nat)
    requires At(first + rest, p, k)
    ensures k + |p| <= |first| ==> At(first, p, k)
    ensures k >= |first| ==> At(rest, p, k - |first|)
  {
    var s := first + rest;
    forall q | 0 <= q < |p| && k + |p| <= |first| ensures first[k + q] == p[q] { assert s[k + q] == first[k + q]; }
    forall q | 0 <= q < |p| && k >= |first| ensures rest[k - |first| + q] == p[q] { assert s[k + q] == rest[k + q - |first|]; }
  }

  lemma {:induction false} LinesFree(m: Marks, entries: seq<string>)
    requires m.Valid() && AllEntries(m, entries)
    ensures FreeOf(Lines(entries), m.close)
  {
    if entries != [] {
      var e, rest := entries[0], Lines(entries[1..]);
      LinesFree(m, entries[1..]);
      assert '\n' !in m.close;
      assert e + ("\n" + rest) == e + "\n" + rest;
      forall k: nat ensures !At(Lines(entries), m.close, k) {
        if At(e + "\n" + rest, m.close, k) {
          WithinLine(e, rest, m.close, k);
          AtShift(e, "\n" + rest, m.close, k);
          AtShift(e + "\n", rest, m.close, k);
        }
      }
    }
  }

  /** In front of a text that starts with '#', no sentinel can start that was not there in full. */
  lemma NoneBefore(before: string, rest: string, p: string, k: nat)
    requires Sentinel(p) && FreeOf(before, p) && rest != "" && rest[0] == '#' && k < |before|
    ensures !At(before + rest, p, k)
  {
    assert (before + rest)[|before|] == '#';
    if At(before + rest, p, k) {
      HashFree(before + rest, p, k);
      AtShift(before, rest, p, k);
    }
  }

  /** The closing sentinel is not found before the end of the block. */
  lemma NoCloseInside(m: Marks, entries: seq<string>, tail: string, k: nat)
    requires m.Valid() && AllEntries(m, entries) && k < |m.open| + 1 + |Lines(entries)|
    ensures !At(m.open + "\n" + Lines(entries) + tail, m.close, k)
  {
    var head, lines := m.open + "\n", Lines(entries);
    var s := head + lines + tail;
    assert s == head + (lines + tail);
    if At(s, m.close, k) {
      HashFree(s, m.close, k);
      if k <= |m.open| {
        NoCloseInOpen(m, lines + tail, k);
      } else {
        LinesFree(m, entries);
        LinesEnd(entries);
        AtShift(head, lines + tail, m.close, k);
        var k2 := k - |head|;
        var line, nl := lines[..|lines| - 1], "\n";
        assert lines == line + nl;
        assert lines + tail == line + "\n" + tail;
        WithinLine(line, tail, m.close, k2);
        AtShift(lines, tail, m.close, k2);
      }
    }
  }

  lemma NoCloseInOpen(m: Marks, rest: string, k: nat)
    requires m.Valid() && k <= |m.open|
    ensures !At(m.open + "\n" + rest, m.close, k)
  {
    var s := m.open + "\n" + rest;
    assert At(s, m.open, 0);
    HashFree(s, m.open, 0);
    Together(s, m.open, m.close, 0);
    assert s[|m.open|] == '\n';
    if At(s, m.close, k) { HashFree(s, m.close, k); }
  }

  lemma PlaceOpen(m: Marks, before: string, entries: seq<string>, after: string)
    requires m.Valid() && FreeOf(before, m.open)
    ensures Index(before + Block(m, entries) + after, m.open) == |before|
  {
    var rest := Block(m, entries) + after;
    var s := before + rest;
    assert before + Block(m, entries) + after == s;
    assert rest[0] == m.open[0] == '#';
    forall q | 0 <= q < |m.open| ensures s[|before| + q] == m.open[q] { assert rest[q] == m.open[q]; }
    forall k: nat | k < |before| ensures !At(s, m.open, k) { NoneBefore(before, rest, m.open, k); }
    IndexIs(s, m.open, |before|);
  }

  /** Where a sentinel is first found that starts the tail and neither the text before nor the head contains. */
  lemma FirstInTail(p: string, before: string, head: string, tail: string)
    requires Sentinel(p) && FreeOf(before, p) && head != "" && head[0] == '#' && p <= tail
    requires forall k: nat | k < |head| :: !At(head + tail, p, k)
    ensures Index(before + (head + tail), p) == |before| + |head|
  {
    var rest := head + tail;
    var s, j := before + rest, |before| + |head|;
    assert rest[0] == '#';
    forall q | 0 <= q < |p| ensures s[j + q] == p[q] { assert s[j + q] == tail[q]; }
    forall k: nat | k < j ensures !At(s, p, k) {
      if k < |before| {
        NoneBefore(before, rest, p, k);
      } else if At(s, p, k) {
        AtShift(before, rest, p, k);
      }
    }
    IndexIs(s, p, j);
  }

  lemma PlaceClose(m: Marks, before: string, entries: seq<string>, after: string)
    requires m.Valid() && FreeOf(before, m.close) && AllEntries(m, entries)
    ensures Index(before + Block(m, entries) + after, m.close) == |before| + |m.open| + 1 + |Lines(entries)|
  {
    var head := m.open + "\n" + Lines(entries);
    var tail := m.close + "\n" + after;
    forall k: nat | k < |head| ensures !At(head + tail, m.close, k) { NoCloseInside(m, entries, tail, k); }
    FirstInTail(m.close, before, head, tail);
    assert before + Block(m, entries) + after == before + (head + tail);
  }

  lemma SectionAt(m: Marks, body: string, i: nat, j: nat, before: string, inside: string, after: string)
    requires m.Valid() && i == Index(body, m.open) && j == Index(body, m.close) && i + |m.open| <= j
    requires Pieces(m, body, i, j, before, inside, after)
    ensures SplitSection(m, body) == Section(DropBlank(before), inside, after)
  {
    SectionBounds(m, body);
  }

  /** What stands before, inside and after sentinels at i and j, the latter ended by a newline. */
  predicate Pieces(m: Marks, body: string, i: nat, j: nat, before: string, inside: string, after: string)
    requires i + |m.open| <= j
  {
    && j + |m.close| < |body| && body[j + |m.close|] == '\n'
    && body[..i] == before && body[i + |m.open|..j] == inside && body[j + |m.close| + 1..] == after
  }

  /** A block of entries is found again where it was put; the blank line before it counts as its own. */
  lemma SplitBlock(m: Marks, before: string, entries: seq<string>, after: string)
    requires m.Valid() && FreeOf(before, m.open) && FreeOf(before, m.close) && AllEntries(m, entries)
    ensures SplitSection(m, before + Block(m, entries) + after) == Section(DropBlank(before), "\n" + Lines(entries), after)
  {
    var body, i, j := BlockAt(m, before, entries, after);
    SectionAt(m, body, i, j, before, "\n" + Lines(entries), after);
  }

  lemma BlockAt(m: Marks, before: string, entries: seq<string>, after: string) returns (body: string, i: nat, j: nat)
    requires m.Valid() && FreeOf(before, m.open) && FreeOf(before, m.close) && AllEntries(m, entries)
    ensures body == before + Block(m, entries) + after
    ensures i == Index(body, m.open) && j == Index(body, m.close) && i + |m.open| <= j
    ensures Pieces(m, body, i, j, before, "\n" + Lines(entries), after)
  {
    PlaceOpen(m, before, entries, after);
    PlaceClose(m, before, entries, after);
    BlockPieces(m, before, entries, after);
    body, i, j := before + Block(m, entries) + after, |before|, |before| + |m.open| + 1 + |Lines(entries)|;
  }

  lemma BlockPieces(m: Marks, before: string, entries: seq<string>, after: string)
    ensures Pieces(m, before + Block(m, entries) + after, |before|, |before| + |m.open| + 1 + |Lines(entries)|,
                   before, "\n" + Lines(entries), after)
  {
  }

  // ---------------------------------------------------------------- the laws

  /** Both parts of a text around its section; a text without one is all in front. */
  datatype Parts = Parts(before: string, after: string)

  /** The foreign text around the block that is about to be written. */
  function Around(m: Marks, existing: string): Parts
    requires m.Valid() && SplitSection(m, existing) != Malformed
  {
    match SplitSection(m, existing)
    case Section(before, _, after) => Parts(before, after)
    case Plain => Parts(if existing == "" then "" else existing + Separator(existing), "")
  }

  ghost predicate Usable(m: Marks, paths: seq<string>)
  {
    Cleaned(paths) != [] && AllEntries(m, Entries(Cleaned(paths)))
  }

  lemma RewriteAround(m: Marks, existing: string, paths: seq<string>)
    requires m.Valid() && Cleaned(paths) != [] && SplitSection(m, existing) != Malformed
    ensures var p := Around(m, existing);
      Rewritten(m, existing, paths) == Ok(p.before + Block(m, Entries(Cleaned(paths))) + p.after)
  {
    var block := Block(m, Entries(Cleaned(paths)));
    assert "" + block + "" == block && existing + Separator(existing) + block + "" == existing + Separator(existing) + block;
  }

  lemma FreeDropBlank(before: string, p: string)
    requires FreeOf(before, p)
    ensures FreeOf(DropBlank(before), p)
  {
    if before != "" { FreeShorter(before, p, |before| - 1); }
  }

  /** Newlines put behind a text bring no sentinel. */
  lemma FreeSeparator(s: string, sep: string, p: string)
    requires Sentinel(p) && FreeOf(s, p) && forall i | 0 <= i < |sep| :: sep[i] == '\n'
    ensures FreeOf(s + sep, p)
  {
    forall k: nat ensures !At(s + sep, p, k) {
      if At(s + sep, p, k) {
        AtShift(s, sep, p, k);
        AtChar(s + sep, p, k, k);
        AtChar(s + sep, p, k, k + |p| - 1);
      }
    }
  }

  lemma AroundIsFree(m: Marks, existing: string)
    requires m.Valid() && SplitSection(m, existing) != Malformed
    ensures FreeOf(Around(m, existing).before, m.open) && FreeOf(Around(m, existing).before, m.close)
  {
    var i, j := Index(existing, m.open), Index(existing, m.close);
    if SplitSection(m, existing).Section? {
      FreeBefore(existing, m.open, i);
      FreeBefore(existing, m.close, i);
      FreeDropBlank(existing[..i], m.open);
      FreeDropBlank(existing[..i], m.close);
    } else {
      IndexNone(existing, m.open);
      IndexNone(existing, m.close);
      if existing != "" {
        FreeSeparator(existing, Separator(existing), m.open);
        FreeSeparator(existing, Separator(existing), m.close);
      }
    }
  }

  /** The text after the section stays byte for byte; in front of it at most one newline goes. */
  lemma OutsideKept(m: Marks, existing: string)
    requires m.Valid() && SplitSection(m, existing).Section?
    ensures var p := Around(m, existing);
      exists i: nat, e: nat :: i <= e <= |existing| && At(existing, m.open, i) && existing[e..] == p.after
        && (existing[..i] == p.before || existing[..i] == p.before + "\n")
  {
    var i, j := Index(existing, m.open), Index(existing, m.close);
    SectionBounds(m, existing);
    IndexFromMeans(existing, m.open, 0);
    var end := j + |m.close|;
    var e := if end < |existing| && existing[end] == '\n' then end + 1 else end;
    DropBlankMeans(existing[..i]);
    assert At(existing, m.open, i) && existing[e..] == Around(m, existing).after;
  }

  lemma DropBlankMeans(s: string)
    ensures var d := DropBlank(s); s == d || (s == d + "\n" && Text.HasSuffix(d, "\n"))
  {
    if Text.HasSuffix(s, "\n\n") {
      assert s[|s| - 2..] == "\n\n";
      assert s[|s| - 1] == s[|s| - 2..][1] && s[|s| - 2] == s[|s| - 2..][0];
    }
  }

  /** After a rewrite the section is there, around it the same text, and it reads back as the entries. */
  lemma Resplit(m: Marks, existing: string, paths: seq<string>)
    requires m.Valid() && Usable(m, paths) && SplitSection(m, existing) != Malformed
    ensures var p := Around(m, existing);
      SplitSection(m, Rewritten(m, existing, paths).value)
        == Section(DropBlank(p.before), "\n" + Lines(Entries(Cleaned(paths))), p.after)
  {
    RewriteAround(m, existing, paths);
    AroundIsFree(m, existing);
    SplitBlock(m, Around(m, existing).before, Entries(Cleaned(paths)), Around(m, existing).after);
  }

  lemma {:induction false} SplitEntries(m: Marks, entries: seq<string>)
    requires AllEntries(m, entries)
    ensures Split(Lines(entries)) == entries + [""]
  {
    if entries == [] { assert entries + [""] == [""]; } else {
      SplitEntries(m, entries[1..]);
      SplitLine(entries[0], Lines(entries[1..]));
      assert [entries[0]] + (entries[1..] + [""]) == entries + [""];
    }
  }

  lemma {:induction false} ManagedEntries(m: Marks, entries: seq<string>, lines: seq<string>, n: nat)
    requires AllEntries(m, entries) && lines == [""] + entries + [""] && 1 <= n <= |entries| + 1
    ensures ManagedTo(lines, n) == entries[..n - 1]
  {
    if n == 1 {
      assert ManagedTo(lines, 0) == [];
    } else {
      ManagedEntries(m, entries, lines, n - 1);
      assert lines[n - 1] == entries[n - 2] && Entry(m, entries[n - 2]);
      assert entries[..n - 1] == entries[..n - 2] + [entries[n - 2]];
    }
  }

  /** What the section holds reads back as its entries, in order. */
  lemma ReadBack(m: Marks, entries: seq<string>)
    requires AllEntries(m, entries)
    ensures Managed("\n" + Lines(entries)) == entries
  {
    var lines := [""] + entries + [""];
    SplitEntries(m, entries);
    SplitLine("", Lines(entries));
    assert "" + "\n" + Lines(entries) == "\n" + Lines(entries);
    assert [""] + (entries + [""]) == lines;
    ManagedEntries(m, entries, lines, |entries| + 1);
    assert entries[..|entries|] == entries;
  }

  lemma TrimTwice(s: string)
    ensures Text.TrimSpace(Text.TrimSpace(s)) == Text.TrimSpace(s)
  {
    var l := Text.TrimLeft(s, Text.IsSpace);
    var r := Text.TrimRight(l, Text.IsSpace);
    Text.TrimLeftMeans(s, Text.IsSpace);
    Text.TrimRightMeans(l, Text.IsSpace);
    if r != [] { assert r[0] == l[0]; }
  }

  /** Plain paths make usable entries: only a newline or a closing sentinel inside one can spoil it. */
  lemma PlainPathsAreUsable(m: Marks, paths: seq<string>)
    requires m.Valid() && Cleaned(paths) != []
    requires forall p | Mentions(paths, p) :: '\n' !in p && FreeOf(p, m.close)
    ensures Usable(m, paths)
  {
    CleanedMeans(paths);
    NegationsAreEntries(m);
    var entries := Entries(Cleaned(paths));
    forall i | 0 <= i < |entries| ensures Entry(m, entries[i]) {
      if i < |Cleaned(paths)| {
        var p := Cleaned(paths)[i];
        assert p in Cleaned(paths);
        var k :| 0 <= k < |paths| && Text.TrimSpace(paths[k]) == p;
        TrimTwice(paths[k]);
      }
    }
  }

  lemma NoHashFree(e: string, p: string)
    requires Sentinel(p) && '#' !in e
    ensures FreeOf(e, p)
  {
    forall k: nat ensures !At(e, p, k) {
      if At(e, p, k) { AtChar(e, p, k, k); }
    }
  }

  lemma NegationsAreEntries(m: Marks)
    requires m.Valid()
    ensures Entry(m, NEGATION_MANIFEST) && Entry(m, NEGATION_LOCK)
  {
    PlainEntry(m, NEGATION_MANIFEST);
    PlainEntry(m, NEGATION_LOCK);
  }

  lemma PlainEntry(m: Marks, e: string)
    requires m.Valid() && e != "" && '#' !in e && '\n' !in e && !Text.IsSpace(e[0]) && !Text.IsSpace(e[|e| - 1])
    ensures Entry(m, e)
  {
    NoHashFree(e, m.close);
    Text.NothingToTrim(e);
  }

  /** Newlines at the end. */
  function Trailing(s: string): nat
  {
    if s != "" && s[|s| - 1] == '\n' then Trailing(s[..|s| - 1]) + 1 else 0
  }

  function DropBlanks(s: string, n: nat): string
  {
    if n == 0 then s else DropBlank(DropBlanks(s, n - 1))
  }

  lemma EndsInLF(s: string)
    ensures Text.HasSuffix(s, "\n") <==> Trailing(s) >= 1
  {
    var n := |s|;
    assert n >= 1 ==> s[n - 1..] == [s[n - 1]];
  }

  lemma TrailingTwo(s: string)
    ensures Trailing(s) >= 2 <==> |s| >= 2 && s[|s| - 1] == '\n' && s[|s| - 2] == '\n'
  {
    if |s| >= 1 && s[|s| - 1] == '\n' {
      var t := s[..|s| - 1];
      assert Trailing(s) == Trailing(t) + 1;
      assert t != "" ==> t[|t| - 1] == s[|s| - 2];
    }
  }

  lemma EndsInBlank(s: string)
    ensures Text.HasSuffix(s, "\n\n") <==> Trailing(s) >= 2
  {
    TrailingTwo(s);
    var n := |s|;
    assert n >= 2 ==> s[n - 2..] == [s[n - 2], s[n - 1]];
  }

  lemma BlankAtEnd(s: string)
    ensures DropBlank(s) == s <==> Trailing(s) < 2
    ensures Trailing(DropBlank(s)) == if Trailing(s) < 2 then Trailing(s) else Trailing(s) - 1
  {
    EndsInBlank(s);
  }

  lemma {:induction false} DropBlanksTrailing(s: string, n: nat)
    ensures Trailing(DropBlanks(s, n)) == if Trailing(s) < 2 then Trailing(s) else if Trailing(s) - 1 <= n then 1 else Trailing(s) - n
  {
    if n > 0 {
      DropBlanksTrailing(s, n - 1);
      BlankAtEnd(DropBlanks(s, n - 1));
    }
  }

  function Iterate(f: string -> Result<string>, s: string, n: nat): Result<string>
  {
    if n == 0 then Ok(s)
    else
      match Iterate(f, s, n - 1)
      case Ok(t) => f(t)
      case ErrMalformedSection => ErrMalformedSection
  }

  function Rewriting(m: Marks, paths: seq<string>): string -> Result<string>
    requires m.Valid()
  {
    s => Rewritten(m, s, paths)
  }

  /** Rewriting n times with the same paths. */
  function Iterated(m: Marks, existing: string, paths: seq<string>, n: nat): Result<string>
    requires m.Valid()
  {
    Iterate(Rewriting(m, paths), existing, n)
  }

  /** Rewriting around an old block puts the new one in its place and takes at most one newline before it. */
  lemma RewriteBlock(m: Marks, before: string, was: seq<string>, after: string, paths: seq<string>)
    requires m.Valid() && FreeOf(before, m.open) && FreeOf(before, m.close) && AllEntries(m, was) && Cleaned(paths) != []
    ensures Rewritten(m, before + Block(m, was) + after, paths) == Ok(DropBlank(before) + Block(m, Entries(Cleaned(paths))) + after)
  {
    SplitBlock(m, before, was, after);
  }

  /** Behind every text that is free, the edit f leaves what was put there alone, but for a blank line in front. */
  ghost predicate Settled(free: string -> bool, f: string -> Result<string>, put: string -> string)
  {
    forall b | free(b) :: free(DropBlank(b)) && f(put(b)) == Ok(put(DropBlank(b)))
  }

  lemma OwnBlockIsSettled(m: Marks, paths: seq<string>, block: string, after: string)
    requires m.Valid() && Usable(m, paths) && block == Block(m, Entries(Cleaned(paths)))
    ensures Settled(b => FreeOf(b, m.open) && FreeOf(b, m.close), Rewriting(m, paths), b => b + block + after)
  {
    forall b | FreeOf(b, m.open) && FreeOf(b, m.close)
      ensures FreeOf(DropBlank(b), m.open) && FreeOf(DropBlank(b), m.close)
      ensures Rewritten(m, b + block + after, paths) == Ok(DropBlank(b) + block + after)
    {
      FreeDropBlank(b, m.open);
      FreeDropBlank(b, m.close);
      RewriteBlock(m, b, Entries(Cleaned(paths)), after, paths);
    }
  }

  lemma {:induction false} IteratedBlock(free: string -> bool, f: string -> Result<string>, s: string, n: nat,
                                         before: string, put: string -> string)
    requires free(before) && Settled(free, f, put) && f(s) == Ok(put(before))
    ensures Iterate(f, s, n + 1) == Ok(put(DropBlanks(before, n))) && free(DropBlanks(before, n))
  {
    if n == 0 { assert Iterate(f, s, 0) == Ok(s); } else { IteratedBlock(free, f, s, n - 1, before, put); }
  }

  /** Every further rewrite takes one blank line in front of the block and touches nothing else. */
  lemma IteratedIs(m: Marks, existing: string, paths: seq<string>, n: nat)
    requires m.Valid() && Usable(m, paths) && SplitSection(m, existing) != Malformed
    ensures var p := Around(m, existing);
      Iterated(m, existing, paths, n + 1) == Ok(DropBlanks(p.before, n) + Block(m, Entries(Cleaned(paths))) + p.after)
  {
    var p := Around(m, existing);
    RewriteAround(m, existing, paths);
    AroundIsFree(m, existing);
    var block := Block(m, Entries(Cleaned(paths)));
    OwnBlockIsSettled(m, paths, block, p.after);
    IteratedBlock(b => FreeOf(b, m.open) && FreeOf(b, m.close), Rewriting(m, paths), existing, n, p.before, b => b + block + p.after);
  }

  lemma SameFront(a: string, b: string, mid: string, end: string)
    ensures a + mid + end == b + mid + end <==> a == b
  {
    var x, y := a + mid + end, b + mid + end;
    if x == y { assert |a| == |b| && x[..|a|] == a && y[..|b|] == b; }
  }

  lemma RewriteAgain(m: Marks, existing: string, paths: seq<string>, n: nat)
    requires m.Valid() && Usable(m, paths) && SplitSection(m, existing) != Malformed
    ensures Iterated(m, existing, paths, n + 2) == Iterated(m, existing, paths, n + 1)
      <==> DropBlanks(Around(m, existing).before, n + 1) == DropBlanks(Around(m, existing).before, n)
  {
    var p, block := Around(m, existing), Block(m, Entries(Cleaned(paths)));
    IteratedIs(m, existing, paths, n);
    IteratedIs(m, existing, paths, n + 1);
    SameFront(DropBlanks(p.before, n + 1), DropBlanks(p.before, n), block, p.after);
  }

  /** Rewriting again changes nothing exactly when no blank line is left in front of the block. */
  lemma FixedIff(m: Marks, existing: string, paths: seq<string>, n: nat)
    requires m.Valid() && Usable(m, paths) && SplitSection(m, existing) != Malformed
    ensures Iterated(m, existing, paths, n + 2) == Iterated(m, existing, paths, n + 1)
      <==> Trailing(Around(m, existing).before) <= n + 1
  {
    var before := Around(m, existing).before;
    RewriteAgain(m, existing, paths, n);
    BlankAtEnd(DropBlanks(before, n));
    DropBlanksTrailing(before, n);
  }

  /** So the first rewrite of a text without a section is idempotent only when the text is empty. */
  lemma IdempotentIff(m: Marks, existing: string, paths: seq<string>)
    requires m.Valid() && Usable(m, paths) && SplitSection(m, existing) == Plain
    ensures Iterated(m, existing, paths, 2) == Iterated(m, existing, paths, 1) <==> existing == ""
  {
    FixedIff(m, existing, paths, 0);
    if existing != "" { SeparatorEnds(existing); }
  }

  lemma SeparatorEnds(s: string)
    requires s != ""
    ensures Trailing(s + Separator(s)) >= 2
  {
    EndsInLF(s);
    var t := s + Separator(s);
    TrailingTwo(t);
  }

  /** The last rewrite decides: an earlier list of paths leaves no trace but the blank line it may take. */
  lemma LastWins(m: Marks, existing: string, a: seq<string>, b: seq<string>)
    requires m.Valid() && Usable(m, a) && Cleaned(b) != [] && SplitSection(m, existing) != Malformed
    ensures var p := Around(m, existing);
      Rewritten(m, Rewritten(m, existing, a).value, b) == Ok(DropBlank(p.before) + Block(m, Entries(Cleaned(b))) + p.after)
  {
    RewriteAround(m, existing, a);
    AroundIsFree(m, existing);
    RewriteBlock(m, Around(m, existing).before, Entries(Cleaned(a)), Around(m, existing).after, b);
  }

  /** Writing a section into a text without one and clearing it again gives the text back exactly when it is empty or ends its last line. */
  lemma ApplyThenClearIff(m: Marks, existing: string, paths: seq<string>, none: seq<string>)
    requires m.Valid() && Usable(m, paths) && Cleaned(none) == [] && SplitSection(m, existing) == Plain
    ensures Rewritten(m, Rewritten(m, existing, paths).value, none) == Ok(existing)
      <==> existing == "" || Text.HasSuffix(existing, "\n")
  {
    Resplit(m, existing, paths);
    var before := Around(m, existing).before;
    assert DropBlank(before) + "" == DropBlank(before);
    if existing != "" {
      SeparatorEnds(existing);
      EndsInBlank(before);
      assert DropBlank(before) == before[..|before| - 1];
      assert Text.HasSuffix(existing, "\n") ==> before[..|before| - 1] == existing;
    }
  }

  // ---------------------------------------------------------------- the file

  datatype File = Absent | Present(body: string)

  function BodyOf(f: File): string
  {
    if f.Present? then Text.ReplaceCRLF(f.body) else ""
  }

  /** The file after an apply; it is replaced only by a text that differs from its own, line endings aside. */
  function Applied(f: File, paths: seq<string>): (File, bool)
    requires MARKS.Valid()
  {
    match Rewritten(MARKS, BodyOf(f), paths)
    case ErrMalformedSection => (f, false)
    case Ok(updated) => (if updated == BodyOf(f) then f else Present(updated), true)
  }

  /** A .gitignore on disk. */
  class IgnoreFile {
    var file: File

    constructor (f: File)
      ensures file == f
    {
      file := f;
    }

    method Apply(paths: seq<string>) returns (ok: bool)
      requires MARKS.Valid()
      modifies this
      ensures (file, ok) == Applied(old(file), paths)
    {
      var normalized := BodyOf(file);
      var updated := Rewrite(MARKS, normalized, paths);
      if updated.ErrMalformedSection? { return false; }
      ok := true;
      if file.Absent? && updated.value == "" { return; }
      if file.Present? && updated.value == normalized { return; }
      file := Present(updated.value);
    }

    /** The managed paths, and the text around them. */
    method Read() returns (managed: seq<string>, foreign: string, ok: bool)
      requires MARKS.Valid()
      ensures match SplitSection(MARKS, BodyOf(file))
        case Plain => ok && managed == [] && foreign == BodyOf(file)
        case Malformed => !ok
        case Section(before, inside, after) => ok && managed == Managed(inside) && foreign == before + after
    {
      var before, after;
      managed, foreign, before, after, ok := Sections(MARKS, BodyOf(file));
    }
  }
}
