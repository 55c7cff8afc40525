// Version constraints of the consumer manifest (pkg/consumermanifest/semver.go).

module Semver {
  import opened Substring
  import opened Wrappers
  import Text

  /** Numbers beyond a 64-bit int do not parse. */
  const MAX_INT: int := 0x7FFF_FFFF_FFFF_FFFF

  predicate IsDigit(c: char)
  {
    '0' <= c <= '9'
  }

  predicate AllDigits(s: string)
  {
    forall i | 0 <= i < |s| :: IsDigit(s[i])
  }

  function NumberOf(ds: string): nat
    requires AllDigits(ds)
  {
    if ds == "" then 0 else NumberOf(ds[..|ds| - 1]) * 10 + (ds[|ds| - 1] - '0') as nat
  }

  /** strconv.Atoi on a part without sign. */
  function Atoi(s: string): Option<int>
  {
    if s != "" && AllDigits(s) && NumberOf(s) <= MAX_INT then Some(NumberOf(s)) else None
  }

  /** What Atoi returns when its error is ignored: out of range gives the largest int. */
  function AtoiClamped(ds: string): int
    requires AllDigits(ds)
  {
    if NumberOf(ds) <= MAX_INT then NumberOf(ds) else MAX_INT
  }

  /** The digits that s starts with. */
  function Digits(s: string): (ds: string)
    ensures |ds| <= |s| && AllDigits(ds)
  {
    if s != "" && IsDigit(s[0]) then [s[0]] + Digits(s[1..]) else ""
  }

  // ---------------------------------------------------------------- versions

  datatype Version = Version(major: int, minor: int, patch: int, pre: string)

  predicate IsSuffixMark(c: char)
  {
    c == '-' || c == '+'
  }

  /** strings.IndexAny(t, "-+"), or the length. */
  function SuffixStart(t: string): (i: nat)
    ensures i <= |t|
  {
    if t == "" || IsSuffixMark(t[0]) then 0 else SuffixStart(t[1..]) + 1
  }

  function TrimV(t: string): string
  {
    if Text.HasPrefix(t, "v") then t[1..] else t
  }

  function ParseSemver(s: string): Option<Version>
  {
    var t := Text.TrimSpace(s);
    if t == "" then None else ParseCore(TrimV(t))
  }

  function ParseCore(t: string): Option<Version>
  {
    var i := SuffixStart(t);
    ParseParts(Split(t[..i], '.'), t[i..])
  }

  function ParseParts(parts: seq<string>, pre: string): Option<Version>
    requires parts != []
  {
    if |parts| > 3 then None
    else
      var major, minor, patch := Atoi(parts[0]), PartOrZero(parts, 1), PartOrZero(parts, 2);
      if major.None? || minor.None? || patch.None? then None
      else Some(Version(major.value, minor.value, patch.value, pre))
  }

  function PartOrZero(parts: seq<string>, k: nat): Option<int>
  {
    if |parts| > k then Atoi(parts[k]) else Some(0)
  }

  // ---------------------------------------------------------------- constraints

  datatype Constraint =
    | Any
    | Exact(text: string)
    | Range(caret: bool, major: int, minor: Option<int>, patch: Option<int>)

  datatype Fields = Fields(major: string, minor: string, patch: string)
  {
    predicate Valid() {
      AllDigits(major) && AllDigits(minor) && AllDigits(patch) && (patch != "" ==> minor != "")
    }
  }

  /** The submatches of ^v?(\d+)(?:\.(\d+))?(?:\.(\d+))?(?:[-+].*)?$ */
  function MatchParts(t: string): (r: Option<Fields>)
    ensures r.Some? ==> r.value.Valid()
  {
    var t := TrimV(t);
    var major := Digits(t);
    if major == "" then None else MatchMinor(major, t[|major|..])
  }

  function MatchMinor(major: string, r: string): (m: Option<Fields>)
    requires AllDigits(major)
    ensures m.Some? ==> m.value.Valid()
  {
    var minor := DottedDigits(r);
    if minor == "" then MatchEnd(Fields(major, "", ""), r) else MatchPatch(major, minor, r[|minor| + 1..])
  }

  function MatchPatch(major: string, minor: string, r: string): (m: Option<Fields>)
    requires AllDigits(major) && AllDigits(minor) && minor != ""
    ensures m.Some? ==> m.value.Valid()
  {
    var patch := DottedDigits(r);
    MatchEnd(Fields(major, minor, patch), if patch == "" then r else r[|patch| + 1..])
  }

  function MatchEnd(f: Fields, r: string): (m: Option<Fields>)
    ensures m.Some? ==> m.value == f
  {
    if r == "" || (IsSuffixMark(r[0]) && '\n' !in r[1..]) then Some(f) else None
  }

  function DottedDigits(r: string): (ds: string)
    ensures AllDigits(ds) && (ds != "" ==> |ds| + 1 <= |r|)
  {
    if r != "" && r[0] == '.' then Digits(r[1..]) else ""
  }

  function CanonicalExact(f: Fields): string
  {
    if f.minor == "" then f.major + ".0.0"
    else if f.patch == "" then f.major + "." + f.minor + ".0"
    else f.major + "." + f.minor + "." + f.patch
  }

  function OptionalPart(s: string): Option<int>
    requires AllDigits(s)
  {
    if s == "" then None else Some(AtoiClamped(s))
  }

  function ParseConstraint(s: string): Option<Constraint>
  {
    var t := Text.TrimSpace(s);
    if t == "" || t == "*" || t == "latest" then Some(Any)
    else
      var ranged := t[0] == '^' || t[0] == '~';
      var m := MatchParts(if ranged then t[1..] else t);
      if m.None? then None
      else if !ranged then Some(Exact(CanonicalExact(m.value)))
      else Some(RangeOf(t[0] == '^', m.value))
  }

  function RangeOf(caret: bool, f: Fields): Constraint
    requires f.Valid()
  {
    Range(caret, AtoiClamped(f.major), OptionalPart(f.minor), OptionalPart(f.patch))
  }

  /** a.minor.patch is not below the given pair. */
  predicate Gte(a: Version, minor: Option<int>, patch: Option<int>)
  {
    minor.None? || (a.minor >= minor.value && (a.minor > minor.value || patch.None? || a.patch >= patch.value))
  }

  predicate Equal(a: Version, b: Version)
  {
    a.major == b.major && a.minor == b.minor && a.patch == b.patch && a.pre == b.pre
  }

  predicate Matches(c: Constraint, v: string)
  {
    match c
    case Any => true
    case Exact(text) =>
      ParseSemver(v).Some? && ParseSemver(text).Some? && Equal(ParseSemver(text).value, ParseSemver(v).value)
    case Range(caret, major, minor, patch) =>
      ParseSemver(v).Some? && InRange(caret, major, minor, patch, ParseSemver(v).value)
  }

  predicate InRange(caret: bool, major: int, minor: Option<int>, patch: Option<int>, v: Version)
  {
    if caret then
      if major == 0 then
        if minor.None? then v.major == 0
        else v.major == 0 && v.minor == minor.value && Gte(v, minor, patch)
      else v.major == major && Gte(v, minor, patch)
    else if minor.None? then v.major == major
    else v.major == major && v.minor == minor.value && Gte(v, minor, patch)
  }

  // ---------------------------------------------------------------- ranges are half-open intervals

  /** The numeric triple: the order of section 11 of SemVer 2.0.0 without pre-releases. */
  datatype Triple = Triple(x: int, y: int, z: int)

  function TripleOf(v: Version): Triple
  {
    Triple(v.major, v.minor, v.patch)
  }

  function Rank(v: string): Triple
    requires ParseSemver(v).Some?
  {
    TripleOf(ParseSemver(v).value)
  }

  predicate Below(a: Triple, b: Triple)
  {
    a.x < b.x || (a.x == b.x && (a.y < b.y || (a.y == b.y && a.z < b.z)))
  }

  function Or0(o: Option<int>): int
  {
    if o.Some? then o.value else 0
  }

  function Lowest(c: Constraint): Triple
    requires c.Range?
  {
    Triple(c.major, Or0(c.minor), Or0(c.patch))
  }

  /** The first triple that is too high: the next major for a caret from 1 on and for a bare number, else the next minor. */
  function TooHigh(c: Constraint): Triple
    requires c.Range?
  {
    if c.minor.None? || (c.caret && c.major > 0) then Triple(c.major + 1, 0, 0) else Triple(c.major, c.minor.value + 1, 0)
  }

  /** The shape of a parsed range. */
  predicate Parsed(c: Constraint)
  {
    c.Range? && c.major >= 0 && Or0(c.minor) >= 0 && Or0(c.patch) >= 0 && (c.patch.Some? ==> c.minor.Some?)
  }

  lemma ParsedShape(s: string)
    requires ParseConstraint(s).Some? && ParseConstraint(s).value.Range?
    ensures Parsed(ParseConstraint(s).value)
  {
  }

  lemma VersionsAreNatural(v: string)
    requires ParseSemver(v).Some?
    ensures var p := ParseSemver(v).value; p.major >= 0 && p.minor >= 0 && p.patch >= 0
  {
  }

  /** A caret or tilde accepts exactly the versions from Lowest up to, but not including, TooHigh; suffixes play no part. */
  lemma RangeIsInterval(c: Constraint, v: string)
    requires Parsed(c)
    ensures Matches(c, v) <==> ParseSemver(v).Some? && !Below(Rank(v), Lowest(c)) && Below(Rank(v), TooHigh(c))
  {
    if ParseSemver(v).Some? { VersionsAreNatural(v); }
  }

  /** Whatever a tilde accepts the caret on the same numbers accepts too. */
  lemma TildeInCaret(c: Constraint, v: string)
    requires Parsed(c) && !c.caret && Matches(c, v)
    ensures Matches(c.(caret := true), v)
  {
    RangeIsInterval(c, v);
    RangeIsInterval(c.(caret := true), v);
  }

  // ---------------------------------------------------------------- an exact constraint and its own version

  lemma {:induction false} SuffixStartOf(core: string, p: string)
    requires (forall i | 0 <= i < |core| :: !IsSuffixMark(core[i])) && (p == "" || IsSuffixMark(p[0]))
    ensures SuffixStart(core + p) == |core|
  {
    if core == "" { assert core + p == p; } else {
      assert (core + p)[1..] == core[1..] + p;
      SuffixStartOf(core[1..], p);
    }
  }

  function Core(a: string, b: string, c: string): string
  {
    a + "." + b + "." + c
  }

  lemma CoreParts(a: string, b: string, c: string)
    requires AllDigits(a) && AllDigits(b) && AllDigits(c)
    ensures Split(Core(a, b, c), '.') == [a, b, c]
  {
    SplitNone(c, '.');
    SplitLine(b, c, '.');
    SplitLine(a, b + "." + c, '.');
    assert a + "." + (b + "." + c) == Core(a, b, c);
  }

  /** The numbers of a constraint as they are written. */
  function Written(f: Fields): string
  {
    f.major + if f.minor == "" then "" else "." + f.minor + if f.patch == "" then "" else "." + f.patch
  }

  lemma {:induction false} DigitsPrefix(s: string)
    ensures s == Digits(s) + s[|Digits(s)|..]
  {
    if s != "" && IsDigit(s[0]) { DigitsPrefix(s[1..]); }
  }

  /** Matched text is the numbers and a suffix. */
  lemma MatchWritten(t: string) returns (r: string)
    requires MatchParts(t).Some?
    ensures var f := MatchParts(t).value; f.major != "" && TrimV(t) == Written(f) + r && (r == "" || IsSuffixMark(r[0]))
  {
    var t := TrimV(t);
    var major := Digits(t);
    DigitsPrefix(t);
    var r1 := t[|major|..];
    var minor := DottedDigits(r1);
    if minor == "" {
      r := r1;
      assert major + "" + r == t;
    } else {
      DottedPrefix(r1);
      var r2 := r1[|minor| + 1..];
      var patch := DottedDigits(r2);
      if patch == "" { r := r2; } else { DottedPrefix(r2); r := r2[|patch| + 1..]; }
      WrittenParts(major, minor, patch, r1, r2, r);
    }
  }

  lemma DottedPrefix(r: string)
    requires DottedDigits(r) != ""
    ensures r == "." + DottedDigits(r) + r[|DottedDigits(r)| + 1..]
  {
    var d := DottedDigits(r);
    DigitsPrefix(r[1..]);
    DropDrop(r, |d|);
    assert r == "." + (d + r[|d| + 1..]);
  }

  lemma DropDrop(r: string, n: nat)
    requires n + 1 <= |r|
    ensures r == [r[0]] + r[1..] && r[1..][n..] == r[n + 1..]
  {
  }

  lemma WrittenParts(major: string, minor: string, patch: string, r1: string, r2: string, r: string)
    requires minor != "" && r1 == "." + minor + r2 && r2 == (if patch == "" then r else "." + patch + r)
    ensures major + r1 == Written(Fields(major, minor, patch)) + r
  {
    if patch == "" { assert major + ("." + minor + "") + r == major + r1; }
  }

  predicate HasNoMark(s: string)
  {
    forall i | 0 <= i < |s| :: !IsSuffixMark(s[i])
  }

  lemma WrittenHasNoMark(f: Fields)
    requires f.Valid()
    ensures HasNoMark(Written(f))
  {
  }

  function PartsOf(f: Fields): seq<string>
  {
    [f.major] + if f.minor == "" then [] else [f.minor] + if f.patch == "" then [] else [f.patch]
  }

  lemma TwoParts(a: string, b: string)
    requires AllDigits(a) && AllDigits(b)
    ensures Split(a + "." + b, '.') == [a, b]
  {
    SplitNone(b, '.');
    SplitLine(a, b, '.');
  }

  lemma WrittenSplits(f: Fields)
    requires f.Valid()
    ensures Split(Written(f), '.') == PartsOf(f)
  {
    if f.minor == "" {
      SplitNone(f.major, '.');
      assert f.major + "" == f.major;
    } else if f.patch == "" {
      TwoParts(f.major, f.minor);
      assert Written(f) == f.major + "." + f.minor;
    } else {
      CoreParts(f.major, f.minor, f.patch);
      assert Written(f) == Core(f.major, f.minor, f.patch);
    }
  }

  /** How numbers with a suffix read. */
  lemma ParseWritten(f: Fields, p: string)
    requires f.Valid() && (p == "" || IsSuffixMark(p[0]))
    ensures ParseCore(Written(f) + p) == ParseParts(PartsOf(f), p)
  {
    var core := Written(f);
    WrittenHasNoMark(f);
    SuffixStartOf(core, p);
    WrittenSplits(f);
    assert (core + p)[..|core|] == core && (core + p)[|core|..] == p;
  }

  function OrZero(s: string): string
  {
    if s == "" then "0" else s
  }

  /** The canonical text is the numbers with zeros filled in. */
  lemma CanonicalWritten(f: Fields)
    requires f.Valid() && f.major != ""
    ensures var c := Fields(f.major, OrZero(f.minor), OrZero(f.patch)); c.Valid() && CanonicalExact(f) == Written(c)
  {
    assert f.major + ("." + "0" + ("." + "0")) == f.major + ".0.0";
    assert f.major + ("." + f.minor + ("." + "0")) == f.major + "." + f.minor + ".0";
    assert f.major + ("." + f.minor + ("." + f.patch)) == f.major + "." + f.minor + "." + f.patch;
  }

  lemma ZerosReadAlike(f: Fields, p: string)
    requires f.Valid() && f.major != ""
    ensures var x, y := ParseParts(PartsOf(f), p), ParseParts(PartsOf(Fields(f.major, OrZero(f.minor), OrZero(f.patch))), "");
      (x.Some? <==> y.Some?) && (x.Some? ==> x.value == y.value.(pre := p) && y.value.pre == "")
  {
    assert NumberOf("0") == 0 && Atoi("0") == Some(0) by { assert "0"[..0] == ""; }
  }

  lemma CanonicalReads(f: Fields)
    requires f.Valid() && f.major != ""
    ensures ParseSemver(CanonicalExact(f)) == ParseParts(PartsOf(Fields(f.major, OrZero(f.minor), OrZero(f.patch))), "")
  {
    var c := Fields(f.major, OrZero(f.minor), OrZero(f.patch));
    CanonicalWritten(f);
    var t := Written(c);
    assert t[0] == f.major[0] && t[|t| - 1] == c.patch[|c.patch| - 1];
    Text.NothingToTrim(t);
    assert TrimV(t) == t;
    ParseWritten(c, "");
    assert t + "" == t;
  }

  /**
   * A constraint without operator drops the suffix of the version it spells: whatever was written, it accepts that very
   * text exactly when it reads as a version without suffix.
   */
  lemma ExactAcceptsItselfIff(s: string)
    requires ParseConstraint(s).Some? && ParseConstraint(s).value.Exact?
    ensures Matches(ParseConstraint(s).value, s) <==> ParseSemver(s).Some? && ParseSemver(s).value.pre == ""
  {
    var t := Text.TrimSpace(s);
    var f := MatchParts(t).value;
    var r := MatchWritten(t);
    ParseWritten(f, r);
    CanonicalReads(f);
    ZerosReadAlike(f, r);
  }

  // ---------------------------------------------------------------- the highest version

  /** What decides about a list of versions: which are accepted, and how each reads. */
  datatype Reading = Reading(accepts: string -> bool, parse: string -> Option<Version>)
  {
    predicate Counts(v: string) {
      accepts(v) && parse(v).Some?
    }

    function Rank(v: string): Triple
      requires Counts(v)
    {
      TripleOf(parse(v).value)
    }
  }

  /** Among the first n, k is the first with the highest rank. */
  ghost predicate IsBest(r: Reading, versions: seq<string>, n: nat, k: int)
    requires n <= |versions|
  {
    && 0 <= k < n && r.Counts(versions[k])
    && (forall j | 0 <= j < n && r.Counts(versions[j]) :: !Below(r.Rank(versions[k]), r.Rank(versions[j])))
    && (forall j | 0 <= j < k && r.Counts(versions[j]) :: Below(r.Rank(versions[j]), r.Rank(versions[k])))
  }

  ghost predicate NoneCounts(r: Reading, versions: seq<string>, n: nat)
    requires n <= |versions|
  {
    forall j | 0 <= j < n :: !r.Counts(versions[j])
  }

  method Highest(r: Reading, versions: seq<string>) returns (best: string)
    requires r.parse("").None?
    ensures || (best == "" && NoneCounts(r, versions, |versions|))
            || (best != "" && exists k :: IsBest(r, versions, |versions|, k) && versions[k] == best)
  {
    ghost var at := -1;
    best := "";
    var bestRank := Triple(0, 0, 0);
    for i := 0 to |versions|
      invariant best == "" ==> NoneCounts(r, versions, i)
      invariant best != "" ==> IsBest(r, versions, i, at) && versions[at] == best && r.Rank(best) == bestRank
    {
      var v := versions[i];
      if !r.accepts(v) { continue; }
      var p := r.parse(v);
      if p.None? { continue; }
      if best == "" || Below(bestRank, TripleOf(p.value)) {
        best, bestRank, at := v, TripleOf(p.value), i;
      }
    }
  }

  function ReadingOf(c: Constraint): Reading
  {
    Reading(v => Matches(c, v), ParseSemver)
  }

  /** The first of the highest accepted versions, or nothing when none is accepted. */
  method HighestSatisfying(c: Constraint, versions: seq<string>) returns (best: string)
    ensures || (best == "" && NoneCounts(ReadingOf(c), versions, |versions|))
            || (best != "" && exists k :: IsBest(ReadingOf(c), versions, |versions|, k) && versions[k] == best)
  {
    EmptyIsNoVersion();
    best := Highest(ReadingOf(c), versions);
  }

  lemma EmptyIsNoVersion()
    ensures ParseSemver("") == None
  {
  }
}
