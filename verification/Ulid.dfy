// ULIDs: 48 bits of milliseconds and 80 random bits in 26 characters (pkg/instincts/format.go).

module Ulid {
  import opened Base32
  import opened Positional
  import Order

  const CROCKFORD := "0123456789ABCDEFGHJKMNPQRSTVWXYZ"

  /** [0-9A-HJKMNP-TV-Z], the character class of the id pattern. */
  predicate InPattern(c: char)
  {
    '0' <= c <= '9' || 'A' <= c <= 'H' || c == 'J' || c == 'K' || c == 'M' || c == 'N' || 'P' <= c <= 'T' || 'V' <= c <= 'Z'
  }

  lemma AlphabetAscends()
    ensures |CROCKFORD| == 32
    ensures forall i | 0 <= i < 31 :: CROCKFORD[i] < CROCKFORD[i + 1]
    ensures forall i | 0 <= i < 32 :: InPattern(CROCKFORD[i])
  {
  }

  // ---------------------------------------------------------------- sixteen bytes are twenty-six digits

  /** The table indexes of the twenty-six characters. */
  function Indexes(raw: seq<bv8>): seq<bv8>
    requires |raw| == 16
  {
    [(raw[0] & 224) >> 5, raw[0] & 31] + Group(raw, 1) + Group(raw, 6) + Group(raw, 11)
  }

  /** The characters' indexes are the base-32 digits of the 128-bit number that the bytes write in base 256. */
  lemma IndexesAreDigits(raw: seq<bv8>)
    requires |raw| == 16
    ensures |Indexes(raw)| == 26 && Digits(32, Nats(Indexes(raw), Nat))
    ensures Value(32, Nats(Indexes(raw), Nat)) == Value(256, Nats(raw, Nat))
  {
    var head := [(raw[0] & 224) >> 5, raw[0] & 31];
    HeadIs(raw[0]);
    GroupIs(raw, 1);
    GroupIs(raw, 6);
    GroupIs(raw, 11);
    FourParts(raw, Nat);
    Assemble(head, Group(raw, 1), Group(raw, 6), Group(raw, 11), [raw[0]], raw[1..6], raw[6..11], raw[11..16], Nat);
  }

  lemma FourParts(raw: seq<bv8>, n: bv8 -> nat)
    requires |raw| == 16
    ensures raw == [raw[0]] + raw[1..6] + raw[6..11] + raw[11..16]
  {
  }

  // ---------------------------------------------------------------- spelling

  function Spell(ns: seq<nat>): string
    requires Digits(32, ns)
  {
    seq(|ns|, i requires 0 <= i < |ns| => CROCKFORD[ns[i]])
  }

  function Encoded(raw: seq<bv8>): string
    requires |raw| == 16
  {
    IndexesAreDigits(raw);
    Spell(Nats(Indexes(raw), Nat))
  }

  function Letter(d: bv8): char
    requires Nat(d) < 32
  {
    CROCKFORD[Nat(d)]
  }

  lemma {:induction false} AlphabetOrder(i: nat, j: nat)
    requires i < j < 32
    ensures CROCKFORD[i] < CROCKFORD[j]
    decreases j
  {
    AlphabetAscends();
    if i < j - 1 { AlphabetOrder(i, j - 1); }
  }

  /** Words of one length sort like the numbers they spell. */
  lemma {:induction false} SpellOrder(xs: seq<nat>, ys: seq<nat>)
    requires Digits(32, xs) && Digits(32, ys) && |xs| == |ys|
    ensures Order.Leq(Spell(xs), Spell(ys)) <==> Value(32, xs) <= Value(32, ys)
  {
    if xs != [] {
      CompareHead(32, xs, ys);
      CompareHead(32, ys, xs);
      SpellOrder(xs[1..], ys[1..]);
      assert Spell(xs)[1..] == Spell(xs[1..]) && Spell(ys)[1..] == Spell(ys[1..]);
      if xs[0] < ys[0] { AlphabetOrder(xs[0], ys[0]); }
      if ys[0] < xs[0] { AlphabetOrder(ys[0], xs[0]); }
    }
  }

  /** The number that sixteen bytes write. */
  function Number(raw: seq<bv8>): nat
  {
    Value(256, Nats(raw, Nat))
  }

  /** Byte-wise order of the strings is the order of the numbers. */
  lemma EncodedOrder(a: seq<bv8>, b: seq<bv8>)
    requires |a| == |b| == 16
    ensures Order.Leq(Encoded(a), Encoded(b)) <==> Number(a) <= Number(b)
  {
    IndexesAreDigits(a);
    IndexesAreDigits(b);
    SpellOrder(Nats(Indexes(a), Nat), Nats(Indexes(b), Nat));
  }

  lemma SameNats(a: seq<bv8>, b: seq<bv8>)
    requires Nats(a, Nat) == Nats(b, Nat)
    ensures a == b
  {
    assert |a| == |Nats(a, Nat)| == |b|;
    forall i | 0 <= i < |a| ensures a[i] == b[i] {
      assert Nats(a, Nat)[i] == Nats(b, Nat)[i];
      NatIs(a[i]);
      NatIs(b[i]);
    }
  }

  lemma BytesAreDigits(raw: seq<bv8>)
    ensures Digits(256, Nats(raw, Nat))
  {
    forall i | 0 <= i < |raw| ensures Nats(raw, Nat)[i] < 256 { NatBound(raw[i]); }
  }

  /** Different bytes give different ids. */
  lemma EncodedInjective(a: seq<bv8>, b: seq<bv8>)
    requires |a| == |b| == 16 && Encoded(a) == Encoded(b)
    ensures a == b
  {
    EncodedOrder(a, b);
    EncodedOrder(b, a);
    Order.LeqReflexive(Encoded(a));
    BytesAreDigits(a);
    BytesAreDigits(b);
    Unique(256, Nats(a, Nat), Nats(b, Nat));
    SameNats(a, b);
  }

  predicate IsUlid(s: string)
  {
    |s| == 26 && forall i | 0 <= i < 26 :: InPattern(s[i])
  }

  /** Every id matches the pattern that Validate asks for. */
  lemma EncodedMatches(raw: seq<bv8>)
    requires |raw| == 16
    ensures IsUlid(Encoded(raw))
  {
    IndexesAreDigits(raw);
    AlphabetAscends();
    var ns := Nats(Indexes(raw), Nat);
    forall i | 0 <= i < 26 ensures InPattern(Spell(ns)[i]) { assert ns[i] < 32; }
  }

  // ---------------------------------------------------------------- the program

  lemma SpellFour(p: bv8, q: bv8, r: bv8, s: bv8, n: bv8 -> nat)
    requires n(p) < 32 && n(q) < 32 && n(r) < 32 && n(s) < 32
    ensures Digits(32, Nats([p, q, r, s], n))
    ensures Spell(Nats([p, q, r, s], n)) == [CROCKFORD[n(p)], CROCKFORD[n(q)], CROCKFORD[n(r)], CROCKFORD[n(s)]]
  {
  }

  method PutFour(dst: array<char>, at: nat, p: bv8, q: bv8, r: bv8, s: bv8)
    requires at + 4 <= dst.Length && Digits(32, Nats([p, q, r, s], Nat))
    modifies dst
    ensures dst[..at + 4] == old(dst[..at]) + Spell(Nats([p, q, r, s], Nat))
  {
    FourBounded(p, q, r, s, Nat);
    SpellFour(p, q, r, s, Nat);
    dst[at] := Letter(p);
    dst[at + 1] := Letter(q);
    dst[at + 2] := Letter(r);
    dst[at + 3] := Letter(s);
  }

  lemma FourBounded(p: bv8, q: bv8, r: bv8, s: bv8, n: bv8 -> nat)
    requires Digits(32, Nats([p, q, r, s], n))
    ensures n(p) < 32 && n(q) < 32 && n(r) < 32 && n(s) < 32
  {
    var ns := Nats([p, q, r, s], n);
    assert ns[0] == n(p) && ns[1] == n(q) && ns[2] == n(r) && ns[3] == n(s);
  }

  lemma SpellConcat(xs: seq<bv8>, ys: seq<bv8>, n: bv8 -> nat)
    requires Digits(32, Nats(xs + ys, n))
    ensures Digits(32, Nats(xs, n)) && Digits(32, Nats(ys, n))
    ensures Spell(Nats(xs + ys, n)) == Spell(Nats(xs, n)) + Spell(Nats(ys, n))
  {
    NatsConcat(xs, ys, n);
    SpellJoin(Nats(xs, n), Nats(ys, n));
  }

  lemma SpellJoin(a: seq<nat>, b: seq<nat>)
    requires Digits(32, a + b)
    ensures Digits(32, a) && Digits(32, b) && Spell(a + b) == Spell(a) + Spell(b)
  {
    assert forall i | 0 <= i < |a| :: a[i] == (a + b)[i];
    assert forall i | 0 <= i < |b| :: b[i] == (a + b)[|a| + i];
  }

  /** The eight letters of five bytes. */
  method PutGroup(dst: array<char>, at: nat, a: bv8, b: bv8, c: bv8, d: bv8, e: bv8)
    requires at + 8 <= dst.Length
    modifies dst
    ensures Digits(32, Nats(Eight(a, b, c, d, e), Nat))
    ensures dst[..at + 8] == old(dst[..at]) + Spell(Nats(Eight(a, b, c, d, e), Nat))
  {
    ghost var first := [(a & 248) >> 3, ((a & 7) << 2) | ((b & 192) >> 6), (b & 62) >> 1, ((b & 1) << 4) | ((c & 240) >> 4)];
    ghost var second := [((c & 15) << 1) | ((d & 128) >> 7), (d & 124) >> 2, ((d & 3) << 3) | ((e & 224) >> 5), e & 31];
    FiveIs(a, b, c, d, e);
    assert Eight(a, b, c, d, e) == first + second;
    SpellConcat(first, second, Nat);
    PutFour(dst, at, (a & 248) >> 3, ((a & 7) << 2) | ((b & 192) >> 6), (b & 62) >> 1, ((b & 1) << 4) | ((c & 240) >> 4));
    PutFour(dst, at + 4, ((c & 15) << 1) | ((d & 128) >> 7), (d & 124) >> 2, ((d & 3) << 3) | ((e & 224) >> 5), e & 31);
  }

  method PutGroupAt(dst: array<char>, at: nat, raw: seq<bv8>, i: nat)
    requires at + 8 <= dst.Length && i + 5 <= |raw|
    modifies dst
    ensures Digits(32, Nats(Group(raw, i), Nat))
    ensures dst[..at + 8] == old(dst[..at]) + Spell(Nats(Group(raw, i), Nat))
  {
    PutGroup(dst, at, raw[i], raw[i + 1], raw[i + 2], raw[i + 3], raw[i + 4]);
  }

  method PutHead(dst: array<char>, a: bv8)
    requires dst.Length >= 2
    modifies dst
    ensures var head := [(a & 224) >> 5, a & 31];
      Digits(32, Nats(head, Nat)) && dst[..2] == Spell(Nats(head, Nat))
  {
    HeadDigits(a);
    SpellTwo((a & 224) >> 5, a & 31, Nat);
    dst[0] := Letter((a & 224) >> 5);
    dst[1] := Letter(a & 31);
  }

  method EncodeCrockford(raw: seq<bv8>) returns (s: string)
    requires |raw| == 16
    ensures s == Encoded(raw)
  {
    var dst := new char[26];
    PutHead(dst, raw[0]);
    PutGroupAt(dst, 2, raw, 1);
    PutGroupAt(dst, 10, raw, 6);
    PutGroupAt(dst, 18, raw, 11);
    IndexesAreDigits(raw);
    SpellParts([(raw[0] & 224) >> 5, raw[0] & 31], Group(raw, 1), Group(raw, 6), Group(raw, 11), Nat);
    s := dst[..];
    assert s == dst[..26];
  }

  lemma SpellTwo(p: bv8, q: bv8, n: bv8 -> nat)
    requires n(p) < 32 && n(q) < 32
    ensures Digits(32, Nats([p, q], n)) && Spell(Nats([p, q], n)) == [CROCKFORD[n(p)], CROCKFORD[n(q)]]
  {
  }

  lemma SpellParts(h: seq<bv8>, x: seq<bv8>, y: seq<bv8>, z: seq<bv8>, n: bv8 -> nat)
    requires Digits(32, Nats(h + x + y + z, n))
    ensures Digits(32, Nats(h, n)) && Digits(32, Nats(x, n)) && Digits(32, Nats(y, n)) && Digits(32, Nats(z, n))
    ensures Spell(Nats(h + x + y + z, n)) == Spell(Nats(h, n)) + Spell(Nats(x, n)) + Spell(Nats(y, n)) + Spell(Nats(z, n))
  {
    SpellConcat(h + x + y, z, n);
    SpellConcat(h + x, y, n);
    SpellConcat(h, x, n);
  }

  // ---------------------------------------------------------------- time

  const WRAP: nat := 0x1_0000_0000_0000

  function FromNat(n: nat): bv8
    requires n < 256
  {
    if n == 0 then 0 else FromNat(n - 1) + 1
  }

  lemma {:induction false} FromNatIs(n: nat)
    requires n < 256
    ensures Nat(FromNat(n)) == n
  {
    if n > 0 {
      FromNatIs(n - 1);
      NatIs(255);
      Successor(FromNat(n - 1));
    }
  }

  lemma Successor(x: bv8)
    requires x != 255
    ensures Nat(x + 1) == Nat(x) + 1
  {
    assert x + 1 != 0 && x + 1 - 1 == x;
  }

  /** byte(n): the low eight bits. */
  function ToByte(n: nat): bv8
  {
    FromNat(n % 256)
  }

  lemma ToByteIs(n: nat)
    ensures Nat(ToByte(n)) == n % 256
  {
    FromNatIs(n % 256);
  }

  /** raw[0..6] = byte(ms >> 40), ..., byte(ms). */
  function TimeBytes(ms: nat): seq<bv8>
  {
    [ToByte(ms / 0x100_0000_0000), ToByte(ms / 0x1_0000_0000), ToByte(ms / 0x100_0000),
     ToByte(ms / 0x1_0000), ToByte(ms / 0x100), ToByte(ms)]
  }

  lemma Shifts(ms: nat)
    ensures ms / 0x100 / 0x100 == ms / 0x1_0000 && ms / 0x1_0000 / 0x100 == ms / 0x100_0000
    ensures ms / 0x100_0000 / 0x100 == ms / 0x1_0000_0000 && ms / 0x1_0000_0000 / 0x100 == ms / 0x100_0000_0000
    ensures ms / 0x100_0000_0000 / 0x100 == ms / WRAP
  {
  }

  lemma DivStep(x: nat)
    ensures x == x / 256 * 256 + x % 256
  {
  }

  /** The six bytes hold the millisecond count modulo 2^48. */
  lemma TimeValue(ms: nat)
    ensures Value(256, Nats(TimeBytes(ms), Nat)) == ms % WRAP
  {
    var m1, m2, m3, m4, m5 := ms / 0x100, ms / 0x1_0000, ms / 0x100_0000, ms / 0x1_0000_0000, ms / 0x100_0000_0000;
    ToByteIs(ms);
    ToByteIs(m1);
    ToByteIs(m2);
    ToByteIs(m3);
    ToByteIs(m4);
    ToByteIs(m5);
    SixBytes(ToByte(m5), ToByte(m4), ToByte(m3), ToByte(m2), ToByte(m1), ToByte(ms), Nat);
    SixDigits(ms);
  }

  lemma SixBytes(a: bv8, b: bv8, c: bv8, d: bv8, e: bv8, f: bv8, n: bv8 -> nat)
    ensures Value(256, Nats([a, b, c, d, e, f], n))
      == ((((n(a) * 256 + n(b)) * 256 + n(c)) * 256 + n(d)) * 256 + n(e)) * 256 + n(f)
  {
    var five := [n(a), n(b), n(c), n(d), n(e)];
    FiveValue(n(a), n(b), n(c), n(d), n(e));
    ValueSnoc(256, five, n(f));
    assert Nats([a, b, c, d, e, f], n) == five + [n(f)];
  }

  lemma SixDigits(ms: nat)
    ensures ms % WRAP == ((((ms / 0x100_0000_0000 % 256 * 256 + ms / 0x1_0000_0000 % 256) * 256 + ms / 0x100_0000 % 256) * 256
      + ms / 0x1_0000 % 256) * 256 + ms / 0x100 % 256) * 256 + ms % 256
  {
    Shifts(ms);
    DivStep(ms);
    DivStep(ms / 0x100);
    DivStep(ms / 0x1_0000);
    DivStep(ms / 0x100_0000);
    DivStep(ms / 0x1_0000_0000);
    DivStep(ms / 0x100_0000_0000);
  }

  /** The bytes of an id. */
  function Raw(ms: nat, random: seq<bv8>): seq<bv8>
    requires |random| == 10
  {
    TimeBytes(ms) + random
  }

  lemma RawNumber(ms: nat, random: seq<bv8>)
    requires |random| == 10
    ensures Number(Raw(ms, random)) == ms % WRAP * Pow(256, 10) + Value(256, Nats(random, Nat))
    ensures Value(256, Nats(random, Nat)) < Pow(256, 10)
  {
    NatsConcat(TimeBytes(ms), random, Nat);
    ValueConcat(256, Nats(TimeBytes(ms), Nat), Nats(random, Nat));
    TimeValue(ms);
    BytesAreDigits(random);
    ValueBound(256, Nats(random, Nat));
  }

  /** Whatever the random bytes, an id of an earlier time field sorts first. */
  lemma TimeDecides(ms1: nat, r1: seq<bv8>, ms2: nat, r2: seq<bv8>)
    requires |r1| == |r2| == 10 && ms1 % WRAP < ms2 % WRAP
    ensures Order.Less(Encoded(Raw(ms1, r1)), Encoded(Raw(ms2, r2)))
  {
    RawNumber(ms1, r1);
    RawNumber(ms2, r2);
    Below(ms1 % WRAP, ms2 % WRAP, Pow(256, 10), Value(256, Nats(r1, Nat)));
    EncodedOrder(Raw(ms1, r1), Raw(ms2, r2));
    EncodedOrder(Raw(ms2, r2), Raw(ms1, r1));
  }

  predicate SortsFirst(ms1: nat, r1: seq<bv8>, ms2: nat, r2: seq<bv8>)
    requires |r1| == |r2| == 10
  {
    Order.Less(Encoded(Raw(ms1, r1)), Encoded(Raw(ms2, r2)))
  }

  /** An id is sure to sort before another exactly when its milliseconds come first modulo 2^48. */
  lemma SortsFirstIff(ms1: nat, ms2: nat)
    ensures (forall r1: seq<bv8>, r2: seq<bv8> | |r1| == |r2| == 10 :: SortsFirst(ms1, r1, ms2, r2)) <==> ms1 % WRAP < ms2 % WRAP
  {
    forall r1: seq<bv8>, r2: seq<bv8> | |r1| == |r2| == 10 && ms1 % WRAP < ms2 % WRAP ensures SortsFirst(ms1, r1, ms2, r2) {
      TimeDecides(ms1, r1, ms2, r2);
    }
    if ms2 % WRAP <= ms1 % WRAP {
      var r: seq<bv8> := seq(10, _ => 0);
      RawNumber(ms1, r);
      RawNumber(ms2, r);
      Monotone(ms2 % WRAP, ms1 % WRAP, Pow(256, 10));
      EncodedOrder(Raw(ms2, r), Raw(ms1, r));
      if SortsFirst(ms1, r, ms2, r) { Order.LeqAntisymmetric(Encoded(Raw(ms1, r)), Encoded(Raw(ms2, r))); }
      assert !SortsFirst(ms1, r, ms2, r);
    }
  }

  lemma Monotone(x: nat, y: nat, p: nat)
    requires x <= y
    ensures x * p <= y * p
  {
    Distribute(y - x, x, p);
    assert (y - x) * p >= 0;
  }

  datatype Entropy = Bytes(random: seq<bv8>) | Failed
  datatype Result = Ok(id: string) | ErrBeforeEpoch | ErrRandom

  /** t in nanoseconds since 1970; rand.Read gives ten bytes or fails. */
  method NewULID(t: int, entropy: Entropy) returns (r: Result)
    requires entropy.Bytes? ==> |entropy.random| == 10
    ensures r.ErrBeforeEpoch? <==> t < 0
    ensures r.ErrRandom? <==> t >= 0 && entropy.Failed?
    ensures r.Ok? ==> r.id == Encoded(Raw(t / 1_000_000, entropy.random))
  {
    if t < 0 { return ErrBeforeEpoch; }
    if entropy.Failed? { return ErrRandom; }
    var id := EncodeCrockford(TimeBytes(t / 1_000_000) + entropy.random);
    return Ok(id);
  }
}
