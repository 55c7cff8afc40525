// Base 32 by masks and shifts (pkg/instincts/format.go, encodeCrockford): five bytes make eight digits, and a
// first byte makes two. The bit patterns are compared with arithmetic one byte at a time, on the numbers the
// bytes stand for, so that no proof holds both bit vectors and products; Ulid puts the groups together.

module Base32 {
  import opened Positional

  /** The number a byte stands for. Counting keeps bits and arithmetic apart in the proofs below. */
  function Nat(b: bv8): nat
    decreases b
  {
    if b == 0 then 0 else Nat(b - 1) + 1
  }

  lemma {:induction false} NatIs(b: bv8)
    ensures Nat(b) == b as nat
    decreases b
  {
    if b != 0 { NatIs(b - 1); }
  }

  /** The eight 5-bit groups of five bytes, by the program's masks and shifts. */
  function Eight(a: bv8, b: bv8, c: bv8, d: bv8, e: bv8): seq<bv8>
  {
    [(a & 248) >> 3, ((a & 7) << 2) | ((b & 192) >> 6), (b & 62) >> 1, ((b & 1) << 4) | ((c & 240) >> 4),
     ((c & 15) << 1) | ((d & 128) >> 7), (d & 124) >> 2, ((d & 3) << 3) | ((e & 224) >> 5), e & 31]
  }

  lemma Or1(x: bv8, y: bv8)
    requires x < 16 && y < 2
    ensures ((x << 1) | y) as int == x as int * 2 + y as int
  {
  }

  lemma Or2(x: bv8, y: bv8)
    requires x < 8 && y < 4
    ensures ((x << 2) | y) as int == x as int * 4 + y as int
  {
  }

  lemma Or3(x: bv8, y: bv8)
    requires x < 4 && y < 8
    ensures ((x << 3) | y) as int == x as int * 8 + y as int
  {
  }

  lemma Or4(x: bv8, y: bv8)
    requires x < 2 && y < 16
    ensures ((x << 4) | y) as int == x as int * 16 + y as int
  {
  }

  lemma Low1(b: bv8)
    ensures (b & 1) as int == b as int % 2 && b & 1 < 2
  {
  }

  lemma Low2(b: bv8)
    ensures (b & 3) as int == b as int % 4 && b & 3 < 4
  {
  }

  lemma Low3(b: bv8)
    ensures (b & 7) as int == b as int % 8 && b & 7 < 8
  {
  }

  lemma Low4(b: bv8)
    ensures (b & 15) as int == b as int % 16 && b & 15 < 16
  {
  }

  lemma Low5(b: bv8)
    ensures (b & 31) as int == b as int % 32
  {
  }

  lemma High5(b: bv8)
    ensures ((b & 248) >> 3) as int == b as int / 8
  {
  }

  lemma High4(b: bv8)
    ensures ((b & 240) >> 4) as int == b as int / 16 && (b & 240) >> 4 < 16
  {
  }

  lemma High3(b: bv8)
    ensures ((b & 224) >> 5) as int == b as int / 32 && (b & 224) >> 5 < 8
  {
  }

  lemma High2(b: bv8)
    ensures ((b & 192) >> 6) as int == b as int / 64 && (b & 192) >> 6 < 4
  {
  }

  lemma High1(b: bv8)
    ensures ((b & 128) >> 7) as int == b as int / 128 && (b & 128) >> 7 < 2
  {
  }

  lemma Middle62(b: bv8)
    ensures ((b & 62) >> 1) as int == b as int % 64 / 2
  {
  }

  lemma Middle124(b: bv8)
    ensures ((b & 124) >> 2) as int == b as int % 128 / 4
  {
  }

  function Nats(ds: seq<bv8>, n: bv8 -> nat): seq<nat>
  {
    seq(|ds|, i requires 0 <= i < |ds| => n(ds[i]))
  }

  /** Eight digits that are the 5-bit groups of five bytes, as arithmetic on the numbers they stand for. */
  predicate AreGroups(ds: seq<bv8>, n: bv8 -> nat, a: bv8, b: bv8, c: bv8, d: bv8, e: bv8)
  {
    && |ds| == 8 && n(ds[0]) == n(a) / 8 && n(ds[1]) == (n(a) % 8) * 4 + n(b) / 64
    && n(ds[2]) == n(b) % 64 / 2 && n(ds[3]) == (n(b) % 2) * 16 + n(c) / 16
    && n(ds[4]) == (n(c) % 16) * 2 + n(d) / 128 && n(ds[5]) == n(d) % 128 / 4
    && n(ds[6]) == (n(d) % 4) * 8 + n(e) / 32 && n(ds[7]) == n(e) % 32
  }

  lemma Digit0(a: bv8)
    ensures Nat((a & 248) >> 3) == Nat(a) / 8
  {
    High5(a);
    NatIs(a);
    NatIs((a & 248) >> 3);
  }

  lemma Joined1(a: bv8, b: bv8)
    ensures (((a & 7) << 2) | ((b & 192) >> 6)) as nat == (a as nat % 8) * 4 + b as nat / 64
  {
    Low3(a);
    High2(b);
    Or2(a & 7, (b & 192) >> 6);
  }

  lemma Digit1(a: bv8, b: bv8)
    ensures Nat(((a & 7) << 2) | ((b & 192) >> 6)) == (Nat(a) % 8) * 4 + Nat(b) / 64
  {
    Joined1(a, b);
    NatIs(a);
    NatIs(b);
    NatIs(((a & 7) << 2) | ((b & 192) >> 6));
  }

  lemma Digit2(b: bv8)
    ensures Nat((b & 62) >> 1) == Nat(b) % 64 / 2
  {
    Middle62(b);
    NatIs(b);
    NatIs((b & 62) >> 1);
  }

  lemma Joined3(b: bv8, c: bv8)
    ensures (((b & 1) << 4) | ((c & 240) >> 4)) as nat == (b as nat % 2) * 16 + c as nat / 16
  {
    Low1(b);
    High4(c);
    Or4(b & 1, (c & 240) >> 4);
  }

  lemma Digit3(b: bv8, c: bv8)
    ensures Nat(((b & 1) << 4) | ((c & 240) >> 4)) == (Nat(b) % 2) * 16 + Nat(c) / 16
  {
    Joined3(b, c);
    NatIs(b);
    NatIs(c);
    NatIs(((b & 1) << 4) | ((c & 240) >> 4));
  }

  lemma Joined4(c: bv8, d: bv8)
    ensures (((c & 15) << 1) | ((d & 128) >> 7)) as nat == (c as nat % 16) * 2 + d as nat / 128
  {
    Low4(c);
    High1(d);
    Or1(c & 15, (d & 128) >> 7);
  }

  lemma Digit4(c: bv8, d: bv8)
    ensures Nat(((c & 15) << 1) | ((d & 128) >> 7)) == (Nat(c) % 16) * 2 + Nat(d) / 128
  {
    Joined4(c, d);
    NatIs(c);
    NatIs(d);
    NatIs(((c & 15) << 1) | ((d & 128) >> 7));
  }

  lemma Digit5(d: bv8)
    ensures Nat((d & 124) >> 2) == Nat(d) % 128 / 4
  {
    Middle124(d);
    NatIs(d);
    NatIs((d & 124) >> 2);
  }

  lemma Joined6(d: bv8, e: bv8)
    ensures (((d & 3) << 3) | ((e & 224) >> 5)) as nat == (d as nat % 4) * 8 + e as nat / 32
  {
    Low2(d);
    High3(e);
    Or3(d & 3, (e & 224) >> 5);
  }

  lemma Digit6(d: bv8, e: bv8)
    ensures Nat(((d & 3) << 3) | ((e & 224) >> 5)) == (Nat(d) % 4) * 8 + Nat(e) / 32
  {
    Joined6(d, e);
    NatIs(d);
    NatIs(e);
    NatIs(((d & 3) << 3) | ((e & 224) >> 5));
  }

  lemma Digit7(e: bv8)
    ensures Nat(e & 31) == Nat(e) % 32
  {
    Low5(e);
    NatIs(e);
    NatIs(e & 31);
  }

  /** The masks and shifts compute the digits. */
  lemma EightAreGroups(a: bv8, b: bv8, c: bv8, d: bv8, e: bv8)
    ensures AreGroups(Eight(a, b, c, d, e), Nat, a, b, c, d, e)
  {
    Digit0(a);
    Digit1(a, b);
    Digit2(b);
    Digit3(b, c);
    Digit4(c, d);
    Digit5(d);
    Digit6(d, e);
    Digit7(e);
  }

  lemma FiveValue(v: nat, w: nat, x: nat, y: nat, z: nat)
    ensures Value(256, [v, w, x, y, z]) == (((v * 256 + w) * 256 + x) * 256 + y) * 256 + z
  {
    ValueSnoc(256, [], v);
    ValueSnoc(256, [v], w);
    ValueSnoc(256, [v, w], x);
    ValueSnoc(256, [v, w, x], y);
    ValueSnoc(256, [v, w, x, y], z);
    assert [] + [v] == [v] && [v] + [w] == [v, w] && [v, w] + [x] == [v, w, x];
    assert [v, w, x] + [y] == [v, w, x, y] && [v, w, x, y] + [z] == [v, w, x, y, z];
  }

  lemma FourDigits(p: nat, q: nat, r: nat, s: nat)
    ensures Value(32, [p, q, r, s]) == ((p * 32 + q) * 32 + r) * 32 + s
  {
    ValueSnoc(32, [], p);
    ValueSnoc(32, [p], q);
    ValueSnoc(32, [p, q], r);
    ValueSnoc(32, [p, q, r], s);
    assert [] + [p] == [p] && [p] + [q] == [p, q] && [p, q] + [r] == [p, q, r] && [p, q, r] + [s] == [p, q, r, s];
  }

  lemma EightValue(p: nat, q: nat, r: nat, s: nat, t: nat, u: nat, v: nat, w: nat)
    ensures Value(32, [p, q, r, s, t, u, v, w])
      == (((p * 32 + q) * 32 + r) * 32 + s) * 1048576 + ((t * 32 + u) * 32 + v) * 32 + w
  {
    FourDigits(p, q, r, s);
    FourDigits(t, u, v, w);
    ValueConcat(32, [p, q, r, s], [t, u, v, w]);
    assert [p, q, r, s] + [t, u, v, w] == [p, q, r, s, t, u, v, w];
    Pow32To4();
  }

  lemma Pow32To4()
    ensures Pow(32, 4) == 1048576
  {
    assert Pow(32, 2) == 1024;
    PowAdd(32, 2, 2);
  }

  /** The same 40 bits cut into bytes and into digits. */
  lemma Regroup(a1: nat, a0: nat, b2: nat, b1: nat, b0: nat, c1: nat, c0: nat, d2: nat, d1: nat, d0: nat, e1: nat, e0: nat)
    ensures ((((a1 * 8 + a0) * 256 + (b2 * 64 + b1 * 2 + b0)) * 256 + (c1 * 16 + c0)) * 256 + (d2 * 128 + d1 * 4 + d0)) * 256 + (e1 * 32 + e0)
         == (((a1 * 32 + (a0 * 4 + b2)) * 32 + b1) * 32 + (b0 * 16 + c1)) * 1048576 + (((c0 * 2 + d2) * 32 + d1) * 32 + (d0 * 8 + e1)) * 32 + e0
  {
  }

  lemma CutByte(x: nat)
    requires x < 256
    ensures x == x / 64 * 64 + x % 64 / 2 * 2 + x % 2
    ensures x == x / 128 * 128 + x % 128 / 4 * 4 + x % 4
  {
  }

  lemma FiveBytesEightDigits(ds: seq<bv8>, n: bv8 -> nat, a: bv8, b: bv8, c: bv8, d: bv8, e: bv8)
    requires AreGroups(ds, n, a, b, c, d, e)
    requires n(a) < 256 && n(b) < 256 && n(c) < 256 && n(d) < 256 && n(e) < 256
    ensures Value(32, Nats(ds, n)) == Value(256, [n(a), n(b), n(c), n(d), n(e)])
    ensures Digits(32, Nats(ds, n))
  {
    GroupValue(n(a), n(b), n(c), n(d), n(e), Nats(ds, n));
    GroupDigits(n(a), n(b), n(c), n(d), n(e), Nats(ds, n));
  }

  lemma GroupArithmetic(a: nat, b: nat, c: nat, d: nat, e: nat)
    requires a < 256 && b < 256 && c < 256 && d < 256 && e < 256
    ensures (((a * 256 + b) * 256 + c) * 256 + d) * 256 + e
         == (((a / 8 * 32 + ((a % 8) * 4 + b / 64)) * 32 + b % 64 / 2) * 32 + ((b % 2) * 16 + c / 16)) * 1048576
            + (((c % 16) * 2 + d / 128) * 32 + d % 128 / 4) * 32 * 32 + ((d % 4) * 8 + e / 32) * 32 + e % 32
  {
    CutByte(b);
    CutByte(d);
    Regroup(a / 8, a % 8, b / 64, b % 64 / 2, b % 2, c / 16, c % 16, d / 128, d % 128 / 4, d % 4, e / 32, e % 32);
  }

  lemma GroupValue(a: nat, b: nat, c: nat, d: nat, e: nat, ns: seq<nat>)
    requires a < 256 && b < 256 && c < 256 && d < 256 && e < 256
    requires ns == [a / 8, (a % 8) * 4 + b / 64, b % 64 / 2, (b % 2) * 16 + c / 16,
                    (c % 16) * 2 + d / 128, d % 128 / 4, (d % 4) * 8 + e / 32, e % 32]
    ensures Value(32, ns) == Value(256, [a, b, c, d, e])
  {
    FiveValue(a, b, c, d, e);
    EightValue(ns[0], ns[1], ns[2], ns[3], ns[4], ns[5], ns[6], ns[7]);
    assert ns == [ns[0], ns[1], ns[2], ns[3], ns[4], ns[5], ns[6], ns[7]];
    GroupArithmetic(a, b, c, d, e);
  }

  lemma GroupDigits(a: nat, b: nat, c: nat, d: nat, e: nat, ns: seq<nat>)
    requires a < 256 && b < 256 && c < 256 && d < 256 && e < 256
    requires ns == [a / 8, (a % 8) * 4 + b / 64, b % 64 / 2, (b % 2) * 16 + c / 16,
                    (c % 16) * 2 + d / 128, d % 128 / 4, (d % 4) * 8 + e / 32, e % 32]
    ensures Digits(32, ns)
  {
  }

  function Group(raw: seq<bv8>, i: nat): seq<bv8>
    requires i + 5 <= |raw|
  {
    Eight(raw[i], raw[i + 1], raw[i + 2], raw[i + 3], raw[i + 4])
  }

  lemma NatsConcat(xs: seq<bv8>, ys: seq<bv8>, n: bv8 -> nat)
    ensures Nats(xs + ys, n) == Nats(xs, n) + Nats(ys, n)
  {
  }

  lemma FiveIs(a: bv8, b: bv8, c: bv8, d: bv8, e: bv8)
    ensures Value(32, Nats(Eight(a, b, c, d, e), Nat)) == Value(256, [Nat(a), Nat(b), Nat(c), Nat(d), Nat(e)])
    ensures Digits(32, Nats(Eight(a, b, c, d, e), Nat))
  {
    EightAreGroups(a, b, c, d, e);
    NatBound(a);
    NatBound(b);
    NatBound(c);
    NatBound(d);
    NatBound(e);
    FiveBytesEightDigits(Eight(a, b, c, d, e), Nat, a, b, c, d, e);
  }

  /** One group of five bytes. */
  lemma GroupIs(raw: seq<bv8>, i: nat)
    requires i + 5 <= |raw|
    ensures Value(32, Nats(Group(raw, i), Nat)) == Value(256, Nats(raw[i..i + 5], Nat))
    ensures |Group(raw, i)| == 8 && Digits(32, Nats(Group(raw, i), Nat))
  {
    FiveIs(raw[i], raw[i + 1], raw[i + 2], raw[i + 3], raw[i + 4]);
    NatsOfFive(raw, i, Nat);
  }

  lemma NatBound(b: bv8)
    ensures Nat(b) < 256
  {
    NatIs(b);
  }

  lemma NatsOfFive(raw: seq<bv8>, i: nat, n: bv8 -> nat)
    requires i + 5 <= |raw|
    ensures Nats(raw[i..i + 5], n) == [n(raw[i]), n(raw[i + 1]), n(raw[i + 2]), n(raw[i + 3]), n(raw[i + 4])]
  {
  }

  lemma TwoDigits(p: nat, q: nat)
    ensures Value(32, [p, q]) == p * 32 + q
  {
    ValueSnoc(32, [], p);
    ValueSnoc(32, [p], q);
    assert [] + [p] == [p] && [p] + [q] == [p, q];
  }

  lemma OneByte(a: nat)
    ensures Value(256, [a]) == a
  {
    ValueSnoc(256, [], a);
    assert [] + [a] == [a];
  }

  /** The first byte: three bits and five. */
  lemma HeadIs(a: bv8)
    ensures var ds := [(a & 224) >> 5, a & 31]; Value(32, Nats(ds, Nat)) == Value(256, Nats([a], Nat)) && Digits(32, Nats(ds, Nat))
  {
    HeadDigits(a);
    HeadValue((a & 224) >> 5, a & 31, a, Nat);
  }

  lemma HeadValue(p: bv8, q: bv8, a: bv8, n: bv8 -> nat)
    requires n(p) * 32 + n(q) == n(a) && n(p) < 8 && n(q) < 32
    ensures Value(32, Nats([p, q], n)) == Value(256, Nats([a], n)) && Digits(32, Nats([p, q], n))
  {
    TwoDigits(n(p), n(q));
    OneByte(n(a));
    assert Nats([p, q], n) == [n(p), n(q)] && Nats([a], n) == [n(a)];
  }

  lemma HeadDigits(a: bv8)
    ensures Nat((a & 224) >> 5) * 32 + Nat(a & 31) == Nat(a) && Nat((a & 224) >> 5) < 8 && Nat(a & 31) < 32
  {
    High3(a);
    Low5(a);
    NatIs(a);
    NatIs((a & 224) >> 5);
    NatIs(a & 31);
  }

  lemma SamePowers()
    ensures Pow(32, 8) == Pow(256, 5) == 1099511627776
  {
    Pow32To4();
    PowAdd(32, 4, 4);
    assert Pow(256, 2) == 65536;
    PowAdd(256, 2, 2);
    assert Pow(256, 5) == 256 * Pow(256, 4);
  }

  /** One more group keeps two representations of the same number the same. */
  lemma MoreGroups(ds: seq<nat>, bs: seq<nat>, group: seq<nat>, five: seq<nat>)
    requires Value(32, ds) == Value(256, bs) && Value(32, group) == Value(256, five) && |group| == 8 && |five| == 5
    ensures Value(32, ds + group) == Value(256, bs + five)
  {
    ValueConcat(32, ds, group);
    ValueConcat(256, bs, five);
    SamePowers();
  }

  lemma Assemble(h: seq<bv8>, x: seq<bv8>, y: seq<bv8>, z: seq<bv8>,
                 a: seq<bv8>, b: seq<bv8>, c: seq<bv8>, d: seq<bv8>, n: bv8 -> nat)
    requires |x| == |y| == |z| == 8 && |b| == |c| == |d| == 5
    requires Value(32, Nats(h, n)) == Value(256, Nats(a, n)) && Value(32, Nats(x, n)) == Value(256, Nats(b, n))
    requires Value(32, Nats(y, n)) == Value(256, Nats(c, n)) && Value(32, Nats(z, n)) == Value(256, Nats(d, n))
    requires Digits(32, Nats(h, n)) && Digits(32, Nats(x, n)) && Digits(32, Nats(y, n)) && Digits(32, Nats(z, n))
    ensures Value(32, Nats(h + x + y + z, n)) == Value(256, Nats(a + b + c + d, n))
    ensures Digits(32, Nats(h + x + y + z, n))
  {
    NatsConcat(h, x, n);
    NatsConcat(h + x, y, n);
    NatsConcat(h + x + y, z, n);
    NatsConcat(a, b, n);
    NatsConcat(a + b, c, n);
    NatsConcat(a + b + c, d, n);
    MoreGroups(Nats(h, n), Nats(a, n), Nats(x, n), Nats(b, n));
    MoreGroups(Nats(h + x, n), Nats(a + b, n), Nats(y, n), Nats(c, n));
    MoreGroups(Nats(h + x + y, n), Nats(a + b + c, n), Nats(z, n), Nats(d, n));
  }
}
