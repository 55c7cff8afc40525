// Request statistics of the portal: counters, a ring of recent latencies, percentiles (internal/portalapi/observability.go).
// Latencies are real numbers here.

module ObsRing {
  import Sorting

  const CAPACITY: nat := 1024

  /** Index of the newest of n samples whose index is i modulo the capacity. */
  function Newest(n: nat, i: nat): int
  {
    n - 1 - (n - 1 - i) % CAPACITY
  }

  /** What the ring should be after these samples. */
  ghost predicate IsRing(samples: seq<real>, ring: seq<real>, next: nat)
  {
    var n := |samples|;
    && |ring| == (if n < CAPACITY then n else CAPACITY)
    && next == (if n < CAPACITY then 0 else n % CAPACITY)
    && forall i | 0 <= i < |ring| :: 0 <= Newest(n, i) < n && ring[i] == samples[Newest(n, i)]
  }

  /** The most recent samples that fit. */
  function Recent(samples: seq<real>): seq<real>
  {
    if |samples| < CAPACITY then samples else samples[|samples| - CAPACITY..]
  }

  /** One more sample: the newest of its residue class, and of no other. */
  lemma NewestStep(n: nat, i: nat)
    requires i < CAPACITY
    ensures Newest(n + 1, i) == if n % CAPACITY == i then n else Newest(n, i)
  {
    var a, b := (n - i) % CAPACITY, (n - 1 - i) % CAPACITY;
    Residue(n - i);
    Residue(n - 1 - i);
    if a != 0 {
      assert b == a - 1 by { Unique(n - 1 - i, (n - i) / CAPACITY, a - 1); }
      assert n % CAPACITY != i;
    } else {
      Unique(n, (n - i) / CAPACITY, i);
    }
  }

  lemma Residue(x: int)
    ensures x == x / CAPACITY * CAPACITY + x % CAPACITY
  {
  }

  lemma Unique(x: int, q: int, r: int)
    requires x == q * CAPACITY + r && 0 <= r < CAPACITY
    ensures x % CAPACITY == r
  {
  }

  lemma NewestInRange(n: nat, i: nat)
    requires i < CAPACITY <= n || i < n < CAPACITY
    ensures 0 <= Newest(n, i) < n && (n <= CAPACITY ==> Newest(n, i) == i)
  {
    if n <= CAPACITY { Unique(n - 1 - i, 0, n - 1 - i); }
  }

  class ObsStats {
    var total: nat
    var errors: nat
    var clientErr: nat
    var latencies: seq<real>
    var next: nat
    var filled: bool
    /** All samples so far. */
    ghost var samples: seq<real>

    ghost predicate RingValid()
      reads this
    {
      IsRing(samples, latencies, next) && multiset(latencies) == multiset(Recent(samples)) && (filled <==> |samples| > CAPACITY)
    }

    ghost predicate Valid()
      reads this
    {
      RingValid() && total == |samples| && errors + clientErr <= total
    }

    constructor ()
      ensures Valid() && samples == [] && errors == 0
    {
      total, errors, clientErr, latencies, next, filled, samples := 0, 0, 0, [], 0, false, [];
    }

    method Record(status: int, latency: real)
      requires Valid()
      modifies this
      ensures Valid() && samples == old(samples) + [latency]
      ensures errors == old(errors) + (if status >= 500 then 1 else 0)
      ensures clientErr == old(clientErr) + (if 400 <= status < 500 then 1 else 0)
    {
      total := total + 1;
      if status >= 500 {
        errors := errors + 1;
      } else if status >= 400 {
        clientErr := clientErr + 1;
      }
      Keep(latency);
    }

    /** The reservoir: appended to until full, then the oldest slot is overwritten. */
    method Keep(latency: real)
      requires RingValid()
      modifies `latencies, `next, `filled, `samples
      ensures RingValid() && samples == old(samples) + [latency]
    {
      ghost var before, ring, at := samples, latencies, next;
      samples := samples + [latency];
      if |latencies| < CAPACITY {
        latencies := latencies + [latency];
        Appended(before, ring, latency);
        return;
      }
      Overwritten(before, ring, at, latency);
      latencies := latencies[next := latency];
      next := (next + 1) % CAPACITY;
      filled := true;
    }

    /** Totals, the share of server errors, and two percentiles of the recent latencies. */
    method Snapshot() returns (totalNow: nat, errorsNow: nat, rate: real, p50: real, p95: real)
      requires Valid()
      ensures totalNow == |samples| && errorsNow == errors
      ensures rate == Share(errorsNow, totalNow) && 0.0 <= rate <= 1.0
      ensures p50 == Percentile(Recent(samples), 0.50) && p95 == Percentile(Recent(samples), 0.95) && p50 <= p95
    {
      totalNow, errorsNow := total, errors;
      rate := Share(errors, total);
      ShareMeans(errors, total);
      p50, p95 := TwoPercentiles(latencies, Recent(samples), 0.50, 0.95);
    }
  }

  function Share(part: nat, whole: nat): real
  {
    if whole > 0 then part as real / whole as real else 0.0
  }

  lemma ShareMeans(part: nat, whole: nat)
    requires part <= whole
    ensures 0.0 <= Share(part, whole) <= 1.0 && Share(part, whole) * whole as real == part as real
  {
  }

  method TwoPercentiles(ring: seq<real>, ghost recent: seq<real>, p: real, q: real) returns (x: real, y: real)
    requires multiset(ring) == multiset(recent) && p <= q
    ensures x == Percentile(recent, p) && y == Percentile(recent, q) && x <= y
  {
    x, y := Percentile(ring, p), Percentile(ring, q);
    OrderDoesNotShow(ring, recent, p);
    OrderDoesNotShow(ring, recent, q);
    Monotone(ring, p, q);
  }

  lemma Appended(samples: seq<real>, ring: seq<real>, x: real)
    requires IsRing(samples, ring, 0) && |samples| < CAPACITY && multiset(ring) == multiset(Recent(samples))
    ensures IsRing(samples + [x], ring + [x], 0) && multiset(ring + [x]) == multiset(Recent(samples + [x]))
  {
    var n, all := |samples|, samples + [x];
    forall i | 0 <= i < n + 1 ensures 0 <= Newest(n + 1, i) < n + 1 && (ring + [x])[i] == all[Newest(n + 1, i)] {
      NewestInRange(n + 1, i);
      if i < n { NewestInRange(n, i); }
    }
    assert n + 1 == CAPACITY ==> all[0..] == all;
    assert multiset(all) == multiset(samples) + multiset{x};
  }

  lemma Overwritten(samples: seq<real>, ring: seq<real>, next: nat, x: real)
    requires IsRing(samples, ring, next) && |samples| >= CAPACITY && multiset(ring) == multiset(Recent(samples))
    ensures IsRing(samples + [x], ring[next := x], (next + 1) % CAPACITY)
    ensures multiset(ring[next := x]) == multiset(Recent(samples + [x]))
  {
    OverwrittenSlots(samples, ring, next, x);
    Oldest(|samples|);
    Slide(samples, x);
  }

  lemma OverwrittenSlots(samples: seq<real>, ring: seq<real>, next: nat, x: real)
    requires IsRing(samples, ring, next) && |samples| >= CAPACITY
    ensures IsRing(samples + [x], ring[next := x], (next + 1) % CAPACITY)
  {
    var n, all := |samples|, samples + [x];
    var m, after := n + 1, ring[next := x];
    NextCursor(n);
    forall i | 0 <= i < CAPACITY ensures 0 <= Newest(m, i) < m && after[i] == all[Newest(m, i)] {
      NewestStep(n, i);
      NewestInRange(n, i);
      NewestInRange(m, i);
    }
  }

  lemma NextCursor(n: nat)
    ensures (n % CAPACITY + 1) % CAPACITY == (n + 1) % CAPACITY
  {
    Residue(n);
    if n % CAPACITY + 1 == CAPACITY { Unique(n + 1, n / CAPACITY + 1, 0); } else { Unique(n + 1, n / CAPACITY, n % CAPACITY + 1); }
  }

  /** The slot about to be written holds the oldest sample still in the ring. */
  lemma Oldest(n: nat)
    requires n >= CAPACITY
    ensures Newest(n, n % CAPACITY) == n - CAPACITY
  {
    Residue(n);
    Unique(n - 1 - n % CAPACITY, n / CAPACITY - 1, CAPACITY - 1);
  }

  lemma Slide(samples: seq<real>, x: real)
    requires |samples| >= CAPACITY
    ensures multiset(Recent(samples + [x])) == multiset(Recent(samples)) - multiset{samples[|samples| - CAPACITY]} + multiset{x}
  {
    var r := Recent(samples);
    assert r == [r[0]] + r[1..];
    assert Recent(samples + [x]) == r[1..] + [x];
  }

  // ---------------------------------------------------------------- percentiles

  function Leq(): (real, real) -> bool
  {
    (a: real, b: real) => a <= b
  }

  function Rank(n: nat, p: real): int
    requires n > 0
  {
    var idx := (p * (n - 1) as real).Floor;
    if idx < 0 then 0 else if idx >= n then n - 1 else idx
  }

  /** The sample at the rank, counting from the smallest. */
  function Percentile(samples: seq<real>, p: real): real
  {
    if |samples| == 0 then 0.0
    else
      var sorted := Sorting.Sort(samples, Leq());
      assert |multiset(sorted)| == |sorted|;
      sorted[Rank(|samples|, p)]
  }

  /** Only which samples there are matters, not where the ring keeps them. */
  lemma OrderDoesNotShow(a: seq<real>, b: seq<real>, p: real)
    requires multiset(a) == multiset(b)
    ensures Percentile(a, p) == Percentile(b, p)
  {
    assert |a| == |multiset(a)| == |multiset(b)| == |b|;
    if |a| > 0 { Sorting.SortedUnique(Sorting.Sort(a, Leq()), Sorting.Sort(b, Leq()), Leq()); }
  }

  lemma RankMonotone(n: nat, p: real, q: real)
    requires n > 0 && p <= q
    ensures Rank(n, p) <= Rank(n, q)
  {
    var m := (n - 1) as real;
    Scale(p, q, m);
    FloorMonotone(p * m, q * m);
  }

  lemma FloorMonotone(x: real, y: real)
    requires x <= y
    ensures x.Floor <= y.Floor
  {
  }

  lemma Scale(p: real, q: real, m: real)
    requires p <= q && m >= 0.0
    ensures p * m <= q * m
  {
  }

  lemma Monotone(samples: seq<real>, p: real, q: real)
    requires p <= q
    ensures Percentile(samples, p) <= Percentile(samples, q)
  {
    if |samples| > 0 {
      var sorted := Sorting.Sort(samples, Leq());
      assert |multiset(sorted)| == |sorted|;
      RankMonotone(|samples|, p, q);
      Ordered(sorted, Rank(|samples|, p), Rank(|samples|, q));
    }
  }

  lemma Ordered(sorted: seq<real>, i: nat, j: nat)
    requires Sorting.Sorted(sorted, Leq()) && i <= j < |sorted|
    ensures sorted[i] <= sorted[j]
  {
    assert i < j ==> Leq()(sorted[i], sorted[j]);
  }
}
