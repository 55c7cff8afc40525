// The limiter of the anonymous ingest endpoint (internal/portalapi/telemetry_handlers.go).

module RateLimiter {
  import opened FirstMatch

  /** Times are nanoseconds on one clock. */
  datatype Config = Config(window: int, limit: int)
  datatype State = State(curStart: int, counts: map<string, int>)
  datatype Request = Request(at: int, key: string)
  /** A request with the answer it got. */
  datatype Entry = Entry(at: int, key: string, ok: bool)

  function Get(counts: map<string, int>, key: string): int
  {
    if key in counts then counts[key] else 0
  }

  /** The window in force at a time: the current one, or a new one when that is over. */
  function Roll(c: Config, s: State, now: int): State
  {
    if now - s.curStart >= c.window then State(now, map[]) else s
  }

  function Decide(c: Config, s: State, r: Request): (State, bool)
  {
    var s := Roll(c, s, r.at);
    var n := Get(s.counts, r.key);
    if n >= c.limit then (s, false) else (s.(counts := s.counts[r.key := n + 1]), true)
  }

  class IngestLimiter {
    const window: int
    const limit: int
    var curStart: int
    var counts: map<string, int>

    constructor (window: int, limit: int, now: int)
      ensures this.window == window && this.limit == limit && Contents() == State(now, map[])
    {
      this.window := window;
      this.limit := limit;
      curStart := now;
      counts := map[];
    }

    function Contents(): State
      reads this
    {
      State(curStart, counts)
    }

    method Allow(now: int, key: string) returns (ok: bool)
      modifies this
      ensures (Contents(), ok) == Decide(Config(window, limit), old(Contents()), Request(now, key))
    {
      if now - curStart >= window {
        curStart := now;
        counts := map[];
      }
      if Get(counts, key) >= limit { return false; }
      counts := counts[key := Get(counts, key) + 1];
      return true;
    }
  }

  // ---------------------------------------------------------------- runs

  /** The state after the first n requests to a limiter made at time `start`. */
  function StateAt(c: Config, start: int, reqs: seq<Request>, n: nat): State
    requires n <= |reqs|
  {
    if n == 0 then State(start, map[]) else Decide(c, StateAt(c, start, reqs, n - 1), reqs[n - 1]).0
  }

  /** The answer to request n. */
  function Answer(c: Config, start: int, reqs: seq<Request>, n: nat): Entry
    requires n < |reqs|
  {
    Entry(reqs[n].at, reqs[n].key, Decide(c, StateAt(c, start, reqs, n), reqs[n]).1)
  }

  function Log(c: Config, start: int, reqs: seq<Request>, n: nat): seq<Entry>
    requires n <= |reqs|
  {
    if n == 0 then [] else Log(c, start, reqs, n - 1) + [Answer(c, start, reqs, n - 1)]
  }

  /** The clock does not go back. */
  ghost predicate InOrder(start: int, reqs: seq<Request>)
  {
    && (forall i | 0 <= i < |reqs| :: start <= reqs[i].at)
    && (forall i, j | 0 <= i < j < |reqs| :: reqs[i].at <= reqs[j].at)
  }

  /** Accepted for the key at a time in [lo, hi]. */
  function Within(key: string, lo: int, hi: int): Entry -> bool
  {
    (e: Entry) => e.ok && e.key == key && lo <= e.at <= hi
  }

  /** Accepted for the key at or after lo. */
  function Since(key: string, lo: int): Entry -> bool
  {
    (e: Entry) => e.ok && e.key == key && lo <= e.at
  }

  /** Accepted for the key from lo on, but before hi. */
  function Before(key: string, lo: int, hi: int): Entry -> bool
  {
    (e: Entry) => e.ok && e.key == key && lo <= e.at < hi
  }

  function Cap(c: Config): nat
  {
    if c.limit > 0 then c.limit else 0
  }

  lemma CountSnoc<T>(xs: seq<T>, x: T, p: T -> bool)
    ensures Count(xs + [x], p) == Count(xs, p) + if p(x) then 1 else 0
  {
    CountConcat(xs, [x], p);
    assert [x][1..] == [];
  }

  lemma {:induction false} CountMonotone(xs: seq<Entry>, p: Entry -> bool, q: Entry -> bool)
    requires forall e | e in xs && p(e) :: q(e)
    ensures Count(xs, p) <= Count(xs, q)
  {
    if xs != [] {
      assert xs[0] in xs && forall e | e in xs[1..] :: e in xs;
      CountMonotone(xs[1..], p, q);
    }
  }

  lemma {:induction false} CountSplit(xs: seq<Entry>, p: Entry -> bool, q: Entry -> bool, r: Entry -> bool)
    requires forall e: Entry | p(e) :: q(e) || r(e)
    ensures Count(xs, p) <= Count(xs, q) + Count(xs, r)
  {
    if xs != [] { CountSplit(xs[1..], p, q, r); }
  }

  lemma {:induction false} CountNone(xs: seq<Entry>, p: Entry -> bool)
    requires forall e | e in xs :: !p(e)
    ensures Count(xs, p) == 0
  {
    if xs != [] {
      assert xs[0] in xs && forall e | e in xs[1..] :: e in xs;
      CountNone(xs[1..], p);
    }
  }

  /** Every logged time is that of a request, so no later than the last one. */
  lemma {:induction false} LogTimes(c: Config, start: int, reqs: seq<Request>, n: nat, e: Entry)
    requires n <= |reqs| && InOrder(start, reqs) && e in Log(c, start, reqs, n)
    ensures n > 0 && start <= e.at <= reqs[n - 1].at
  {
    if e in Log(c, start, reqs, n - 1) { LogTimes(c, start, reqs, n - 1, e); }
  }

  /** The window in force is never ahead of the clock, and once a request is in, it is not over. */
  lemma {:induction false} WindowInForce(c: Config, start: int, reqs: seq<Request>, n: nat)
    requires n <= |reqs| && InOrder(start, reqs)
    ensures var s := StateAt(c, start, reqs, n);
      if n == 0 then s.curStart == start
      else start <= s.curStart <= reqs[n - 1].at && (c.window > 0 ==> reqs[n - 1].at < s.curStart + c.window)
  {
    if n > 0 { WindowInForce(c, start, reqs, n - 1); }
  }

  /** A window that begins with a request finds no acceptance at or after its beginning. */
  lemma NewWindowIsEmpty(c: Config, start: int, reqs: seq<Request>, n: nat, key: string)
    requires n < |reqs| && InOrder(start, reqs) && c.window > 0
    requires reqs[n].at - StateAt(c, start, reqs, n).curStart >= c.window
    ensures Count(Log(c, start, reqs, n), Since(key, reqs[n].at)) == 0
  {
    var log := Log(c, start, reqs, n);
    WindowInForce(c, start, reqs, n);
    forall e | e in log ensures !Since(key, reqs[n].at)(e) { LogTimes(c, start, reqs, n, e); }
    CountNone(log, Since(key, reqs[n].at));
  }

  /** The counter of a key is the number of acceptances since the window began, and never above the limit. */
  lemma {:induction false} CounterMeans(c: Config, start: int, reqs: seq<Request>, n: nat, key: string)
    requires n <= |reqs| && InOrder(start, reqs) && c.window > 0
    ensures var s := StateAt(c, start, reqs, n);
      Get(s.counts, key) == Count(Log(c, start, reqs, n), Since(key, s.curStart)) <= Cap(c)
  {
    if n > 0 {
      var s, r := StateAt(c, start, reqs, n - 1), reqs[n - 1];
      CounterMeans(c, start, reqs, n - 1, key);
      WindowInForce(c, start, reqs, n - 1);
      if r.at - s.curStart >= c.window { NewWindowIsEmpty(c, start, reqs, n - 1, key); }
      CountSnoc(Log(c, start, reqs, n - 1), Answer(c, start, reqs, n - 1), Since(key, Roll(c, s, r.at).curStart));
    }
  }

  /** Just before the window in force, over a stretch no longer than a window, at most `limit` were accepted. */
  lemma {:induction false} EarlierBound(c: Config, start: int, reqs: seq<Request>, n: nat, key: string, lo: int)
    requires n <= |reqs| && InOrder(start, reqs) && c.window > 0 && StateAt(c, start, reqs, n).curStart - c.window <= lo
    ensures Count(Log(c, start, reqs, n), Before(key, lo, StateAt(c, start, reqs, n).curStart)) <= Cap(c)
  {
    if n > 0 {
      var s, r, log := StateAt(c, start, reqs, n - 1), reqs[n - 1], Log(c, start, reqs, n - 1);
      WindowInForce(c, start, reqs, n - 1);
      var rolled := Roll(c, s, r.at);
      CountSnoc(log, Answer(c, start, reqs, n - 1), Before(key, lo, rolled.curStart));
      if rolled.curStart == s.curStart {
        EarlierBound(c, start, reqs, n - 1, key, lo);
      } else {
        CounterMeans(c, start, reqs, n - 1, key);
        CountMonotone(log, Before(key, lo, r.at), Since(key, s.curStart));
      }
    }
  }

  /** Any closed interval as long as the window holds at most twice the limit of acceptances for a key. */
  lemma {:induction false} SlidingBound(c: Config, start: int, reqs: seq<Request>, n: nat, key: string, lo: int)
    requires n <= |reqs| && InOrder(start, reqs) && c.window > 0
    ensures Count(Log(c, start, reqs, n), Within(key, lo, lo + c.window)) <= 2 * Cap(c)
  {
    if n > 0 {
      var e := Answer(c, start, reqs, n - 1);
      SlidingBound(c, start, reqs, n - 1, key, lo);
      CountSnoc(Log(c, start, reqs, n - 1), e, Within(key, lo, lo + c.window));
      if Within(key, lo, lo + c.window)(e) { EndingNow(c, start, reqs, n, key, lo); }
    }
  }

  /** The bound for an interval that contains the last request. */
  lemma EndingNow(c: Config, start: int, reqs: seq<Request>, n: nat, key: string, lo: int)
    requires 0 < n <= |reqs| && InOrder(start, reqs) && c.window > 0 && lo <= reqs[n - 1].at <= lo + c.window
    ensures Count(Log(c, start, reqs, n), Within(key, lo, lo + c.window)) <= 2 * Cap(c)
  {
    var log, cur := Log(c, start, reqs, n), StateAt(c, start, reqs, n).curStart;
    WindowInForce(c, start, reqs, n);
    CounterMeans(c, start, reqs, n, key);
    if lo >= cur {
      CountMonotone(log, Within(key, lo, lo + c.window), Since(key, cur));
    } else {
      EarlierBound(c, start, reqs, n, key, lo);
      CountSplit(log, Within(key, lo, lo + c.window), Before(key, lo, cur), Since(key, cur));
    }
  }

  /** A request is refused exactly when its key has used up the limit since the window in force began. */
  lemma RefusedIff(c: Config, start: int, reqs: seq<Request>, n: nat)
    requires n < |reqs| && InOrder(start, reqs) && c.window > 0
    ensures var w := Roll(c, StateAt(c, start, reqs, n), reqs[n].at).curStart;
      && w <= reqs[n].at < w + c.window
      && (!Answer(c, start, reqs, n).ok <==> Count(Log(c, start, reqs, n), Since(reqs[n].key, w)) >= c.limit)
  {
    WindowInForce(c, start, reqs, n);
    CounterMeans(c, start, reqs, n, reqs[n].key);
    if reqs[n].at - StateAt(c, start, reqs, n).curStart >= c.window { NewWindowIsEmpty(c, start, reqs, n, reqs[n].key); }
  }

  // ---------------------------------------------------------------- the bound is exact, and needs a window

  /** `limit` requests in the last instant of a window and `limit` in the first of the next. */
  function Straddle(c: Config, start: int, key: string): (reqs: seq<Request>)
    requires c.limit > 0
  {
    seq(2 * c.limit, i => Request(if i < c.limit then start + c.window - 1 else start + c.window, key))
  }

  lemma {:induction false} StraddleState(c: Config, start: int, key: string, n: nat)
    requires c.window > 0 && c.limit > 0 && n <= 2 * c.limit
    ensures StateAt(c, start, Straddle(c, start, key), n) ==
      if n == 0 then State(start, map[])
      else if n <= c.limit then State(start, map[key := n])
      else State(start + c.window, map[key := n - c.limit])
  {
    if n > 0 {
      StraddleState(c, start, key, n - 1);
      assert map[key := n - 1][key := n] == map[key := n];
    }
  }

  lemma StraddleAccepted(c: Config, start: int, key: string, n: nat)
    requires c.window > 0 && c.limit > 0 && n < 2 * c.limit
    ensures var reqs := Straddle(c, start, key); Answer(c, start, reqs, n) == Entry(reqs[n].at, key, true)
  {
    StraddleState(c, start, key, n);
  }

  /** All of them are accepted, one tick apart: twice the limit cannot be lowered, however short the interval. */
  lemma {:induction false} BoundIsReached(c: Config, start: int, key: string, n: nat)
    requires c.window > 0 && c.limit > 0 && n <= 2 * c.limit
    ensures var reqs, lo := Straddle(c, start, key), start + c.window - 1;
      InOrder(start, reqs) && Count(Log(c, start, reqs, n), Within(key, lo, lo + 1)) == n
  {
    var reqs, lo := Straddle(c, start, key), start + c.window - 1;
    if n > 0 {
      BoundIsReached(c, start, key, n - 1);
      StraddleAccepted(c, start, key, n - 1);
      CountSnoc(Log(c, start, reqs, n - 1), Answer(c, start, reqs, n - 1), Within(key, lo, lo + 1));
    }
  }

  /** Without a positive window every request starts a new one, so none is ever refused. */
  lemma {:induction false} NoWindowNoLimit(c: Config, start: int, reqs: seq<Request>, n: nat)
    requires n < |reqs| && InOrder(start, reqs) && c.window <= 0 && c.limit > 0
    ensures Answer(c, start, reqs, n).ok
  {
    WindowInForce(c, start, reqs, n);
  }

  predicate Bounded(c: Config, start: int, reqs: seq<Request>, key: string, lo: int)
  {
    Count(Log(c, start, reqs, |reqs|), Within(key, lo, lo + c.window)) <= 2 * Cap(c)
  }

  ghost predicate AlwaysBounded(c: Config)
  {
    forall start: int, reqs: seq<Request>, key: string, lo: int | InOrder(start, reqs) :: Bounded(c, start, reqs, key, lo)
  }

  /** When the limit is not positive nothing is accepted. */
  lemma {:induction false} NothingAccepted(c: Config, start: int, reqs: seq<Request>, n: nat)
    requires n <= |reqs| && c.limit <= 0
    ensures StateAt(c, start, reqs, n).counts == map[] && forall e | e in Log(c, start, reqs, n) :: !e.ok
  {
    if n > 0 { NothingAccepted(c, start, reqs, n - 1); }
  }

  function Instant(n: nat): seq<Request>
  {
    seq(n, _ => Request(0, ""))
  }

  lemma {:induction false} ZeroWindowBurst(c: Config, m: nat, n: nat)
    requires c.window == 0 && c.limit > 0 && n <= m
    ensures Count(Log(c, 0, Instant(m), n), Within("", 0, 0)) == n
  {
    if n > 0 {
      var reqs := Instant(m);
      ZeroWindowBurst(c, m, n - 1);
      NoWindowNoLimit(c, 0, reqs, n - 1);
      CountSnoc(Log(c, 0, reqs, n - 1), Answer(c, 0, reqs, n - 1), Within("", 0, 0));
    }
  }

  /** The sliding bound holds over all runs exactly when the window is not zero or nothing is ever accepted. */
  lemma AlwaysBoundedIff(c: Config)
    ensures AlwaysBounded(c) <==> c.window != 0 || c.limit <= 0
  {
    if c.window == 0 && c.limit > 0 {
      var n := 2 * Cap(c) + 1;
      ZeroWindowBurst(c, n, n);
      assert InOrder(0, Instant(n)) && !Bounded(c, 0, Instant(n), "", 0);
    } else {
      forall start: int, reqs: seq<Request>, key: string, lo: int | InOrder(start, reqs)
        ensures Bounded(c, start, reqs, key, lo)
      {
        if c.window > 0 {
          SlidingBound(c, start, reqs, |reqs|, key, lo);
        } else {
          if c.limit <= 0 { NothingAccepted(c, start, reqs, |reqs|); }
          CountNone(Log(c, start, reqs, |reqs|), Within(key, lo, lo + c.window));
        }
      }
    }
  }
}
