/** The shared token bucket. Time is a real number of seconds; the sleeping that
    follows a reservation is the time at which the reservation is released. */
module Bandwidth {
  import opened Wrappers

  /** The balance, negative while reservations are being slept off, at time `last`. */
  datatype Bucket = Bucket(tokens: real, last: real)

  /** `n` bytes asked for at time `at`. The mutex puts all consumers' requests in one
      order, and the clock is read under it. */
  datatype Request = Request(at: real, n: nat)

  datatype Reservation = Reservation(bucket: Bucket, wait: Option<real>)

  function Full(rate: nat, now: real): Bucket {
    Bucket(rate as real, now)
  }

  /** Time since `last`; an earlier reading of the clock counts as none. */
  function Elapsed(b: Bucket, now: real): real {
    if now < b.last then 0.0 else now - b.last
  }

  function Refilled(rate: nat, b: Bucket, now: real): Bucket {
    if rate == 0 then b
    else
      var grown := b.tokens + Elapsed(b, now) * rate as real;
      Bucket(if grown < rate as real then grown else rate as real, now)
  }

  function Reserved(rate: nat, b: Bucket, q: Request): Reservation {
    if rate == 0 || q.n == 0 then Reservation(b, None)
    else
      var full := Refilled(rate, b, q.at);
      var rest := full.tokens - q.n as real;
      Reservation(full.(tokens := rest), if full.tokens >= q.n as real then None else Some(-rest / rate as real))
  }

  function Next(rate: nat, b: Bucket, q: Request): Bucket {
    Reserved(rate, b, q).bucket
  }

  /** When the consumer goes on. */
  function Release(rate: nat, b: Bucket, q: Request): real {
    match Reserved(rate, b, q).wait
    case None => q.at
    case Some(wait) => q.at + wait
  }

  predicate Throttled(rate: nat, b: Bucket, q: Request) {
    Reserved(rate, b, q).wait.Some?
  }

  // ----- the object

  class BandwidthLimiter {
    const rate: nat
    const maxTokens: real
    var tokens: real
    var last: real

    predicate Valid() {
      maxTokens == rate as real
    }

    function State(): Bucket
      reads this
    {
      Bucket(tokens, last)
    }

    constructor (rate: nat, now: real)
      ensures Valid() && this.rate == rate && State() == Full(rate, now)
    {
      this.rate := rate;
      tokens, maxTokens, last := rate as real, rate as real, now;
    }

    method Refill(now: real)
      requires Valid()
      modifies this
      ensures State() == Refilled(rate, old(State()), now)
    {
      if rate == 0 {
        return;
      }
      var elapsed := if now < last then 0.0 else now - last;
      var grown := tokens + elapsed * rate as real;
      tokens := if grown < maxTokens then grown else maxTokens;
      last := now;
    }

    method Reserve(n: nat, now: real) returns (wait: Option<real>)
      requires Valid()
      modifies this
      ensures Reservation(State(), wait) == Reserved(rate, old(State()), Request(now, n))
    {
      if rate == 0 || n == 0 {
        return None;
      }
      Refill(now);
      var need := n as real;
      if tokens >= need {
        tokens := tokens - need;
        return None;
      }
      tokens := tokens - need;
      return Some(-tokens / rate as real);
    }

    /** Returns the time at which the caller's sleep is over. */
    method Consume(n: nat, now: real) returns (woken: real)
      requires Valid()
      modifies this
      ensures State() == Next(rate, old(State()), Request(now, n))
      ensures woken == Release(rate, old(State()), Request(now, n))
    {
      var wait := Reserve(n, now);
      woken := now;
      if wait.Some? {
        woken := woken + wait.value;
      }
    }
  }

  // ----- the schedule, in seconds

  /** The moment at which the balance is back at zero if nothing more is reserved. */
  function Clear(rate: nat, b: Bucket): real
    requires rate > 0
  {
    b.last - b.tokens / rate as real
  }

  /** How long `n` bytes take at the rate. */
  function Cost(rate: nat, n: nat): (c: real)
    requires rate > 0
    ensures c >= 0.0
  {
    n as real / rate as real
  }

  function Max(x: real, y: real): (r: real)
    ensures x <= r && y <= r && (r == x || r == y)
  {
    if x < y then y else x
  }

  lemma Scale(r: real, x: real, y: real)
    requires r > 0.0
    ensures (x + y * r) / r == x / r + y
    ensures (x - y) / r == x / r - y / r
    ensures r / r == 1.0
    ensures x <= y <==> x / r <= y / r
  {
  }

  lemma Grown(r: real, u: real, e: real)
    requires r > 0.0
    ensures (u * r + e * r) / r == u + e
    ensures u * r + e * r < r <==> u + e < 1.0
  {
    assert u * r + e * r == (u + e) * r;
  }

  lemma Spent(r: real, full: real, c: real)
    requires r > 0.0
    ensures (full - c * r) / r == full / r - c
  {
  }

  /** The balance in seconds: time adds to it up to one, bytes take n / rate off. */
  lemma InSeconds(r: real, tokens: real, e: real, n: real)
    requires r > 0.0
    ensures var grown := tokens + e * r;
            var full := if grown < r then grown else r;
            (full - n) / r == (if tokens / r + e < 1.0 then tokens / r + e else 1.0) - n / r
  {
    var u, c := tokens / r, n / r;
    assert tokens == u * r && n == c * r;
    Grown(r, u, e);
    Spent(r, if tokens + e * r < r then tokens + e * r else r, c);
  }

  /** Every reservation pushes the clear moment on by its cost, from at most one
      second before the reservation. */
  lemma ClearNext(rate: nat, b: Bucket, q: Request)
    requires rate > 0 && q.n > 0 && b.last <= q.at
    ensures Clear(rate, Next(rate, b, q)) == Max(Clear(rate, b), q.at - 1.0) + Cost(rate, q.n)
  {
    InSeconds(rate as real, b.tokens, q.at - b.last, q.n as real);
  }

  /** A reservation is released when it is made or when the balance is clear, whichever
      is later. */
  lemma ReleaseIsClear(rate: nat, b: Bucket, q: Request)
    requires rate > 0 && q.n > 0 && b.last <= q.at
    ensures Release(rate, b, q) == Max(q.at, Clear(rate, Next(rate, b, q)))
    ensures Throttled(rate, b, q) <==> q.at < Clear(rate, Next(rate, b, q))
    ensures !Throttled(rate, b, q) ==> Clear(rate, Next(rate, b, q)) >= q.at - 1.0 + Cost(rate, q.n)
  {
    ClearNext(rate, b, q);
    var r := rate as real;
    var rest := Next(rate, b, q).tokens;
    Scale(r, 0.0, rest);
    Scale(r, rest, 0.0);
  }

  /** Both facts about one reservation, with the bucket out of sight. */
  predicate Scheduled(before: real, after: real, at: real, cost: real, release: real, throttled: bool) {
    && after == Max(before, at - 1.0) + cost
    && release == Max(at, after)
    && (throttled <==> at < after)
    && (!throttled ==> after >= at - 1.0 + cost)
  }

  lemma Schedule(rate: nat, b: Bucket, q: Request)
    requires rate > 0 && q.n > 0 && b.last <= q.at
    ensures Scheduled(Clear(rate, b), Clear(rate, Next(rate, b, q)), q.at, Cost(rate, q.n),
                      Release(rate, b, q), Throttled(rate, b, q))
  {
    ClearNext(rate, b, q);
    ReleaseIsClear(rate, b, q);
  }

  /** A new bucket lets one second's worth through at once, and no more. */
  lemma FirstReservation(rate: nat, created: real, q: Request)
    requires rate > 0 && q.n > 0 && created <= q.at
    ensures Throttled(rate, Full(rate, created), q) <==> q.n > rate
    ensures q.n <= rate ==> Release(rate, Full(rate, created), q) == q.at
  {
    NotNegative(q.at - created, rate as real);
  }

  lemma NotNegative(e: real, r: real)
    requires e >= 0.0 && r >= 0.0
    ensures e * r >= 0.0
  {
  }

  /** Without a rate, or for no bytes, nothing waits and nothing changes. */
  lemma FreePass(rate: nat, b: Bucket, q: Request)
    requires rate == 0 || q.n == 0
    ensures Next(rate, b, q) == b && Release(rate, b, q) == q.at
  {
  }

  /** A clock reading before the last one credits nothing. */
  lemma ClockBack(rate: nat, b: Bucket, now: real)
    requires rate > 0 && now < b.last && b.tokens <= rate as real
    ensures Refilled(rate, b, now) == Bucket(b.tokens, now)
  {
  }

  // ----- one reservation after another

  /** A reservation made while the one before it still sleeps is released exactly n/rate
      after it: nothing accrued in between is lost or counted twice. */
  lemma BackToBack(rate: nat, b: Bucket, p: Request, q: Request)
    requires rate > 0 && p.n > 0 && q.n > 0 && b.last <= p.at <= q.at
    requires Throttled(rate, b, p) && q.at <= Release(rate, b, p)
    ensures Throttled(rate, Next(rate, b, p), q)
    ensures Release(rate, Next(rate, b, p), q) == Release(rate, b, p) + q.n as real / rate as real
  {
    Schedule(rate, b, p);
    Schedule(rate, Next(rate, b, p), q);
  }

  // ----- whole runs, by any interleaving of consumers

  /** Requests come in the order of their times, none before `from`. */
  predicate Ordered(from: real, reqs: seq<Request>)
    decreases reqs
  {
    reqs != [] ==> from <= reqs[0].at && Ordered(reqs[0].at, reqs[1..])
  }

  function After(rate: nat, b: Bucket, reqs: seq<Request>): Bucket
    decreases reqs
  {
    if reqs == [] then b else After(rate, Next(rate, b, reqs[0]), reqs[1..])
  }

  /** When the i-th request's wait ends. */
  function ReleaseOf(rate: nat, b: Bucket, reqs: seq<Request>, i: nat): real
    requires i < |reqs|
    decreases reqs
  {
    if i == 0 then Release(rate, b, reqs[0]) else ReleaseOf(rate, Next(rate, b, reqs[0]), reqs[1..], i - 1)
  }

  /** Nothing is released before it is asked for, nor before what went before is clear. */
  lemma {:induction false} ReleaseAfter(rate: nat, b: Bucket, reqs: seq<Request>, from: real, i: nat)
    requires rate > 0 && i < |reqs| && reqs[i].n > 0
    requires b.last <= from && Ordered(from, reqs)
    ensures from <= reqs[i].at <= ReleaseOf(rate, b, reqs, i)
    ensures Clear(rate, b) <= ReleaseOf(rate, b, reqs, i)
    decreases reqs
  {
    if reqs[0].n > 0 {
      Schedule(rate, b, reqs[0]);
    }
    if i > 0 {
      ReleaseAfter(rate, Next(rate, b, reqs[0]), reqs[1..], reqs[0].at, i - 1);
    }
  }

  /** Non-empty reservations are released in reservation order. */
  lemma {:induction false} ReleasedInOrder(rate: nat, b: Bucket, reqs: seq<Request>, i: nat, j: nat)
    requires rate > 0 && i < j < |reqs| && reqs[i].n > 0 && reqs[j].n > 0
    requires Ordered(b.last, reqs)
    ensures ReleaseOf(rate, b, reqs, i) <= ReleaseOf(rate, b, reqs, j)
    decreases reqs
  {
    var c := Next(rate, b, reqs[0]);
    if i == 0 {
      Schedule(rate, b, reqs[0]);
      ReleaseAfter(rate, c, reqs[1..], reqs[0].at, j - 1);
    } else {
      OrderedFrom(reqs[0].at, c.last, reqs[1..]);
      ReleasedInOrder(rate, c, reqs[1..], i - 1, j - 1);
    }
  }

  lemma OrderedFrom(from: real, earlier: real, reqs: seq<Request>)
    requires earlier <= from && Ordered(from, reqs)
    ensures Ordered(earlier, reqs)
  {
  }

  /** Bytes whose wait ends in [start, end]. */
  function Released(rate: nat, b: Bucket, reqs: seq<Request>, start: real, end: real): nat
    decreases reqs
  {
    if reqs == [] then 0
    else
      (if start <= Release(rate, b, reqs[0]) <= end then reqs[0].n else 0)
      + Released(rate, Next(rate, b, reqs[0]), reqs[1..], start, end)
  }

  lemma DivAdds(x: real, y: real, r: real)
    requires r > 0.0
    ensures (x + y) / r == x / r + y / r
  {
  }

  lemma DivGrows(x: real, y: real, r: real)
    requires r > 0.0
    ensures x <= y ==> x / r <= y / r
  {
  }

  lemma CostAdds(rate: nat, m: nat, n: nat)
    requires rate > 0
    ensures Cost(rate, m + n) == Cost(rate, m) + Cost(rate, n)
    ensures m <= n ==> Cost(rate, m) <= Cost(rate, n)
  {
    assert (m + n) as real == m as real + n as real;
    DivAdds(m as real, n as real, rate as real);
    DivGrows(m as real, n as real, rate as real);
  }

  /** What is released by `end` fits between the clear moment and `end`. */
  lemma {:induction false} ReleasedFits(rate: nat, b: Bucket, reqs: seq<Request>, start: real, end: real)
    requires rate > 0 && Ordered(b.last, reqs)
    ensures Cost(rate, Released(rate, b, reqs, start, end)) <= Max(0.0, end - Clear(rate, b))
    decreases reqs
  {
    if reqs != [] {
      var q, c := reqs[0], Next(rate, b, reqs[0]);
      OrderedFrom(q.at, c.last, reqs[1..]);
      ReleasedFits(rate, c, reqs[1..], start, end);
      CostAdds(rate, q.n, Released(rate, c, reqs[1..], start, end));
      if q.n > 0 {
        Schedule(rate, b, q);
      }
    }
  }

  lemma {:induction false} WindowCost(rate: nat, b: Bucket, reqs: seq<Request>, start: real, end: real, m: nat)
    requires rate > 0 && Ordered(b.last, reqs) && start <= end
    requires forall i :: 0 <= i < |reqs| ==> reqs[i].n <= m
    ensures Cost(rate, Released(rate, b, reqs, start, end)) <= Max(1.0, Cost(rate, m)) + (end - start)
    decreases reqs
  {
    if reqs != [] {
      var q, c := reqs[0], Next(rate, b, reqs[0]);
      OrderedFrom(q.at, c.last, reqs[1..]);
      CostAdds(rate, q.n, Released(rate, c, reqs[1..], start, end));
      CostAdds(rate, q.n, m);
      if q.n > 0 && start <= Release(rate, b, q) <= end {
        ReleasedFits(rate, c, reqs[1..], start, end);
        Schedule(rate, b, q);
      } else {
        WindowCost(rate, c, reqs[1..], start, end, m);
      }
    }
  }

  /** At most one second's worth, or one reservation if that is larger, plus the rate
      times the window. */
  predicate Allowed(rate: nat, m: nat, span: real, total: nat) {
    total as real <= Max(rate as real, m as real) + rate as real * span
  }

  lemma InBytes(rate: nat, total: nat, m: nat, span: real)
    requires rate > 0 && Cost(rate, total) <= Max(1.0, Cost(rate, m)) + span
    ensures Allowed(rate, m, span, total)
  {
    var r, u, v := rate as real, Cost(rate, total), Cost(rate, m);
    assert total as real == u * r && m as real == v * r;
    assert u * r <= (Max(1.0, v) + span) * r;
    assert Max(1.0, v) * r == if 1.0 < v then v * r else r;
  }

  /** In any window of any run the bytes let through total no more than is allowed. */
  lemma WindowBound(rate: nat, b: Bucket, reqs: seq<Request>, start: real, end: real, m: nat)
    requires rate > 0 && Ordered(b.last, reqs) && start <= end
    requires forall i :: 0 <= i < |reqs| ==> reqs[i].n <= m
    ensures Allowed(rate, m, end - start, Released(rate, b, reqs, start, end))
  {
    WindowCost(rate, b, reqs, start, end, m);
    InBytes(rate, Released(rate, b, reqs, start, end), m, end - start);
  }

  /** Bytes reserved by consumers still asleep at time t. */
  function Asleep(rate: nat, b: Bucket, reqs: seq<Request>, t: real): nat
    decreases reqs
  {
    if reqs == [] then 0
    else
      (if t < Release(rate, b, reqs[0]) then reqs[0].n else 0)
      + Asleep(rate, Next(rate, b, reqs[0]), reqs[1..], t)
  }

  lemma {:induction false} ClearWhenAwake(rate: nat, b: Bucket, reqs: seq<Request>, t: real)
    requires rate > 0 && Ordered(b.last, reqs)
    requires forall i :: 0 <= i < |reqs| ==> reqs[i].at <= t
    ensures Clear(rate, After(rate, b, reqs)) - t <= Max(0.0, Clear(rate, b) - t) + Cost(rate, Asleep(rate, b, reqs, t))
    decreases reqs
  {
    if reqs != [] {
      var q, c := reqs[0], Next(rate, b, reqs[0]);
      OrderedFrom(q.at, c.last, reqs[1..]);
      ClearWhenAwake(rate, c, reqs[1..], t);
      CostAdds(rate, q.n, Asleep(rate, c, reqs[1..], t));
      if q.n > 0 {
        Schedule(rate, b, q);
      }
    }
  }

  lemma DebtInBytes(rate: nat, c: Bucket, t: real, asleep: nat)
    requires rate > 0 && c.last <= t && Clear(rate, c) - t <= Cost(rate, asleep)
    ensures -Refilled(rate, c, t).tokens <= asleep as real
  {
    var r, u, v, e := rate as real, c.tokens / rate as real, Cost(rate, asleep), t - c.last;
    assert c.tokens == u * r && asleep as real == v * r;
    assert (-u - e) * r <= v * r;
  }

  /** The debt never exceeds the reservations still being slept off. */
  lemma DebtIsAsleep(rate: nat, b: Bucket, reqs: seq<Request>, t: real)
    requires rate > 0 && b.tokens >= 0.0 && Ordered(b.last, reqs) && b.last <= t
    requires forall i :: 0 <= i < |reqs| ==> reqs[i].at <= t
    ensures -Refilled(rate, After(rate, b, reqs), t).tokens <= Asleep(rate, b, reqs, t) as real
  {
    ClearWhenAwake(rate, b, reqs, t);
    LastUntil(rate, b, reqs, t);
    DebtInBytes(rate, After(rate, b, reqs), t, Asleep(rate, b, reqs, t));
  }

  lemma {:induction false} LastUntil(rate: nat, b: Bucket, reqs: seq<Request>, t: real)
    requires b.last <= t
    requires forall i :: 0 <= i < |reqs| ==> reqs[i].at <= t
    ensures After(rate, b, reqs).last <= t
    decreases reqs
  {
    if reqs != [] {
      LastUntil(rate, Next(rate, b, reqs[0]), reqs[1..], t);
    }
  }

  /** The debt is not bounded by the largest single reservation: k reservations of n
      bytes made at once leave k * n less in the bucket. */
  lemma {:induction false} DebtPilesUp(rate: nat, b: Bucket, n: nat, k: nat)
    requires rate > 0 && n > 0 && b.tokens <= rate as real
    ensures After(rate, b, seq(k, _ => Request(b.last, n))).tokens == b.tokens - (k * n) as real
    decreases k
  {
    if k > 0 {
      var reqs := seq(k, _ => Request(b.last, n));
      assert reqs[1..] == seq(k - 1, _ => Request(b.last, n));
      NoTimePasses(rate, b, n);
      DebtPilesUp(rate, Next(rate, b, Request(b.last, n)), n, k - 1);
      OneMore(n, k);
    }
  }

  lemma OneMore(n: nat, k: nat)
    requires k > 0
    ensures (k * n) as real == ((k - 1) * n) as real + n as real
  {
    assert k * n == (k - 1) * n + n;
  }

  lemma NoTimePasses(rate: nat, b: Bucket, n: nat)
    requires rate > 0 && n > 0 && b.tokens <= rate as real
    ensures Next(rate, b, Request(b.last, n)) == Bucket(b.tokens - n as real, b.last)
  {
  }

  lemma DebtBeatsLargest(rate: nat, now: real, n: nat)
    requires rate > 0 && n > rate
    ensures var b := After(rate, Full(rate, now), seq(2, _ => Request(now, n)));
            -b.tokens > n as real
  {
    DebtPilesUp(rate, Full(rate, now), n, 2);
  }

  /** The debt after a reservation is within m, the largest reservation or any other size
      no less than its own, exactly when the bucket was to be clear soon enough: within the
      time that the difference takes. */
  lemma DebtWithinLargest(rate: nat, b: Bucket, q: Request, m: nat)
    requires rate > 0 && 0 < q.n <= m && b.last <= q.at
    ensures -Next(rate, b, q).tokens <= m as real <==> Clear(rate, b) <= q.at + Cost(rate, m - q.n)
  {
    ClearNext(rate, b, q);
    NegatedScale(rate as real, Next(rate, b, q).tokens, m as real);
    CostAdds(rate, m - q.n, q.n);
  }

  /** In particular it is within the reservation's own size exactly when the bucket was
      clear. */
  lemma DebtWithinOwn(rate: nat, b: Bucket, q: Request)
    requires rate > 0 && q.n > 0 && b.last <= q.at
    ensures -Next(rate, b, q).tokens <= q.n as real <==> Clear(rate, b) <= q.at
  {
    DebtWithinLargest(rate, b, q, q.n);
  }

  /** No reservation of the run leaves more debt than m. */
  predicate NeverBeyond(rate: nat, b: Bucket, reqs: seq<Request>, m: nat)
    decreases reqs
  {
    reqs == [] ||
    (var c := Next(rate, b, reqs[0]);
     (reqs[0].n > 0 ==> -c.tokens <= m as real) && NeverBeyond(rate, c, reqs[1..], m))
  }

  /** Every reservation finds the bucket clear, or clear soon enough for m. */
  predicate ClearEnough(rate: nat, b: Bucket, reqs: seq<Request>, m: nat)
    requires rate > 0
    decreases reqs
  {
    reqs == [] ||
    (var q := reqs[0];
     && (0 < q.n <= m ==> Clear(rate, b) <= q.at + Cost(rate, m - q.n))
     && ClearEnough(rate, Next(rate, b, q), reqs[1..], m))
  }

  /** Over a whole run whose reservations are all within m: the debt stays within m exactly
      when each reservation finds the bucket clear soon enough. */
  lemma {:induction false} DebtWithinLargestRun(rate: nat, b: Bucket, reqs: seq<Request>, m: nat)
    requires rate > 0 && Ordered(b.last, reqs)
    requires forall i :: 0 <= i < |reqs| ==> reqs[i].n <= m
    ensures NeverBeyond(rate, b, reqs, m) <==> ClearEnough(rate, b, reqs, m)
    decreases reqs
  {
    if reqs != [] {
      var q, c := reqs[0], Next(rate, b, reqs[0]);
      OrderedFrom(q.at, c.last, reqs[1..]);
      DebtWithinLargestRun(rate, c, reqs[1..], m);
      if q.n > 0 {
        DebtWithinLargest(rate, b, q, m);
      }
    }
  }

  lemma NegatedScale(r: real, x: real, y: real)
    requires r > 0.0
    ensures -x <= y <==> -(x / r) <= y / r
  {
    Scale(r, -x, y);
  }
}
