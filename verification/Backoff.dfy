/** The reconnect backoff: a pruned list of session ends that decides between fast and
    slow retries, and the slow delays themselves. Instants and durations are whole
    nanoseconds; the random jitter is an argument. */
module Backoff {
  import opened Wrappers

  const MILLI: nat := 1_000_000
  const WINDOW: nat := 60_000 * MILLI
  const CAP: nat := 20_000

  // ----- the window

  /** `retain(|ts| ts >= cutoff)`. */
  function Recent(times: seq<int>, cutoff: int): seq<int> {
    if times == [] then []
    else
      var front, last := Recent(times[..|times| - 1], cutoff), times[|times| - 1];
      if last >= cutoff then front + [last] else front
  }

  // ----- the delays

  function Millis(ns: nat): nat {
    ns / MILLI
  }

  /** A real number of milliseconds as the cast to an unsigned integer cuts it. */
  function Whole(x: real): nat {
    if x < 0.0 then 0 else x.Floor
  }

  function Jittered(ms: nat, j: real): nat {
    Whole(ms as real * j)
  }

  predicate FastJitter(j: real) {
    0.5 <= j <= 1.5
  }

  predicate SlowJitter(j: real) {
    0.9 <= j <= 1.1
  }

  /** In milliseconds. */
  function FastDelay(j: real): nat {
    Jittered(200, j)
  }

  function SlowDelay(errors: nat, previous: nat, j: real): nat {
    var base := if errors == 1 || previous == 0 then 1000 * MILLI else previous;
    Min(Jittered(Millis(base * 2), j), CAP)
  }

  function Delay(errors: nat, count: nat, previous: nat, fast: real, slow: real): nat {
    if count <= 3 then FastDelay(fast) else SlowDelay(errors, previous, slow)
  }

  class Retries {
    var errors: nat
    var timestamps: seq<int>

    constructor ()
      ensures errors == 0 && timestamps == []
    {
      errors, timestamps := 0, [];
    }

    /** Drops what is older than the window and counts the rest. */
    method Prune(now: int) returns (count: nat)
      modifies this`timestamps
      ensures timestamps == Recent(old(timestamps), now - WINDOW) && count == |timestamps|
    {
      var cutoff := now - WINDOW;
      var kept: seq<int> := [];
      for i := 0 to |timestamps|
        invariant timestamps == old(timestamps)
        invariant kept == Recent(timestamps[..i], cutoff)
      {
        assert timestamps[..i + 1][..i] == timestamps[..i];
        if timestamps[i] >= cutoff {
          kept := kept + [timestamps[i]];
        }
      }
      assert timestamps[..|timestamps|] == timestamps;
      timestamps := kept;
      return |timestamps|;
    }

    /** A session ended: the clock is read when the end is recorded and again when the
        list is pruned. */
    method DelayAfterSession(pushed: int, pruned: int, previous: nat, fast: real, slow: real) returns (delay: nat)
      requires FastJitter(fast) && SlowJitter(slow)
      modifies this
      ensures errors == old(errors) + 1
      ensures timestamps == Recent(old(timestamps) + [pushed], pruned - WINDOW)
      ensures delay == Delay(errors, |timestamps|, previous, fast, slow) * MILLI
    {
      errors := errors + 1;
      timestamps := timestamps + [pushed];
      var count := Prune(pruned);
      delay := Delay(errors, count, previous, fast, slow) * MILLI;
    }
  }

  // ----- what the pruned list counts

  /** When a session's end was recorded and when the list was then pruned. */
  datatype Session = Session(pushed: int, pruned: int)

  function Pushes(sessions: seq<Session>): (times: seq<int>)
    ensures |times| == |sessions|
  {
    if sessions == [] then []
    else Pushes(sessions[..|sessions| - 1]) + [sessions[|sessions| - 1].pushed]
  }

  /** The list after these sessions. */
  function Kept(sessions: seq<Session>): seq<int> {
    if sessions == [] then []
    else
      var last := sessions[|sessions| - 1];
      Recent(Kept(sessions[..|sessions| - 1]) + [last.pushed], last.pruned - WINDOW)
  }

  /** The clock never goes back. */
  predicate Clocked(sessions: seq<Session>) {
    && (forall i :: 0 <= i < |sessions| ==> sessions[i].pushed <= sessions[i].pruned)
    && (forall i, j :: 0 <= i < j < |sessions| ==> sessions[i].pruned <= sessions[j].pruned)
  }

  lemma {:induction false} RecentSnoc(times: seq<int>, t: int, cutoff: int)
    ensures Recent(times + [t], cutoff) == if t >= cutoff then Recent(times, cutoff) + [t] else Recent(times, cutoff)
  {
    assert (times + [t])[..|times|] == times;
  }

  lemma {:induction false} RecentTwice(times: seq<int>, c: int, d: int)
    requires c <= d
    ensures Recent(Recent(times, c), d) == Recent(times, d)
  {
    if times != [] {
      var front, last := times[..|times| - 1], times[|times| - 1];
      RecentTwice(front, c, d);
      RecentSnoc(Recent(front, c), last, d);
    }
  }

  /** Pruning loses nothing: the list is the recent part of the whole history. */
  lemma {:induction false} KeptIsRecent(sessions: seq<Session>)
    requires sessions != [] && Clocked(sessions)
    ensures Kept(sessions) == Recent(Pushes(sessions), sessions[|sessions| - 1].pruned - WINDOW)
  {
    var front, last := sessions[..|sessions| - 1], sessions[|sessions| - 1];
    var cutoff := last.pruned - WINDOW;
    RecentSnoc(Kept(front), last.pushed, cutoff);
    RecentSnoc(Pushes(front), last.pushed, cutoff);
    if front != [] {
      KeptIsRecent(front);
      RecentTwice(Pushes(front), front[|front| - 1].pruned - WINDOW, cutoff);
    }
  }

  // ----- how many retries are fast

  predicate Fast(sessions: seq<Session>) {
    |Kept(sessions)| <= 3
  }

  /** The session was recorded and answered within [start, start + 60 s]. */
  predicate Within(s: Session, start: int) {
    start <= s.pushed && s.pruned <= start + WINDOW
  }

  function EndsWithin(sessions: seq<Session>, start: int): nat {
    if sessions == [] then 0
    else
      EndsWithin(sessions[..|sessions| - 1], start)
      + if Within(sessions[|sessions| - 1], start) then 1 else 0
  }

  /** How many of the sessions within the window got a fast retry. */
  function FastWithin(sessions: seq<Session>, start: int): nat {
    if sessions == [] then 0
    else
      FastWithin(sessions[..|sessions| - 1], start)
      + if Within(sessions[|sessions| - 1], start) && Fast(sessions) then 1 else 0
  }

  lemma {:induction false} EndsAreRecent(sessions: seq<Session>, start: int, cutoff: int)
    requires cutoff <= start
    ensures EndsWithin(sessions, start) <= |Recent(Pushes(sessions), cutoff)|
  {
    if sessions != [] {
      var front, last := sessions[..|sessions| - 1], sessions[|sessions| - 1];
      EndsAreRecent(front, start, cutoff);
      RecentSnoc(Pushes(front), last.pushed, cutoff);
    }
  }

  lemma {:induction false} FastAreEnds(sessions: seq<Session>, start: int)
    ensures FastWithin(sessions, start) <= EndsWithin(sessions, start)
  {
    if sessions != [] {
      FastAreEnds(sessions[..|sessions| - 1], start);
    }
  }

  /** In any window of 60 s at most three retries are fast. */
  lemma {:induction false} AtMostThreeFast(sessions: seq<Session>, start: int)
    requires Clocked(sessions)
    ensures FastWithin(sessions, start) <= 3
  {
    if sessions != [] {
      var last := sessions[|sessions| - 1];
      AtMostThreeFast(sessions[..|sessions| - 1], start);
      if Within(last, start) && Fast(sessions) {
        KeptIsRecent(sessions);
        EndsAreRecent(sessions, start, last.pruned - WINDOW);
        FastAreEnds(sessions, start);
      }
    }
  }

  lemma FastDelayBounds(j: real)
    requires FastJitter(j)
    ensures 100 <= FastDelay(j) <= 300
    ensures FastDelay(j) as real <= 200.0 * j < FastDelay(j) as real + 1.0
  {
  }

  /** The first three retries are always fast. */
  lemma {:induction false} FirstThreeFast(sessions: seq<Session>)
    requires |sessions| <= 3
    ensures Fast(sessions)
  {
    KeptShort(sessions);
  }

  lemma {:induction false} KeptShort(sessions: seq<Session>)
    ensures |Kept(sessions)| <= |sessions|
  {
    if sessions != [] {
      var last := sessions[|sessions| - 1];
      KeptShort(sessions[..|sessions| - 1]);
      RecentShort(Kept(sessions[..|sessions| - 1]) + [last.pushed], last.pruned - WINDOW);
    }
  }

  lemma {:induction false} RecentShort(times: seq<int>, cutoff: int)
    ensures |Recent(times, cutoff)| <= |times|
  {
    if times != [] {
      RecentShort(times[..|times| - 1], cutoff);
    }
  }

  // ----- how slow retries grow

  /** The least the next slow delay can be after one of p milliseconds. */
  function Least(p: nat): nat {
    Min(9 * p / 5, CAP)
  }

  lemma TimesAtLeast(y: real, j: real)
    requires y >= 0.0 && j >= 0.9
    ensures y * j >= 0.9 * y
  {
  }

  lemma Tenths(m: nat)
    ensures (9 * m / 10) as real <= 0.9 * m as real
  {
    var k := 9 * m / 10;
    assert 10 * k <= 9 * m;
    assert 10.0 * k as real <= 9.0 * m as real;
  }

  lemma Scaled(m: nat, j: real)
    requires SlowJitter(j)
    ensures 9 * m / 10 <= Jittered(m, j)
  {
    TimesAtLeast(m as real, j);
    Tenths(m);
    WholeAtLeast(m as real * j, 9 * m / 10);
  }

  lemma WholeAtLeast(z: real, k: nat)
    requires k as real <= z
    ensures k <= Whole(z)
  {
  }

  lemma Doubled(ns: nat)
    ensures 2 * Millis(ns) <= Millis(ns * 2)
    ensures ns * 2 < (Millis(ns * 2) + 1) * MILLI
  {
  }

  lemma Growth(p: nat, m: nat)
    requires 2 * p <= m
    ensures 9 * p / 5 <= 9 * m / 10
    ensures m >= 200 ==> (m + 1) * MILLI <= 9 * m / 10 * 2 * MILLI
  {
  }

  lemma StepInWhole(previous: nat, m: nat, x: nat)
    requires previous >= 100 * MILLI
    requires 2 * Millis(previous) <= m && previous * 2 < (m + 1) * MILLI && 9 * m / 10 <= x
    ensures Least(Millis(previous)) <= Min(x, CAP)
    ensures previous <= Min(x, CAP) * MILLI <==> previous <= CAP * MILLI
  {
    Growth(Millis(previous), m);
    assert Millis(previous) >= 100;
    assert previous <= x * MILLI;
  }

  /** One slow retry: it grows by at least 9/5 up to the cap, and is no shorter than the
      delay before it exactly when that was within the cap. */
  lemma SlowStep(errors: nat, previous: nat, j: real)
    requires errors > 1 && previous >= 100 * MILLI && SlowJitter(j)
    ensures Least(Millis(previous)) <= SlowDelay(errors, previous, j) <= CAP
    ensures previous <= SlowDelay(errors, previous, j) * MILLI <==> previous <= CAP * MILLI
  {
    var m := Millis(previous * 2);
    Doubled(previous);
    Scaled(m, j);
    StepInWhole(previous, m, Jittered(m, j));
  }

  /** Exactly how long a slow delay is: twice the base, one second for the first error or
      after no delay and the previous delay otherwise, times the jitter, in whole
      milliseconds, and at most the cap. */
  lemma SlowExact(errors: nat, previous: nat, j: real)
    requires SlowJitter(j)
    ensures var base := if errors == 1 || previous == 0 then 1000 * MILLI else previous;
            var d, exact := SlowDelay(errors, previous, j), Millis(base * 2) as real * j;
            if exact >= CAP as real then d == CAP else d < CAP && d as real <= exact < d as real + 1.0
  {
    var base := if errors == 1 || previous == 0 then 1000 * MILLI else previous;
    NotNegative(Millis(base * 2) as real, j);
  }

  lemma NotNegative(y: real, j: real)
    requires y >= 0.0 && j >= 0.0
    ensures y * j >= 0.0
  {
  }

  /** After the first error, or after no delay, the slow delay is 1800 to 2200 milliseconds. */
  lemma FirstSlow(errors: nat, previous: nat, j: real)
    requires SlowJitter(j) && (errors == 1 || previous == 0)
    ensures 1800 <= SlowDelay(errors, previous, j) <= 2200
  {
    SlowExact(errors, previous, j);
    assert Millis(1000 * MILLI * 2) == 2000;
  }

  /** The delay, in nanoseconds, after running through the jitters in the slow phase. */
  function Slow(errors: nat, previous: nat, jitters: seq<real>): nat {
    if jitters == [] then previous
    else
      var front := jitters[..|jitters| - 1];
      SlowDelay(errors + |front|, Slow(errors, previous, front), jitters[|jitters| - 1]) * MILLI
  }

  function LeastAfter(p: nat, k: nat): nat {
    if k == 0 then Min(p, CAP) else Least(LeastAfter(p, k - 1))
  }

  lemma LeastGrows(p: nat, q: nat)
    requires p <= q
    ensures Least(p) <= Least(q)
  {
  }

  /** Slow delays never pass the cap and never decrease, but for the first when the
      delay before it was over the cap. */
  lemma {:induction false} SlowClimbs(errors: nat, previous: nat, jitters: seq<real>)
    requires errors > 1 && previous >= 100 * MILLI && jitters != []
    requires forall i :: 0 <= i < |jitters| ==> SlowJitter(jitters[i])
    ensures LeastAfter(Millis(previous), |jitters|) <= Millis(Slow(errors, previous, jitters)) <= CAP
    ensures 100 * MILLI <= Slow(errors, previous, jitters) <= CAP * MILLI
    ensures Slow(errors, previous, jitters[..|jitters| - 1]) <= Slow(errors, previous, jitters)
         <==> |jitters| > 1 || previous <= CAP * MILLI
  {
    var front := jitters[..|jitters| - 1];
    var d := Slow(errors, previous, front);
    if front != [] {
      SlowClimbs(errors, previous, front);
    }
    var next := SlowDelay(errors + |front|, d, jitters[|jitters| - 1]);
    SlowStep(errors + |front|, d, jitters[|jitters| - 1]);
    LeastGrows(LeastAfter(Millis(previous), |front|), Millis(d));
    LeastGrows(100, Millis(d));
    assert Millis(next * MILLI) == next;
  }

  lemma TenSteps(p: nat)
    requires 100 <= p
    ensures LeastAfter(p, 10) == CAP
  {
    assert LeastAfter(p, 0) >= 100;
    assert LeastAfter(p, 1) >= 180;
    assert LeastAfter(p, 2) >= 324;
    assert LeastAfter(p, 3) >= 583;
    assert LeastAfter(p, 4) >= 1049;
    assert LeastAfter(p, 5) >= 1888;
    assert LeastAfter(p, 6) >= 3398;
    assert LeastAfter(p, 7) >= 6116;
    assert LeastAfter(p, 8) >= 11008;
    assert LeastAfter(p, 9) >= 19814;
  }

  lemma {:induction false} LeastStays(p: nat, k: nat)
    requires 100 <= p && k >= 10
    ensures LeastAfter(p, k) == CAP
  {
    if k == 10 {
      TenSteps(p);
    } else {
      LeastStays(p, k - 1);
    }
  }

  /** From any delay of at least 100 ms the cap is reached within ten slow retries,
      whatever the jitter, and kept from then on. */
  lemma {:induction false} CapWithinTen(errors: nat, previous: nat, jitters: seq<real>)
    requires errors > 1 && previous >= 100 * MILLI && |jitters| >= 10
    requires forall i :: 0 <= i < |jitters| ==> SlowJitter(jitters[i])
    ensures Slow(errors, previous, jitters) == CAP * MILLI
  {
    SlowClimbs(errors, previous, jitters);
    LeastStays(Millis(previous), |jitters|);
  }

  // ----- a run of failing sessions

  /** What the i-th retry waits, given what the ones before it waited. */
  ghost predicate Waits(sessions: seq<Session>, fasts: seq<real>, slows: seq<real>, first: nat,
                        delays: seq<nat>, i: nat)
    requires |sessions| == |fasts| == |slows|
  {
    i < |delays| <= |sessions| ==>
      var previous := if i == 0 then first else delays[i - 1];
      if Fast(sessions[..i + 1]) then delays[i] == FastDelay(fasts[i]) * MILLI
      else delays[i] == SlowDelay(i + 1, previous, slows[i]) * MILLI
  }

  method Reconnects(sessions: seq<Session>, fasts: seq<real>, slows: seq<real>, first: nat) returns (delays: seq<nat>)
    requires |sessions| == |fasts| == |slows|
    requires forall i :: 0 <= i < |sessions| ==> FastJitter(fasts[i]) && SlowJitter(slows[i])
    ensures |delays| == |sessions|
    ensures forall i :: Waits(sessions, fasts, slows, first, delays, i)
  {
    var retries := new Retries();
    var previous := first;
    delays := [];
    for i := 0 to |sessions|
      invariant fresh(retries) && |delays| == i
      invariant retries.errors == i && retries.timestamps == Kept(sessions[..i])
      invariant previous == if i == 0 then first else delays[i - 1]
      invariant forall k :: Waits(sessions, fasts, slows, first, delays, k)
    {
      assert sessions[..i + 1][..i] == sessions[..i];
      previous := retries.DelayAfterSession(sessions[i].pushed, sessions[i].pruned, previous, fasts[i], slows[i]);
      ghost var before := delays;
      delays := delays + [previous];
      forall k ensures Waits(sessions, fasts, slows, first, delays, k) {
        assert Waits(sessions, fasts, slows, first, before, k);
      }
    }
  }
}
