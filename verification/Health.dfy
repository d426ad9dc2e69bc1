/** The health monitor: its state, its loop over probe results, delivery failures and
    session changes, and what it asks for in terms of the history alone. */
module Health {
  import opened Wrappers

  datatype Event = Recover | Close

  /** One turn of the loop: the session generation read, the probe's result, and
      whether the event channel has room. A cancelled monitor has no more turns. */
  datatype Tick = Tick(gen: nat, ok: bool, room: bool)

  /** What a turn saw, asked for and delivered. */
  datatype Entry = Entry(gen: nat, ok: bool, asked: Option<Event>, sent: bool)

  class HealthState {
    var failures: nat
    var wasFailed: bool
    var wasHealthy: bool

    constructor ()
      ensures failures == 0 && wasFailed && !wasHealthy
    {
      failures, wasFailed, wasHealthy := 0, true, false;
    }

    method OnCheck(ok: bool, maxFailed: nat) returns (action: Option<Event>)
      modifies this
      ensures failures == (if ok then 0 else old(failures) + 1)
      ensures wasHealthy == (ok || old(wasHealthy)) && wasFailed == old(wasFailed)
      ensures action == if ok then (if wasFailed then Some(Recover) else None)
                        else if wasHealthy && failures >= maxFailed && !wasFailed then Some(Close) else None
    {
      if ok {
        failures := 0;
        wasHealthy := true;
        if wasFailed {
          return Some(Recover);
        }
        return None;
      }
      failures := failures + 1;
      if wasHealthy && failures >= maxFailed && !wasFailed {
        return Some(Close);
      }
      return None;
    }

    method ConfirmRecover()
      modifies this`wasFailed
      ensures !wasFailed
    {
      wasFailed := false;
    }

    method ConfirmClose()
      modifies this`wasFailed
      ensures wasFailed
    {
      wasFailed := true;
    }
  }

  // ----- the history since the last change of session

  /** The last event delivered since the session became `gen`. */
  function LastSent(log: seq<Entry>, gen: nat): Option<Event> {
    if log == [] || log[|log| - 1].gen != gen then None
    else if log[|log| - 1].sent then log[|log| - 1].asked
    else LastSent(log[..|log| - 1], gen)
  }

  /** Failed probes in a row, up to the latest, in session `gen`. */
  function Streak(log: seq<Entry>, gen: nat): nat {
    if log == [] || log[|log| - 1].gen != gen || log[|log| - 1].ok then 0
    else Streak(log[..|log| - 1], gen) + 1
  }

  predicate SeenOk(log: seq<Entry>, gen: nat) {
    log != [] && log[|log| - 1].gen == gen && (log[|log| - 1].ok || SeenOk(log[..|log| - 1], gen))
  }

  /** All events delivered since the session became `gen`. */
  function SentSince(log: seq<Entry>, gen: nat): seq<Event> {
    if log == [] || log[|log| - 1].gen != gen then []
    else
      var front := SentSince(log[..|log| - 1], gen);
      if log[|log| - 1].sent && log[|log| - 1].asked.Some? then front + [log[|log| - 1].asked.value] else front
  }

  /** What a turn asks for: a success asks for Recover unless that was the last thing
      delivered; a failure asks for Close if it was, once the streak is long enough. */
  function Asks(log: seq<Entry>, t: Tick, maxFailed: nat): Option<Event> {
    if t.ok then
      if LastSent(log, t.gen) == Some(Recover) then None else Some(Recover)
    else if LastSent(log, t.gen) == Some(Recover) && Streak(log, t.gen) + 1 >= maxFailed then Some(Close)
    else None
  }

  function EntryOf(log: seq<Entry>, t: Tick, maxFailed: nat): Entry {
    var asked := Asks(log, t, maxFailed);
    Entry(t.gen, t.ok, asked, asked.Some? && t.room)
  }

  function Log(ticks: seq<Tick>, maxFailed: nat): (log: seq<Entry>)
    ensures |log| == |ticks|
  {
    if ticks == [] then []
    else
      var front := Log(ticks[..|ticks| - 1], maxFailed);
      front + [EntryOf(front, ticks[|ticks| - 1], maxFailed)]
  }

  // ----- the loop

  /** The state holds what the history of its session says. */
  ghost predicate Tracks(state: HealthState, log: seq<Entry>, gen: nat)
    reads state
  {
    && state.failures == Streak(log, gen)
    && state.wasFailed == (LastSent(log, gen) != Some(Recover))
    && state.wasHealthy == SeenOk(log, gen)
  }

  /** Whenever the state is not failed it has been healthy: the gate on `was_healthy`
      never decides. */
  lemma {:induction false} RecoverMeansHealthy(ticks: seq<Tick>, maxFailed: nat, gen: nat)
    requires LastSent(Log(ticks, maxFailed), gen) == Some(Recover)
    ensures SeenOk(Log(ticks, maxFailed), gen)
  {
    var log := Log(ticks, maxFailed);
    var front := ticks[..|ticks| - 1];
    assert log[..|log| - 1] == Log(front, maxFailed);
    if !log[|log| - 1].sent {
      RecoverMeansHealthy(front, maxFailed, gen);
    }
  }

  lemma {:induction false} Grown(log: seq<Entry>, e: Entry)
    ensures Streak(log + [e], e.gen) == if e.ok then 0 else Streak(log, e.gen) + 1
    ensures LastSent(log + [e], e.gen) == if e.sent then e.asked else LastSent(log, e.gen)
    ensures SeenOk(log + [e], e.gen) == (e.ok || SeenOk(log, e.gen))
  {
    assert (log + [e])[..|log|] == log;
  }

  /** One turn after the session has been looked at. */
  method Turn(state: HealthState, ghost log: seq<Entry>, t: Tick, maxFailed: nat) returns (e: Entry)
    requires Tracks(state, log, t.gen)
    requires LastSent(log, t.gen) == Some(Recover) ==> SeenOk(log, t.gen)
    modifies state
    ensures e == EntryOf(log, t, maxFailed)
    ensures Tracks(state, log + [e], t.gen)
  {
    var asked := state.OnCheck(t.ok, maxFailed);
    var sent := false;
    if asked == Some(Recover) {
      sent := t.room;
      if sent {
        state.ConfirmRecover();
      }
    } else if asked == Some(Close) {
      sent := t.room;
      if sent {
        state.ConfirmClose();
      }
    }
    e := Entry(t.gen, t.ok, asked, sent);
    Grown(log, e);
  }

  method RunHealthCheck(ticks: seq<Tick>, startGen: nat, maxFailed: nat) returns (log: seq<Entry>)
    ensures log == Log(ticks, maxFailed)
  {
    var state := new HealthState();
    var seenGen := startGen;
    log := [];
    for i := 0 to |ticks|
      invariant log == Log(ticks[..i], maxFailed)
      invariant fresh(state)
      invariant Tracks(state, log, seenGen)
      invariant i > 0 ==> seenGen == log[|log| - 1].gen
    {
      var t := ticks[i];
      if t.gen != seenGen {
        state := new HealthState();
        seenGen := t.gen;
      }
      if LastSent(log, seenGen) == Some(Recover) {
        RecoverMeansHealthy(ticks[..i], maxFailed, seenGen);
      }
      var e := Turn(state, log, t, maxFailed);
      log := log + [e];
      assert ticks[..i + 1][..i] == ticks[..i];
    }
    assert ticks[..|ticks|] == ticks;
  }

  // ----- the results

  /** Between two re-arms the events delivered alternate strictly, Recover first. */
  lemma {:induction false} Alternates(ticks: seq<Tick>, maxFailed: nat, gen: nat, i: nat)
    requires i < |SentSince(Log(ticks, maxFailed), gen)|
    ensures SentSince(Log(ticks, maxFailed), gen)[i] == if i % 2 == 0 then Recover else Close
    decreases |ticks|
  {
    var log, front := Log(ticks, maxFailed), ticks[..|ticks| - 1];
    assert log[..|log| - 1] == Log(front, maxFailed);
    if i < |SentSince(Log(front, maxFailed), gen)| {
      Alternates(front, maxFailed, gen, i);
    } else {
      LastOfSent(front, maxFailed, gen);
      if i > 0 {
        Alternates(front, maxFailed, gen, i - 1);
      }
    }
  }

  lemma {:induction false} LastOfSent(ticks: seq<Tick>, maxFailed: nat, gen: nat)
    ensures var sent := SentSince(Log(ticks, maxFailed), gen);
            LastSent(Log(ticks, maxFailed), gen) == if sent == [] then None else Some(sent[|sent| - 1])
  {
    if ticks != [] {
      var log, front := Log(ticks, maxFailed), ticks[..|ticks| - 1];
      assert log[..|log| - 1] == Log(front, maxFailed);
      LastOfSent(front, maxFailed, gen);
    }
  }

  /** Close is asked for only after max_failed failed probes in a row in this session,
      the latest included. */
  lemma {:induction false} CloseNeedsStreak(ticks: seq<Tick>, maxFailed: nat, k: nat)
    requires k < |ticks| && Log(ticks, maxFailed)[k].asked == Some(Close)
    ensures maxFailed <= k + 1
    ensures forall j :: k + 1 - maxFailed <= j <= k ==> !ticks[j].ok && ticks[j].gen == ticks[k].gen
  {
    LogIs(ticks, maxFailed, k);
    StreakShort(Log(ticks[..k], maxFailed), ticks[k].gen);
    forall j | k + 1 - maxFailed <= j < k ensures !ticks[j].ok && ticks[j].gen == ticks[k].gen {
      StreakMeans(ticks[..k], maxFailed, ticks[k].gen, j);
    }
  }

  /** A failed probe that ends max_failed failures in a row of this session lengthens the
      streak accordingly. */
  lemma {:induction false} StreakLong(ticks: seq<Tick>, maxFailed: nat, gen: nat, n: nat)
    requires n <= |ticks|
    requires forall j :: |ticks| - n <= j < |ticks| ==> !ticks[j].ok && ticks[j].gen == gen
    ensures Streak(Log(ticks, maxFailed), gen) >= n
    decreases |ticks|
  {
    if n > 0 {
      var log, front := Log(ticks, maxFailed), ticks[..|ticks| - 1];
      assert log[..|log| - 1] == Log(front, maxFailed);
      StreakLong(front, maxFailed, gen, n - 1);
    }
  }

  /** The last max_failed probes up to the k-th failed, all in the k-th one's session. */
  ghost predicate FailedInARow(ticks: seq<Tick>, maxFailed: nat, k: nat) {
    && k < |ticks| && maxFailed <= k + 1 && !ticks[k].ok
    && forall j :: k + 1 - maxFailed <= j <= k ==> !ticks[j].ok && ticks[j].gen == ticks[k].gen
  }

  lemma {:induction false} StreakIsRow(ticks: seq<Tick>, maxFailed: nat, k: nat)
    requires k < |ticks| && !ticks[k].ok
    ensures FailedInARow(ticks, maxFailed, k) <==> Streak(Log(ticks[..k], maxFailed), ticks[k].gen) + 1 >= maxFailed
  {
    var log, gen := Log(ticks[..k], maxFailed), ticks[k].gen;
    StreakShort(log, gen);
    if Streak(log, gen) + 1 >= maxFailed {
      forall j | k + 1 - maxFailed <= j < k ensures !ticks[j].ok && ticks[j].gen == gen {
        StreakMeans(ticks[..k], maxFailed, gen, j);
      }
    }
    if FailedInARow(ticks, maxFailed, k) && maxFailed > 0 {
      StreakLong(ticks[..k], maxFailed, gen, maxFailed - 1);
    }
  }

  /** Recover was the last event delivered exactly when an odd number has been. */
  lemma {:induction false} OddMeansRecover(ticks: seq<Tick>, maxFailed: nat, gen: nat)
    ensures LastSent(Log(ticks, maxFailed), gen) == Some(Recover)
       <==> |SentSince(Log(ticks, maxFailed), gen)| % 2 == 1
  {
    var sent := SentSince(Log(ticks, maxFailed), gen);
    LastOfSent(ticks, maxFailed, gen);
    if sent != [] {
      Alternates(ticks, maxFailed, gen, |sent| - 1);
    }
  }

  /** Exactly what the k-th turn asks for and delivers. With an even number of events
      delivered in this session, the proxy is not registered: a success asks for Recover.
      With an odd number it is: max_failed failures in a row ask for Close. Nothing else
      asks for anything, and what is asked for is delivered if there is room. */
  lemma {:induction false} AskedExact(ticks: seq<Tick>, maxFailed: nat, k: nat)
    requires k < |ticks|
    ensures var e, odd := Log(ticks, maxFailed)[k], |SentSince(Log(ticks[..k], maxFailed), ticks[k].gen)| % 2 == 1;
            && (e.asked == Some(Recover) <==> ticks[k].ok && !odd)
            && (e.asked == Some(Close) <==> odd && FailedInARow(ticks, maxFailed, k))
            && (e.sent <==> e.asked.Some? && ticks[k].room)
            && e.ok == ticks[k].ok && e.gen == ticks[k].gen
  {
    LogIs(ticks, maxFailed, k);
    OddMeansRecover(ticks[..k], maxFailed, ticks[k].gen);
    if !ticks[k].ok {
      StreakIsRow(ticks, maxFailed, k);
    }
  }

  lemma {:induction false} StreakShort(log: seq<Entry>, gen: nat)
    ensures Streak(log, gen) <= |log|
  {
    if log != [] {
      StreakShort(log[..|log| - 1], gen);
    }
  }

  lemma {:induction false} LogIs(ticks: seq<Tick>, maxFailed: nat, k: nat)
    requires k < |ticks|
    ensures Log(ticks, maxFailed)[k] == EntryOf(Log(ticks[..k], maxFailed), ticks[k], maxFailed)
    decreases |ticks|
  {
    var front := ticks[..|ticks| - 1];
    if k < |front| {
      assert front[..k] == ticks[..k];
      LogIs(front, maxFailed, k);
    }
  }

  lemma {:induction false} StreakMeans(ticks: seq<Tick>, maxFailed: nat, gen: nat, j: nat)
    requires j < |ticks| <= j + Streak(Log(ticks, maxFailed), gen)
    ensures !ticks[j].ok && ticks[j].gen == gen
    decreases |ticks|
  {
    var log, front := Log(ticks, maxFailed), ticks[..|ticks| - 1];
    assert log[..|log| - 1] == Log(front, maxFailed);
    if j < |front| {
      StreakMeans(front, maxFailed, gen, j);
    }
  }

  /** The first success of a session asks for Recover, whatever went on before it. */
  lemma {:induction false} FirstSuccessRecovers(ticks: seq<Tick>, maxFailed: nat, k: nat, start: nat)
    requires start <= k < |ticks| && ticks[k].ok
    requires start > 0 ==> ticks[start - 1].gen != ticks[k].gen
    requires forall j :: start <= j < k ==> ticks[j].gen == ticks[k].gen && !ticks[j].ok
    ensures Log(ticks, maxFailed)[k].asked == Some(Recover)
  {
    LogIs(ticks, maxFailed, k);
    NothingSent(ticks[..k], maxFailed, ticks[k].gen, start);
  }

  lemma {:induction false} NothingSent(ticks: seq<Tick>, maxFailed: nat, gen: nat, start: nat)
    requires start <= |ticks|
    requires start > 0 ==> ticks[start - 1].gen != gen
    requires forall j :: start <= j < |ticks| ==> ticks[j].gen == gen && !ticks[j].ok
    ensures LastSent(Log(ticks, maxFailed), gen) == None
    decreases |ticks|
  {
    if ticks != [] {
      var log, front := Log(ticks, maxFailed), ticks[..|ticks| - 1];
      assert log[..|log| - 1] == Log(front, maxFailed);
      if start < |ticks| {
        NothingSent(front, maxFailed, gen, start);
      }
    }
  }
}
