/** What every interleaving of the tunnel tasks keeps about the re-punch signals: when
    punches may start, and which signals cause one. */
module TunnelSignals {
  import opened Wrappers
  import opened Tunnel

  /** The signal the puncher has taken and not yet punched for. */
  function InHand(p: PunchPc): Option<nat> {
    match p
    case Received(c) => Some(c)
    case Disarmed(c) => Some(c)
    case _ => None
  }

  /** When the current punch started. */
  function StartOf(p: PunchPc): Option<int> {
    match p
    case Punching(start) => Some(start)
    case Swapping(start, _) => Some(start)
    case ClosingOld(start, _) => Some(start)
    case Resting(start) => Some(start)
    case _ => None
  }

  /** The puncher is between two punches, with the pause behind it. */
  predicate Rested(p: PunchPc) {
    p.Draining? || p.Arming? || p.Parked? || p.Received? || p.Disarmed?
  }

  /** Past the drain and before the next signal is taken. */
  predicate Listening(p: PunchPc) {
    p.Arming? || p.Parked?
  }

  ghost predicate IsCause(punches: seq<PunchRecord>, q: nat) {
    exists k :: 0 <= k < |punches| && punches[k].cause == q
  }

  /** A signal that is no punch's cause yet, and that no drain has thrown away. */
  ghost predicate Unspent(s: State, q: nat) {
    q < s.tick && q !in s.drained && !IsCause(s.punches, q)
  }

  predicate AfterDrain(s: State, q: nat) {
    s.drains != [] && s.drains[|s.drains| - 1] < q
  }

  /** The channel holds at most one signal. */
  ghost predicate QueueInv(s: State) {
    && |s.queue| <= 1
    && (s.queue != [] ==>
          && Unspent(s, s.queue[0])
          && (Listening(s.punch) ==> AfterDrain(s, s.queue[0]))
          && InHand(s.punch) != Some(s.queue[0]))
  }

  ghost predicate TaskInv(s: State) {
    && (InHand(s.punch).Some? ==> Unspent(s, InHand(s.punch).value) && AfterDrain(s, InHand(s.punch).value))
    && (s.armed ==> s.punch.Parked? || s.punch.Received? || s.punch.Stopped?)
    && (s.drains == [] ==> s.punch.Draining?)
  }

  /** The clock against the latest punch. */
  ghost predicate TimeInv(s: State) {
    s.punches != [] ==>
      var last := s.punches[|s.punches| - 1];
      && (StartOf(s.punch).Some? ==> StartOf(s.punch).value == last.start)
      && (Rested(s.punch) ==> s.now - last.start >= MIN_PUNCH_INTERVAL)
  }

  predicate DrainAt(drains: seq<nat>, tick: nat, k: nat) {
    k < |drains| ==> drains[0] <= drains[k] < tick
  }

  ghost predicate DrainedAt(drained: set<nat>, tick: nat, punches: seq<PunchRecord>, q: nat) {
    q in drained ==> q < tick && !IsCause(punches, q)
  }

  /** What holds of the k-th punch. */
  predicate PunchAt(punches: seq<PunchRecord>, drains: seq<nat>, tick: nat, k: nat) {
    k < |punches| ==>
      var p := punches[k];
      && p.drain < p.cause < tick
      && drains != [] && drains[0] <= p.drain
      && (k > 0 ==> p.start - punches[k - 1].start >= MIN_PUNCH_INTERVAL)
  }

  predicate CausesDiffer(punches: seq<PunchRecord>, j: nat, k: nat) {
    j < k < |punches| ==> punches[j].cause != punches[k].cause
  }

  /** What has happened so far. */
  ghost predicate History(tick: nat, drains: seq<nat>, drained: set<nat>, punches: seq<PunchRecord>) {
    && (forall k :: DrainAt(drains, tick, k))
    && (forall q :: DrainedAt(drained, tick, punches, q))
    && (forall k :: PunchAt(punches, drains, tick, k))
    && (forall j, k :: CausesDiffer(punches, j, k))
  }

  ghost predicate SignalInv(s: State) {
    QueueInv(s) && TaskInv(s) && TimeInv(s) && History(s.tick, s.drains, s.drained, s.punches)
  }

  // ----- how history grows

  lemma TickGrows(tick: nat, later: nat, drains: seq<nat>, drained: set<nat>, punches: seq<PunchRecord>)
    requires History(tick, drains, drained, punches) && tick <= later
    ensures History(later, drains, drained, punches)
  {
    forall k ensures DrainAt(drains, later, k) && PunchAt(punches, drains, later, k) {
      assert DrainAt(drains, tick, k) && PunchAt(punches, drains, tick, k);
    }
    forall q ensures DrainedAt(drained, later, punches, q) {
      assert DrainedAt(drained, tick, punches, q);
    }
  }

  lemma DrainsGrow(tick: nat, drains: seq<nat>, drained: set<nat>, punches: seq<PunchRecord>)
    requires History(tick, drains, drained, punches)
    ensures History(tick + 1, drains + [tick], drained, punches)
  {
    TickGrows(tick, tick + 1, drains, drained, punches);
    var grown, later := drains + [tick], tick + 1;
    forall k ensures DrainAt(grown, later, k) && PunchAt(punches, grown, later, k) {
      assert DrainAt(drains, tick, 0);
      assert DrainAt(drains, later, k) && PunchAt(punches, drains, later, k);
    }
  }

  lemma DrainedGrows(tick: nat, drains: seq<nat>, drained: set<nat>, punches: seq<PunchRecord>, q: nat)
    requires History(tick, drains, drained, punches) && q < tick && !IsCause(punches, q)
    ensures History(tick, drains, drained + {q}, punches)
  {
    forall r ensures DrainedAt(drained + {q}, tick, punches, r) {
      assert DrainedAt(drained, tick, punches, r);
    }
  }

  lemma PunchesGrow(tick: nat, drains: seq<nat>, drained: set<nat>, punches: seq<PunchRecord>, p: PunchRecord)
    requires History(tick, drains, drained, punches)
    requires drains != [] && p.drain == drains[|drains| - 1] < p.cause < tick
    requires p.cause !in drained && !IsCause(punches, p.cause)
    requires punches != [] ==> p.start - punches[|punches| - 1].start >= MIN_PUNCH_INTERVAL
    ensures History(tick, drains, drained, punches + [p])
  {
    assert DrainAt(drains, tick, |drains| - 1);
    forall k ensures PunchAt(punches + [p], drains, tick, k) {
      assert PunchAt(punches, drains, tick, k);
    }
    forall j, k ensures CausesDiffer(punches + [p], j, k) {
      assert CausesDiffer(punches, j, k);
    }
    forall q ensures DrainedAt(drained, tick, punches + [p], q) {
      assert DrainedAt(drained, tick, punches, q);
    }
  }

  /** A stamp not yet handed out is nobody's. */
  lemma NextIsNew(s: State)
    requires SignalInv(s)
    ensures s.tick !in s.drained && !IsCause(s.punches, s.tick)
    ensures s.drains != [] ==> s.drains[|s.drains| - 1] < s.tick
  {
    assert DrainedAt(s.drained, s.tick, s.punches, s.tick);
    forall k | 0 <= k < |s.punches| ensures s.punches[k].cause != s.tick {
      assert PunchAt(s.punches, s.drains, s.tick, k);
    }
    if s.drains != [] {
      assert DrainAt(s.drains, s.tick, |s.drains| - 1);
    }
  }

  // ----- steps

  lemma EnqueueKeeps(s: State)
    requires SignalInv(s)
    ensures SignalInv(Enqueue(s))
  {
    NextIsNew(s);
    TickGrows(s.tick, s.tick + 1, s.drains, s.drained, s.punches);
  }

  /** t agrees with s on everything the signal invariant speaks of, but for the clock. */
  predicate SameSignals(s: State, t: State) {
    && t.queue == s.queue && t.armed == s.armed && t.tick == s.tick && t.punch == s.punch
    && t.drains == s.drains && t.drained == s.drained && t.punches == s.punches && t.now >= s.now
  }

  lemma GotoSame(s: State, i: nat, pc: CallPc)
    ensures SameSignals(s, Goto(s, i, pc))
  {
  }

  lemma OpenDoneSame(s: State, i: nat, result: OpenResult)
    ensures SameSignals(s, OpenDoneStep(s, i, result))
  {
  }

  lemma SendsOne(s: State, i: nat)
    ensures SameSignals(s, SendStep(s, i)) || SameSignals(Enqueue(s), SendStep(s, i))
    ensures SameSignals(s, EmptySendStep(s, i)) || SameSignals(Enqueue(s), EmptySendStep(s, i))
  {
  }

  lemma LooksSame(s: State, i: nat)
    ensures SameSignals(s, LookupStep(s, i)) && SameSignals(s, EmptyLoadStep(s, i)) && SameSignals(s, LoadStep(s, i))
  {
  }

  lemma ClosesSame(s: State, i: nat)
    ensures SameSignals(s, CloseStep(s, i)) && SameSignals(s, ClearStep(s, i))
  {
  }

  /** A call sends at most one signal and touches nothing else of the signals. */
  lemma CallSignals(s: State, i: nat, c: CallAction)
    ensures SameSignals(s, CallStep(s, i, c)) || SameSignals(Enqueue(s), CallStep(s, i, c))
  {
    match c
    case Spawn(flag) => GotoSame(s, i, Begin(flag));
    case OpenDone(result) => OpenDoneSame(s, i, result);
    case EmptyTrySend => SendsOne(s, i);
    case TrySend => SendsOne(s, i);
    case Close => ClosesSame(s, i);
    case Clear => ClosesSame(s, i);
    case _ => LooksSame(s, i);
  }

  lemma DrainKeeps(s: State)
    requires SignalInv(s)
    ensures SignalInv(PunchStep(s, DrainOne)) && SignalInv(PunchStep(s, DrainEnd))
  {
    if s.queue != [] {
      DrainedGrows(s.tick, s.drains, s.drained, s.punches, s.queue[0]);
    }
    DrainsGrow(s.tick, s.drains, s.drained, s.punches);
  }

  lemma StartKeeps(s: State)
    requires SignalInv(s)
    ensures SignalInv(PunchStep(s, StartPunch))
  {
    if s.punch.Disarmed? && s.drains != [] {
      var p := PunchRecord(s.now, s.punch.cause, s.drains[|s.drains| - 1]);
      PunchesGrow(s.tick, s.drains, s.drained, s.punches, p);
      assert s.queue != [] ==> !IsCause(s.punches + [p], s.queue[0]);
    }
  }

  lemma PunchKeeps(s: State, p: PunchAction)
    requires SignalInv(s)
    ensures SignalInv(PunchStep(s, p))
  {
    if p.DrainOne? || p.DrainEnd? {
      DrainKeeps(s);
    } else if p.StartPunch? {
      StartKeeps(s);
    }
  }

  lemma StepKeeps(s: State, a: Action)
    requires SignalInv(s)
    ensures SignalInv(Step(s, a))
  {
    EnqueueKeeps(s);
    match a
    case Pass(_) =>
    case KeepSend =>
    case Call(i, c) => CallSignals(s, i, c);
    case Punch(p) => PunchKeeps(s, p);
  }

  lemma {:induction false} Reachable(now: int, actions: seq<Action>)
    ensures SignalInv(Run(now, actions))
  {
    if actions != [] {
      Reachable(now, actions[..|actions| - 1]);
      StepKeeps(Run(now, actions[..|actions| - 1]), actions[|actions| - 1]);
    }
  }

  // ----- the results

  lemma {:induction false} StartsApart(punches: seq<PunchRecord>, drains: seq<nat>, tick: nat, j: nat, k: nat)
    requires forall i :: PunchAt(punches, drains, tick, i)
    requires j < k < |punches|
    ensures punches[k].start - punches[j].start >= MIN_PUNCH_INTERVAL * (k - j)
  {
    assert PunchAt(punches, drains, tick, k);
    if j < k - 1 {
      StartsApart(punches, drains, tick, j, k - 1);
    }
  }

  /** In every run at most one signal waits. */
  lemma OneSignalWaits(now: int, actions: seq<Action>)
    ensures |Run(now, actions).queue| <= 1
  {
    Reachable(now, actions);
  }

  /** In every run punches start at least ten seconds apart, and each has its own cause. */
  lemma PunchesSpaced(now: int, actions: seq<Action>, j: nat, k: nat)
    requires j < k < |Run(now, actions).punches|
    ensures var s := Run(now, actions);
            && s.punches[k].start - s.punches[j].start >= MIN_PUNCH_INTERVAL * (k - j)
            && s.punches[j].cause != s.punches[k].cause
  {
    var s := Run(now, actions);
    Reachable(now, actions);
    StartsApart(s.punches, s.drains, s.tick, j, k);
    assert CausesDiffer(s.punches, j, k);
  }

  /** Each punch is caused by a signal sent after the latest drain before it, never by one
      that a drain found. */
  lemma CausedAfterDrain(now: int, actions: seq<Action>, k: nat)
    requires k < |Run(now, actions).punches|
    ensures var s := Run(now, actions);
            && s.punches[k].drain < s.punches[k].cause
            && s.punches[k].cause !in s.drained
  {
    var s := Run(now, actions);
    Reachable(now, actions);
    assert PunchAt(s.punches, s.drains, s.tick, k);
    assert DrainedAt(s.drained, s.tick, s.punches, s.punches[k].cause);
  }

  /** q waits for the puncher or has been taken by it, or the puncher was cancelled. */
  ghost predicate Answered(s: State, q: nat) {
    || (s.queue == [q] && Listening(s.punch))
    || InHand(s.punch) == Some(q)
    || IsCause(s.punches, q)
    || s.punch.Stopped?
  }

  /** q causes no punch, and if it waits the puncher is to drain before it listens. */
  ghost predicate Lost(s: State, q: nat) {
    && q < s.tick
    && !IsCause(s.punches, q)
    && InHand(s.punch) != Some(q)
    && (q in s.queue ==> !Listening(s.punch))
  }

  lemma CausesKept(s: State, p: PunchAction, q: nat)
    requires IsCause(s.punches, q)
    ensures IsCause(PunchStep(s, p).punches, q)
  {
    var k :| 0 <= k < |s.punches| && s.punches[k].cause == q;
    assert PunchStep(s, p).punches[k].cause == q;
  }

  lemma AnsweredPunch(s: State, p: PunchAction, q: nat)
    requires SignalInv(s) && Answered(s, q)
    ensures Answered(PunchStep(s, p), q)
  {
    var t := PunchStep(s, p);
    if IsCause(s.punches, q) {
      CausesKept(s, p, q);
    } else if p.StartPunch? && s.punch.Disarmed? && s.drains != [] && s.punch.cause == q {
      assert t.punches[|s.punches|].cause == q;
    }
  }

  lemma LostPunch(s: State, p: PunchAction, q: nat)
    requires Lost(s, q)
    ensures Lost(PunchStep(s, p), q)
  {
  }

  lemma {:induction false} AnsweredForever(s: State, actions: seq<Action>, q: nat)
    requires SignalInv(s) && Answered(s, q)
    ensures SignalInv(RunFrom(s, actions)) && Answered(RunFrom(s, actions), q)
  {
    if actions != [] {
      var front, a := actions[..|actions| - 1], actions[|actions| - 1];
      var t := RunFrom(s, front);
      AnsweredForever(s, front, q);
      StepKeeps(t, a);
      match a
      case Pass(_) =>
      case KeepSend =>
      case Call(i, c) => CallSignals(t, i, c);
      case Punch(p) => AnsweredPunch(t, p, q);
    }
  }

  lemma {:induction false} LostForever(s: State, actions: seq<Action>, q: nat)
    requires Lost(s, q)
    ensures Lost(RunFrom(s, actions), q)
  {
    if actions != [] {
      var front, a := actions[..|actions| - 1], actions[|actions| - 1];
      var t := RunFrom(s, front);
      LostForever(s, front, q);
      match a
      case Pass(_) =>
      case KeepSend =>
      case Call(i, c) => CallSignals(t, i, c);
      case Punch(p) => LostPunch(t, p, q);
    }
  }

  /** A step that queues a signal queues the next stamp and leaves the rest. */
  lemma QueuesNext(s: State, a: Action)
    requires s.queue == [] && Step(s, a).queue != []
    ensures SameSignals(Enqueue(s), Step(s, a))
  {
    if a.Call? {
      CallSignals(s, a.call, a.action);
    }
  }

  lemma FateAtOnce(s: State, t: State)
    requires SignalInv(s) && s.queue == [] && SameSignals(Enqueue(s), t)
    ensures if Listening(s.punch) then Answered(t, s.tick) else Lost(t, s.tick)
  {
    NextIsNew(s);
  }

  /** The fate of a signal is settled by where the puncher is when it is queued. Queued
      between the end of a drain and the next receive, it stays until the puncher takes it
      and punches for it, unless the puncher is cancelled. Queued at any other moment it
      never causes a punch. */
  lemma SignalFate(now: int, before: seq<Action>, a: Action, after: seq<Action>)
    requires var s := Run(now, before); s.queue == [] && Step(s, a).queue != []
    ensures var s := Run(now, before);
            var t := RunFrom(Step(s, a), after);
            Step(s, a).queue == [s.tick] &&
            if Listening(s.punch) then Answered(t, s.tick) else !IsCause(t.punches, s.tick)
  {
    var s := Run(now, before);
    Reachable(now, before);
    StepKeeps(s, a);
    QueuesNext(s, a);
    FateAtOnce(s, Step(s, a));
    if Listening(s.punch) {
      AnsweredForever(Step(s, a), after, s.tick);
    } else {
      LostForever(Step(s, a), after, s.tick);
    }
  }

  /** The keepalive worker's first send leads to a punch only when it lands after the
      first drain. */
  lemma FirstSendNeedsDrain(now: int, actions: seq<Action>, k: nat)
    requires var s := Run(now, actions);
             k < |s.punches| && s.keepSignal == Some(s.punches[k].cause)
    ensures var s := Run(now, actions);
            s.drains != [] && s.drains[0] < s.keepSignal.value
  {
    var s := Run(now, actions);
    Reachable(now, actions);
    assert PunchAt(s.punches, s.drains, s.tick, k);
  }

  /** A run in which it lands before: the drain throws it away and the puncher parks with
      nothing to do. */
  lemma FirstSendLost()
    ensures var s := Run(0, [KeepSend, Punch(DrainOne), Punch(DrainEnd), Punch(Arm)]);
            s.keepSignal == Some(0) && s.drained == {0} && s.punch == Parked && s.queue == []
  {
    var all := [KeepSend, Punch(DrainOne), Punch(DrainEnd), Punch(Arm)];
    assert all[..3] == [KeepSend, Punch(DrainOne), Punch(DrainEnd)];
    assert all[..3][..2] == [KeepSend, Punch(DrainOne)];
    assert all[..3][..2][..1] == [KeepSend];
    assert all[..3][..2][..1][..0] == [];
    assert Run(0, [KeepSend]) == Step(Init(0), KeepSend);
    assert Run(0, all[..3][..2]) == Step(Run(0, [KeepSend]), Punch(DrainOne));
    assert Run(0, all[..3]) == Step(Run(0, all[..3][..2]), Punch(DrainEnd));
  }

  predicate AboutToSend(s: State, i: nat) {
    i in s.calls && (s.calls[i].EmptySend? || s.calls[i].Sending?)
  }

  /** The gate: a call goes on to signal only when it finds the puncher parked, or just
      past its receive, or gone. */
  lemma GateMeansParked(now: int, actions: seq<Action>, i: nat, c: CallAction)
    requires var s := Run(now, actions); !AboutToSend(s, i) && AboutToSend(CallStep(s, i, c), i)
    ensures var s := Run(now, actions); s.punch.Parked? || s.punch.Received? || s.punch.Stopped?
  {
    Reachable(now, actions);
    OnlyArmedSends(Run(now, actions), i, c);
  }

  lemma OnlyArmedSends(s: State, i: nat, c: CallAction)
    requires !AboutToSend(s, i) && AboutToSend(CallStep(s, i, c), i)
    ensures s.armed
  {
  }
}
