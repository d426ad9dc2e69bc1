/** What calls of `get_tunnel_conn` and the re-punch worker do get done: a condemned session
    is closed and out of the slot before the call returns, an open gate means a signal, and
    a signal means a punch. */
module TunnelCalls {
  import opened Wrappers
  import opened Tunnel
  import opened TunnelSlot

  /** An `open_stream` result sends a call to close its session exactly when it is an error
      that condemns it; every other result ends the call. */
  lemma OpenNextExact(x: nat, flag: bool, result: OpenResult)
    ensures OpenNext(x, flag, result)
         == if result.Refused? && Condemns(result.error, flag) then Closing(x, result.error, flag) else Returned
  {
  }

  lemma ContainsLetters(e: string, part: string, c: char)
    requires Contains(e, part) && c in part
    ensures c in e
  {
    var i :| 0 <= i <= |e| && OccursAt(e, part, i);
    var k :| 0 <= k < |part| && part[k] == c;
    assert e[i..i + |part|][k] == e[i + k];
  }

  /** The errors `open_stream` reports: running out of streams or of queue never condemns a
      session, a timeout does if the caller says so, a closed session always does. */
  lemma Taxonomy(before: string, rest: string, flag: bool)
    ensures !Condemns("yamux tunnel stream cap reached" + rest, flag)
    ensures !Condemns(before + "tunnel session open queue full" + rest, flag)
    ensures 'q' !in rest ==> (Condemns("timeout opening tunnel stream" + rest, flag) <==> flag)
    ensures Condemns("tunnel session closed", flag)
  {
    var full, late := "tunnel session open queue full", "timeout opening tunnel stream";
    assert OccursAt(before + full + rest, full, |before|);
    assert full[20] == 'q';
    assert (late + rest)[0] == 't';
    if Contains(late + rest, full) {
      ContainsLetters(late + rest, full, 'q');
    }
    if Contains("tunnel session closed", full) {
      ContainsLetters("tunnel session closed", full, 'q');
    }
  }

  /** The session a call works on is the one that was in the slot when it looked. */
  lemma SeesSlot(s: State, i: nat, c: CallAction)
    requires i in s.calls && SessionOf(s.calls[i]).None?
    requires var t := CallStep(s, i, c); SessionOf(t.calls[i]).Some?
    ensures var t := CallStep(s, i, c);
            s.slot.Some? && t.calls[i] == Opening(s.slot.value, s.calls[i].closeOnTimeout)
  {
  }

  // ----- condemned sessions

  /** Where a call is that has condemned x: on its way, past the closing with x closed,
      past the clearing with x out of the slot. */
  ghost predicate CondemnInv(s: State, i: nat) {
    i in s.condemned ==>
      var x := s.condemned[i];
      && i in s.calls && Known(s, x)
      && (s.calls[i].Closing? || s.calls[i].Clearing? || Evictor(s.calls[i]) || s.calls[i].Returned?)
      && (!s.calls[i].Returned? ==> s.calls[i].session == x)
      && (!s.calls[i].Closing? ==> x in s.closed)
      && (Evictor(s.calls[i]) || s.calls[i].Returned? ==> s.slot != Some(x))
  }

  ghost predicate AllCondemned(s: State) {
    forall i :: CondemnInv(s, i)
  }

  /** The slot never takes back a session that has left it. */
  lemma {:induction false} NeverBack(s: State, p: PunchAction, x: nat)
    requires SlotInv(s) && Known(s, x) && s.slot != Some(x)
    ensures PunchStep(s, p).slot != Some(x)
  {
  }

  lemma {:induction false} KnownStays(s: State, p: PunchAction, x: nat)
    requires SlotInv(s) && Known(s, x)
    ensures Known(PunchStep(s, p), x)
  {
  }

  lemma {:induction false} PunchLeavesCalls(s: State, p: PunchAction)
    ensures PunchStep(s, p).calls == s.calls
  {
  }

  lemma {:induction false} PunchLeavesCondemned(s: State, p: PunchAction)
    ensures PunchStep(s, p).condemned == s.condemned
  {
  }

  lemma {:induction false} PunchKeepsClosed(s: State, p: PunchAction)
    ensures s.closed <= PunchStep(s, p).closed
  {
  }

  lemma {:induction false} PunchCondemned(s: State, p: PunchAction)
    requires SlotInv(s) && AllCondemned(s)
    ensures AllCondemned(PunchStep(s, p))
  {
    var t := PunchStep(s, p);
    PunchLeavesCalls(s, p);
    PunchLeavesCondemned(s, p);
    PunchKeepsClosed(s, p);
    forall i ensures CondemnInv(t, i) {
      assert CondemnInv(s, i);
      if i in s.condemned {
        KnownStays(s, p, s.condemned[i]);
        if s.slot != Some(s.condemned[i]) {
          NeverBack(s, p, s.condemned[i]);
        }
      }
    }
  }

  /** Call i moved and nothing else that matters here did. */
  lemma {:induction false} MovedCondemned(s: State, t: State, i: nat)
    requires AllCondemned(s) && CondemnInv(t, i)
    requires t.nextSession == s.nextSession && t.punch == s.punch && s.closed <= t.closed
    requires t.slot == s.slot || t.slot == None
    requires forall j :: j != i ==> (j in t.calls <==> j in s.calls) && (j in s.calls ==> t.calls[j] == s.calls[j])
    requires forall j :: j != i ==>
               (j in t.condemned <==> j in s.condemned) && (j in s.condemned ==> t.condemned[j] == s.condemned[j])
    ensures AllCondemned(t)
  {
    forall j ensures CondemnInv(t, j) {
      assert CondemnInv(s, j);
    }
  }

  lemma {:induction false} OpenCondemned(s: State, i: nat, result: OpenResult)
    requires SlotInv(s) && AllCondemned(s)
    ensures AllCondemned(OpenDoneStep(s, i, result))
  {
    assert CondemnInv(s, i) && CallInv(s, i);
    if i in s.calls && s.calls[i].Opening? {
      var pc, t := s.calls[i], OpenDoneStep(s, i, result);
      OpenNextExact(pc.session, pc.closeOnTimeout, result);
      OpenedInv(s, t, i, pc.session);
      MovedCondemned(s, t, i);
    }
  }

  lemma {:induction false} OpenedInv(s: State, t: State, i: nat, x: nat)
    requires CondemnInv(s, i) && Known(s, x) && i in s.calls && s.calls[i].Opening?
    requires t.nextSession == s.nextSession && t.punch == s.punch && i in t.calls
    requires (t.calls[i].Closing? && t.calls[i].session == x && i in t.condemned && t.condemned[i] == x)
             || (t.calls[i].Returned? && t.condemned == s.condemned)
    ensures CondemnInv(t, i)
  {
  }

  lemma {:induction false} CloseCondemned(s: State, i: nat)
    requires AllCondemned(s)
    ensures AllCondemned(CloseStep(s, i)) && AllCondemned(ClearStep(s, i))
  {
    assert CondemnInv(s, i);
    if i in s.calls && s.calls[i].Closing? {
      MovedCondemned(s, CloseStep(s, i), i);
    }
    if i in s.calls && s.calls[i].Clearing? && s.lock.None? {
      MovedCondemned(s, ClearStep(s, i), i);
    }
  }

  lemma {:induction false} LookCondemned(s: State, i: nat)
    requires AllCondemned(s)
    ensures AllCondemned(LookupStep(s, i)) && AllCondemned(EmptyLoadStep(s, i)) && AllCondemned(LoadStep(s, i))
  {
    assert CondemnInv(s, i);
    if LookupStep(s, i) != s {
      MovedCondemned(s, LookupStep(s, i), i);
    }
    if EmptyLoadStep(s, i) != s {
      MovedCondemned(s, EmptyLoadStep(s, i), i);
    }
    if LoadStep(s, i) != s {
      MovedCondemned(s, LoadStep(s, i), i);
    }
  }

  lemma {:induction false} SendCondemned(s: State, i: nat)
    requires AllCondemned(s)
    ensures AllCondemned(SendStep(s, i)) && AllCondemned(EmptySendStep(s, i))
  {
    assert CondemnInv(s, i);
    if SendStep(s, i) != s {
      MovedCondemned(s, SendStep(s, i), i);
    }
    if EmptySendStep(s, i) != s {
      MovedCondemned(s, EmptySendStep(s, i), i);
    }
  }

  lemma {:induction false} CallCondemned(s: State, i: nat, c: CallAction)
    requires SlotInv(s) && AllCondemned(s)
    ensures AllCondemned(CallStep(s, i, c))
  {
    match c
    case Spawn(flag) =>
      assert CondemnInv(s, i);
      if i !in s.calls {
        MovedCondemned(s, CallStep(s, i, c), i);
      }
    case OpenDone(result) => OpenCondemned(s, i, result);
    case Close => CloseCondemned(s, i);
    case Clear => CloseCondemned(s, i);
    case EmptyTrySend => SendCondemned(s, i);
    case TrySend => SendCondemned(s, i);
    case _ => LookCondemned(s, i);
  }

  lemma {:induction false} SameCondemned(s: State, t: State)
    requires AllCondemned(s)
    requires t.nextSession == s.nextSession && t.punch == s.punch && t.closed == s.closed && t.slot == s.slot
    requires t.calls == s.calls && t.condemned == s.condemned
    ensures AllCondemned(t)
  {
    forall i ensures CondemnInv(t, i) {
      assert CondemnInv(s, i);
    }
  }

  lemma {:induction false} Condemned(now: int, actions: seq<Action>)
    ensures AllCondemned(Run(now, actions))
  {
    if actions != [] {
      var s := Run(now, actions[..|actions| - 1]);
      Condemned(now, actions[..|actions| - 1]);
      TunnelSlot.Reachable(now, actions[..|actions| - 1]);
      match actions[|actions| - 1]
      case Pass(_) => SameCondemned(s, Run(now, actions));
      case KeepSend => SameCondemned(s, Run(now, actions));
      case Call(i, c) => CallCondemned(s, i, c);
      case Punch(p) => PunchCondemned(s, p);
    }
  }

  /** In every run: a call whose `open_stream` failed with an error that condemns its
      session has that session closed, and out of the slot, by the time it returns. */
  lemma {:induction false} CondemnedLeaves(now: int, actions: seq<Action>, i: nat)
    requires var s := Run(now, actions); i in s.condemned && i in s.calls && s.calls[i].Returned?
    ensures var s := Run(now, actions); s.condemned[i] in s.closed && s.slot != Some(s.condemned[i])
  {
    Condemned(now, actions);
    assert CondemnInv(Run(now, actions), i);
  }

  // ----- an open gate means a signal

  /** With the gate open, an eviction leaves a signal waiting when its call is done. */
  lemma {:induction false} EvictionSignals(s: State, i: nat, x: nat)
    requires At(s, i, Cleared(x)) && s.armed && |s.queue| <= 1
    ensures var t := SendStep(LoadStep(s, i), i);
            && At(t, i, Returned) && |t.queue| == 1 && t.repunches == s.repunches + multiset{x}
            && (s.queue == [] ==> t.queue == [s.tick]) && (s.queue != [] ==> t.queue == s.queue)
  {
  }

  /** So does a call that finds no session. */
  lemma {:induction false} EmptySlotSignals(s: State, i: nat, flag: bool)
    requires At(s, i, Begin(flag)) && s.slot.None? && s.lock.None? && s.armed && |s.queue| <= 1
    ensures var t := EmptySendStep(EmptyLoadStep(LookupStep(s, i), i), i);
            && At(t, i, Returned) && t.lock == None && |t.queue| == 1
            && (s.queue == [] ==> t.queue == [s.tick]) && (s.queue != [] ==> t.queue == s.queue)
  {
  }

  /** With the gate shut neither sends anything. */
  lemma {:induction false} ShutGateSilent(s: State, i: nat, x: nat, flag: bool)
    requires !s.armed
    ensures At(s, i, Cleared(x)) ==> At(LoadStep(s, i), i, Returned) && LoadStep(s, i).queue == s.queue
    ensures At(s, i, Begin(flag)) && s.slot.None? && s.lock.None? ==>
              var t := EmptyLoadStep(LookupStep(s, i), i);
              At(t, i, Returned) && t.queue == s.queue && t.lock == None
  {
  }

  // ----- a signal means a punch

  lemma {:induction false} RunMore(s: State, actions: seq<Action>, a: Action)
    ensures RunFrom(s, actions + [a]) == Step(RunFrom(s, actions), a)
  {
    assert (actions + [a])[..|actions|] == actions;
  }

  lemma {:induction false} RunOne(s: State, a: Action)
    ensures RunFrom(s, [a]) == Step(s, a)
  {
    RunMore(s, [], a);
    assert [] + [a] == [a];
  }

  lemma {:induction false} LastApart<A>(first: seq<A>, second: seq<A>)
    requires second != []
    ensures var front, a := second[..|second| - 1], second[|second| - 1];
            second == front + [a] && first + second == (first + front) + [a]
  {
  }

  lemma {:induction false} RunThen(s: State, first: seq<Action>, second: seq<Action>)
    ensures RunFrom(s, first + second) == RunFrom(RunFrom(s, first), second)
  {
    if second == [] {
      assert first + second == first;
    } else {
      var front, a := second[..|second| - 1], second[|second| - 1];
      LastApart(first, second);
      RunThen(s, first, front);
      RunMore(s, first + front, a);
      RunMore(RunFrom(s, first), front, a);
    }
  }

  const TAKE: seq<Action> := [Punch(Receive), Punch(Disarm), Punch(StartPunch)]

  lemma {:induction false} RunThree(s: State, a: Action, b: Action, c: Action)
    ensures RunFrom(s, [a, b, c]) == Step(Step(Step(s, a), b), c)
  {
    RunOne(s, a);
    RunMore(s, [a], b);
    RunMore(s, [a, b], c);
    assert [a] + [b] == [a, b] && [a, b] + [c] == [a, b, c];
  }

  /** A parked worker that finds a signal starts a punch for it at once. */
  lemma {:induction false} SignalPunches(s: State, q: nat)
    requires s.punch.Parked? && s.queue == [q] && s.drains != []
    ensures var t := RunFrom(s, TAKE);
            && t.punches == s.punches + [PunchRecord(s.now, q, s.drains[|s.drains| - 1])]
            && t.punch == Punching(s.now) && t.queue == [] && !t.armed
            && t.now == s.now && t.drains == s.drains && t.slot == s.slot && t.lock == s.lock && t.calls == s.calls
            && t.nextSession == s.nextSession && t.tick == s.tick
  {
    RunThree(s, Punch(Receive), Punch(Disarm), Punch(StartPunch));
  }

  /** A punch that succeeds puts its session in the slot, and the one it replaces is closed. */
  lemma {:induction false} PunchInstalls(s: State)
    requires s.punch.Punching? && s.lock.None?
    ensures var t := RunFrom(s, [Punch(PunchOk), Punch(Swap), Punch(CloseOld)]);
            && t.slot == Some(s.nextSession) && t.punch == Resting(s.punch.start)
            && (s.slot.Some? ==> s.slot.value in t.closed)
  {
    RunThree(s, Punch(PunchOk), Punch(Swap), Punch(CloseOld));
    var s1 := PunchStep(s, PunchOk);
    assert s1.punch == Swapping(s.punch.start, s.nextSession) && s1.slot == s.slot && s1.lock.None?;
    SwapInstalls(s1);
  }

  lemma {:induction false} SwapInstalls(s: State)
    requires s.punch.Swapping? && s.lock.None?
    ensures var t := PunchStep(PunchStep(s, Swap), CloseOld);
            && t.slot == Some(s.punch.made) && t.punch == Resting(s.punch.start)
            && (s.slot.Some? ==> s.slot.value in t.closed)
  {
    var t := PunchStep(s, Swap);
    if s.slot.None? {
      assert t.punch == Resting(s.punch.start);
    } else {
      assert t.punch == ClosingOld(s.punch.start, s.slot.value);
    }
  }

  const REST: seq<Action> := [Punch(RestOver), Punch(DrainEnd), Punch(Arm)]

  /** Ten seconds after the start, and not before, the worker drains and parks again. */
  lemma {:induction false} RestsTenSeconds(s: State)
    requires s.punch.Resting? && s.queue == []
    ensures var t := RunFrom(s, REST);
            && (t.punch == Parked <==> s.now - s.punch.start >= 10_000)
            && (t.punch == Parked ==>
                  && t.armed && t.queue == [] && t.drains == s.drains + [s.tick] && t.now == s.now
                  && t.slot == s.slot && t.lock == s.lock && t.calls == s.calls && t.punches == s.punches)
  {
    RunThree(s, Punch(RestOver), Punch(DrainEnd), Punch(Arm));
    if s.now - s.punch.start < 10_000 {
      assert PunchStep(s, RestOver) == s && PunchStep(s, DrainEnd) == s;
    } else {
      assert PunchStep(s, RestOver) == s.(punch := Draining);
    }
  }

  const BEGIN: seq<Action> := [Punch(DrainEnd), Punch(Arm), KeepSend]
  const PAUSE: seq<Action> := [Punch(PunchFail), Pass(10_000), Call(0, Spawn(false))]
  const ASK: seq<Action> := [Call(0, Lookup), Call(0, EmptyLoad), Call(0, EmptyTrySend)]

  /** Nothing in the slot, nobody holding it, nothing queued. */
  predicate Bare(s: State) {
    s.slot == None && s.lock == None && s.queue == [] && s.drains != []
  }

  lemma {:induction false} FirstPunch(now: int)
    ensures var s := RunFrom(RunFrom(Init(now), BEGIN), TAKE);
            && Bare(s) && s.punch == Punching(now) && s.now == now && s.calls == map[]
            && |s.punches| == 1 && s.punches[0].start == now
  {
    RunThree(Init(now), Punch(DrainEnd), Punch(Arm), KeepSend);
    SignalPunches(RunFrom(Init(now), BEGIN), 1);
  }

  lemma {:induction false} Paused(s: State)
    requires Bare(s) && s.punch == Punching(s.now) && s.calls == map[]
    ensures var t := RunFrom(s, PAUSE);
            && Bare(t) && t.punch == Resting(s.now) && t.now == s.now + 10_000
            && At(t, 0, Begin(false)) && t.punches == s.punches
  {
    RunThree(s, Punch(PunchFail), Pass(10_000), Call(0, Spawn(false)));
  }

  lemma {:induction false} Asked(s: State)
    requires Bare(s) && s.punch.Parked? && s.armed && At(s, 0, Begin(false))
    ensures var t := RunFrom(s, ASK);
            && t.punch.Parked? && t.queue == [s.tick] && t.drains == s.drains
            && t.now == s.now && t.punches == s.punches
  {
    RunThree(s, Call(0, Lookup), Call(0, EmptyLoad), Call(0, EmptyTrySend));
    EmptySlotSignals(s, 0, false);
  }

  lemma {:induction false} SecondPunch(s: State)
    requires Bare(s) && s.punch.Resting? && s.now - s.punch.start >= 10_000 && At(s, 0, Begin(false))
    ensures var t := RunFrom(RunFrom(RunFrom(s, REST), ASK), TAKE);
            |t.punches| == |s.punches| + 1 && s.punches <= t.punches && t.punches[|s.punches|].start == s.now
  {
    RestsTenSeconds(s);
    var s1 := RunFrom(s, REST);
    Asked(s1);
    SignalPunches(RunFrom(s1, ASK), s1.tick);
  }

  ghost predicate TwoTenApart(s: State) {
    |s.punches| == 2 && s.punches[1].start - s.punches[0].start == 10_000
  }

  /** The spacing is exact: punches can start ten seconds apart to the millisecond. */
  lemma {:induction false} SpacingIsTight(now: int)
    ensures TwoTenApart(Run(now, BEGIN + TAKE + PAUSE + REST + ASK + TAKE))
  {
    var i := Init(now);
    FirstPunch(now);
    Paused(RunFrom(RunFrom(i, BEGIN), TAKE));
    SecondPunch(RunFrom(RunFrom(RunFrom(i, BEGIN), TAKE), PAUSE));
    RunThen(i, BEGIN, TAKE);
    RunThen(i, BEGIN + TAKE, PAUSE);
    RunThen(i, BEGIN + TAKE + PAUSE, REST);
    RunThen(i, BEGIN + TAKE + PAUSE + REST, ASK);
    RunThen(i, BEGIN + TAKE + PAUSE + REST + ASK, TAKE);
  }

  // ----- the end

  /** The worker has ended where s was: no punch since, and at most the slot emptied. */
  predicate Ended(s: State, t: State) {
    t.punch.Stopped? && t.punches == s.punches && (t.slot == s.slot || t.slot == None)
  }

  lemma {:induction false} EndedCall(s: State, t: State, i: nat, c: CallAction)
    requires Ended(s, t)
    ensures Ended(s, CallStep(t, i, c))
  {
    match c {
      case Spawn(_) =>
      case Lookup =>
      case EmptyLoad =>
      case EmptyTrySend =>
      case OpenDone(_) =>
      case Close =>
      case Clear =>
      case Load =>
      case TrySend =>
    }
  }

  lemma {:induction false} EndedPunch(t: State, p: PunchAction)
    requires t.punch.Stopped?
    ensures PunchStep(t, p) == t
  {
  }

  lemma {:induction false} EndedStep(s: State, t: State, a: Action)
    requires Ended(s, t)
    ensures Ended(s, Step(t, a))
  {
    match a {
      case Call(i, c) => EndedCall(s, t, i, c);
      case Punch(p) => EndedPunch(t, p);
      case Pass(_) =>
      case KeepSend =>
    }
  }

  lemma {:induction false} Cancelled(s: State)
    requires s.punch.Parked? || s.punch.Resting?
    ensures Ended(s, Step(s, Punch(Cancel)))
  {
  }

  /** A cancelled worker punches no more, whatever happens later. */
  lemma {:induction false} CancelEnds(s: State, later: seq<Action>)
    requires s.punch.Parked? || s.punch.Resting?
    ensures Ended(s, RunFrom(Step(s, Punch(Cancel)), later))
    decreases |later|
  {
    if later == [] {
      Cancelled(s);
    } else {
      var front := later[..|later| - 1];
      CancelEnds(s, front);
      EndedStep(s, RunFrom(Step(s, Punch(Cancel)), front), later[|later| - 1]);
    }
  }
}
