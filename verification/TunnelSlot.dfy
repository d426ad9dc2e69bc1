/** What every interleaving of the tunnel tasks keeps about sessions: which one is in
    the slot, which are closed and why, and who evicted which. */
module TunnelSlot {
  import opened Wrappers
  import opened Tunnel

  /** The session a call is concerned with, once it has one. */
  function SessionOf(pc: CallPc): Option<nat> {
    match pc
    case Opening(x, _) => Some(x)
    case Closing(x, _, _) => Some(x)
    case Clearing(x) => Some(x)
    case Cleared(x) => Some(x)
    case Sending(x) => Some(x)
    case _ => None
  }

  /** A call that has evicted a session and may still signal for it. */
  predicate Evictor(pc: CallPc) {
    pc.Cleared? || pc.Sending?
  }

  /** x is a session that has been in the slot. */
  predicate Known(s: State, x: nat) {
    x < s.nextSession && (s.punch.Swapping? ==> x != s.punch.made)
  }

  /** What holds of call i wherever it is. */
  ghost predicate CallInv(s: State, i: nat) {
    i in s.calls ==>
      var pc := s.calls[i];
      && (SessionOf(pc).Some? ==> Known(s, SessionOf(pc).value))
      && (pc.Closing? ==> Condemns(pc.error, pc.closeOnTimeout))
      && (pc.Clearing? ==> pc.session in s.closed)
      && (Evictor(pc) ==> s.evictions[pc.session] == 1 && s.repunches[pc.session] == 0)
  }

  /** Two calls never both own the eviction of one session. */
  ghost predicate Apart(s: State, i: nat, j: nat) {
    i != j && i in s.calls && j in s.calls && Evictor(s.calls[i]) && Evictor(s.calls[j]) ==>
      s.calls[i].session != s.calls[j].session
  }

  /** What holds of session x. */
  ghost predicate SessionInv(s: State, x: nat) {
    && (x in s.closed ==> Known(s, x))
    && (s.evictions[x] > 0 ==> x in s.closed)
    && s.evictions[x] <= 1
    && s.repunches[x] <= s.evictions[x]
    && (s.slot == Some(x) ==> Known(s, x) && s.evictions[x] == 0)
  }

  ghost predicate TaskInv(s: State) {
    && (s.punch.Swapping? ==> s.punch.made < s.nextSession)
    && (s.punch.ClosingOld? ==> Known(s, s.punch.prior) && s.slot != Some(s.punch.prior))
  }

  ghost predicate SlotInv(s: State) {
    && (forall i :: CallInv(s, i))
    && (forall i, j :: Apart(s, i, j))
    && (forall x :: SessionInv(s, x))
    && TaskInv(s)
  }

  // ----- one step of a call

  /** t is s except that call i moved and the channel may hold another signal. */
  ghost predicate Moved(s: State, t: State, i: nat) {
    && t.slot == s.slot && t.closed == s.closed && t.evictions == s.evictions && t.repunches == s.repunches
    && t.nextSession == s.nextSession && t.punch == s.punch
    && i in t.calls
    && t.calls == s.calls[i := t.calls[i]]
  }

  /** A move keeps the invariant when the call's new place satisfies it. */
  lemma MovedKeeps(s: State, t: State, i: nat)
    requires SlotInv(s) && Moved(s, t, i)
    requires CallInv(t, i)
    requires Evictor(t.calls[i]) ==> i in s.calls && Evictor(s.calls[i]) && s.calls[i].session == t.calls[i].session
    ensures SlotInv(t)
  {
    forall j ensures CallInv(t, j) {
      assert CallInv(s, j);
    }
    forall j, k ensures Apart(t, j, k) {
      assert Apart(s, j, k);
    }
    forall x ensures SessionInv(t, x) {
      assert SessionInv(s, x);
    }
  }

  lemma LookupKeeps(s: State, i: nat)
    requires SlotInv(s)
    ensures SlotInv(LookupStep(s, i))
  {
    var t := LookupStep(s, i);
    if t != s {
      if s.slot.Some? {
        assert SessionInv(s, s.slot.value);
      }
      MovedKeeps(s, t, i);
    }
  }

  lemma OpenNextAllowed(x: nat, flag: bool, result: OpenResult)
    ensures var pc := OpenNext(x, flag, result);
            pc.Returned? || (pc.Closing? && pc.session == x && pc.closeOnTimeout == flag && Condemns(pc.error, flag))
  {
  }

  lemma OpenDoneKeeps(s: State, i: nat, result: OpenResult)
    requires SlotInv(s)
    ensures SlotInv(OpenDoneStep(s, i, result))
  {
    var t := OpenDoneStep(s, i, result);
    if i in s.calls && s.calls[i].Opening? {
      assert CallInv(s, i);
      OpenNextAllowed(s.calls[i].session, s.calls[i].closeOnTimeout, result);
      MovedKeeps(s, t, i);
    }
  }

  lemma EmptyKeeps(s: State, i: nat)
    requires SlotInv(s)
    ensures SlotInv(EmptyLoadStep(s, i)) && SlotInv(EmptySendStep(s, i))
  {
    if At(s, i, Empty) {
      MovedKeeps(s, EmptyLoadStep(s, i), i);
    }
    if At(s, i, EmptySend) {
      MovedKeeps(s, EmptySendStep(s, i), i);
    }
  }

  lemma LoadKeeps(s: State, i: nat)
    requires SlotInv(s)
    ensures SlotInv(LoadStep(s, i))
  {
    if i in s.calls && s.calls[i].Cleared? {
      assert CallInv(s, i);
      MovedKeeps(s, LoadStep(s, i), i);
    }
  }

  lemma SpawnKeeps(s: State, i: nat, flag: bool)
    requires SlotInv(s) && i !in s.calls
    ensures SlotInv(Goto(s, i, Begin(flag)))
  {
    MovedKeeps(s, Goto(s, i, Begin(flag)), i);
  }

  lemma CloseKeeps(s: State, i: nat)
    requires SlotInv(s)
    ensures SlotInv(CloseStep(s, i))
  {
    var t := CloseStep(s, i);
    if t != s {
      forall j ensures CallInv(t, j) {
        assert CallInv(s, j);
      }
      forall j, k ensures Apart(t, j, k) {
        assert Apart(s, j, k);
      }
      forall x ensures SessionInv(t, x) {
        assert SessionInv(s, x);
        assert CallInv(s, i);
      }
    }
  }

  lemma ClearKeeps(s: State, i: nat)
    requires SlotInv(s)
    ensures SlotInv(ClearStep(s, i))
  {
    var t := ClearStep(s, i);
    if i in s.calls && s.calls[i].Clearing? && s.lock.None? {
      var x := s.calls[i].session;
      assert CallInv(s, i);
      if s.slot == Some(x) {
        assert SessionInv(s, x);
        EvictKeeps(s, t, i, x);
      } else {
        MovedKeeps(s, t, i);
      }
    }
  }

  lemma EvictKeeps(s: State, t: State, i: nat, x: nat)
    requires SlotInv(s) && SessionInv(s, x) && s.slot == Some(x) && x in s.closed
    requires At(s, i, Clearing(x))
    requires t == Goto(s, i, Cleared(x)).(slot := None, evictions := s.evictions + multiset{x})
    ensures SlotInv(t)
  {
    forall j ensures CallInv(t, j) {
      assert CallInv(s, j);
    }
    forall j, k ensures Apart(t, j, k) {
      assert Apart(s, j, k) && CallInv(s, j) && CallInv(s, k);
    }
    forall y ensures SessionInv(t, y) {
      assert SessionInv(s, y);
    }
  }

  lemma SendKeeps(s: State, i: nat)
    requires SlotInv(s)
    ensures SlotInv(SendStep(s, i))
  {
    var t := SendStep(s, i);
    if i in s.calls && s.calls[i].Sending? {
      assert CallInv(s, i);
      forall j ensures CallInv(t, j) {
        assert CallInv(s, j) && Apart(s, i, j);
      }
      forall j, k ensures Apart(t, j, k) {
        assert Apart(s, j, k);
      }
      forall x ensures SessionInv(t, x) {
        assert SessionInv(s, x);
      }
    }
  }

  lemma CallKeeps(s: State, i: nat, c: CallAction)
    requires SlotInv(s)
    ensures SlotInv(CallStep(s, i, c))
  {
    match c
    case Spawn(flag) => if i !in s.calls { SpawnKeeps(s, i, flag); }
    case Lookup => LookupKeeps(s, i);
    case EmptyLoad => EmptyKeeps(s, i);
    case EmptyTrySend => EmptyKeeps(s, i);
    case OpenDone(result) => OpenDoneKeeps(s, i, result);
    case Close => CloseKeeps(s, i);
    case Clear => ClearKeeps(s, i);
    case Load => LoadKeeps(s, i);
    case TrySend => SendKeeps(s, i);
  }

  /** The puncher moved: what is known and closed only grew, and the slot is as it was. */
  lemma PunchMoveKeeps(s: State, t: State)
    requires SlotInv(s) && TaskInv(t)
    requires t.slot == s.slot && t.calls == s.calls && t.evictions == s.evictions && t.repunches == s.repunches
    requires s.closed <= t.closed && (forall x :: Known(s, x) ==> Known(t, x))
    requires forall x :: x in t.closed && x !in s.closed ==> Known(t, x)
    ensures SlotInv(t)
  {
    forall i ensures CallInv(t, i) {
      assert CallInv(s, i);
    }
    forall i, j ensures Apart(t, i, j) {
      assert Apart(s, i, j);
    }
    forall x ensures SessionInv(t, x) {
      assert SessionInv(s, x);
    }
  }

  lemma SwapKeeps(s: State)
    requires SlotInv(s)
    ensures SlotInv(PunchStep(s, Swap))
  {
    var t := PunchStep(s, Swap);
    if s.slot.Some? {
      assert SessionInv(s, s.slot.value);
    }
    forall i ensures CallInv(t, i) {
      assert CallInv(s, i);
    }
    forall i, j ensures Apart(t, i, j) {
      assert Apart(s, i, j);
    }
    forall x ensures SessionInv(t, x) {
      assert SessionInv(s, x);
    }
  }

  lemma MadeKeeps(s: State)
    requires SlotInv(s)
    ensures SlotInv(PunchStep(s, PunchOk))
  {
    PunchMoveKeeps(s, PunchStep(s, PunchOk));
  }

  lemma ReplacedKeeps(s: State)
    requires SlotInv(s)
    ensures SlotInv(PunchStep(s, CloseOld))
  {
    PunchMoveKeeps(s, PunchStep(s, CloseOld));
  }

  lemma WaitingKeeps(s: State, p: PunchAction)
    requires SlotInv(s) && p in {DrainOne, DrainEnd, Arm, Receive, Disarm}
    ensures SlotInv(PunchStep(s, p))
  {
    PunchMoveKeeps(s, PunchStep(s, p));
  }

  lemma PunchingKeeps(s: State, p: PunchAction)
    requires SlotInv(s) && p in {StartPunch, PunchFail, RestOver, Cancel}
    ensures SlotInv(PunchStep(s, p))
  {
    PunchMoveKeeps(s, PunchStep(s, p));
  }

  lemma PunchKeeps(s: State, p: PunchAction)
    requires SlotInv(s)
    ensures SlotInv(PunchStep(s, p))
  {
    match p {
      case Swap => SwapKeeps(s);
      case PunchOk => MadeKeeps(s);
      case CloseOld => ReplacedKeeps(s);
      case StartPunch => PunchingKeeps(s, p);
      case PunchFail => PunchingKeeps(s, p);
      case RestOver => PunchingKeeps(s, p);
      case Cancel => PunchingKeeps(s, p);
      case _ => WaitingKeeps(s, p);
    }
  }

  lemma StepKeeps(s: State, a: Action)
    requires SlotInv(s)
    ensures SlotInv(Step(s, a))
  {
    match a
    case Pass(_) => UnmovedKeeps(s, Step(s, a));
    case KeepSend => UnmovedKeeps(s, Step(s, a));
    case Call(i, c) => CallKeeps(s, i, c);
    case Punch(p) => PunchKeeps(s, p);
  }

  lemma UnmovedKeeps(s: State, t: State)
    requires SlotInv(s)
    requires t.slot == s.slot && t.closed == s.closed && t.evictions == s.evictions && t.repunches == s.repunches
    requires t.nextSession == s.nextSession && t.punch == s.punch && t.calls == s.calls
    ensures SlotInv(t)
  {
    forall i ensures CallInv(t, i) {
      assert CallInv(s, i);
    }
    forall i, j ensures Apart(t, i, j) {
      assert Apart(s, i, j);
    }
    forall x ensures SessionInv(t, x) {
      assert SessionInv(s, x);
    }
  }

  lemma {:induction false} Reachable(now: int, actions: seq<Action>)
    ensures SlotInv(Run(now, actions))
  {
    if actions != [] {
      Reachable(now, actions[..|actions| - 1]);
      StepKeeps(Run(now, actions[..|actions| - 1]), actions[|actions| - 1]);
    }
  }

  // ----- closed sessions leave the slot

  /** Call i has closed x and not yet looked at the slot again. */
  predicate BetweenCloseAndClear(s: State, i: nat, x: nat) {
    At(s, i, Clearing(x))
  }

  /** A closed session is in the slot only while some call is between closing it and
      clearing it. */
  ghost predicate ClosedIsLeaving(s: State) {
    s.slot.Some? && s.slot.value in s.closed ==> exists i :: BetweenCloseAndClear(s, i, s.slot.value)
  }

  /** Nothing was closed or evicted, and no call started or ended clearing. */
  ghost predicate Quiet(s: State, t: State) {
    && t.closures == s.closures && t.closed == s.closed && t.evictions == s.evictions
    && (forall i, x :: BetweenCloseAndClear(t, i, x) <==> BetweenCloseAndClear(s, i, x))
  }

  /** One call moved, neither from nor to clearing. */
  lemma QuietMove(s: State, t: State, i: nat)
    requires t.closures == s.closures && t.closed == s.closed && t.evictions == s.evictions
    requires i in t.calls && t.calls == s.calls[i := t.calls[i]]
    requires !t.calls[i].Clearing? && (i in s.calls ==> !s.calls[i].Clearing?)
    ensures Quiet(s, t)
  {
  }

  lemma QuietOpenDone(s: State, i: nat, result: OpenResult)
    ensures Quiet(s, OpenDoneStep(s, i, result)) && OpenDoneStep(s, i, result).slot == s.slot
  {
    if i in s.calls && s.calls[i].Opening? {
      OpenNextAllowed(s.calls[i].session, s.calls[i].closeOnTimeout, result);
      QuietMove(s, OpenDoneStep(s, i, result), i);
    }
  }

  lemma QuietLooks(s: State, i: nat)
    ensures Quiet(s, LookupStep(s, i)) && LookupStep(s, i).slot == s.slot
    ensures Quiet(s, EmptyLoadStep(s, i)) && EmptyLoadStep(s, i).slot == s.slot
    ensures Quiet(s, LoadStep(s, i)) && LoadStep(s, i).slot == s.slot
  {
  }

  lemma QuietSends(s: State, i: nat)
    ensures Quiet(s, EmptySendStep(s, i)) && EmptySendStep(s, i).slot == s.slot
    ensures Quiet(s, SendStep(s, i)) && SendStep(s, i).slot == s.slot
  {
  }

  lemma QuietCall(s: State, i: nat, c: CallAction)
    requires !c.Close? && !c.Clear?
    ensures Quiet(s, CallStep(s, i, c))
    ensures CallStep(s, i, c).slot == s.slot
  {
    match c
    case Spawn(flag) => if i !in s.calls { QuietMove(s, CallStep(s, i, c), i); }
    case OpenDone(result) => QuietOpenDone(s, i, result);
    case EmptyTrySend => QuietSends(s, i);
    case TrySend => QuietSends(s, i);
    case _ => QuietLooks(s, i);
  }

  lemma QuietPunch(s: State, p: PunchAction)
    requires !p.CloseOld?
    ensures Quiet(s, PunchStep(s, p))
    ensures !p.Swap? ==> PunchStep(s, p).slot == s.slot
  {
  }

  lemma QuietLeaving(s: State, t: State)
    requires ClosedIsLeaving(s) && Quiet(s, t)
    requires t.slot == s.slot || (t.slot.Some? && t.slot.value !in s.closed)
    ensures ClosedIsLeaving(t)
  {
    if t.slot.Some? && t.slot.value in t.closed {
      var j :| BetweenCloseAndClear(s, j, t.slot.value);
      assert BetweenCloseAndClear(t, j, t.slot.value);
    }
  }

  lemma CloseLeaving(s: State, i: nat)
    requires ClosedIsLeaving(s)
    ensures ClosedIsLeaving(CloseStep(s, i))
  {
    var t := CloseStep(s, i);
    if t.slot.Some? && t.slot.value in t.closed {
      var x := t.slot.value;
      if x in s.closed {
        var j :| BetweenCloseAndClear(s, j, x);
        assert BetweenCloseAndClear(t, j, x);
      } else {
        assert BetweenCloseAndClear(t, i, x);
      }
    }
  }

  lemma ClearLeaving(s: State, i: nat)
    requires ClosedIsLeaving(s)
    ensures ClosedIsLeaving(ClearStep(s, i))
  {
    var t := ClearStep(s, i);
    if t.slot.Some? && t.slot.value in t.closed {
      var j :| BetweenCloseAndClear(s, j, t.slot.value);
      assert BetweenCloseAndClear(t, j, t.slot.value);
    }
  }

  lemma ClosedCall(s: State, i: nat, c: CallAction)
    requires ClosedIsLeaving(s)
    ensures ClosedIsLeaving(CallStep(s, i, c))
  {
    if c.Close? {
      CloseLeaving(s, i);
    } else if c.Clear? {
      ClearLeaving(s, i);
    } else {
      QuietCall(s, i, c);
      QuietLeaving(s, CallStep(s, i, c));
    }
  }

  lemma ClosedPunch(s: State, p: PunchAction)
    requires SlotInv(s) && ClosedIsLeaving(s)
    ensures ClosedIsLeaving(PunchStep(s, p))
  {
    var t := PunchStep(s, p);
    if p.CloseOld? {
      if t.slot.Some? && t.slot.value in t.closed {
        var j :| BetweenCloseAndClear(s, j, t.slot.value);
        assert BetweenCloseAndClear(t, j, t.slot.value);
      }
    } else {
      QuietPunch(s, p);
      if p.Swap? && s.punch.Swapping? {
        assert SessionInv(s, s.punch.made);
      }
      QuietLeaving(s, t);
    }
  }

  lemma {:induction false} ClosedSessionsLeave(now: int, actions: seq<Action>)
    ensures ClosedIsLeaving(Run(now, actions))
  {
    if actions != [] {
      var s := Run(now, actions[..|actions| - 1]);
      ClosedSessionsLeave(now, actions[..|actions| - 1]);
      Reachable(now, actions[..|actions| - 1]);
      match actions[|actions| - 1]
      case Pass(_) => QuietLeaving(s, Run(now, actions));
      case KeepSend => QuietLeaving(s, Run(now, actions));
      case Call(i, c) => ClosedCall(s, i, c);
      case Punch(p) => ClosedPunch(s, p);
    }
  }

  // ----- why sessions close

  /** x was closed after an error, seen on x itself, that condemns it. */
  ghost predicate FailedIn(closures: set<Closure>, x: nat) {
    exists c :: c in closures && c.Failed? && c.session == x
  }

  ghost predicate FailedFor(s: State, x: nat) {
    FailedIn(s.closures, x)
  }

  ghost predicate ClosedIn(closures: set<Closure>, x: nat) {
    exists c :: c in closures && c.session == x
  }

  ghost predicate Explained(s: State, x: nat) {
    x in s.closed ==> ClosedIn(s.closures, x)
  }

  ghost predicate EvictionExplained(s: State, x: nat) {
    s.evictions[x] > 0 ==> FailedFor(s, x)
  }

  ghost predicate ClosureAllowed(c: Closure) {
    c.Failed? ==> Condemns(c.error, c.closeOnTimeout)
  }

  ghost predicate ClearingExplained(s: State, i: nat) {
    i in s.calls && s.calls[i].Clearing? ==> FailedFor(s, s.calls[i].session)
  }

  ghost predicate CauseInv(s: State) {
    && (forall c :: c in s.closures ==> ClosureAllowed(c))
    && (forall x :: Explained(s, x))
    && (forall x :: EvictionExplained(s, x))
    && (forall i :: ClearingExplained(s, i))
  }

  /** Closures are never forgotten. */
  lemma FailedMonotone(s: State, t: State, x: nat)
    requires s.closures <= t.closures && FailedFor(s, x)
    ensures FailedFor(t, x)
  {
    var c :| c in s.closures && c.Failed? && c.session == x;
    assert c in t.closures;
  }

  lemma {:induction false} CauseQuiet(s: State, t: State)
    requires CauseInv(s) && Quiet(s, t)
    ensures CauseInv(t)
  {
    forall x ensures Explained(t, x) && EvictionExplained(t, x) {
      assert Explained(s, x) && EvictionExplained(s, x);
    }
    forall i ensures ClearingExplained(t, i) {
      if i in t.calls && t.calls[i].Clearing? {
        assert BetweenCloseAndClear(t, i, t.calls[i].session);
        assert BetweenCloseAndClear(s, i, t.calls[i].session);
        assert ClearingExplained(s, i);
      }
    }
  }

  /** A closure is added for x. */
  lemma CauseClosed(s: State, t: State, c: Closure)
    requires CauseInv(s) && ClosureAllowed(c)
    requires t.closures == s.closures + {c} && t.closed == s.closed + {c.session} && t.evictions == s.evictions
    requires forall i :: i in t.calls && t.calls[i].Clearing? ==>
               At(s, i, t.calls[i]) || (c.Failed? && t.calls[i].session == c.session)
    ensures CauseInv(t)
  {
    assert c in t.closures;
    forall x ensures Explained(t, x) && EvictionExplained(t, x) {
      assert Explained(s, x) && EvictionExplained(s, x);
      if FailedFor(s, x) {
        FailedMonotone(s, t, x);
      }
    }
    forall i ensures ClearingExplained(t, i) {
      assert ClearingExplained(s, i);
      if i in t.calls && t.calls[i].Clearing? && At(s, i, t.calls[i]) {
        FailedMonotone(s, t, t.calls[i].session);
      }
    }
  }

  lemma {:induction false} CauseClear(s: State, i: nat)
    requires CauseInv(s)
    ensures CauseInv(ClearStep(s, i))
  {
    var t := ClearStep(s, i);
    forall x ensures Explained(t, x) && EvictionExplained(t, x) {
      assert Explained(s, x) && EvictionExplained(s, x) && ClearingExplained(s, i);
    }
    forall j ensures ClearingExplained(t, j) {
      assert ClearingExplained(s, j);
    }
  }

  lemma CauseCall(s: State, i: nat, c: CallAction)
    requires SlotInv(s) && CauseInv(s)
    ensures CauseInv(CallStep(s, i, c))
  {
    if c.Close? {
      if i in s.calls && s.calls[i].Closing? {
        var pc := s.calls[i];
        assert CallInv(s, i);
        CauseClosed(s, CloseStep(s, i), Failed(pc.session, pc.error, pc.closeOnTimeout));
      }
    } else if c.Clear? {
      CauseClear(s, i);
    } else {
      QuietCall(s, i, c);
      CauseQuiet(s, CallStep(s, i, c));
    }
  }

  lemma CausePunch(s: State, p: PunchAction)
    requires CauseInv(s)
    ensures CauseInv(PunchStep(s, p))
  {
    if p.CloseOld? {
      if s.punch.ClosingOld? {
        CauseClosed(s, PunchStep(s, p), Replaced(s.punch.prior));
      }
    } else {
      QuietPunch(s, p);
      CauseQuiet(s, PunchStep(s, p));
    }
  }

  lemma {:induction false} ReachableCauses(now: int, actions: seq<Action>)
    ensures CauseInv(Run(now, actions))
  {
    if actions != [] {
      var s := Run(now, actions[..|actions| - 1]);
      ReachableCauses(now, actions[..|actions| - 1]);
      Reachable(now, actions[..|actions| - 1]);
      match actions[|actions| - 1]
      case Pass(_) => CauseQuiet(s, Run(now, actions));
      case KeepSend => CauseQuiet(s, Run(now, actions));
      case Call(i, c) => CauseCall(s, i, c);
      case Punch(p) => CausePunch(s, p);
    }
  }

  // ----- no session is forgotten

  /** A session that has been in the slot is still there, or closed, or about to be. */
  ghost predicate Kept(s: State, x: nat) {
    Known(s, x) ==> s.slot == Some(x) || x in s.closed || (s.punch.ClosingOld? && s.punch.prior == x)
  }

  lemma KeptCall(s: State, i: nat, c: CallAction, x: nat)
    requires SlotInv(s) && Kept(s, x)
    ensures Kept(CallStep(s, i, c), x)
  {
    assert CallInv(s, i);
    if !c.Close? && !c.Clear? {
      QuietCall(s, i, c);
    }
    CallLeavesTask(s, i, c);
  }

  lemma CallLeavesTask(s: State, i: nat, c: CallAction)
    ensures var t := CallStep(s, i, c); t.punch == s.punch && t.nextSession == s.nextSession
  {
  }

  /** Whatever leaves the slot is closed, by its evictor before it leaves or by the puncher
      that replaced it. */
  lemma {:induction false} NoneForgotten(now: int, actions: seq<Action>, x: nat)
    ensures Kept(Run(now, actions), x)
  {
    if actions != [] {
      var s := Run(now, actions[..|actions| - 1]);
      NoneForgotten(now, actions[..|actions| - 1], x);
      Reachable(now, actions[..|actions| - 1]);
      match actions[|actions| - 1]
      case Pass(_) =>
      case KeepSend =>
      case Call(i, c) => KeptCall(s, i, c, x);
      case Punch(p) => KeptPunch(s, p, x);
    }
  }

  lemma KeptPunch(s: State, p: PunchAction, x: nat)
    requires SlotInv(s) && Kept(s, x)
    ensures Kept(PunchStep(s, p), x)
  {
  }

  // ----- the results

  /** A capacity error never closes a session, whatever `close_on_timeout` is; a busy
      one closes it only when the caller treats timeouts as death; nothing else than
      such an error or a replacement closes one. */
  lemma CapacityNeverCloses(now: int, actions: seq<Action>, x: nat)
    requires x in Run(now, actions).closed
    ensures exists c :: c in Run(now, actions).closures && c.session == x
    ensures forall c :: c in Run(now, actions).closures && c.Failed? ==>
              !IsSessionCapacityError(c.error) && (IsBusyOpenError(c.error) ==> c.closeOnTimeout)
  {
    var s := Run(now, actions);
    ReachableCauses(now, actions);
    assert Explained(s, x);
    forall c | c in s.closures && c.Failed?
      ensures !IsSessionCapacityError(c.error) && (IsBusyOpenError(c.error) ==> c.closeOnTimeout)
    {
      assert ClosureAllowed(c);
      assert Condemns(c.error, c.closeOnTimeout);
    }
  }

  /** In every run each session is evicted at most once, by a call whose own
      `open_stream` on it failed, at most one re-punch signal is sent for it, and it is
      never in the slot again. */
  lemma EvictedOnce(now: int, actions: seq<Action>, x: nat)
    ensures var s := Run(now, actions);
            && s.repunches[x] <= s.evictions[x] <= 1
            && (s.evictions[x] == 1 ==> s.slot != Some(x) && x in s.closed && FailedFor(s, x))
  {
    var s := Run(now, actions);
    Reachable(now, actions);
    ReachableCauses(now, actions);
    assert SessionInv(s, x) && EvictionExplained(s, x);
  }

  lemma {:induction false} CallLoses(s: State, i: nat, c: CallAction)
    requires SlotInv(s) && CauseInv(s) && s.slot.Some? && CallStep(s, i, c).slot != s.slot
    ensures c.Clear? && At(s, i, Clearing(s.slot.value)) && CallStep(s, i, c).slot == None
    ensures s.slot.value in s.closed && FailedFor(s, s.slot.value)
  {
    if !c.Close? && !c.Clear? {
      QuietCall(s, i, c);
    }
    assert CallInv(s, i) && ClearingExplained(s, i);
  }

  lemma {:induction false} PunchLoses(s: State, p: PunchAction)
    requires SlotInv(s) && s.slot.Some? && PunchStep(s, p).slot != s.slot
    ensures p.Swap? && s.punch.Swapping? && s.slot.value != s.punch.made
    ensures PunchStep(s, p).slot == Some(s.punch.made)
    ensures PunchStep(s, p).punch == ClosingOld(s.punch.start, s.slot.value)
  {
    assert SessionInv(s, s.slot.value);
  }

  /** The slot loses a session only to a replacement punched later, or to a call that
      has closed that very session: a failure on an old one never evicts a newer one. */
  lemma {:induction false} OnlyOwnFailureEvicts(now: int, actions: seq<Action>, a: Action)
    requires var s := Run(now, actions); s.slot.Some? && Step(s, a).slot != s.slot
    ensures var s := Run(now, actions);
            var y := s.slot.value;
            || (a == Punch(Swap) && s.punch.Swapping? && Step(s, a).slot == Some(s.punch.made) && y != s.punch.made
                && Step(s, a).punch == ClosingOld(s.punch.start, y))
            || (a.Call? && a.action.Clear? && At(s, a.call, Clearing(y)) && Step(s, a).slot == None
                && y in s.closed && FailedFor(s, y))
  {
    var s := Run(now, actions);
    Reachable(now, actions);
    ReachableCauses(now, actions);
    if a.Call? {
      CallLoses(s, a.call, a.action);
    } else if a.Punch? {
      PunchLoses(s, a.punch);
    }
  }
}
