/** The XTCP visitor's tunnel slot as a state machine: one re-punch worker, the
    keepalive worker's first send, and any number of calls of `get_tunnel_conn`, each
    moving one atomic step at a time in any order, over a shared session slot, a
    one-place signal channel, the `armed` flag and a clock. */
module Tunnel {
  import opened Wrappers

  // ----- the error taxonomy

  predicate StartsWith(e: string, prefix: string) {
    prefix <= e
  }

  predicate OccursAt(e: string, part: string, i: nat) {
    i + |part| <= |e| && e[i..i + |part|] == part
  }

  predicate Contains(e: string, part: string) {
    exists i | 0 <= i <= |e| :: OccursAt(e, part, i)
  }

  predicate IsSessionCapacityError(e: string) {
    StartsWith(e, "yamux tunnel stream cap reached") || Contains(e, "tunnel session open queue full")
  }

  predicate IsBusyOpenError(e: string) {
    IsSessionCapacityError(e) || StartsWith(e, "timeout opening tunnel stream")
  }

  // ----- the state

  /** Least time between the starts of two punches, in milliseconds. */
  const MIN_PUNCH_INTERVAL := 10_000

  /** Where the re-punch worker is. */
  datatype PunchPc =
    | Draining
    | Arming
    | Parked
    | Received(cause: nat)
    | Disarmed(cause: nat)
    | Punching(start: int)
    | Swapping(start: int, made: nat)
    | ClosingOld(start: int, prior: nat)
    | Resting(start: int)
    | Stopped

  /** Where one call of `get_tunnel_conn` is. `Empty` and `EmptySend` hold the lock. */
  datatype CallPc =
    | Begin(closeOnTimeout: bool)
    | Empty
    | EmptySend
    | Opening(session: nat, closeOnTimeout: bool)
    | Closing(session: nat, error: string, closeOnTimeout: bool)
    | Clearing(session: nat)
    | Cleared(session: nat)
    | Sending(session: nat)
    | Returned

  /** Why a session was closed. */
  datatype Closure = Replaced(session: nat) | Failed(session: nat, error: string, closeOnTimeout: bool)

  /** One punch: when it started, the signal that caused it, the drain before it. */
  datatype PunchRecord = PunchRecord(start: int, cause: nat, drain: nat)

  /** Sessions and signals are numbered; `tick` orders signals and drains. `condemned` says
      on which session a call has met an error that condemns it. */
  datatype State = State(
    slot: Option<nat>,
    nextSession: nat,
    closed: set<nat>,
    closures: set<Closure>,
    evictions: multiset<nat>,
    repunches: multiset<nat>,
    lock: Option<nat>,
    queue: seq<nat>,
    armed: bool,
    now: int,
    tick: nat,
    punch: PunchPc,
    calls: map<nat, CallPc>,
    keepSignal: Option<nat>,
    drains: seq<nat>,
    drained: set<nat>,
    punches: seq<PunchRecord>,
    condemned: map<nat, nat>)

  function Init(now: int): State {
    State(None, 0, {}, {}, multiset{}, multiset{}, None, [], false, now, 0, Draining, map[], None, [], {}, [], map[])
  }

  // ----- the steps

  datatype OpenResult = Opened | Refused(error: string)

  datatype PunchAction =
    | DrainOne | DrainEnd | Arm | Receive | Disarm | StartPunch
    | PunchOk | PunchFail | Swap | CloseOld | RestOver | Cancel

  datatype CallAction =
    | Spawn(closeOnTimeout: bool)
    | Lookup | EmptyLoad | EmptyTrySend
    | OpenDone(result: OpenResult)
    | Close | Clear | Load | TrySend

  datatype Action =
    | Pass(time: nat)
    | KeepSend
    | Punch(punch: PunchAction)
    | Call(call: nat, action: CallAction)

  /** A non-blocking send on the one-place channel: lost when it is full. */
  function Enqueue(s: State): State {
    if |s.queue| < 1 then s.(queue := s.queue + [s.tick], tick := s.tick + 1) else s
  }

  predicate At(s: State, call: nat, pc: CallPc) {
    call in s.calls && s.calls[call] == pc
  }

  function Goto(s: State, call: nat, pc: CallPc): State {
    s.(calls := s.calls[call := pc])
  }

  /** The re-punch worker. A step that is not enabled leaves the state alone. */
  function PunchStep(s: State, a: PunchAction): State {
    match a
    case DrainOne =>
      if s.punch.Draining? && s.queue != [] then
        s.(queue := s.queue[1..], drained := s.drained + {s.queue[0]})
      else s
    case DrainEnd =>
      if s.punch.Draining? && s.queue == [] then
        s.(punch := Arming, drains := s.drains + [s.tick], tick := s.tick + 1)
      else s
    case Arm => if s.punch.Arming? then s.(punch := Parked, armed := true) else s
    case Receive =>
      if s.punch.Parked? && s.queue != [] then
        s.(punch := Received(s.queue[0]), queue := s.queue[1..])
      else s
    case Disarm => if s.punch.Received? then s.(punch := Disarmed(s.punch.cause), armed := false) else s
    case StartPunch =>
      if s.punch.Disarmed? && s.drains != [] then
        s.(punch := Punching(s.now),
           punches := s.punches + [PunchRecord(s.now, s.punch.cause, s.drains[|s.drains| - 1])])
      else s
    case PunchOk =>
      if s.punch.Punching? then
        s.(punch := Swapping(s.punch.start, s.nextSession), nextSession := s.nextSession + 1)
      else s
    case PunchFail => if s.punch.Punching? then s.(punch := Resting(s.punch.start)) else s
    case Swap =>
      if s.punch.Swapping? && s.lock.None? then
        s.(slot := Some(s.punch.made),
           punch := match s.slot
                    case Some(prior) => ClosingOld(s.punch.start, prior)
                    case None => Resting(s.punch.start))
      else s
    case CloseOld =>
      if s.punch.ClosingOld? then
        s.(closed := s.closed + {s.punch.prior}, closures := s.closures + {Replaced(s.punch.prior)},
           punch := Resting(s.punch.start))
      else s
    case RestOver =>
      if s.punch.Resting? && s.now - s.punch.start >= MIN_PUNCH_INTERVAL then s.(punch := Draining) else s
    case Cancel => if s.punch.Parked? || s.punch.Resting? then s.(punch := Stopped) else s
  }

  // One call of `get_tunnel_conn`, step by step.

  function LookupStep(s: State, i: nat): State {
    if i in s.calls && s.calls[i].Begin? && s.lock.None? then
      match s.slot
      case None => Goto(s, i, Empty).(lock := Some(i))
      case Some(x) => Goto(s, i, Opening(x, s.calls[i].closeOnTimeout))
    else s
  }

  function EmptyLoadStep(s: State, i: nat): State {
    if At(s, i, Empty) then
      if s.armed then Goto(s, i, EmptySend) else Goto(s, i, Returned).(lock := None)
    else s
  }

  function EmptySendStep(s: State, i: nat): State {
    if At(s, i, EmptySend) then Goto(Enqueue(s), i, Returned).(lock := None) else s
  }

  /** Whether an `open_stream` error closes the session. */
  predicate Condemns(e: string, closeOnTimeout: bool) {
    !IsSessionCapacityError(e) && (IsBusyOpenError(e) ==> closeOnTimeout)
  }

  /** Where the result of `open_stream` takes a call. */
  function OpenNext(x: nat, closeOnTimeout: bool, result: OpenResult): CallPc {
    match result
    case Opened => Returned
    case Refused(e) =>
      if IsSessionCapacityError(e) then Returned
      else if IsBusyOpenError(e) then
        if closeOnTimeout then Closing(x, e, closeOnTimeout) else Returned
      else Closing(x, e, closeOnTimeout)
  }

  function OpenDoneStep(s: State, i: nat, result: OpenResult): State {
    if i in s.calls && s.calls[i].Opening? then
      var pc := s.calls[i];
      Goto(s, i, OpenNext(pc.session, pc.closeOnTimeout, result))
        .(condemned := if result.Refused? && Condemns(result.error, pc.closeOnTimeout)
                       then s.condemned[i := pc.session] else s.condemned)
    else s
  }

  function CloseStep(s: State, i: nat): State {
    if i in s.calls && s.calls[i].Closing? then
      var pc := s.calls[i];
      Goto(s, i, Clearing(pc.session))
        .(closed := s.closed + {pc.session},
          closures := s.closures + {Failed(pc.session, pc.error, pc.closeOnTimeout)})
    else s
  }

  function ClearStep(s: State, i: nat): State {
    if i in s.calls && s.calls[i].Clearing? && s.lock.None? then
      var x := s.calls[i].session;
      if s.slot == Some(x) then
        Goto(s, i, Cleared(x)).(slot := None, evictions := s.evictions + multiset{x})
      else Goto(s, i, Returned)
    else s
  }

  function LoadStep(s: State, i: nat): State {
    if i in s.calls && s.calls[i].Cleared? then
      if s.armed then Goto(s, i, Sending(s.calls[i].session)) else Goto(s, i, Returned)
    else s
  }

  function SendStep(s: State, i: nat): State {
    if i in s.calls && s.calls[i].Sending? then
      Goto(Enqueue(s), i, Returned).(repunches := s.repunches + multiset{s.calls[i].session})
    else s
  }

  function CallStep(s: State, i: nat, c: CallAction): State {
    match c
    case Spawn(flag) => if i !in s.calls then Goto(s, i, Begin(flag)) else s
    case Lookup => LookupStep(s, i)
    case EmptyLoad => EmptyLoadStep(s, i)
    case EmptyTrySend => EmptySendStep(s, i)
    case OpenDone(result) => OpenDoneStep(s, i, result)
    case Close => CloseStep(s, i)
    case Clear => ClearStep(s, i)
    case Load => LoadStep(s, i)
    case TrySend => SendStep(s, i)
  }

  /** The keepalive worker's first send, which waits for room in the channel. */
  function KeepStep(s: State): State {
    if s.keepSignal.None? && |s.queue| < 1 then Enqueue(s).(keepSignal := Some(s.tick)) else s
  }

  function Step(s: State, a: Action): State {
    match a
    case Pass(time) => s.(now := s.now + time)
    case KeepSend => KeepStep(s)
    case Call(i, c) => CallStep(s, i, c)
    case Punch(p) => PunchStep(s, p)
  }

  function RunFrom(s: State, actions: seq<Action>): State {
    if actions == [] then s
    else Step(RunFrom(s, actions[..|actions| - 1]), actions[|actions| - 1])
  }

  /** Every run from the start: the reachable states. */
  function Run(now: int, actions: seq<Action>): State {
    RunFrom(Init(now), actions)
  }
}
