/** Whole runs of the cipher writer: any sequence of polls against any inner
    writer, what the caller has been credited, and what a flush may do while a
    write is waiting to be polled again. */
module CipherSession {
  import opened LittleEndian
  import opened StreamMode
  import opened Wrappers
  import opened CipherWriter

  datatype Event =
    | Write(buf: Bytes)
    | Flush
    | WriteAll(data: Bytes, cut: Option<nat>)
    | Shutdown

  datatype Session = Session(
    w: Writer,
    pipe: Pipe,
    accepted: Bytes,          // what the caller was told is written
    pending: Option<Bytes>,   // the buffer of a write that returned Pending
    opening: bool,            // that write was the first call on the writer
    over: bool)               // an error or a shutdown ended the session

  function Start(replies: seq<Reply>): Session {
    Session(FRESH, Pipe([], replies), [], None, false, false)
  }

  function Step(key: Key, iv: Block, s: Session, e: Event): Session {
    if s.over then s else
      match e
      case Write(buf) =>
        AfterWrite(s, PollWrite(key, iv, s.w, s.pipe, buf), buf)
      case Flush =>
        var t := PollFlush(iv, s.w, s.pipe);
        s.(w := t.w, pipe := t.pipe, over := t.poll.Error?)
      case WriteAll(data, cut) =>
        var t := WriteEncrypted(key, iv, s.w, s.pipe, data, cut);
        if t.poll.Error? then s.(w := t.w, pipe := t.pipe, over := true)
        else s.(w := t.w, pipe := t.pipe, accepted := s.accepted + data)
      case Shutdown =>
        var t := PollShutdown(s.w, s.pipe);
        s.(w := t.w, pipe := t.pipe, over := true)
  }

  /** What the caller makes of a `poll_write` turn. */
  function AfterWrite(s: Session, t: Turn, buf: Bytes): Session {
    match t.poll
    case Done(n) => Session(t.w, t.pipe, s.accepted + buf[..Min(n, |buf|)], None, false, false)
    case Blocked => Session(t.w, t.pipe, s.accepted, Some(buf), Opens(s), false)
    case Error => Session(t.w, t.pipe, s.accepted, s.pending, s.opening, true)
  }

  /** Whether a write made now is, or continues, the first call on the writer. */
  predicate Opens(s: Session) {
    if s.pending.Some? && s.pending.value != [] then s.opening else !s.w.ivSent
  }

  function Run(key: Key, iv: Block, replies: seq<Reply>, events: seq<Event>): Session {
    if events == [] then Start(replies)
    else Step(key, iv, Run(key, iv, replies, events[..|events| - 1]), events[|events| - 1])
  }

  // ----- the wire, for any caller

  /** The one thing asked of every caller: `write_encrypted` goes straight to the
      inner writer, so it must not overtake a parked buffer. `OvertakeExact` shows that
      nothing less will do; `PoliteIsOrderly` gives the same in terms the caller sees. */
  predicate Orderly(s: Session, e: Event) {
    e.WriteAll? && !s.over ==> Parked(s.w) == []
  }

  predicate OrderlyRun(key: Key, iv: Block, replies: seq<Reply>, events: seq<Event>) {
    events == [] ||
    (var front := events[..|events| - 1];
     OrderlyRun(key, iv, replies, front) && Orderly(Run(key, iv, replies, front), events[|events| - 1]))
  }

  ghost predicate WireInv(key: Key, iv: Block, s: Session) {
    && (!s.over ==> WireOk(key, iv, s.w, s.pipe))
    && s.pipe.wire <= Stream(key, iv, s.w.plain)
  }

  lemma StepWire(key: Key, iv: Block, s: Session, e: Event)
    requires WireInv(key, iv, s) && Orderly(s, e)
    ensures WireInv(key, iv, Step(key, iv, s, e))
  {
    if !s.over {
      match e
      case Write(buf) => PollWriteWire(key, iv, s.w, s.pipe, buf);
      case Flush => PollFlushWire(key, iv, s.w, s.pipe);
      case WriteAll(data, cut) => WriteEncryptedWire(key, iv, s.w, s.pipe, data, cut);
      case Shutdown => PollShutdownWire(key, iv, s.w, s.pipe);
    }
  }

  /** In every run, against every inner writer: while the session is open, the wire
      plus the parked remainder is the IV and the CFB ciphertext of everything
      encrypted so far, with at most one buffer parked; once an error or a discarding
      shutdown has ended it, the wire is still a prefix of that stream. */
  lemma {:induction false} WireTheorem(key: Key, iv: Block, replies: seq<Reply>, events: seq<Event>)
    requires OrderlyRun(key, iv, replies, events)
    ensures WireInv(key, iv, Run(key, iv, replies, events))
  {
    if events != [] {
      var front := events[..|events| - 1];
      WireTheorem(key, iv, replies, front);
      StepWire(key, iv, Run(key, iv, replies, front), events[|events| - 1]);
    }
  }

  // ----- overtaking a parked buffer

  lemma {:induction false} OvertakeBreaks(key: Key, iv: Block, s: Session, x: bv8)
    requires WireInv(key, iv, s) && !s.over && Parked(s.w) != []
    requires Cipher(key, s.w.plain, [x]) == [Xor8(Parked(s.w)[0], 1)]
    ensures !WireInv(key, iv, Step(key, iv, s, WriteAll([x], None)))
  {
    OtherByte(Parked(s.w)[0]);
    OvertakesParked(key, iv, s.w, s.pipe, [x]);
  }

  /** After every orderly run that is still open: one more `write_encrypted` keeps the
      wire right, whatever it is given, if and only if nothing is parked. */
  lemma {:induction false} OvertakeExact(key: Key, iv: Block, replies: seq<Reply>, events: seq<Event>)
    requires OrderlyRun(key, iv, replies, events) && !Run(key, iv, replies, events).over
    ensures var s := Run(key, iv, replies, events);
            (forall data, cut :: WireInv(key, iv, Step(key, iv, s, WriteAll(data, cut)))) <==> Parked(s.w) == []
  {
    WireTheorem(key, iv, replies, events);
    OvertakeAt(key, iv, Run(key, iv, replies, events));
  }

  lemma {:induction false} OvertakeAt(key: Key, iv: Block, s: Session)
    requires WireInv(key, iv, s) && !s.over
    ensures (forall data, cut :: WireInv(key, iv, Step(key, iv, s, WriteAll(data, cut)))) <==> Parked(s.w) == []
  {
    if Parked(s.w) == [] {
      forall data, cut ensures WireInv(key, iv, Step(key, iv, s, WriteAll(data, cut))) {
        StepWire(key, iv, s, WriteAll(data, cut));
      }
    } else {
      var x := CipherByte(key, s.w.plain, Xor8(Parked(s.w)[0], 1));
      OvertakeBreaks(key, iv, s, x);
    }
  }

  /** The smallest run that breaks it: a flush gets half of the IV out, and the payload
      goes out in its middle. The far side reads a wrong IV unless the ciphertext happens
      to be the byte it displaced. */
  lemma {:induction false} OvertakeRun(key: Key, iv: Block, x: bv8)
    ensures var s := Run(key, iv, [Ready(8)], [Flush, WriteAll([x], None)]);
            && !s.over && s.accepted == [x] && s.w.plain == [x]
            && s.pipe.wire == iv[..8] + Encrypt(key, [x])
            && (s.pipe.wire <= Stream(key, iv, s.w.plain) <==> Encrypt(key, [x])[0] == iv[8])
  {
    RunTwo(key, iv, [Ready(8)], Flush, WriteAll([x], None));
    HalfFlushed(key, iv);
    OvertakesHalf(key, iv, Step(key, iv, Start([Ready(8)]), Flush), x);
    HalfIv(iv, Encrypt(key, [x]));
  }

  lemma {:induction false} RunTwo(key: Key, iv: Block, replies: seq<Reply>, d: Event, e: Event)
    ensures Run(key, iv, replies, [d, e]) == Step(key, iv, Step(key, iv, Start(replies), d), e)
  {
    RunMore(key, iv, replies, [], d);
    RunMore(key, iv, replies, [d], e);
    assert [] + [d] == [d] && [d] + [e] == [d, e];
  }

  lemma {:induction false} HalfFlushed(key: Key, iv: Block)
    ensures var s := Step(key, iv, Start([Ready(8)]), Flush);
            && s.w == Writer(true, [], Some(iv), 8, 0, None, 0) && s.pipe.wire == iv[..8]
            && !s.over && s.accepted == []
  {
    assert [] + iv[..8] == iv[..8];
  }

  lemma {:induction false} OvertakesHalf(key: Key, iv: Block, s: Session, x: bv8)
    requires s.w == Writer(true, [], Some(iv), 8, 0, None, 0) && s.pipe.wire == iv[..8]
    requires !s.over && s.accepted == []
    ensures var t := Step(key, iv, s, WriteAll([x], None));
            && !t.over && t.accepted == [x] && t.w.plain == [x] && t.pipe.wire == iv[..8] + Encrypt(key, [x])
  {
    assert [] + [x] == [x];
    assert Encrypt(key, [x])[0..] == Encrypt(key, [x]);
    assert [] + Cipher(key, [], [x]) == Cipher(key, [], [x]);
  }

  lemma HalfIv(iv: Block, c: Bytes)
    requires |c| == 1
    ensures iv[..8] + c <= iv + c <==> c[0] == iv[8]
  {
    assert (iv[..8] + c)[8] == c[0] && (iv + c)[8] == iv[8];
    if c[0] == iv[8] {
      assert iv[..8] + c == (iv + c)[..9];
    }
  }

  /** What a call tells its caller. */
  function PollOf(key: Key, iv: Block, s: Session, e: Event): Poll {
    match e
    case Write(buf) => PollWrite(key, iv, s.w, s.pipe, buf).poll
    case Flush => PollFlush(iv, s.w, s.pipe).poll
    case WriteAll(data, cut) => WriteEncrypted(key, iv, s.w, s.pipe, data, cut).poll
    case Shutdown => PollShutdown(s.w, s.pipe).poll
  }

  /** `write_encrypted` is never called right after a poll that returned Pending. */
  predicate PoliteRun(key: Key, iv: Block, replies: seq<Reply>, events: seq<Event>) {
    events == [] ||
    (var front := events[..|events| - 1];
     && PoliteRun(key, iv, replies, front)
     && (events[|events| - 1].WriteAll? && front != [] ==>
           !PollOf(key, iv, Run(key, iv, replies, front[..|front| - 1]), front[|front| - 1]).Blocked?))
  }

  lemma {:induction false} UnparkedDone(key: Key, iv: Block, w: Writer, pipe: Pipe, buf: Bytes)
    requires w.first.None? && (w.claim > 0 || !w.ivSent ==> w.later.None?)
    requires WriteUnparked(key, iv, w, pipe, buf).poll.Done?
    ensures Parked(WriteUnparked(key, iv, w, pipe, buf).w) == []
  {}

  /** A write that is done leaves nothing parked. */
  lemma {:induction false} DoneUnparks(key: Key, iv: Block, w: Writer, pipe: Pipe, buf: Bytes)
    requires WireOk(key, iv, w, pipe) && PollWrite(key, iv, w, pipe, buf).poll.Done?
    ensures Parked(PollWrite(key, iv, w, pipe, buf).w) == []
  {
    if w.first.None? {
      UnparkedDone(key, iv, w, pipe, buf);
    } else if w.claim == 0 {
      var o := Offer(pipe, Rest(w.first.value, w.firstPos));
      UnparkedDone(key, iv, w.(first := None, firstPos := 0, claim := 0), o.pipe, buf);
    }
  }

  /** So does a flush. */
  lemma {:induction false} FlushedUnparks(key: Key, iv: Block, w: Writer, pipe: Pipe)
    requires WireOk(key, iv, w, pipe) && PollFlush(iv, w, pipe).poll.Done?
    ensures Parked(PollFlush(iv, w, pipe).w) == []
  {}

  lemma {:induction false} PoliteParksNothing(key: Key, iv: Block, replies: seq<Reply>, events: seq<Event>, e: Event)
    requires OrderlyRun(key, iv, replies, events) && Orderly(Run(key, iv, replies, events), e)
    requires !PollOf(key, iv, Run(key, iv, replies, events), e).Blocked?
    ensures var t := Step(key, iv, Run(key, iv, replies, events), e); t.over || Parked(t.w) == []
  {
    WireTheorem(key, iv, replies, events);
    var s := Run(key, iv, replies, events);
    if !s.over {
      StepUnparks(key, iv, s, e);
    }
  }

  lemma {:induction false} PoliteIsOrderly(key: Key, iv: Block, replies: seq<Reply>, events: seq<Event>)
    requires PoliteRun(key, iv, replies, events)
    ensures OrderlyRun(key, iv, replies, events)
  {
    if events != [] {
      var front, e := events[..|events| - 1], events[|events| - 1];
      PoliteIsOrderly(key, iv, replies, front);
      if e.WriteAll? && front != [] {
        PoliteParksNothing(key, iv, replies, front[..|front| - 1], front[|front| - 1]);
      }
    }
  }

  lemma {:induction false} StepUnparks(key: Key, iv: Block, s: Session, d: Event)
    requires WireInv(key, iv, s) && !s.over && Orderly(s, d) && !PollOf(key, iv, s, d).Blocked?
    ensures var t := Step(key, iv, s, d); t.over || Parked(t.w) == []
  {
    var t := Step(key, iv, s, d);
    if d.Write? && !t.over {
      DoneUnparks(key, iv, s.w, s.pipe, d.buf);
    } else if d.Flush? && !t.over {
      FlushedUnparks(key, iv, s.w, s.pipe);
    }
  }

  // ----- the credit given to the caller

  /** Plaintext bytes encrypted for a write that has not returned. */
  function Owed(w: Writer): nat {
    if w.later.Some? then |w.later.value| else w.claim
  }

  /** The caller's side: a re-poll starts with the same bytes; a flush does not come
      between a Pending write and its re-poll, unless that write opened the stream;
      `write_encrypted` is called with nothing in flight. */
  predicate Lawful(s: Session, e: Event) {
    match e
    case Write(buf) => s.pending.Some? ==> s.pending.value <= buf
    case Flush => s.pending.None? || s.opening
    case WriteAll(_, _) => s.over || (s.pending.None? && Parked(s.w) == [])
    case Shutdown => true
  }

  predicate LawfulRun(key: Key, iv: Block, replies: seq<Reply>, events: seq<Event>) {
    events == [] ||
    (var front := events[..|events| - 1];
     LawfulRun(key, iv, replies, front) && Lawful(Run(key, iv, replies, front), events[|events| - 1]))
  }

  /** The same in terms the caller sees: what was asked and what was answered. */
  predicate Courteous(s: Session, e: Event) {
    match e
    case Write(buf) => s.pending.Some? ==> s.pending.value <= buf
    case Flush => s.pending.None? || s.opening
    case WriteAll(_, _) => s.pending.None?
    case Shutdown => true
  }

  predicate CourteousRun(key: Key, iv: Block, replies: seq<Reply>, events: seq<Event>) {
    events == [] ||
    (var front := events[..|events| - 1];
     CourteousRun(key, iv, replies, front) && Courteous(Run(key, iv, replies, front), events[|events| - 1]))
  }

  /** A courteous caller that does not call `write_encrypted` right after Pending is lawful. */
  lemma {:induction false} PoliteIsLawful(key: Key, iv: Block, replies: seq<Reply>, events: seq<Event>)
    requires CourteousRun(key, iv, replies, events) && PoliteRun(key, iv, replies, events)
    ensures LawfulRun(key, iv, replies, events)
  {
    if events != [] {
      PoliteIsLawful(key, iv, replies, events[..|events| - 1]);
      PoliteIsOrderly(key, iv, replies, events);
    }
  }

  /** Credited bytes and the outstanding claim make up the plaintext encrypted, and
      the claim is the start of the buffer the caller still holds. */
  predicate Accounted(s: Session) {
    && s.accepted <= s.w.plain
    && |s.accepted| + Owed(s.w) == |s.w.plain|
    && (Owed(s.w) > 0 ==> s.pending.Some? && s.w.plain[|s.accepted|..] <= s.pending.value)
  }

  ghost predicate CreditInv(key: Key, iv: Block, s: Session) {
    && WireInv(key, iv, s)
    && s.accepted <= s.w.plain
    && (!s.over ==>
          && Accounted(s)
          && (s.w.later.Some? ==> s.pending.Some? && !s.opening)
          && (s.pending.Some? && s.pending.value != [] && s.opening ==> s.w.claim > 0))
  }

  /** What one `poll_write` does to the books. With bytes owed it encrypts nothing
      and either hands out exactly those or goes on owing them; with nothing owed it
      encrypts its buffer or leaves it alone. */
  predicate Ledger(w: Writer, t: Turn, buf: Bytes) {
    && w.plain <= t.w.plain
    && (Owed(w) > 0 ==>
          && t.w.plain == w.plain
          && (t.poll.Done? ==> Owed(t.w) == 0 && Min(t.poll.n, |buf|) == Min(Owed(w), |buf|))
          && (t.poll.Blocked? ==> Owed(t.w) == Owed(w)))
    && (Owed(w) == 0 ==>
          && (t.poll.Done? ==> Owed(t.w) == 0 && t.poll.n == |buf| && t.w.plain == w.plain + buf)
          && (t.poll.Blocked? ==>
                || (t.w.plain == w.plain && Owed(t.w) == 0)
                || (t.w.plain == w.plain + buf && Owed(t.w) == |buf|)))
  }

  /** What it does to the claims. */
  predicate Claims(w: Writer, t: Turn, buf: Bytes) {
    && (t.poll.Done? ==> t.w.later.None?)
    && (t.poll.Blocked? && !w.ivSent ==> t.w.claim == |buf|)
    && (t.poll.Blocked? && w.claim > 0 ==> t.w.claim == w.claim)
    && (t.poll.Blocked? && t.w.later.Some? ==> w.ivSent && w.claim == 0)
  }

  lemma {:induction false} UnparkedLedger(key: Key, iv: Block, w: Writer, pipe: Pipe, buf: Bytes)
    requires WireOk(key, iv, w, pipe) && w.first.None?
    ensures Ledger(w, WriteUnparked(key, iv, w, pipe, buf), buf)
  {
    assert !w.ivSent ==> w.plain + buf == buf;
  }

  lemma {:induction false} UnparkedClaims(key: Key, iv: Block, w: Writer, pipe: Pipe, buf: Bytes)
    requires WireOk(key, iv, w, pipe) && w.first.None?
    ensures Claims(w, WriteUnparked(key, iv, w, pipe, buf), buf)
  {}

  /** The parked first write has just gone out and no claim is left with it. */
  lemma {:induction false} FirstDrained(key: Key, iv: Block, w: Writer, pipe: Pipe, n: nat)
    requires WireOk(key, iv, w, pipe) && w.first.Some? && w.claim == 0
    requires Offer(pipe, Rest(w.first.value, w.firstPos)).reply == Ready(n) && w.firstPos + n >= |w.first.value|
    ensures WireOk(key, iv, w.(first := None, firstPos := 0, claim := 0),
                   Offer(pipe, Rest(w.first.value, w.firstPos)).pipe)
  {
    DrainStep(pipe, w.first.value, w.firstPos, Stream(key, iv, w.plain));
    assert Rest(w.first.value, |w.first.value|) == [];
  }

  lemma {:induction false} WriteLedger(key: Key, iv: Block, w: Writer, pipe: Pipe, buf: Bytes)
    requires WireOk(key, iv, w, pipe)
    ensures Ledger(w, PollWrite(key, iv, w, pipe, buf), buf)
    ensures Claims(w, PollWrite(key, iv, w, pipe, buf), buf)
  {
    if w.first.None? {
      UnparkedLedger(key, iv, w, pipe, buf);
      UnparkedClaims(key, iv, w, pipe, buf);
    } else {
      var o := Offer(pipe, Rest(w.first.value, w.firstPos));
      if o.reply.Ready? && o.reply.n > 0 && w.firstPos + o.reply.n >= |w.first.value| && w.claim == 0 {
        var w1 := w.(first := None, firstPos := 0, claim := 0);
        FirstDrained(key, iv, w, pipe, o.reply.n);
        UnparkedLedger(key, iv, w1, o.pipe, buf);
        UnparkedClaims(key, iv, w1, o.pipe, buf);
      }
    }
  }

  lemma AfterWriteAccounted(s: Session, t: Turn, buf: Bytes)
    requires Accounted(s) && (s.pending.Some? ==> s.pending.value <= buf)
    requires Ledger(s.w, t, buf) && !t.poll.Error?
    ensures Accounted(AfterWrite(s, t, buf))
  {
    var owed := s.w.plain[|s.accepted|..];
    assert s.w.plain == s.accepted + owed;
    if Owed(s.w) > 0 {
      assert owed <= buf;
      if t.poll.Done? {
        assert buf[..Min(t.poll.n, |buf|)] == owed;
      }
    } else if t.poll.Done? {
      assert buf[..Min(t.poll.n, |buf|)] == buf;
    } else if t.w.plain == s.w.plain + buf {
      assert t.w.plain[|s.accepted|..] == buf;
    }
  }

  lemma AfterWriteCredit(key: Key, iv: Block, s: Session, t: Turn, buf: Bytes)
    requires CreditInv(key, iv, s) && !s.over && Lawful(s, Write(buf))
    requires Ledger(s.w, t, buf) && Claims(s.w, t, buf) && GoodTurn(key, iv, t)
    ensures CreditInv(key, iv, AfterWrite(s, t, buf))
  {
    if !t.poll.Error? {
      AfterWriteAccounted(s, t, buf);
    }
  }

  lemma WriteCredit(key: Key, iv: Block, s: Session, buf: Bytes)
    requires CreditInv(key, iv, s) && !s.over && Lawful(s, Write(buf))
    ensures CreditInv(key, iv, Step(key, iv, s, Write(buf)))
  {
    PollWriteWire(key, iv, s.w, s.pipe, buf);
    WriteLedger(key, iv, s.w, s.pipe, buf);
    AfterWriteCredit(key, iv, s, PollWrite(key, iv, s.w, s.pipe, buf), buf);
  }

  /** A flush with no later write parked moves no claim. */
  lemma FlushLedger(key: Key, iv: Block, w: Writer, pipe: Pipe)
    requires WireOk(key, iv, w, pipe) && w.later.None?
    ensures var t := PollFlush(iv, w, pipe);
            t.w.plain == w.plain && t.w.claim == w.claim && t.w.later.None?
  {}

  lemma FlushCredit(key: Key, iv: Block, s: Session)
    requires CreditInv(key, iv, s) && !s.over && s.w.later.None?
    ensures CreditInv(key, iv, Step(key, iv, s, Flush))
  {
    StepWire(key, iv, s, Flush);
    FlushLedger(key, iv, s.w, s.pipe);
  }

  lemma StepCredit(key: Key, iv: Block, s: Session, e: Event)
    requires CreditInv(key, iv, s) && Lawful(s, e)
    ensures CreditInv(key, iv, Step(key, iv, s, e))
  {
    if !s.over {
      match e
      case Write(buf) => WriteCredit(key, iv, s, buf);
      case Flush => FlushCredit(key, iv, s);
      case WriteAll(data, cut) => StepWire(key, iv, s, e);
      case Shutdown => StepWire(key, iv, s, e);
        PollShutdownWire(key, iv, s.w, s.pipe);
    }
  }

  lemma {:induction false} LawfulIsOrderly(key: Key, iv: Block, replies: seq<Reply>, events: seq<Event>)
    requires LawfulRun(key, iv, replies, events)
    ensures OrderlyRun(key, iv, replies, events)
  {
    if events != [] {
      LawfulIsOrderly(key, iv, replies, events[..|events| - 1]);
    }
  }

  /** In every run of a lawful caller, credited bytes plus the outstanding claim are
      exactly the plaintext encrypted; the claim is the start of the buffer the caller
      still holds. After an error or a shutdown the credited bytes are a prefix of it. */
  lemma {:induction false} CreditTheorem(key: Key, iv: Block, replies: seq<Reply>, events: seq<Event>)
    requires LawfulRun(key, iv, replies, events)
    ensures CreditInv(key, iv, Run(key, iv, replies, events))
  {
    if events != [] {
      var front := events[..|events| - 1];
      CreditTheorem(key, iv, replies, front);
      StepCredit(key, iv, Run(key, iv, replies, front), events[|events| - 1]);
    }
  }

  // ----- a flush while a later write is pending

  /** The flush keeps the books, if these are the inner writer's next answers. */
  ghost predicate FlushKeeps(key: Key, iv: Block, s: Session, replies: seq<Reply>) {
    var t := Step(key, iv, s.(pipe := Pipe(s.pipe.wire, replies)), Flush);
    t.over || Accounted(t)
  }

  /** Exactly when a flush is safe: it keeps the books whatever the inner writer
      answers if and only if no later write is parked (an empty one does no harm). */
  lemma FlushExact(key: Key, iv: Block, s: Session)
    requires CreditInv(key, iv, s) && !s.over
    ensures (forall replies :: FlushKeeps(key, iv, s, replies))
            <==> (s.w.later.None? || s.w.later.value == [])
  {
    if s.w.later.None? {
      forall replies ensures FlushKeeps(key, iv, s, replies) {
        FlushCredit(key, iv, s.(pipe := Pipe(s.pipe.wire, replies)));
      }
    } else if s.w.later.value == [] {
      forall replies ensures FlushKeeps(key, iv, s, replies) {}
    } else {
      var replies := [Ready(|s.w.later.value|), Ready(0)];
      var s1 := s.(pipe := Pipe(s.pipe.wire, replies));
      DrainAll(iv, s1.w, s1.pipe);
      assert !FlushKeeps(key, iv, s, replies);
    }
  }

  lemma DrainAll(iv: Block, w: Writer, pipe: Pipe)
    requires w.ivSent && w.first.None? && w.later.Some? && w.laterPos < |w.later.value|
    requires |pipe.replies| >= 2 && pipe.replies[0] == Ready(|w.later.value|) && pipe.replies[1].Ready?
    ensures PollFlush(iv, w, pipe).w == w.(later := None, laterPos := 0)
    ensures PollFlush(iv, w, pipe).poll == Done(0)
    ensures PollFlush(iv, w, pipe).pipe.replies == pipe.replies[2..]
  {}

  /** A flush against a writer that takes the whole parked write: the write is gone and
      no claim is left for it. */
  lemma FlushDrains(key: Key, iv: Block, s: Session)
    requires WireInv(key, iv, s) && !s.over && s.w.later.Some? && s.w.later.value != []
    requires |s.pipe.replies| >= 2 && s.pipe.replies[0] == Ready(|s.w.later.value|) && s.pipe.replies[1].Ready?
    ensures var t := Step(key, iv, s, Flush);
            && t.w == s.w.(later := None, laterPos := 0) && t.pipe.replies == s.pipe.replies[2..]
            && t.accepted == s.accepted && !t.over && WireInv(key, iv, t)
  {
    DrainAll(iv, s.w, s.pipe);
    StepWire(key, iv, s, Flush);
  }

  /** A write with nothing parked or claimed, against a writer that takes all of it. */
  lemma WriteTaken(key: Key, iv: Block, s: Session, buf: Bytes)
    requires WireInv(key, iv, s) && !s.over && s.w.ivSent && s.w.first.None? && s.w.later.None? && s.w.claim == 0
    requires s.pipe.replies == [Ready(|buf|)]
    ensures var t := Step(key, iv, s, Write(buf));
            && !t.over && t.accepted == s.accepted + buf
            && t.w.plain == s.w.plain + buf && t.pipe.wire == Stream(key, iv, t.w.plain)
  {
    var t := PollWrite(key, iv, s.w, s.pipe, buf);
    assert t == WriteLater(key, s.w, s.pipe, buf);
    assert t.poll == Done(|buf|) && buf[..Min(|buf|, |buf|)] == buf;
    StepWire(key, iv, s, Write(buf));
    assert t.pipe.wire + [] == t.pipe.wire;
  }

  /** What goes wrong otherwise, for every such state: once a flush has drained the
      parked write, its re-poll encrypts the payload again. The stream then carries
      the claimed bytes twice while the caller is credited once. */
  lemma DuplicatePayload(key: Key, iv: Block, s: Session, buf: Bytes)
    requires CreditInv(key, iv, s) && !s.over
    requires s.w.later.Some? && s.w.later.value != [] && s.pending == Some(buf)
    ensures var answers := [Ready(|s.w.later.value|), Ready(0)];
            var flushed := Step(key, iv, s.(pipe := Pipe(s.pipe.wire, answers)), Flush);
            var again := Step(key, iv, flushed.(pipe := Pipe(flushed.pipe.wire, [Ready(|buf|)])), Write(buf));
            && !again.over
            && again.accepted == s.accepted + buf
            && again.w.plain == s.accepted + s.w.plain[|s.accepted|..] + buf
            && buf[..|s.w.later.value|] == s.w.plain[|s.accepted|..] != []
            && again.pipe.wire == Stream(key, iv, again.w.plain)
  {
    var s1 := s.(pipe := Pipe(s.pipe.wire, [Ready(|s.w.later.value|), Ready(0)]));
    FlushDrains(key, iv, s1);
    var flushed := Step(key, iv, s1, Flush);
    WriteTaken(key, iv, flushed.(pipe := Pipe(flushed.pipe.wire, [Ready(|buf|)])), buf);
    ClaimIsPrefix(s, buf);
  }

  lemma ClaimIsPrefix(s: Session, buf: Bytes)
    requires Accounted(s) && s.w.later.Some? && s.w.later.value != [] && s.pending == Some(buf)
    ensures s.w.plain == s.accepted + s.w.plain[|s.accepted|..]
    ensures |s.w.later.value| <= |buf| && buf[..|s.w.later.value|] == s.w.plain[|s.accepted|..] != []
  {}

  /** The smallest run that does it: one byte accepted, a second parked, a flush, and
      the re-poll. Two bytes are credited and three are on the wire. */
  lemma {:induction false} DuplicateRun(key: Key, iv: Block, a: bv8, b: bv8)
    ensures var replies := [Ready(17), Pending, Ready(1), Ready(0), Ready(1)];
            var s := Run(key, iv, replies, [Write([a]), Write([b]), Flush, Write([b])]);
            && !s.over && s.accepted == [a, b]
            && s.w.plain == [a, b, b] && s.pipe.wire == Stream(key, iv, [a, b, b])
  {
    var replies := [Ready(17), Pending, Ready(1), Ready(0), Ready(1)];
    var s2 := OneParked(key, iv, a, b);
    FlushDrains(key, iv, s2);
    WriteTaken(key, iv, Step(key, iv, s2, Flush), [b]);
    RunFour(key, iv, replies, Write([a]), Write([b]), Flush, Write([b]));
    assert [a] + [b] == [a, b] && [a, b] + [b] == [a, b, b];
  }

  lemma {:induction false} RunFour(key: Key, iv: Block, replies: seq<Reply>, e1: Event, e2: Event, e3: Event, e4: Event)
    ensures Run(key, iv, replies, [e1, e2, e3, e4])
         == Step(key, iv, Step(key, iv, Run(key, iv, replies, [e1, e2]), e3), e4)
  {
    RunMore(key, iv, replies, [e1, e2], e3);
    RunMore(key, iv, replies, [e1, e2, e3], e4);
    assert [e1, e2] + [e3] == [e1, e2, e3] && [e1, e2, e3] + [e4] == [e1, e2, e3, e4];
  }

  lemma {:induction false} RunMore(key: Key, iv: Block, replies: seq<Reply>, events: seq<Event>, e: Event)
    ensures Run(key, iv, replies, events + [e]) == Step(key, iv, Run(key, iv, replies, events), e)
  {
    assert (events + [e])[..|events|] == events;
  }

  lemma {:induction false} OneParked(key: Key, iv: Block, a: bv8, b: bv8) returns (s: Session)
    ensures s == Run(key, iv, [Ready(17), Pending, Ready(1), Ready(0), Ready(1)], [Write([a]), Write([b])])
    ensures s.pipe.replies == [Ready(1), Ready(0), Ready(1)]
    ensures s.accepted == [a] && s.pending == Some([b]) && !s.over
    ensures s.w == Writer(true, [a, b], None, 0, 0, Some(Cipher(key, [a], [b])), 0)
    ensures WireInv(key, iv, s)
  {
    var replies := [Ready(17), Pending, Ready(1), Ready(0), Ready(1)];
    var s0 := Start(replies);
    var s1 := Step(key, iv, s0, Write([a]));
    s := Step(key, iv, s1, Write([b]));
    StepWire(key, iv, s0, Write([a]));
    StepWire(key, iv, s1, Write([b]));
    RunTwo(key, iv, replies, Write([a]), Write([b]));
    assert [a] + [b] == [a, b];
  }
}
