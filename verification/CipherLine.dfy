/** What the cipher writer amounts to: a line with at most one run of bytes waiting for the
    inner writer and at most one claim. The writer's two parked buffers, their positions
    and its several paths are proved to behave as this line in every call; and it fails
    only when the inner writer does. */
module CipherLine {
  import opened LittleEndian
  import opened StreamMode
  import opened Wrappers
  import opened CipherWriter
  import opened CipherSession

  /** `opening` says that the claim is that of the opening write. */
  datatype Line = Line(begun: bool, plain: Bytes, waiting: Bytes, owed: nat, opening: bool)

  datatype LineTurn = LineTurn(l: Line, pipe: Pipe, poll: Poll)

  function View(w: Writer): Line {
    Line(w.ivSent, w.plain, Parked(w), Owed(w), w.claim > 0)
  }

  /** What offering `data` to the inner writer comes to. */
  datatype Push = All | Part(left: Bytes) | Dead

  function Pushed(pipe: Pipe, data: Bytes): Push {
    if pipe.replies == [] || pipe.replies[0].Pending? then Part(data)
    else if pipe.replies[0].Failed? then Dead
    else if pipe.replies[0].n >= |data| then All
    else if pipe.replies[0].n == 0 then Dead
    else Part(data[pipe.replies[0].n..])
  }

  function After(pipe: Pipe, data: Bytes): Pipe {
    Offer(pipe, data).pipe
  }

  /** A write: what waits goes first, a claim is handed out before anything is encrypted,
      and what does not go out at once waits. */
  function WriteLine(key: Key, iv: Block, l: Line, pipe: Pipe, buf: Bytes): LineTurn {
    if l.waiting != [] then
      match Pushed(pipe, l.waiting)
      case Dead => LineTurn(l, After(pipe, l.waiting), Error)
      case Part(left) => LineTurn(l.(waiting := left), After(pipe, l.waiting), Blocked)
      case All =>
        if l.owed > 0 then
          LineTurn(l.(waiting := [], owed := 0, opening := false), After(pipe, l.waiting), Done(l.owed))
        else SendLine(key, iv, l.(waiting := []), After(pipe, l.waiting), buf)
    else if l.owed > 0 then LineTurn(l.(owed := 0, opening := false), pipe, Done(Min(l.owed, |buf|)))
    else SendLine(key, iv, l, pipe, buf)
  }

  function SendLine(key: Key, iv: Block, l: Line, pipe: Pipe, buf: Bytes): LineTurn {
    var data := (if l.begun then [] else iv) + Cipher(key, l.plain, buf);
    var l1 := l.(begun := true, plain := l.plain + buf);
    match Pushed(pipe, data)
    case Dead => LineTurn(l1, After(pipe, data), Error)
    case Part(left) =>
      LineTurn(l1.(waiting := left, owed := |buf|, opening := !l.begun && buf != []), After(pipe, data), Blocked)
    case All => LineTurn(l1, After(pipe, data), Done(|buf|))
  }

  /** A flush: what waits goes out, and only the opening write keeps its claim; the IV goes
      out if nothing has; then the inner writer is flushed. */
  function FlushLine(iv: Block, l: Line, pipe: Pipe): LineTurn {
    if l.waiting != [] then
      match Pushed(pipe, l.waiting)
      case Dead => LineTurn(l, After(pipe, l.waiting), Error)
      case Part(left) => LineTurn(l.(waiting := left), After(pipe, l.waiting), Blocked)
      case All =>
        FlushBegun(iv, l.(waiting := [], owed := if l.opening then l.owed else 0), After(pipe, l.waiting))
    else FlushBegun(iv, l, pipe)
  }

  function FlushBegun(iv: Block, l: Line, pipe: Pipe): LineTurn {
    if l.begun then Passed(l, pipe)
    else
      var l1 := l.(begun := true);
      match Pushed(pipe, iv)
      case Dead => LineTurn(l1, After(pipe, iv), Error)
      case Part(left) => LineTurn(l1.(waiting := left), After(pipe, iv), Blocked)
      case All => Passed(l1, After(pipe, iv))
  }

  /** The inner writer's own flush or shutdown decides. */
  function Passed(l: Line, pipe: Pipe): LineTurn {
    LineTurn(l, After(pipe, []),
             if pipe.replies == [] || pipe.replies[0].Pending? then Blocked
             else if pipe.replies[0].Failed? then Error
             else Done(0))
  }

  /** A shutdown: one attempt at what waits, which is then dropped with its claim. */
  function ShutdownLine(l: Line, pipe: Pipe): LineTurn {
    if l.waiting != [] then Passed(l.(waiting := [], owed := 0, opening := false), After(pipe, l.waiting))
    else Passed(l, pipe)
  }

  // ----- the writer is the line

  /** No empty write is parked. */
  predicate Tidy(w: Writer) {
    w.later != Some([])
  }

  function Seen(t: Turn): LineTurn {
    LineTurn(View(t.w), t.pipe, t.poll)
  }

  lemma {:induction false} PushedIs(pipe: Pipe, data: Bytes)
    ensures var o := Offer(pipe, data);
            match Pushed(pipe, data)
            case Dead => o.reply.Failed? || (o.reply == Ready(0) && data != [])
            case Part(left) => if o.reply.Pending? then left == data
                               else o.reply.Ready? && 0 < o.reply.n < |data| && left == data[o.reply.n..]
            case All => o.reply == Ready(|data|)
  {
  }

  lemma {:induction false} OpeningRefines(key: Key, iv: Block, pipe: Pipe, buf: Bytes)
    ensures Seen(WriteOpening(key, iv, FRESH, pipe, buf)) == SendLine(key, iv, View(FRESH), pipe, buf)
  {
    var output := iv + Cipher(key, [], buf);
    PushedIs(pipe, output);
    assert [] + buf == buf;
    assert Rest(output, 0) == output;
  }

  lemma {:induction false} LaterRefines(key: Key, iv: Block, w: Writer, pipe: Pipe, buf: Bytes)
    requires w.ivSent && w.first.None? && w.later.None? && w.claim == 0
    ensures Seen(WriteLater(key, w, pipe, buf)) == SendLine(key, iv, View(w), pipe, buf)
  {
    var scratch := Cipher(key, w.plain, buf);
    PushedIs(pipe, scratch);
    assert [] + scratch == scratch;
    assert Rest(scratch, 0) == scratch;
  }

  /** One parked buffer, offered from its position on. */
  lemma {:induction false} RetryIs(pipe: Pipe, buf: Bytes, pos: nat)
    requires pos < |buf|
    ensures var o := Offer(pipe, Rest(buf, pos));
            match Pushed(pipe, Rest(buf, pos))
            case Dead => o.reply.Failed? || o.reply == Ready(0)
            case Part(left) => if o.reply.Pending? then left == Rest(buf, pos)
                               else o.reply.Ready? && 0 < o.reply.n && pos + o.reply.n < |buf|
                                    && left == Rest(buf, pos + o.reply.n)
            case All => o.reply.Ready? && o.reply.n > 0 && pos + o.reply.n == |buf|
  {
    PushedIs(pipe, Rest(buf, pos));
    var o := Offer(pipe, Rest(buf, pos));
    if o.reply.Ready? {
      RestRest(buf, pos, o.reply.n);
    }
  }

  lemma {:induction false} RetryRefines(key: Key, iv: Block, w: Writer, pipe: Pipe, buf: Bytes)
    requires WireOk(key, iv, w, pipe) && Tidy(w) && w.ivSent && w.first.None? && w.later.Some?
    ensures Seen(WriteRetry(w, pipe)) == WriteLine(key, iv, View(w), pipe, buf)
  {
    RetryIs(pipe, w.later.value, w.laterPos);
  }

  lemma {:induction false} UnparkedRefines(key: Key, iv: Block, w: Writer, pipe: Pipe, buf: Bytes)
    requires WireOk(key, iv, w, pipe) && Tidy(w) && w.first.None?
    ensures Seen(WriteUnparked(key, iv, w, pipe, buf)) == WriteLine(key, iv, View(w), pipe, buf)
  {
    if w.claim == 0 {
      if !w.ivSent {
        OpeningRefines(key, iv, pipe, buf);
      } else if w.later.Some? {
        RetryRefines(key, iv, w, pipe, buf);
      } else {
        LaterRefines(key, iv, w, pipe, buf);
      }
    }
  }

  /** Every `poll_write` is a write on the line: what goes to the inner writer, what waits,
      what is owed, and the answer. */
  lemma {:induction false} WriteRefines(key: Key, iv: Block, w: Writer, pipe: Pipe, buf: Bytes)
    requires WireOk(key, iv, w, pipe) && Tidy(w)
    ensures Seen(PollWrite(key, iv, w, pipe, buf)) == WriteLine(key, iv, View(w), pipe, buf)
  {
    if w.first.None? {
      UnparkedRefines(key, iv, w, pipe, buf);
    } else {
      RetryIs(pipe, w.first.value, w.firstPos);
      var o := Offer(pipe, Parked(w));
      if Pushed(pipe, Parked(w)).All? && w.claim == 0 {
        var w1 := w.(first := None, firstPos := 0, claim := 0);
        FirstDrained(key, iv, w, pipe, o.reply.n);
        UnparkedRefines(key, iv, w1, o.pipe, buf);
      }
    }
  }

  lemma {:induction false} PassedRefines(w: Writer, pipe: Pipe)
    ensures Seen(FlushInner(w, pipe)) == Passed(View(w), pipe)
  {
  }

  lemma {:induction false} FlushIvRefines(iv: Block, w: Writer, pipe: Pipe)
    requires !w.ivSent ==> w == FRESH
    requires w.first.None? && w.later.None?
    ensures Seen(FlushIv(iv, w, pipe)) == FlushBegun(iv, View(w), pipe)
  {
    PushedIs(pipe, iv);
    PassedRefines(w, pipe);
    PassedRefines(w.(ivSent := true, plain := []), Offer(pipe, iv).pipe);
    assert Rest(iv, 0) == iv;
  }

  /** Every `poll_flush` is a flush of the line. */
  lemma {:induction false} FlushRefines(key: Key, iv: Block, w: Writer, pipe: Pipe)
    requires WireOk(key, iv, w, pipe) && Tidy(w)
    ensures Seen(PollFlush(iv, w, pipe)) == FlushLine(iv, View(w), pipe)
  {
    var after := Offer(pipe, Parked(w)).pipe;
    if w.first.Some? {
      RetryIs(pipe, w.first.value, w.firstPos);
      FlushIvRefines(iv, w.(first := None, firstPos := 0), after);
    } else if w.later.Some? {
      RetryIs(pipe, w.later.value, w.laterPos);
      FlushIvRefines(iv, w.(later := None, laterPos := 0), after);
    } else {
      FlushIvRefines(iv, w, pipe);
    }
  }

  /** Every `poll_shutdown` is a shutdown of the line. */
  lemma {:induction false} ShutdownRefines(key: Key, iv: Block, w: Writer, pipe: Pipe)
    requires WireOk(key, iv, w, pipe) && Tidy(w)
    ensures Seen(PollShutdown(w, pipe)) == ShutdownLine(View(w), pipe)
  {
    var after := Offer(pipe, Parked(w)).pipe;
    if w.first.Some? {
      PassedRefines(w.(first := None, firstPos := 0, claim := 0), after);
    } else if w.later.Some? {
      PassedRefines(w.(later := None, laterPos := 0), after);
    } else {
      PassedRefines(w, pipe);
    }
  }

  // ----- errors are earned

  predicate Healthy(replies: seq<Reply>) {
    forall i :: 0 <= i < |replies| ==> !replies[i].Failed? && replies[i] != Ready(0)
  }

  lemma {:induction false} HealthyAfter(pipe: Pipe, data: Bytes)
    requires Healthy(pipe.replies)
    ensures Healthy(After(pipe, data).replies) && !Pushed(pipe, data).Dead?
  {
  }

  /** An inner writer that neither fails nor takes nothing makes no write fail. */
  lemma {:induction false} WriteErrorEarned(key: Key, iv: Block, l: Line, pipe: Pipe, buf: Bytes)
    requires Healthy(pipe.replies)
    ensures var t := WriteLine(key, iv, l, pipe, buf); !t.poll.Error? && Healthy(t.pipe.replies)
  {
    HealthyAfter(pipe, l.waiting);
    var data := (if l.begun then [] else iv) + Cipher(key, l.plain, buf);
    HealthyAfter(pipe, data);
    HealthyAfter(After(pipe, l.waiting), data);
  }

  lemma {:induction false} BegunErrorEarned(iv: Block, l: Line, pipe: Pipe)
    requires Healthy(pipe.replies)
    ensures var t := FlushBegun(iv, l, pipe); !t.poll.Error? && Healthy(t.pipe.replies)
  {
    HealthyAfter(pipe, []);
    HealthyAfter(pipe, iv);
    HealthyAfter(After(pipe, iv), []);
  }

  /** Nor any flush. */
  lemma {:induction false} FlushErrorEarned(iv: Block, l: Line, pipe: Pipe)
    requires Healthy(pipe.replies)
    ensures var t := FlushLine(iv, l, pipe); !t.poll.Error? && Healthy(t.pipe.replies)
  {
    HealthyAfter(pipe, l.waiting);
    if l.waiting == [] {
      BegunErrorEarned(iv, l, pipe);
    } else {
      BegunErrorEarned(iv, l.(waiting := [], owed := if l.opening then l.owed else 0), After(pipe, l.waiting));
    }
  }

  /** Writes carry something, `write_encrypted` meets no failure, and nobody shuts down. */
  predicate Plainly(e: Event) {
    match e
    case Write(buf) => buf != []
    case Flush => true
    case WriteAll(_, cut) => cut.None?
    case Shutdown => false
  }

  lemma {:induction false} TidyAfter(key: Key, iv: Block, w: Writer, pipe: Pipe, buf: Bytes)
    requires WireOk(key, iv, w, pipe) && Tidy(w)
    ensures buf != [] ==> Tidy(PollWrite(key, iv, w, pipe, buf).w)
    ensures Tidy(PollFlush(iv, w, pipe).w)
  {
  }

  ghost predicate Open(key: Key, iv: Block, s: Session) {
    !s.over && WireInv(key, iv, s) && Tidy(s.w) && Healthy(s.pipe.replies)
  }

  lemma {:induction false} StaysOpen(key: Key, iv: Block, s: Session, e: Event)
    requires Open(key, iv, s) && Plainly(e) && Orderly(s, e)
    ensures Open(key, iv, Step(key, iv, s, e))
  {
    StepWire(key, iv, s, e);
    if e.Write? {
      WriteRefines(key, iv, s.w, s.pipe, e.buf);
      WriteErrorEarned(key, iv, View(s.w), s.pipe, e.buf);
      TidyAfter(key, iv, s.w, s.pipe, e.buf);
    } else if e.Flush? {
      FlushRefines(key, iv, s.w, s.pipe);
      FlushErrorEarned(iv, View(s.w), s.pipe);
      TidyAfter(key, iv, s.w, s.pipe, []);
    }
  }

  /** In every orderly run against an inner writer that neither fails nor takes nothing,
      whatever else it answers, the session stays open: no call fails on its own account. */
  lemma {:induction false} ErrorsEarned(key: Key, iv: Block, replies: seq<Reply>, events: seq<Event>)
    requires Healthy(replies) && OrderlyRun(key, iv, replies, events)
    requires forall i :: 0 <= i < |events| ==> Plainly(events[i])
    ensures Open(key, iv, Run(key, iv, replies, events))
  {
    if events != [] {
      var front := events[..|events| - 1];
      ErrorsEarned(key, iv, replies, front);
      StaysOpen(key, iv, Run(key, iv, replies, front), events[|events| - 1]);
    }
  }

  /** An empty write is the exception: once parked, the inner writer's next answer that it
      is ready makes the writer fail. */
  lemma {:induction false} EmptyWriteFails(key: Key, iv: Block, w: Writer, wire: Bytes, n: nat, buf: Bytes)
    requires w.ivSent && w.first.None? && w.claim == 0 && w.later == Some([]) && w.laterPos == 0
    ensures PollWrite(key, iv, w, Pipe(wire, [Ready(n)]), buf).poll == Error
    ensures PollFlush(iv, w, Pipe(wire, [Ready(n)])).poll == Error
  {
  }

  /** What waits shrinks with every answer that takes something, and when it is gone the
      write that owns it is credited in full. */
  lemma {:induction false} WaitingGoesOut(key: Key, iv: Block, l: Line, wire: Bytes, n: nat, buf: Bytes)
    requires l.waiting != [] && n > 0
    ensures var t := WriteLine(key, iv, l, Pipe(wire, [Ready(n)]), buf);
            if n < |l.waiting| then
              t.poll == Blocked && t.l == l.(waiting := l.waiting[n..]) && t.pipe.wire == wire + l.waiting[..n]
            else l.owed > 0 ==>
              t.poll == Done(l.owed) && t.l.owed == 0 && t.l.waiting == [] && t.pipe.wire == wire + l.waiting
  {
    assert l.waiting[..|l.waiting|] == l.waiting;
  }
}
