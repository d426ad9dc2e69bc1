/** The resumable writer of the cipher stream (`CipherWriterState`), as a function
    of the answers of the inner writer, which may take any prefix of what it is
    offered, ask to be polled again, or fail.

    The cipher position is kept as the plaintext that has gone through it. */
module CipherWriter {
  import opened LittleEndian
  import opened StreamMode
  import opened Wrappers

  type Bytes = seq<bv8>

  /** One answer of the inner `poll_write`: it takes up to n bytes, is not ready, or fails. */
  datatype Reply = Ready(n: nat) | Pending | Failed

  /** The inner writer: what it has taken, and what it is going to answer. */
  datatype Pipe = Pipe(wire: Bytes, replies: seq<Reply>)

  /** The result of a poll. */
  datatype Poll = Done(n: nat) | Blocked | Error

  datatype Offered = Offered(reply: Reply, pipe: Pipe)

  /** Offer `data` to the inner writer. */
  function Offer(pipe: Pipe, data: Bytes): (o: Offered)
    ensures o.reply.Ready? ==> o.reply.n <= |data| && o.pipe.wire == pipe.wire + data[..o.reply.n]
    ensures !o.reply.Ready? ==> o.pipe.wire == pipe.wire
  {
    if pipe.replies == [] then Offered(Pending, pipe) else
      var rest := pipe.replies[1..];
      match pipe.replies[0]
      case Ready(n) =>
        var m := Min(n, |data|);
        Offered(Ready(m), Pipe(pipe.wire + data[..m], rest))
      case r => Offered(r, Pipe(pipe.wire, rest))
  }

  datatype Writer = Writer(
    ivSent: bool,
    plain: Bytes,               // everything encrypted so far
    first: Option<Bytes>,       // parked IV and payload of the opening call
    firstPos: nat,
    claim: nat,                 // payload bytes of the opening write not yet credited
    later: Option<Bytes>,       // parked payload of a later write
    laterPos: nat)

  datatype Turn = Turn(w: Writer, pipe: Pipe, poll: Poll)

  const FRESH := Writer(false, [], None, 0, 0, None, 0)

  function Rest(buf: Bytes, pos: nat): Bytes {
    if pos <= |buf| then buf[pos..] else []
  }

  /** The ciphertext of buf after plain. */
  function Cipher(key: Key, plain: Bytes, buf: Bytes): (c: Bytes)
    ensures |c| == |buf|
  {
    Encrypt(key, plain + buf)[|plain|..]
  }

  // ----- poll_write

  function PollWrite(key: Key, iv: Block, w: Writer, pipe: Pipe, buf: Bytes): Turn {
    if w.first.None? then WriteUnparked(key, iv, w, pipe, buf) else
      var o := Offer(pipe, Rest(w.first.value, w.firstPos));
      match o.reply
      case Pending => Turn(w, o.pipe, Blocked)
      case Failed => Turn(w, o.pipe, Error)
      case Ready(n) =>
        if n == 0 then Turn(w, o.pipe, Error)
        else if w.firstPos + n < |w.first.value| then
          Turn(w.(firstPos := w.firstPos + n), o.pipe, Blocked)
        else
          var w1 := w.(first := None, firstPos := 0, claim := 0);
          if w.claim > 0 then Turn(w1, o.pipe, Done(w.claim))
          else WriteUnparked(key, iv, w1, o.pipe, buf)
  }

  function WriteUnparked(key: Key, iv: Block, w: Writer, pipe: Pipe, buf: Bytes): Turn {
    if w.claim > 0 then Turn(w.(claim := 0), pipe, Done(Min(w.claim, |buf|)))
    else if !w.ivSent then WriteOpening(key, iv, w, pipe, buf)
    else if w.later.Some? then WriteRetry(w, pipe)
    else WriteLater(key, w, pipe, buf)
  }

  /** The opening call: the IV and the payload leave in one buffer. */
  function WriteOpening(key: Key, iv: Block, w: Writer, pipe: Pipe, buf: Bytes): Turn {
    var output := iv + Cipher(key, [], buf);
    var w1 := w.(ivSent := true, plain := buf);
    var o := Offer(pipe, output);
    match o.reply
    case Ready(n) =>
      if n >= |output| then Turn(w1, o.pipe, Done(|buf|))
      else if n == 0 then Turn(w1, o.pipe, Error)
      else Turn(w1.(first := Some(output), firstPos := n, claim := |buf|), o.pipe, Blocked)
    case Failed => Turn(w1, o.pipe, Error)
    case Pending => Turn(w1.(first := Some(output), firstPos := 0, claim := |buf|), o.pipe, Blocked)
  }

  function WriteRetry(w: Writer, pipe: Pipe): Turn
    requires w.later.Some?
  {
    var o := Offer(pipe, Rest(w.later.value, w.laterPos));
    match o.reply
    case Pending => Turn(w, o.pipe, Blocked)
    case Failed => Turn(w, o.pipe, Error)
    case Ready(n) =>
      if n == 0 then Turn(w, o.pipe, Error)
      else if w.laterPos + n < |w.later.value| then
        Turn(w.(laterPos := w.laterPos + n), o.pipe, Blocked)
      else
        Turn(w.(later := None, laterPos := 0), o.pipe, Done(|w.later.value|))
  }

  function WriteLater(key: Key, w: Writer, pipe: Pipe, buf: Bytes): Turn {
    var scratch := Cipher(key, w.plain, buf);
    var w1 := w.(plain := w.plain + buf);
    var o := Offer(pipe, scratch);
    match o.reply
    case Ready(n) =>
      if n >= |scratch| then Turn(w1, o.pipe, Done(|buf|))
      else if n == 0 then Turn(w1, o.pipe, Error)
      else Turn(w1.(later := Some(scratch), laterPos := n), o.pipe, Blocked)
    case Failed => Turn(w1, o.pipe, Error)
    case Pending => Turn(w1.(later := Some(scratch), laterPos := 0), o.pipe, Blocked)
  }

  // ----- poll_flush

  function PollFlush(iv: Block, w: Writer, pipe: Pipe): Turn {
    if w.first.None? then FlushLater(iv, w, pipe) else
      var o := Offer(pipe, Rest(w.first.value, w.firstPos));
      match o.reply
      case Pending => Turn(w, o.pipe, Blocked)
      case Failed => Turn(w, o.pipe, Error)
      case Ready(n) =>
        if n == 0 then Turn(w, o.pipe, Error)
        else if w.firstPos + n < |w.first.value| then
          Turn(w.(firstPos := w.firstPos + n), o.pipe, Blocked)
        else
          // the claim stays: the next poll_write hands it out
          FlushLater(iv, w.(first := None, firstPos := 0), o.pipe)
  }

  function FlushLater(iv: Block, w: Writer, pipe: Pipe): Turn {
    if w.later.None? then FlushIv(iv, w, pipe) else
      var o := Offer(pipe, Rest(w.later.value, w.laterPos));
      match o.reply
      case Pending => Turn(w, o.pipe, Blocked)
      case Failed => Turn(w, o.pipe, Error)
      case Ready(n) =>
        if n == 0 then Turn(w, o.pipe, Error)
        else if w.laterPos + n < |w.later.value| then
          Turn(w.(laterPos := w.laterPos + n), o.pipe, Blocked)
        else
          // no claim is kept here
          FlushIv(iv, w.(later := None, laterPos := 0), o.pipe)
  }

  function FlushIv(iv: Block, w: Writer, pipe: Pipe): Turn {
    if w.ivSent then FlushInner(w, pipe) else
      var w1 := w.(ivSent := true, plain := []);
      var o := Offer(pipe, iv);
      match o.reply
      case Ready(n) =>
        if n >= 16 then FlushInner(w1, o.pipe)
        else if n == 0 then Turn(w1, o.pipe, Error)
        else Turn(w1.(first := Some(iv), firstPos := n, claim := 0), o.pipe, Blocked)
      case Failed => Turn(w1, o.pipe, Error)
      case Pending => Turn(w1.(first := Some(iv), firstPos := 0, claim := 0), o.pipe, Blocked)
  }

  /** The inner `poll_flush`: no bytes move. */
  function FlushInner(w: Writer, pipe: Pipe): Turn {
    var o := Offer(pipe, []);
    match o.reply
    case Ready(_) => Turn(w, o.pipe, Done(0))
    case Failed => Turn(w, o.pipe, Error)
    case Pending => Turn(w, o.pipe, Blocked)
  }

  // ----- poll_shutdown

  /** One attempt at each parked buffer, then everything parked is dropped. */
  function PollShutdown(w: Writer, pipe: Pipe): Turn {
    if w.first.None? then ShutdownLater(w, pipe)
    else ShutdownLater(w.(first := None, firstPos := 0, claim := 0),
                       Offer(pipe, Rest(w.first.value, w.firstPos)).pipe)
  }

  function ShutdownLater(w: Writer, pipe: Pipe): Turn {
    if w.later.None? then FlushInner(w, pipe)
    else FlushInner(w.(later := None, laterPos := 0), Offer(pipe, Rest(w.later.value, w.laterPos)).pipe)
  }

  // ----- what a write answers

  /** The inner writer is about to fail or to take nothing. */
  predicate Refuses(pipe: Pipe) {
    pipe.replies != [] && (pipe.replies[0].Failed? || pipe.replies[0] == Ready(0))
  }

  /** The opening write fails exactly when the inner writer fails or takes nothing; otherwise
      it credits its buffer or parks what is left with a claim for it. */
  lemma OpeningAnswer(key: Key, iv: Block, w: Writer, pipe: Pipe, buf: Bytes)
    requires w == FRESH
    ensures var t := WriteOpening(key, iv, w, pipe, buf);
            match t.poll
            case Error => Refuses(pipe)
            case Done(n) => !Refuses(pipe) && n == |buf| && t.w.first.None? && t.w.claim == 0
            case Blocked => !Refuses(pipe) && t.w.first.Some? && t.w.claim == |buf|
  {
  }

  /** A later write likewise, except that it parks without a claim. */
  lemma LaterAnswer(key: Key, w: Writer, pipe: Pipe, buf: Bytes)
    requires w.later.None? && buf != []
    ensures var t := WriteLater(key, w, pipe, buf);
            match t.poll
            case Error => Refuses(pipe)
            case Done(n) => !Refuses(pipe) && n == |buf| && t.w.later.None?
            case Blocked => !Refuses(pipe) && t.w.later.Some? && t.w.claim == w.claim
  {
  }

  /** And so does its re-poll. */
  lemma RetryAnswer(w: Writer, pipe: Pipe)
    requires w.later.Some? && w.laterPos < |w.later.value|
    ensures var t := WriteRetry(w, pipe);
            match t.poll
            case Error => Refuses(pipe)
            case Done(n) => !Refuses(pipe) && n == |w.later.value| && t.w.later.None?
            case Blocked => !Refuses(pipe) && t.w.later == w.later && w.laterPos <= t.w.laterPos < |w.later.value|
  {
  }

  // ----- what is on the wire

  /** The whole stream for a plaintext: the IV, then its ciphertext. */
  function Stream(key: Key, iv: Block, plain: Bytes): Bytes {
    iv + Encrypt(key, plain)
  }

  function Parked(w: Writer): Bytes {
    if w.first.Some? then Rest(w.first.value, w.firstPos)
    else if w.later.Some? then Rest(w.later.value, w.laterPos)
    else []
  }

  /** The wire and the parked remainder make up the stream, and at most one buffer is
      parked. */
  predicate Accounted(stream: Bytes, w: Writer, pipe: Pipe) {
    && pipe.wire + Parked(w) == stream
    && !(w.first.Some? && w.later.Some?)
    && (w.claim > 0 ==> w.later.None?)
    && (w.first.Some? ==> w.firstPos < |w.first.value|)
    && (w.later.Some? ==> w.laterPos < |w.later.value| || (w.laterPos == 0 && w.later.value == []))
  }

  /** Before the opening call nothing has happened. Afterwards all of the stream is
      accounted for. */
  ghost predicate WireOk(key: Key, iv: Block, w: Writer, pipe: Pipe) {
    if !w.ivSent then w == FRESH && pipe.wire == [] else Accounted(Stream(key, iv, w.plain), w, pipe)
  }

  /** Encrypting more only appends to the stream. */
  lemma StreamGrows(key: Key, iv: Block, plain: Bytes, buf: Bytes)
    ensures Stream(key, iv, plain + buf) == Stream(key, iv, plain) + Cipher(key, plain, buf)
  {
    EncryptPrefix(key, plain + buf, |plain|);
    assert (plain + buf)[..|plain|] == plain;
    var c := Encrypt(key, plain + buf);
    assert c == c[..|plain|] + c[|plain|..];
  }

  lemma StreamOpens(key: Key, iv: Block, buf: Bytes)
    ensures iv + Cipher(key, [], buf) == Stream(key, iv, buf)
  {
    assert [] + buf == buf;
  }

  /** Taking n bytes of a remainder off the front leaves the sum alone. */
  lemma Taken(wire: Bytes, rest: Bytes, n: nat)
    requires n <= |rest|
    ensures (wire + rest[..n]) + rest[n..] == wire + rest
    ensures wire + rest[..n] <= wire + rest
  {
    assert rest == rest[..n] + rest[n..];
  }

  lemma RestRest(buf: Bytes, pos: nat, n: nat)
    requires pos <= |buf| && n <= |buf| - pos
    ensures Rest(buf, pos)[n..] == Rest(buf, pos + n)
  {}

  lemma {:induction false} DrainStep(pipe: Pipe, buf: Bytes, pos: nat, stream: Bytes)
    requires pos <= |buf| && pipe.wire + Rest(buf, pos) == stream
    ensures var o := Offer(pipe, Rest(buf, pos));
            && o.pipe.wire <= stream
            && (o.reply.Ready? ==> pos + o.reply.n <= |buf| && o.pipe.wire + Rest(buf, pos + o.reply.n) == stream)
            && (!o.reply.Ready? ==> o.pipe.wire + Rest(buf, pos) == stream)
  {
    var o := Offer(pipe, Rest(buf, pos));
    if o.reply.Ready? {
      Taken(pipe.wire, Rest(buf, pos), o.reply.n);
      RestRest(buf, pos, o.reply.n);
    }
  }

  /** A turn that keeps the wire in order: fully unless it ended in an error, and
      up to a prefix in any case. */
  ghost predicate GoodTurn(key: Key, iv: Block, t: Turn) {
    && (!t.poll.Error? ==> WireOk(key, iv, t.w, t.pipe))
    && t.pipe.wire <= Stream(key, iv, t.w.plain)
  }

  lemma WireOkPrefix(key: Key, iv: Block, w: Writer, pipe: Pipe)
    requires WireOk(key, iv, w, pipe)
    ensures pipe.wire <= Stream(key, iv, w.plain)
  {}

  lemma {:induction false} WriteOpeningWire(key: Key, iv: Block, w: Writer, pipe: Pipe, buf: Bytes)
    requires WireOk(key, iv, w, pipe) && !w.ivSent
    ensures GoodTurn(key, iv, WriteOpening(key, iv, w, pipe, buf))
  {
    StreamOpens(key, iv, buf);
    var output := iv + Cipher(key, [], buf);
    assert Rest(output, 0) == output && pipe.wire + output == output;
    DrainStep(pipe, output, 0, output);
    assert Rest(output, |output|) == [];
  }

  /** A parked later write of which the inner writer has taken what stands before pos. */
  lemma {:induction false} LaterMoved(stream: Bytes, w: Writer, pipe: Pipe, pos: nat)
    requires w.first.None? && w.later.Some? && w.claim == 0 && pos < |w.later.value|
    requires pipe.wire + Rest(w.later.value, pos) == stream
    ensures Accounted(stream, w.(laterPos := pos), pipe)
  {
  }

  /** The inner writer took nothing. */
  lemma {:induction false} WaitsOn(stream: Bytes, w: Writer, pipe: Pipe, after: Pipe)
    requires Accounted(stream, w, pipe) && after.wire == pipe.wire
    ensures Accounted(stream, w, after)
  {
  }

  lemma {:induction false} LaterDrained(stream: Bytes, w: Writer, pipe: Pipe)
    requires w.first.None? && w.later.Some?
    requires pipe.wire + Rest(w.later.value, |w.later.value|) == stream
    ensures Accounted(stream, w.(later := None, laterPos := 0), pipe)
  {
    assert Rest(w.later.value, |w.later.value|) == [];
  }

  lemma {:induction false} WriteRetryWire(key: Key, iv: Block, w: Writer, pipe: Pipe)
    requires WireOk(key, iv, w, pipe) && w.ivSent && w.later.Some?
    ensures GoodTurn(key, iv, WriteRetry(w, pipe))
  {
    var buf, pos, stream := w.later.value, w.laterPos, Stream(key, iv, w.plain);
    var o := Offer(pipe, Rest(buf, pos));
    DrainStep(pipe, buf, pos, stream);
    if !o.reply.Ready? {
      WaitsOn(stream, w, pipe, o.pipe);
    } else if o.reply.n > 0 && pos + o.reply.n < |buf| {
      LaterMoved(stream, w, o.pipe, pos + o.reply.n);
    } else if o.reply.n > 0 {
      LaterDrained(stream, w, o.pipe);
    }
  }

  lemma {:induction false} WriteLaterWire(key: Key, iv: Block, w: Writer, pipe: Pipe, buf: Bytes)
    requires WireOk(key, iv, w, pipe) && w.ivSent && w.first.None? && w.later.None? && w.claim == 0
    ensures GoodTurn(key, iv, WriteLater(key, w, pipe, buf))
  {
    StreamGrows(key, iv, w.plain, buf);
    var scratch := Cipher(key, w.plain, buf);
    assert pipe.wire == Stream(key, iv, w.plain);
    assert Rest(scratch, 0) == scratch;
    var stream, o := Stream(key, iv, w.plain + buf), Offer(pipe, scratch);
    DrainStep(pipe, scratch, 0, stream);
    var w1 := w.(plain := w.plain + buf, later := Some(scratch));
    if o.reply.Ready? && o.reply.n == |scratch| {
      LaterDrained(stream, w1, o.pipe);
    } else if o.reply.Ready? && o.reply.n > 0 {
      LaterMoved(stream, w1, o.pipe, o.reply.n);
    }
  }

  lemma WriteUnparkedWire(key: Key, iv: Block, w: Writer, pipe: Pipe, buf: Bytes)
    requires WireOk(key, iv, w, pipe) && w.first.None?
    ensures GoodTurn(key, iv, WriteUnparked(key, iv, w, pipe, buf))
  {
    WireOkPrefix(key, iv, w, pipe);
    if w.claim > 0 {
    } else if !w.ivSent {
      WriteOpeningWire(key, iv, w, pipe, buf);
    } else if w.later.Some? {
      WriteRetryWire(key, iv, w, pipe);
    } else {
      WriteLaterWire(key, iv, w, pipe, buf);
    }
  }

  lemma {:induction false} PollWriteWire(key: Key, iv: Block, w: Writer, pipe: Pipe, buf: Bytes)
    requires WireOk(key, iv, w, pipe)
    ensures GoodTurn(key, iv, PollWrite(key, iv, w, pipe, buf))
  {
    if w.first.None? {
      WriteUnparkedWire(key, iv, w, pipe, buf);
    } else {
      var o := Offer(pipe, Rest(w.first.value, w.firstPos));
      DrainStep(pipe, w.first.value, w.firstPos, Stream(key, iv, w.plain));
      assert Rest(w.first.value, |w.first.value|) == [];
      if o.reply.Ready? && o.reply.n > 0 && w.firstPos + o.reply.n >= |w.first.value| && w.claim == 0 {
        WriteUnparkedWire(key, iv, w.(first := None, firstPos := 0, claim := 0), o.pipe, buf);
      }
    }
  }

  lemma FlushInnerWire(key: Key, iv: Block, w: Writer, pipe: Pipe)
    requires WireOk(key, iv, w, pipe)
    ensures GoodTurn(key, iv, FlushInner(w, pipe))
  {
    WireOkPrefix(key, iv, w, pipe);
    assert pipe.wire + [] == pipe.wire;
  }

  lemma {:induction false} FlushIvWire(key: Key, iv: Block, w: Writer, pipe: Pipe)
    requires WireOk(key, iv, w, pipe) && w.first.None? && w.later.None?
    ensures GoodTurn(key, iv, FlushIv(iv, w, pipe))
  {
    if w.ivSent {
      FlushInnerWire(key, iv, w, pipe);
    } else {
      var o := Offer(pipe, iv);
      assert Stream(key, iv, []) == iv;
      assert Rest(iv, 0) == iv && pipe.wire + iv == iv;
      DrainStep(pipe, iv, 0, iv);
      assert Rest(iv, 16) == [];
      if o.reply.Ready? && o.reply.n >= 16 {
        FlushInnerWire(key, iv, w.(ivSent := true, plain := []), o.pipe);
      }
    }
  }

  lemma {:induction false} FlushLaterWire(key: Key, iv: Block, w: Writer, pipe: Pipe)
    requires WireOk(key, iv, w, pipe) && w.first.None?
    ensures GoodTurn(key, iv, FlushLater(iv, w, pipe))
  {
    if w.later.None? {
      FlushIvWire(key, iv, w, pipe);
    } else {
      var o := Offer(pipe, Rest(w.later.value, w.laterPos));
      DrainStep(pipe, w.later.value, w.laterPos, Stream(key, iv, w.plain));
      if !o.reply.Ready? {
        WaitsOn(Stream(key, iv, w.plain), w, pipe, o.pipe);
      } else if 0 < o.reply.n < |w.later.value| - w.laterPos {
        LaterMoved(Stream(key, iv, w.plain), w, o.pipe, w.laterPos + o.reply.n);
      } else if o.reply.n > 0 {
        LaterDrained(Stream(key, iv, w.plain), w, o.pipe);
        FlushIvWire(key, iv, w.(later := None, laterPos := 0), o.pipe);
      }
    }
  }

  lemma {:induction false} PollFlushWire(key: Key, iv: Block, w: Writer, pipe: Pipe)
    requires WireOk(key, iv, w, pipe)
    ensures GoodTurn(key, iv, PollFlush(iv, w, pipe))
  {
    if w.first.None? {
      FlushLaterWire(key, iv, w, pipe);
    } else {
      var o := Offer(pipe, Rest(w.first.value, w.firstPos));
      DrainStep(pipe, w.first.value, w.firstPos, Stream(key, iv, w.plain));
      assert Rest(w.first.value, |w.first.value|) == [];
      if o.reply.Ready? && o.reply.n > 0 && w.firstPos + o.reply.n >= |w.first.value| {
        FlushLaterWire(key, iv, w.(first := None, firstPos := 0), o.pipe);
      }
    }
  }

  /** `write_encrypted`: the IV if it has not gone out, then the ciphertext, written
      in full or, when the inner writer fails, up to `cut` bytes. Failing inside the IV
      it has not encrypted anything. */
  function WriteEncrypted(key: Key, iv: Block, w: Writer, pipe: Pipe, data: Bytes, cut: Option<nat>): Turn {
    var head: Bytes := if w.ivSent then [] else iv;
    var bytes := head + Cipher(key, w.plain, data);
    var w1 := w.(ivSent := true, plain := w.plain + data);
    match cut
    case None => Turn(w1, pipe.(wire := pipe.wire + bytes), Done(|data|))
    case Some(n) =>
      if n < |head| then Turn(w.(ivSent := true), pipe.(wire := pipe.wire + head[..n]), Error)
      else Turn(w1, pipe.(wire := pipe.wire + bytes[..Min(n, |bytes|)]), Error)
  }

  lemma WriteEncryptedWire(key: Key, iv: Block, w: Writer, pipe: Pipe, data: Bytes, cut: Option<nat>)
    requires WireOk(key, iv, w, pipe) && Parked(w) == []
    ensures GoodTurn(key, iv, WriteEncrypted(key, iv, w, pipe, data, cut))
  {
    var head: Bytes := if w.ivSent then [] else iv;
    var bytes := head + Cipher(key, w.plain, data);
    if cut.Some? && cut.value < |head| {
      Taken(pipe.wire, iv, cut.value);
    } else {
      StreamGrows(key, iv, w.plain, data);
      assert pipe.wire + bytes == Stream(key, iv, w.plain + data);
      assert (pipe.wire + bytes) + [] == pipe.wire + bytes;
      if cut.Some? {
        Taken(pipe.wire, bytes, Min(cut.value, |bytes|));
      }
    }
  }

  /** How much of the stream `write_encrypted` gets out: all of it, or as many bytes more as
      the inner writer took before it failed. */
  lemma WriteEncryptedTakes(key: Key, iv: Block, w: Writer, pipe: Pipe, data: Bytes, cut: Option<nat>)
    requires WireOk(key, iv, w, pipe) && Parked(w) == []
    ensures var t, stream := WriteEncrypted(key, iv, w, pipe, data, cut), Stream(key, iv, w.plain + data);
            match cut
            case None => t.pipe.wire == stream && t.poll == Done(|data|)
            case Some(n) => t.pipe.wire == stream[..Min(|pipe.wire| + n, |stream|)] && t.poll == Error
  {
    var head: Bytes := if w.ivSent then [] else iv;
    var bytes := head + Cipher(key, w.plain, data);
    StreamGrows(key, iv, w.plain, data);
    assert pipe.wire + bytes == Stream(key, iv, w.plain + data);
    if cut.Some? {
      CutShort(pipe.wire, head, Cipher(key, w.plain, data), cut.value);
    }
  }

  lemma CutShort(wire: Bytes, head: Bytes, body: Bytes, n: nat)
    ensures n < |head| ==> wire + head[..n] == (wire + (head + body))[..|wire| + n]
    ensures wire + (head + body)[..Min(n, |head + body|)]
         == (wire + (head + body))[..Min(|wire| + n, |wire + (head + body)|)]
  {
  }

  /** One ciphertext byte, by the choice of its plaintext byte, can be any byte. */
  lemma CipherByte(key: Key, plain: Bytes, y: bv8) returns (x: bv8)
    ensures Cipher(key, plain, [x]) == [y]
  {
    var k := key(Encrypt(key, plain));
    x := Xor8(y, k);
    XorTwice(y, k);
    assert (plain + [x])[..|plain|] == plain;
    assert Encrypt(key, plain + [x]) == Encrypt(key, plain) + [Xor8(x, k)];
  }

  lemma OvertakesParked(key: Key, iv: Block, w: Writer, pipe: Pipe, data: Bytes)
    requires WireOk(key, iv, w, pipe) && Parked(w) != []
    requires data != [] && Cipher(key, w.plain, data)[0] != Parked(w)[0]
    ensures !(WriteEncrypted(key, iv, w, pipe, data, None).pipe.wire <= Stream(key, iv, w.plain + data))
  {
    var wire := WriteEncrypted(key, iv, w, pipe, data, None).pipe.wire;
    var stream := Stream(key, iv, w.plain + data);
    StreamGrows(key, iv, w.plain, data);
    var i := |pipe.wire|;
    assert wire[i] == Cipher(key, w.plain, data)[0];
    assert Stream(key, iv, w.plain)[i] == Parked(w)[0];
    assert stream[i] == Stream(key, iv, w.plain)[i];
  }

  /** Exactly when `write_encrypted` is safe: it keeps the wire right whatever it is given
      and wherever the inner writer fails if and only if nothing is parked. */
  lemma WriteEncryptedExact(key: Key, iv: Block, w: Writer, pipe: Pipe)
    requires WireOk(key, iv, w, pipe)
    ensures (forall data, cut :: GoodTurn(key, iv, WriteEncrypted(key, iv, w, pipe, data, cut)))
       <==> Parked(w) == []
  {
    if Parked(w) == [] {
      forall data, cut ensures GoodTurn(key, iv, WriteEncrypted(key, iv, w, pipe, data, cut)) {
        WriteEncryptedWire(key, iv, w, pipe, data, cut);
      }
    } else {
      var x := CipherByte(key, w.plain, Xor8(Parked(w)[0], 1));
      OtherByte(Parked(w)[0]);
      OvertakesParked(key, iv, w, pipe, [x]);
      assert !GoodTurn(key, iv, WriteEncrypted(key, iv, w, pipe, [x], None));
    }
  }

  lemma OtherByte(y: bv8)
    ensures Xor8(y, 1) != y
  {}

  /** Whatever the inner writer answers, it takes some prefix of what it is offered. */
  lemma OfferTakesPrefix(pipe: Pipe, data: Bytes)
    ensures pipe.wire <= Offer(pipe, data).pipe.wire <= pipe.wire + data
  {
    var o := Offer(pipe, data);
    if o.reply.Ready? {
      Taken(pipe.wire, data, o.reply.n);
    }
  }

  lemma InnerShutdown(w: Writer, pipe: Pipe)
    ensures FlushInner(w, pipe).w == w && FlushInner(w, pipe).pipe.wire == pipe.wire
  {}

  /** A discarding shutdown leaves a prefix of the stream, and nothing parked. */
  lemma PollShutdownWire(key: Key, iv: Block, w: Writer, pipe: Pipe)
    requires WireOk(key, iv, w, pipe)
    ensures var t := PollShutdown(w, pipe);
            && t.pipe.wire <= Stream(key, iv, t.w.plain) && t.w.plain == w.plain
            && pipe.wire <= t.pipe.wire
            && t.w.first.None? && t.w.later.None?
  {
    WireOkPrefix(key, iv, w, pipe);
    OfferTakesPrefix(pipe, Parked(w));
    var after := Offer(pipe, Parked(w)).pipe;
    if w.first.Some? {
      InnerShutdown(w.(first := None, firstPos := 0, claim := 0), after);
    } else if w.later.Some? {
      InnerShutdown(w.(later := None, laterPos := 0), after);
    } else {
      InnerShutdown(w, pipe);
    }
  }
}
