/** The virtual-net packet framer without compression: a reader that keeps a consumed
    prefix and compacts it, and the writer, against plain parsing of the whole wire. */
module Framer {
  import opened Wrappers

  type Byte = x: int | 0 <= x < 256

  const MAX_MESSAGE: nat := 1048576
  const READ_SIZE: nat := 4096
  const U32: nat := 0x1_0000_0000

  // ----- what the wire means

  /** `u32::from_le_bytes`. */
  function FromLe(w: seq<Byte>): (n: nat)
    requires |w| == 4
    ensures n < U32
  {
    w[0] as int + 256 * (w[1] as int) + 65536 * (w[2] as int) + 16777216 * (w[3] as int)
  }

  lemma LowDigit(a: int, b: int, c: int, d: int)
    requires 0 <= a < 256 && 0 <= c < 256 && a + 256 * b == c + 256 * d
    ensures a == c && b == d
  {
  }

  lemma LeUnique(v: seq<Byte>, w: seq<Byte>)
    requires |v| == |w| == 4 && FromLe(v) == FromLe(w)
    ensures v == w
  {
    LowDigit(v[0], v[1] as int + 256 * (v[2] as int + 256 * (v[3] as int)),
             w[0], w[1] as int + 256 * (w[2] as int + 256 * (w[3] as int)));
    LowDigit(v[1], v[2] as int + 256 * (v[3] as int), w[1], w[2] as int + 256 * (w[3] as int));
    LowDigit(v[2], v[3], w[2], w[3]);
  }

  /** The four bytes that read back as n; `EncodeLe` computes them. */
  ghost function ToLe(n: nat): (w: seq<Byte>)
    requires n < U32
    ensures |w| == 4 && FromLe(w) == n
  {
    LeExists(n);
    var w: seq<Byte> :| |w| == 4 && FromLe(w) == n;
    w
  }

  lemma LeExists(n: nat)
    requires n < U32
    ensures exists w: seq<Byte> :: |w| == 4 && FromLe(w) == n
  {
    var a, b, c := n / 256, n / 256 / 256, n / 256 / 256 / 256;
    var w: seq<Byte> := [n % 256, a % 256, b % 256, c];
    assert n == n % 256 + 256 * (a % 256 + 256 * (b % 256 + 256 * c));
    assert FromLe(w) == n;
  }

  /** `u32::to_le_bytes`. */
  method EncodeLe(n: nat) returns (w: seq<Byte>)
    requires n < U32
    ensures w == ToLe(n)
  {
    var a, b, c := n / 256, n / 256 / 256, n / 256 / 256 / 256;
    w := [n % 256, a % 256, b % 256, c];
    assert n == n % 256 + 256 * (a % 256 + 256 * (b % 256 + 256 * c));
    LeUnique(w, ToLe(n));
  }

  datatype Outcome =
    | Packet(data: seq<Byte>)
    | Closed
    | UnexpectedEof
    | ZeroLength
    | TooLarge(length: nat)

  datatype Parse = Parse(outcome: Outcome, rest: seq<Byte>)

  /** The first thing on a wire that ends where `wire` ends. */
  function ParseNext(wire: seq<Byte>): Parse {
    if |wire| < 4 then Parse(if wire == [] then Closed else UnexpectedEof, wire)
    else
      var n := FromLe(wire[..4]);
      if n == 0 then Parse(ZeroLength, wire)
      else if n > MAX_MESSAGE then Parse(TooLarge(n), wire)
      else if |wire| < 4 + n then Parse(UnexpectedEof, wire)
      else Parse(Packet(wire[4..4 + n]), wire[4 + n..])
  }

  /** Only more bytes can tell what comes next. */
  predicate NeedMore(wire: seq<Byte>) {
    ParseNext(wire).outcome.Closed? || ParseNext(wire).outcome.UnexpectedEof?
  }

  /** A length below 256 is sent lowest byte first. */
  lemma {:induction false} SmallLength(n: nat)
    requires n < 256
    ensures ToLe(n) == [n, 0, 0, 0]
  {
    LeUnique(ToLe(n), [n, 0, 0, 0]);
  }

  /** The second byte counts for 256, the third for 65536, the fourth for 16777216. */
  lemma {:induction false} LengthOfByte(b: Byte)
    ensures ToLe(256 * (b as nat)) == [0, b, 0, 0]
    ensures ToLe(65536 * (b as nat)) == [0, 0, b, 0]
    ensures ToLe(16777216 * (b as nat)) == [0, 0, 0, b]
  {
    LeUnique(ToLe(256 * (b as nat)), [0, b, 0, 0]);
    LeUnique(ToLe(65536 * (b as nat)), [0, 0, b, 0]);
    LeUnique(ToLe(16777216 * (b as nat)), [0, 0, 0, b]);
  }

  /** Once decided, what comes next does not depend on the bytes that follow. */
  lemma ParseExtends(u: seq<Byte>, more: seq<Byte>)
    requires !NeedMore(u)
    ensures ParseNext(u + more).outcome == ParseNext(u).outcome
    ensures ParseNext(u).outcome.Packet? ==> ParseNext(u + more).rest == ParseNext(u).rest + more
  {
    var w := u + more;
    assert w[..4] == u[..4];
    if ParseNext(u).outcome.Packet? {
      var n := FromLe(u[..4]);
      assert w[4..4 + n] == u[4..4 + n];
      assert w[4 + n..] == u[4 + n..] + more;
    }
  }

  /** An undecided buffer is short of one maximal frame. */
  lemma NeedMoreIsShort(u: seq<Byte>)
    requires NeedMore(u)
    ensures |u| < 4 + MAX_MESSAGE
  {
  }

  // ----- the source

  function Flatten(chunks: seq<seq<Byte>>): seq<Byte> {
    if chunks == [] then [] else chunks[0] + Flatten(chunks[1..])
  }

  /** What each read returns: one to 4096 bytes, and nothing once the peer has closed. */
  predicate Readable(chunks: seq<seq<Byte>>) {
    forall i :: 0 <= i < |chunks| ==> 0 < |chunks[i]| <= READ_SIZE
  }

  class Source {
    var chunks: seq<seq<Byte>>

    constructor (chunks: seq<seq<Byte>>)
      ensures this.chunks == chunks
    {
      this.chunks := chunks;
    }

    method Read() returns (chunk: seq<Byte>)
      modifies this
      ensures old(chunks) == [] ==> chunk == [] && chunks == []
      ensures old(chunks) != [] ==> chunk == old(chunks)[0] && chunks == old(chunks)[1..]
    {
      if chunks == [] {
        return [];
      }
      chunk := chunks[0];
      chunks := chunks[1..];
    }
  }

  lemma DropThenSlice<T>(s: seq<T>, i: nat, a: nat, b: nat)
    requires a <= b && i + b <= |s|
    ensures s[i..][a..b] == s[i + a..i + b] && s[i..][b..] == s[i + b..]
    ensures a == 0 ==> s[i..][..b] == s[i..i + b]
  {
  }

  /** Parsing from a cursor, in terms of the whole buffer. */
  lemma ParseAt(buf: seq<Byte>, start: nat)
    requires start <= |buf|
    ensures |buf| < start + 4 ==> NeedMore(buf[start..])
    ensures start + 4 <= |buf| ==>
              var n := FromLe(buf[start..start + 4]);
              var p := ParseNext(buf[start..]);
              if n == 0 then p.outcome == ZeroLength
              else if n > MAX_MESSAGE then p.outcome == TooLarge(n)
              else if |buf| < start + 4 + n then NeedMore(buf[start..])
              else p == Parse(Packet(buf[start + 4..start + 4 + n]), buf[start + 4 + n..])
  {
    if start + 4 <= |buf| {
      DropThenSlice(buf, start, 0, 4);
      var n := FromLe(buf[start..start + 4]);
      if start + 4 + n <= |buf| {
        DropThenSlice(buf, start, 4, 4 + n);
      }
    }
  }

  // ----- the reader

  /** The largest `stream_buf` ever gets. */
  const BUFFER_BOUND: nat := MAX_MESSAGE + 8194

  /** Less than one read follows the first packet. */
  predicate Roomy(unread: seq<Byte>) {
    ParseNext(unread).outcome.Packet? ==> |ParseNext(unread).rest| < READ_SIZE
  }

  /** A read that completes a frame contributes to it, so less than one read is left. */
  lemma ReadRoomy(u: seq<Byte>, chunk: seq<Byte>)
    requires NeedMore(u) && |chunk| <= READ_SIZE
    ensures Roomy(u + chunk)
  {
    if |u| >= 4 {
      assert (u + chunk)[..4] == u[..4];
    }
  }

  lemma AppendKeepsWire(buf: seq<Byte>, pos: nat, chunk: seq<Byte>, rest: seq<Byte>)
    requires pos <= |buf|
    ensures (buf + chunk)[pos..] == buf[pos..] + chunk
    ensures (buf + chunk)[pos..] + rest == buf[pos..] + (chunk + rest)
  {
  }

  /** Less than a read left unread means less still after its first packet. */
  lemma ShortIsRoomy(u: seq<Byte>)
    requires |u| < READ_SIZE
    ensures Roomy(u)
  {
  }

  class TunnelPacketReader {
    const source: Source
    var streamBuf: seq<Byte>
    var readPos: nat
    var eof: bool
    /** The greatest length `streamBuf` has had. */
    ghost var peak: nat

    ghost predicate Valid()
      reads this, source
    {
      && readPos < READ_SIZE
      && readPos <= |streamBuf|
      && Roomy(Unread())
      && |streamBuf| <= peak <= BUFFER_BOUND
      && Readable(source.chunks)
      && (eof ==> NeedMore(Unread()))
    }

    function Unread(): seq<Byte>
      requires readPos <= |streamBuf|
      reads this
    {
      streamBuf[readPos..]
    }

    /** Everything not yet delivered. */
    function Wire(): seq<Byte>
      requires readPos <= |streamBuf|
      reads this, source
    {
      Unread() + Flatten(source.chunks)
    }

    constructor (source: Source)
      requires Readable(source.chunks)
      ensures this.source == source && Valid() && !eof && Wire() == Flatten(source.chunks) && peak == 0
    {
      this.source := source;
      streamBuf, readPos, eof, peak := [], 0, false, 0;
    }

    /** Takes one message off the buffer if a whole one is there, and compacts. */
    method TakeCompleteMessage() returns (r: Option<Outcome>)
      requires readPos < READ_SIZE && readPos <= |streamBuf|
      modifies this`streamBuf, this`readPos
      ensures readPos <= |streamBuf| <= |old(streamBuf)|
      ensures r.None? <==> NeedMore(old(Unread()))
      ensures r.Some? ==> r.value == ParseNext(old(Unread())).outcome
      ensures r.Some? && r.value.Packet? ==> Unread() == ParseNext(old(Unread())).rest
      ensures r.Some? && r.value.Packet? ==>
                var end := old(readPos) + 4 + |r.value.data|;
                if end >= 4096 && |old(streamBuf)| - end < 4096
                then readPos == 0 && streamBuf == old(streamBuf)[end..]
                else readPos == end && streamBuf == old(streamBuf)
      ensures r.Some? && r.value.Packet? && |Unread()| < READ_SIZE ==> readPos < READ_SIZE
      ensures !(r.Some? && r.value.Packet?) ==> streamBuf == old(streamBuf) && readPos == old(readPos)
    {
      var start := readPos;
      ParseAt(streamBuf, start);
      if |streamBuf| < start + 4 {
        return None;
      }
      var n := FromLe(streamBuf[start..start + 4]);
      if n == 0 {
        return Some(ZeroLength);
      }
      if n > MAX_MESSAGE {
        return Some(TooLarge(n));
      }
      if |streamBuf| < start + 4 + n {
        return None;
      }
      var packet := streamBuf[start + 4..start + 4 + n];
      readPos := start + 4 + n;
      if readPos >= 4096 && |streamBuf| - readPos < 4096 {
        streamBuf := streamBuf[readPos..];
        readPos := 0;
      }
      return Some(Packet(packet));
    }

    method NextPacket() returns (r: Outcome)
      requires Valid()
      modifies this, source
      ensures Valid()
      ensures old(eof) ==> r == Closed && eof && Wire() == old(Wire())
      ensures !old(eof) ==> r == ParseNext(old(Wire())).outcome
      ensures r.Packet? ==> !eof && Wire() == ParseNext(old(Wire())).rest
      ensures r.Packet? ==> readPos < READ_SIZE && |Unread()| < READ_SIZE
      ensures !r.Packet? ==> Wire() == old(Wire())
      ensures !old(eof) ==> (eof <==> r.Closed? || r.UnexpectedEof?)
      ensures peak >= old(peak)
    {
      while true
        invariant Valid() && eof == old(eof) && peak >= old(peak)
        invariant Wire() == old(Wire())
        decreases |source.chunks|
      {
        ghost var unread, rest := Unread(), Flatten(source.chunks);
        var message := TakeCompleteMessage();
        if message.Some? {
          ParseExtends(unread, rest);
          if message.value.Packet? {
            ShortIsRoomy(Unread());
          }
          return message.value;
        }
        if eof {
          return Closed;
        }
        var more := ReadMore();
        if !more {
          assert unread + rest == unread;
          if |streamBuf| > readPos {
            return UnexpectedEof;
          }
          return Closed;
        }
      }
    }

    /** One read, appended to the buffer; false at the end of the stream. */
    method ReadMore() returns (more: bool)
      requires Valid() && !eof && NeedMore(Unread())
      modifies this`streamBuf, this`eof, this`peak, source
      ensures Valid() && Wire() == old(Wire()) && peak >= old(peak)
      ensures more ==> !eof && |source.chunks| < |old(source.chunks)|
      ensures !more ==> eof && streamBuf == old(streamBuf) && old(source.chunks) == []
    {
      ghost var unread := Unread();
      var chunk := source.Read();
      if chunk == [] {
        eof := true;
        return false;
      }
      NeedMoreIsShort(unread);
      ReadRoomy(unread, chunk);
      AppendKeepsWire(streamBuf, readPos, chunk, Flatten(source.chunks));
      streamBuf := streamBuf + chunk;
      peak := if peak < |streamBuf| then |streamBuf| else peak;
      return true;
    }

    /** Calls `NextPacket` until it returns something else than a packet. */
    method ReadAll() returns (packets: seq<seq<Byte>>, last: Outcome)
      requires Valid() && !eof
      modifies this, source
      ensures Valid()
      ensures Delivery(packets, last) == ParseAll(old(Wire()))
      ensures eof <==> last.Closed? || last.UnexpectedEof?
    {
      packets := [];
      ghost var start := Wire();
      while true
        invariant Valid() && !eof
        invariant Progress(start, packets, Wire())
        decreases |Wire()|
      {
        ghost var wire := Wire();
        var r := NextPacket();
        if !r.Packet? {
          last := r;
          Finish(start, packets, wire);
          return;
        }
        Advance(start, packets, wire);
        packets := packets + [r.data];
      }
    }
  }

  // ----- whole streams

  datatype Delivery = Delivery(packets: seq<seq<Byte>>, last: Outcome)

  function ParseAll(wire: seq<Byte>): Delivery
    decreases |wire|
  {
    var p := ParseNext(wire);
    if p.outcome.Packet? then
      var later := ParseAll(p.rest);
      Delivery([p.outcome.data] + later.packets, later.last)
    else Delivery([], p.outcome)
  }

  /** `done` and what `wire` still holds are what `start` held. */
  predicate Progress(start: seq<Byte>, done: seq<seq<Byte>>, wire: seq<Byte>) {
    ParseAll(start) == Delivery(done + ParseAll(wire).packets, ParseAll(wire).last)
  }

  lemma {:induction false} Advance(start: seq<Byte>, done: seq<seq<Byte>>, wire: seq<Byte>)
    requires Progress(start, done, wire) && ParseNext(wire).outcome.Packet?
    ensures Progress(start, done + [ParseNext(wire).outcome.data], ParseNext(wire).rest)
    ensures |ParseNext(wire).rest| < |wire|
  {
    var p := ParseNext(wire);
    var later := ParseAll(p.rest).packets;
    assert (done + [p.outcome.data]) + later == done + ([p.outcome.data] + later);
  }

  lemma {:induction false} Finish(start: seq<Byte>, done: seq<seq<Byte>>, wire: seq<Byte>)
    requires Progress(start, done, wire) && !ParseNext(wire).outcome.Packet?
    ensures ParseAll(start) == Delivery(done, ParseNext(wire).outcome)
  {
    assert done + [] == done;
  }

  predicate Sized(p: seq<Byte>) {
    1 <= |p| <= MAX_MESSAGE
  }

  /** `[u32 LE length][data]`; the length is cut to 32 bits as the writer's cast does. */
  ghost function Frame(p: seq<Byte>): seq<Byte> {
    ToLe(|p| % U32) + p
  }

  ghost function FrameAll(packets: seq<seq<Byte>>): seq<Byte> {
    if packets == [] then [] else Frame(packets[0]) + FrameAll(packets[1..])
  }

  lemma ConsAppend<T>(s: seq<T>, t: seq<T>)
    requires s != []
    ensures [s[0]] + (s[1..] + t) == s + t
  {
  }

  lemma Cut3<T>(s: seq<T>, i: nat, j: nat)
    requires i <= j <= |s|
    ensures s == s[..i] + s[i..j] + s[j..]
  {
  }

  lemma ParseFrame(p: seq<Byte>, tail: seq<Byte>)
    requires Sized(p)
    ensures ParseNext(Frame(p) + tail) == Parse(Packet(p), tail)
  {
    var w := Frame(p) + tail;
    assert w[..4] == ToLe(|p|);
    assert w[4..4 + |p|] == p;
    assert w[4 + |p|..] == tail;
  }

  /** Frames are delivered one for one, whatever comes after them. */
  lemma {:induction false} ParseFrames(packets: seq<seq<Byte>>, tail: seq<Byte>)
    requires forall i :: 0 <= i < |packets| ==> Sized(packets[i])
    ensures ParseAll(FrameAll(packets) + tail) == Delivery(packets + ParseAll(tail).packets, ParseAll(tail).last)
  {
    if packets == [] {
      assert FrameAll(packets) + tail == tail;
    } else {
      var later := FrameAll(packets[1..]) + tail;
      assert FrameAll(packets) + tail == Frame(packets[0]) + later;
      ParseFrame(packets[0], later);
      ParseFrames(packets[1..], tail);
      ConsAppend(packets, ParseAll(tail).packets);
    }
  }

  /** A wire cut inside a frame is undecided. */
  lemma CutFrame(p: seq<Byte>, k: nat)
    requires Sized(p) && 0 < k < |Frame(p)|
    ensures ParseNext(Frame(p)[..k]) == Parse(UnexpectedEof, Frame(p)[..k])
  {
    if k >= 4 {
      assert Frame(p)[..k][..4] == ToLe(|p|);
    }
  }

  lemma {:induction false} CutDelivery(sent: seq<seq<Byte>>, p: seq<Byte>, k: nat)
    requires Sized(p) && 0 < k < |Frame(p)|
    requires forall i :: 0 <= i < |sent| ==> Sized(sent[i])
    ensures ParseAll(FrameAll(sent) + Frame(p)[..k]) == Delivery(sent, UnexpectedEof)
  {
    ParseFrames(sent, Frame(p)[..k]);
    CutFrame(p, k);
    assert sent + [] == sent;
  }

  /** Any split into reads of any packets within bounds: exactly those packets come out,
      and then the end. */
  method ReceiveAll(chunks: seq<seq<Byte>>, ghost sent: seq<seq<Byte>>) returns (packets: seq<seq<Byte>>, last: Outcome)
    requires Readable(chunks) && Flatten(chunks) == FrameAll(sent)
    requires forall i :: 0 <= i < |sent| ==> Sized(sent[i])
    ensures packets == sent && last == Closed
  {
    var source := new Source(chunks);
    var reader := new TunnelPacketReader(source);
    packets, last := reader.ReadAll();
    assert FrameAll(sent) + [] == FrameAll(sent);
    ParseFrames(sent, []);
  }

  /** The wire cut inside a frame: the packets before it, then the error, then the end. */
  method ReceiveCut(chunks: seq<seq<Byte>>, ghost sent: seq<seq<Byte>>, ghost p: seq<Byte>, ghost k: nat)
    returns (packets: seq<seq<Byte>>, last: Outcome, again: Outcome)
    requires Sized(p) && 0 < k < |Frame(p)|
    requires Readable(chunks) && Flatten(chunks) == FrameAll(sent) + Frame(p)[..k]
    requires forall i :: 0 <= i < |sent| ==> Sized(sent[i])
    ensures packets == sent && last == UnexpectedEof && again == Closed
  {
    var source := new Source(chunks);
    var reader := new TunnelPacketReader(source);
    CutDelivery(sent, p, k);
    packets, last := reader.ReadAll();
    again := reader.NextPacket();
  }

  lemma FrameAllCons(p: seq<Byte>, packets: seq<seq<Byte>>)
    ensures FrameAll([p] + packets) == Frame(p) + FrameAll(packets)
  {
    assert ([p] + packets)[1..] == packets;
  }

  lemma PrefixAfter<T>(a: seq<T>, x: seq<T>, y: seq<T>)
    requires x <= y
    ensures a + x <= a + y
  {
  }

  lemma FrameOf(header: seq<Byte>, data: seq<Byte>)
    requires |header| == 4 && FromLe(header) == |data|
    ensures Frame(data) == header + data
  {
    assert |data| < U32 && |data| % U32 == |data|;
    LeUnique(header, ToLe(|data|));
  }

  lemma ParsedIsFramed(wire: seq<Byte>)
    requires ParseNext(wire).outcome.Packet?
    ensures wire == Frame(ParseNext(wire).outcome.data) + ParseNext(wire).rest
  {
    var data := ParseNext(wire).outcome.data;
    FrameOf(wire[..4], data);
    Cut3(wire, 4, 4 + |data|);
  }

  /** A packet is read exactly where its frame stands at the front of the wire. */
  lemma PacketExact(wire: seq<Byte>, p: seq<Byte>, rest: seq<Byte>)
    ensures ParseNext(wire) == Parse(Packet(p), rest) <==> Sized(p) && wire == Frame(p) + rest
  {
    if ParseNext(wire) == Parse(Packet(p), rest) {
      ParsedIsFramed(wire);
    }
    if Sized(p) && wire == Frame(p) + rest {
      ParseFrame(p, rest);
    }
  }

  /** Something of p's frame has arrived, and not all of it. */
  ghost predicate Begins(wire: seq<Byte>, p: seq<Byte>) {
    Sized(p) && wire < Frame(p)
  }

  /** Exactly when each error and the end are reported, with 1048576 the largest length. */
  lemma {:induction false} ErrorsExact(wire: seq<Byte>)
    ensures var r, header := ParseNext(wire).outcome, if |wire| < 4 then [] else wire[..4];
            && (r.Closed? <==> wire == [])
            && (r.ZeroLength? <==> header == [0, 0, 0, 0])
            && (forall n: nat :: r == TooLarge(n) <==> 1048576 < n < U32 && header == ToLe(n))
            && (r.UnexpectedEof? <==> wire != [] && (|wire| < 4 || exists p :: Begins(wire, p)))
  {
    if |wire| >= 4 {
      HeaderExact(wire);
      if ParseNext(wire).outcome.UnexpectedEof? {
        BegunIsPrefix(wire);
      }
      forall p | Begins(wire, p) ensures ParseNext(wire).outcome.UnexpectedEof? {
        assert Frame(p)[..|wire|] == wire;
        CutFrame(p, |wire|);
      }
    }
  }

  lemma {:induction false} HeaderExact(wire: seq<Byte>)
    requires |wire| >= 4
    ensures FromLe(wire[..4]) == 0 <==> wire[..4] == [0, 0, 0, 0]
    ensures forall n: nat :: n < U32 ==> (FromLe(wire[..4]) == n <==> wire[..4] == ToLe(n))
  {
    if FromLe(wire[..4]) == 0 {
      LeUnique(wire[..4], [0, 0, 0, 0]);
    }
    LeUnique(wire[..4], ToLe(FromLe(wire[..4])));
  }

  lemma {:induction false} BegunIsPrefix(wire: seq<Byte>)
    requires |wire| >= 4 && ParseNext(wire).outcome.UnexpectedEof?
    ensures exists p :: Begins(wire, p)
  {
    var n := FromLe(wire[..4]);
    var missing: seq<Byte> := seq(n + 4 - |wire|, _ => 0);
    var p := wire[4..] + missing;
    FrameOf(wire[..4], p);
    assert wire == wire[..4] + wire[4..];
    assert Frame(p) == wire + missing;
    assert Begins(wire, p);
  }

  /** Nothing is delivered that is not framed on the wire. */
  lemma {:induction false} DeliveredIsFramed(wire: seq<Byte>)
    ensures FrameAll(ParseAll(wire).packets) <= wire
    decreases |wire|
  {
    var p := ParseNext(wire);
    if p.outcome.Packet? {
      var later := ParseAll(p.rest).packets;
      ParsedIsFramed(wire);
      DeliveredIsFramed(p.rest);
      FrameAllCons(p.outcome.data, later);
      PrefixAfter(Frame(p.outcome.data), FrameAll(later), p.rest);
    }
  }

  // ----- the writer

  datatype WriteResult = Written | EmptyPacket | PacketTooLarge(length: nat)

  class TunnelPacketWriter {
    /** What `write_all` has put on the wire. */
    var wire: seq<Byte>

    constructor ()
      ensures wire == []
    {
      wire := [];
    }

    method WritePacket(packet: seq<Byte>) returns (r: WriteResult)
      modifies this
      ensures r.Written? <==> Sized(packet) || (|packet| >= U32 && 1 <= |packet| % U32 <= MAX_MESSAGE)
      ensures r.EmptyPacket? <==> |packet| % U32 == 0
      ensures r.PacketTooLarge? ==> r.length == |packet| % U32 > MAX_MESSAGE
      ensures wire == if r.Written? then old(wire) + Frame(packet) else old(wire)
    {
      var n := |packet| % U32;
      if n == 0 {
        return EmptyPacket;
      }
      if n > MAX_MESSAGE {
        return PacketTooLarge(n);
      }
      var header := EncodeLe(n);
      var frame := header + packet;
      wire := wire + frame;
      return Written;
    }
  }

  /** A frame the writer accepts reads back as the packet exactly when its length did not
      need cutting to 32 bits. */
  lemma WrittenReadsBack(p: seq<Byte>)
    requires 1 <= |p| % U32 <= MAX_MESSAGE
    ensures ParseNext(Frame(p)).outcome == Packet(p[..|p| % U32])
    ensures ParseNext(Frame(p)) == Parse(Packet(p), []) <==> |p| <= MAX_MESSAGE
  {
    var n := |p| % U32;
    var w := Frame(p);
    assert w[..4] == ToLe(n);
    assert w[4..4 + n] == p[..n];
    if |p| <= MAX_MESSAGE {
      assert p[..n] == p;
      assert w[4 + n..] == [];
    }
  }
}
