/** The reader of the cipher stream (`CipherReader`), as a function of how the
    inner stream cuts up its bytes, and the end-to-end theorem: whatever the writer
    was made to do and however the wire is cut, what comes out is what went in. */
module CipherReader {
  import opened LittleEndian
  import opened StreamMode
  import opened Wrappers
  import opened Cfb
  import opened CipherWriter
  import opened CipherSession

  /** One answer of the inner `poll_read`: about n bytes, not ready, or a failure. */
  datatype ReadReply = Chunk(n: nat) | NotReady | Broken

  /** The inner stream: the bytes still to come before it ends, and how it answers. */
  datatype Source = Source(rest: Bytes, replies: seq<ReadReply>)

  datatype Fetched = Bytes(bytes: Bytes, src: Source) | Empty(src: Source) | Broke(src: Source)

  /** How many bytes one read gives: none only for a full buffer or at the end. */
  function ChunkSize(n: nat, cap: nat, left: nat): (m: nat)
    ensures m <= cap && m <= left && (m == 0 <==> cap == 0 || left == 0)
  {
    if cap == 0 || left == 0 then 0
    else if n == 0 then 1
    else Min(n, Min(cap, left))
  }

  function Fetch(src: Source, cap: nat): (f: Fetched)
    ensures f.Bytes? ==> |f.bytes| <= cap && f.bytes + f.src.rest == src.rest
    ensures f.Bytes? ==> (f.bytes == [] <==> cap == 0 || src.rest == [])
    ensures !f.Bytes? ==> f.src.rest == src.rest
  {
    if src.replies == [] then Empty(src) else
      var later := src.replies[1..];
      match src.replies[0]
      case Chunk(n) =>
        var m := ChunkSize(n, cap, |src.rest|);
        Bytes(src.rest[..m], Source(src.rest[m..], later))
      case NotReady => Empty(Source(src.rest, later))
      case Broken => Broke(Source(src.rest, later))
  }

  datatype ReaderFields = ReaderFields(iv: Bytes, past: Bytes)
  type Reader = r: ReaderFields | |r.iv| <= 16 witness ReaderFields([], [])

  const UNREAD: Reader := ReaderFields([], [])

  datatype ReadPoll = Got(bytes: Bytes) | Waiting | EofInIv | ReadError
  datatype ReadTurn = ReadTurn(r: Reader, src: Source, poll: ReadPoll)

  /** The plaintext of the bytes c after ciphertext past. */
  function Plain(key: Key, past: Bytes, c: Bytes): (p: Bytes)
    ensures |p| == |c|
  {
    Decrypt(key, past + c)[|past|..]
  }

  function PollRead(aes: Aes, r: Reader, src: Source, cap: nat): ReadTurn {
    if |r.iv| == 16 then ReadBody(aes, r, src, cap) else
      match Fetch(src, 16 - |r.iv|)
      case Empty(src1) => ReadTurn(r, src1, Waiting)
      case Broke(src1) => ReadTurn(r, src1, ReadError)
      case Bytes(bytes, src1) =>
        if bytes == [] then ReadTurn(r, src1, EofInIv) else
          var r1: Reader := r.(iv := r.iv + bytes);
          if |r1.iv| < 16 then ReadTurn(r1, src1, Waiting)
          else ReadBody(aes, r1, src1, cap)
  }

  function ReadBody(aes: Aes, r: Reader, src: Source, cap: nat): ReadTurn
    requires |r.iv| == 16
  {
    match Fetch(src, cap)
    case Empty(src1) => ReadTurn(r, src1, Waiting)
    case Broke(src1) => ReadTurn(r, src1, ReadError)
    case Bytes(bytes, src1) =>
      ReadTurn(r.(past := r.past + bytes), src1, Got(Plain(CfbKey(aes, r.iv), r.past, bytes)))
  }

  /** A reading session: what has been handed to the caller, and whether it failed. */
  datatype Reading = Reading(r: Reader, src: Source, out: Bytes, failed: bool)

  function ReadStep(aes: Aes, g: Reading, cap: nat): Reading {
    if g.failed then g else
      AfterRead(g, PollRead(aes, g.r, g.src, cap))
  }

  /** Reads with buffers of the given sizes, from a stream of these bytes. */
  function ReadRun(aes: Aes, whole: Bytes, replies: seq<ReadReply>, caps: seq<nat>): Reading {
    if caps == [] then Reading(UNREAD, Source(whole, replies), [], false)
    else ReadStep(aes, ReadRun(aes, whole, replies, caps[..|caps| - 1]), caps[|caps| - 1])
  }

  /** Every byte is either still to come, part of the IV or already deciphered. */
  ghost predicate ReadInv(aes: Aes, whole: Bytes, g: Reading) {
    && whole == g.r.iv + g.r.past + g.src.rest
    && (if |g.r.iv| == 16 then g.out == Decrypt(CfbKey(aes, g.r.iv), g.r.past)
        else g.r.past == [] && g.out == [])
  }

  lemma {:induction false} DecryptPrefixOf(key: Key, a: Bytes, b: Bytes)
    ensures Decrypt(key, a + b)[..|a|] == Decrypt(key, a)
  {
    if b == [] {
      assert a + b == a;
    } else {
      DecryptPrefixOf(key, a, b[..|b| - 1]);
      assert (a + b)[..|a + b| - 1] == a + b[..|b| - 1];
    }
  }

  lemma PlainAppends(key: Key, past: Bytes, c: Bytes)
    ensures Decrypt(key, past) + Plain(key, past, c) == Decrypt(key, past + c)
  {
    DecryptPrefixOf(key, past, c);
    var d := Decrypt(key, past + c);
    assert d == d[..|past|] + d[|past|..];
  }

  lemma Regroup(a: Bytes, b: Bytes, c: Bytes, d: Bytes)
    ensures a + (b + c) + d == a + b + (c + d)
  {}

  function AfterRead(g: Reading, t: ReadTurn): Reading {
    Reading(t.r, t.src, if t.poll.Got? then g.out + t.poll.bytes else g.out,
            t.poll.EofInIv? || t.poll.ReadError?)
  }

  lemma BodyInv(aes: Aes, whole: Bytes, g: Reading, cap: nat)
    requires ReadInv(aes, whole, g) && |g.r.iv| == 16
    ensures ReadInv(aes, whole, AfterRead(g, ReadBody(aes, g.r, g.src, cap)))
  {
    var f := Fetch(g.src, cap);
    if f.Bytes? {
      PlainAppends(CfbKey(aes, g.r.iv), g.r.past, f.bytes);
      Regroup(g.r.iv, g.r.past, f.bytes, f.src.rest);
    }
  }

  lemma Regather(iv: Bytes, past: Bytes, bytes: Bytes, rest: Bytes)
    requires past == []
    ensures (iv + bytes) + past + rest == iv + past + (bytes + rest)
  {}

  /** More of the IV has come in. */
  lemma IvGrows(aes: Aes, whole: Bytes, g: Reading, r1: Reader, bytes: Bytes, src1: Source)
    requires ReadInv(aes, whole, g) && |g.r.iv| < 16
    requires g.src.rest == bytes + src1.rest && r1.iv == g.r.iv + bytes && r1.past == g.r.past
    ensures ReadInv(aes, whole, Reading(r1, src1, g.out, false))
  {
    Regather(g.r.iv, g.r.past, bytes, src1.rest);
  }

  lemma ReadStepInv(aes: Aes, whole: Bytes, g: Reading, cap: nat)
    requires ReadInv(aes, whole, g)
    ensures ReadInv(aes, whole, ReadStep(aes, g, cap))
  {
    if !g.failed {
      if |g.r.iv| == 16 {
        BodyInv(aes, whole, g, cap);
      } else {
        var f := Fetch(g.src, 16 - |g.r.iv|);
        if f.Bytes? && f.bytes != [] {
          var r1: Reader := g.r.(iv := g.r.iv + f.bytes);
          IvGrows(aes, whole, g, r1, f.bytes, f.src);
          if |r1.iv| == 16 {
            BodyInv(aes, whole, Reading(r1, f.src, g.out, false), cap);
          }
        }
      }
    }
  }

  lemma {:induction false} ReadRunInv(aes: Aes, whole: Bytes, replies: seq<ReadReply>, caps: seq<nat>)
    ensures ReadInv(aes, whole, ReadRun(aes, whole, replies, caps))
  {
    if caps != [] {
      var front := caps[..|caps| - 1];
      ReadRunInv(aes, whole, replies, front);
      ReadStepInv(aes, whole, ReadRun(aes, whole, replies, front), caps[|caps| - 1]);
    }
  }

  /** However a prefix of a stream is cut up, the reader has put out a prefix of the
      plaintext, and all of it once it has read the whole stream. */
  lemma ReaderTheorem(aes: Aes, iv: Block, plain: Bytes, whole: Bytes, replies: seq<ReadReply>, caps: seq<nat>)
    requires whole <= Stream(CfbKey(aes, iv), iv, plain)
    ensures var g := ReadRun(aes, whole, replies, caps);
            && g.out <= plain
            && (g.src.rest == [] && whole == Stream(CfbKey(aes, iv), iv, plain) ==> g.out == plain)
  {
    var key := CfbKey(aes, iv);
    var g := ReadRun(aes, whole, replies, caps);
    ReadRunInv(aes, whole, replies, caps);
    if |g.r.iv| == 16 {
      var c := Encrypt(key, plain);
      assert g.r.iv == whole[..16] == Stream(key, iv, plain)[..16] == iv;
      assert g.r.past == whole[16..16 + |g.r.past|] == c[..|g.r.past|];
      DecryptPrefix(key, plain, |g.r.past|);
      if g.src.rest == [] && whole == Stream(key, iv, plain) {
        assert |g.r.past| == |plain| && plain[..|plain|] == plain;
      }
    } else if g.src.rest == [] {
      assert |whole| < 16;
    }
  }

  /** A stream that ends inside its IV: no plaintext, ever, and the read that meets
      the end reports it. */
  lemma EofInsideIv(aes: Aes, whole: Bytes, replies: seq<ReadReply>, caps: seq<nat>, cap: nat)
    requires |whole| < 16
    ensures var g := ReadRun(aes, whole, replies, caps);
            && g.out == []
            && (g.src.rest == [] && g.src.replies != [] && g.src.replies[0].Chunk? ==>
                  PollRead(aes, g.r, g.src, cap).poll == EofInIv)
  {
    ReadRunInv(aes, whole, replies, caps);
  }

  /** The inner stream never fails. */
  predicate Sound(replies: seq<ReadReply>) {
    forall i :: 0 <= i < |replies| ==> !replies[i].Broken?
  }

  lemma {:induction false} FetchSound(src: Source, cap: nat)
    requires Sound(src.replies)
    ensures Fetch(src, cap).Bytes? || Fetch(src, cap).Empty?
    ensures Sound(Fetch(src, cap).src.replies)
  {
  }

  lemma {:induction false} ReadStaysOpen(aes: Aes, whole: Bytes, g: Reading, cap: nat)
    requires ReadInv(aes, whole, g) && |whole| >= 16 && !g.failed && Sound(g.src.replies)
    ensures var h := ReadStep(aes, g, cap); !h.failed && Sound(h.src.replies)
  {
    if |g.r.iv| == 16 {
      FetchSound(g.src, cap);
    } else {
      var f := Fetch(g.src, 16 - |g.r.iv|);
      FetchSound(g.src, 16 - |g.r.iv|);
      FetchSound(f.src, cap);
      assert |whole| == |g.r.iv| + |g.src.rest|;
    }
  }

  /** A stream that holds its whole IV and does not fail makes no read fail, in any run. */
  lemma {:induction false} ReadErrorsEarned(aes: Aes, whole: Bytes, replies: seq<ReadReply>, caps: seq<nat>)
    requires |whole| >= 16 && Sound(replies)
    ensures var g := ReadRun(aes, whole, replies, caps); !g.failed && Sound(g.src.replies)
  {
    if caps != [] {
      var front := caps[..|caps| - 1];
      ReadErrorsEarned(aes, whole, replies, front);
      ReadRunInv(aes, whole, replies, front);
      ReadStaysOpen(aes, whole, ReadRun(aes, whole, replies, front), caps[|caps| - 1]);
    }
  }

  /** Every answer with bytes moves the reader on: towards its IV, or, with room in the
      caller's buffer, by at least one byte of plaintext and no more than fit. A failing
      answer is reported, and one that is not ready makes the reader wait. */
  lemma {:induction false} ReadProgress(aes: Aes, r: Reader, src: Source, cap: nat)
    requires src.replies != [] && src.rest != []
    ensures var t := PollRead(aes, r, src, cap);
            match src.replies[0]
            case NotReady => t.poll == Waiting && t.r == r && t.src.rest == src.rest
            case Broken => t.poll == ReadError && t.r == r && t.src.rest == src.rest
            case Chunk(_) =>
              if |r.iv| < 16 then r.iv < t.r.iv
              else cap > 0 ==> t.poll.Got? && 0 < |t.poll.bytes| <= cap && |t.src.rest| == |src.rest| - |t.poll.bytes|
  {
  }

  /** The reader makes its caller wait only for the inner stream: with the IV complete, the
      last answer it used was that nothing is ready, or it has had all its answers. */
  lemma {:induction false} WaitingEarned(aes: Aes, r: Reader, src: Source, cap: nat)
    ensures var t := PollRead(aes, r, src, cap);
            var used := |src.replies| - |t.src.replies|;
            && 0 <= used <= 2
            && (t.poll.Waiting? && |t.r.iv| == 16 ==>
                  t.src.replies == [] || (used > 0 && src.replies[used - 1].NotReady?))
  {
  }

  /** Nothing owed to the caller and nothing parked. */
  predicate Settled(w: Writer) {
    Owed(w) == 0 && Parked(w) == []
  }

  /** End to end. The writer is polled in any lawful way against any inner writer; any
      prefix of what reached the wire is read in any way. The reader's output is a
      prefix of the credited bytes followed by the outstanding claim; and when the
      writer owes nothing, has nothing parked and the whole wire has been read, it is
      exactly the credited bytes. Whenever nothing is parked, a claim stashed by a flush
      included, it is everything encrypted. */
  lemma EndToEnd(aes: Aes, iv: Block, replies: seq<Reply>, events: seq<Event>,
                 whole: Bytes, cuts: seq<ReadReply>, caps: seq<nat>)
    requires LawfulRun(CfbKey(aes, iv), iv, replies, events)
    requires whole <= Run(CfbKey(aes, iv), iv, replies, events).pipe.wire
    ensures var s := Run(CfbKey(aes, iv), iv, replies, events);
            var g := ReadRun(aes, whole, cuts, caps);
            && g.out <= s.w.plain && s.accepted <= s.w.plain
            && (!s.over ==> |s.w.plain| == |s.accepted| + Owed(s.w))
            && (!s.over && Parked(s.w) == [] && whole == s.pipe.wire && g.src.rest == [] ==> g.out == s.w.plain)
            && (!s.over && Settled(s.w) && whole == s.pipe.wire && g.src.rest == [] ==> g.out == s.accepted)
  {
    var key := CfbKey(aes, iv);
    var s := Run(key, iv, replies, events);
    CreditTheorem(key, iv, replies, events);
    ReaderTheorem(aes, iv, s.w.plain, whole, cuts, caps);
    if !s.over && s.w.ivSent && Parked(s.w) == [] {
      assert s.pipe.wire + [] == s.pipe.wire;
    }
  }
}
