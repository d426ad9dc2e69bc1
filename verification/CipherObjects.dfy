/** The stateful objects of the cipher stream. Their polls update fields in place
    and are proved to be the functions of CipherWriter and CipherReader. */
module CipherObjects {
  import opened LittleEndian
  import opened StreamMode
  import opened Wrappers
  import opened Cfb
  import opened CipherWriter
  import CR = CipherReader

  /** The inner writer. `replies` are the answers it is going to give. */
  class InnerWriter {
    var wire: Bytes
    var replies: seq<Reply>

    ghost function Value(): Pipe
      reads this
    {
      Pipe(wire, replies)
    }

    constructor (replies: seq<Reply>)
      ensures Value() == Pipe([], replies)
    {
      wire := [];
      this.replies := replies;
    }

    method PollWrite(data: Bytes) returns (reply: Reply)
      modifies this
      ensures Offered(reply, Value()) == Offer(old(Value()), data)
    {
      if replies == [] {
        return Pending;
      }
      reply := replies[0];
      replies := replies[1..];
      if reply.Ready? {
        var m := Min(reply.n, |data|);
        wire := wire + data[..m];
        reply := Ready(m);
      }
    }

    /** `write_all`: everything, or up to `cut` bytes and an error. */
    method WriteAll(data: Bytes, cut: Option<nat>) returns (ok: bool)
      modifies this
      ensures ok == cut.None? && replies == old(replies)
      ensures wire == old(wire) + Through(data, cut)
    {
      ok := cut.None?;
      wire := wire + if ok then data else data[..Min(cut.value, |data|)];
    }
  }

  lemma CutAfter(wire: Bytes, head: Bytes, data: Bytes, left: Option<nat>)
    ensures (wire + head) + data == wire + (head + data)
    ensures left.Some? ==>
              (wire + head) + data[..Min(left.value, |data|)]
              == wire + (head + data)[..Min(left.value + |head|, |head + data|)]
  {
  }

  /** All of c, or what a failing `write_all` gets through. */
  function Through(c: Bytes, cut: Option<nat>): Bytes {
    if cut.None? then c else c[..Min(cut.value, |c|)]
  }

  /** `write_encrypted` once the IV is out: what is left of the cut falls on the ciphertext. */
  lemma WrittenTurn(key: Key, iv: Block, w: Writer, pipe: Pipe, data: Bytes, cut: Option<nat>,
                    head: Bytes, left: Option<nat>)
    requires head == if w.ivSent then [] else iv
    requires if cut.None? then left.None? else cut.value >= |head| && left == Some(cut.value - |head|)
    ensures CipherWriter.WriteEncrypted(key, iv, w, pipe, data, cut)
         == Turn(w.(ivSent := true, plain := w.plain + data),
                 Pipe((pipe.wire + head) + Through(Cipher(key, w.plain, data), left), pipe.replies),
                 if left.None? then Done(|data|) else Error)
  {
    CutAfter(pipe.wire, head, Cipher(key, w.plain, data), left);
  }

  class CipherWriterState {
    const aes: Aes
    const writeIv: Block
    var cfb: CfbState?
    var ivSent: bool
    var firstWriteBuf: Option<Bytes>
    var firstWritePos: nat
    var firstWriteDataLen: nat
    var encryptedBuf: Option<Bytes>
    var encryptedWritePos: nat

    /** The cipher exists once the IV has been sent, and parked positions are in range. */
    ghost predicate Valid()
      reads this, cfb
    {
      && (ivSent <==> cfb != null)
      && (cfb != null ==> cfb.Valid() && cfb.aes == aes && cfb.iv == writeIv)
      && (firstWriteBuf.Some? ==> firstWritePos <= |firstWriteBuf.value|)
      && (encryptedBuf.Some? ==> encryptedWritePos <= |encryptedBuf.value|)
    }

    ghost function Value(): Writer
      reads this, cfb
    {
      Writer(ivSent, if cfb == null then [] else cfb.plain,
             firstWriteBuf, firstWritePos, firstWriteDataLen, encryptedBuf, encryptedWritePos)
    }

    constructor (aes: Aes, iv: Block)
      ensures Valid() && Value() == FRESH && this.aes == aes && writeIv == iv
    {
      this.aes := aes;
      writeIv := iv;
      cfb := null;
      ivSent := false;
      firstWriteBuf, firstWritePos, firstWriteDataLen := None, 0, 0;
      encryptedBuf, encryptedWritePos := None, 0;
    }

    /** Start the cipher: the IV is on its way. */
    method OpenCipher()
      requires Valid() && !ivSent
      modifies this`ivSent, this`cfb
      ensures Valid() && fresh(cfb)
      ensures Value() == old(Value()).(ivSent := true, plain := [])
    {
      ivSent := true;
      cfb := new CfbState(aes, writeIv);
    }

    /** Encrypt a copy of `buf`, moving the cipher on. */
    method EncryptCopy(buf: Bytes) returns (scratch: Bytes)
      requires Valid() && ivSent
      modifies cfb
      ensures Valid()
      ensures scratch == Cipher(CfbKey(aes, writeIv), old(Value()).plain, buf)
      ensures Value() == old(Value()).(plain := old(Value()).plain + buf)
    {
      ghost var key := CfbKey(aes, writeIv);
      ghost var plain, past := cfb.plain, cfb.past;
      PairedEncrypts(key, plain, past);
      var data := new bv8[|buf|](i requires 0 <= i < |buf| => buf[i]);
      assert data[..] == buf;
      cfb.EncryptInPlace(data);
      PairedEncrypts(key, cfb.plain, cfb.past);
      scratch := data[..];
    }

    /** `send_iv`: the IV, once; `cut` counts from here. */
    method SendIv(inner: InnerWriter, cut: Option<nat>) returns (ok: bool)
      requires Valid()
      modifies this, inner
      ensures Valid() && ivSent && (cfb != old(cfb) ==> fresh(cfb)) && inner.replies == old(inner.replies)
      ensures ok == (old(ivSent) || cut.None? || cut.value >= 16)
      ensures Value() == old(Value()).(ivSent := true)
      ensures inner.wire == old(inner.wire) + if old(ivSent) then [] else if ok then writeIv else writeIv[..cut.value]
    {
      if ivSent {
        return true;
      }
      OpenCipher();
      var fails := cut.Some? && cut.value < 16;
      ok := inner.WriteAll(writeIv, if fails then cut else None);
    }

    /** `write_encrypted`: encrypts the buffer in place and writes it in full, or up to
        `cut` bytes, the IV included, when the inner writer fails. */
    method WriteEncrypted(inner: InnerWriter, data: array<bv8>, cut: Option<nat>) returns (poll: Poll)
      requires Valid()
      modifies this, cfb, inner, data
      ensures Valid() && (cfb != old(cfb) ==> fresh(cfb))
      ensures Turn(Value(), inner.Value(), poll)
           == CipherWriter.WriteEncrypted(CfbKey(aes, writeIv), writeIv, old(Value()), old(inner.Value()),
                                          old(data[..]), cut)
    {
      ghost var head: Bytes := if ivSent then [] else writeIv;
      var gone := if ivSent then 0 else 16;
      var ok := SendIv(inner, cut);
      if !ok {
        return Error;
      }
      EncryptBuffer(data);
      var left := if cut.Some? then Some(cut.value - gone) else None;
      ok := inner.WriteAll(data[..], left);
      WrittenTurn(CfbKey(aes, writeIv), writeIv, old(Value()), old(inner.Value()), old(data[..]), cut, head, left);
      return if ok then Done(data.Length) else Error;
    }

    method EncryptBuffer(data: array<bv8>)
      requires Valid() && ivSent
      modifies cfb, data
      ensures Valid()
      ensures data[..] == Cipher(CfbKey(aes, writeIv), old(Value()).plain, old(data[..]))
      ensures Value() == old(Value()).(plain := old(Value()).plain + old(data[..]))
    {
      ghost var key := CfbKey(aes, writeIv);
      ghost var plain, past := cfb.plain, cfb.past;
      PairedEncrypts(key, plain, past);
      cfb.EncryptInPlace(data);
      PairedEncrypts(key, cfb.plain, cfb.past);
    }

    method PollWrite(inner: InnerWriter, buf: Bytes) returns (poll: Poll)
      requires Valid()
      modifies this, cfb, inner
      ensures Valid() && (cfb != old(cfb) ==> fresh(cfb))
      ensures Turn(Value(), inner.Value(), poll)
           == CipherWriter.PollWrite(CfbKey(aes, writeIv), writeIv, old(Value()), old(inner.Value()), buf)
    {
      if firstWriteBuf.Some? {
        var pending := firstWriteBuf.value;
        var reply := inner.PollWrite(pending[firstWritePos..]);
        match reply
        case Failed => return Error;
        case Pending => return Blocked;
        case Ready(n) =>
          if n == 0 {
            return Error;
          }
          if firstWritePos + n < |pending| {
            firstWritePos := firstWritePos + n;
            return Blocked;
          }
          var dataLen := firstWriteDataLen;
          firstWriteBuf, firstWritePos, firstWriteDataLen := None, 0, 0;
          if dataLen > 0 {
            return Done(dataLen);
          }
      }
      poll := WriteUnparked(inner, buf);
    }

    method WriteUnparked(inner: InnerWriter, buf: Bytes) returns (poll: Poll)
      requires Valid() && firstWriteBuf.None?
      modifies this, cfb, inner
      ensures Valid() && (cfb != old(cfb) ==> fresh(cfb))
      ensures Turn(Value(), inner.Value(), poll)
           == CipherWriter.WriteUnparked(CfbKey(aes, writeIv), writeIv, old(Value()), old(inner.Value()), buf)
    {
      if firstWriteDataLen > 0 {
        var dataLen := Min(firstWriteDataLen, |buf|);
        firstWriteDataLen := 0;
        return Done(dataLen);
      }
      if !ivSent {
        poll := WriteOpening(inner, buf);
      } else if encryptedBuf.Some? {
        poll := WriteRetry(inner);
      } else {
        poll := WriteLater(inner, buf);
      }
    }

    method WriteOpening(inner: InnerWriter, buf: Bytes) returns (poll: Poll)
      requires Valid() && !ivSent
      modifies this, inner
      ensures Valid() && fresh(cfb)
      ensures Turn(Value(), inner.Value(), poll)
           == CipherWriter.WriteOpening(CfbKey(aes, writeIv), writeIv, old(Value()), old(inner.Value()), buf)
    {
      var output := OpeningOutput(buf);
      var reply := inner.PollWrite(output);
      match reply
      case Failed => return Error;
      case Pending =>
        firstWriteBuf, firstWritePos, firstWriteDataLen := Some(output), 0, |buf|;
        return Blocked;
      case Ready(n) =>
        if n >= |output| {
          return Done(|buf|);
        }
        if n == 0 {
          return Error;
        }
        firstWriteBuf, firstWritePos, firstWriteDataLen := Some(output), n, |buf|;
        return Blocked;
    }

    /** The IV and the encrypted payload of the opening write. */
    method OpeningOutput(buf: Bytes) returns (output: Bytes)
      requires Valid() && !ivSent
      modifies this`ivSent, this`cfb
      ensures Valid() && fresh(cfb)
      ensures output == writeIv + Cipher(CfbKey(aes, writeIv), [], buf)
      ensures Value() == old(Value()).(ivSent := true, plain := buf)
    {
      OpenCipher();
      ghost var begun := Value();
      assert begun == old(Value()).(ivSent := true, plain := []);
      var scratch := EncryptCopy(buf);
      assert Value() == begun.(plain := [] + buf);
      assert [] + buf == buf;
      output := writeIv + scratch;
    }

    method WriteRetry(inner: InnerWriter) returns (poll: Poll)
      requires Valid() && encryptedBuf.Some?
      modifies this`encryptedBuf, this`encryptedWritePos, inner
      ensures Valid()
      ensures Turn(Value(), inner.Value(), poll)
           == CipherWriter.WriteRetry(old(Value()), old(inner.Value()))
    {
      var pending := encryptedBuf.value;
      var reply := inner.PollWrite(pending[encryptedWritePos..]);
      match reply
      case Failed => return Error;
      case Pending => return Blocked;
      case Ready(n) =>
        if n == 0 {
          return Error;
        }
        if encryptedWritePos + n < |pending| {
          encryptedWritePos := encryptedWritePos + n;
          return Blocked;
        }
        encryptedBuf, encryptedWritePos := None, 0;
        return Done(|pending|);
    }

    method WriteLater(inner: InnerWriter, buf: Bytes) returns (poll: Poll)
      requires Valid() && ivSent
      modifies this`encryptedBuf, this`encryptedWritePos, cfb, inner
      ensures Valid()
      ensures Turn(Value(), inner.Value(), poll)
           == CipherWriter.WriteLater(CfbKey(aes, writeIv), old(Value()), old(inner.Value()), buf)
    {
      var scratch := EncryptCopy(buf);
      var reply := inner.PollWrite(scratch);
      match reply
      case Failed => return Error;
      case Pending =>
        encryptedBuf, encryptedWritePos := Some(scratch), 0;
        return Blocked;
      case Ready(n) =>
        if n >= |scratch| {
          return Done(|buf|);
        }
        if n == 0 {
          return Error;
        }
        encryptedBuf, encryptedWritePos := Some(scratch), n;
        return Blocked;
    }

    method PollFlush(inner: InnerWriter) returns (poll: Poll)
      requires Valid()
      modifies this, inner
      ensures Valid() && (cfb != old(cfb) ==> fresh(cfb))
      ensures Turn(Value(), inner.Value(), poll)
           == CipherWriter.PollFlush(writeIv, old(Value()), old(inner.Value()))
    {
      if firstWriteBuf.Some? {
        var pending := firstWriteBuf.value;
        var reply := inner.PollWrite(pending[firstWritePos..]);
        match reply
        case Failed => return Error;
        case Pending => return Blocked;
        case Ready(n) =>
          if n == 0 {
            return Error;
          }
          if firstWritePos + n < |pending| {
            firstWritePos := firstWritePos + n;
            return Blocked;
          }
          // the claim stays for the next PollWrite
          firstWriteBuf, firstWritePos := None, 0;
      }
      poll := FlushLater(inner);
    }

    method FlushLater(inner: InnerWriter) returns (poll: Poll)
      requires Valid()
      modifies this, inner
      ensures Valid() && (cfb != old(cfb) ==> fresh(cfb))
      ensures Turn(Value(), inner.Value(), poll)
           == CipherWriter.FlushLater(writeIv, old(Value()), old(inner.Value()))
    {
      if encryptedBuf.Some? {
        var pending := encryptedBuf.value;
        var reply := inner.PollWrite(pending[encryptedWritePos..]);
        match reply
        case Failed => return Error;
        case Pending => return Blocked;
        case Ready(n) =>
          if n == 0 {
            return Error;
          }
          if encryptedWritePos + n < |pending| {
            encryptedWritePos := encryptedWritePos + n;
            return Blocked;
          }
          encryptedBuf, encryptedWritePos := None, 0;
      }
      poll := FlushIv(inner);
    }

    method FlushIv(inner: InnerWriter) returns (poll: Poll)
      requires Valid()
      modifies this, inner
      ensures Valid() && (cfb != old(cfb) ==> fresh(cfb))
      ensures Turn(Value(), inner.Value(), poll)
           == CipherWriter.FlushIv(writeIv, old(Value()), old(inner.Value()))
    {
      if !ivSent {
        OpenCipher();
        var reply := inner.PollWrite(writeIv);
        match reply
        case Failed => return Error;
        case Pending =>
          firstWriteDataLen, firstWriteBuf, firstWritePos := 0, Some(writeIv), 0;
          return Blocked;
        case Ready(n) =>
          if n < 16 {
            if n == 0 {
              return Error;
            }
            firstWriteDataLen, firstWriteBuf, firstWritePos := 0, Some(writeIv), n;
            return Blocked;
          }
      }
      poll := FlushInner(inner);
    }

    /** The inner `poll_flush`. */
    method FlushInner(inner: InnerWriter) returns (poll: Poll)
      modifies inner
      ensures Turn(Value(), inner.Value(), poll) == CipherWriter.FlushInner(Value(), old(inner.Value()))
    {
      var reply := inner.PollWrite([]);
      match reply
      case Failed => return Error;
      case Pending => return Blocked;
      case Ready(_) => return Done(0);
    }

    method PollShutdown(inner: InnerWriter) returns (poll: Poll)
      requires Valid()
      modifies this, inner
      ensures Valid() && cfb == old(cfb)
      ensures Turn(Value(), inner.Value(), poll)
           == CipherWriter.PollShutdown(old(Value()), old(inner.Value()))
    {
      if firstWriteBuf.Some? {
        var _ := inner.PollWrite(firstWriteBuf.value[firstWritePos..]);
        firstWriteBuf, firstWritePos, firstWriteDataLen := None, 0, 0;
      }
      if encryptedBuf.Some? {
        var _ := inner.PollWrite(encryptedBuf.value[encryptedWritePos..]);
        encryptedBuf, encryptedWritePos := None, 0;
      }
      poll := FlushInner(inner);
    }
  }

  /** The inner stream a reader pulls from. */
  class InnerReader {
    var rest: Bytes
    var replies: seq<CR.ReadReply>

    ghost function Value(): CR.Source
      reads this
    {
      CR.Source(rest, replies)
    }

    method PollRead(cap: nat) returns (f: CR.Fetched)
      modifies this
      ensures f == CR.Fetch(old(Value()), cap) && f.src == Value()
    {
      if replies != [] {
        var reply := replies[0];
        replies := replies[1..];
        match reply
        case Chunk(n) =>
          var m := CR.ChunkSize(n, cap, |rest|);
          var bytes := rest[..m];
          rest := rest[m..];
          return CR.Bytes(bytes, CR.Source(rest, replies));
        case NotReady =>
        case Broken => return CR.Broke(CR.Source(rest, replies));
      }
      f := CR.Empty(CR.Source(rest, replies));
    }
  }

  class CipherReader {
    const aes: Aes
    var cfb: CfbState?
    const ivBuf: array<bv8>
    var ivRead: nat

    ghost predicate Valid()
      reads this, cfb, ivBuf
    {
      && ivBuf.Length == 16 && ivRead <= 16
      && (ivRead == 16 <==> cfb != null)
      && (cfb != null ==> cfb.Valid() && cfb.aes == aes && cfb.iv == ivBuf[..])
    }

    ghost function Value(): CR.Reader
      reads this, cfb, ivBuf
      requires Valid()
    {
      CR.ReaderFields(ivBuf[..ivRead], if cfb == null then [] else cfb.past)
    }

    constructor (aes: Aes)
      ensures Valid() && fresh(ivBuf) && this.aes == aes && Value() == CR.UNREAD
    {
      this.aes := aes;
      ivBuf := new bv8[16](_ => 0);
      cfb := null;
      ivRead := 0;
    }

    method PollRead(inner: InnerReader, cap: nat) returns (poll: CR.ReadPoll)
      requires Valid()
      modifies this, cfb, ivBuf, inner
      ensures Valid() && (cfb != old(cfb) ==> fresh(cfb))
      ensures CR.ReadTurn(Value(), inner.Value(), poll)
           == CR.PollRead(aes, old(Value()), old(inner.Value()), cap)
    {
      if ivRead < 16 {
        var f := inner.PollRead(16 - ivRead);
        match f
        case Empty(_) => return CR.Waiting;
        case Broke(_) => return CR.ReadError;
        case Bytes(bytes, _) =>
          if bytes == [] {
            return CR.EofInIv;
          }
          CopyFromSlice(ivBuf, ivRead, bytes);
          ivRead := ivRead + |bytes|;
          assert ivBuf[..ivRead] == old(ivBuf[..ivRead]) + bytes;
          if ivRead < 16 {
            return CR.Waiting;
          }
          cfb := new CfbState(aes, ivBuf[..]);
          assert ivBuf[..ivRead] == ivBuf[..];
      }
      poll := ReadBody(inner, cap);
    }

    method ReadBody(inner: InnerReader, cap: nat) returns (poll: CR.ReadPoll)
      requires Valid() && ivRead == 16
      modifies cfb, inner
      ensures Valid()
      ensures CR.ReadTurn(Value(), inner.Value(), poll)
           == CR.ReadBody(aes, old(Value()), old(inner.Value()), cap)
    {
      var f := inner.PollRead(cap);
      match f
      case Empty(_) => return CR.Waiting;
      case Broke(_) => return CR.ReadError;
      case Bytes(bytes, _) =>
        var plain := DecryptCopy(bytes);
        return CR.Got(plain);
    }

    /** Decrypt the bytes just read, moving the cipher on. */
    method DecryptCopy(bytes: Bytes) returns (plain: Bytes)
      requires Valid() && ivRead == 16
      modifies cfb
      ensures Valid()
      ensures plain == CR.Plain(CfbKey(aes, Value().iv), old(Value()).past, bytes)
      ensures Value() == CR.ReaderFields(old(Value()).iv, old(Value()).past + bytes)
    {
      assert ivBuf[..ivRead] == ivBuf[..];
      ghost var key := CfbKey(aes, ivBuf[..]);
      ghost var plain0, past := cfb.plain, cfb.past;
      PairedDecrypts(key, plain0, past);
      var data := new bv8[|bytes|](i requires 0 <= i < |bytes| => bytes[i]);
      assert data[..] == bytes;
      cfb.DecryptInPlace(data);
      PairedDecrypts(key, cfb.plain, cfb.past);
      plain := data[..];
    }
  }
}
