/** The CFB-128 cipher of `CfbState`: the definition of section 6.3 of NIST
    SP 800-38A (segment size 128) as a key-byte function, the registers it
    implies, and the block-wise in-place methods.

    AES is a parameter: any function from 16-byte blocks to 16-byte blocks. */
module Cfb {
  import opened LittleEndian
  import opened StreamMode

  /** The output of one AES block encryption. */
  datatype Keystream = Keystream(bytes: Block)
  type Aes = Block -> Keystream

  /** The block whose encryption masks byte number |c|: the IV for the first
      sixteen bytes, afterwards the last complete ciphertext block. */
  function Masking(iv: Block, c: seq<bv8>): Block {
    var k := |c| / 16;
    if k == 0 then iv else c[16 * k - 16..16 * k]
  }

  function KeyByte(aes: Aes, iv: Block, c: seq<bv8>): bv8 {
    aes(Masking(iv, c)).bytes[|c| % 16]
  }

  function CfbKey(aes: Aes, iv: Block): Key {
    (c: seq<bv8>) => KeyByte(aes, iv, c)
  }

  // ----- the block equations

  lemma Sixteens(j: nat, i: nat)
    requires i < 16
    ensures (16 * j + i) / 16 == j && (16 * j + i) % 16 == i
  {}

  lemma SliceOfTake<T>(s: seq<T>, n: nat, lo: nat, hi: nat)
    requires lo <= hi <= n <= |s|
    ensures s[..n][lo..hi] == s[lo..hi]
  {}

  lemma MaskingAt(iv: Block, c: seq<bv8>, j: nat, i: nat)
    requires i < 16 && 16 * j + i <= |c|
    ensures Masking(iv, c[..16 * j + i]) == Previous(iv, c, j)
  {
    Sixteens(j, i);
    var d := c[..16 * j + i];
    assert |d| / 16 == j;
    if j > 0 {
      SliceOfTake(c, 16 * j + i, 16 * j - 16, 16 * j);
    }
  }

  /** Ciphertext block j - 1, the IV standing before block 0. */
  function Previous(iv: Block, c: seq<bv8>, j: nat): Block
    requires 16 * j <= |c|
  {
    if j == 0 then iv else c[16 * j - 16..16 * j]
  }

  lemma BlockByte(aes: Aes, iv: Block, p: seq<bv8>, c: seq<bv8>, j: nat, i: nat)
    requires Paired(CfbKey(aes, iv), p, c)
    requires i < 16 && 16 * j + 16 <= |p|
    ensures c[16 * j..16 * j + 16][i] == Xor8(p[16 * j..16 * j + 16][i], aes(Previous(iv, c, j)).bytes[i])
  {
    assert ByteAt(CfbKey(aes, iv), p, c, 16 * j + i);
    Sixteens(j, i);
    MaskingAt(iv, c, j, i);
  }

  /** The block equations of section 6.3: the j-th ciphertext block is the j-th
      plaintext block XORed with the encryption of the block before it. */
  lemma BlockEquation(aes: Aes, iv: Block, p: seq<bv8>, j: nat)
    requires 16 * j + 16 <= |p|
    ensures var c := Encrypt(CfbKey(aes, iv), p);
            c[16 * j..16 * j + 16] == XorBytes(p[16 * j..16 * j + 16], aes(Previous(iv, c, j)).bytes)
  {
    var c := Encrypt(CfbKey(aes, iv), p);
    EncryptPaired(CfbKey(aes, iv), p);
    var cs, ps, keys := c[16 * j..16 * j + 16], p[16 * j..16 * j + 16], aes(Previous(iv, c, j)).bytes;
    forall i | 0 <= i < 16 ensures cs[i] == Xor8(ps[i], keys[i]) {
      BlockByte(aes, iv, p, c, j, i);
    }
    XorPointwise(ps, keys, cs);
  }

  // ----- the registers

  /** The three registers after ciphertext c, exactly. A block boundary leaves the
      old keystream in place (the refill waits for the next byte), and the feedback
      register holds the new bytes over the rest of the block before. */
  ghost predicate Registers(aes: Aes, iv: Block, c: seq<bv8>, feedback: Block, keystream: Block, used: nat) {
    if c == [] then
      feedback == iv && keystream == aes(iv).bytes && used == 0
    else
      var front := c[..|c| - 1];
      && used == |front| % 16 + 1 <= |c|
      && keystream == aes(Masking(iv, front)).bytes
      && feedback == c[|c| - used..] + Masking(iv, front)[used..]
  }

  /** The same after the refill check: the keystream for the next byte is in place. */
  ghost predicate Primed(aes: Aes, iv: Block, c: seq<bv8>, feedback: Block, keystream: Block, used: nat) {
    && used == |c| % 16 <= |c|
    && keystream == aes(Masking(iv, c)).bytes
    && feedback == c[|c| - used..] + Masking(iv, c)[used..]
  }

  lemma Rollover(n: nat)
    requires n > 0
    ensures (n - 1) % 16 + 1 < 16 ==> n / 16 == (n - 1) / 16 && n % 16 == (n - 1) % 16 + 1
    ensures (n - 1) % 16 + 1 >= 16 ==> n % 16 == 0 && 16 * (n / 16) == n >= 16
  {}

  lemma MaskingWithin(iv: Block, c: seq<bv8>)
    requires c != [] && |c| / 16 == (|c| - 1) / 16
    ensures Masking(iv, c) == Masking(iv, c[..|c| - 1])
  {
    var k, front := |c| / 16, c[..|c| - 1];
    if k > 0 {
      SliceOfTake(c, |c| - 1, 16 * k - 16, 16 * k);
    }
  }

  lemma RegistersPrimed(aes: Aes, iv: Block, c: seq<bv8>, feedback: Block, keystream: Block, used: nat)
    requires Registers(aes, iv, c, feedback, keystream, used)
    ensures used < 16 ==> Primed(aes, iv, c, feedback, keystream, used)
    ensures used >= 16 ==> Primed(aes, iv, c, feedback, aes(feedback).bytes, 0)
  {
    if c == [] {
      assert feedback == c[0..] + Masking(iv, c)[0..];
    } else {
      Rollover(|c|);
      if used < 16 {
        MaskingWithin(iv, c);
      } else {
        BlockFull(iv, c, feedback, Masking(iv, c[..|c| - 1]));
      }
    }
  }

  /** At a block boundary the feedback register is the block just finished. */
  lemma BlockFull(iv: Block, c: seq<bv8>, feedback: Block, before: Block)
    requires |c| >= 16 && |c| == 16 * (|c| / 16) && feedback == c[|c| - 16..] + before[16..]
    ensures Masking(iv, c) == feedback == c[|c|..] + feedback[0..]
  {
    assert before[16..] == [];
  }

  lemma PrimedByte(aes: Aes, iv: Block, c: seq<bv8>, feedback: Block, keystream: Block, used: nat, y: bv8)
    requires Primed(aes, iv, c, feedback, keystream, used)
    ensures Registers(aes, iv, c + [y], feedback[used := y], keystream, used + 1)
  {
    var d := c + [y];
    assert d[..|d| - 1] == c;
    assert d[|d| - (used + 1)..] == c[|c| - used..] + [y];
    assert feedback[used := y] == d[|d| - (used + 1)..] + Masking(iv, c)[used + 1..];
  }

  lemma PrimedBlock(aes: Aes, iv: Block, c: seq<bv8>, feedback: Block, keystream: Block, block: Block)
    requires Primed(aes, iv, c, feedback, keystream, 0)
    ensures Registers(aes, iv, c + block, block, keystream, 16)
  {
    var d := c + block;
    var front := d[..|d| - 1];
    Sixteens(|c| / 16, 15);
    assert Masking(iv, front) == Masking(iv, c);
    assert d[|d| - 16..] == block;
    assert block == d[|d| - 16..] + Masking(iv, front)[16..];
  }

  /** Sixteen bytes from a block boundary are XORed with the keystream in order. */
  lemma PairedBlock(aes: Aes, iv: Block, p: seq<bv8>, c: seq<bv8>, a: Block, b: Block)
    requires Paired(CfbKey(aes, iv), p, c) && |c| % 16 == 0
    requires b == XorBytes(a, aes(Masking(iv, c)).bytes)
    ensures Paired(CfbKey(aes, iv), p + a, c + b)
  {
    var d := c + b;
    var keys := aes(Masking(iv, c)).bytes;
    forall i | 0 <= i < |d| ensures ByteAt(CfbKey(aes, iv), p + a, d, i) {
      if i < |c| {
        assert ByteAt(CfbKey(aes, iv), p, c, i);
        assert d[..i] == c[..i];
      } else {
        var j := i - |c|;
        XorAt(a, keys, j);
        KeyInBlock(aes, iv, c, d, j);
      }
    }
  }

  lemma KeyInBlock(aes: Aes, iv: Block, c: seq<bv8>, d: seq<bv8>, j: nat)
    requires |c| % 16 == 0 && j < 16 && |c| + j <= |d| && c <= d
    ensures KeyByte(aes, iv, d[..|c| + j]) == aes(Masking(iv, c)).bytes[j]
  {
    var k := |c| / 16;
    Sixteens(k, j);
    Sixteens(k, 0);
    MaskingAt(iv, d, k, j);
    MaskingAt(iv, d, k, 0);
    assert d[..|c|] == c;
  }

  // ----- the in-place methods

  /** Bytes i to k of a buffer have been enciphered or deciphered, nothing else in
      it has changed, and the two views of the stream have grown by those bytes. */
  ghost predicate Progress(was: seq<bv8>, now: seq<bv8>, i: nat, k: nat, encrypting: bool,
                           plain0: seq<bv8>, plain: seq<bv8>, past0: seq<bv8>, past: seq<bv8>)
  {
    && i <= k <= |was| == |now|
    && now[..i] == was[..i]
    && now[k..] == was[k..]
    && plain == plain0 + (if encrypting then was[i..k] else now[i..k])
    && past == past0 + (if encrypting then now[i..k] else was[i..k])
  }

  lemma ProgressNone(was: seq<bv8>, i: nat, encrypting: bool, plain: seq<bv8>, past: seq<bv8>)
    requires i <= |was|
    ensures Progress(was, was, i, i, encrypting, plain, plain, past, past)
  {}

  lemma SliceChain<T>(was: seq<T>, mid: seq<T>, now: seq<T>, i: nat, j: nat, k: nat)
    requires i <= j <= k <= |was| == |mid| == |now|
    requires mid[..i] == was[..i] && mid[j..] == was[j..]
    requires now[..j] == mid[..j] && now[k..] == mid[k..]
    ensures now[..i] == was[..i] && now[k..] == was[k..]
    ensures was[i..k] == was[i..j] + mid[j..k]
    ensures now[i..k] == mid[i..j] + now[j..k]
  {
    assert now[..i] == now[..j][..i] == mid[..j][..i];
    assert mid[j..k] == mid[j..][..k - j] == was[j..][..k - j];
    assert mid[k..] == mid[j..][k - j..] == was[j..][k - j..];
    assert mid[i..j] == mid[..j][i..] == now[..j][i..];
  }

  lemma AppendTwice<T>(a: seq<T>, b: seq<T>, c: seq<T>)
    ensures (a + b) + c == a + (b + c)
  {}

  lemma ProgressTrans(was: seq<bv8>, mid: seq<bv8>, now: seq<bv8>, i: nat, j: nat, k: nat, encrypting: bool,
                      plain0: seq<bv8>, plain1: seq<bv8>, plain2: seq<bv8>,
                      past0: seq<bv8>, past1: seq<bv8>, past2: seq<bv8>)
    requires Progress(was, mid, i, j, encrypting, plain0, plain1, past0, past1)
    requires Progress(mid, now, j, k, encrypting, plain1, plain2, past1, past2)
    ensures Progress(was, now, i, k, encrypting, plain0, plain2, past0, past2)
  {
    SliceChain(was, mid, now, i, j, k);
    AppendTwice(if encrypting then plain0 else past0, was[i..j], mid[j..k]);
    AppendTwice(if encrypting then past0 else plain0, mid[i..j], now[j..k]);
  }

  lemma ProgressSlice(was: seq<bv8>, now: seq<bv8>, i: nat, k: nat, encrypting: bool,
                      input: seq<bv8>, output: seq<bv8>, plain: seq<bv8>, past: seq<bv8>)
    requires i <= k <= |was| && input == was[i..k] && |output| == |input|
    requires now == was[..i] + output + was[k..]
    ensures Progress(was, now, i, k, encrypting, plain, plain + (if encrypting then input else output),
                     past, past + (if encrypting then output else input))
  {
    assert now[i..k] == output;
  }

  class CfbState {
    const aes: Aes
    const iv: Block
    var feedback: Block
    var keystream: Block
    var used: nat
    ghost var plain: seq<bv8>   // the stream so far, in the clear
    ghost var past: seq<bv8>    // the stream so far, enciphered

    /** The bytes so far are CFB-128 of one another, and the registers are what
        the ciphertext so far implies. */
    ghost predicate Valid()
      reads this
    {
      && Paired(CfbKey(aes, iv), plain, past)
      && Registers(aes, iv, past, feedback, keystream, used)
    }

    /** Valid, with the keystream for the next byte in place. */
    ghost predicate InStep()
      reads this
    {
      && Paired(CfbKey(aes, iv), plain, past)
      && Primed(aes, iv, past, feedback, keystream, used)
    }

    constructor (aes: Aes, iv: Block)
      ensures Valid() && this.aes == aes && this.iv == iv
      ensures plain == [] && past == []
    {
      this.aes := aes;
      this.iv := iv;
      feedback := iv;
      keystream := aes(iv).bytes;
      used := 0;
      plain, past := [], [];
    }

    method Refill()
      requires Valid() && used == 16
      modifies this`keystream, this`used
      ensures InStep() && used == 0
    {
      RegistersPrimed(aes, iv, past, feedback, keystream, used);
      keystream := aes(feedback).bytes;
      used := 0;
    }

    /** Encrypt `data` in place: the buffer ends up holding the continuation of the
        CFB-128 ciphertext of the stream. */
    method EncryptInPlace(data: array<bv8>)
      requires Valid()
      modifies this, data
      ensures Valid()
      ensures plain == old(plain) + old(data[..])
      ensures past == old(past) + data[..]
    {
      CryptInPlace(data, true);
    }

    /** Decrypt `data` in place. */
    method DecryptInPlace(data: array<bv8>)
      requires Valid()
      modifies this, data
      ensures Valid()
      ensures past == old(past) + old(data[..])
      ensures plain == old(plain) + data[..]
    {
      CryptInPlace(data, false);
    }

    /** The loop of `encrypt` and of `decrypt`: in each round, refill when the
        keystream is used up, then take a whole block if one starts here, otherwise
        the bytes up to the end of the keystream block. */
    method CryptInPlace(data: array<bv8>, encrypting: bool)
      requires Valid()
      modifies this, data
      ensures Valid()
      ensures plain == old(plain) + if encrypting then old(data[..]) else data[..]
      ensures past == old(past) + if encrypting then data[..] else old(data[..])
    {
      ghost var was := data[..];
      ProgressNone(was, 0, encrypting, plain, past);
      var i := 0;
      while i < data.Length
        invariant 0 <= i <= data.Length && Valid()
        invariant Progress(was, data[..], 0, i, encrypting, old(plain), plain, old(past), past)
      {
        ghost var mid, plain1, past1, j := data[..], plain, past, i;
        i := CryptNext(data, i, encrypting);
        ProgressTrans(was, mid, data[..], 0, j, i, encrypting, old(plain), plain1, plain, old(past), past1, past);
      }
      assert was[0..i] == was && data[..][0..i] == data[..];
    }

    method CryptNext(data: array<bv8>, i: nat, encrypting: bool) returns (next: nat)
      requires Valid() && i < data.Length
      modifies this, data
      ensures Valid() && i < next <= data.Length
      ensures Progress(old(data[..]), data[..], i, next, encrypting, old(plain), plain, old(past), past)
    {
      if used >= 16 {
        Refill();
      } else {
        RegistersPrimed(aes, iv, past, feedback, keystream, used);
      }
      if used == 0 && data.Length - i >= 16 {
        next := i + 16;
        XorBlockAt(data, i, encrypting);
      } else {
        next := if 16 - used < data.Length - i then i + (16 - used) else data.Length;
        XorPart(data, i, next, encrypting);
      }
    }

    /** The fast path: one 128-bit XOR at a block boundary. */
    method XorBlockAt(data: array<bv8>, i: nat, encrypting: bool)
      requires InStep() && used == 0 && i + 16 <= data.Length
      modifies this, data
      ensures Valid()
      ensures Progress(old(data[..]), data[..], i, i + 16, encrypting, old(plain), plain, old(past), past)
    {
      var block := data[i..i + 16];
      var result := XorBlock(block, encrypting);
      assert old(data[..])[i..i + 16] == block;
      CopyFromSlice(data, i, result);
      ProgressSlice(old(data[..]), data[..], i, i + 16, encrypting, block, result, old(plain), old(past));
    }

    method XorBlock(block: Block, encrypting: bool) returns (result: Block)
      requires InStep() && used == 0
      modifies this
      ensures Valid()
      ensures plain == old(plain) + if encrypting then block else result
      ensures past == old(past) + if encrypting then result else block
    {
      result := XorWords(block, keystream);
      if encrypting {
        PairedBlock(aes, iv, plain, past, block, result);
        PrimedBlock(aes, iv, past, feedback, keystream, result);
        feedback := result;
        plain, past := plain + block, past + result;
      } else {
        XorBack(block, keystream);
        PairedBlock(aes, iv, plain, past, result, block);
        PrimedBlock(aes, iv, past, feedback, keystream, block);
        feedback := block;
        plain, past := plain + result, past + block;
      }
      used := 16;
    }

    /** The partial block: byte by byte up to the end of the keystream block. */
    method XorPart(data: array<bv8>, i: nat, next: nat, encrypting: bool)
      requires InStep() && i < next <= data.Length && used + (next - i) <= 16
      modifies this, data
      ensures Valid()
      ensures Progress(old(data[..]), data[..], i, next, encrypting, old(plain), plain, old(past), past)
    {
      ghost var was := data[..];
      ProgressNone(was, i, encrypting, plain, past);
      var k := i;
      while k < next
        invariant i <= k <= next && used == old(used) + (k - i)
        invariant if k == i then InStep() else Valid()
        invariant Progress(was, data[..], i, k, encrypting, old(plain), plain, old(past), past)
      {
        ghost var mid, plain1, past1 := data[..], plain, past;
        XorByteAt(data, k, encrypting);
        ProgressTrans(was, mid, data[..], i, k, k + 1, encrypting, old(plain), plain1, plain, old(past), past1, past);
        k := k + 1;
      }
    }

    method XorByteAt(data: array<bv8>, k: nat, encrypting: bool)
      requires (InStep() || Valid()) && used < 16 && k < data.Length
      modifies this, data
      ensures Valid() && used == old(used) + 1
      ensures Progress(old(data[..]), data[..], k, k + 1, encrypting, old(plain), plain, old(past), past)
    {
      if Valid() {
        RegistersPrimed(aes, iv, past, feedback, keystream, used);
      }
      var x := data[k];
      var y := XorByte(x, encrypting);
      CopyFromSlice(data, k, [y]);
      assert old(data[..])[k..k + 1] == [x];
      ProgressSlice(old(data[..]), data[..], k, k + 1, encrypting, [x], [y], old(plain), old(past));
    }

    method XorByte(x: bv8, encrypting: bool) returns (y: bv8)
      requires InStep()
      modifies this
      ensures Valid() && used == old(used) + 1
      ensures plain == old(plain) + [if encrypting then x else y]
      ensures past == old(past) + [if encrypting then y else x]
    {
      y := Xor8(x, keystream[used]);
      if encrypting {
        Shift(x, y);
      } else {
        XorTwice(x, keystream[used]);
        Shift(y, x);
      }
    }

    /** Move the registers on by one ciphertext byte c, the encryption of p. */
    method Shift(ghost p: bv8, c: bv8)
      requires InStep() && c == Xor8(p, keystream[used])
      modifies this
      ensures Valid() && used == old(used) + 1
      ensures plain == old(plain) + [p] && past == old(past) + [c]
    {
      Byte(p, c);
      feedback := feedback[used := c];
      used := used + 1;
    }

    /** Account for one byte, before the registers move. */
    ghost method Byte(p: bv8, c: bv8)
      requires InStep() && c == Xor8(p, keystream[used])
      modifies this`plain, this`past
      ensures plain == old(plain) + [p] && past == old(past) + [c]
      ensures Paired(CfbKey(aes, iv), plain, past)
      ensures Registers(aes, iv, past, feedback[used := c], keystream, used + 1)
    {
      PairedSnoc(CfbKey(aes, iv), plain, past, p, c);
      PrimedByte(aes, iv, past, feedback, keystream, used, c);
      plain, past := plain + [p], past + [c];
    }
  }

  /** Two ciphers with the same key and IV agree: whatever the sizes of the calls
      that enciphered the stream on one side and deciphered a prefix of it on the
      other, the second has the matching prefix of the plaintext; at the same point
      of the stream their registers are the same. */
  lemma ChunkingsIndependent(sender: CfbState, receiver: CfbState)
    requires sender.Valid() && receiver.Valid()
    requires sender.aes == receiver.aes && sender.iv == receiver.iv
    requires receiver.past <= sender.past
    ensures receiver.plain == sender.plain[..|receiver.past|]
    ensures receiver.past == sender.past ==>
              && receiver.feedback == sender.feedback
              && receiver.keystream == sender.keystream
              && receiver.used == sender.used
  {
    SamePlain(CfbKey(sender.aes, sender.iv), sender.plain, sender.past, receiver.plain, receiver.past);
    if receiver.past == sender.past {
      RegistersUnique(sender.aes, sender.iv, sender.past,
                      sender.feedback, sender.keystream, sender.used,
                      receiver.feedback, receiver.keystream, receiver.used);
    }
  }

  lemma RegistersUnique(aes: Aes, iv: Block, c: seq<bv8>, f: Block, k: Block, u: nat, f': Block, k': Block, u': nat)
    requires Registers(aes, iv, c, f, k, u) && Registers(aes, iv, c, f', k', u')
    ensures f == f' && k == k' && u == u'
  {}

  lemma XorBack(a: Block, k: Block)
    ensures XorBytes(XorBytes(a, k), k) == a
  {
    forall i | 0 <= i < 16 ensures a[i] == Xor8(XorBytes(a, k)[i], k[i]) {
      XorAt(a, k, i);
      XorTwice(a[i], k[i]);
    }
    XorPointwise(XorBytes(a, k), k, a);
  }

  lemma XorSwap(a: Block, b: Block)
    ensures XorBytes(a, b) == XorBytes(b, a)
  {
    forall i | 0 <= i < 16 ensures XorBytes(a, b)[i] == Xor8(b[i], a[i]) {
      XorAt(a, b, i);
    }
    XorPointwise(b, a, XorBytes(a, b));
  }

  /** The 128-bit XOR of a data block with the keystream block. */
  method XorWords(block: Block, keystream: Block) returns (result: Block)
    ensures result == XorBytes(block, keystream)
  {
    result := ToLe128(FromLe128(keystream) ^ FromLe128(block));
    WideXor(keystream, block);
    XorSwap(keystream, block);
  }

  /** `data[i..i + |result|].copy_from_slice(result)`. */
  method CopyFromSlice(data: array<bv8>, i: nat, result: seq<bv8>)
    requires i + |result| <= data.Length
    modifies data
    ensures data[..] == old(data[..])[..i] + result + old(data[..])[i + |result|..]
  {
    forall k | 0 <= k < |result| {
      data[i + k] := result[k];
    }
  }
}
