/** Byte stream ciphers whose key byte is a function of the ciphertext that has
    gone past. CFB is one; the laws below need nothing more. */
module StreamMode {
  import opened LittleEndian

  /** The byte to XOR next, given the whole ciphertext before it. */
  type Key = seq<bv8> -> bv8

  /** Byte i of the ciphertext is byte i of the plaintext under its key byte. */
  ghost predicate ByteAt(key: Key, p: seq<bv8>, c: seq<bv8>, i: nat)
    requires i < |p| == |c|
  {
    c[i] == Xor8(p[i], key(c[..i]))
  }

  /** Plaintext p and ciphertext c of one stream, byte by byte. */
  ghost predicate Paired(key: Key, p: seq<bv8>, c: seq<bv8>) {
    |p| == |c| && forall i :: 0 <= i < |c| ==> ByteAt(key, p, c, i)
  }

  function Encrypt(key: Key, p: seq<bv8>): (c: seq<bv8>)
    ensures |c| == |p|
  {
    if p == [] then [] else
      var c := Encrypt(key, p[..|p| - 1]);
      c + [Xor8(p[|p| - 1], key(c))]
  }

  function Decrypt(key: Key, c: seq<bv8>): (p: seq<bv8>)
    ensures |p| == |c|
  {
    if c == [] then [] else
      var front := c[..|c| - 1];
      Decrypt(key, front) + [Xor8(c[|c| - 1], key(front))]
  }

  lemma PairedSnoc(key: Key, p: seq<bv8>, c: seq<bv8>, x: bv8, y: bv8)
    requires Paired(key, p, c) && y == Xor8(x, key(c))
    ensures Paired(key, p + [x], c + [y])
  {
    var d := c + [y];
    forall i | 0 <= i < |d| ensures ByteAt(key, p + [x], d, i) {
      if i < |c| {
        assert ByteAt(key, p, c, i);
        assert d[..i] == c[..i];
      } else {
        assert d[..i] == c;
      }
    }
  }

  lemma PairedPrefix(key: Key, p: seq<bv8>, c: seq<bv8>, n: nat)
    requires Paired(key, p, c) && n <= |c|
    ensures Paired(key, p[..n], c[..n])
  {
    forall i | 0 <= i < n ensures ByteAt(key, p[..n], c[..n], i) {
      assert ByteAt(key, p, c, i);
      assert c[..n][..i] == c[..i];
    }
  }

  lemma {:induction false} EncryptPaired(key: Key, p: seq<bv8>)
    ensures Paired(key, p, Encrypt(key, p))
  {
    if p != [] {
      var front := p[..|p| - 1];
      EncryptPaired(key, front);
      var c := Encrypt(key, front);
      PairedSnoc(key, front, c, p[|p| - 1], Xor8(p[|p| - 1], key(c)));
      assert front + [p[|p| - 1]] == p;
    }
  }

  lemma XorTwice(x: bv8, k: bv8)
    ensures Xor8(Xor8(x, k), k) == x
  {}

  lemma {:induction false} PairedEncrypts(key: Key, p: seq<bv8>, c: seq<bv8>)
    requires Paired(key, p, c)
    ensures c == Encrypt(key, p)
  {
    if p != [] {
      var n := |p| - 1;
      PairedPrefix(key, p, c, n);
      PairedEncrypts(key, p[..n], c[..n]);
      assert ByteAt(key, p, c, n);
      assert c == c[..n] + [c[n]];
    }
  }

  lemma {:induction false} PairedDecrypts(key: Key, p: seq<bv8>, c: seq<bv8>)
    requires Paired(key, p, c)
    ensures p == Decrypt(key, c)
  {
    if p != [] {
      var n := |p| - 1;
      PairedPrefix(key, p, c, n);
      PairedDecrypts(key, p[..n], c[..n]);
      assert ByteAt(key, p, c, n);
      XorTwice(p[n], key(c[..n]));
      assert p == p[..n] + [p[n]];
    }
  }

  /** A pairing determines each side from the other: the ciphertext is the
      encryption of the plaintext and the plaintext the decryption of the ciphertext. */
  lemma PairedBothWays(key: Key, p: seq<bv8>, c: seq<bv8>)
    requires Paired(key, p, c)
    ensures c == Encrypt(key, p) && p == Decrypt(key, c)
  {
    PairedEncrypts(key, p, c);
    PairedDecrypts(key, p, c);
  }

  /** The plaintext of a prefix is a prefix of the plaintext. */
  lemma SamePlain(key: Key, p: seq<bv8>, c: seq<bv8>, q: seq<bv8>, d: seq<bv8>)
    requires Paired(key, p, c) && Paired(key, q, d) && d <= c
    ensures q == p[..|d|]
  {
    PairedPrefix(key, p, c, |d|);
    assert c[..|d|] == d;
    PairedDecrypts(key, p[..|d|], d);
    PairedDecrypts(key, q, d);
  }

  /** Decryption undoes encryption. */
  lemma DecryptEncrypt(key: Key, p: seq<bv8>)
    ensures Decrypt(key, Encrypt(key, p)) == p
  {
    EncryptPaired(key, p);
    PairedBothWays(key, p, Encrypt(key, p));
  }

  /** Encrypting more never changes what is already out. */
  lemma EncryptPrefix(key: Key, p: seq<bv8>, n: nat)
    requires n <= |p|
    ensures Encrypt(key, p)[..n] == Encrypt(key, p[..n])
  {
    EncryptPaired(key, p);
    PairedPrefix(key, p, Encrypt(key, p), n);
    PairedBothWays(key, p[..n], Encrypt(key, p)[..n]);
  }

  /** A prefix of a ciphertext decrypts to the same prefix of the plaintext. */
  lemma DecryptPrefix(key: Key, p: seq<bv8>, n: nat)
    requires n <= |p|
    ensures Decrypt(key, Encrypt(key, p)[..n]) == p[..n]
  {
    EncryptPrefix(key, p, n);
    DecryptEncrypt(key, p[..n]);
  }
}
