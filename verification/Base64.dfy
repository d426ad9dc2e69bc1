/** Working through a text four characters at a time, stopping at the first error. */
module Grouping {
  datatype Error = InvalidLength(length: nat) | InvalidChar(pos: nat) | InvalidPadding(pos: nat)

  datatype Result<T> = Ok(value: seq<T>) | Err(error: Error)

  /** The first error, or everything. */
  function Then<T>(r: Result<T>, next: Result<T>): Result<T> {
    if r.Err? then r
    else if next.Err? then next
    else Ok(r.value + next.value)
  }

  /** `f` on each group of four, the first at position `pos`. */
  function Groups<C, T>(f: (C, C, C, C, nat) -> Result<T>, s: seq<C>, pos: nat): Result<T>
    requires |s| % 4 == 0
  {
    if s == [] then Ok([]) else Then(f(s[0], s[1], s[2], s[3], pos), Groups(f, s[4..], pos + 4))
  }

  lemma Assoc<T>(a: seq<T>, b: seq<T>, c: seq<T>)
    ensures a + (b + c) == (a + b) + c
  {
  }

  lemma ThenAssoc<T>(a: Result<T>, b: Result<T>, c: Result<T>)
    ensures Then(a, Then(b, c)) == Then(Then(a, b), c)
  {
    if a.Ok? && b.Ok? && c.Ok? {
      Assoc(a.value, b.value, c.value);
    }
  }

  lemma {:induction false} FirstGroup<C, T>(f: (C, C, C, C, nat) -> Result<T>, g: seq<C>, s: seq<C>, pos: nat)
    requires |g| == 4 && |s| % 4 == 0
    ensures Groups(f, g + s, pos) == Then(f(g[0], g[1], g[2], g[3], pos), Groups(f, s, pos + 4))
  {
    assert (g + s)[4..] == s;
  }

  lemma {:induction false} OnlyGroup<C, T>(f: (C, C, C, C, nat) -> Result<T>, g: seq<C>, pos: nat)
    requires |g| == 4
    ensures Groups(f, g, pos) == f(g[0], g[1], g[2], g[3], pos)
  {
    var r := f(g[0], g[1], g[2], g[3], pos);
    assert r.Ok? ==> r.value + [] == r.value;
  }

  lemma {:induction false} Step<C, T>(f: (C, C, C, C, nat) -> Result<T>, out: seq<T>, s: seq<C>, i: nat)
    requires |s| % 4 == 0 && i % 4 == 0 && i + 4 <= |s|
    ensures Then(Ok(out), Groups(f, s[i..], i))
         == Then(Then(Ok(out), f(s[i], s[i + 1], s[i + 2], s[i + 3], i)), Groups(f, s[i + 4..], i + 4))
  {
    assert s[i..][4..] == s[i + 4..];
    ThenAssoc(Ok(out), f(s[i], s[i + 1], s[i + 2], s[i + 3], i), Groups(f, s[i + 4..], i + 4));
  }

  /** Grouping distributes over concatenation at group boundaries, positions included. */
  lemma {:induction false} Concat<C, T>(f: (C, C, C, C, nat) -> Result<T>, a: seq<C>, b: seq<C>, pos: nat)
    requires |a| % 4 == 0 && |b| % 4 == 0
    ensures Groups(f, a + b, pos) == Then(Groups(f, a, pos), Groups(f, b, pos + |a|))
    decreases |a|
  {
    if a == [] {
      assert a + b == b;
    } else {
      Assoc(a[..4], a[4..], b);
      assert a == a[..4] + a[4..];
      FirstGroup(f, a[..4], a[4..] + b, pos);
      FirstGroup(f, a[..4], a[4..], pos);
      Concat(f, a[4..], b, pos + 4);
      ThenAssoc(f(a[0], a[1], a[2], a[3], pos), Groups(f, a[4..], pos + 4), Groups(f, b, pos + |a|));
    }
  }

  /** A whole text, whose length must be a multiple of four. */
  function All<C, T>(f: (C, C, C, C, nat) -> Result<T>, s: seq<C>): Result<T> {
    if |s| % 4 != 0 then Err(InvalidLength(|s|)) else Groups(f, s, 0)
  }

  lemma {:induction false} AllConcat<C, T>(f: (C, C, C, C, nat) -> Result<T>, s: seq<C>, t: seq<C>)
    requires |s| % 4 == 0 && |t| % 4 == 0
    ensures All(f, s + t) == Then(All(f, s), Groups(f, t, |s|))
  {
    Concat(f, s, t, 0);
  }

  /** The first group that fails decides. */
  lemma {:induction false} FirstFailure<C, T>(f: (C, C, C, C, nat) -> Result<T>, s: seq<C>, g: nat)
    requires |s| % 4 == 0 && g % 4 == 0 && g + 4 <= |s|
    requires All(f, s[..g]).Ok? && f(s[g], s[g + 1], s[g + 2], s[g + 3], g).Err?
    ensures All(f, s) == f(s[g], s[g + 1], s[g + 2], s[g + 3], g)
  {
    assert s == s[..g] + s[g..];
    AllConcat(f, s[..g], s[g..]);
  }

  lemma {:induction false} AllJoined<C, T>(f: (C, C, C, C, nat) -> Result<T>, s: seq<C>, t: seq<C>,
                                           c: seq<T>, d: seq<T>)
    requires |s| % 4 == 0 && |t| % 4 == 0
    requires Groups(f, s, 0) == Ok(c) && Groups(f, t, |s|) == Ok(d)
    ensures All(f, s + t) == Ok(c + d)
  {
    Concat(f, s, t, 0);
  }
}

/** Base64 over bytes: the encoder and decoder loops against group-by-group
    definitions, and when each undoes the other. */
module Base64 {
  import opened Wrappers
  import opened Grouping

  type Bytes = seq<bv8>

  const PAD: bv8 := 61

  // ----- the alphabet

  /** The standard alphabet: A-Z, a-z, 0-9, + and /. */
  function Letter(v: bv8): bv8
    requires v < 64
  {
    if v < 26 then v + 65
    else if v < 52 then v - 26 + 97
    else if v < 62 then v - 52 + 48
    else if v == 62 then 43
    else 47
  }

  function DecodeChar(c: bv8): Option<bv8> {
    if 65 <= c <= 90 then Some(c - 65)
    else if 97 <= c <= 122 then Some(c - 97 + 26)
    else if 48 <= c <= 57 then Some(c - 48 + 52)
    else if c == 43 then Some(62)
    else if c == 47 then Some(63)
    else None
  }

  function Text8(b0: bv8, b1: bv8, b2: bv8, b3: bv8, b4: bv8, b5: bv8, b6: bv8, b7: bv8): string {
    [b0 as char, b1 as char, b2 as char, b3 as char, b4 as char, b5 as char, b6 as char, b7 as char]
  }

  /** Eight letters as text, from the v-th on. */
  function LettersFrom(v: bv8): string
    requires v <= 56
  {
    Text8(Letter(v), Letter(v + 1), Letter(v + 2), Letter(v + 3),
          Letter(v + 4), Letter(v + 5), Letter(v + 6), Letter(v + 7))
  }

  /** The first half of the alphabet, written out. */
  lemma FirstLetters()
    ensures LettersFrom(0) == "ABCDEFGH" && LettersFrom(8) == "IJKLMNOP"
    ensures LettersFrom(16) == "QRSTUVWX" && LettersFrom(24) == "YZabcdef"
  {
  }

  /** The second half, and the pad. */
  lemma LastLetters()
    ensures LettersFrom(32) == "ghijklmn" && LettersFrom(40) == "opqrstuv"
    ensures LettersFrom(48) == "wxyz0123" && LettersFrom(56) == "456789+/"
    ensures PAD as char == '='
  {
  }

  /** The two are inverse to each other, and the pad is no letter. */
  lemma LetterDecodes(v: bv8)
    requires v < 64
    ensures DecodeChar(Letter(v)) == Some(v) && Letter(v) != PAD
  {
  }

  lemma DecodedIsLetter(c: bv8)
    requires DecodeChar(c).Some?
    ensures DecodeChar(c).value < 64 && Letter(DecodeChar(c).value) == c
  {
  }

  // ----- bits

  function High6(b0: bv8): (v: bv8)
    ensures v < 64
  {
    b0 >> 2
  }

  function Mid4(b0: bv8, b1: bv8): (v: bv8)
    ensures v < 64
  {
    ((b0 & 0x03) << 4) | (b1 >> 4)
  }

  function Mid2(b1: bv8, b2: bv8): (v: bv8)
    ensures v < 64
  {
    ((b1 & 0x0f) << 2) | (b2 >> 6)
  }

  function Low6(b2: bv8): (v: bv8)
    ensures v < 64
  {
    b2 & 0x3f
  }

  function First(c0: bv8, c1: bv8): bv8 { (c0 << 2) | (c1 >> 4) }

  function Second(c1: bv8, c2: bv8): bv8 { ((c1 & 0x0f) << 4) | (c2 >> 2) }

  function Third(c2: bv8, c3: bv8): bv8 { ((c2 & 0x03) << 6) | c3 }

  lemma SplitJoin(b0: bv8, b1: bv8, b2: bv8)
    ensures First(High6(b0), Mid4(b0, b1)) == b0
    ensures Second(Mid4(b0, b1), Mid2(b1, b2)) == b1
    ensures Third(Mid2(b1, b2), Low6(b2)) == b2
  {
  }

  lemma JoinSplit(c0: bv8, c1: bv8, c2: bv8, c3: bv8)
    requires c0 < 64 && c1 < 64 && c2 < 64 && c3 < 64
    ensures High6(First(c0, c1)) == c0
    ensures Mid4(First(c0, c1), Second(c1, c2)) == c1
    ensures Mid2(Second(c1, c2), Third(c2, c3)) == c2
    ensures Low6(Third(c2, c3)) == c3
  {
  }

  /** With no third or no second byte the bits left over come back as zeros. */
  lemma JoinSplitShort(c0: bv8, c1: bv8, c2: bv8)
    requires c0 < 64 && c1 < 64 && c2 < 64
    ensures Mid2(Second(c1, c2), 0) == c2 <==> c2 & 0x03 == 0
    ensures Mid4(First(c0, c1), 0) == c1 <==> c1 & 0x0f == 0
  {
  }

  // ----- what encoding means

  function Group3(b0: bv8, b1: bv8, b2: bv8): (g: Bytes)
    ensures |g| == 4
  {
    [Letter(High6(b0)), Letter(Mid4(b0, b1)), Letter(Mid2(b1, b2)), Letter(Low6(b2))]
  }

  function Group2(b0: bv8, b1: bv8): (g: Bytes)
    ensures |g| == 4
  {
    [Letter(High6(b0)), Letter(Mid4(b0, b1)), Letter(Mid2(b1, 0)), PAD]
  }

  function Group1(b0: bv8): (g: Bytes)
    ensures |g| == 4
  {
    [Letter(High6(b0)), Letter(Mid4(b0, 0)), PAD, PAD]
  }

  function Encoded(d: Bytes): (s: Bytes)
    ensures |s| % 4 == 0
  {
    if |d| == 0 then []
    else if |d| == 1 then Group1(d[0])
    else if |d| == 2 then Group2(d[0], d[1])
    else
      var rest := Encoded(d[3..]);
      assert |Group3(d[0], d[1], d[2])| == 4 && (4 + |rest|) % 4 == 0;
      Group3(d[0], d[1], d[2]) + rest
  }

  // ----- what decoding means

  /** One group of four characters, the first at position `pos`. */
  function DecodedGroup(g0: bv8, g1: bv8, g2: bv8, g3: bv8, pos: nat): Result<bv8> {
    var c0, c1 := DecodeChar(g0), DecodeChar(g1);
    if c0.None? then Err(InvalidChar(pos))
    else if c1.None? then Err(InvalidChar(pos + 1))
    else if g2 == PAD && g3 == PAD then Ok([First(c0.value, c1.value)])
    else if g2 == PAD then Err(InvalidPadding(pos + 2))
    else
      var c2 := DecodeChar(g2);
      if c2.None? then Err(InvalidChar(pos + 2))
      else if g3 == PAD then Ok([First(c0.value, c1.value), Second(c1.value, c2.value)])
      else
        var c3 := DecodeChar(g3);
        if c3.None? then Err(InvalidChar(pos + 3))
        else Ok([First(c0.value, c1.value), Second(c1.value, c2.value), Third(c2.value, c3.value)])
  }

  function Decoded(s: Bytes): Result<bv8> {
    All(DecodedGroup, s)
  }

  // ----- the loops

  lemma EncodedStep(out: Bytes, data: Bytes, i: nat)
    requires i + 3 <= |data|
    ensures out + Encoded(data[i..]) == (out + Group3(data[i], data[i + 1], data[i + 2])) + Encoded(data[i + 3..])
  {
    assert data[i..][3..] == data[i + 3..];
    Assoc(out, Group3(data[i], data[i + 1], data[i + 2]), Encoded(data[i + 3..]));
  }

  method Encode(data: Bytes) returns (out: Bytes)
    ensures out == Encoded(data)
  {
    out := [];
    var i := 0;
    while i + 3 <= |data|
      invariant i <= |data|
      invariant out + Encoded(data[i..]) == Encoded(data)
    {
      var b0, b1, b2 := data[i], data[i + 1], data[i + 2];
      EncodedStep(out, data, i);
      out := out + [Letter(High6(b0)), Letter(Mid4(b0, b1)), Letter(Mid2(b1, b2)), Letter(Low6(b2))];
      i := i + 3;
    }
    var rest := data[i..];
    if |rest| == 1 {
      out := out + [Letter(High6(rest[0])), Letter((rest[0] & 0x03) << 4), PAD, PAD];
    } else if |rest| == 2 {
      out := out + [Letter(High6(rest[0])), Letter(Mid4(rest[0], rest[1])), Letter((rest[1] & 0x0f) << 2), PAD];
    }
  }

  /** `out` and what the text holds from i on are what the whole text decodes to. */
  ghost predicate Reads(bytes: Bytes, out: Bytes, i: nat) {
    && |bytes| % 4 == 0 && i % 4 == 0 && i <= |bytes|
    && Then(Ok(out), Groups(DecodedGroup, bytes[i..], i)) == Decoded(bytes)
  }

  lemma {:induction false} ReadsFirst(bytes: Bytes)
    requires |bytes| % 4 == 0
    ensures Reads(bytes, [], 0)
  {
    var r := Groups(DecodedGroup, bytes, 0);
    assert bytes[0..] == bytes;
    assert r.Ok? ==> [] + r.value == r.value;
  }

  lemma {:induction false} ReadsOn(bytes: Bytes, out: Bytes, i: nat, g: Result<bv8>)
    requires Reads(bytes, out, i) && i < |bytes|
    requires g == DecodedGroup(bytes[i], bytes[i + 1], bytes[i + 2], bytes[i + 3], i)
    ensures g.Err? ==> Decoded(bytes) == g
    ensures g.Ok? ==> Reads(bytes, out + g.value, i + 4)
  {
    Step(DecodedGroup, out, bytes, i);
  }

  lemma {:induction false} ReadsAll(bytes: Bytes, out: Bytes)
    requires Reads(bytes, out, |bytes|)
    ensures Decoded(bytes) == Ok(out)
  {
    assert bytes[|bytes|..] == [] && out + [] == out;
  }

  method Decode(bytes: Bytes) returns (r: Result<bv8>)
    ensures r == Decoded(bytes)
  {
    if |bytes| % 4 != 0 {
      return Err(InvalidLength(|bytes|));
    }
    var out: Bytes := [];
    var i := 0;
    ReadsFirst(bytes);
    while i < |bytes|
      invariant Reads(bytes, out, i)
    {
      var group := DecodeOne(bytes, i);
      ReadsOn(bytes, out, i, group);
      if group.Err? {
        return group;
      }
      out := out + group.value;
      i := i + 4;
    }
    ReadsAll(bytes, out);
    return Ok(out);
  }

  /** The body of the loop: the bytes that one group pushes, or its error. */
  method DecodeOne(bytes: Bytes, i: nat) returns (r: Result<bv8>)
    requires i + 4 <= |bytes|
    ensures r == DecodedGroup(bytes[i], bytes[i + 1], bytes[i + 2], bytes[i + 3], i)
  {
    var c0 := DecodeChar(bytes[i]);
    if c0.None? {
      return Err(InvalidChar(i));
    }
    var c1 := DecodeChar(bytes[i + 1]);
    if c1.None? {
      return Err(InvalidChar(i + 1));
    }
    if bytes[i + 2] == PAD && bytes[i + 3] == PAD {
      return Ok([First(c0.value, c1.value)]);
    }
    if bytes[i + 2] == PAD {
      return Err(InvalidPadding(i + 2));
    }
    var c2 := DecodeChar(bytes[i + 2]);
    if c2.None? {
      return Err(InvalidChar(i + 2));
    }
    if bytes[i + 3] == PAD {
      return Ok([First(c0.value, c1.value), Second(c1.value, c2.value)]);
    }
    var c3 := DecodeChar(bytes[i + 3]);
    if c3.None? {
      return Err(InvalidChar(i + 3));
    }
    return Ok([First(c0.value, c1.value), Second(c1.value, c2.value), Third(c2.value, c3.value)]);
  }

  // ----- decode undoes encode

  function GroupAt(g: Bytes, pos: nat): Result<bv8>
    requires |g| == 4
  {
    DecodedGroup(g[0], g[1], g[2], g[3], pos)
  }

  lemma GroupsDecode(b0: bv8, b1: bv8, b2: bv8, pos: nat)
    ensures GroupAt(Group3(b0, b1, b2), pos) == Ok([b0, b1, b2])
    ensures GroupAt(Group2(b0, b1), pos) == Ok([b0, b1])
    ensures GroupAt(Group1(b0), pos) == Ok([b0])
  {
    SplitJoin(b0, b1, b2);
    SplitJoin(b0, b1, 0);
    SplitJoin(b0, 0, 0);
    LettersDecode(b0, b1, b2);
    LettersDecode(b0, b1, 0);
    LettersDecode(b0, 0, 0);
  }

  lemma LettersDecode(b0: bv8, b1: bv8, b2: bv8)
    ensures DecodeChar(Letter(High6(b0))) == Some(High6(b0))
    ensures DecodeChar(Letter(Mid4(b0, b1))) == Some(Mid4(b0, b1))
    ensures DecodeChar(Letter(Mid2(b1, b2))) == Some(Mid2(b1, b2)) && Letter(Mid2(b1, b2)) != PAD
    ensures DecodeChar(Letter(Low6(b2))) == Some(Low6(b2)) && Letter(Low6(b2)) != PAD
  {
    LetterDecodes(High6(b0));
    LetterDecodes(Mid4(b0, b1));
    LetterDecodes(Mid2(b1, b2));
    LetterDecodes(Low6(b2));
  }

  lemma {:induction false} EncodedDecodes(d: Bytes, pos: nat)
    ensures Groups(DecodedGroup, Encoded(d), pos) == Ok(d)
  {
    if |d| == 1 {
      GroupsDecode(d[0], 0, 0, pos);
      OnlyGroup(DecodedGroup, Group1(d[0]), pos);
    } else if |d| == 2 {
      GroupsDecode(d[0], d[1], 0, pos);
      OnlyGroup(DecodedGroup, Group2(d[0], d[1]), pos);
    } else if |d| >= 3 {
      GroupsDecode(d[0], d[1], d[2], pos);
      EncodedDecodes(d[3..], pos + 4);
      FirstGroup(DecodedGroup, Group3(d[0], d[1], d[2]), Encoded(d[3..]), pos);
      assert [d[0], d[1], d[2]] + d[3..] == d;
    }
  }

  /** Decoding undoes encoding for all byte strings. */
  lemma {:induction false} DecodeEncode(d: Bytes)
    ensures Decoded(Encoded(d)) == Ok(d)
  {
    EncodedDecodes(d, 0);
  }

  /** A padded group in the middle is accepted: two encodings in a row decode to the two
      byte strings in a row. */
  lemma {:induction false} InteriorPadding(c: Bytes, d: Bytes)
    ensures Decoded(Encoded(c) + Encoded(d)) == Ok(c + d)
  {
    EncodedDecodes(c, 0);
    EncodedDecodes(d, |Encoded(c)|);
    AllJoined(DecodedGroup, Encoded(c), Encoded(d), c, d);
  }

  /** Decoding distributes over concatenation of texts made of whole groups, errors and
      their positions included. */
  lemma {:induction false} DecodeConcat(s: Bytes, t: Bytes)
    requires |s| % 4 == 0 && |t| % 4 == 0
    ensures Decoded(s + t) == Then(Decoded(s), Groups(DecodedGroup, t, |s|))
    ensures Groups(DecodedGroup, t, |s|).Ok? <==> Decoded(t).Ok?
    ensures Decoded(t).Ok? ==> Groups(DecodedGroup, t, |s|) == Decoded(t)
  {
    AllConcat(DecodedGroup, s, t);
    Shifted(t, 0, |s|);
  }

  /** Positions matter only in errors. */
  lemma {:induction false} Shifted(s: Bytes, p: nat, q: nat)
    requires |s| % 4 == 0
    ensures Groups(DecodedGroup, s, p).Ok? <==> Groups(DecodedGroup, s, q).Ok?
    ensures Groups(DecodedGroup, s, p).Ok? ==> Groups(DecodedGroup, s, p) == Groups(DecodedGroup, s, q)
    decreases |s|
  {
    if s != [] {
      GroupShifted(s[0], s[1], s[2], s[3], p, q);
      Shifted(s[4..], p + 4, q + 4);
    }
  }

  lemma GroupShifted(g0: bv8, g1: bv8, g2: bv8, g3: bv8, p: nat, q: nat)
    ensures DecodedGroup(g0, g1, g2, g3, p).Ok? <==> DecodedGroup(g0, g1, g2, g3, q).Ok?
    ensures DecodedGroup(g0, g1, g2, g3, p).Ok? ==> DecodedGroup(g0, g1, g2, g3, p) == DecodedGroup(g0, g1, g2, g3, q)
  {
  }

  // ----- encode undoes decode

  predicate Padded(g: Bytes)
    requires |g| == 4
  {
    g[3] == PAD
  }

  /** The bits of the last character that carry no data are zero. */
  predicate ZeroLeftover(g: Bytes)
    requires |g| == 4
  {
    if g[2] == PAD then DecodeChar(g[1]).Some? ==> DecodeChar(g[1]).value & 0x0f == 0
    else g[3] == PAD && DecodeChar(g[2]).Some? ==> DecodeChar(g[2]).value & 0x03 == 0
  }

  /** No padded group before the last, and no leftover bits set. */
  predicate Canonical(s: Bytes)
    requires |s| % 4 == 0
  {
    s == [] || (ZeroLeftover(s[..4]) && (Padded(s[..4]) ==> |s| == 4) && Canonical(s[4..]))
  }

  lemma GroupCanonical(b0: bv8, b1: bv8, b2: bv8)
    ensures ZeroLeftover(Group3(b0, b1, b2)) && !Padded(Group3(b0, b1, b2))
    ensures ZeroLeftover(Group2(b0, b1)) && ZeroLeftover(Group1(b0))
  {
    LettersDecode(b0, b1, b2);
    LettersDecode(b0, b1, 0);
    LettersDecode(b0, 0, 0);
    LeftoverZero(b0, b1);
  }

  lemma LeftoverZero(b0: bv8, b1: bv8)
    ensures Mid4(b0, 0) & 0x0f == 0 && Mid2(b1, 0) & 0x03 == 0
  {
  }

  lemma FirstCanonical(g: Bytes, s: Bytes)
    requires |g| == 4 && |s| % 4 == 0 && ZeroLeftover(g) && (Padded(g) ==> s == []) && Canonical(s)
    ensures Canonical(g + s)
  {
    assert (g + s)[..4] == g && (g + s)[4..] == s;
  }

  /** Every encoding is canonical. */
  lemma {:induction false} EncodedCanonical(d: Bytes)
    ensures Canonical(Encoded(d))
  {
    if |d| == 1 {
      GroupCanonical(d[0], 0, 0);
      FirstCanonical(Group1(d[0]), []);
    } else if |d| == 2 {
      GroupCanonical(d[0], d[1], 0);
      FirstCanonical(Group2(d[0], d[1]), []);
    } else if |d| >= 3 {
      GroupCanonical(d[0], d[1], d[2]);
      EncodedCanonical(d[3..]);
      FirstCanonical(Group3(d[0], d[1], d[2]), Encoded(d[3..]));
    }
  }

  /** One accepted group, canonical in itself, encodes back. */
  lemma GroupEncodes(g: Bytes, pos: nat)
    requires |g| == 4 && GroupAt(g, pos).Ok? && ZeroLeftover(g)
    ensures Encoded(GroupAt(g, pos).value) == g
    ensures !Padded(g) <==> |GroupAt(g, pos).value| == 3
  {
    var d := GroupAt(g, pos).value;
    DecodedIsLetter(g[0]);
    DecodedIsLetter(g[1]);
    var c0, c1 := DecodeChar(g[0]).value, DecodeChar(g[1]).value;
    if g[2] == PAD {
      JoinSplit(c0, c1, 0, 0);
      JoinSplitShort(c0, c1, 0);
    } else {
      DecodedIsLetter(g[2]);
      var c2 := DecodeChar(g[2]).value;
      if g[3] == PAD {
        JoinSplit(c0, c1, c2, 0);
        JoinSplitShort(c0, c1, c2);
      } else {
        DecodedIsLetter(g[3]);
        JoinSplit(c0, c1, c2, DecodeChar(g[3]).value);
        assert d[3..] == [];
      }
    }
  }

  lemma EncodedCons(x: Bytes, y: Bytes)
    requires |x| == 3
    ensures Encoded(x + y) == Encoded(x) + Encoded(y)
  {
    assert (x + y)[3..] == y && x[3..] == [];
  }

  lemma {:induction false} CanonicalEncodes(s: Bytes, pos: nat)
    requires |s| % 4 == 0 && Groups(DecodedGroup, s, pos).Ok? && Canonical(s)
    ensures Encoded(Groups(DecodedGroup, s, pos).value) == s
  {
    if s != [] {
      var d, later := GroupAt(s[..4], pos).value, Groups(DecodedGroup, s[4..], pos + 4).value;
      GroupEncodes(s[..4], pos);
      CanonicalEncodes(s[4..], pos + 4);
      assert s == s[..4] + s[4..];
      if Padded(s[..4]) {
        assert s[4..] == [] && d + later == d;
      } else {
        EncodedCons(d, later);
      }
    }
  }

  /** Encoding undoes decoding exactly on the canonical inputs. */
  lemma {:induction false} EncodeDecode(s: Bytes)
    requires Decoded(s).Ok?
    ensures Encoded(Decoded(s).value) == s <==> Canonical(s)
  {
    EncodedCanonical(Decoded(s).value);
    if Canonical(s) {
      CanonicalEncodes(s, 0);
    }
  }

  // ----- errors

  /** An error names a place that is wrong: a character that is no letter, or a pad
      followed by something else. */
  ghost predicate Names(e: Error, s: Bytes, pos: nat) {
    match e
    case InvalidLength(n) => n == |s| && n % 4 != 0
    case InvalidChar(p) => pos <= p < pos + |s| && DecodeChar(s[p - pos]).None?
    case InvalidPadding(p) => pos <= p && p + 1 < pos + |s| && s[p - pos] == PAD && s[p + 1 - pos] != PAD
  }

  lemma {:induction false} ErrorNamesPlace(s: Bytes, pos: nat)
    requires |s| % 4 == 0 && Groups(DecodedGroup, s, pos).Err?
    ensures Names(Groups(DecodedGroup, s, pos).error, s, pos)
  {
    if GroupAt(s[..4], pos).Ok? {
      ErrorNamesPlace(s[4..], pos + 4);
    }
  }

  /** Four letters, three and a pad, or two and two pads. */
  predicate Accepted(g: Bytes)
    requires |g| == 4
  {
    && DecodeChar(g[0]).Some? && DecodeChar(g[1]).Some?
    && (g[2] == g[3] == PAD || (DecodeChar(g[2]).Some? && (g[3] == PAD || DecodeChar(g[3]).Some?)))
  }

  predicate AcceptedAt(s: Bytes, k: nat) {
    4 * k + 4 <= |s| && Accepted(s[4 * k..4 * k + 4])
  }

  lemma AcceptedIsOk(g: Bytes, pos: nat)
    requires |g| == 4
    ensures Accepted(g) <==> GroupAt(g, pos).Ok?
  {
  }

  lemma {:induction false} GroupsExact(s: Bytes, pos: nat)
    requires |s| % 4 == 0
    ensures Groups(DecodedGroup, s, pos).Ok? <==> forall k :: 0 <= k < |s| / 4 ==> AcceptedAt(s, k)
    decreases |s|
  {
    if s != [] {
      AcceptedIsOk(s[..4], pos);
      GroupsExact(s[4..], pos + 4);
      assert s[0..4] == s[..4];
      assert AcceptedAt(s, 0) <==> Accepted(s[..4]);
      forall k | 0 <= k < |s| / 4 - 1 ensures AcceptedAt(s[4..], k) <==> AcceptedAt(s, k + 1) {
        assert s[4..][4 * k..4 * k + 4] == s[4 * (k + 1)..4 * (k + 1) + 4];
      }
      assert forall k :: 0 < k < |s| / 4 ==> (AcceptedAt(s, k) <==> AcceptedAt(s[4..], k - 1));
    }
  }

  /** Nothing before p is wrong, and p is: it is no letter, and no pad in a place for one. */
  ghost predicate Culprit(s: Bytes, p: nat) {
    && p < |s| && |s| % 4 == 0
    && Decoded(s[..p - p % 4]).Ok?
    && (forall q :: p - p % 4 <= q < p ==> DecodeChar(s[q]).Some?)
    && DecodeChar(s[p]).None?
    && !(s[p] == PAD && (p % 4 == 3 || (p % 4 == 2 && s[p + 1] == PAD)))
  }

  function Blame(s: Bytes, p: nat): Error
    requires p < |s|
  {
    if p % 4 == 2 && s[p] == PAD then InvalidPadding(p) else InvalidChar(p)
  }

  lemma {:induction false} GroupBlamed(s: Bytes, p: nat, g: nat)
    requires Culprit(s, p) && g == p - p % 4
    ensures DecodedGroup(s[g], s[g + 1], s[g + 2], s[g + 3], g) == Err(Blame(s, p))
  {
    if p == g + 1 {
      assert DecodeChar(s[g]).Some?;
    } else if p == g + 2 {
      assert DecodeChar(s[g]).Some? && DecodeChar(s[g + 1]).Some?;
    } else if p == g + 3 {
      assert DecodeChar(s[g]).Some? && DecodeChar(s[g + 1]).Some? && DecodeChar(s[g + 2]).Some?;
      assert DecodeChar(PAD).None?;
    }
  }

  /** The first thing wrong is what the error names, with its position and kind. */
  lemma {:induction false} CulpritNamed(s: Bytes, p: nat)
    requires Culprit(s, p)
    ensures Decoded(s) == Err(Blame(s, p))
  {
    var g := p - p % 4;
    GroupBlamed(s, p, g);
    FirstFailure(DecodedGroup, s, g);
  }

  lemma {:induction false} GroupCulprit(s: Bytes) returns (p: nat)
    requires |s| % 4 == 0 && s != [] && !Accepted(s[..4])
    ensures Culprit(s, p)
  {
    p := if DecodeChar(s[0]).None? then 0
         else if DecodeChar(s[1]).None? then 1
         else if DecodeChar(s[2]).None? then 2
         else 3;
    assert s[..0] == [];
  }

  lemma {:induction false} CulpritAfter(s: Bytes, p: nat)
    requires |s| % 4 == 0 && s != [] && Accepted(s[..4]) && Culprit(s[4..], p)
    ensures Culprit(s, p + 4)
  {
    var g := p - p % 4;
    AcceptedIsOk(s[..4], 0);
    OnlyGroup(DecodedGroup, s[..4], 0);
    DecodeConcat(s[..4], s[4..][..g]);
    assert s[..g + 4] == s[..4] + s[4..][..g];
    forall q | g + 4 <= q < p + 4 ensures DecodeChar(s[q]).Some? {
      assert s[q] == s[4..][q - 4];
    }
  }

  lemma {:induction false} FindCulprit(s: Bytes) returns (p: nat)
    requires |s| % 4 == 0 && Decoded(s).Err?
    ensures Culprit(s, p)
    decreases |s|
  {
    if !Accepted(s[..4]) {
      p := GroupCulprit(s);
    } else {
      AcceptedIsOk(s[..4], 0);
      Shifted(s[4..], 0, 4);
      var q := FindCulprit(s[4..]);
      CulpritAfter(s, q);
      p := q + 4;
    }
  }

  /** What a refused text is told: its length, or the first thing wrong in it. */
  lemma {:induction false} DecodeErrors(s: Bytes)
    requires Decoded(s).Err?
    ensures if |s| % 4 != 0 then Decoded(s) == Err(InvalidLength(|s|))
            else exists p :: Culprit(s, p) && Decoded(s) == Err(Blame(s, p))
  {
    if |s| % 4 == 0 {
      var p := FindCulprit(s);
      CulpritNamed(s, p);
    }
  }

  /** A text is accepted exactly when it is made of accepted groups. */
  lemma {:induction false} DecodeExact(s: Bytes)
    ensures Decoded(s).Ok? <==> |s| % 4 == 0 && forall k :: 0 <= k < |s| / 4 ==> AcceptedAt(s, k)
  {
    if |s| % 4 == 0 {
      GroupsExact(s, 0);
    }
  }
}
