/** Config snapshots: fields sorted by key, rendered `key=value` and joined by a bar,
    and maps rendered in key order. Two are compared to see whether a proxy changed. */
module Snapshots {
  datatype Field = Field(key: string, value: string)

  // ----- the order of keys

  /** Lexicographic order. */
  predicate Below(a: string, b: string) {
    a == [] || (b != [] && (a[0] < b[0] || (a[0] == b[0] && Below(a[1..], b[1..]))))
  }

  lemma {:induction false} BelowTotal(a: string, b: string)
    ensures Below(a, b) || Below(b, a)
  {
    if a != [] && b != [] && a[0] == b[0] {
      BelowTotal(a[1..], b[1..]);
    }
  }

  lemma {:induction false} BelowAntisymmetric(a: string, b: string)
    requires Below(a, b) && Below(b, a)
    ensures a == b
  {
    if a != [] && b != [] {
      BelowAntisymmetric(a[1..], b[1..]);
      assert a == [a[0]] + a[1..] && b == [b[0]] + b[1..];
    }
  }

  lemma {:induction false} BelowTransitive(a: string, b: string, c: string)
    requires Below(a, b) && Below(b, c)
    ensures Below(a, c)
  {
    if a != [] && a[0] == b[0] == c[0] {
      BelowTransitive(a[1..], b[1..], c[1..]);
    }
  }

  // ----- sorting

  predicate Sorted(fs: seq<Field>) {
    forall i, j :: 0 <= i < j < |fs| ==> Below(fs[i].key, fs[j].key)
  }

  predicate DistinctKeys(fs: seq<Field>) {
    forall i, j :: 0 <= i < j < |fs| ==> fs[i].key != fs[j].key
  }

  function Insert(f: Field, fs: seq<Field>): seq<Field> {
    if fs == [] || Below(f.key, fs[0].key) then [f] + fs else [fs[0]] + Insert(f, fs[1..])
  }

  /** The fields in key order. */
  function Sort(fs: seq<Field>): seq<Field> {
    if fs == [] then [] else Insert(fs[0], Sort(fs[1..]))
  }

  ghost predicate SameFields(fs: seq<Field>, gs: seq<Field>) {
    forall f :: f in fs <==> f in gs
  }

  lemma {:induction false} InsertHas(f: Field, fs: seq<Field>, g: Field)
    ensures g in Insert(f, fs) <==> g == f || g in fs
  {
    if fs != [] && !Below(f.key, fs[0].key) {
      InsertHas(f, fs[1..], g);
      assert g in fs <==> g == fs[0] || g in fs[1..];
    }
  }

  lemma {:induction false} SortHas(fs: seq<Field>, g: Field)
    ensures g in Sort(fs) <==> g in fs
  {
    if fs != [] {
      SortHas(fs[1..], g);
      InsertHas(fs[0], Sort(fs[1..]), g);
    }
  }

  predicate NoneHas(key: string, fs: seq<Field>) {
    forall i :: 0 <= i < |fs| ==> fs[i].key != key
  }

  lemma {:induction false} InsertSorted(f: Field, fs: seq<Field>)
    requires Sorted(fs) && DistinctKeys(fs) && NoneHas(f.key, fs)
    ensures Sorted(Insert(f, fs)) && DistinctKeys(Insert(f, fs))
  {
    if fs == [] {
    } else if Below(f.key, fs[0].key) {
      forall i | 0 <= i < |fs| ensures Below(f.key, fs[i].key) {
        if i > 0 {
          BelowTransitive(f.key, fs[0].key, fs[i].key);
        }
      }
    } else {
      var rest := Insert(f, fs[1..]);
      InsertSorted(f, fs[1..]);
      BelowTotal(f.key, fs[0].key);
      forall i | 0 <= i < |rest| ensures Below(fs[0].key, rest[i].key) && rest[i].key != fs[0].key {
        InsertHas(f, fs[1..], rest[i]);
      }
    }
  }

  lemma {:induction false} SortSorted(fs: seq<Field>)
    requires DistinctKeys(fs)
    ensures Sorted(Sort(fs)) && DistinctKeys(Sort(fs))
  {
    if fs != [] {
      var rest := Sort(fs[1..]);
      SortSorted(fs[1..]);
      forall i | 0 <= i < |rest| ensures rest[i].key != fs[0].key {
        SortHas(fs[1..], rest[i]);
      }
      InsertSorted(fs[0], rest);
    }
  }

  lemma {:induction false} SameHead(fs: seq<Field>, gs: seq<Field>)
    requires fs != [] && gs != [] && SameFields(fs, gs)
    requires Sorted(fs) && Sorted(gs) && DistinctKeys(fs)
    ensures fs[0] == gs[0]
  {
    assert fs[0] in gs && gs[0] in fs;
    var i :| 0 <= i < |gs| && gs[i] == fs[0];
    var j :| 0 <= j < |fs| && fs[j] == gs[0];
    if i > 0 && j > 0 {
      BelowAntisymmetric(fs[0].key, fs[j].key);
      assert false;
    }
  }

  lemma {:induction false} SameTail(fs: seq<Field>, gs: seq<Field>)
    requires fs != [] && gs != [] && SameFields(fs, gs) && fs[0] == gs[0]
    requires DistinctKeys(fs) && DistinctKeys(gs)
    ensures SameFields(fs[1..], gs[1..])
  {
    forall f ensures f in fs[1..] <==> f in gs[1..] {
      assert f in fs <==> f == fs[0] || f in fs[1..];
      assert f in gs <==> f == gs[0] || f in gs[1..];
      assert f == fs[0] ==> f !in fs[1..] && f !in gs[1..];
    }
  }

  lemma {:induction false} SameEmpty(fs: seq<Field>, gs: seq<Field>)
    requires SameFields(fs, gs)
    ensures fs == [] <==> gs == []
  {
    if fs != [] {
      assert fs[0] in gs;
    }
    if gs != [] {
      assert gs[0] in fs;
    }
  }

  /** There is one way to sort fields with distinct keys. */
  lemma {:induction false} SortedUnique(fs: seq<Field>, gs: seq<Field>)
    requires SameFields(fs, gs) && Sorted(fs) && Sorted(gs) && DistinctKeys(fs) && DistinctKeys(gs)
    ensures fs == gs
  {
    SameEmpty(fs, gs);
    if fs != [] {
      SameHead(fs, gs);
      SameTail(fs, gs);
      SortedUnique(fs[1..], gs[1..]);
      assert fs == [fs[0]] + fs[1..] && gs == [gs[0]] + gs[1..];
    }
  }

  /** The order the fields were listed in does not matter, and nothing else is lost. */
  lemma {:induction false} SortSame(fs: seq<Field>, gs: seq<Field>)
    requires DistinctKeys(fs) && DistinctKeys(gs)
    ensures Sort(fs) == Sort(gs) <==> SameFields(fs, gs)
  {
    forall f ensures f in Sort(fs) <==> f in fs {
      SortHas(fs, f);
    }
    forall f ensures f in Sort(gs) <==> f in gs {
      SortHas(gs, f);
    }
    SortSorted(fs);
    SortSorted(gs);
    if SameFields(fs, gs) {
      SortedUnique(Sort(fs), Sort(gs));
    }
  }

  // ----- joining

  predicate Free(s: string, c: char) {
    c !in s
  }

  function Part(f: Field): string {
    f.key + "=" + f.value
  }

  /** Strings joined by a bar. */
  function Join(parts: seq<string>): string {
    if parts == [] then ""
    else if |parts| == 1 then parts[0]
    else parts[0] + "|" + Join(parts[1..])
  }

  function Parts(fs: seq<Field>): seq<string> {
    if fs == [] then [] else [Part(fs[0])] + Parts(fs[1..])
  }

  function Snapshot(fs: seq<Field>): string {
    Join(Parts(Sort(fs)))
  }

  predicate FirstAt(s: string, c: char, k: nat) {
    k < |s| && s[k] == c && forall i :: 0 <= i < k ==> s[i] != c
  }

  lemma {:induction false} FirstSeparator(a: string, b: string, c: char)
    requires Free(a, c)
    ensures FirstAt(a + [c] + b, c, |a|)
  {
    assert forall i :: 0 <= i < |a| ==> (a + [c] + b)[i] == a[i];
  }

  /** A separator that neither first piece holds splits a string one way only. */
  lemma {:induction false} SplitOnce(a: string, b: string, x: string, y: string, c: char)
    requires Free(a, c) && Free(x, c)
    requires a + [c] + b == x + [c] + y
    ensures a == x && b == y
  {
    var s := a + [c] + b;
    FirstSeparator(a, b, c);
    FirstSeparator(x, y, c);
    assert |a| == |x|;
    assert s[..|a|] == a && s[..|a|] == x;
    assert s[|a| + 1..] == b && s[|a| + 1..] == y;
  }

  lemma {:induction false} PartsAre(fs: seq<Field>)
    ensures |Parts(fs)| == |fs|
    ensures forall i :: 0 <= i < |fs| ==> Parts(fs)[i] == Part(fs[i])
  {
    if fs != [] {
      PartsAre(fs[1..]);
    }
  }

  // ----- what a snapshot tells

  /** Keys hold neither separator. */
  predicate CleanKeys(fs: seq<Field>) {
    forall i :: 0 <= i < |fs| ==> Free(fs[i].key, '=') && Free(fs[i].key, '|')
  }

  /** What stands before a value that is not the first. */
  function Marker(k: string): string {
    "|" + k + "="
  }

  predicate OccursAt(s: string, m: string, i: nat) {
    i + |m| <= |s| && s[i..i + |m|] == m
  }

  ghost predicate Holds(s: string, m: string) {
    exists i :: OccursAt(s, m, i)
  }

  /** The joined fields with a bar in front. */
  function Chain(fs: seq<Field>): string {
    if fs == [] then "" else Marker(fs[0].key) + (fs[0].value + Chain(fs[1..]))
  }

  lemma {:induction false} JoinIsChain(fs: seq<Field>)
    requires fs != []
    ensures "|" + Join(Parts(fs)) == Chain(fs)
  {
    if |fs| == 1 {
      assert Parts(fs) == [Part(fs[0])];
      assert fs[0].value + "" == fs[0].value;
    } else {
      JoinIsChain(fs[1..]);
      JoinParts(fs);
      Regroup(fs[0].key, fs[0].value, Chain(fs[1..]));
    }
  }

  lemma {:induction false} JoinParts(fs: seq<Field>)
    requires |fs| > 1
    ensures Join(Parts(fs)) == Part(fs[0]) + ("|" + Join(Parts(fs[1..])))
  {
    PartsAre(fs);
    PartsAre(fs[1..]);
    assert Parts(fs)[1..] == Parts(fs[1..]);
  }

  lemma {:induction false} Regroup(k: string, v: string, tail: string)
    ensures "|" + ((k + "=" + v) + tail) == Marker(k) + (v + tail)
  {
  }

  lemma {:induction false} JoinSame(fs: seq<Field>, gs: seq<Field>)
    requires fs != [] && gs != []
    ensures Join(Parts(fs)) == Join(Parts(gs)) <==> Chain(fs) == Chain(gs)
  {
    JoinIsChain(fs);
    JoinIsChain(gs);
    var a, b := Join(Parts(fs)), Join(Parts(gs));
    assert ("|" + a)[1..] == a && ("|" + b)[1..] == b;
  }

  /** A marker holds one bar, its first character. */
  lemma {:induction false} OneBar(k: string, i: nat)
    requires Free(k, '|') && i < |Marker(k)|
    ensures Marker(k)[i] == '|' <==> i == 0
  {
    var m := Marker(k);
    if 0 < i <= |k| {
      assert m[i] == k[i - 1];
    }
  }

  /** A marker that begins in a value ends in it. */
  lemma {:induction false} MarkerStays(v: string, tail: string, k: string, i: nat)
    requires Free(k, '|') && OccursAt(v + tail, Marker(k), i) && i < |v|
    requires tail == "" || tail[0] == '|'
    ensures OccursAt(v, Marker(k), i)
  {
    var s, m := v + tail, Marker(k);
    if i + |m| > |v| {
      OneBar(k, |v| - i);
      assert false;
    }
    assert s[i..i + |m|] == v[i..i + |m|];
  }

  lemma {:induction false} ChainStarts(fs: seq<Field>)
    ensures Chain(fs) == "" <==> fs == []
    ensures fs != [] ==> Chain(fs)[0] == '|' && OccursAt(Chain(fs), Marker(fs[0].key), 0)
  {
  }

  lemma {:induction false} ShiftOccurs(v: string, tail: string, m: string, i: nat)
    requires OccursAt(tail, m, i)
    ensures OccursAt(v + tail, m, |v| + i)
  {
    assert (v + tail)[|v| + i..|v| + i + |m|] == tail[i..i + |m|];
  }

  /** The value before the next field ends no later than in any other reading of the same
      text whose value is free of that field's marker. */
  lemma {:induction false} NotShorter(v: string, fs: seq<Field>, w: string, gs: seq<Field>)
    requires v + Chain(fs) == w + Chain(gs) && CleanKeys(fs)
    requires fs != [] ==> !Holds(w, Marker(fs[0].key))
    ensures |v| >= |w|
  {
    ChainStarts(fs);
    ChainStarts(gs);
    if |v| < |w| {
      assert fs != [] by {
        assert |v + Chain(fs)| == |w + Chain(gs)|;
      }
      ShiftOccurs(v, Chain(fs), Marker(fs[0].key), 0);
      MarkerStays(w, Chain(gs), fs[0].key, |v|);
      assert false;
    }
  }

  /** No value of fs holds the marker of a key of gs. */
  ghost predicate ClearOf(fs: seq<Field>, gs: seq<Field>) {
    forall f, g :: f in fs && g in gs ==> !Holds(f.value, Marker(g.key))
  }

  lemma {:induction false} SameLengthSplit(v: string, x: string, w: string, y: string)
    requires v + x == w + y && |v| == |w|
    ensures v == w && x == y
  {
    assert (v + x)[..|v|] == v && (w + y)[..|w|] == w;
    assert (v + x)[|v|..] == x && (w + y)[|w|..] == y;
  }

  lemma {:induction false} KeysSplit(k: string, x: string, l: string, y: string)
    requires Free(k, '=') && Free(l, '=') && Marker(k) + x == Marker(l) + y
    ensures k == l && x == y
  {
    var s, t := k + "=" + x, l + "=" + y;
    assert Marker(k) + x == "|" + s && Marker(l) + y == "|" + t;
    assert ("|" + s)[1..] == s && ("|" + t)[1..] == t;
    SplitOnce(k, x, l, y, '=');
  }

  /** Fields free of each other's markers are read back one way only. */
  lemma {:induction false} ChainUnique(fs: seq<Field>, gs: seq<Field>)
    requires CleanKeys(fs) && CleanKeys(gs) && ClearOf(fs, gs) && ClearOf(gs, fs) && Chain(fs) == Chain(gs)
    ensures fs == gs
  {
    ChainStarts(fs);
    ChainStarts(gs);
    if fs != [] {
      var f, g, F, G := fs[0], gs[0], fs[1..], gs[1..];
      KeysSplit(f.key, f.value + Chain(F), g.key, g.value + Chain(G));
      NotShorter(f.value, F, g.value, G);
      NotShorter(g.value, G, f.value, F);
      SameLengthSplit(f.value, Chain(F), g.value, Chain(G));
      ChainUnique(F, G);
      assert fs == [f] + F && gs == [g] + G;
    }
  }

  lemma {:induction false} SortClear(fs: seq<Field>, gs: seq<Field>)
    requires CleanKeys(fs) && ClearOf(fs, gs)
    ensures CleanKeys(Sort(fs)) && ClearOf(Sort(fs), Sort(gs)) && (Sort(fs) == [] <==> fs == [])
  {
    forall f ensures f in Sort(fs) <==> f in fs {
      SortHas(fs, f);
    }
    forall g ensures g in Sort(gs) <==> g in gs {
      SortHas(gs, g);
    }
    var ss := Sort(fs);
    forall i | 0 <= i < |ss| ensures Free(ss[i].key, '=') && Free(ss[i].key, '|') {
      assert ss[i] in fs;
    }
    if fs != [] {
      assert fs[0] in ss;
    }
  }

  /** Two snapshots are equal exactly when the fields are the same ones, in whatever order
      they were listed, if no value of either holds a marker of the other. Bars that do not
      start a marker do no harm. */
  lemma {:induction false} SnapshotExact(fs: seq<Field>, gs: seq<Field>)
    requires fs != [] && gs != [] && DistinctKeys(fs) && DistinctKeys(gs)
    requires CleanKeys(fs) && CleanKeys(gs) && ClearOf(fs, gs) && ClearOf(gs, fs)
    ensures Snapshot(fs) == Snapshot(gs) <==> SameFields(fs, gs)
  {
    SortSame(fs, gs);
    SortClear(fs, gs);
    SortClear(gs, fs);
    JoinSame(Sort(fs), Sort(gs));
    if Snapshot(fs) == Snapshot(gs) {
      ChainUnique(Sort(fs), Sort(gs));
    }
  }

  // ----- when a config shares its snapshot with another

  lemma {:induction false} ChainAppend(fs: seq<Field>, gs: seq<Field>)
    ensures Chain(fs + gs) == Chain(fs) + Chain(gs)
  {
    if fs == [] {
      assert fs + gs == gs;
    } else {
      assert (fs + gs)[1..] == fs[1..] + gs;
      ChainAppend(fs[1..], gs);
    }
  }

  /** Text that holds the next key's marker can be cut there instead: in any config,
      whatever stands before and after. */
  lemma {:induction false} MarkerCollides(pre: seq<Field>, k1: string, x: string, k2: string, y: string, v: string,
                                          post: seq<Field>)
    ensures Join(Parts(pre + [Field(k1, x + Marker(k2) + y), Field(k2, v)] + post))
         == Join(Parts(pre + [Field(k1, x), Field(k2, y + Marker(k2) + v)] + post))
  {
    var m := Marker(k2);
    var a, b := [Field(k1, x + m + y), Field(k2, v)], [Field(k1, x), Field(k2, y + m + v)];
    MiddleCollides(k1, x, k2, y, v);
    ChainAppend(pre, a);
    ChainAppend(pre, b);
    ChainAppend(pre + a, post);
    ChainAppend(pre + b, post);
    JoinSame(pre + a + post, pre + b + post);
  }

  lemma {:induction false} MiddleCollides(k1: string, x: string, k2: string, y: string, v: string)
    ensures var m := Marker(k2);
            Chain([Field(k1, x + m + y), Field(k2, v)]) == Chain([Field(k1, x), Field(k2, y + m + v)])
  {
    var m := Marker(k2);
    ChainTwo(Field(k1, x + m + y), Field(k2, v));
    ChainTwo(Field(k1, x), Field(k2, y + m + v));
    assert (x + m + y) + (m + v) == x + (m + (y + m + v));
  }

  lemma {:induction false} ChainTwo(f: Field, g: Field)
    ensures Chain([f, g]) == Marker(f.key) + (f.value + (Marker(g.key) + g.value))
  {
    assert [f, g][1..] == [g] && [g][1..] == [];
    assert Chain([g]) == Marker(g.key) + (g.value + "");
    assert g.value + "" == g.value;
  }

  predicate SameKeys(fs: seq<Field>, gs: seq<Field>) {
    |fs| == |gs| && forall i :: 0 <= i < |fs| ==> fs[i].key == gs[i].key
  }

  /** Other values under the same keys, and the same joined text. */
  ghost predicate Twin(fs: seq<Field>, gs: seq<Field>) {
    SameKeys(fs, gs) && fs != gs && Join(Parts(fs)) == Join(Parts(gs))
  }

  /** The i-th value holds the next key's marker or, not being the first, its own. */
  ghost predicate AmbiguousAt(fs: seq<Field>, i: nat) {
    && i < |fs|
    && ((i > 0 && Holds(fs[i].value, Marker(fs[i].key)))
        || (i + 1 < |fs| && Holds(fs[i].value, Marker(fs[i + 1].key))))
  }

  ghost predicate Ambiguous(fs: seq<Field>) {
    exists i :: AmbiguousAt(fs, i)
  }

  predicate EndsWith(s: string, m: string) {
    |m| <= |s| && s[|s| - |m|..] == m
  }

  /** A value that ends like z has that ending inside it. */
  lemma {:induction false} EndingHeld(z: string, w: string, m: string)
    requires EndsWith(z, m)
    ensures Holds(z + w, m)
  {
    var i := |z| - |m|;
    assert (z + w)[i..i + |m|] == z[i..];
    assert OccursAt(z + w, m, i);
  }

  lemma {:induction false} AmbiguousTail(fs: seq<Field>)
    requires fs != [] && !Ambiguous(fs)
    ensures !Ambiguous(fs[1..])
    ensures |fs| > 1 ==> !Holds(fs[1].value, Marker(fs[1].key)) && !Holds(fs[0].value, Marker(fs[1].key))
  {
    var rest := fs[1..];
    forall i: nat ensures !AmbiguousAt(rest, i) {
      assert !AmbiguousAt(fs, i + 1);
    }
    assert !AmbiguousAt(fs, 0) && !AmbiguousAt(fs, 1);
  }

  lemma {:induction false} NextUnambiguous(f: Field, fs: seq<Field>)
    requires fs != [] && !Ambiguous([f] + fs) && CleanKeys([f] + fs)
    ensures !Ambiguous(fs) && CleanKeys(fs)
    ensures !Holds(fs[0].value, Marker(fs[0].key)) && !Holds(f.value, Marker(fs[0].key))
  {
    assert ([f] + fs)[1..] == fs;
    AmbiguousTail([f] + fs);
    forall i | 0 <= i < |fs| ensures Free(fs[i].key, '=') && Free(fs[i].key, '|') {
      assert ([f] + fs)[i + 1] == fs[i];
    }
  }

  /** Two readings of one text, the second running z behind the first: when the first is
      not ambiguous they are the same. If the second is behind, it is behind by a stretch
      that ends with the marker of the current key. */
  lemma {:induction false} NoTwin(f: Field, fs: seq<Field>, z: string, w: string, gs: seq<Field>)
    requires !Ambiguous([f] + fs) && CleanKeys([f] + fs) && SameKeys(fs, gs)
    requires (z + w) + Chain(gs) == f.value + Chain(fs)
    requires z != "" ==> EndsWith(z, Marker(f.key)) && !Holds(f.value, Marker(f.key))
    ensures z == "" && w == f.value && fs == gs
    decreases |fs|
  {
    if fs == [] {
      assert (z + w) + "" == z + w && f.value + "" == f.value;
      SameStart(f, z, w);
    } else {
      NextUnambiguous(f, fs);
      NotShorter(z + w, gs, f.value, fs);
      if |z + w| == |f.value| {
        SameLengthSplit(z + w, Chain(gs), f.value, Chain(fs));
        SameStart(f, z, w);
        KeysSplit(gs[0].key, gs[0].value + Chain(gs[1..]), fs[0].key, fs[0].value + Chain(fs[1..]));
        assert fs == [fs[0]] + fs[1..] && gs == [gs[0]] + gs[1..];
        NoTwin(fs[0], fs[1..], "", gs[0].value, gs[1..]);
      } else {
        var later := Behind(f, fs, z + w, gs);
        assert fs == [fs[0]] + fs[1..];
        NoTwin(fs[0], fs[1..], later, gs[0].value, gs[1..]);
        assert false;
      }
    }
  }

  lemma {:induction false} SameStart(f: Field, z: string, w: string)
    requires z + w == f.value
    requires z != "" ==> EndsWith(z, Marker(f.key)) && !Holds(f.value, Marker(f.key))
    ensures z == "" && w == f.value
  {
    if z != "" {
      EndingHeld(z, w, Marker(f.key));
      assert false;
    }
  }

  /** The second reading's next field starts after the first's: by how much, and that the
      stretch ends with the field's marker. */
  lemma {:induction false} Behind(f: Field, fs: seq<Field>, u: string, gs: seq<Field>) returns (z: string)
    requires fs != [] && SameKeys(fs, gs) && CleanKeys(fs)
    requires u + Chain(gs) == f.value + Chain(fs) && |u| > |f.value|
    ensures z != "" && EndsWith(z, Marker(fs[0].key))
    ensures (z + gs[0].value) + Chain(gs[1..]) == fs[0].value + Chain(fs[1..])
  {
    var m, first, second := Marker(fs[0].key), fs[0].value + Chain(fs[1..]), gs[0].value + Chain(gs[1..]);
    assert u + (m + second) == f.value + (m + first);
    Apart(f.value + (m + first), f.value, first, u, second, fs[0].key);
    z := BehindBy(f.value, first, u, second, m);
    assert z + second == (z + gs[0].value) + Chain(gs[1..]);
  }

  lemma {:induction false} BehindBy(v: string, first: string, u: string, second: string, m: string) returns (z: string)
    requires v + (m + first) == u + (m + second) && |v| + |m| <= |u| && m != ""
    ensures z != "" && EndsWith(z, m) && z + second == first
  {
    var s, d := v + (m + first), |u| - |v|;
    assert |first| == |second| + d;
    z := first[..d];
    assert s[|v| + |m|..] == first;
    assert s[|u| + |m|..] == second;
    assert first[d..] == s[|u| + |m|..];
    assert s[|u|..|u| + |m|] == m;
    assert z[d - |m|..] == s[|u|..|u| + |m|];
  }

  /** Two markers do not overlap. */
  lemma {:induction false} Apart(s: string, v: string, first: string, u: string, second: string, k: string)
    requires Free(k, '|') && s == v + (Marker(k) + first) && s == u + (Marker(k) + second) && |v| < |u|
    ensures |v| + |Marker(k)| <= |u|
  {
    var m := Marker(k);
    if |u| < |v| + |m| {
      assert s[|u|] == m[0] && s[|u|] == m[|u| - |v|];
      OneBar(k, |u| - |v|);
      assert false;
    }
  }

  /** A text that holds m, taken apart there. */
  lemma {:induction false} HeldSplit(s: string, m: string) returns (x: string, y: string)
    requires Holds(s, m)
    ensures s == x + m + y
  {
    var i: nat :| OccursAt(s, m, i);
    x, y := s[..i], s[i + |m|..];
  }

  lemma {:induction false} SplitAtPair(fs: seq<Field>, i: nat)
    requires i + 1 < |fs|
    ensures fs == fs[..i] + [fs[i], fs[i + 1]] + fs[i + 2..]
  {
  }

  lemma {:induction false} PairTwin(fs: seq<Field>, i: nat, f: Field, g: Field)
    requires i + 1 < |fs| && f.key == fs[i].key && g.key == fs[i + 1].key && f != fs[i]
    requires Join(Parts(fs)) == Join(Parts(fs[..i] + [f, g] + fs[i + 2..]))
    ensures Twin(fs, fs[..i] + [f, g] + fs[i + 2..])
  {
    var gs := fs[..i] + [f, g] + fs[i + 2..];
    SplitAtPair(fs, i);
    assert gs[i] == f;
    forall j | 0 <= j < |fs| ensures fs[j].key == gs[j].key {
      if j >= i + 2 {
        assert gs[j] == fs[i + 2..][j - (i + 2)];
      }
    }
  }

  lemma {:induction false} NextMarkerTwin(fs: seq<Field>, i: nat) returns (gs: seq<Field>)
    requires i + 1 < |fs| && Holds(fs[i].value, Marker(fs[i + 1].key))
    ensures Twin(fs, gs)
  {
    var m, v := Marker(fs[i + 1].key), fs[i + 1].value;
    var x, y := HeldSplit(fs[i].value, m);
    var f, g := Field(fs[i].key, x), Field(fs[i + 1].key, y + m + v);
    SplitAtPair(fs, i);
    MarkerCollides(fs[..i], fs[i].key, x, fs[i + 1].key, y, v, fs[i + 2..]);
    gs := fs[..i] + [f, g] + fs[i + 2..];
    assert |x| < |fs[i].value|;
    PairTwin(fs, i, f, g);
  }

  lemma {:induction false} OwnMarkerTwin(fs: seq<Field>, i: nat) returns (gs: seq<Field>)
    requires i + 1 < |fs| && Holds(fs[i + 1].value, Marker(fs[i + 1].key))
    ensures Twin(fs, gs)
  {
    var m, x := Marker(fs[i + 1].key), fs[i].value;
    var y, v := HeldSplit(fs[i + 1].value, m);
    var f, g := Field(fs[i].key, x + m + y), Field(fs[i + 1].key, v);
    SplitAtPair(fs, i);
    MarkerCollides(fs[..i], fs[i].key, x, fs[i + 1].key, y, v, fs[i + 2..]);
    gs := fs[..i] + [f, g] + fs[i + 2..];
    assert |x + m + y| > |x|;
    PairTwin(fs, i, f, g);
  }

  /** Exactly when a field list shares its text with another under the same keys: some
      value holds the next key's marker or, not being the first, its own. */
  lemma {:induction false} TwinExact(fs: seq<Field>)
    requires fs != [] && CleanKeys(fs)
    ensures (exists gs :: Twin(fs, gs)) <==> Ambiguous(fs)
  {
    if Ambiguous(fs) {
      var i: nat :| AmbiguousAt(fs, i);
      if i + 1 < |fs| && Holds(fs[i].value, Marker(fs[i + 1].key)) {
        var gs := NextMarkerTwin(fs, i);
      } else {
        var gs := OwnMarkerTwin(fs, i - 1);
      }
    } else {
      forall gs ensures !Twin(fs, gs) {
        Unambiguous(fs, gs);
      }
    }
  }

  lemma {:induction false} Unambiguous(fs: seq<Field>, gs: seq<Field>)
    requires fs != [] && CleanKeys(fs) && !Ambiguous(fs)
    ensures !Twin(fs, gs)
  {
    if SameKeys(fs, gs) && Join(Parts(fs)) == Join(Parts(gs)) {
      var f, g, F, G := fs[0], gs[0], fs[1..], gs[1..];
      JoinSame(fs, gs);
      KeysSplit(g.key, g.value + Chain(G), f.key, f.value + Chain(F));
      assert fs == [f] + F && gs == [g] + G && "" + g.value == g.value;
      NoTwin(f, F, "", g.value, G);
    }
  }

  lemma {:induction false} SortOfSorted(fs: seq<Field>)
    requires Sorted(fs) && DistinctKeys(fs)
    ensures Sort(fs) == fs
  {
    SortSorted(fs);
    forall f ensures f in Sort(fs) <==> f in fs {
      SortHas(fs, f);
    }
    SortedUnique(Sort(fs), fs);
  }

  /** Other values under the same keys, and the same snapshot. */
  ghost predicate SharesSnapshot(fs: seq<Field>, gs: seq<Field>) {
    SameKeys(fs, gs) && fs != gs && Snapshot(fs) == Snapshot(gs)
  }

  /** For every config, listed in key order as its snapshot is: another one under the same
      keys has the same snapshot exactly when it is ambiguous. */
  lemma {:induction false} SnapshotShared(fs: seq<Field>)
    requires fs != [] && DistinctKeys(fs) && Sorted(fs) && CleanKeys(fs)
    ensures (exists gs :: SharesSnapshot(fs, gs)) <==> Ambiguous(fs)
  {
    TwinExact(fs);
    SortOfSorted(fs);
    forall gs ensures SharesSnapshot(fs, gs) <==> Twin(fs, gs) {
      if SameKeys(fs, gs) {
        SortOfSorted(gs);
      }
    }
    if Ambiguous(fs) {
      var gs :| Twin(fs, gs);
      assert SharesSnapshot(fs, gs);
    }
  }

  // ----- maps

  /** es enumerates m, in whatever order the map has. */
  ghost predicate Lists(es: seq<Field>, m: map<string, string>) {
    && DistinctKeys(es)
    && (forall f :: f in es <==> f.key in m && m[f.key] == f.value)
  }

  /** A map is rendered from its entries in key order: the order it was iterated in does
      not show. */
  lemma {:induction false} MapOrder(es: seq<Field>, fs: seq<Field>, m: map<string, string>)
    requires Lists(es, m) && Lists(fs, m)
    ensures Sort(es) == Sort(fs)
  {
    SortSame(es, fs);
  }

  method SortedMap(json: seq<Field> -> string, m: map<string, string>) returns (s: string)
    ensures forall es :: Lists(es, m) ==> s == json(Sort(es))
    ensures exists es :: Lists(es, m)
  {
    var es: seq<Field> := [];
    var left := m.Keys;
    while left != {}
      invariant left <= m.Keys && DistinctKeys(es)
      invariant forall f :: f in es <==> f.key in m && f.key !in left && m[f.key] == f.value
      decreases left
    {
      var k :| k in left;
      assert forall i :: 0 <= i < |es| ==> es[i] in es;
      es := es + [Field(k, m[k])];
      left := left - {k};
    }
    assert Lists(es, m);
    s := json(Sort(es));
    forall fs | Lists(fs, m) ensures s == json(Sort(fs)) {
      MapOrder(es, fs, m);
    }
  }

  // ----- configs

  /** A config field: rendered as it is, or as a hash so that no secret shows. */
  datatype Setting = Open(key: string, text: string) | Secret(key: string, text: string)

  function Rendered(hash: string -> string, s: Setting): Field {
    Field(s.key, if s.Open? then s.text else if s.text == "" then "" else hash(s.text))
  }

  function RenderedAll(hash: string -> string, ss: seq<Setting>): (fs: seq<Field>)
    ensures |fs| == |ss|
    ensures forall i :: 0 <= i < |ss| ==> fs[i] == Rendered(hash, ss[i])
  {
    seq(|ss|, i requires 0 <= i < |ss| => Rendered(hash, ss[i]))
  }

  method ConfigSnapshot(hash: string -> string, settings: seq<Setting>) returns (s: string)
    ensures s == Snapshot(RenderedAll(hash, settings))
  {
    var fields: seq<Field> := [];
    for i := 0 to |settings|
      invariant |fields| == i
      invariant forall k :: 0 <= k < i ==> fields[k] == Rendered(hash, settings[k])
    {
      fields := fields + [Rendered(hash, settings[i])];
    }
    assert fields == RenderedAll(hash, settings);
    fields := Sort(fields);
    var parts: seq<string> := [];
    PartsAre(fields);
    for i := 0 to |fields|
      invariant parts == Parts(fields)[..i]
    {
      parts := parts + [Part(fields[i])];
    }
    assert parts == Parts(fields);
    s := Join(parts);
  }

  /** The hash tells any two non-empty secrets apart and looks like none. */
  ghost predicate GoodHash(hash: string -> string) {
    && (forall x, y :: x != "" && y != "" && hash(x) == hash(y) ==> x == y)
    && (forall x :: x != "" ==> hash(x) != "")
  }

  ghost predicate SameSettings(ss: seq<Setting>, tt: seq<Setting>) {
    forall s :: s in ss <==> s in tt
  }

  /** Whether a field is secret depends on its key alone. */
  ghost predicate KindsAgree(ss: seq<Setting>, tt: seq<Setting>) {
    forall s, t :: s in ss && t in tt && s.key == t.key ==> s.Open? == t.Open?
  }

  lemma {:induction false} RenderedIn(hash: string -> string, ss: seq<Setting>, tt: seq<Setting>, s: Setting)
    requires GoodHash(hash) && KindsAgree(ss, tt) && s in ss
    requires SameFields(RenderedAll(hash, ss), RenderedAll(hash, tt))
    ensures s in tt
  {
    var f := Rendered(hash, s);
    var i :| 0 <= i < |ss| && ss[i] == s;
    assert RenderedAll(hash, ss)[i] == f;
    assert f in RenderedAll(hash, tt);
    var j :| 0 <= j < |tt| && RenderedAll(hash, tt)[j] == f;
    assert tt[j] in tt && tt[j].key == s.key;
    assert tt[j].text == s.text;
  }

  /** A reload sees a change of a config exactly when some setting changed, if no rendered
      value of either holds a marker of the other. */
  lemma {:induction false} ChangeDetected(hash: string -> string, ss: seq<Setting>, tt: seq<Setting>)
    requires GoodHash(hash) && KindsAgree(ss, tt) && ss != [] && tt != []
    requires var fs, gs := RenderedAll(hash, ss), RenderedAll(hash, tt);
             && DistinctKeys(fs) && DistinctKeys(gs) && CleanKeys(fs) && CleanKeys(gs)
             && ClearOf(fs, gs) && ClearOf(gs, fs)
    ensures Snapshot(RenderedAll(hash, ss)) != Snapshot(RenderedAll(hash, tt)) <==> !SameSettings(ss, tt)
  {
    var fs, gs := RenderedAll(hash, ss), RenderedAll(hash, tt);
    SnapshotExact(fs, gs);
    if SameFields(fs, gs) {
      forall s ensures s in ss <==> s in tt {
        if s in ss {
          RenderedIn(hash, ss, tt, s);
        }
        if s in tt {
          RenderedIn(hash, tt, ss, s);
        }
      }
    }
    if SameSettings(ss, tt) {
      SettingsGiveFields(hash, ss, tt);
    }
  }

  /** The two differ at most in a secret, and there the hash does not tell. */
  predicate SameShown(hash: string -> string, s: Setting, t: Setting) {
    s == t || (s.Secret? && t.Secret? && s.key == t.key && s.text != "" && t.text != "" && hash(s.text) == hash(t.text))
  }

  /** Nothing of a secret shows but its hash: two configs that differ in secrets of the same
      hash have one snapshot. */
  lemma {:induction false} SecretsHidden(hash: string -> string, ss: seq<Setting>, tt: seq<Setting>)
    requires |ss| == |tt| && forall i :: 0 <= i < |ss| ==> SameShown(hash, ss[i], tt[i])
    ensures Snapshot(RenderedAll(hash, ss)) == Snapshot(RenderedAll(hash, tt))
  {
    assert RenderedAll(hash, ss) == RenderedAll(hash, tt);
  }

  lemma {:induction false} ChainHolds(fs: seq<Field>, f: Field)
    requires f in fs
    ensures Holds(Chain(fs), Marker(f.key) + f.value)
  {
    var first, rest := Marker(fs[0].key) + fs[0].value, Chain(fs[1..]);
    assert Chain(fs) == first + rest;
    if f == fs[0] {
      assert (first + rest)[0..|first|] == first;
      assert OccursAt(first + rest, first, 0);
    } else {
      ChainHolds(fs[1..], f);
      var i: nat :| OccursAt(rest, Marker(f.key) + f.value, i);
      ShiftOccurs(first, rest, Marker(f.key) + f.value, i);
    }
  }

  /** Every setting is in the snapshot under its key: as it is, or as its hash if it is a
      secret; an empty secret stays empty. */
  lemma {:induction false} SettingsShow(hash: string -> string, ss: seq<Setting>, i: nat)
    requires i < |ss|
    ensures var text := ss[i].text;
            var shown := if ss[i].Secret? && text != "" then hash(text) else text;
            Holds("|" + Snapshot(RenderedAll(hash, ss)), "|" + ss[i].key + "=" + shown)
  {
    var fs, f := RenderedAll(hash, ss), Rendered(hash, ss[i]);
    assert fs[i] == f;
    SortHas(fs, f);
    JoinIsChain(Sort(fs));
    ChainHolds(Sort(fs), f);
  }

  lemma {:induction false} SettingsGiveFields(hash: string -> string, ss: seq<Setting>, tt: seq<Setting>)
    requires SameSettings(ss, tt)
    ensures SameFields(RenderedAll(hash, ss), RenderedAll(hash, tt))
  {
    forall f ensures f in RenderedAll(hash, ss) <==> f in RenderedAll(hash, tt) {
      if f in RenderedAll(hash, ss) {
        FieldCarries(hash, ss, tt, f);
      }
      if f in RenderedAll(hash, tt) {
        FieldCarries(hash, tt, ss, f);
      }
    }
  }

  lemma {:induction false} FieldCarries(hash: string -> string, ss: seq<Setting>, tt: seq<Setting>, f: Field)
    requires SameSettings(ss, tt) && f in RenderedAll(hash, ss)
    ensures f in RenderedAll(hash, tt)
  {
    var i :| 0 <= i < |ss| && RenderedAll(hash, ss)[i] == f;
    assert ss[i] in tt;
    var j :| 0 <= j < |tt| && tt[j] == ss[i];
    assert RenderedAll(hash, tt)[j] == f;
  }
}
