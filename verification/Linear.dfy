/** Iterating an additive map. Nothing here knows what the words or the addition are. */
module Linear {

  /** n steps of f. */
  function Iter<W>(f: W -> W, c: W, n: nat): W {
    if n == 0 then c else f(Iter(f, c, n - 1))
  }

  ghost predicate AddsAt<W>(f: W -> W, plus: (W, W) -> W, x: W, y: W) {
    f(plus(x, y)) == plus(f(x), f(y))
  }

  ghost predicate Additive<W(!new)>(f: W -> W, plus: (W, W) -> W) {
    forall x, y :: AddsAt(f, plus, x, y)
  }

  ghost predicate DistinctAt<W>(f: W -> W, x: W, y: W) {
    f(x) == f(y) ==> x == y
  }

  ghost predicate Injective<W(!new)>(f: W -> W) {
    forall x, y :: DistinctAt(f, x, y)
  }

  lemma {:induction false} IterAdditive<W(!new)>(f: W -> W, plus: (W, W) -> W, x: W, y: W, n: nat)
    requires Additive(f, plus)
    ensures Iter(f, plus(x, y), n) == plus(Iter(f, x, n), Iter(f, y, n))
  {
    if n > 0 {
      IterAdditive(f, plus, x, y, n - 1);
      assert AddsAt(f, plus, Iter(f, x, n - 1), Iter(f, y, n - 1));
    }
  }

  lemma {:induction false} IterInjective<W(!new)>(f: W -> W, x: W, y: W, n: nat)
    requires Injective(f) && Iter(f, x, n) == Iter(f, y, n)
    ensures x == y
  {
    if n > 0 {
      assert DistinctAt(f, Iter(f, x, n - 1), Iter(f, y, n - 1));
      IterInjective(f, x, y, n - 1);
    }
  }

  lemma {:induction false} IterSum<W>(f: W -> W, c: W, m: nat, n: nat)
    ensures Iter(f, Iter(f, c, m), n) == Iter(f, c, m + n)
  {
    if n > 0 {
      IterSum(f, c, m, n - 1);
    }
  }

  // ----- addition

  ghost predicate CommAt<W>(plus: (W, W) -> W, x: W, y: W) {
    plus(x, y) == plus(y, x)
  }

  ghost predicate AssocAt<W>(plus: (W, W) -> W, x: W, y: W, z: W) {
    plus(plus(x, y), z) == plus(x, plus(y, z))
  }

  ghost predicate Abelian<W(!new)>(plus: (W, W) -> W) {
    && (forall x, y :: CommAt(plus, x, y))
    && (forall x, y, z :: AssocAt(plus, x, y, z))
  }

  lemma SwapInner<W(!new)>(plus: (W, W) -> W, a: W, b: W, c: W, d: W)
    requires Abelian(plus)
    ensures plus(plus(a, b), plus(c, d)) == plus(plus(a, c), plus(b, d))
  {
    assert AssocAt(plus, a, b, plus(c, d)) && AssocAt(plus, b, c, d) && CommAt(plus, b, c);
    assert AssocAt(plus, c, b, d) && AssocAt(plus, a, c, plus(b, d));
  }

  lemma SwapLast<W(!new)>(plus: (W, W) -> W, a: W, b: W, c: W)
    requires Abelian(plus)
    ensures plus(plus(a, b), c) == plus(plus(a, c), b)
  {
    assert AssocAt(plus, a, b, c) && CommAt(plus, b, c) && AssocAt(plus, a, c, b);
  }

  lemma SumNested<W(!new)>(plus: (W, W) -> W, a: W, b: W, c: W, d: W, e: W)
    requires Abelian(plus)
    ensures plus(a, plus(plus(plus(b, c), d), e)) == Sum5(plus, a, b, c, d, e)
  {
    assert AssocAt(plus, a, plus(plus(b, c), d), e);
    assert AssocAt(plus, a, plus(b, c), d);
    assert AssocAt(plus, a, b, c);
  }

  lemma Pull<W(!new)>(plus: (W, W) -> W, acc: W, left: W, x: W)
    requires Abelian(plus)
    ensures plus(acc, plus(left, x)) == plus(plus(acc, x), left)
  {
    assert CommAt(plus, left, x) && AssocAt(plus, acc, x, left);
  }

  function Sum8<W>(plus: (W, W) -> W, a: W, b: W, c: W, d: W, e: W, f: W, g: W, h: W): W {
    plus(plus(plus(plus(plus(plus(plus(a, b), c), d), e), f), g), h)
  }

  lemma Reverse8<W(!new)>(plus: (W, W) -> W, a: W, b: W, c: W, d: W, e: W, f: W, g: W, h: W)
    requires Abelian(plus)
    ensures Sum8(plus, a, b, c, d, e, f, g, h) == Sum8(plus, h, g, f, e, d, c, b, a)
  {
    var s2 := plus(a, b);
    var s3 := plus(s2, c);
    var s4 := plus(s3, d);
    var s5 := plus(s4, e);
    var s6 := plus(s5, f);
    var s7 := plus(s6, g);
    assert CommAt(plus, s7, h);
    Pull(plus, h, s6, g);
    var r2 := plus(h, g);
    Pull(plus, r2, s5, f);
    var r3 := plus(r2, f);
    Pull(plus, r3, s4, e);
    var r4 := plus(r3, e);
    Pull(plus, r4, s3, d);
    var r5 := plus(r4, d);
    Pull(plus, r5, s2, c);
    var r6 := plus(r5, c);
    Pull(plus, r6, a, b);
  }

  /** The sum of two additive maps is additive. */
  lemma SumAdds<W(!new)>(f: W -> W, g: W -> W, h: W -> W, plus: (W, W) -> W, x: W, y: W)
    requires Abelian(plus) && AddsAt(g, plus, x, y) && AddsAt(h, plus, x, y)
    requires f(x) == plus(g(x), h(x)) && f(y) == plus(g(y), h(y))
    requires f(plus(x, y)) == plus(g(plus(x, y)), h(plus(x, y)))
    ensures AddsAt(f, plus, x, y)
  {
    SwapInner(plus, g(x), g(y), h(x), h(y));
  }

  /** Four rounds of "add, then step", with the steps pulled out. */
  function Rounds<W>(f: W -> W, plus: (W, W) -> W, c: W, b0: W, b1: W, b2: W, b3: W): W {
    f(plus(f(plus(f(plus(f(plus(c, b0)), b1)), b2)), b3))
  }

  function Sum5<W>(plus: (W, W) -> W, a: W, b: W, c: W, d: W, e: W): W {
    plus(plus(plus(plus(a, b), c), d), e)
  }

  lemma RoundsExpand<W(!new)>(f: W -> W, plus: (W, W) -> W, c: W, b0: W, b1: W, b2: W, b3: W)
    requires Additive(f, plus)
    ensures Rounds(f, plus, c, b0, b1, b2, b3)
         == Sum5(plus, Iter(f, c, 4), Iter(f, b0, 4), Iter(f, b1, 3), Iter(f, b2, 2), Iter(f, b3, 1))
  {
    assert AddsAt(f, plus, c, b0);
    var s1 := plus(f(c), f(b0));
    assert AddsAt(f, plus, s1, b1) && AddsAt(f, plus, f(c), f(b0));
    var s2 := plus(plus(f(f(c)), f(f(b0))), f(b1));
    assert f(plus(f(plus(c, b0)), b1)) == s2;
    assert AddsAt(f, plus, s2, b2) && AddsAt(f, plus, plus(f(f(c)), f(f(b0))), f(b1))
        && AddsAt(f, plus, f(f(c)), f(f(b0)));
    var s3 := plus(plus(plus(f(f(f(c))), f(f(f(b0)))), f(f(b1))), f(b2));
    assert f(plus(s2, b2)) == s3;
    assert AddsAt(f, plus, s3, b3)
        && AddsAt(f, plus, plus(plus(f(f(f(c))), f(f(f(b0)))), f(f(b1))), f(b2))
        && AddsAt(f, plus, plus(f(f(f(c))), f(f(f(b0)))), f(f(b1)))
        && AddsAt(f, plus, f(f(f(c))), f(f(f(b0))));
    FourIters(f, c, b0, b1, b2, b3);
  }

  lemma FourIters<W>(f: W -> W, c: W, b0: W, b1: W, b2: W, b3: W)
    ensures Iter(f, c, 4) == f(f(f(f(c)))) && Iter(f, b0, 4) == f(f(f(f(b0))))
    ensures Iter(f, b1, 3) == f(f(f(b1))) && Iter(f, b2, 2) == f(f(b2)) && Iter(f, b3, 1) == f(b3)
  {}

  lemma Sum5Iter<W(!new)>(f: W -> W, plus: (W, W) -> W, a: W, b: W, c: W, d: W, e: W, n: nat)
    requires Additive(f, plus)
    ensures Iter(f, Sum5(plus, a, b, c, d, e), n)
         == Sum5(plus, Iter(f, a, n), Iter(f, b, n), Iter(f, c, n), Iter(f, d, n), Iter(f, e, n))
  {
    IterAdditive(f, plus, plus(plus(plus(a, b), c), d), e, n);
    IterAdditive(f, plus, plus(plus(a, b), c), d, n);
    IterAdditive(f, plus, plus(a, b), c, n);
    IterAdditive(f, plus, a, b, n);
  }

  /** Four rounds are four steps of one sum, when each later addend has an ancestor
      that the steps before its round bring down to it. */
  lemma RoundsPacked<W(!new)>(f: W -> W, plus: (W, W) -> W, c: W, b0: W, b1: W, b2: W, b3: W, u1: W, u2: W, u3: W)
    requires Additive(f, plus)
    requires Iter(f, u1, 1) == b1 && Iter(f, u2, 2) == b2 && Iter(f, u3, 3) == b3
    ensures Rounds(f, plus, c, b0, b1, b2, b3) == Iter(f, Sum5(plus, c, b0, u1, u2, u3), 4)
  {
    RoundsExpand(f, plus, c, b0, b1, b2, b3);
    Sum5Iter(f, plus, c, b0, u1, u2, u3, 4);
    IterSum(f, u1, 1, 3);
    IterSum(f, u2, 2, 2);
    IterSum(f, u3, 3, 1);
  }

  /** n or more steps of a sum of four addends, three of which have come down. */
  lemma WordSplit<W(!new)>(f: W -> W, plus: (W, W) -> W, x0: W, v1: W, v2: W, v3: W, x1: W, x2: W, x3: W)
    requires Additive(f, plus)
    requires Iter(f, v1, 1) == x1 && Iter(f, v2, 2) == x2 && Iter(f, v3, 3) == x3
    ensures Iter(f, plus(plus(plus(x0, v1), v2), v3), 8)
         == plus(plus(plus(Iter(f, x0, 8), Iter(f, x1, 7)), Iter(f, x2, 6)), Iter(f, x3, 5))
  {
    IterAdditive(f, plus, plus(plus(x0, v1), v2), v3, 8);
    IterAdditive(f, plus, plus(x0, v1), v2, 8);
    IterAdditive(f, plus, x0, v1, 8);
    IterSum(f, v1, 1, 7);
    IterSum(f, v2, 2, 6);
    IterSum(f, v3, 3, 5);
  }

  /** Eight rounds as one sum of eight values, each a number of steps of one symbol. */
  lemma EightRounds<W(!new)>(f: W -> W, plus: (W, W) -> W, c: W,
                             b0: W, b1: W, b2: W, b3: W, b4: W, b5: W, b6: W, b7: W,
                             u1: W, u2: W, u3: W, x0: W, v1: W, v2: W, v3: W, x1: W, x2: W, x3: W)
    requires Additive(f, plus) && Abelian(plus)
    requires Iter(f, u1, 1) == b1 && Iter(f, u2, 2) == b2 && Iter(f, u3, 3) == b3
    requires Iter(f, v1, 1) == x1 && Iter(f, v2, 2) == x2 && Iter(f, v3, 3) == x3
    requires Sum5(plus, c, b0, u1, u2, u3) == plus(plus(plus(x0, v1), v2), v3)
    ensures Rounds(f, plus, Rounds(f, plus, c, b0, b1, b2, b3), b4, b5, b6, b7)
         == Sum8(plus, Iter(f, b7, 1), Iter(f, b6, 2), Iter(f, b5, 3), Iter(f, b4, 4),
                 Iter(f, x3, 5), Iter(f, x2, 6), Iter(f, x1, 7), Iter(f, x0, 8))
  {
    var x := Sum5(plus, c, b0, u1, u2, u3);
    RoundsPacked(f, plus, c, b0, b1, b2, b3, u1, u2, u3);
    RoundsExpand(f, plus, Iter(f, x, 4), b4, b5, b6, b7);
    IterSum(f, x, 4, 4);
    WordSplit(f, plus, x0, v1, v2, v3, x1, x2, x3);
    Reverse8(plus, Iter(f, b7, 1), Iter(f, b6, 2), Iter(f, b5, 3), Iter(f, b4, 4),
             Iter(f, x3, 5), Iter(f, x2, 6), Iter(f, x1, 7), Iter(f, x0, 8));
  }

  // ----- messages

  function Fold<W, B>(step: (W, B) -> W, c: W, data: seq<B>): W {
    if data == [] then c else step(Fold(step, c, data[..|data| - 1]), data[|data| - 1])
  }

  lemma {:induction false} FoldConcat<W, B>(step: (W, B) -> W, c: W, a: seq<B>, b: seq<B>)
    ensures Fold(step, c, a + b) == Fold(step, Fold(step, c, a), b)
  {
    if b == [] {
      assert a + b == a;
    } else {
      FoldConcat(step, c, a, b[..|b| - 1]);
      assert (a + b)[..|a + b| - 1] == a + b[..|b| - 1];
    }
  }

  ghost predicate SameAt<W, B>(s: (W, B) -> W, t: (W, B) -> W, c: W, x: B) {
    s(c, x) == t(c, x)
  }

  lemma {:induction false} FoldSame<W(!new), B(!new)>(s: (W, B) -> W, t: (W, B) -> W, c: W, data: seq<B>)
    requires forall w, x :: SameAt(s, t, w, x)
    ensures Fold(s, c, data) == Fold(t, c, data)
  {
    if data != [] {
      var front, x := data[..|data| - 1], data[|data| - 1];
      FoldSame(s, t, c, front);
      assert SameAt(s, t, Fold(s, c, front), x);
    }
  }

  ghost predicate StepDistinctAt<W, B>(step: (W, B) -> W, c: W, d: W, x: B) {
    step(c, x) == step(d, x) ==> c == d
  }

  /** The same message from two registers never brings them together. */
  lemma {:induction false} FoldDistinct<W(!new), B(!new)>(step: (W, B) -> W, c: W, d: W, data: seq<B>)
    requires forall u, v, x :: StepDistinctAt(step, u, v, x)
    requires Fold(step, c, data) == Fold(step, d, data)
    ensures c == d
  {
    if data != [] {
      var front, x := data[..|data| - 1], data[|data| - 1];
      assert StepDistinctAt(step, Fold(step, c, front), Fold(step, d, front), x);
      FoldDistinct(step, c, d, front);
    }
  }

  lemma FoldFour<W, B>(step: (W, B) -> W, c: W, d: seq<B>)
    requires |d| == 4
    ensures Fold(step, c, d) == step(step(step(step(c, d[0]), d[1]), d[2]), d[3])
  {
    assert d[..3][..2] == d[..2] && d[..2][..1] == d[..1] && d[..1][..0] == [];
    assert Fold(step, c, d[..1]) == step(c, d[0]);
    assert Fold(step, c, d[..2]) == step(Fold(step, c, d[..1]), d[1]);
    assert Fold(step, c, d[..3]) == step(Fold(step, c, d[..2]), d[2]);
  }

  /** A step that adds an embedded symbol and then applies f. */
  ghost predicate StepsAt<W, B>(step: (W, B) -> W, f: W -> W, plus: (W, W) -> W, embed: B -> W, c: W, x: B) {
    step(c, x) == f(plus(c, embed(x)))
  }

  lemma FoldRounds<W(!new), B(!new)>(step: (W, B) -> W, f: W -> W, plus: (W, W) -> W, embed: B -> W, c: W, d: seq<B>)
    requires forall w, x :: StepsAt(step, f, plus, embed, w, x)
    requires |d| == 4
    ensures Fold(step, c, d) == Rounds(f, plus, c, embed(d[0]), embed(d[1]), embed(d[2]), embed(d[3]))
  {
    FoldFour(step, c, d);
    var r0 := step(c, d[0]);
    var r1 := step(r0, d[1]);
    var r2 := step(r1, d[2]);
    assert StepsAt(step, f, plus, embed, c, d[0]) && StepsAt(step, f, plus, embed, r0, d[1]);
    assert StepsAt(step, f, plus, embed, r1, d[2]) && StepsAt(step, f, plus, embed, r2, d[3]);
  }

  lemma FoldEight<W(!new), B(!new)>(step: (W, B) -> W, f: W -> W, plus: (W, W) -> W, embed: B -> W, c: W, d: seq<B>)
    requires forall w, x :: StepsAt(step, f, plus, embed, w, x)
    requires |d| == 8
    ensures Fold(step, c, d)
         == Rounds(f, plus, Rounds(f, plus, c, embed(d[0]), embed(d[1]), embed(d[2]), embed(d[3])),
                   embed(d[4]), embed(d[5]), embed(d[6]), embed(d[7]))
  {
    FoldConcat(step, c, d[..4], d[4..]);
    assert d[..4] + d[4..] == d;
    FoldRounds(step, f, plus, embed, c, d[..4]);
    FoldRounds(step, f, plus, embed, Fold(step, c, d[..4]), d[4..]);
  }

  // ----- shifting a message in, symbol by symbol

  /** A step on top of a message is a step fed its lowest symbol, on top of the rest. */
  ghost predicate FeedsAt<W>(f: W -> W, plus: (W, W) -> W, g: (W, bool) -> W, low: W -> bool, rest: W -> W,
                             c: W, m: W)
  {
    f(plus(c, m)) == plus(g(c, low(m)), rest(m))
  }

  /** Feed the n lowest symbols of m. */
  function Feed<W>(g: (W, bool) -> W, low: W -> bool, rest: W -> W, c: W, m: W, n: nat): W {
    if n == 0 then c else g(Feed(g, low, rest, c, m, n - 1), low(Iter(rest, m, n - 1)))
  }

  lemma {:induction false} FeedIter<W(!new)>(f: W -> W, plus: (W, W) -> W, g: (W, bool) -> W, low: W -> bool,
                                           rest: W -> W, c: W, m: W, n: nat)
    requires forall x, y :: FeedsAt(f, plus, g, low, rest, x, y)
    ensures Iter(f, plus(c, m), n) == plus(Feed(g, low, rest, c, m, n), Iter(rest, m, n))
  {
    if n > 0 {
      FeedIter(f, plus, g, low, rest, c, m, n - 1);
      assert FeedsAt(f, plus, g, low, rest, Feed(g, low, rest, c, m, n - 1), Iter(rest, m, n - 1));
    }
  }

  lemma Feed4<W>(g: (W, bool) -> W, low: W -> bool, rest: W -> W, c: W, m: W)
    ensures Feed(g, low, rest, c, m, 4)
         == g(g(g(g(c, low(m)), low(rest(m))), low(rest(rest(m)))), low(rest(rest(rest(m)))))
  {
    assert Iter(rest, m, 1) == rest(m) && Iter(rest, m, 2) == rest(rest(m));
    assert Iter(rest, m, 3) == rest(rest(rest(m)));
  }

  lemma {:induction false} FeedSum<W>(g: (W, bool) -> W, low: W -> bool, rest: W -> W, c: W, m: W, j: nat, n: nat)
    ensures Feed(g, low, rest, Feed(g, low, rest, c, m, j), Iter(rest, m, j), n) == Feed(g, low, rest, c, m, j + n)
  {
    if n > 0 {
      FeedSum(g, low, rest, c, m, j, n - 1);
      IterSum(rest, m, j, n - 1);
    }
  }

  function Nest8<W>(g: (W, bool) -> W, c: W, s0: bool, s1: bool, s2: bool, s3: bool,
                    s4: bool, s5: bool, s6: bool, s7: bool): W {
    g(g(g(g(g(g(g(g(c, s0), s1), s2), s3), s4), s5), s6), s7)
  }

  lemma {:induction false} FoldNest8<W>(g: (W, bool) -> W, c: W, s: seq<bool>)
    requires |s| == 8
    ensures Fold(g, c, s) == Nest8(g, c, s[0], s[1], s[2], s[3], s[4], s[5], s[6], s[7])
  {
    FoldConcat(g, c, s[..4], s[4..]);
    assert s == s[..4] + s[4..];
    FoldFour(g, c, s[..4]);
    FoldFour(g, Fold(g, c, s[..4]), s[4..]);
  }

  function Times8<W>(f: W -> W, c: W): W {
    f(f(f(f(f(f(f(f(c))))))))
  }

  lemma Unroll8<W>(f: W -> W, c: W)
    ensures Iter(f, c, 8) == Times8(f, c)
  {
    assert Iter(f, c, 4) == f(f(f(f(c))));
    IterSum(f, c, 4, 4);
  }

  /** Eight steps on top of m are the eight symbols of m fed in turn, on top of what
      is left of m. */
  lemma FeedEight<W(!new)>(f: W -> W, plus: (W, W) -> W, g: (W, bool) -> W, low: W -> bool, rest: W -> W,
                           c: W, m: W, n: W)
    requires forall x, y :: FeedsAt(f, plus, g, low, rest, x, y)
    requires n == rest(rest(rest(rest(m))))
    ensures Times8(f, plus(c, m))
         == plus(Nest8(g, c, low(m), low(rest(m)), low(rest(rest(m))), low(rest(rest(rest(m)))),
                       low(n), low(rest(n)), low(rest(rest(n))), low(rest(rest(rest(n))))),
                 rest(rest(rest(rest(n)))))
  {
    FeedIter(f, plus, g, low, rest, c, m, 8);
    FeedSum(g, low, rest, c, m, 4, 4);
    assert Iter(rest, m, 4) == n;
    Feed4(g, low, rest, c, m);
    Feed4(g, low, rest, Feed(g, low, rest, c, m, 4), n);
    Unroll8(rest, m);
    Unroll8(f, plus(c, m));
  }
}
