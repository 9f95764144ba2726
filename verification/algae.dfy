/** Lindenmayer's algae system: a mature cell `A` stays mature and buds a
    young cell `B`; a young cell matures into `A`.  Seeded with `A`, the
    generation lengths run through the Fibonacci numbers. */
module AlgaeSystem {
  import opened LSystem

  /** The two-letter alphabet (the spelling of the type name follows the
      program's own). */
  datatype AlgeaAlphabet = AlgaeA | AlgaeB

  /** The display text of a symbol. */
  function Show(a: AlgeaAlphabet): (r: string)
    ensures |r| == 1
    ensures r[0] == 'A' <==> a == AlgaeA
    ensures r[0] == 'B' <==> a == AlgaeB
  {
    match a
    case AlgaeA => "A"
    case AlgaeB => "B"
  }

  /** The production rule: every cell yields a mature cell first, and only a
      mature cell buds a young one after it. */
  function AlgaeRule(input: AlgeaAlphabet): (r: seq<AlgeaAlphabet>)
    ensures 1 <= |r| <= 2
    ensures r[0] == AlgaeA
    ensures |r| == 2 <==> input == AlgaeA
    ensures |r| == 2 ==> r[1] == AlgaeB
  {
    match input
    case AlgaeA => [AlgaeA, AlgaeB]
    case AlgaeB => [AlgaeA]
  }

  /** The number of occurrences of `a` in `s`. */
  function Count(s: seq<AlgeaAlphabet>, a: AlgeaAlphabet): nat
  {
    multiset(s)[a]
  }

  /** The Fibonacci numbers, from `Fib(0) == 0` and `Fib(1) == 1`. */
  function Fib(n: nat): nat
  {
    if n < 2 then n else Fib(n - 1) + Fib(n - 2)
  }

  /** A generation never gets shorter than the one before it. */
  lemma {:induction false} AlgaeNeverShrinks(s: seq<AlgeaAlphabet>)
    ensures |s| <= |Rewrite(AlgaeRule, s)|
  {
    NonErasingNeverShrinks(AlgaeRule, s);
  }

  /** Every symbol is an `A` or a `B`. */
  lemma {:induction false} CountsAddUp(s: seq<AlgeaAlphabet>)
    ensures Count(s, AlgaeA) + Count(s, AlgaeB) == |s|
    decreases |s|
  {
    if s != [] {
      assert s == [s[0]] + s[1..];
      CountsAddUp(s[1..]);
      assert multiset(s) == multiset{s[0]} + multiset(s[1..]);
      match s[0]
      case AlgaeA =>
      case AlgaeB =>
    }
  }

  /** After one pass there is one `A` per old cell and one `B` per old `A`. */
  lemma {:induction false} RewriteCounts(s: seq<AlgeaAlphabet>)
    ensures Count(Rewrite(AlgaeRule, s), AlgaeA) == |s|
    ensures Count(Rewrite(AlgaeRule, s), AlgaeB) == Count(s, AlgaeA)
    decreases |s|
  {
    if s != [] {
      assert s == [s[0]] + s[1..];
      RewriteCounts(s[1..]);
    }
  }

  /** Seeded with `A`, generation `k` has `Fib(k + 2)` cells, `Fib(k + 1)` of
      them mature. */
  lemma {:induction false} AlgaeFibonacci(k: nat)
    ensures |Iterate(AlgaeRule, [AlgaeA], k)| == Fib(k + 2)
    ensures Count(Iterate(AlgaeRule, [AlgaeA], k), AlgaeA) == Fib(k + 1)
    decreases k
  {
    if k > 0 {
      var prev := Iterate(AlgaeRule, [AlgaeA], k - 1);
      AlgaeFibonacci(k - 1);
      RewriteCounts(prev);
      CountsAddUp(prev);
      CountsAddUp(Rewrite(AlgaeRule, prev));
    }
  }

  /** The first five generations after the axiom `A`. */
  lemma AlgaeFirstGenerations()
    ensures Iterate(AlgaeRule, [AlgaeA], 1) == [AlgaeA, AlgaeB]
    ensures Iterate(AlgaeRule, [AlgaeA], 2) == [AlgaeA, AlgaeB, AlgaeA]
    ensures Iterate(AlgaeRule, [AlgaeA], 3) == [AlgaeA, AlgaeB, AlgaeA, AlgaeA, AlgaeB]
    ensures Iterate(AlgaeRule, [AlgaeA], 4)
         == [AlgaeA, AlgaeB, AlgaeA, AlgaeA, AlgaeB, AlgaeA, AlgaeB, AlgaeA]
    ensures Iterate(AlgaeRule, [AlgaeA], 5)
         == [AlgaeA, AlgaeB, AlgaeA, AlgaeA, AlgaeB, AlgaeA, AlgaeB, AlgaeA,
             AlgaeA, AlgaeB, AlgaeA, AlgaeA, AlgaeB]
  {
    var g2 := [AlgaeA, AlgaeB, AlgaeA];
    var g3 := g2 + [AlgaeA, AlgaeB];
    var g4 := g3 + g2;
    RewriteSingleton(AlgaeRule, AlgaeA);
    RewriteSnoc(AlgaeRule, [AlgaeA], AlgaeB);
    assert Iterate(AlgaeRule, [AlgaeA], 2) == g2;
    RewriteAppend(AlgaeRule, g2, [AlgaeA, AlgaeB]);
    assert Iterate(AlgaeRule, [AlgaeA], 3) == g3;
    RewriteAppend(AlgaeRule, g3, g2);
    assert Iterate(AlgaeRule, [AlgaeA], 4) == g4;
    RewriteAppend(AlgaeRule, g4, g3);
  }

  /** The program's main loop without the printing: a grammar from the rule,
      seeded with `A`, and the first five values the iterator yields. */
  method AlgaeMain() returns (generations: seq<seq<AlgeaAlphabet>>)
    ensures generations == [
      [AlgaeA, AlgaeB],
      [AlgaeA, AlgaeB, AlgaeA],
      [AlgaeA, AlgaeB, AlgaeA, AlgaeA, AlgaeB],
      [AlgaeA, AlgaeB, AlgaeA, AlgaeA, AlgaeB, AlgaeA, AlgaeB, AlgaeA],
      [AlgaeA, AlgaeB, AlgaeA, AlgaeA, AlgaeB, AlgaeA, AlgaeB, AlgaeA,
       AlgaeA, AlgaeB, AlgaeA, AlgaeA, AlgaeB]]
  {
    var algaeLSystem := FromFn(AlgaeRule);
    var it := Recurse(algaeLSystem, AlgaeA);
    generations, it := Take(it, 5);
    AlgaeFirstGenerations();
  }
}
