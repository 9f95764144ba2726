/** A context-free (OL) Lindenmayer-system engine.

  A grammar is nothing but a production rule, a total function from one
  symbol to the sequence of symbols that replaces it.  Seeding it with a
  single axiom symbol gives an iterator; every call to `Next` rewrites
  every symbol of the current state in parallel, left to right,
  concatenates the images, keeps the result as the new state and hands a
  copy back.  The iterator never runs dry (memory exhaustion aside, which
  the model does not bound).

  The Rust iterator mutates itself through `&mut self`; here that is
  modelled by passing the state in and out: `Next` takes an iterator value
  and returns the yielded item together with the advanced iterator.
 */
module LSystem {

  /** The value an iterator yields: `None` would signal the end. */
  datatype Option<T> = None | Some(value: T)

  /** A grammar: the production rule and nothing else. */
  datatype LSystemType<!T> = LSystemType(rules: T -> seq<T>)

  /** A running rewrite: the current generation and the rule that advances it. */
  datatype LSystemTypeIterator<!T> = LSystemTypeIterator(currentState: seq<T>, rules: T -> seq<T>)

  /** Builds a grammar from a rule. */
  function FromFn<T>(func: T -> seq<T>): (sys: LSystemType<T>)
    ensures sys.rules == func
  {
    LSystemType(func)
  }

  /** Starts an iterator whose state is the single axiom symbol. */
  function Recurse<T>(sys: LSystemType<T>, axiom: T): (it: LSystemTypeIterator<T>)
    ensures it.currentState == [axiom]
    ensures it.rules == sys.rules
  {
    LSystemTypeIterator([axiom], sys.rules)
  }

  /** One parallel rewrite pass: the images of the symbols of `s`, in order,
      concatenated (a flat-map). */
  function Rewrite<T>(rules: T -> seq<T>, s: seq<T>): seq<T>
    decreases |s|
  {
    if s == [] then [] else rules(s[0]) + Rewrite(rules, s[1..])
  }

  /** The sum of the lengths of the images of the symbols of `s`, summed from
      the last symbol back to the first. */
  function SumOfImageLengths<T>(rules: T -> seq<T>, s: seq<T>): nat
    decreases |s|
  {
    if s == [] then 0 else SumOfImageLengths(rules, s[..|s| - 1]) + |rules(s[|s| - 1])|
  }

  /** `s` rewritten `k` times. */
  function Iterate<T>(rules: T -> seq<T>, s: seq<T>, k: nat): seq<T>
    decreases k
  {
    if k == 0 then s else Rewrite(rules, Iterate(rules, s, k - 1))
  }

  /** One call of the iterator: rewrites the whole state symbol by symbol,
      left to right, replaces the state with the result and yields it. */
  method Next<T>(it: LSystemTypeIterator<T>) returns (item: Option<seq<T>>, it': LSystemTypeIterator<T>)
    ensures it'.rules == it.rules
    ensures it'.currentState == Rewrite(it.rules, it.currentState)
    ensures |it'.currentState| == SumOfImageLengths(it.rules, it.currentState)
    ensures it.currentState == [] ==> it'.currentState == []
    ensures item == Some(it'.currentState)
  {
    var newState: seq<T> := [];
    var i := 0;
    while i < |it.currentState|
      invariant 0 <= i <= |it.currentState|
      invariant newState == Rewrite(it.rules, it.currentState[..i])
    {
      var element := it.currentState[i];
      var entry := it.rules(element);
      RewriteSnoc(it.rules, it.currentState[..i], element);
      assert it.currentState[..i + 1] == it.currentState[..i] + [element];
      newState := newState + entry;
      i := i + 1;
    }
    assert it.currentState[..i] == it.currentState;
    RewriteLength(it.rules, it.currentState);
    it' := LSystemTypeIterator(newState, it.rules);
    item := Some(newState);
  }

  /** `n` successive calls of `Next`, collecting what they yield (the
      iterator adaptor `take(n)`).  The k-th call yields the state rewritten
      k times, and the iterator never stops early. */
  method Take<T>(it: LSystemTypeIterator<T>, n: nat) returns (items: seq<seq<T>>, it': LSystemTypeIterator<T>)
    ensures |items| == n
    ensures forall k :: 0 <= k < n ==> items[k] == Iterate(it.rules, it.currentState, k + 1)
    ensures it'.rules == it.rules
    ensures it'.currentState == Iterate(it.rules, it.currentState, n)
  {
    items := [];
    it' := it;
    while |items| < n
      invariant |items| <= n
      invariant it'.rules == it.rules
      invariant it'.currentState == Iterate(it.rules, it.currentState, |items|)
      invariant forall k :: 0 <= k < |items| ==> items[k] == Iterate(it.rules, it.currentState, k + 1)
    {
      var item;
      item, it' := Next(it');
      items := items + [item.value];
    }
  }

  /** The image of a one-symbol sequence is that symbol's image. */
  lemma RewriteSingleton<T>(rules: T -> seq<T>, x: T)
    ensures Rewrite(rules, [x]) == rules(x)
  {
  }

  /** Rewriting distributes over concatenation. */
  lemma {:induction false} RewriteAppend<T>(rules: T -> seq<T>, a: seq<T>, b: seq<T>)
    ensures Rewrite(rules, a + b) == Rewrite(rules, a) + Rewrite(rules, b)
    decreases |a|
  {
    if a == [] {
      assert a + b == b;
    } else {
      assert (a + b)[0] == a[0];
      assert (a + b)[1..] == a[1..] + b;
      RewriteAppend(rules, a[1..], b);
    }
  }

  /** Appending one symbol appends its image. */
  lemma RewriteSnoc<T>(rules: T -> seq<T>, s: seq<T>, x: T)
    ensures Rewrite(rules, s + [x]) == Rewrite(rules, s) + rules(x)
  {
    RewriteAppend(rules, s, [x]);
    RewriteSingleton(rules, x);
  }

  /** The length of a rewrite is the sum of the lengths of the images. */
  lemma {:induction false} RewriteLength<T>(rules: T -> seq<T>, s: seq<T>)
    ensures |Rewrite(rules, s)| == SumOfImageLengths(rules, s)
    decreases |s|
  {
    if s != [] {
      var init := s[..|s| - 1];
      assert s == init + [s[|s| - 1]];
      RewriteSnoc(rules, init, s[|s| - 1]);
      RewriteLength(rules, init);
    }
  }

  /** The image of the symbol at position `i` occupies a contiguous block of
      the rewrite, starting at the summed image lengths of the symbols
      before it. */
  lemma RewriteBlock<T>(rules: T -> seq<T>, s: seq<T>, i: nat)
    requires i < |s|
    ensures var start := SumOfImageLengths(rules, s[..i]);
      && start + |rules(s[i])| <= |Rewrite(rules, s)|
      && Rewrite(rules, s)[start..start + |rules(s[i])|] == rules(s[i])
  {
    var before, after := s[..i], s[i + 1..];
    assert s == before + [s[i]] + after;
    RewriteAppend(rules, before + [s[i]], after);
    RewriteSnoc(rules, before, s[i]);
    RewriteLength(rules, before);
  }

  /** A symbol occurs in the rewrite exactly when it occurs in the image of
      some symbol of the old state. */
  lemma {:induction false} RewriteMembership<T>(rules: T -> seq<T>, s: seq<T>, x: T)
    ensures x in Rewrite(rules, s) <==> exists i :: 0 <= i < |s| && x in rules(s[i])
    decreases |s|
  {
    if s != [] {
      RewriteMembership(rules, s[1..], x);
      if x in Rewrite(rules, s) {
        if x in rules(s[0]) {
          assert 0 < |s| && x in rules(s[0]);
        } else {
          assert x in Rewrite(rules, s[1..]);
          var j :| 0 <= j < |s[1..]| && x in rules(s[1..][j]);
          assert x in rules(s[j + 1]);
        }
      }
      if exists i :: 0 <= i < |s| && x in rules(s[i]) {
        var i :| 0 <= i < |s| && x in rules(s[i]);
        if i > 0 {
          assert x in rules(s[1..][i - 1]);
        }
      }
    }
  }

  /** A rule whose images are never empty never shortens a state. */
  lemma {:induction false} NonErasingNeverShrinks<T>(rules: T -> seq<T>, s: seq<T>)
    requires forall x :: 1 <= |rules(x)|
    ensures |s| <= |Rewrite(rules, s)|
    decreases |s|
  {
    if s != [] {
      NonErasingNeverShrinks(rules, s[1..]);
    }
  }

  /** A rule whose images have at most two symbols at most doubles a state. */
  lemma {:induction false} AtMostDoubling<T>(rules: T -> seq<T>, s: seq<T>)
    requires forall x :: |rules(x)| <= 2
    ensures |Rewrite(rules, s)| <= 2 * |s|
    decreases |s|
  {
    if s != [] {
      AtMostDoubling(rules, s[1..]);
    }
  }

  /** Rewriting `m + n` times is rewriting `m` times, then `n` more. */
  lemma {:induction false} IterateAdd<T>(rules: T -> seq<T>, s: seq<T>, m: nat, n: nat)
    ensures Iterate(rules, s, m + n) == Iterate(rules, Iterate(rules, s, m), n)
    decreases n
  {
    if n > 0 {
      IterateAdd(rules, s, m, n - 1);
    }
  }

  /** The empty state stays empty however often it is rewritten. */
  lemma {:induction false} IterateEmpty<T>(rules: T -> seq<T>, k: nat)
    ensures Iterate(rules, [], k) == []
    decreases k
  {
    if k > 0 {
      IterateEmpty(rules, k - 1);
    }
  }

  /** Once every symbol has vanished, every later generation is empty. */
  lemma {:induction false} ErasedStaysErased<T>(rules: T -> seq<T>, s: seq<T>, m: nat, n: nat)
    requires Iterate(rules, s, m) == []
    requires m <= n
    ensures Iterate(rules, s, n) == []
  {
    IterateAdd(rules, s, m, n - m);
    IterateEmpty(rules, n - m);
  }
}
