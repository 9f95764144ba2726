# lsystem — a verified model of the L-system rewriting engine

This project models the Rust crate `lsystem`. The crate is a generic engine
for context-free (OL) Lindenmayer systems. A grammar, `LSystemType<T>`, holds
nothing but a production rule `fn(T) -> Vec<T>`. `from_fn` builds a grammar
from such a rule. `recurse(axiom)` starts an `LSystemTypeIterator` whose state
is the one-symbol sequence `[axiom]`. Each call of `next` runs one parallel
rewrite pass: it applies the rule to every symbol of the state, left to right,
concatenates the images, makes the result the new state and returns a copy
wrapped in `Some`. The model also covers two concrete rule tables that drive
the engine:

- the algae system `A → AB`, `B → A`;
- the Anabaena catenula filament, with its four cell kinds `Ar`, `Al`, `Br`
  and `Bl`.

Files:

- `lsystem.dfy`, module `LSystem`: the engine. It defines the grammar and
  iterator datatypes, `FromFn`, `Recurse` and `Next`. It also defines the
  pure flat-map `Rewrite(rules, s)` and its n-fold iterate `Iterate`. `Next`
  is a loop that mirrors the source's push-per-symbol loop and is proved
  equal to `Rewrite`. `Take` models the `take(n)` adaptor the program uses.
  The module's lemmas prove these properties:
  - rewriting distributes over `++`;
  - the length of a rewrite is the sum of the image lengths;
  - the image of each position sits in its own contiguous block;
  - a symbol occurs in the rewrite exactly when it occurs in some image;
  - non-erasing rules never shrink a state, and rules with images of at most
    two symbols at most double it;
  - iterates compose;
  - an empty state stays empty.
- `algae.dfy`, module `AlgaeSystem`: the algae alphabet, its `Show` text and
  its rule. It proves the first five generations seeded with `A`, that cell
  counts follow the Fibonacci numbers, and that generations never shrink.
- `anabaena.dfy`, module `AnabaenaSystem`: the Anabaena alphabet, its `Show`
  arrows and its rule. The rule's contract is stated in terms of cell size
  (long or short) and polarity (pointing right or left). The module proves a
  growth bound and how many long and short cells a pass produces.

The Rust iterator changes its own state through `&mut self`. The model passes
that state in and out instead: `Next(it)` returns the yielded item together
with the advanced iterator. The rule is a Dafny total arrow `T -> seq<T>`.
This matches a Rust `fn` pointer whose `match` is exhaustive: every symbol has
an image, so the "unhandled symbol" error cannot arise.

The model follows `src/lib.rs`, not the older API that some of the examples
call (`LSystem::new(vec, closure)`, `LSystemType::new`, `.iter()`):

- a grammar holds no axiom;
- `recurse` takes a single axiom symbol, not a sequence;
- there is no "generation zero" flag, because `next` rewrites before it
  returns. The first value yielded is therefore generation 1, the axiom
  rewritten once.

## Model

| member | source | states |
|---|---|---|
| LSystem.FromFn | src/lib.rs:17-19 | The grammar stores exactly the rule it was built from. |
| LSystem.Recurse | src/lib.rs:21-23 | A fresh iterator's state is the one-symbol sequence `[axiom]`, and its rule is the grammar's rule. |
| LSystem.Next | src/lib.rs:32-41 | The symbol-by-symbol loop builds the flat-map of the rule over the old state. Its length is the sum of the image lengths. An empty state stays empty. The result is always `Some` of the new state, and the rule is unchanged. |
| LSystem.Take | src/lib.rs:33-40 | `n` calls of `next` yield exactly `n` items, so the iterator never ends. The k-th item is the state rewritten k times, and afterwards the state is the n-fold rewrite. |
| LSystem.RewriteAppend | src/lib.rs:34-37 | Rewriting distributes over concatenation: `Rewrite(a ++ b) == Rewrite(a) ++ Rewrite(b)`. |
| LSystem.RewriteLength | src/lib.rs:33-37 | The rewrite's length equals the sum of the lengths of the images of the old symbols. |
| LSystem.RewriteBlock | src/lib.rs:34-37 | The image of position i is a contiguous block of the rewrite. The block starts at the summed image lengths of positions before i. |
| LSystem.RewriteMembership | src/lib.rs:34-37 | A symbol occurs in the rewrite if and only if it occurs in the image of some old symbol. |
| LSystem.NonErasingNeverShrinks | src/lib.rs:33-39 | If no image is empty, a pass never shortens the state. |
| LSystem.AtMostDoubling | src/lib.rs:33-39 | If every image has at most two symbols, a pass at most doubles the state. |
| LSystem.IterateAdd | src/lib.rs:39-40 | Rewriting m + n times is rewriting m times, then n more times from that state. |
| LSystem.IterateEmpty | src/lib.rs:33-39 | The empty state rewritten any number of times is empty. |
| LSystem.ErasedStaysErased | src/lib.rs:33-39 | Once a generation is empty, every later generation is empty. |
| AlgaeSystem.Show | src/algae.rs:11-18 | Every symbol displays as one character: `A` exactly for `AlgaeA`, `B` exactly for `AlgaeB`. |
| AlgaeSystem.AlgaeRule | src/algae.rs:20-25 | The rule is total and every image is non-empty. Every image starts with `A`, and only `A` has a second symbol, a `B`. |
| AlgaeSystem.AlgaeNeverShrinks | src/algae.rs:20-25 | Under the algae rule a generation is never shorter than the one before it. |
| AlgaeSystem.RewriteCounts | src/algae.rs:20-25 | After a pass there is one `A` per old symbol and one `B` per old `A`. |
| AlgaeSystem.AlgaeFibonacci | src/algae.rs:20-29 | Seeded with `A`, generation k has Fib(k+2) symbols, and Fib(k+1) of them are `A`. |
| AlgaeSystem.AlgaeFirstGenerations | src/algae.rs:29 | Seeded with `A`, generations 1 to 5 are AB, ABA, ABAAB, ABAABABA and ABAABABAABAAB. |
| AlgaeSystem.AlgaeMain | src/algae.rs:27-32 | `from_fn(algae_rule)`, `recurse(AlgaeA)` and `take(5)` yield exactly those five generations. |
| AnabaenaSystem.Show | examples/anabaena.rs:25-34 | Each cell displays as an arrow: three characters for a long cell, two for a short one. The head is `<` at the left exactly for left-pointing cells and `>` at the right exactly for right-pointing ones, and every other character is `-`. So the four texts are `-->`, `<--`, `->` and `<-`. |
| AnabaenaSystem.AnabaenaRule | examples/anabaena.rs:36-43 | The rule is total. A long cell divides into two cells: a short cell of its own polarity, placed on the side it points to, and a long cell of the opposite polarity. A short cell becomes a single long cell of the same polarity. |
| AnabaenaSystem.AnabaenaGrowthBounds | examples/anabaena.rs:38-41 | Under a pass a filament is at least as long as before and at most twice as long. |
| AnabaenaSystem.RewriteCellCounts | examples/anabaena.rs:38-41 | After a pass there is one long cell per old cell and one short cell per old long cell. |

## Left out

- Printing: `println!` in the algae `main` and the `Show` formatter plumbing. `Show` is modelled as a function returning the text, and `AlgaeMain` returns the generations instead of printing them.
- Rust ownership and copying: the `clone()` calls in `next`. States are immutable value sequences.
- The `T: Clone` bound: Dafny values need no cloning, so the type parameter carries no characteristic.
- The commented-out `Rule` and `LSystem` structs and the empty test `it_works` in `src/lib.rs`: they have no behaviour.
- `examples/algae.rs`: it calls `LSystem::new` and iterates the result directly. `LSystem` exists only as the commented-out struct in `src/lib.rs`, which has no `new`.
- `main` in `examples/anabaena.rs`: it calls `LSystemType::new` and `.iter()`, neither of which `src/lib.rs` defines.
- `examples/parametric.rs`: its rule depends on floating-point arithmetic.
- The turtle-graphics drawing, script generation, file writing and process spawning in `examples/penrose.rs`, `examples/seaweed.rs`, `examples/sierpinski.rs` and `examples/koch.rs`: they are I/O and external processes.
- Memory limits: `next` grows a `Vec` with `push_all`, which in Rust panics on capacity overflow or aborts when allocation fails once a generation outgrows memory. Algae generation k already has Fib(k+2) symbols. The model's sequences are unbounded, so `Take` promises `n` items for every `n`.
- Rules that panic or never return: a Rust `fn(T) -> Vec<T>` may do either. The model takes the rule as a total Dafny arrow `T -> seq<T>`, which always returns. This is exact for the two rule tables modelled, whose exhaustive `match` always returns a vector.
- Determinism of two iterators from the same grammar: it holds by construction, because the contract of `Next` fixes both results as functions of its input, and the rule is a pure arrow.
