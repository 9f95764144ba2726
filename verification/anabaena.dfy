/** The Anabaena catenula filament: cells are long (`A`) or short (`B`) and
    point right (`r`) or left (`l`).  A long cell divides into a short cell of
    its own polarity, on the side it points to, and a long cell of the
    opposite polarity; a short cell grows into a long one. */
module AnabaenaSystem {
  import opened LSystem

  datatype Anabaena = Ar | Al | Br | Bl

  /** Long (`A`) cells as opposed to short (`B`) ones. */
  predicate IsLong(a: Anabaena)
  {
    a.Ar? || a.Al?
  }

  /** Cells of right-hand polarity. */
  predicate PointsRight(a: Anabaena)
  {
    a.Ar? || a.Br?
  }

  /** The display text of a cell: an arrow whose length is the cell's size
      and whose head shows its polarity; every other character is a dash. */
  function Show(a: Anabaena): (r: string)
    ensures |r| == if IsLong(a) then 3 else 2
    ensures r[0] == '<' <==> !PointsRight(a)
    ensures r[|r| - 1] == '>' <==> PointsRight(a)
    ensures forall j :: 0 <= j < |r| && j != (if PointsRight(a) then |r| - 1 else 0) ==> r[j] == '-'
  {
    match a
    case Ar => "-->"
    case Al => "<--"
    case Br => "->"
    case Bl => "<-"
  }

  /** The production rule, one case per cell kind. */
  function AnabaenaRule(input: Anabaena): (r: seq<Anabaena>)
    ensures |r| == if IsLong(input) then 2 else 1
    ensures IsLong(input) ==>
      var (short, long) := if PointsRight(input) then (r[1], r[0]) else (r[0], r[1]);
      && !IsLong(short) && PointsRight(short) == PointsRight(input)
      && IsLong(long) && PointsRight(long) != PointsRight(input)
    ensures !IsLong(input) ==> IsLong(r[0]) && PointsRight(r[0]) == PointsRight(input)
  {
    match input
    case Ar => [Al, Br]
    case Al => [Bl, Ar]
    case Br => [Ar]
    case Bl => [Al]
  }

  /** Under a pass a filament grows, but at most doubles. */
  lemma {:induction false} AnabaenaGrowthBounds(s: seq<Anabaena>)
    ensures |s| <= |Rewrite(AnabaenaRule, s)| <= 2 * |s|
  {
    NonErasingNeverShrinks(AnabaenaRule, s);
    AtMostDoubling(AnabaenaRule, s);
  }

  /** The number of long cells in a filament. */
  function LongCount(s: seq<Anabaena>): nat
    decreases |s|
  {
    if s == [] then 0 else (if IsLong(s[0]) then 1 else 0) + LongCount(s[1..])
  }

  lemma {:induction false} LongCountAppend(a: seq<Anabaena>, b: seq<Anabaena>)
    ensures LongCount(a + b) == LongCount(a) + LongCount(b)
    decreases |a|
  {
    if a == [] {
      assert a + b == b;
    } else {
      assert (a + b)[1..] == a[1..] + b;
      LongCountAppend(a[1..], b);
    }
  }

  /** After a pass there is exactly one long cell per old cell, and one short
      cell per old long cell. */
  lemma {:induction false} RewriteCellCounts(s: seq<Anabaena>)
    ensures LongCount(Rewrite(AnabaenaRule, s)) == |s|
    ensures |Rewrite(AnabaenaRule, s)| - LongCount(Rewrite(AnabaenaRule, s)) == LongCount(s)
    decreases |s|
  {
    if s != [] {
      RewriteCellCounts(s[1..]);
      LongCountAppend(AnabaenaRule(s[0]), Rewrite(AnabaenaRule, s[1..]));
    }
  }
}
