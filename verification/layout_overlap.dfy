/** Text collision diagnostics: a sorted sweep with an early exit against the test of every pair. */
module LayoutOverlap {
  import opened Text

  const MAX_TEXT_RECTS := 4_096

  datatype Rect = Rect(x: real, y: real, width: real, height: real)

  datatype LayoutNode = LayoutNode(rect: Rect, text: string, children: seq<LayoutNode>)

  // ---- Collecting text rectangles -----------------------------------------------------------

  predicate ShowsText(node: LayoutNode) {
    Trim(node.text) != [] && node.rect.width > 0.0 && node.rect.height > 0.0
  }

  /** Every leaf that shows text, in document order. */
  function Leaves(node: LayoutNode): (s: seq<Rect>) {
    if node.children == [] then (if ShowsText(node) then [node.rect] else []) else LeavesOf(node.children)
  }

  function LeavesOf(nodes: seq<LayoutNode>): (s: seq<Rect>) {
    if nodes == [] then [] else Leaves(nodes[0]) + LeavesOf(nodes[1..])
  }

  function Capped(s: seq<Rect>): (t: seq<Rect>) {
    if |s| > MAX_TEXT_RECTS then s[..MAX_TEXT_RECTS] else s
  }

  lemma CapIsFinal(s: seq<Rect>, t: seq<Rect>)
    ensures Capped(Capped(s) + t) == Capped(s + t)
    ensures |Capped(s)| >= MAX_TEXT_RECTS ==> Capped(s + t) == Capped(s)
  {
  }

  method CollectTextRects(node: LayoutNode, before: seq<Rect>) returns (out: seq<Rect>)
    requires |before| <= MAX_TEXT_RECTS
    ensures out == Capped(before + Leaves(node))
    decreases node
  {
    out := before;
    if |out| >= MAX_TEXT_RECTS {
      return;
    }
    if node.children == [] {
      if ShowsText(node) {
        out := out + [node.rect];
      }
      return;
    }
    assert node.children[0..] == node.children;
    assert before + LeavesOf(node.children) == out + LeavesOf(node.children);
    for i := 0 to |node.children|
      invariant |out| <= MAX_TEXT_RECTS
      invariant Capped(out + LeavesOf(node.children[i..])) == Capped(before + LeavesOf(node.children))
    {
      var rest := LeavesOf(node.children[i + 1..]);
      assert node.children[i..][1..] == node.children[i + 1..];
      ghost var was := out;
      out := CollectTextRects(node.children[i], out);
      assert was + (Leaves(node.children[i]) + rest) == was + Leaves(node.children[i]) + rest;
      CapIsFinal(was + Leaves(node.children[i]), rest);
      if |out| >= MAX_TEXT_RECTS {
        return;
      }
    }
    assert out + [] == out;
  }

  // ---- Collisions -----------------------------------------------------------------------------

  function Min(a: real, b: real): (m: real) {
    if b < a then b else a
  }

  function Max(a: real, b: real): (m: real) {
    if a < b then b else a
  }

  function Area(r: Rect): (a: real) {
    r.width * r.height
  }

  function OverlapX(a: Rect, b: Rect): (d: real) {
    Min(a.x + a.width, b.x + b.width) - Max(a.x, b.x)
  }

  function OverlapY(a: Rect, b: Rect): (d: real) {
    Min(a.y + a.height, b.y + b.height) - Max(a.y, b.y)
  }

  predicate Collide(a: Rect, b: Rect) {
    && OverlapX(a, b) > 5.0 && OverlapY(a, b) > 5.0
    && OverlapX(a, b) * OverlapY(a, b) > Min(Area(a), Area(b)) * 0.5
  }

  /** How many pairs collide, and over how large an area. */
  datatype Tally = Tally(pairs: nat, area: real) {
    function Plus(other: Tally): (t: Tally) {
      Tally(pairs + other.pairs, area + other.area)
    }
  }

  const NONE := Tally(0, 0.0)

  function Pair(a: Rect, b: Rect): (t: Tally) {
    if Collide(a, b) then Tally(1, OverlapX(a, b) * OverlapY(a, b)) else NONE
  }

  lemma PlusLaws(a: Tally, b: Tally, c: Tally)
    ensures a.Plus(b).Plus(c) == a.Plus(b.Plus(c))
    ensures a.Plus(b) == b.Plus(a)
    ensures NONE.Plus(a) == a && a.Plus(NONE) == a
  {
  }

  lemma Swap(a: Tally, b: Tally, c: Tally, d: Tally)
    ensures a.Plus(c).Plus(b.Plus(d)) == a.Plus(b).Plus(c.Plus(d))
  {
  }

  type Pairing = (Rect, Rect) -> Tally

  function Against(pair: Pairing, a: Rect, others: seq<Rect>): (t: Tally) {
    if others == [] then NONE else pair(a, others[0]).Plus(Against(pair, a, others[1..]))
  }

  /** The simple form: every unordered pair. */
  function AllPairs(pair: Pairing, rects: seq<Rect>): (t: Tally) {
    if rects == [] then NONE else Against(pair, rects[0], rects[1..]).Plus(AllPairs(pair, rects[1..]))
  }

  function TotalArea(rects: seq<Rect>): (a: real) {
    if rects == [] then 0.0 else Area(rects[0]) + TotalArea(rects[1..])
  }

  // ---- Sorting by top edge ----------------------------------------------------------------------

  function Insert(r: Rect, sorted: seq<Rect>): (s: seq<Rect>) {
    if sorted == [] || r.y <= sorted[0].y then [r] + sorted else [sorted[0]] + Insert(r, sorted[1..])
  }

  function SortByTop(rects: seq<Rect>): (s: seq<Rect>) {
    if rects == [] then [] else Insert(rects[0], SortByTop(rects[1..]))
  }

  predicate SortedByTop(s: seq<Rect>) {
    forall i, j :: 0 <= i < j < |s| ==> s[i].y <= s[j].y
  }

  predicate AllPositive(s: seq<Rect>) {
    forall r <- s :: r.width > 0.0 && r.height > 0.0
  }

  ghost predicate Symmetric(pair: Pairing) {
    forall a, b :: pair(a, b) == pair(b, a)
  }

  lemma PairIsSymmetric()
    ensures Symmetric(Pair)
  {
    forall a, b ensures Pair(a, b) == Pair(b, a) {
      PairCommutes(a, b);
    }
  }

  lemma PairCommutes(a: Rect, b: Rect)
    ensures Pair(a, b) == Pair(b, a)
  {
    assert OverlapX(a, b) == OverlapX(b, a) && OverlapY(a, b) == OverlapY(b, a);
  }

  lemma {:induction false} InsertKeepsSums(pair: Pairing, r: Rect, sorted: seq<Rect>, a: Rect)
    ensures Against(pair, a, Insert(r, sorted)) == pair(a, r).Plus(Against(pair, a, sorted))
  {
    if sorted == [] || r.y <= sorted[0].y {
      assert ([r] + sorted)[1..] == sorted;
    } else {
      InsertKeepsSums(pair, r, sorted[1..], a);
      assert Insert(r, sorted)[1..] == Insert(r, sorted[1..]);
    }
  }

  lemma {:induction false} InsertKeepsArea(r: Rect, sorted: seq<Rect>)
    ensures TotalArea(Insert(r, sorted)) == Area(r) + TotalArea(sorted)
  {
    if sorted == [] || r.y <= sorted[0].y {
      assert ([r] + sorted)[1..] == sorted;
    } else {
      InsertKeepsArea(r, sorted[1..]);
      assert Insert(r, sorted)[1..] == Insert(r, sorted[1..]);
    }
  }

  lemma {:induction false} InsertKeepsPairs(pair: Pairing, r: Rect, sorted: seq<Rect>)
    requires Symmetric(pair)
    ensures AllPairs(pair, Insert(r, sorted)) == Against(pair, r, sorted).Plus(AllPairs(pair, sorted))
  {
    if sorted == [] || r.y <= sorted[0].y {
      assert ([r] + sorted)[1..] == sorted;
    } else {
      InsertKeepsPairs(pair, r, sorted[1..]);
      InsertKeepsSums(pair, r, sorted[1..], sorted[0]);
      var grown := Insert(r, sorted);
      assert grown[0] == sorted[0] && grown[1..] == Insert(r, sorted[1..]);
      Swap(pair(r, sorted[0]), Against(pair, r, sorted[1..]), Against(pair, sorted[0], sorted[1..]),
           AllPairs(pair, sorted[1..]));
    }
  }

  lemma {:induction false} AgainstSorted(pair: Pairing, a: Rect, rects: seq<Rect>)
    ensures Against(pair, a, SortByTop(rects)) == Against(pair, a, rects)
  {
    if rects != [] {
      AgainstSorted(pair, a, rects[1..]);
      InsertKeepsSums(pair, rects[0], SortByTop(rects[1..]), a);
    }
  }

  /** Sorting changes neither the pairs nor the total area. */
  lemma {:induction false} SortKeepsPairs(pair: Pairing, rects: seq<Rect>)
    requires Symmetric(pair)
    ensures AllPairs(pair, SortByTop(rects)) == AllPairs(pair, rects)
  {
    if rects != [] {
      SortKeepsPairs(pair, rects[1..]);
      InsertKeepsPairs(pair, rects[0], SortByTop(rects[1..]));
      AgainstSorted(pair, rects[0], rects[1..]);
    }
  }

  lemma {:induction false} SortKeepsArea(rects: seq<Rect>)
    ensures TotalArea(SortByTop(rects)) == TotalArea(rects)
  {
    if rects != [] {
      SortKeepsArea(rects[1..]);
      InsertKeepsArea(rects[0], SortByTop(rects[1..]));
    }
  }

  lemma {:induction false} InsertAdds(r: Rect, sorted: seq<Rect>)
    ensures multiset(Insert(r, sorted)) == multiset{r} + multiset(sorted)
  {
    if sorted != [] && r.y > sorted[0].y {
      InsertAdds(r, sorted[1..]);
      assert sorted == [sorted[0]] + sorted[1..];
    }
  }

  predicate AllFrom(top: real, s: seq<Rect>) {
    forall k :: 0 <= k < |s| ==> top <= s[k].y
  }

  lemma {:induction false} InsertFrom(top: real, r: Rect, sorted: seq<Rect>)
    requires top <= r.y && AllFrom(top, sorted)
    ensures AllFrom(top, Insert(r, sorted))
  {
    if sorted != [] && r.y > sorted[0].y {
      InsertFrom(top, r, sorted[1..]);
    }
  }

  lemma ConsSorted(first: Rect, rest: seq<Rect>)
    requires SortedByTop(rest) && AllFrom(first.y, rest)
    ensures SortedByTop([first] + rest)
  {
  }

  lemma {:induction false} InsertSorts(r: Rect, sorted: seq<Rect>)
    requires SortedByTop(sorted)
    ensures SortedByTop(Insert(r, sorted))
  {
    if sorted == [] || r.y <= sorted[0].y {
      ConsSorted(r, sorted);
    } else {
      InsertSorts(r, sorted[1..]);
      InsertFrom(sorted[0].y, r, sorted[1..]);
      ConsSorted(sorted[0], Insert(r, sorted[1..]));
    }
  }

  lemma {:induction false} SortSorts(rects: seq<Rect>)
    ensures SortedByTop(SortByTop(rects))
    ensures multiset(SortByTop(rects)) == multiset(rects)
  {
    if rects != [] {
      SortSorts(rects[1..]);
      InsertSorts(rects[0], SortByTop(rects[1..]));
      InsertAdds(rects[0], SortByTop(rects[1..]));
      assert rects == [rects[0]] + rects[1..];
    }
  }

  // ---- The sweep ----------------------------------------------------------------------------------

  /** A rectangle that starts at or below the bottom of `a` cannot collide with it. */
  lemma BelowIsApart(a: Rect, b: Rect)
    requires a.height > 0.0 && b.y >= a.y + a.height
    ensures Pair(a, b) == NONE
  {
    assert OverlapY(a, b) <= a.y + a.height - b.y;
  }

  lemma {:induction false} AllBelow(a: Rect, others: seq<Rect>)
    requires a.height > 0.0 && forall b <- others :: b.y >= a.y + a.height
    ensures Against(Pair, a, others) == NONE
  {
    if others != [] {
      BelowIsApart(a, others[0]);
      AllBelow(a, others[1..]);
    }
  }

  lemma AgainstUnfold(pair: Pairing, a: Rect, others: seq<Rect>)
    requires others != []
    ensures Against(pair, a, others) == pair(a, others[0]).Plus(Against(pair, a, others[1..]))
  {
  }

  lemma RestBelow(rects: seq<Rect>, i: nat, j: nat)
    requires i < j < |rects| && SortedByTop(rects) && rects[i].height > 0.0
    requires rects[j].y >= rects[i].y + rects[i].height
    ensures Against(Pair, rects[i], rects[j..]) == NONE
  {
    forall b | b in rects[j..] ensures b.y >= rects[i].y + rects[i].height {
      var k :| 0 <= k < |rects[j..]| && rects[j..][k] == b;
      assert rects[j + k] == b;
    }
    AllBelow(rects[i], rects[j..]);
  }

  /** One pair as the sweep tests it. */
  method Collision(r1: Rect, r2: Rect) returns (t: Tally)
    ensures t == Pair(r1, r2)
  {
    t := NONE;
    var xOverlap, yOverlap := OverlapX(r1, r2), OverlapY(r1, r2);
    if xOverlap > 5.0 && yOverlap > 5.0 {
      var intersection := xOverlap * yOverlap;
      if intersection > Min(Area(r1), Area(r2)) * 0.5 {
        t := Tally(1, intersection);
      }
    }
  }

  /** One row of the sweep: the collisions of rectangle `i` with later ones, up to the early exit. */
  method SweepRow(rects: seq<Rect>, i: nat, before: Tally) returns (t: Tally)
    requires i < |rects| && SortedByTop(rects) && AllPositive(rects)
    ensures t == before.Plus(Against(Pair, rects[i], rects[i + 1..]))
  {
    var r1 := rects[i];
    t := before;
    ghost var all := before.Plus(Against(Pair, r1, rects[i + 1..]));
    for j := i + 1 to |rects|
      invariant t.Plus(Against(Pair, r1, rects[j..])) == all
    {
      if rects[j].y >= r1.y + r1.height {
        RestBelow(rects, i, j);
        PlusLaws(t, NONE, NONE);
        return;
      }
      RowUnfold(r1, rects, j, t);
      var c := Collision(r1, rects[j]);
      t := t.Plus(c);
    }
    PlusLaws(t, NONE, NONE);
  }

  lemma RowUnfold(a: Rect, rects: seq<Rect>, j: nat, t: Tally)
    requires j < |rects|
    ensures t.Plus(Against(Pair, a, rects[j..])) == t.Plus(Pair(a, rects[j])).Plus(Against(Pair, a, rects[j + 1..]))
  {
    AgainstUnfold(Pair, a, rects[j..]);
    assert rects[j..][0] == rects[j] && rects[j..][1..] == rects[j + 1..];
    PlusLaws(t, Pair(a, rects[j]), Against(Pair, a, rects[j + 1..]));
  }

  /** The collision score: the colliding area as a share of the total, at most 1. */
  function Score(overlap: real, total: real): (s: real) {
    if total > 0.0 then Min(overlap / total, 1.0) else 0.0
  }

  method EvaluateLayoutOverlap(root: LayoutNode) returns (pairs: nat, score: real)
    ensures var rects := Capped(Leaves(root));
            pairs == AllPairs(Pair, rects).pairs && score == Score(AllPairs(Pair, rects).area, TotalArea(rects))
  {
    var collected := CollectTextRects(root, []);
    assert [] + Leaves(root) == Leaves(root);
    var rects := SortByTop(collected);
    SortedView(root, collected);
    if |rects| < 2 {
      FewHaveNoPairs(rects);
      return 0, 0.0;
    }
    var t, total := NONE, 0.0;
    assert rects[0..] == rects;
    PlusLaws(AllPairs(Pair, rects), NONE, NONE);
    for i := 0 to |rects|
      invariant t.Plus(AllPairs(Pair, rects[i..])) == AllPairs(Pair, rects)
      invariant total + TotalArea(rects[i..]) == TotalArea(rects)
    {
      assert rects[i..][1..] == rects[i + 1..];
      PlusLaws(t, Against(Pair, rects[i], rects[i + 1..]), AllPairs(Pair, rects[i + 1..]));
      total := total + Area(rects[i]);
      t := SweepRow(rects, i, t);
    }
    PlusLaws(t, NONE, NONE);
    return t.pairs, Score(t.area, total);
  }

  /** What sorting hands the sweep: ordered, positive rectangles with the same pairs and area. */
  lemma SortedView(root: LayoutNode, collected: seq<Rect>)
    requires collected == Capped(Leaves(root))
    ensures var rects := SortByTop(collected);
            && SortedByTop(rects) && AllPositive(rects)
            && AllPairs(Pair, rects) == AllPairs(Pair, collected) && TotalArea(rects) == TotalArea(collected)
  {
    LeavesArePositive(root);
    PairIsSymmetric();
    SortKeepsPairs(Pair, collected);
    SortKeepsArea(collected);
    SortSorts(collected);
    forall r | r in SortByTop(collected) ensures r in collected {
      assert r in multiset(SortByTop(collected));
    }
  }

  lemma {:induction false} LeavesArePositive(node: LayoutNode)
    ensures AllPositive(Leaves(node))
    decreases node, 0
  {
    if node.children != [] {
      LeavesOfArePositive(node.children);
    }
  }

  lemma {:induction false} LeavesOfArePositive(nodes: seq<LayoutNode>)
    ensures AllPositive(LeavesOf(nodes))
    decreases nodes, 1
  {
    if nodes != [] {
      LeavesArePositive(nodes[0]);
      LeavesOfArePositive(nodes[1..]);
    }
  }

  lemma FewHaveNoPairs(rects: seq<Rect>)
    requires |rects| < 2
    ensures AllPairs(Pair, rects) == NONE && Score(0.0, TotalArea(rects)) == 0.0
  {
  }

  // ---- What the result means ------------------------------------------------------------------------

  /** Each colliding pair overlaps in an area, and `NONE` in none. */
  ghost predicate Weighted(pair: Pairing) {
    forall a, b :: pair(a, b).area >= 0.0 && (pair(a, b).pairs == 0 <==> pair(a, b).area == 0.0)
  }

  lemma PairIsWeighted()
    ensures Weighted(Pair)
  {
    forall a, b
      ensures Pair(a, b).area >= 0.0 && (Pair(a, b).pairs == 0 <==> Pair(a, b).area == 0.0)
    {
      PositiveProduct(OverlapX(a, b), OverlapY(a, b));
    }
  }

  lemma PositiveProduct(x: real, y: real)
    ensures x > 0.0 && y > 0.0 ==> x * y > 0.0
  {
  }

  lemma {:induction false} AgainstArea(pair: Pairing, a: Rect, others: seq<Rect>)
    requires Weighted(pair)
    ensures var t := Against(pair, a, others); t.area >= 0.0 && (t.pairs == 0 <==> t.area == 0.0)
  {
    if others != [] {
      AgainstArea(pair, a, others[1..]);
      assert pair(a, others[0]).area >= 0.0;
    }
  }

  lemma {:induction false} PairsArea(pair: Pairing, rects: seq<Rect>)
    requires Weighted(pair)
    ensures var t := AllPairs(pair, rects); t.area >= 0.0 && (t.pairs == 0 <==> t.area == 0.0)
  {
    if rects != [] {
      AgainstArea(pair, rects[0], rects[1..]);
      PairsArea(pair, rects[1..]);
    }
  }

  lemma {:induction false} TotalAreaPositive(rects: seq<Rect>)
    requires AllPositive(rects)
    ensures if rects == [] then TotalArea(rects) == 0.0 else TotalArea(rects) > 0.0
  {
    if rects != [] {
      TotalAreaPositive(rects[1..]);
      PositiveProduct(rects[0].width, rects[0].height);
    }
  }

  lemma DivideShare(overlap: real, total: real)
    requires overlap >= 0.0 && total > 0.0
    ensures 0.0 <= Score(overlap, total) <= 1.0 && (Score(overlap, total) == 0.0 <==> overlap == 0.0)
  {
    var q := overlap / total;
    assert q * total == overlap;
    PositiveProduct(-q, total);
  }

  /** The score of any page lies between 0 and 1, and is 0 exactly when no pair of its text boxes collides. */
  lemma ScoreIsAShare(root: LayoutNode)
    ensures var rects := Capped(Leaves(root));
            var score := Score(AllPairs(Pair, rects).area, TotalArea(rects));
            0.0 <= score <= 1.0 && (score == 0.0 <==> AllPairs(Pair, rects).pairs == 0)
  {
    var rects := Capped(Leaves(root));
    LeavesArePositive(root);
    assert AllPositive(rects);
    PairIsWeighted();
    PairsArea(Pair, rects);
    TotalAreaPositive(rects);
    if rects != [] {
      DivideShare(AllPairs(Pair, rects).area, TotalArea(rects));
    }
  }

  // ---- The count as a set of pairs --------------------------------------------------------------------

  /** The index pairs that collide, from index `from` on. */
  ghost function Colliding(rects: seq<Rect>, from: nat): (s: set<(int, int)>) {
    set i, j | from <= i < |rects| && i < j < |rects| && Collide(rects[i], rects[j]) :: (i, j)
  }

  ghost function Row(rects: seq<Rect>, i: nat, from: nat): (s: set<(int, int)>)
    requires i < |rects|
  {
    set j | from <= j < |rects| && Collide(rects[i], rects[j]) :: (i as int, j)
  }

  lemma {:induction false} RowIsCounted(rects: seq<Rect>, i: nat, from: nat)
    requires i < |rects| && from <= |rects|
    ensures |Row(rects, i, from)| == Against(Pair, rects[i], rects[from..]).pairs
    decreases |rects| - from
  {
    if from == |rects| {
      assert Row(rects, i, from) == {};
    } else {
      RowIsCounted(rects, i, from + 1);
      assert rects[from..][1..] == rects[from + 1..];
      var rest := Row(rects, i, from + 1);
      assert Row(rects, i, from) == if Collide(rects[i], rects[from]) then rest + {(i as int, from as int)} else rest;
    }
  }

  /** The count is the number of colliding index pairs. */
  lemma {:induction false} PairsAreCounted(rects: seq<Rect>, from: nat)
    requires from <= |rects|
    ensures |Colliding(rects, from)| == AllPairs(Pair, rects[from..]).pairs
    decreases |rects| - from
  {
    if from == |rects| {
      assert Colliding(rects, from) == {};
    } else {
      PairsAreCounted(rects, from + 1);
      RowIsCounted(rects, from, from + 1);
      assert rects[from..][1..] == rects[from + 1..];
      var row, rest := Row(rects, from, from + 1), Colliding(rects, from + 1);
      assert Colliding(rects, from) == row + rest;
      assert row !! rest;
      assert |row + rest| == |row| + |rest|;
    }
  }
}
