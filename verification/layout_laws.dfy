/** What the collision test means on the page: whose rectangles are compared, and what area two of them share. */
module LayoutLaws {
  import opened LayoutOverlap
  import opened Text
  import opened Wrappers

  // ---- Which rectangles ---------------------------------------------------------------------

  /** The node reached by taking these children in turn. */
  function NodeAt(root: LayoutNode, path: seq<nat>): (node: Option<LayoutNode>)
    decreases |path|
  {
    if path == [] then Some(root)
    else if path[0] < |root.children| then NodeAt(root.children[path[0]], path[1..])
    else None
  }

  /** A leaf with a character other than white space and an area. */
  predicate IsTextLeaf(root: LayoutNode, path: seq<nat>) {
    var node := NodeAt(root, path);
    && node.Some? && node.value.children == []
    && node.value.rect.width > 0.0 && node.value.rect.height > 0.0
    && exists i :: 0 <= i < |node.value.text| && !IsSpace(node.value.text[i])
  }

  /** Document order. */
  predicate Before(p: seq<nat>, q: seq<nat>)
    decreases |p|
  {
    if p == [] then q != []
    else q != [] && (p[0] < q[0] || (p[0] == q[0] && Before(p[1..], q[1..])))
  }

  /** `at` lists the text leaves in document order, and `rects` their rectangles. */
  ghost predicate Lists(root: LayoutNode, at: seq<seq<nat>>, rects: seq<Rect>) {
    && |at| == |rects|
    && (forall i :: 0 <= i < |at| ==> IsTextLeaf(root, at[i]) && NodeAt(root, at[i]).value.rect == rects[i])
    && (forall i, j :: 0 <= i < j < |at| ==> Before(at[i], at[j]))
    && (forall path :: IsTextLeaf(root, path) ==> path in at)
  }

  /** The same for the children from number `k` on. */
  ghost predicate ListsFrom(root: LayoutNode, k: nat, at: seq<seq<nat>>, rects: seq<Rect>) {
    && |at| == |rects|
    && (forall i :: 0 <= i < |at| ==>
          at[i] != [] && at[i][0] >= k && IsTextLeaf(root, at[i]) && NodeAt(root, at[i]).value.rect == rects[i])
    && (forall i, j :: 0 <= i < j < |at| ==> Before(at[i], at[j]))
    && (forall path :: IsTextLeaf(root, path) && path != [] && path[0] >= k ==> path in at)
  }

  lemma ShowingText(text: string)
    ensures Trim(text) != [] <==> exists i :: 0 <= i < |text| && !IsSpace(text[i])
  {
    var i, j := TrimStrips(text);
  }

  function Under(k: nat, at: seq<seq<nat>>): (paths: seq<seq<nat>>) {
    seq(|at|, i requires 0 <= i < |at| => [k] + at[i])
  }

  lemma ChildPath(root: LayoutNode, k: nat, path: seq<nat>)
    requires k < |root.children|
    ensures NodeAt(root, [k] + path) == NodeAt(root.children[k], path)
    ensures IsTextLeaf(root, [k] + path) <==> IsTextLeaf(root.children[k], path)
  {
    assert ([k] + path)[1..] == path;
  }

  lemma ChildOrder(k: nat, p: seq<nat>, q: seq<nat>)
    ensures Before([k] + p, [k] + q) <==> Before(p, q)
  {
    assert ([k] + p)[1..] == p && ([k] + q)[1..] == q;
  }

  lemma ChildHas(root: LayoutNode, k: nat, here: seq<seq<nat>>, rects: seq<Rect>, later: seq<seq<nat>>, rest: seq<Rect>,
                 path: seq<nat>)
    requires k < |root.children| && Lists(root.children[k], here, rects) && ListsFrom(root, k + 1, later, rest)
    requires IsTextLeaf(root, path) && path != [] && path[0] >= k
    ensures path in Under(k, here) + later
  {
    if path[0] == k {
      assert path == [k] + path[1..];
      ChildPath(root, k, path[1..]);
      var i :| 0 <= i < |here| && here[i] == path[1..];
      assert Under(k, here)[i] == path;
    } else {
      assert path in later;
    }
  }

  lemma ChildJoins(root: LayoutNode, k: nat, here: seq<seq<nat>>, rects: seq<Rect>, later: seq<seq<nat>>, rest: seq<Rect>)
    requires k < |root.children| && Lists(root.children[k], here, rects) && ListsFrom(root, k + 1, later, rest)
    ensures ListsFrom(root, k, Under(k, here) + later, rects + rest)
  {
    var at, all := Under(k, here) + later, rects + rest;
    forall i | 0 <= i < |at|
      ensures at[i] != [] && at[i][0] >= k && IsTextLeaf(root, at[i]) && NodeAt(root, at[i]).value.rect == all[i]
    {
      if i < |here| {
        ChildPath(root, k, here[i]);
      }
    }
    forall i, j | 0 <= i < j < |at| ensures Before(at[i], at[j]) {
      if j < |here| {
        ChildOrder(k, here[i], here[j]);
      }
    }
    forall path | IsTextLeaf(root, path) && path != [] && path[0] >= k ensures path in at {
      ChildHas(root, k, here, rects, later, rest, path);
    }
  }

  /** The rectangles collected are those of all text leaves, in document order. */
  lemma {:induction false} LeavesAreListed(root: LayoutNode) returns (at: seq<seq<nat>>)
    ensures Lists(root, at, Leaves(root))
    decreases root, 1
  {
    if root.children == [] {
      ShowingText(root.text);
      at := if ShowsText(root) then [[]] else [];
      forall path | IsTextLeaf(root, path) ensures path in at {
        assert path == [];
      }
    } else {
      assert root.children[0..] == root.children;
      at := ChildrenAreListed(root, 0);
      forall path | IsTextLeaf(root, path) ensures path in at {
        assert path != [];
      }
    }
  }

  lemma {:induction false} ChildrenAreListed(root: LayoutNode, k: nat) returns (at: seq<seq<nat>>)
    requires k <= |root.children|
    ensures ListsFrom(root, k, at, LeavesOf(root.children[k..]))
    decreases root, 0, |root.children| - k
  {
    if k == |root.children| {
      at := [];
      assert root.children[k..] == [];
      assert forall path :: path != [] && path[0] >= k ==> NodeAt(root, path).None?;
    } else {
      var here := LeavesAreListed(root.children[k]);
      var later := ChildrenAreListed(root, k + 1);
      assert root.children[k..][0] == root.children[k] && root.children[k..][1..] == root.children[k + 1..];
      ChildJoins(root, k, here, Leaves(root.children[k]), later, LeavesOf(root.children[k + 1..]));
      at := Under(k, here) + later;
    }
  }

  // ---- What two rectangles share --------------------------------------------------------------

  predicate Between(lo: real, length: real, x: real) {
    lo <= x <= lo + length
  }

  /** The points two stretches have in common are one stretch. */
  ghost predicate Common(lo: real, length: real, lo1: real, length1: real, lo2: real, length2: real) {
    forall x: real :: Between(lo, length, x) <==> Between(lo1, length1, x) && Between(lo2, length2, x)
  }

  /** `box` is what `a` and `b` have in common. */
  ghost predicate Shared(a: Rect, b: Rect, box: Rect) {
    && box.width >= 0.0 && box.height >= 0.0
    && Common(box.x, box.width, a.x, a.width, b.x, b.width) && Common(box.y, box.height, a.y, a.height, b.y, b.height)
  }

  lemma CommonIs(lo: real, length: real, lo1: real, length1: real, lo2: real, length2: real)
    requires length >= 0.0 && Common(lo, length, lo1, length1, lo2, length2)
    ensures length == Min(lo1 + length1, lo2 + length2) - Max(lo1, lo2)
  {
    var from, to := Max(lo1, lo2), Min(lo1 + length1, lo2 + length2);
    assert Between(lo, length, lo) && Between(lo, length, lo + length);
    assert Between(lo1, length1, from) && Between(lo2, length2, from);
    assert Between(lo1, length1, to) && Between(lo2, length2, to);
    assert Between(lo, length, from) && Between(lo, length, to);
  }

  /**
   * Two rectangles collide if and only if what they have in common is wider and higher than five units and
   * more than half as large as the smaller of them; that area is what the pair adds.
   */
  lemma CollisionIsSharedArea(a: Rect, b: Rect, box: Rect)
    requires Shared(a, b, box)
    ensures var large := box.width > 5.0 && box.height > 5.0
                         && (2.0 * (box.width * box.height) > a.width * a.height
                             || 2.0 * (box.width * box.height) > b.width * b.height);
            Pair(a, b) == if large then Tally(1, box.width * box.height) else Tally(0, 0.0)
  {
    CommonIs(box.x, box.width, a.x, a.width, b.x, b.width);
    CommonIs(box.y, box.height, a.y, a.height, b.y, b.height);
  }

  /** Rectangles without a point in common do not collide, and all others share a rectangle. */
  lemma SharedOrApart(a: Rect, b: Rect) returns (box: Rect)
    requires a.width >= 0.0 && a.height >= 0.0 && b.width >= 0.0 && b.height >= 0.0
    ensures Shared(a, b, box)
            || (Pair(a, b) == Tally(0, 0.0)
                && ((forall x :: !(Between(a.x, a.width, x) && Between(b.x, b.width, x)))
                    || forall y :: !(Between(a.y, a.height, y) && Between(b.y, b.height, y))))
  {
    box := Rect(Max(a.x, b.x), Max(a.y, b.y), OverlapX(a, b), OverlapY(a, b));
  }

  /** The score times the area of all rectangles is the colliding area, or all of it if that is less. */
  lemma ScoreIsTheShare(overlap: real, total: real)
    requires overlap >= 0.0
    ensures total > 0.0 ==> Score(overlap, total) * total == if overlap <= total then overlap else total
    ensures total <= 0.0 ==> Score(overlap, total) == 0.0
  {
  }
}
