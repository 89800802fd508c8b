/** Right-to-left selector matching: the greedy walk against what a selector chain means. */
module CssMatching {
  datatype Combinator = Descendant | Child | AdjacentSibling | GeneralSibling

  /** A chain of compound selectors, the subject last; `combinators[i]` joins compound `i` to `i + 1`. */
  datatype Selector<!C> = Selector(components: seq<C>, combinators: seq<Combinator>)

  /**
   * Where an element sits: how many ancestors (nearest first) and earlier siblings (document order)
   * it has, and which compounds match it, each of those ancestors, and each of those siblings.
   */
  datatype Scene<!C> = Scene(
    ancestors: nat, siblings: nat, isSubject: C -> bool, isAncestor: (C, nat) -> bool, isSibling: (C, nat) -> bool)

  /** A missing combinator counts as the descendant combinator. */
  function CombinatorAt<C>(s: Selector<C>, i: nat): (c: Combinator) {
    if i < |s.combinators| then s.combinators[i] else Descendant
  }

  /** The nearest ancestor at or beyond `cursor` that a compound matches; the ancestor count if none does. */
  function Nearest<C>(scene: Scene<C>, compound: C, cursor: nat): (idx: nat)
    ensures idx < scene.ancestors ==> cursor <= idx && scene.isAncestor(compound, idx)
    ensures forall k :: cursor <= k < idx && k < scene.ancestors ==> !scene.isAncestor(compound, k)
    decreases scene.ancestors - cursor
  {
    if cursor >= scene.ancestors then scene.ancestors
    else if scene.isAncestor(compound, cursor) then cursor
    else Nearest(scene, compound, cursor + 1)
  }

  predicate AnySibling<C>(scene: Scene<C>, compound: C) {
    exists k :: 0 <= k < scene.siblings && scene.isSibling(compound, k)
  }

  /** The loop of `matches_context` with compounds `0..k` still to match and ancestors from `cursor` on unused. */
  predicate GreedyFrom<C>(s: Selector<C>, scene: Scene<C>, k: nat, cursor: nat)
    requires k <= |s.components|
    decreases k
  {
    k == 0 ||
    var compound := s.components[k - 1];
    match CombinatorAt(s, k - 1)
    case Child =>
      cursor < scene.ancestors && scene.isAncestor(compound, cursor) && GreedyFrom(s, scene, k - 1, cursor + 1)
    case Descendant =>
      var idx := Nearest(scene, compound, cursor);
      idx < scene.ancestors && GreedyFrom(s, scene, k - 1, idx + 1)
    case AdjacentSibling =>
      scene.siblings > 0 && scene.isSibling(compound, scene.siblings - 1) && GreedyFrom(s, scene, k - 1, cursor)
    case GeneralSibling => AnySibling(scene, compound) && GreedyFrom(s, scene, k - 1, cursor)
  }

  predicate Greedy<C>(s: Selector<C>, scene: Scene<C>)
    requires s.components != []
  {
    var last := |s.components| - 1;
    scene.isSubject(s.components[last]) && GreedyFrom(s, scene, last, 0)
  }

  method MatchesContext<C>(s: Selector<C>, scene: Scene<C>) returns (matched: bool)
    requires s.components != []
    ensures matched <==> Greedy(s, scene)
  {
    var last := |s.components| - 1;
    if !scene.isSubject(s.components[last]) {
      return false;
    }
    var cursor: nat := 0;
    var k: nat := last;
    while k > 0
      invariant k <= last
      invariant GreedyFrom(s, scene, last, 0) <==> GreedyFrom(s, scene, k, cursor)
    {
      var compound := s.components[k - 1];
      match CombinatorAt(s, k - 1) {
        case Child =>
          if cursor >= scene.ancestors || !scene.isAncestor(compound, cursor) {
            return false;
          }
          cursor := cursor + 1;
        case Descendant =>
          var idx: nat := cursor;
          while idx < scene.ancestors && !scene.isAncestor(compound, idx)
            invariant cursor <= idx
            invariant Nearest(scene, compound, cursor) == Nearest(scene, compound, idx)
          {
            idx := idx + 1;
          }
          if idx >= scene.ancestors {
            return false;
          }
          cursor := idx + 1;
        case AdjacentSibling =>
          if scene.siblings == 0 || !scene.isSibling(compound, scene.siblings - 1) {
            return false;
          }
        case GeneralSibling =>
          if !AnySibling(scene, compound) {
            return false;
          }
      }
      k := k - 1;
    }
    return true;
  }

  // ---- What a chain of child and descendant combinators means ------------------------------

  predicate AncestorChain<C>(s: Selector<C>) {
    s.components != [] && forall i :: 0 <= i < |s.components| - 1 ==> CombinatorAt(s, i) in {Child, Descendant}
  }

  /** Where compound `i` may sit when compound `i + 1` sits at ancestor `right` (-1 is the element itself). */
  predicate Joined(c: Combinator, left: int, right: int) {
    if c == Child then left == right + 1 else left > right
  }

  /** The position of the compound to the right of compound `i`. */
  function RightOf(at: seq<int>, right: int, i: nat): (p: int)
    requires i < |at|
  {
    if i + 1 < |at| then at[i + 1] else right
  }

  /** `at` puts compound `i < k` on an ancestor it matches, every two neighbours joined, starting from `right`. */
  ghost predicate Assigns<C>(s: Selector<C>, scene: Scene<C>, k: nat, right: int, at: seq<int>)
    requires k < |s.components|
  {
    && |at| == k
    && (forall i :: 0 <= i < k ==> 0 <= at[i] < scene.ancestors && scene.isAncestor(s.components[i], at[i]))
    && (forall i :: 0 <= i < k ==> Joined(CombinatorAt(s, i), at[i], RightOf(at, right, i)))
  }

  /** The element matches the chain: the subject matches it, and some ancestors match the rest. */
  ghost predicate Means<C>(s: Selector<C>, scene: Scene<C>)
    requires s.components != []
  {
    var last := |s.components| - 1;
    scene.isSubject(s.components[last]) && exists at :: Assigns(s, scene, last, -1, at)
  }

  lemma {:induction false} GreedyAssigns<C>(s: Selector<C>, scene: Scene<C>, k: nat, cursor: nat) returns (at: seq<int>)
    requires AncestorChain(s) && k < |s.components| && GreedyFrom(s, scene, k, cursor)
    ensures Assigns(s, scene, k, cursor - 1, at)
  {
    if k == 0 {
      return [];
    }
    var here := if CombinatorAt(s, k - 1) == Child then cursor else Nearest(scene, s.components[k - 1], cursor);
    assert CombinatorAt(s, k - 1) in {Child, Descendant};
    var front := GreedyAssigns(s, scene, k - 1, here + 1);
    at := front + [here];
    AssignMore(s, scene, k, cursor - 1, front, here);
  }

  lemma AssignMore<C>(s: Selector<C>, scene: Scene<C>, k: nat, right: int, front: seq<int>, here: int)
    requires 0 < k < |s.components| && Assigns(s, scene, k - 1, here, front)
    requires 0 <= here < scene.ancestors && scene.isAncestor(s.components[k - 1], here)
    requires Joined(CombinatorAt(s, k - 1), here, right)
    ensures Assigns(s, scene, k, right, front + [here])
  {
    var at := front + [here];
    forall i | 0 <= i < k - 1 ensures RightOf(at, right, i) == RightOf(front, here, i) {}
  }

  /** Soundness, for every chain: whatever the greedy walk accepts, the chain means. */
  lemma GreedyIsSound<C>(s: Selector<C>, scene: Scene<C>)
    requires AncestorChain(s) && Greedy(s, scene)
    ensures Means(s, scene)
  {
    var at := GreedyAssigns(s, scene, |s.components| - 1, 0);
  }

  /** Read right to left, no child combinator follows a descendant combinator. */
  predicate GoodShape<C>(s: Selector<C>) {
    forall i :: 0 <= i < |s.components| - 2 && CombinatorAt(s, i + 1) == Descendant ==> CombinatorAt(s, i) == Descendant
  }

  lemma AssignsPrefix<C>(s: Selector<C>, scene: Scene<C>, k: nat, right: int, at: seq<int>)
    requires 0 < k < |s.components| && Assigns(s, scene, k, right, at)
    ensures Assigns(s, scene, k - 1, at[k - 1], at[..k - 1])
  {
    forall i | 0 <= i < k - 1 ensures RightOf(at[..k - 1], at[k - 1], i) == RightOf(at, right, i) {}
  }

  /** Exchange: starting no later than an assignment does, descendant-only compounds are found. */
  lemma {:induction false} EarlierIsEnough<C>(s: Selector<C>, scene: Scene<C>, k: nat, cursor: nat, right: int, at: seq<int>)
    requires k < |s.components| && Assigns(s, scene, k, right, at) && cursor <= right + 1
    requires forall i :: 0 <= i < k ==> CombinatorAt(s, i) == Descendant
    ensures GreedyFrom(s, scene, k, cursor)
  {
    if k > 0 {
      var idx := Nearest(scene, s.components[k - 1], cursor);
      assert Joined(CombinatorAt(s, k - 1), at[k - 1], RightOf(at, right, k - 1));
      assert idx <= at[k - 1];
      AssignsPrefix(s, scene, k, right, at);
      EarlierIsEnough(s, scene, k - 1, idx + 1, at[k - 1], at[..k - 1]);
    }
  }

  lemma {:induction false} DescendantsBelow<C>(s: Selector<C>, i: nat, j: nat)
    requires GoodShape(s) && j <= i < |s.components| - 1 && CombinatorAt(s, i) == Descendant
    ensures CombinatorAt(s, j) == Descendant
    decreases i - j
  {
    if j < i {
      assert CombinatorAt(s, (i - 1) + 1) == Descendant;
      DescendantsBelow(s, i - 1, j);
    }
  }

  lemma {:induction false} AssignedIsFound<C>(s: Selector<C>, scene: Scene<C>, k: nat, cursor: nat, at: seq<int>)
    requires AncestorChain(s) && GoodShape(s) && k < |s.components| && Assigns(s, scene, k, cursor - 1, at)
    ensures GreedyFrom(s, scene, k, cursor)
  {
    if k > 0 {
      if CombinatorAt(s, k - 1) == Descendant {
        forall i | 0 <= i < k ensures CombinatorAt(s, i) == Descendant {
          DescendantsBelow(s, k - 1, i);
        }
        EarlierIsEnough(s, scene, k, cursor, cursor - 1, at);
      } else {
        assert CombinatorAt(s, k - 1) == Child;
        assert Joined(CombinatorAt(s, k - 1), at[k - 1], RightOf(at, cursor - 1, k - 1));
        AssignsPrefix(s, scene, k, cursor - 1, at);
        AssignedIsFound(s, scene, k - 1, cursor + 1, at[..k - 1]);
      }
    }
  }

  /** Completeness for every chain in which, right to left, no child combinator follows a descendant one. */
  lemma GreedyIsComplete<C>(s: Selector<C>, scene: Scene<C>)
    requires AncestorChain(s) && GoodShape(s)
    ensures Greedy(s, scene) <==> Means(s, scene)
  {
    if Greedy(s, scene) {
      GreedyIsSound(s, scene);
    }
    if Means(s, scene) {
      var at :| Assigns(s, scene, |s.components| - 1, -1, at);
      AssignedIsFound(s, scene, |s.components| - 1, 0, at);
    }
  }

  // ---- The other shapes -------------------------------------------------------------------

  /**
   * The scene that defeats a chain whose compound `i` is the child of a descendant: every compound
   * matches one ancestor, except that compound `i + 1` also matches the one before its own.
   */
  function Decoy(n: nat, i: nat): (scene: Scene<nat>) {
    Scene(n, 0, c => c == n - 1,
          (c, idx) => if c > i + 1 then c + idx == n - 2
                      else if c == i + 1 then c + idx == n - 2 || c + idx == n - 1
                      else c + idx == n - 1,
          (c, idx) => false)
  }

  function Chain(combinators: seq<Combinator>): (s: Selector<nat>) {
    Selector(seq(|combinators| + 1, j => j), combinators)
  }

  lemma {:induction false} DecoyIsTaken(combinators: seq<Combinator>, i: nat, k: nat)
    requires i + 1 < |combinators| && i + 1 < k <= |combinators|
    requires forall c <- combinators :: c in {Child, Descendant}
    requires combinators[i] == Child && combinators[i + 1] == Descendant
    ensures !GreedyFrom(Chain(combinators), Decoy(|combinators| + 1, i), k, |combinators| - k)
  {
    var s, scene := Chain(combinators), Decoy(|combinators| + 1, i);
    assert s.components[k - 1] == k - 1 && combinators[k - 1] in combinators;
    assert scene.isAncestor(k - 1, |combinators| - k);
    assert Nearest(scene, k - 1, |combinators| - k) == |combinators| - k;
    if k - 1 == i + 1 {
      assert s.components[i] == i;
      assert !GreedyFrom(s, scene, k - 1, |combinators| - k + 1);
    } else {
      DecoyIsTaken(combinators, i, k - 1);
    }
  }

  /** Where the chain's compounds really are. */
  function DecoyAt(n: nat, i: nat, k: nat): (at: int) {
    if k > i + 1 then n - 2 - k else n - 1 - k
  }

  lemma DecoySpot(n: nat, i: nat, k: nat)
    requires i + 2 < n && k < n - 1
    ensures 0 <= DecoyAt(n, i, k) < n && Decoy(n, i).isAncestor(k, DecoyAt(n, i, k))
  {
  }

  lemma DecoyJoin(combinators: seq<Combinator>, i: nat, at: seq<int>, k: nat)
    requires i + 1 < |combinators| && combinators[i] == Child && combinators[i + 1] == Descendant
    requires |at| == |combinators| && k < |at|
    requires forall j :: 0 <= j < |at| ==> at[j] == DecoyAt(|combinators| + 1, i, j)
    ensures Joined(CombinatorAt(Chain(combinators), k), at[k], RightOf(at, -1, k))
  {
    assert CombinatorAt(Chain(combinators), k) == combinators[k];
  }

  lemma DecoyIsMeant(combinators: seq<Combinator>, i: nat)
    requires i + 1 < |combinators| && combinators[i] == Child && combinators[i + 1] == Descendant
    ensures Means(Chain(combinators), Decoy(|combinators| + 1, i))
  {
    var s, n := Chain(combinators), |combinators| + 1;
    var at := seq(n - 1, j requires 0 <= j < n - 1 => DecoyAt(n, i, j));
    forall k | 0 <= k < n - 1
      ensures 0 <= at[k] < n && Decoy(n, i).isAncestor(s.components[k], at[k])
      ensures Joined(CombinatorAt(s, k), at[k], RightOf(at, -1, k))
    {
      DecoySpot(n, i, k);
      DecoyJoin(combinators, i, at, k);
    }
    assert Assigns(s, Decoy(n, i), n - 1, -1, at);
  }

  /** A document the chain means but the walk rejects. */
  ghost predicate Defeats(combinators: seq<Combinator>, scene: Scene<nat>) {
    Means(Chain(combinators), scene) && !Greedy(Chain(combinators), scene)
  }

  lemma DecoyDefeats(combinators: seq<Combinator>, i: nat)
    requires i + 1 < |combinators| && (forall c <- combinators :: c in {Child, Descendant})
    requires combinators[i] == Child && combinators[i + 1] == Descendant
    ensures Defeats(combinators, Decoy(|combinators| + 1, i))
  {
    DecoyIsTaken(combinators, i, |combinators|);
    DecoyIsMeant(combinators, i);
  }

  /** The shortest case: `a > b c` in the document `a > b > b > c`. */
  lemma MatchIsMissed()
    ensures Defeats([Child, Descendant], Decoy(3, 0))
  {
    DecoyDefeats([Child, Descendant], 0);
  }

  /**
   * Every other shape fails for some compounds and some document: if, right to left, a child combinator
   * follows a descendant one anywhere in the list, there is a scene the chain means but the walk rejects.
   */
  lemma OtherShapesFail(combinators: seq<Combinator>)
    requires forall c <- combinators :: c in {Child, Descendant}
    requires !GoodShape(Chain(combinators))
    ensures exists scene :: Defeats(combinators, scene)
  {
    var s := Chain(combinators);
    var i :| 0 <= i < |s.components| - 2 && CombinatorAt(s, i + 1) == Descendant && CombinatorAt(s, i) != Descendant;
    assert combinators[i] in combinators;
    DecoyDefeats(combinators, i);
  }
}
