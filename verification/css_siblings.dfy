/** Sibling combinators: where the walk finds what they mean, and where it does not. */
module CssSiblings {
  import opened CssMatching

  predicate IsSiblingCombinator(c: Combinator) {
    c == AdjacentSibling || c == GeneralSibling
  }

  /** One sibling combinator, directly before the subject, and child and descendant combinators before it. */
  predicate SiblingChain<C>(s: Selector<C>) {
    && |s.components| >= 2 && IsSiblingCombinator(CombinatorAt(s, |s.components| - 2))
    && forall i :: 0 <= i < |s.components| - 2 ==> CombinatorAt(s, i) in {Child, Descendant}
  }

  /** The chain up to the sibling. */
  function UpToSibling<C>(s: Selector<C>): (t: Selector<C>)
    requires |s.components| >= 2
  {
    var n := |s.components| - 2;
    Selector(s.components[..n + 1], seq(n, i requires 0 <= i < n => CombinatorAt(s, i)))
  }

  /** An earlier sibling the combinator means, and ancestors, which it shares with the subject, for the rest. */
  ghost predicate MeansSibling<C>(s: Selector<C>, scene: Scene<C>)
    requires |s.components| >= 2
  {
    var n := |s.components| - 2;
    && scene.isSubject(s.components[n + 1])
    && (exists k :: 0 <= k < scene.siblings && scene.isSibling(s.components[n], k)
                    && (CombinatorAt(s, n) == AdjacentSibling ==> k + 1 == scene.siblings))
    && exists at :: Assigns(UpToSibling(s), scene, n, -1, at)
  }

  lemma {:induction false} SameWalk<C>(s: Selector<C>, t: Selector<C>, scene: Scene<C>, k: nat, cursor: nat)
    requires |s.components| >= 2 && t == UpToSibling(s) && k < |t.components|
    ensures GreedyFrom(s, scene, k, cursor) <==> GreedyFrom(t, scene, k, cursor)
  {
    if k > 0 {
      assert t.components[k - 1] == s.components[k - 1] && CombinatorAt(t, k - 1) == CombinatorAt(s, k - 1);
      SameWalk(s, t, scene, k - 1, cursor);
      SameWalk(s, t, scene, k - 1, cursor + 1);
      SameWalk(s, t, scene, k - 1, Nearest(scene, s.components[k - 1], cursor) + 1);
    }
  }

  lemma UpperIsChain<C>(s: Selector<C>, t: Selector<C>)
    requires SiblingChain(s) && t == UpToSibling(s)
    ensures AncestorChain(t) && |t.components| == |s.components| - 1
  {
    forall i | 0 <= i < |t.components| - 1 ensures CombinatorAt(t, i) in {Child, Descendant} {
      assert CombinatorAt(t, i) == CombinatorAt(s, i);
    }
  }

  /** On such chains the walk decides the meaning, under the same condition on the combinators before the sibling. */
  lemma OneSiblingIsDecided<C>(s: Selector<C>, scene: Scene<C>)
    requires SiblingChain(s) && GoodShape(UpToSibling(s))
    ensures Greedy(s, scene) <==> MeansSibling(s, scene)
  {
    var n, t := |s.components| - 2, UpToSibling(s);
    UpperIsChain(s, t);
    SameWalk(s, t, scene, n, 0);
    if Greedy(s, scene) {
      var at := GreedyAssigns(t, scene, n, 0);
    }
    if MeansSibling(s, scene) {
      var at :| Assigns(t, scene, n, -1, at);
      AssignedIsFound(t, scene, n, 0, at);
    }
  }

  /** Where each compound of a chain of sibling combinators sits among the subject's earlier siblings. */
  ghost predicate Sit<C>(s: Selector<C>, scene: Scene<C>, at: seq<int>) {
    |at| + 1 == |s.components| && forall i :: 0 <= i < |at| ==> SitsAt(s, scene, at, i)
  }

  predicate SitsAt<C>(s: Selector<C>, scene: Scene<C>, at: seq<int>, i: nat)
    requires i < |at| < |s.components|
  {
    var next := if i + 1 < |at| then at[i + 1] else scene.siblings;
    && 0 <= at[i] < next && scene.isSibling(s.components[i], at[i])
    && (CombinatorAt(s, i) == AdjacentSibling ==> at[i] + 1 == next)
  }

  ghost predicate MeansSiblings<C>(s: Selector<C>, scene: Scene<C>)
    requires s.components != []
  {
    scene.isSubject(s.components[|s.components| - 1]) && exists at :: Sit(s, scene, at)
  }

  /** Three compounds joined by one sibling combinator. */
  function Three(c: Combinator): (s: Selector<int>) {
    Selector([0, 1, 2], [c, c])
  }

  /** Two earlier siblings: compounds 0 and 1 in that order, or the other way round. */
  function Pair(inOrder: bool): (scene: Scene<int>) {
    Scene(0, 2, c => c == 2, (c, k) => false, (c: int, k: nat) => if inOrder then c == k else c + k == 1)
  }

  /** `a + b + c` is rejected in the document `a b c`: the walk looks for `a` where `b` is. */
  lemma TwoAdjacentAreMissed()
    ensures MeansSiblings(Three(AdjacentSibling), Pair(true)) && !Greedy(Three(AdjacentSibling), Pair(true))
  {
    var s, scene := Three(AdjacentSibling), Pair(true);
    assert Sit(s, scene, [0, 1]);
    assert CombinatorAt(s, 0) == AdjacentSibling && CombinatorAt(s, 1) == AdjacentSibling;
    assert !scene.isSibling(0, 1);
    assert !GreedyFrom(s, scene, 1, 0);
    assert !GreedyFrom(s, scene, 2, 0);
  }

  lemma OutOfOrder(at: seq<int>)
    requires |at| == 2
    ensures !(SitsAt(Three(GeneralSibling), Pair(false), at, 0) && SitsAt(Three(GeneralSibling), Pair(false), at, 1))
  {
  }

  /** `a ~ b ~ c` is accepted in the document `b a c`: the walk does not look for `a` before `b`. */
  lemma TwoGeneralAreConfused()
    ensures !MeansSiblings(Three(GeneralSibling), Pair(false)) && Greedy(Three(GeneralSibling), Pair(false))
  {
    var s, scene := Three(GeneralSibling), Pair(false);
    assert scene.isSibling(0, 1) && scene.isSibling(1, 0);
    assert AnySibling(scene, 0) && AnySibling(scene, 1);
    assert GreedyFrom(s, scene, 0, 0) && GreedyFrom(s, scene, 1, 0) && GreedyFrom(s, scene, 2, 0);
    forall at: seq<int> ensures !Sit(s, scene, at) {
      if |at| == 2 {
        OutOfOrder(at);
      }
    }
  }
}
