/** Structural pseudo-classes: An+B arithmetic and the one-pass loop that counts siblings. */
module CssStructure {
  import opened Division
  import opened MachineInts

  const I32_LIMIT := 0x8000_0000
  const MAX_PREVIOUS_SIBLINGS := 64

  // ---- An+B -------------------------------------------------------------------------------

  /** The cast from a machine index to 32 signed bits: the low 32 bits, as two's complement. */
  function AsI32(index: nat): (v: int) {
    var low := index % U32_LIMIT;
    if low >= I32_LIMIT then low - U32_LIMIT else low
  }

  /** Rust's remainder takes the sign of the dividend. */
  function Rem(x: int, y: int): (r: int)
    requires y != 0
  {
    var m := if y > 0 then y else -y;
    if x >= 0 then x % m else -((-x) % m)
  }

  predicate EvalNth(a: int, b: int, index: nat) {
    var i := AsI32(index);
    if a == 0 then i == b
    else if a > 0 then i - b >= 0 && Rem(i - b, a) == 0
    else i - b <= 0 && Rem(i - b, a) == 0
  }

  /** Some `n >= 0` has `a * n + b = i`. */
  ghost predicate IsNth(a: int, b: int, i: int) {
    exists n: nat :: a * n + b == i
  }

  lemma MultipleHasQuotient(x: nat, m: nat) returns (n: nat)
    requires m > 0 && x % m == 0
    ensures m * n == x
  {
    n := x / m;
  }

  /** `eval_nth` decides An+B for the index it casts. */
  lemma EvalNthIsNth(a: int, b: int, index: nat)
    ensures EvalNth(a, b, index) <==> IsNth(a, b, AsI32(index))
  {
    var i := AsI32(index);
    var m: nat := if a >= 0 then a else -a;
    if EvalNth(a, b, index) {
      if a == 0 {
        assert a * 0 + b == i;
      } else {
        var n := MultipleHasQuotient(if a > 0 then i - b else b - i, m);
        assert a * n + b == i;
      }
    }
    if IsNth(a, b, i) {
      var n: nat :| a * n + b == i;
      if a != 0 {
        ExactMultiple(n, m);
        assert if a > 0 then i - b == n * m else b - i == n * m;
      }
    }
  }

  /**
   * `eval_nth` means An+B of the index itself, for all 32-bit coefficients, if and only if the index
   * fits 31 bits; beyond that the cast wraps.
   */
  lemma NthIsExactUpTo31Bits(index: nat)
    ensures (forall a, b :: -I32_LIMIT <= a < I32_LIMIT && -I32_LIMIT <= b < I32_LIMIT ==>
               (EvalNth(a, b, index) <==> IsNth(a, b, index)))
            <==> index < I32_LIMIT
  {
    forall a, b ensures EvalNth(a, b, index) <==> IsNth(a, b, AsI32(index)) {
      EvalNthIsNth(a, b, index);
    }
    if index >= I32_LIMIT {
      var b := AsI32(index);
      assert EvalNth(0, b, index);
      assert !IsNth(0, b, index);
    }
  }

  /** The first child past the limit matches `:nth-child(-2147483648)`, as no element should. */
  lemma NthPastTheLimit()
    ensures EvalNth(0, -I32_LIMIT, I32_LIMIT) && !IsNth(0, -I32_LIMIT, I32_LIMIT)
  {
    EvalNthIsNth(0, -I32_LIMIT, I32_LIMIT);
  }

  // ---- Sibling facts ------------------------------------------------------------------------

  /** What the cascade knows about a child: its place among all siblings and among those of its tag. */
  datatype Facts = Facts(
    index: nat, after: nat, total: nat, typeIndex: nat, typeTotal: nat, previous: seq<string>)

  function Count(tags: seq<string>, tag: string): (n: nat)
    ensures n <= |tags|
  {
    if tags == [] then 0 else Count(tags[..|tags| - 1], tag) + if tags[|tags| - 1] == tag then 1 else 0
  }

  /** The declarative facts of child `i`. */
  function FactsOf(tags: seq<string>, i: nat): (f: Facts)
    requires i < |tags|
  {
    Facts(i + 1, |tags| - i - 1, |tags|, Count(tags[..i], tags[i]) + 1, Count(tags, tags[i]),
          tags[if i >= MAX_PREVIOUS_SIBLINGS then i - MAX_PREVIOUS_SIBLINGS else 0..i])
  }

  function Lookup(m: map<string, nat>, tag: string, default: nat): (n: nat) {
    if tag in m then m[tag] else default
  }

  ghost predicate Counts(m: map<string, nat>, tags: seq<string>) {
    forall tag :: Lookup(m, tag, 0) == Count(tags, tag)
  }

  lemma CountOneMore(tags: seq<string>, i: nat, tag: string)
    requires i < |tags|
    ensures Count(tags[..i + 1], tag) == Count(tags[..i], tag) + if tags[i] == tag then 1 else 0
  {
    assert tags[..i + 1][..i] == tags[..i];
  }

  lemma CountsGrow(m: map<string, nat>, tags: seq<string>, i: nat)
    requires i < |tags| && Counts(m, tags[..i])
    ensures Lookup(m, tags[i], 0) == Count(tags[..i], tags[i])
    ensures Counts(m[tags[i] := Lookup(m, tags[i], 0) + 1], tags[..i + 1])
  {
    var grown := m[tags[i] := Lookup(m, tags[i], 0) + 1];
    forall tag ensures Lookup(grown, tag, 0) == Count(tags[..i + 1], tag) {
      CountOneMore(tags, i, tag);
      assert Lookup(m, tag, 0) == Count(tags[..i], tag);
    }
  }

  method CountTypes(tags: seq<string>) returns (counts: map<string, nat>)
    ensures Counts(counts, tags)
  {
    counts := map[];
    for i := 0 to |tags|
      invariant Counts(counts, tags[..i])
    {
      CountsGrow(counts, tags, i);
      counts := counts[tags[i] := Lookup(counts, tags[i], 0) + 1];
    }
    assert tags[..|tags|] == tags;
  }

  lemma {:induction false} CountAtLeastOne(tags: seq<string>, i: nat)
    requires i < |tags|
    ensures Count(tags, tags[i]) > 0
  {
    if i < |tags| - 1 {
      CountAtLeastOne(tags[..|tags| - 1], i);
    }
  }

  /** The one pass over the children: running counts and a growing list of earlier siblings. */
  method SiblingFacts(tags: seq<string>) returns (facts: seq<Facts>)
    ensures |facts| == |tags|
    ensures forall i :: 0 <= i < |tags| ==> facts[i] == FactsOf(tags, i)
  {
    var typeCounts := CountTypes(tags);
    var typeSeen: map<string, nat> := map[];
    var summaries: seq<string> := [];
    facts := [];
    for i := 0 to |tags|
      invariant summaries == tags[..i] && |facts| == i
      invariant Counts(typeSeen, tags[..i])
      invariant forall j :: 0 <= j < i ==> facts[j] == FactsOf(tags, j)
    {
      var seen := Lookup(typeSeen, tags[i], 0) + 1;
      CountsGrow(typeSeen, tags, i);
      typeSeen := typeSeen[tags[i] := seen];
      var start := if |summaries| >= MAX_PREVIOUS_SIBLINGS then |summaries| - MAX_PREVIOUS_SIBLINGS else 0;
      assert tags[i] in typeCounts by {
        CountAtLeastOne(tags, i);
        assert Lookup(typeCounts, tags[i], 0) > 0;
      }
      facts := facts + [Facts(i + 1, |tags| - i - 1, |tags|, seen, Lookup(typeCounts, tags[i], 1), summaries[start..])];
      assert summaries[start..] == tags[start..i];
      summaries := summaries + [tags[i]];
    }
  }

  // ---- Pseudo-classes -----------------------------------------------------------------------

  datatype Structural =
    | FirstChild | LastChild | OnlyChild
    | FirstOfType | LastOfType | OnlyOfType
    | NthChild(a: int, b: int) | NthLastChild(a: int, b: int)
    | NthOfType(a: int, b: int) | NthLastOfType(a: int, b: int)

  function AtLeastOne(n: nat): (r: nat) {
    if n < 1 then 1 else n
  }

  predicate MatchPseudoClass(pc: Structural, f: Facts) {
    var index, typeIndex := AtLeastOne(f.index), AtLeastOne(f.typeIndex);
    match pc
    case FirstChild => index == 1
    case LastChild => f.after == 0 && f.total > 0
    case OnlyChild => f.total == 1
    case FirstOfType => typeIndex == 1
    case LastOfType => f.typeTotal > 0 && typeIndex == f.typeTotal
    case OnlyOfType => f.typeTotal == 1
    case NthChild(a, b) => EvalNth(a, b, index)
    case NthLastChild(a, b) => EvalNth(a, b, f.after + 1)
    case NthOfType(a, b) => EvalNth(a, b, typeIndex)
    case NthLastOfType(a, b) => EvalNth(a, b, (if f.typeTotal >= typeIndex then f.typeTotal - typeIndex else 0) + 1)
  }

  /**
   * Section 6.6.5 of Selectors Level 3: each class in terms of the siblings before and after the child,
   * all of them or those of its own tag; An+B is counted from one.
   */
  ghost predicate Defines(pc: Structural, tags: seq<string>, i: nat)
    requires i < |tags|
  {
    var before, after := i, |tags| - i - 1;
    var typeBefore, typeAfter := Count(tags[..i], tags[i]), Count(tags[i + 1..], tags[i]);
    match pc
    case FirstChild => before == 0
    case LastChild => after == 0
    case OnlyChild => before == 0 && after == 0
    case FirstOfType => typeBefore == 0
    case LastOfType => typeAfter == 0
    case OnlyOfType => typeBefore == 0 && typeAfter == 0
    case NthChild(a, b) => IsNth(a, b, before + 1)
    case NthLastChild(a, b) => IsNth(a, b, after + 1)
    case NthOfType(a, b) => IsNth(a, b, typeBefore + 1)
    case NthLastOfType(a, b) => IsNth(a, b, typeAfter + 1)
  }

  lemma {:induction false} CountSplits(tags: seq<string>, i: nat, tag: string)
    requires i < |tags|
    ensures Count(tags, tag)
            == Count(tags[..i], tag) + (if tags[i] == tag then 1 else 0) + Count(tags[i + 1..], tag)
  {
    if i + 1 == |tags| {
      assert tags[..|tags| - 1] == tags[..i] && tags[i + 1..] == [];
    } else {
      var front := tags[..|tags| - 1];
      CountSplits(front, i, tag);
      assert front[..i] == tags[..i];
      assert tags[i + 1..][..|tags| - i - 2] == front[i + 1..];
    }
  }

  lemma SmallIndexIsExact(a: int, b: int, index: nat)
    requires index < I32_LIMIT
    ensures EvalNth(a, b, index) <==> IsNth(a, b, index)
  {
    EvalNthIsNth(a, b, index);
    assert AsI32(index) == index;
  }

  /** The loop's counts in terms of the siblings on either side. */
  lemma FactsCount(tags: seq<string>, i: nat)
    requires i < |tags|
    ensures var f := FactsOf(tags, i);
            && AtLeastOne(f.index) == i + 1 && f.after == |tags| - i - 1
            && AtLeastOne(f.typeIndex) == f.typeIndex == Count(tags[..i], tags[i]) + 1
            && f.typeTotal - f.typeIndex == Count(tags[i + 1..], tags[i])
  {
    CountSplits(tags, i, tags[i]);
  }

  /** On the facts the one-pass loop gathers, every structural pseudo-class means what its definition says. */
  lemma PseudoClassesMeanTheirDefinitions(pc: Structural, tags: seq<string>, i: nat)
    requires i < |tags| < I32_LIMIT
    ensures MatchPseudoClass(pc, FactsOf(tags, i)) <==> Defines(pc, tags, i)
  {
    FactsCount(tags, i);
    match pc {
      case NthChild(a, b) => SmallIndexIsExact(a, b, i + 1);
      case NthLastChild(a, b) => SmallIndexIsExact(a, b, |tags| - i);
      case NthOfType(a, b) => SmallIndexIsExact(a, b, Count(tags[..i], tags[i]) + 1);
      case NthLastOfType(a, b) => SmallIndexIsExact(a, b, Count(tags[i + 1..], tags[i]) + 1);
      case _ =>
    }
  }
}
