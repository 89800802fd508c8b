/** The cascade: matched declarations are sorted by rank and applied in that order. */
module CssCascade {
  import opened MachineInts
  import opened Wrappers

  const MAX_CUSTOM_PROPERTIES := 256

  datatype Origin = UserAgent | User | Author

  datatype Specificity = Specificity(ids: nat, classes: nat, tags: nat)

  datatype Declaration = Declaration(property: string, value: string, important: bool, sourceOrder: nat)

  /** Whether one selector of a rule matches the element, and its specificity. */
  datatype SelectorMatch = SelectorMatch(matches: bool, specificity: Specificity)

  datatype Rule = Rule(
    selectors: seq<SelectorMatch>, declarations: seq<Declaration>, origin: Origin, layer: Option<nat>)

  datatype Matched = Matched(
    decl: Declaration, origin: Origin, layer: Option<nat>, specificity: Specificity, sourceOrder: nat, inlined: bool)

  // ---- Rank -------------------------------------------------------------------------------

  predicate SpecificityLess(a: Specificity, b: Specificity) {
    || a.ids < b.ids
    || (a.ids == b.ids && a.classes < b.classes)
    || (a.ids == b.ids && a.classes == b.classes && a.tags < b.tags)
  }

  function Group(origin: Origin, important: bool, inlined: bool): (g: nat) {
    match (origin, important, inlined)
    case (UserAgent, true, _) => 8
    case (User, true, _) => 7
    case (Author, true, true) => 6
    case (Author, true, false) => 5
    case (Author, false, true) => 4
    case (Author, false, false) => 3
    case (User, false, _) => 2
    case (UserAgent, false, _) => 1
  }

  /** The layer component: a 32-bit word, so a layer number is cast and the subtraction wraps. */
  function LayerRank(important: bool, layer: Option<nat>): (r: nat) {
    if important then
      if layer.None? then 0 else (U32_MAX - 1 - layer.value % U32_LIMIT) % U32_LIMIT
    else
      if layer.None? then U32_MAX else layer.value % U32_LIMIT
  }

  datatype Rank = Rank(group: nat, layer: nat, specificity: Specificity, sourceOrder: nat)

  function RankOf(m: Matched): (r: Rank) {
    Rank(Group(m.origin, m.decl.important, m.inlined), LayerRank(m.decl.important, m.layer), m.specificity, m.sourceOrder)
  }

  /** Lexicographic comparison of rank tuples. */
  predicate Below(a: Rank, b: Rank) {
    || a.group < b.group
    || (a.group == b.group && a.layer < b.layer)
    || (a.group == b.group && a.layer == b.layer && SpecificityLess(a.specificity, b.specificity))
    || (a.group == b.group && a.layer == b.layer && a.specificity == b.specificity && a.sourceOrder < b.sourceOrder)
  }

  predicate Lower(a: Matched, b: Matched) {
    Below(RankOf(a), RankOf(b))
  }

  lemma LowerIsAnOrder(a: Matched, b: Matched, c: Matched)
    ensures !Lower(a, a)
    ensures Lower(a, b) && Lower(b, c) ==> Lower(a, c)
    ensures !Lower(a, b) && !Lower(b, c) ==> !Lower(a, c)
    ensures !Lower(a, b) && !Lower(b, a) ==> RankOf(a) == RankOf(b)
  {
  }

  // ---- Layers -----------------------------------------------------------------------------

  /** Later layers win over earlier ones, and unlayered declarations over every layer. */
  predicate LayerBefore(a: Option<nat>, b: Option<nat>) {
    a.Some? && (b.None? || a.value < b.value)
  }

  /** A layer number the 32-bit component can hold apart from the two values it uses for "unlayered". */
  predicate LayerFits(layer: Option<nat>) {
    layer.Some? ==> layer.value < U32_MAX - 1
  }

  /**
   * Section 6.4 of CSS Cascading and Inheritance Level 5, for layers: normal declarations rank in layer
   * order with unlayered ones highest, and `!important` reverses that order exactly.
   */
  lemma ImportantReversesLayers(a: Option<nat>, b: Option<nat>)
    requires LayerFits(a) && LayerFits(b)
    ensures LayerRank(false, a) < LayerRank(false, b) <==> LayerBefore(a, b)
    ensures LayerRank(true, a) < LayerRank(true, b) <==> LayerBefore(b, a)
  {
    FitsItsWord(a);
    FitsItsWord(b);
  }

  lemma FitsItsWord(layer: Option<nat>)
    requires LayerFits(layer)
    ensures LayerRank(false, layer) == (if layer.None? then U32_MAX else layer.value)
    ensures LayerRank(true, layer) == (if layer.None? then 0 else U32_MAX - 1 - layer.value)
  {
  }

  /** Layers up to number `top`, and unlayered declarations, rank as they should. */
  predicate LayersRankUpTo(top: nat) {
    && (forall a: nat, b: nat :: a <= top && b <= top ==> PairRanks(Some(a), Some(b)))
    && (forall a: nat :: a <= top ==> PairRanks(Some(a), None))
  }

  predicate PairRanks(a: Option<nat>, b: Option<nat>) {
    && (LayerRank(false, a) < LayerRank(false, b) <==> LayerBefore(a, b))
    && (LayerRank(true, a) < LayerRank(true, b) <==> LayerBefore(b, a))
    && (LayerRank(true, b) < LayerRank(true, a) <==> LayerBefore(a, b))
  }

  /** The limit is exact: the ranks are right for layers up to a number if and only if it is below the last two of 32 bits. */
  lemma LayerLimitIsExact(top: nat)
    ensures LayersRankUpTo(top) <==> LayerFits(Some(top))
  {
    if LayerFits(Some(top)) {
      forall a: nat, b: nat | a <= top && b <= top ensures PairRanks(Some(a), Some(b)) {
        ImportantReversesLayers(Some(a), Some(b));
        ImportantReversesLayers(Some(b), Some(a));
      }
      forall a: nat | a <= top ensures PairRanks(Some(a), None) {
        ImportantReversesLayers(Some(a), None);
        ImportantReversesLayers(None, Some(a));
      }
    } else {
      var spoiled: nat := U32_MAX - 1;
      assert spoiled <= top && !PairRanks(Some(spoiled), None);
    }
  }

  /** Layer 2^32 - 1 ties with unlayered declarations, and so does the layer before it among important ones. */
  lemma LastLayersTie()
    ensures LayerRank(false, Some(U32_MAX)) == LayerRank(false, None)
    ensures LayerRank(true, Some(U32_MAX - 1)) == LayerRank(true, None)
  {
  }

  // ---- Collecting matched declarations ------------------------------------------------------

  /** The highest specificity among a rule's matching selectors. */
  function Best(selectors: seq<SelectorMatch>): (s: Option<Specificity>) {
    if selectors == [] then None
    else
      var before, last := Best(selectors[..|selectors| - 1]), selectors[|selectors| - 1];
      if !last.matches then before
      else if before.None? || SpecificityLess(before.value, last.specificity) then Some(last.specificity)
      else before
  }

  lemma {:induction false} BestIsHighest(selectors: seq<SelectorMatch>)
    ensures Best(selectors).None? <==> forall i :: 0 <= i < |selectors| ==> !selectors[i].matches
    ensures Best(selectors).Some? ==>
              && (exists i :: 0 <= i < |selectors| && selectors[i].matches
                              && selectors[i].specificity == Best(selectors).value)
              && (forall i :: 0 <= i < |selectors| && selectors[i].matches ==>
                    !SpecificityLess(Best(selectors).value, selectors[i].specificity))
  {
    if selectors != [] {
      var front := selectors[..|selectors| - 1];
      BestIsHighest(front);
      forall i | 0 <= i < |front| ensures front[i] == selectors[i] {}
    }
  }

  method BestSpecificity(selectors: seq<SelectorMatch>) returns (best: Option<Specificity>)
    ensures best == Best(selectors)
  {
    best := None;
    assert selectors[..0] == [];
    for i := 0 to |selectors|
      invariant best == Best(selectors[..i])
    {
      assert selectors[..i + 1][..i] == selectors[..i];
      if selectors[i].matches {
        if best.None? || SpecificityLess(best.value, selectors[i].specificity) {
          best := Some(selectors[i].specificity);
        }
      }
    }
    assert selectors[..|selectors|] == selectors;
  }

  function RuleMatches(rule: Rule, index: nat): (s: seq<Matched>) {
    var best := Best(rule.selectors);
    if best.None? then []
    else seq(|rule.declarations|, i requires 0 <= i < |rule.declarations| =>
               var d := rule.declarations[i];
               Matched(d, rule.origin, rule.layer, best.value, index * 1000 + d.sourceOrder, false))
  }

  /** The declarations of the matching rules among the first `n`. */
  function FirstMatches(rules: seq<Rule>, n: nat): (s: seq<Matched>)
    requires n <= |rules|
  {
    if n == 0 then [] else FirstMatches(rules, n - 1) + RuleMatches(rules[n - 1], n - 1)
  }

  function RulesMatches(rules: seq<Rule>): (s: seq<Matched>) {
    FirstMatches(rules, |rules|)
  }

  function InlineOrder(i: nat): (n: nat) {
    SaturatingAdd(USIZE_MAX - 1_000, i)
  }

  function InlineMatches(inlined: seq<Declaration>): (s: seq<Matched>) {
    seq(|inlined|, i requires 0 <= i < |inlined| =>
          Matched(inlined[i], Author, None, Specificity(1, 0, 0), InlineOrder(i), true))
  }

  function AllMatches(rules: seq<Rule>, inlined: seq<Declaration>): (s: seq<Matched>) {
    RulesMatches(rules) + InlineMatches(inlined)
  }

  lemma OneMore(before: seq<Matched>, all: seq<Matched>, j: nat)
    requires j < |all|
    ensures before + all[..j] + [all[j]] == before + all[..j + 1]
  {
  }

  method CollectRule(before: seq<Matched>, rule: Rule, index: nat) returns (matched: seq<Matched>)
    ensures matched == before + RuleMatches(rule, index)
  {
    matched := before;
    var best := BestSpecificity(rule.selectors);
    if best.Some? {
      for j := 0 to |rule.declarations|
        invariant matched == before + RuleMatches(rule, index)[..j]
      {
        var d := rule.declarations[j];
        OneMore(before, RuleMatches(rule, index), j);
        matched := matched + [Matched(d, rule.origin, rule.layer, best.value, index * 1000 + d.sourceOrder, false)];
      }
    }
  }

  method CollectMatches(rules: seq<Rule>, inlined: seq<Declaration>) returns (matched: seq<Matched>)
    ensures matched == AllMatches(rules, inlined)
  {
    matched := [];
    for i := 0 to |rules|
      invariant matched == FirstMatches(rules, i)
    {
      matched := CollectRule(matched, rules[i], i);
    }
    for i := 0 to |inlined|
      invariant matched == RulesMatches(rules) + InlineMatches(inlined)[..i]
    {
      OneMore(RulesMatches(rules), InlineMatches(inlined), i);
      matched := matched + [Matched(inlined[i], Author, None, Specificity(1, 0, 0), InlineOrder(i), true)];
    }
  }

  // ---- Sorting ------------------------------------------------------------------------------

  function Insert(m: Matched, sorted: seq<Matched>): (s: seq<Matched>) {
    if sorted == [] || !Lower(sorted[0], m) then [m] + sorted else [sorted[0]] + Insert(m, sorted[1..])
  }

  /** `sort_by` on ranks: stable. */
  function SortByRank(list: seq<Matched>): (s: seq<Matched>) {
    if list == [] then [] else Insert(list[0], SortByRank(list[1..]))
  }

  ghost predicate Ranked(s: seq<Matched>) {
    forall i, j :: 0 <= i < j < |s| ==> !Lower(s[j], s[i])
  }

  // ---- Applying -------------------------------------------------------------------------------

  type Style = map<string, string>

  datatype Keyword = Initial | Unset | Inherit

  /**
   * The parts of the declaration tables the cascade relies on: which CSS-wide keyword a value is, which
   * properties inherit, what `initial` assigns, how `var()` resolves, and what a plain declaration
   * assigns (a shorthand several longhands).
   */
  datatype Tables = Tables(
    keyword: string -> Option<Keyword>,
    inherits: string -> bool,
    initial: string -> map<string, string>,
    resolve: (string, map<string, string>) -> Option<string>,
    plain: (string, string) -> map<string, string>,
    custom: string -> Option<string>)

  predicate IsCustom(property: string) {
    "--" <= property
  }

  /** `inherit`, and `unset` on an inherited property, leave the style alone. */
  function Wide(t: Tables, property: string, k: Keyword): (e: map<string, string>) {
    if k == Inherit || (k == Unset && t.inherits(property)) then map[] else t.initial(property)
  }

  /** The longhands a declaration assigns, and their values. */
  function Effect(t: Tables, customs: map<string, string>, d: Declaration): (e: map<string, string>) {
    if IsCustom(d.property) then map[]
    else
      var k := t.keyword(d.value);
      if k.Some? then Wide(t, d.property, k.value)
      else
        var resolved := t.resolve(d.value, customs);
        if resolved == Some("") then Wide(t, d.property, Unset)
        else if resolved.Some? then t.plain(d.property, resolved.value)
        else t.plain(d.property, d.value)
  }

  /** The second pass, in list order; a custom property has no effect here. */
  function ApplyAll(t: Tables, customs: map<string, string>, style: Style, list: seq<Matched>): (s: Style)
    decreases |list|
  {
    if list == [] then style else ApplyAll(t, customs, style + Effect(t, customs, list[0].decl), list[1..])
  }

  /** One declaration of the first pass, which adds nothing once the table is full. */
  function ApplyCustom(t: Tables, customs: map<string, string>, d: Declaration): (c: map<string, string>) {
    if IsCustom(d.property) && |d.property| != 2 && |d.property| <= 128 && |customs| < MAX_CUSTOM_PROPERTIES
       && t.custom(d.value).Some?
    then customs[d.property := t.custom(d.value).value]
    else customs
  }

  function ApplyCustoms(t: Tables, customs: map<string, string>, list: seq<Matched>): (c: map<string, string>)
    decreases |list|
  {
    if list == [] then customs else ApplyCustoms(t, ApplyCustom(t, customs, list[0].decl), list[1..])
  }

  /** The properties an element takes over from its parent's style. */
  const COPIED := {"color", "font-family", "font-size", "font-weight", "font-style", "text-align", "line-height",
                   "letter-spacing", "word-spacing", "white-space", "visibility", "cursor"}

  /** The style before any declaration: defaults, the parent's copied properties, and what the tag sets. */
  function StartStyle(parent: Option<Style>, defaults: Style, tag: Style): (s: Style) {
    if parent.None? then defaults + tag
    else (defaults - COPIED) + (map p | p in parent.value && p in COPIED :: parent.value[p]) + tag
  }

  function Computed(t: Tables, style: Style, inherited: map<string, string>, list: seq<Matched>): (s: Style) {
    var sorted := SortByRank(list);
    ApplyAll(t, ApplyCustoms(t, inherited, sorted), style, sorted)
  }

  method SettleCustoms(t: Tables, inherited: map<string, string>, list: seq<Matched>) returns (customs: map<string, string>)
    ensures customs == ApplyCustoms(t, inherited, list)
  {
    customs := inherited;
    assert list[0..] == list;
    for i := 0 to |list|
      invariant ApplyCustoms(t, customs, list[i..]) == ApplyCustoms(t, inherited, list)
    {
      assert list[i..][1..] == list[i + 1..];
      customs := ApplyCustom(t, customs, list[i].decl);
    }
  }

  method ApplyRest(t: Tables, customs: map<string, string>, base: Style, list: seq<Matched>) returns (style: Style)
    ensures style == ApplyAll(t, customs, base, list)
  {
    style := base;
    assert list[0..] == list;
    for i := 0 to |list|
      invariant ApplyAll(t, customs, style, list[i..]) == ApplyAll(t, customs, base, list)
    {
      assert list[i..][1..] == list[i + 1..];
      if IsCustom(list[i].decl.property) {
        assert style + map[] == style;
      } else {
        style := style + Effect(t, customs, list[i].decl);
      }
    }
  }

  method ComputeStyle(t: Tables, base: Style, inherited: map<string, string>, rules: seq<Rule>, inlined: seq<Declaration>)
    returns (style: Style)
    ensures style == Computed(t, base, inherited, AllMatches(rules, inlined))
  {
    var matched := CollectMatches(rules, inlined);
    matched := SortByRank(matched);
    var customs := SettleCustoms(t, inherited, matched);
    style := ApplyRest(t, customs, base, matched);
  }
}
