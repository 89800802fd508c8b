/** Who wins a cascade: longhands, `inherit`, order of appearance, and custom properties. */
module CssCascadeLaws {
  import opened CssCascade
  import opened Wrappers

  // ---- What a declaration assigns -------------------------------------------------------------

  /** `unset` is `inherit` for an inherited property and `initial` for any other; `inherit` assigns nothing. */
  function Reset(t: Tables, property: string): (e: map<string, string>) {
    if t.inherits(property) then map[] else t.initial(property)
  }

  /**
   * A keyword for the whole property decides first; a reference that comes to nothing counts as `unset`, one that
   * comes to text stands for that text, and any other value stands for itself. Custom properties assign no longhand.
   */
  lemma DeclarationsAssign(t: Tables, customs: map<string, string>, d: Declaration)
    requires !("--" <= d.property)
    ensures t.keyword(d.value) == Some(Initial) ==> Effect(t, customs, d) == t.initial(d.property)
    ensures t.keyword(d.value) == Some(Inherit) ==> Effect(t, customs, d) == map[]
    ensures t.keyword(d.value) == Some(Unset) ==> Effect(t, customs, d) == Reset(t, d.property)
    ensures t.keyword(d.value).None? ==>
              var text := t.resolve(d.value, customs);
              Effect(t, customs, d) == if text.None? then t.plain(d.property, d.value)
                                       else if text.value == "" then Reset(t, d.property)
                                       else t.plain(d.property, text.value)
  {
  }

  lemma CustomsAssignNothing(t: Tables, customs: map<string, string>, d: Declaration)
    requires "--" <= d.property
    ensures Effect(t, customs, d) == map[]
  {
  }

  type Pick = Matched -> bool

  predicate Assigns(t: Tables, customs: map<string, string>, m: Matched, p: string) {
    p in Effect(t, customs, m.decl)
  }

  function Get(s: Style, p: string): (value: Option<string>) {
    if p in s then Some(s[p]) else None
  }

  /** The declarations that assign a longhand. */
  function Assigning(t: Tables, customs: map<string, string>, p: string): (pick: Pick) {
    m => Assigns(t, customs, m, p)
  }

  // ---- What outranks what ---------------------------------------------------------------------

  predicate OriginBefore(a: Origin, b: Origin) {
    (a == UserAgent && b != UserAgent) || (a == User && b == Author)
  }

  /**
   * The cascade's order as declared. Important declarations outrank normal ones. Among normal ones authors outrank
   * users and users the user agent, among important ones the reverse. An author's inline declaration outranks
   * those in rules. Then come layers, reversed among important ones, then ids, classes, tags, and the number.
   */
  predicate Yields(a: Matched, b: Matched) {
    if a.decl.important != b.decl.important then b.decl.important
    else if a.origin != b.origin then
      if a.decl.important then OriginBefore(b.origin, a.origin) else OriginBefore(a.origin, b.origin)
    else if a.origin == Author && a.inlined != b.inlined then b.inlined
    else if a.layer != b.layer then
      if a.decl.important then LayerBefore(b.layer, a.layer) else LayerBefore(a.layer, b.layer)
    else if a.specificity.ids != b.specificity.ids then a.specificity.ids < b.specificity.ids
    else if a.specificity.classes != b.specificity.classes then a.specificity.classes < b.specificity.classes
    else if a.specificity.tags != b.specificity.tags then a.specificity.tags < b.specificity.tags
    else a.sourceOrder < b.sourceOrder
  }

  /** The rank tuples order declarations exactly so. */
  lemma RankIsCascadeOrder(a: Matched, b: Matched)
    requires LayerFits(a.layer) && LayerFits(b.layer)
    ensures Lower(a, b) <==> Yields(a, b)
  {
    ImportantReversesLayers(a.layer, b.layer);
    ImportantReversesLayers(b.layer, a.layer);
  }

  // ---- The last of the greatest rank --------------------------------------------------------

  function LastPicked(pick: Pick, list: seq<Matched>): (m: Option<Matched>) {
    if list == [] then None
    else
      var later := LastPicked(pick, list[1..]);
      if later.Some? then later
      else if pick(list[0]) then Some(list[0])
      else None
  }

  lemma {:induction false} InsertAdds(m: Matched, sorted: seq<Matched>)
    ensures multiset(Insert(m, sorted)) == multiset{m} + multiset(sorted)
  {
    if sorted != [] && Lower(sorted[0], m) {
      InsertAdds(m, sorted[1..]);
      assert sorted == [sorted[0]] + sorted[1..];
    }
  }

  lemma {:induction false} InsertAbove(low: Matched, m: Matched, sorted: seq<Matched>)
    requires !Lower(m, low) && forall k :: 0 <= k < |sorted| ==> !Lower(sorted[k], low)
    ensures forall k :: 0 <= k < |Insert(m, sorted)| ==> !Lower(Insert(m, sorted)[k], low)
  {
    if sorted != [] && Lower(sorted[0], m) {
      InsertAbove(low, m, sorted[1..]);
    }
  }

  lemma ConsRanked(m: Matched, sorted: seq<Matched>)
    requires Ranked(sorted) && forall k :: 0 <= k < |sorted| ==> !Lower(sorted[k], m)
    ensures Ranked([m] + sorted)
  {
  }

  lemma {:induction false} InsertRanked(m: Matched, sorted: seq<Matched>)
    requires Ranked(sorted)
    ensures Ranked(Insert(m, sorted))
  {
    if sorted == [] {
      ConsRanked(m, sorted);
    } else if !Lower(sorted[0], m) {
      forall j | 0 <= j < |sorted| ensures !Lower(sorted[j], m) {
        LowerIsAnOrder(sorted[j], sorted[0], m);
      }
      ConsRanked(m, sorted);
    } else {
      InsertRanked(m, sorted[1..]);
      LowerIsAnOrder(m, sorted[0], m);
      InsertAbove(sorted[0], m, sorted[1..]);
      ConsRanked(sorted[0], Insert(m, sorted[1..]));
    }
  }

  lemma {:induction false} SortRanks(list: seq<Matched>)
    ensures Ranked(SortByRank(list))
    ensures multiset(SortByRank(list)) == multiset(list)
  {
    if list != [] {
      SortRanks(list[1..]);
      InsertRanked(list[0], SortByRank(list[1..]));
      InsertAdds(list[0], SortByRank(list[1..]));
      assert list == [list[0]] + list[1..];
    }
  }

  lemma SortKeepsMembers(list: seq<Matched>)
    ensures forall m :: m in SortByRank(list) <==> m in list
  {
    SortRanks(list);
    forall m ensures m in SortByRank(list) <==> m in list {
      assert m in SortByRank(list) <==> m in multiset(SortByRank(list));
      assert m in list <==> m in multiset(list);
    }
  }

  lemma {:induction false} LastIsMember(pick: Pick, list: seq<Matched>)
    ensures var last := LastPicked(pick, list);
            && (last.Some? ==> last.value in list && pick(last.value))
            && (last.None? ==> forall x <- list :: !pick(x))
  {
    if list != [] {
      LastIsMember(pick, list[1..]);
      assert list == [list[0]] + list[1..];
    }
  }

  /** Where an inserted declaration leaves the last one picked. */
  lemma {:induction false} InsertLast(pick: Pick, m: Matched, sorted: seq<Matched>)
    requires Ranked(sorted)
    ensures var was := LastPicked(pick, sorted);
            var now := LastPicked(pick, Insert(m, sorted));
            && (!pick(m) ==> now == was)
            && (pick(m) && was.Some? && !Lower(was.value, m) ==> now == was)
            && (pick(m) && (forall x <- sorted :: pick(x) ==> Lower(x, m)) ==> now == Some(m))
  {
    if sorted == [] {
      assert [m] + sorted == [m] && [m][1..] == [];
    } else if !Lower(sorted[0], m) {
      assert ([m] + sorted)[1..] == sorted;
      forall x | x in sorted ensures !Lower(x, m) {
        LowerIsAnOrder(x, sorted[0], m);
      }
      LastIsMember(pick, sorted);
    } else {
      var grown := Insert(m, sorted);
      assert grown[1..] == Insert(m, sorted[1..]) && grown[0] == sorted[0];
      InsertLast(pick, m, sorted[1..]);
      LastIsMember(pick, sorted[1..]);
    }
  }

  /** `list[j]` is applied before `list[w]`: it ranks below it, or ties and stands earlier. */
  predicate Precedes(list: seq<Matched>, j: nat, w: nat)
    requires j < |list| && w < |list|
  {
    Lower(list[j], list[w]) || (!Lower(list[w], list[j]) && j < w)
  }

  /** `list[w]` is picked, no other picked declaration ranks above it, and none of its rank comes later. */
  ghost predicate Wins(pick: Pick, list: seq<Matched>, w: nat) {
    && w < |list| && pick(list[w])
    && forall j :: 0 <= j < |list| && pick(list[j]) ==> Lower(list[j], list[w]) || (!Lower(list[w], list[j]) && j <= w)
  }

  lemma {:induction false} WinnerIsLast(pick: Pick, list: seq<Matched>, w: nat)
    requires Wins(pick, list, w)
    ensures LastPicked(pick, SortByRank(list)) == Some(list[w])
  {
    var rest := SortByRank(list[1..]);
    SortRanks(list[1..]);
    if w == 0 {
      SortKeepsMembers(list[1..]);
      forall x | x in rest && pick(x) ensures Lower(x, list[0]) {
        var j :| 0 <= j < |list[1..]| && list[1..][j] == x;
        assert list[j + 1] == x;
      }
    } else {
      forall j | 0 <= j < |list[1..]| ensures list[1..][j] == list[j + 1] {}
      WinnerIsLast(pick, list[1..], w - 1);
      if pick(list[0]) {
        LowerIsAnOrder(list[0], list[w], list[0]);
      }
    }
    InsertLast(pick, list[0], rest);
  }

  lemma LaterWins(pick: Pick, list: seq<Matched>, front: seq<Matched>, w: nat)
    requires list != [] && front == list[..|list| - 1] && Wins(pick, front, w)
    requires pick(list[|front|]) && !Lower(list[|front|], list[w])
    ensures Wins(pick, list, |front|)
  {
    var last := list[|front|];
    forall j | 0 <= j < |front| && pick(list[j]) ensures Lower(list[j], last) || !Lower(last, list[j]) {
      assert front[j] == list[j];
      LowerIsAnOrder(last, list[w], list[j]);
      LowerIsAnOrder(list[j], list[w], last);
    }
    LowerIsAnOrder(last, last, last);
  }

  /** Some declaration wins as soon as one is picked. */
  lemma {:induction false} SomeoneWins(pick: Pick, list: seq<Matched>) returns (w: nat)
    requires exists m <- list :: pick(m)
    ensures Wins(pick, list, w)
  {
    var front, last := list[..|list| - 1], list[|list| - 1];
    assert list == front + [last];
    assert forall j :: 0 <= j < |front| ==> front[j] == list[j] && list[j] in front;
    LowerIsAnOrder(last, last, last);
    if exists m <- front :: pick(m) {
      w := SomeoneWins(pick, front);
      if pick(last) && !Lower(last, list[w]) {
        LaterWins(pick, list, front, w);
        w := |front|;
      }
    } else {
      w := |front|;
    }
  }

  // ---- Longhands ----------------------------------------------------------------------------

  lemma {:induction false} LastAssignmentStays(t: Tables, customs: map<string, string>, style: Style, list: seq<Matched>,
                                               p: string)
    ensures var last := LastPicked(Assigning(t, customs, p), list);
            var final := ApplyAll(t, customs, style, list);
            if last.Some? then p in final && p in Effect(t, customs, last.value.decl)
                               && final[p] == Effect(t, customs, last.value.decl)[p]
            else (p in final <==> p in style) && (p in style ==> final[p] == style[p])
    decreases |list|
  {
    if list != [] {
      LastAssignmentStays(t, customs, style + Effect(t, customs, list[0].decl), list[1..], p);
    }
  }

  /**
   * Sort-then-apply picks the winner: after the whole cascade a longhand holds the value of the matched
   * declaration of greatest rank among those that assign it, the later one in the list where ranks tie;
   * a longhand no declaration assigns keeps its inherited or default value.
   */
  lemma CascadePicksTheWinner(t: Tables, style: Style, inherited: map<string, string>, list: seq<Matched>, p: string)
    ensures var customs := ApplyCustoms(t, inherited, SortByRank(list));
            var final := Computed(t, style, inherited, list);
            && (forall w: nat :: Wins(Assigning(t, customs, p), list, w) ==>
                  p in Effect(t, customs, list[w].decl) && p in final && final[p] == Effect(t, customs, list[w].decl)[p])
            && ((forall m <- list :: !Assigns(t, customs, m, p)) ==>
                  (p in final <==> p in style) && (p in style ==> final[p] == style[p]))
  {
    var sorted := SortByRank(list);
    var customs := ApplyCustoms(t, inherited, sorted);
    var pick := Assigning(t, customs, p);
    LastAssignmentStays(t, customs, style, sorted, p);
    forall w: nat | Wins(pick, list, w) ensures LastPicked(pick, sorted) == Some(list[w]) {
      WinnerIsLast(pick, list, w);
    }
    SortKeepsMembers(list);
    LastIsMember(pick, sorted);
  }

  /** Where an important declaration assigns a longhand, no normal declaration's value shows. */
  lemma ImportantShows(t: Tables, style: Style, inherited: map<string, string>, list: seq<Matched>, p: string, i: nat)
    returns (w: nat)
    requires i < |list| && list[i].decl.important && (forall m <- list :: LayerFits(m.layer))
    requires Assigns(t, ApplyCustoms(t, inherited, SortByRank(list)), list[i], p)
    ensures var customs := ApplyCustoms(t, inherited, SortByRank(list));
            && Wins(Assigning(t, customs, p), list, w) && list[w].decl.important
            && Get(Computed(t, style, inherited, list), p) == Get(Effect(t, customs, list[w].decl), p)
  {
    var pick := Assigning(t, ApplyCustoms(t, inherited, SortByRank(list)), p);
    assert pick(list[i]);
    w := SomeoneWins(pick, list);
    RankIsCascadeOrder(list[i], list[w]);
    RankIsCascadeOrder(list[w], list[i]);
    CascadePicksTheWinner(t, style, inherited, list, p);
  }

  /** A style attribute outranks every author rule of the same importance, and later declarations in it earlier ones. */
  lemma InlineOutranksRules(rules: seq<Rule>, inlined: seq<Declaration>, r: nat, i: nat)
    requires r < |RulesMatches(rules)| && i < |inlined|
    ensures |AllMatches(rules, inlined)| == |RulesMatches(rules)| + |inlined|
    ensures var list := AllMatches(rules, inlined);
            var at := |RulesMatches(rules)| + i;
            && list[r] == RulesMatches(rules)[r] && list[at].decl == inlined[i]
            && (list[r].origin == Author && list[r].decl.important == inlined[i].important ==> Lower(list[r], list[at]))
            && (!list[r].decl.important && inlined[i].important ==> Lower(list[r], list[at]))
            && forall j: nat :: i < j < |inlined| && inlined[j].important == inlined[i].important ==>
                 Precedes(list, at, |RulesMatches(rules)| + j)
  {
    RuleIsNotInline(rules, |rules|, r);
  }

  lemma {:induction false} RuleIsNotInline(rules: seq<Rule>, n: nat, r: nat)
    requires n <= |rules| && r < |FirstMatches(rules, n)|
    ensures !FirstMatches(rules, n)[r].inlined
  {
    if n > 0 && r < |FirstMatches(rules, n - 1)| {
      RuleIsNotInline(rules, n - 1, r);
    }
  }

  // ---- `inherit` ------------------------------------------------------------------------------

  /** The declaration is `inherit`, or `unset` on an inherited property. */
  predicate AsksToInherit(t: Tables, m: Matched, p: string) {
    && m.decl.property == p && !IsCustom(p)
    && var k := t.keyword(m.decl.value);
       k == Some(Inherit) || (k == Some(Unset) && t.inherits(p))
  }

  /** `list[h]` wins over every other declaration that assigns `p`, by rank or as the later in the list. */
  predicate Tops(t: Tables, customs: map<string, string>, list: seq<Matched>, h: nat, p: string) {
    h < |list| && forall j :: 0 <= j < |list| && j != h && Assigns(t, customs, list[j], p) ==> Precedes(list, j, h)
  }

  /** What the cascade gives `p` when something assigns it: the value of the best declaration that does. */
  ghost predicate ShowsInstead(t: Tables, customs: map<string, string>, list: seq<Matched>, p: string, value: Option<string>) {
    exists w: nat :: Wins(Assigning(t, customs, p), list, w) && Get(Effect(t, customs, list[w].decl), p) == value
  }

  predicate Unassigned(t: Tables, customs: map<string, string>, list: seq<Matched>, p: string) {
    forall m <- list :: !Assigns(t, customs, m, p)
  }

  /**
   * A winning `inherit` assigns nothing. So the longhand keeps its starting value if and only if no
   * declaration assigns it, or the best of those that do, all of them beaten, assigns that very value.
   */
  lemma InheritIsExact(t: Tables, style: Style, inherited: map<string, string>, list: seq<Matched>, h: nat, p: string)
    requires Tops(t, ApplyCustoms(t, inherited, SortByRank(list)), list, h, p) && AsksToInherit(t, list[h], p)
    ensures var customs := ApplyCustoms(t, inherited, SortByRank(list));
            var final := Computed(t, style, inherited, list);
            && !Assigns(t, customs, list[h], p)
            && (Get(final, p) == Get(style, p)
                <==> Unassigned(t, customs, list, p) || ShowsInstead(t, customs, list, p, Get(style, p)))
  {
    CascadeValue(t, style, inherited, list, p, Get(style, p));
  }

  /** Of any list: which value a longhand ends with. */
  lemma CascadeValue(t: Tables, style: Style, inherited: map<string, string>, list: seq<Matched>, p: string,
                     value: Option<string>)
    ensures var customs := ApplyCustoms(t, inherited, SortByRank(list));
            var final := Computed(t, style, inherited, list);
            Get(final, p) == value
            <==> (if Unassigned(t, customs, list, p) then Get(style, p) == value
                  else ShowsInstead(t, customs, list, p, value))
  {
    var customs := ApplyCustoms(t, inherited, SortByRank(list));
    var final := Computed(t, style, inherited, list);
    CascadePicksTheWinner(t, style, inherited, list, p);
    if !Unassigned(t, customs, list, p) {
      var m :| m in list && Assigns(t, customs, m, p);
      assert Assigning(t, customs, p)(m);
      var w := SomeoneWins(Assigning(t, customs, p), list);
      assert Get(final, p) == Get(Effect(t, customs, list[w].decl), p);
    }
  }

  /** What the starting style holds: the tag's own value, or the parent's for a copied property, or the default. */
  lemma StartingValue(parent: Style, defaults: Style, tag: Style, p: string)
    ensures Get(StartStyle(Some(parent), defaults, tag), p)
            == if p in tag then Some(tag[p]) else if p in COPIED then Get(parent, p) else Get(defaults, p)
  {
  }

  const TEXT_PROPERTIES := ["color", "font-family", "font-size", "font-weight", "font-style", "text-align", "line-height",
                            "letter-spacing", "word-spacing", "white-space", "visibility", "cursor"]

  /** The twelve text properties come from the parent unless the tag sets them, and nothing else does. */
  lemma TextPropertiesAreCopied(parent: Style, defaults: Style, tag: Style, p: string)
    requires p !in tag
    ensures (exists i :: 0 <= i < |TEXT_PROPERTIES| && TEXT_PROPERTIES[i] == p) ==>
              Get(StartStyle(Some(parent), defaults, tag), p) == Get(parent, p)
    ensures (forall i :: 0 <= i < |TEXT_PROPERTIES| ==> TEXT_PROPERTIES[i] != p) ==>
              Get(StartStyle(Some(parent), defaults, tag), p) == Get(defaults, p)
  {
    StartingValue(parent, defaults, tag, p);
    assert TEXT_PROPERTIES[0] == "color" && TEXT_PROPERTIES[1] == "font-family" && TEXT_PROPERTIES[2] == "font-size";
    assert TEXT_PROPERTIES[3] == "font-weight" && TEXT_PROPERTIES[4] == "font-style" && TEXT_PROPERTIES[5] == "text-align";
    assert TEXT_PROPERTIES[6] == "line-height" && TEXT_PROPERTIES[7] == "letter-spacing";
    assert TEXT_PROPERTIES[8] == "word-spacing" && TEXT_PROPERTIES[9] == "white-space";
    assert TEXT_PROPERTIES[10] == "visibility" && TEXT_PROPERTIES[11] == "cursor";
  }

  /**
   * So a winning `inherit` gives the parent's value if and only if that is what shows: the value of the
   * best outranked declaration if there is one, and otherwise the starting value, which is the
   * parent's for the copied properties only.
   */
  lemma InheritGivesTheParentValue(t: Tables, parent: Style, defaults: Style, tag: Style, inherited: map<string, string>,
                                   list: seq<Matched>, h: nat, p: string)
    requires Tops(t, ApplyCustoms(t, inherited, SortByRank(list)), list, h, p) && AsksToInherit(t, list[h], p)
    ensures var customs := ApplyCustoms(t, inherited, SortByRank(list));
            var final := Computed(t, StartStyle(Some(parent), defaults, tag), inherited, list);
            Get(final, p) == Get(parent, p)
            <==> (if !Unassigned(t, customs, list, p) then ShowsInstead(t, customs, list, p, Get(parent, p))
                  else if p in tag then Get(parent, p) == Some(tag[p])
                  else p in COPIED || Get(defaults, p) == Get(parent, p))
  {
    CascadeValue(t, StartStyle(Some(parent), defaults, tag), inherited, list, p, Get(parent, p));
    StartingValue(parent, defaults, tag, p);
  }

  /** Two declarations: `inherit` outranks an ordinary one, and the ordinary one's value shows. */
  lemma InheritKeepsTheOutrankedValue(t: Tables, style: Style, inherited: map<string, string>, low: Matched,
                                      high: Matched, p: string)
    requires Lower(low, high) && AsksToInherit(t, high, p)
    ensures var customs := ApplyCustoms(t, inherited, SortByRank([low, high]));
            Assigns(t, customs, low, p) ==>
              Get(Computed(t, style, inherited, [low, high]), p) == Some(Effect(t, customs, low.decl)[p])
  {
    var customs := ApplyCustoms(t, inherited, SortByRank([low, high]));
    if Assigns(t, customs, low, p) {
      assert Wins(Assigning(t, customs, p), [low, high], 0);
      CascadePicksTheWinner(t, style, inherited, [low, high], p);
    }
  }

  /** The same in colours: `color: red` below `color: inherit`, and the element is red whatever its parent is. */
  lemma InheritStaysRed(t: Tables, style: Style, inherited: map<string, string>)
    requires t.keyword("red").None? && t.keyword("inherit") == Some(Inherit) && (forall v, c :: t.resolve(v, c).None?)
    requires forall p, v :: t.plain(p, v) == map[p := v]
    ensures var low := Matched(Declaration("color", "red", false, 1), Author, None, Specificity(0, 0, 1), 1, false);
            var high := Matched(Declaration("color", "inherit", false, 1), Author, None, Specificity(0, 1, 0), 1001, false);
            Get(Computed(t, style, inherited, [low, high]), "color") == Some("red")
  {
    var low := Matched(Declaration("color", "red", false, 1), Author, None, Specificity(0, 0, 1), 1, false);
    var high := Matched(Declaration("color", "inherit", false, 1), Author, None, Specificity(0, 1, 0), 1001, false);
    assert "color"[0] == 'c' && !IsCustom("color");
    var customs := ApplyCustoms(t, inherited, SortByRank([low, high]));
    assert Effect(t, customs, low.decl) == map["color" := "red"];
    InheritKeepsTheOutrankedValue(t, style, inherited, low, high, "color");
  }

  // ---- Order of appearance ------------------------------------------------------------------

  /** Source numbers do not fall within a rule, and from rule to rule by no more than a thousand a step. */
  ghost predicate Spaced(rules: seq<Rule>) {
    forall q, i, r, j :: IsDecl(rules, q, i) && IsDecl(rules, r, j) && Earlier(q, i, r, j) ==> InNumbers(rules, q, i, r, j)
  }

  predicate IsDecl(rules: seq<Rule>, r: int, i: int) {
    0 <= r < |rules| && 0 <= i < |rules[r].declarations|
  }

  predicate Earlier(q: int, i: int, r: int, j: int) {
    q < r || (q == r && i < j)
  }

  /** The number the sort sees: a thousand for each rule before, and the parser's own. */
  function NumberOf(rules: seq<Rule>, r: int, i: int): (n: nat)
    requires IsDecl(rules, r, i)
  {
    r * 1000 + rules[r].declarations[i].sourceOrder
  }

  predicate InNumbers(rules: seq<Rule>, q: int, i: int, r: int, j: int)
    requires IsDecl(rules, q, i) && IsDecl(rules, r, j)
  {
    NumberOf(rules, q, i) <= NumberOf(rules, r, j)
  }

  /** Two declarations of matching rules that only the order of appearance can tell apart. */
  predicate TiedDecls(rules: seq<Rule>, q: int, i: int, r: int, j: int)
    requires IsDecl(rules, q, i) && IsDecl(rules, r, j)
  {
    var a, b := rules[q].declarations[i], rules[r].declarations[j];
    && Best(rules[q].selectors).Some? && Best(rules[q].selectors) == Best(rules[r].selectors)
    && Group(rules[q].origin, a.important, false) == Group(rules[r].origin, b.important, false)
    && LayerRank(a.important, rules[q].layer) == LayerRank(b.important, rules[r].layer)
  }

  /** Source numbers follow appearance wherever they decide. */
  ghost predicate TiesSpaced(rules: seq<Rule>) {
    forall q, i, r, j :: IsDecl(rules, q, i) && IsDecl(rules, r, j) && Earlier(q, i, r, j) && TiedDecls(rules, q, i, r, j)
      ==> InNumbers(rules, q, i, r, j)
  }

  predicate Tied(a: Matched, b: Matched) {
    RankOf(a).group == RankOf(b).group && RankOf(a).layer == RankOf(b).layer && a.specificity == b.specificity
  }

  /** Among equals the later declaration never ranks lower. */
  predicate LaterIsNeverLower(list: seq<Matched>) {
    forall j, k :: 0 <= j < k < |list| && Tied(list[j], list[k]) ==> !Lower(list[k], list[j])
  }

  /** Where the declarations of rule `r` start in the list. */
  function Start(rules: seq<Rule>, r: nat): (n: nat)
    requires r <= |rules|
  {
    |FirstMatches(rules, r)|
  }

  function Here(rules: seq<Rule>, r: nat): (s: seq<Matched>)
    requires r < |rules|
  {
    RuleMatches(rules[r], r)
  }

  lemma {:induction false} StartGrows(rules: seq<Rule>, q: nat, r: nat)
    requires q < r <= |rules|
    ensures Start(rules, q) + |Here(rules, q)| <= Start(rules, r)
    decreases r
  {
    if q < r - 1 {
      StartGrows(rules, q, r - 1);
    }
  }

  /** `list[p]` is declaration `i` of rule `r`. */
  predicate Stands(rules: seq<Rule>, p: nat, r: nat, i: nat) {
    && r < |rules| && i < |Here(rules, r)| && p == Start(rules, r) + i
    && p < |RulesMatches(rules)| && RulesMatches(rules)[p] == Here(rules, r)[i]
  }

  lemma InFront(a: seq<Matched>, b: seq<Matched>, whole: seq<Matched>, k: nat)
    requires whole == a + b && k < |a|
    ensures k < |whole| && whole[k] == a[k]
  {
  }

  lemma Behind(a: seq<Matched>, b: seq<Matched>, whole: seq<Matched>, k: nat)
    requires whole == a + b && k < |b|
    ensures |a| + k < |whole| && whole[|a| + k] == b[k]
  {
  }

  lemma {:induction false} PlaceOf(rules: seq<Rule>, n: nat, r: nat, i: nat)
    requires r < n <= |rules| && i < |Here(rules, r)|
    ensures Start(rules, r) + i < |FirstMatches(rules, n)|
    ensures FirstMatches(rules, n)[Start(rules, r) + i] == Here(rules, r)[i]
    decreases n
  {
    var front, here, whole := FirstMatches(rules, n - 1), Here(rules, n - 1), FirstMatches(rules, n);
    if r < n - 1 {
      PlaceOf(rules, n - 1, r, i);
      InFront(front, here, whole, Start(rules, r) + i);
    } else {
      Behind(front, here, whole, i);
    }
  }

  lemma {:induction false} Located(rules: seq<Rule>, n: nat, p: nat) returns (r: nat, i: nat)
    requires 0 < n <= |rules| && p < |FirstMatches(rules, n)|
    ensures r < n && i < |Here(rules, r)| && p == Start(rules, r) + i
    decreases n
  {
    if p < Start(rules, n - 1) {
      r, i := Located(rules, n - 1, p);
    } else {
      r, i := n - 1, p - Start(rules, n - 1);
    }
  }

  lemma StandsAt(rules: seq<Rule>, r: nat, i: nat)
    requires r < |rules| && i < |Here(rules, r)|
    ensures Stands(rules, Start(rules, r) + i, r, i)
  {
    PlaceOf(rules, |rules|, r, i);
  }

  lemma Find(rules: seq<Rule>, p: nat) returns (r: nat, i: nat)
    requires p < |RulesMatches(rules)|
    ensures Stands(rules, p, r, i)
  {
    r, i := Located(rules, |rules|, p);
    StandsAt(rules, r, i);
  }

  lemma PlacesFollow(rules: seq<Rule>, p: nat, q: nat, i: nat, p2: nat, r: nat, j: nat)
    requires Stands(rules, p, q, i) && Stands(rules, p2, r, j)
    ensures p < p2 <==> Earlier(q, i, r, j)
  {
    if q < r {
      StartGrows(rules, q, r);
    } else if r < q {
      StartGrows(rules, r, q);
    }
  }

  lemma TieOf(rules: seq<Rule>, p: nat, q: nat, i: nat, p2: nat, r: nat, j: nat)
    requires Stands(rules, p, q, i) && Stands(rules, p2, r, j)
    ensures IsDecl(rules, q, i) && IsDecl(rules, r, j)
    ensures var list := RulesMatches(rules);
            && (Tied(list[p], list[p2]) <==> TiedDecls(rules, q, i, r, j))
            && (Tied(list[p], list[p2]) ==> (Lower(list[p2], list[p]) <==> !InNumbers(rules, q, i, r, j)))
  {
  }

  lemma SpacedPair(rules: seq<Rule>, p: nat, p2: nat)
    requires TiesSpaced(rules) && p < p2 < |RulesMatches(rules)| && Tied(RulesMatches(rules)[p], RulesMatches(rules)[p2])
    ensures !Lower(RulesMatches(rules)[p2], RulesMatches(rules)[p])
  {
    var q, i := Find(rules, p);
    var r, j := Find(rules, p2);
    PlacesFollow(rules, p, q, i, p2, r, j);
    TieOf(rules, p, q, i, p2, r, j);
  }

  lemma OrderedPair(rules: seq<Rule>, q: nat, i: nat, r: nat, j: nat)
    requires LaterIsNeverLower(RulesMatches(rules)) && IsDecl(rules, q, i) && IsDecl(rules, r, j)
    requires Earlier(q, i, r, j) && TiedDecls(rules, q, i, r, j)
    ensures InNumbers(rules, q, i, r, j)
  {
    StandsAt(rules, q, i);
    StandsAt(rules, r, j);
    var p, p2 := Start(rules, q) + i, Start(rules, r) + j;
    PlacesFollow(rules, p, q, i, p2, r, j);
    TieOf(rules, p, q, i, p2, r, j);
  }

  /**
   * The order of appearance decides among equals if and only if source numbers follow it wherever two
   * declarations of matching rules tie: for every list of rules, whatever matches.
   */
  lemma AppearanceDecidesTies(rules: seq<Rule>)
    ensures LaterIsNeverLower(RulesMatches(rules)) <==> TiesSpaced(rules)
  {
    var list := RulesMatches(rules);
    if TiesSpaced(rules) {
      forall p, p2 | 0 <= p < p2 < |list| && Tied(list[p], list[p2]) ensures !Lower(list[p2], list[p]) {
        SpacedPair(rules, p, p2);
      }
    }
    if LaterIsNeverLower(list) {
      forall q, i, r, j
        | IsDecl(rules, q, i) && IsDecl(rules, r, j) && Earlier(q, i, r, j) && TiedDecls(rules, q, i, r, j)
        ensures InNumbers(rules, q, i, r, j)
      {
        OrderedPair(rules, q, i, r, j);
      }
    }
  }

  /** Every rule matches, with one specificity, origin, layer and importance. */
  predicate Alike(rules: seq<Rule>, best: Specificity, origin: Origin, layer: Option<nat>, important: bool) {
    forall r :: 0 <= r < |rules| ==>
      && Best(rules[r].selectors) == Some(best) && rules[r].origin == origin && rules[r].layer == layer
      && forall i :: 0 <= i < |rules[r].declarations| ==> rules[r].declarations[i].important == important
  }

  /**
   * In particular, spaced numbers are always enough, and among rules that are alike they are needed: only
   * then does the later declaration never rank lower.
   */
  lemma SpacingDecidesAlikeRules(rules: seq<Rule>, best: Specificity, origin: Origin, layer: Option<nat>, important: bool)
    ensures Spaced(rules) ==> LaterIsNeverLower(RulesMatches(rules))
    ensures Alike(rules, best, origin, layer, important) ==> (LaterIsNeverLower(RulesMatches(rules)) <==> Spaced(rules))
  {
    AppearanceDecidesTies(rules);
    if Alike(rules, best, origin, layer, important) {
      forall q, i, r, j | IsDecl(rules, q, i) && IsDecl(rules, r, j) ensures TiedDecls(rules, q, i, r, j) {}
    }
  }

  /** `n` declarations as the parser numbers them, the last one a colour. */
  function Numbered(n: nat, value: string): (s: seq<Declaration>) {
    seq(n, i requires 0 <= i < n => Declaration(if i == n - 1 then "color" else "margin-top", value, false, i + 1))
  }

  /**
   * A style sheet in which the earlier of two equal rules wins: one with 1002 declarations, and one in
   * a nested block, where the parser starts numbering at 1 again.
   */
  lemma EarlierRuleCanWin(t: Tables, style: Style, inherited: map<string, string>)
    requires t.keyword("red").None? && t.keyword("blue").None? && (forall v, c :: t.resolve(v, c).None?)
    requires forall p, v :: t.plain(p, v) == map[p := v]
    ensures var sel := SelectorMatch(true, Specificity(0, 0, 1));
            var rules := [Rule([sel], Numbered(1002, "red"), Author, None), Rule([sel], Numbered(1, "blue"), Author, None)];
            Get(Computed(t, style, inherited, AllMatches(rules, [])), "color") == Some("red")
  {
    var sel := SelectorMatch(true, Specificity(0, 0, 1));
    var rules := [Rule([sel], Numbered(1002, "red"), Author, None), Rule([sel], Numbered(1, "blue"), Author, None)];
    var list := AllMatches(rules, []);
    ExampleList(rules, sel);
    var customs := ApplyCustoms(t, inherited, SortByRank(list));
    ExampleAssigns(t, customs, rules, sel);
    assert Wins(Assigning(t, customs, "color"), list, 1001);
    CascadePicksTheWinner(t, style, inherited, list, "color");
  }

  lemma ExampleList(rules: seq<Rule>, sel: SelectorMatch)
    requires sel == SelectorMatch(true, Specificity(0, 0, 1))
    requires rules == [Rule([sel], Numbered(1002, "red"), Author, None), Rule([sel], Numbered(1, "blue"), Author, None)]
    ensures AllMatches(rules, []) == Here(rules, 0) + Here(rules, 1) && |Here(rules, 0)| == 1002 && |Here(rules, 1)| == 1
    ensures forall i :: 0 <= i < 1002 ==>
              Here(rules, 0)[i] == Matched(rules[0].declarations[i], Author, None, sel.specificity, i + 1, false)
    ensures Here(rules, 1)[0] == Matched(rules[1].declarations[0], Author, None, sel.specificity, 1001, false)
  {
    assert [sel][..0] == [] && Best([]) == None && Best([sel]) == Some(sel.specificity);
    assert FirstMatches(rules, 2) == FirstMatches(rules, 1) + Here(rules, 1);
    assert FirstMatches(rules, 1) == FirstMatches(rules, 0) + Here(rules, 0);
    assert [] + Here(rules, 0) == Here(rules, 0);
    assert InlineMatches([]) == [] && RulesMatches(rules) + [] == RulesMatches(rules);
  }

  lemma ExampleAssigns(t: Tables, customs: map<string, string>, rules: seq<Rule>, sel: SelectorMatch)
    requires sel == SelectorMatch(true, Specificity(0, 0, 1))
    requires rules == [Rule([sel], Numbered(1002, "red"), Author, None), Rule([sel], Numbered(1, "blue"), Author, None)]
    requires t.keyword("red").None? && t.keyword("blue").None? && (forall v, c :: t.resolve(v, c).None?)
    requires forall p, v :: t.plain(p, v) == map[p := v]
    ensures forall i :: 0 <= i < 1002 ==>
              Effect(t, customs, rules[0].declarations[i]) == map[rules[0].declarations[i].property := "red"]
    ensures Effect(t, customs, rules[1].declarations[0]) == map["color" := "blue"]
  {
    assert "color"[0] == 'c' && "margin-top"[0] == 'm';
    assert !IsCustom("color") && !IsCustom("margin-top");
  }
}
