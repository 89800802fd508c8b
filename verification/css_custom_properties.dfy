/** Which declaration a custom property ends with, given that the table of them takes 256 entries. */
module CssCustomProperties {
  import opened CssCascade
  import opened CssCascadeLaws
  import opened Text
  import opened Wrappers

  /** The declaration gives custom property `p` a value, if there is room. */
  predicate Defines(t: Tables, m: Matched, p: string) {
    m.decl.property == p && IsCustom(p) && |p| != 2 && |p| <= 128 && t.custom(m.decl.value).Some?
  }

  function Defining(t: Tables, p: string): (pick: Pick) {
    m => Defines(t, m, p)
  }

  /** How many declarations of the list are looked at before the table is full. */
  function LookedAt(t: Tables, customs: map<string, string>, list: seq<Matched>): (n: nat)
    ensures n <= |list|
    decreases |list|
  {
    if list == [] || |customs| >= MAX_CUSTOM_PROPERTIES then 0
    else 1 + LookedAt(t, ApplyCustom(t, customs, list[0].decl), list[1..])
  }

  /** A full table stays as it is: not even a property it holds already can be declared anew. */
  lemma {:induction false} FullTableIsFinal(t: Tables, customs: map<string, string>, list: seq<Matched>)
    requires |customs| >= MAX_CUSTOM_PROPERTIES
    ensures ApplyCustoms(t, customs, list) == customs
    decreases |list|
  {
    if list != [] {
      FullTableIsFinal(t, customs, list[1..]);
    }
  }

  /** Which value a custom property ends with: that of its last declaration before the table is full. */
  lemma {:induction false} LastDefinitionStays(t: Tables, customs: map<string, string>, list: seq<Matched>, p: string)
    ensures var last := LastPicked(Defining(t, p), list[..LookedAt(t, customs, list)]);
            Get(ApplyCustoms(t, customs, list), p)
            == if last.Some? then t.custom(last.value.decl.value) else Get(customs, p)
    decreases |list|
  {
    if |customs| >= MAX_CUSTOM_PROPERTIES {
      FullTableIsFinal(t, customs, list);
    } else if list != [] {
      var next := ApplyCustom(t, customs, list[0].decl);
      LastDefinitionStays(t, next, list[1..], p);
      PickedCons(Defining(t, p), list, LookedAt(t, next, list[1..]));
    }
  }

  lemma PickedCons(pick: Pick, list: seq<Matched>, n: nat)
    requires n < |list|
    ensures var later := LastPicked(pick, list[1..][..n]);
            LastPicked(pick, list[..n + 1])
            == if later.Some? then later else if pick(list[0]) then Some(list[0]) else None
  {
    assert list[..n + 1][1..] == list[1..][..n] && list[..n + 1][0] == list[0];
  }

  // ---- How far the pass gets ----------------------------------------------------------------

  function Items(list: seq<Matched>): (items: set<Matched>) {
    set m | m in list
  }

  /** The custom properties these declarations give a value. */
  function Names(t: Tables, items: set<Matched>): (names: set<string>) {
    set m | m in items && Defines(t, m, m.decl.property) :: m.decl.property
  }

  lemma NamesJoin(t: Tables, a: set<Matched>, b: set<Matched>)
    ensures Names(t, a + b) == Names(t, a) + Names(t, b)
  {
  }

  lemma ItemsCons(list: seq<Matched>, k: nat)
    requires 0 < k <= |list|
    ensures Items(list[..k]) == {list[0]} + Items(list[1..][..k - 1])
  {
    assert list[..k] == [list[0]] + list[1..][..k - 1];
  }

  lemma OneApplied(t: Tables, customs: map<string, string>, m: Matched)
    requires |customs| < MAX_CUSTOM_PROPERTIES
    ensures ApplyCustom(t, customs, m.decl).Keys == customs.Keys + Names(t, {m})
  {
  }

  lemma KeysAndMore(customs: map<string, string>, more: set<string>)
    ensures |customs.Keys + more| >= |customs|
  {
    assert |customs.Keys| == |customs|;
    assert customs.Keys + more == customs.Keys + (more - customs.Keys);
  }

  /** The names held in front of `list[k]`. */
  function Held(t: Tables, keys: set<string>, list: seq<Matched>, k: nat): (n: nat)
    requires k <= |list|
  {
    |keys + Names(t, Items(list[..k]))|
  }

  /** The table is full in front of a declaration exactly when the names held and declared before make 256. */
  lemma {:induction false} LookedAtCounts(t: Tables, customs: map<string, string>, list: seq<Matched>, k: nat)
    requires k < |list|
    ensures k < LookedAt(t, customs, list) <==> Held(t, customs.Keys, list, k) < MAX_CUSTOM_PROPERTIES
    decreases |list|
  {
    HeldGrows(t, customs, list, k);
    if |customs| < MAX_CUSTOM_PROPERTIES {
      if k == 0 {
        NothingBefore(t, customs, list);
      } else {
        var next := ApplyCustom(t, customs, list[0].decl);
        HeldStep(t, customs, next, list, k);
        LookedAtStep(t, customs, next, list, list[1..]);
        LookedAtCounts(t, next, list[1..], k - 1);
      }
    }
  }

  lemma LookedAtStep(t: Tables, customs: map<string, string>, next: map<string, string>, list: seq<Matched>,
                     rest: seq<Matched>)
    requires list != [] && rest == list[1..] && |customs| < MAX_CUSTOM_PROPERTIES
    requires next == ApplyCustom(t, customs, list[0].decl)
    ensures LookedAt(t, customs, list) == 1 + LookedAt(t, next, rest)
  {
  }

  lemma HeldGrows(t: Tables, customs: map<string, string>, list: seq<Matched>, k: nat)
    requires k <= |list|
    ensures Held(t, customs.Keys, list, k) >= |customs|
  {
    KeysAndMore(customs, Names(t, Items(list[..k])));
  }

  lemma HeldStep(t: Tables, customs: map<string, string>, next: map<string, string>, list: seq<Matched>, k: nat)
    requires 0 < k <= |list| && |customs| < MAX_CUSTOM_PROPERTIES && next == ApplyCustom(t, customs, list[0].decl)
    ensures Held(t, customs.Keys, list, k) == Held(t, next.Keys, list[1..], k - 1)
  {
    OneApplied(t, customs, list[0]);
    NamesCons(t, customs.Keys, next.Keys, list, k);
  }

  lemma NothingBefore(t: Tables, customs: map<string, string>, list: seq<Matched>)
    ensures Held(t, customs.Keys, list, 0) == |customs|
  {
    assert customs.Keys + Names(t, Items(list[..0])) == customs.Keys && |customs.Keys| == |customs|;
  }

  lemma NamesCons(t: Tables, keys: set<string>, next: set<string>, list: seq<Matched>, k: nat)
    requires 0 < k <= |list| && next == keys + Names(t, {list[0]})
    ensures keys + Names(t, Items(list[..k])) == next + Names(t, Items(list[1..][..k - 1]))
  {
    ItemsCons(list, k);
    NamesJoin(t, {list[0]}, Items(list[1..][..k - 1]));
  }

  // ---- Where sorting puts a declaration -------------------------------------------------------

  function Point(m: Matched, sorted: seq<Matched>): (p: nat)
    ensures p <= |sorted|
  {
    if sorted == [] || !Lower(sorted[0], m) then 0 else 1 + Point(m, sorted[1..])
  }

  /** The place of `list[w]` in the sorted list. */
  function Place(list: seq<Matched>, w: nat): (k: nat)
    requires w < |list|
    decreases |list|
  {
    if w == 0 then Point(list[0], SortByRank(list[1..]))
    else
      var k := Place(list[1..], w - 1);
      if Lower(list[w], list[0]) then k else k + 1
  }

  lemma {:induction false} PointSplits(m: Matched, sorted: seq<Matched>)
    requires Ranked(sorted)
    ensures var p := Point(m, sorted);
            && Insert(m, sorted) == sorted[..p] + [m] + sorted[p..]
            && (forall i :: 0 <= i < p ==> Lower(sorted[i], m))
            && (forall i :: p <= i < |sorted| ==> !Lower(sorted[i], m))
  {
    if sorted != [] {
      if Lower(sorted[0], m) {
        PointSplits(m, sorted[1..]);
      } else {
        forall i | 0 <= i < |sorted| ensures !Lower(sorted[i], m) {
          LowerIsAnOrder(sorted[0], sorted[0], sorted[0]);
          LowerIsAnOrder(sorted[i], sorted[0], m);
        }
      }
    }
  }

  /** What inserting does to place `k`. */
  lemma InsertShifts(m: Matched, sorted: seq<Matched>, k: nat)
    requires Ranked(sorted) && k < |sorted|
    ensures var grown := Insert(m, sorted);
            && |grown| == |sorted| + 1
            && (Lower(sorted[k], m) ==> k < Point(m, sorted) && grown[k] == sorted[k] && grown[..k] == sorted[..k])
            && (!Lower(sorted[k], m) ==> Point(m, sorted) <= k && grown[k + 1] == sorted[k]
                                         && Items(grown[..k + 1]) == {m} + Items(sorted[..k]))
  {
    PointSplits(m, sorted);
    if Lower(sorted[k], m) {
      StaysInFront(m, sorted, Point(m, sorted), k);
    } else {
      MovesBehind(m, sorted, Point(m, sorted), k);
    }
  }

  lemma StaysInFront(m: Matched, s: seq<Matched>, p: nat, k: nat)
    requires k < p <= |s|
    ensures var grown := s[..p] + [m] + s[p..];
            grown[k] == s[k] && grown[..k] == s[..k]
  {
  }

  lemma MovesBehind(m: Matched, s: seq<Matched>, p: nat, k: nat)
    requires p <= k < |s|
    ensures var grown := s[..p] + [m] + s[p..];
            grown[k + 1] == s[k] && Items(grown[..k + 1]) == {m} + Items(s[..k])
  {
    assert (s[..p] + [m] + s[p..])[..k + 1] == s[..p] + [m] + s[p..k];
    assert s[..k] == s[..p] + s[p..k];
  }

  lemma InsertStands(m: Matched, sorted: seq<Matched>)
    requires Ranked(sorted)
    ensures var (grown, p) := (Insert(m, sorted), Point(m, sorted));
            && p < |grown| && grown[p] == m
            && Items(grown[..p]) == set x | x in sorted && Lower(x, m)
  {
    PointSplits(m, sorted);
    var p := Point(m, sorted);
    assert Insert(m, sorted)[..p] == sorted[..p];
    forall x | x in sorted && Lower(x, m) ensures x in sorted[..p] {
      var i :| 0 <= i < |sorted| && sorted[i] == x;
      assert sorted[..p][i] == x;
    }
  }

  /** The declarations applied before `list[w]`. */
  function Before(list: seq<Matched>, w: nat): (items: set<Matched>)
    requires w < |list|
  {
    set j: nat | j < |list| && Precedes(list, j, w) :: list[j]
  }

  lemma BeforeFirst(list: seq<Matched>)
    requires list != []
    ensures Before(list, 0) == set x | x in list[1..] && Lower(x, list[0])
  {
    LowerIsAnOrder(list[0], list[0], list[0]);
    forall x | x in list[1..] && Lower(x, list[0]) ensures x in Before(list, 0) {
      var i: nat :| i < |list[1..]| && list[1..][i] == x;
      assert list[i + 1] == x && Precedes(list, i + 1, 0);
    }
    forall x | x in Before(list, 0) ensures x in list[1..] {
      var j: nat :| j < |list| && Precedes(list, j, 0) && list[j] == x;
      assert j > 0 && list[1..][j - 1] == x;
    }
  }

  lemma BeforeLater(list: seq<Matched>, w: nat)
    requires 0 < w < |list|
    ensures Before(list, w) == Before(list[1..], w - 1) + if Lower(list[w], list[0]) then {} else {list[0]}
  {
    var rest := list[1..];
    assert forall i: nat {:trigger Precedes(list, i, w)} ::
        0 < i < |list| ==> (Precedes(list, i, w) <==> Precedes(rest, i - 1, w - 1));
    LowerIsAnOrder(list[w], list[0], list[w]);
    assert Precedes(list, 0, w) <==> !Lower(list[w], list[0]);
    forall x | x in Before(rest, w - 1) ensures x in Before(list, w) {
      var j: nat :| j < |rest| && Precedes(rest, j, w - 1) && rest[j] == x;
      assert Precedes(list, j + 1, w) && list[j + 1] == x;
    }
    forall j: nat | j < |list| && Precedes(list, j, w)
      ensures j == 0 || list[j] in Before(rest, w - 1)
    {
      if j > 0 {
        assert Precedes(rest, j - 1, w - 1) && rest[j - 1] == list[j];
      }
    }
  }

  lemma SortKeepsLength(list: seq<Matched>)
    ensures |SortByRank(list)| == |list|
  {
    SortRanks(list);
    assert |multiset(SortByRank(list))| == |multiset(list)|;
  }

  /** It stands there, behind exactly the declarations applied before it. */
  lemma {:induction false} PlaceStands(list: seq<Matched>, w: nat)
    requires w < |list|
    ensures var (sorted, k) := (SortByRank(list), Place(list, w));
            && |sorted| == |list| && k < |sorted| && sorted[k] == list[w]
            && Items(sorted[..k]) == Before(list, w)
    decreases |list|
  {
    var rest := SortByRank(list[1..]);
    SortRanks(list[1..]);
    SortKeepsLength(list);
    if w == 0 {
      InsertStands(list[0], rest);
      SortKeepsMembers(list[1..]);
      BeforeFirst(list);
    } else {
      PlaceStands(list[1..], w - 1);
      InsertShifts(list[0], rest, Place(list[1..], w - 1));
      BeforeLater(list, w);
    }
  }

  lemma {:induction false} PlacesFollow(list: seq<Matched>, j: nat, w: nat)
    requires j < |list| && w < |list| && Precedes(list, j, w)
    ensures Place(list, j) < Place(list, w)
    decreases |list|
  {
    var rest := SortByRank(list[1..]);
    SortRanks(list[1..]);
    LowerIsAnOrder(list[j], list[w], list[j]);
    if j == 0 {
      PlaceStands(list[1..], w - 1);
      InsertShifts(list[0], rest, Place(list[1..], w - 1));
    } else if w == 0 {
      PlaceStands(list[1..], j - 1);
      InsertShifts(list[0], rest, Place(list[1..], j - 1));
    } else {
      assert Precedes(list[1..], j - 1, w - 1);
      PlacesFollow(list[1..], j - 1, w - 1);
      LowerIsAnOrder(list[w], list[j], list[0]);
    }
  }

  /** Every place is taken by some declaration. */
  lemma {:induction false} Locate(list: seq<Matched>, k: nat) returns (w: nat)
    requires k < |list|
    ensures w < |list| && Place(list, w) == k
    decreases |list|
  {
    var rest, p := SortByRank(list[1..]), Point(list[0], SortByRank(list[1..]));
    if k == p {
      w := 0;
    } else {
      SortRanks(list[1..]);
      SortKeepsLength(list[1..]);
      PointSplits(list[0], rest);
      var v := Locate(list[1..], if k < p then k else k - 1);
      PlaceStands(list[1..], v);
      w := v + 1;
    }
  }

  // ---- Who wins -------------------------------------------------------------------------------

  /** The table still has room when `list[w]` is applied: it and the names given a value before make less than 256. */
  predicate HasRoom(t: Tables, inherited: map<string, string>, list: seq<Matched>, w: nat)
    requires w < |list|
  {
    |inherited.Keys + Names(t, Before(list, w))| < MAX_CUSTOM_PROPERTIES
  }

  /** The declaration is looked at if and only if there is room: a count over the unsorted list decides. */
  lemma RoomDecides(t: Tables, inherited: map<string, string>, list: seq<Matched>, w: nat)
    requires w < |list|
    ensures Place(list, w) < |list|
    ensures Place(list, w) < LookedAt(t, inherited, SortByRank(list)) <==> HasRoom(t, inherited, list, w)
  {
    PlaceStands(list, w);
    LookedAtCounts(t, inherited, SortByRank(list), Place(list, w));
  }

  predicate DefinesWithRoom(t: Tables, inherited: map<string, string>, list: seq<Matched>, p: string, w: nat) {
    w < |list| && Defines(t, list[w], p) && HasRoom(t, inherited, list, w)
  }

  /** `list[w]` defines `p` with room, and every other declaration that does is applied before it. */
  ghost predicate WinsWithRoom(t: Tables, inherited: map<string, string>, list: seq<Matched>, p: string, w: nat) {
    && DefinesWithRoom(t, inherited, list, p, w)
    && forall j: nat :: j < |list| && j != w && DefinesWithRoom(t, inherited, list, p, j) ==> Precedes(list, j, w)
  }

  lemma {:induction false} LastAt(pick: Pick, list: seq<Matched>, k: nat)
    requires k < |list| && pick(list[k]) && forall i :: k < i < |list| ==> !pick(list[i])
    ensures LastPicked(pick, list) == Some(list[k])
  {
    LastIsMember(pick, list[1..]);
    if k > 0 {
      LastAt(pick, list[1..], k - 1);
    } else {
      forall x | x in list[1..] ensures !pick(x) {
        var i :| 0 <= i < |list[1..]| && list[1..][i] == x;
        assert list[i + 1] == x;
      }
    }
  }

  lemma WinnerWithRoomIsLast(t: Tables, inherited: map<string, string>, list: seq<Matched>, p: string, w: nat)
    requires WinsWithRoom(t, inherited, list, p, w)
    ensures var sorted := SortByRank(list);
            LastPicked(Defining(t, p), sorted[..LookedAt(t, inherited, sorted)]) == Some(list[w])
  {
    var sorted := SortByRank(list);
    var n, k := LookedAt(t, inherited, sorted), Place(list, w);
    SortKeepsLength(list);
    PlaceStands(list, w);
    RoomDecides(t, inherited, list, w);
    forall i | k < i < n ensures !Defines(t, sorted[..n][i], p) {
      var j := Locate(list, i);
      PlaceStands(list, j);
      RoomDecides(t, inherited, list, j);
      if Defines(t, list[j], p) {
        assert DefinesWithRoom(t, inherited, list, p, j);
        PlacesFollow(list, j, w);
      }
    }
    LastAt(Defining(t, p), sorted[..n], k);
  }

  lemma NobodyWithRoom(t: Tables, inherited: map<string, string>, list: seq<Matched>, p: string)
    requires forall w: nat :: !DefinesWithRoom(t, inherited, list, p, w)
    ensures var sorted := SortByRank(list);
            LastPicked(Defining(t, p), sorted[..LookedAt(t, inherited, sorted)]) == None
  {
    var sorted := SortByRank(list);
    var n := LookedAt(t, inherited, sorted);
    SortKeepsLength(list);
    LastIsMember(Defining(t, p), sorted[..n]);
    forall x | x in sorted[..n] ensures !Defines(t, x, p) {
      var i: nat :| i < n && sorted[..n][i] == x;
      var j := Locate(list, i);
      PlaceStands(list, j);
      RoomDecides(t, inherited, list, j);
      assert !DefinesWithRoom(t, inherited, list, p, j);
    }
  }

  lemma SomeoneWinsWithRoom(t: Tables, inherited: map<string, string>, list: seq<Matched>, p: string) returns (w: nat)
    requires exists j: nat :: DefinesWithRoom(t, inherited, list, p, j)
    ensures WinsWithRoom(t, inherited, list, p, w)
  {
    var some: nat :| DefinesWithRoom(t, inherited, list, p, some);
    w := LastWithRoom(t, inherited, list, p, some);
  }

  /** Climbs from one definition with room to the last one applied. */
  lemma {:induction false} LastWithRoom(t: Tables, inherited: map<string, string>, list: seq<Matched>, p: string, some: nat)
    returns (w: nat)
    requires DefinesWithRoom(t, inherited, list, p, some)
    ensures WinsWithRoom(t, inherited, list, p, w)
    decreases |list| - Place(list, some)
  {
    PlaceStands(list, some);
    if j: nat :| j < |list| && j != some && DefinesWithRoom(t, inherited, list, p, j) && !Precedes(list, j, some) {
      LowerIsAnOrder(list[some], list[j], list[some]);
      PlacesFollow(list, some, j);
      PlaceStands(list, j);
      w := LastWithRoom(t, inherited, list, p, j);
    } else {
      w := some;
    }
  }

  /**
   * A custom property ends with the value of its last definition, in rank order, for which there is still
   * room, and keeps its inherited value when there is none. Whether there is room is a count of names.
   */
  lemma LastWithRoomStays(t: Tables, inherited: map<string, string>, list: seq<Matched>, p: string)
    ensures var final := Get(ApplyCustoms(t, inherited, SortByRank(list)), p);
            && (forall w: nat :: WinsWithRoom(t, inherited, list, p, w) ==> final == t.custom(list[w].decl.value))
            && ((forall w: nat :: !DefinesWithRoom(t, inherited, list, p, w)) ==> final == Get(inherited, p))
  {
    LastDefinitionStays(t, inherited, SortByRank(list), p);
    forall w: nat | WinsWithRoom(t, inherited, list, p, w)
      ensures Get(ApplyCustoms(t, inherited, SortByRank(list)), p) == t.custom(list[w].decl.value)
    {
      WinnerWithRoomIsLast(t, inherited, list, p, w);
    }
    if forall w: nat :: !DefinesWithRoom(t, inherited, list, p, w) {
      NobodyWithRoom(t, inherited, list, p);
    }
  }

  /** No other definition and not the inherited value gives what `list[w]` gives. */
  predicate GivesItsOwn(t: Tables, inherited: map<string, string>, list: seq<Matched>, p: string, w: nat)
    requires w < |list|
  {
    && Get(inherited, p) != t.custom(list[w].decl.value)
    && forall j :: 0 <= j < |list| && j != w && Defines(t, list[j], p) ==>
         t.custom(list[j].decl.value) != t.custom(list[w].decl.value)
  }

  /**
   * So the winning definition decides when there is room for it, and, where its value can be told from
   * the others, only then: names inherited or defined before it must number less than 256.
   */
  lemma CustomPropertyPicksTheWinner(t: Tables, inherited: map<string, string>, list: seq<Matched>, p: string, w: nat)
    requires Wins(Defining(t, p), list, w)
    ensures var final := Get(ApplyCustoms(t, inherited, SortByRank(list)), p);
            && (HasRoom(t, inherited, list, w) ==> final == t.custom(list[w].decl.value))
            && (GivesItsOwn(t, inherited, list, p, w) ==>
                  (final == t.custom(list[w].decl.value) <==> HasRoom(t, inherited, list, w)))
  {
    LastWithRoomStays(t, inherited, list, p);
    if HasRoom(t, inherited, list, w) {
      assert DefinesWithRoom(t, inherited, list, p, w);
      assert WinsWithRoom(t, inherited, list, p, w);
    } else if exists j: nat :: DefinesWithRoom(t, inherited, list, p, j) {
      var v := SomeoneWinsWithRoom(t, inherited, list, p);
      assert v != w;
    }
  }

  // ---- A full table -----------------------------------------------------------------------------

  /** 256 inherited custom properties. */
  function FullTable(): (customs: map<string, string>) {
    map name | name in Tagged("--", MAX_CUSTOM_PROPERTIES) :: "old"
  }

  lemma FullTableHolds()
    ensures |FullTable()| == MAX_CUSTOM_PROPERTIES && Get(FullTable(), Tag("--", 0)) == Some("old")
  {
    TaggedCount("--", MAX_CUSTOM_PROPERTIES);
    assert FullTable().Keys == Tagged("--", MAX_CUSTOM_PROPERTIES) && |FullTable()| == |FullTable().Keys|;
    assert Tag("--", 0) in Tagged("--", MAX_CUSTOM_PROPERTIES);
  }

  /** The one declaration there is wins, is valid, and loses to the value inherited. */
  lemma WinnerLosesToFullTable(t: Tables)
    requires t.custom("new") == Some("new")
    ensures var p := Tag("--", 0);
            var list := [Matched(Declaration(p, "new", false, 1), Author, None, Specificity(0, 0, 1), 1, false)];
            && Wins(Defining(t, p), list, 0) && !HasRoom(t, FullTable(), list, 0)
            && Get(ApplyCustoms(t, FullTable(), SortByRank(list)), p) == Some("old")
  {
    var p := Tag("--", 0);
    var list := [Matched(Declaration(p, "new", false, 1), Author, None, Specificity(0, 0, 1), 1, false)];
    FullTableHolds();
    KeysAndMore(FullTable(), Names(t, Before(list, 0)));
    FullTableIsFinal(t, FullTable(), SortByRank(list));
    assert p[..2] == "--" && IsCustom(p);
  }
}
