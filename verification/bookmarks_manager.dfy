/** The bookmarks manager: import validation, id allocation, and every run of edits. */
module BookmarksManagement {
  import opened Bookmarks
  import opened MachineInts
  import opened Text
  import opened Wrappers

  // ---- Import -------------------------------------------------------------------------------

  datatype ImportError = OverBudget | DuplicateId | TooLong | BadShape | RootNotFolder

  datatype Seen = Seen(ids: set<nat>, maxId: nat)

  predicate FitsBudget(node: Item) {
    Bytes(node.title) <= MAX_TITLE_BYTES && (node.url.Some? ==> Bytes(node.url.value) <= MAX_URL_BYTES)
  }

  predicate WellFormed(node: Item) {
    node.isFolder == node.url.None? && (!node.isFolder ==> node.children == [])
  }

  function Grown(seen: Seen, id: nat): (next: Seen) {
    Seen(seen.ids + {id}, if id > seen.maxId then id else seen.maxId)
  }

  function Validate(node: Item, depth: nat, seen: Seen): (r: Result<Seen, ImportError>) {
    if depth > MAX_DEPTH || |seen.ids| >= MAX_ITEMS then Err(OverBudget)
    else if node.id in seen.ids then Err(DuplicateId)
    else if !FitsBudget(node) then Err(TooLong)
    else if !WellFormed(node) then Err(BadShape)
    else ValidateAmong(node.children, depth + 1, Grown(seen, node.id))
  }

  function ValidateAmong(nodes: seq<Item>, depth: nat, seen: Seen): (r: Result<Seen, ImportError>) {
    if nodes == [] then Ok(seen)
    else
      var next :- Validate(nodes[0], depth, seen);
      ValidateAmong(nodes[1..], depth, next)
  }

  /** Depth, lengths and shape of every item. */
  predicate Acceptable(node: Item, depth: nat) {
    depth <= MAX_DEPTH && FitsBudget(node) && WellFormed(node) && AcceptableAmong(node.children, depth + 1)
  }

  predicate AcceptableAmong(nodes: seq<Item>, depth: nat) {
    nodes == [] || (Acceptable(nodes[0], depth) && AcceptableAmong(nodes[1..], depth))
  }

  /** The largest id so far, and over these ids. */
  predicate IsMax(ids: set<nat>, before: nat, max: nat) {
    before <= max && (max == before || max in ids) && forall id <- ids :: id <= max
  }

  /** Accepted exactly when fine, apart from what was seen, and within the item budget. */
  predicate Decides(ids: set<nat>, fine: bool, seen: Seen, r: Result<Seen, ImportError>) {
    r.Ok? <==> fine && ids !! seen.ids && |seen.ids| + |ids| <= MAX_ITEMS
  }

  predicate Collects(ids: set<nat>, seen: Seen, r: Result<Seen, ImportError>) {
    r.Ok? ==> r.value.ids == seen.ids + ids && IsMax(ids, seen.maxId, r.value.maxId)
  }

  predicate Judged(t: Table, fine: bool, seen: Seen, r: Result<Seen, ImportError>) {
    Decides(t.Keys, fine, seen, r) && Collects(t.Keys, seen, r)
  }

  lemma {:induction false} ValidateJudges(node: Item, depth: nat, seen: Seen)
    requires |seen.ids| <= MAX_ITEMS
    ensures Judged(Rows(node), Acceptable(node, depth) && Unique(node), seen, Validate(node, depth, seen))
    decreases node, 0
  {
    if |seen.ids| >= MAX_ITEMS || node.id in seen.ids {
      NoRoom(node, Acceptable(node, depth) && Unique(node), seen, Validate(node, depth, seen));
    } else if depth <= MAX_DEPTH && FitsBudget(node) && WellFormed(node) {
      ValidateOpen(node, depth, seen);
    }
  }

  /** A node that passes by itself is judged by its children. */
  lemma {:induction false} ValidateOpen(node: Item, depth: nat, seen: Seen)
    requires |seen.ids| < MAX_ITEMS && node.id !in seen.ids && depth <= MAX_DEPTH && FitsBudget(node) && WellFormed(node)
    ensures Judged(Rows(node), Acceptable(node, depth) && Unique(node), seen, Validate(node, depth, seen))
    decreases node, 0, 0
  {
    var next := Grown(seen, node.id);
    CardDisjoint(seen.ids, {node.id});
    ValidateAmongJudges(node.children, depth + 1, next);
    OpenParts(node, depth, seen);
    JudgeHead(node.id, RowOf(node), RowsAmong(node.children),
              AcceptableAmong(node.children, depth + 1) && UniqueAmong(node.children), seen,
              ValidateAmong(node.children, depth + 1, next));
  }

  lemma OpenParts(node: Item, depth: nat, seen: Seen)
    requires |seen.ids| < MAX_ITEMS && node.id !in seen.ids && depth <= MAX_DEPTH && FitsBudget(node) && WellFormed(node)
    ensures Rows(node) == map[node.id := RowOf(node)] + RowsAmong(node.children)
    ensures (Acceptable(node, depth) && Unique(node))
            == ((AcceptableAmong(node.children, depth + 1) && UniqueAmong(node.children))
                && node.id !in RowsAmong(node.children))
    ensures Validate(node, depth, seen) == ValidateAmong(node.children, depth + 1, Grown(seen, node.id))
  {
  }

  lemma JudgeHead(id: nat, row: Row, below: Table, fine: bool, seen: Seen, r: Result<Seen, ImportError>)
    requires |seen.ids| < MAX_ITEMS && id !in seen.ids && Judged(below, fine, Grown(seen, id), r)
    ensures Judged(map[id := row] + below, fine && id !in below, seen, r)
  {
    assert (map[id := row] + below).Keys == {id} + below.Keys;
    DecideHead(id, below.Keys, fine, seen, r);
    CollectHead(id, below.Keys, seen, r);
  }

  lemma NoRoom(node: Item, fine: bool, seen: Seen, r: Result<Seen, ImportError>)
    requires r.Err? && (|seen.ids| >= MAX_ITEMS || node.id in seen.ids)
    ensures Judged(Rows(node), fine, seen, r)
  {
    assert node.id in Rows(node).Keys;
    assert Rows(node).Keys != {};
  }

  lemma DecideHead(id: nat, below: set<nat>, fine: bool, seen: Seen, r: Result<Seen, ImportError>)
    requires |seen.ids| < MAX_ITEMS && id !in seen.ids && Decides(below, fine, Grown(seen, id), r)
    ensures Decides({id} + below, fine && id !in below, seen, r)
  {
    CardDisjoint(seen.ids, {id});
    if id !in below {
      CardDisjoint({id}, below);
    }
  }

  lemma CollectHead(id: nat, below: set<nat>, seen: Seen, r: Result<Seen, ImportError>)
    requires Collects(below, Grown(seen, id), r)
    ensures Collects({id} + below, seen, r)
  {
    assert seen.ids + {id} + below == seen.ids + ({id} + below);
  }

  lemma DecideBoth(a: set<nat>, b: set<nat>, fineB: bool, seen: Seen, mid: Seen, rb: Result<Seen, ImportError>)
    requires a !! seen.ids && mid.ids == seen.ids + a && Decides(b, fineB, mid, rb)
    ensures Decides(a + b, fineB && a !! b, seen, rb)
  {
    CardDisjoint(seen.ids, a);
    if a !! b {
      CardDisjoint(a, b);
    }
  }

  lemma CollectBoth(a: set<nat>, b: set<nat>, seen: Seen, mid: Seen, rb: Result<Seen, ImportError>)
    requires mid.ids == seen.ids + a && IsMax(a, seen.maxId, mid.maxId) && Collects(b, mid, rb)
    ensures Collects(a + b, seen, rb)
  {
    assert seen.ids + a + b == seen.ids + (a + b);
  }

  lemma JudgeCons(a: Table, b: Table, fineA: bool, fineB: bool, seen: Seen, ra: Result<Seen, ImportError>,
                  rb: Result<Seen, ImportError>)
    requires Judged(a, fineA, seen, ra)
    requires if ra.Ok? then Judged(b, fineB, ra.value, rb) else rb == ra
    ensures Judged(a + b, fineA && fineB && a.Keys !! b.Keys, seen, rb)
  {
    assert (a + b).Keys == a.Keys + b.Keys;
    if ra.Ok? {
      DecideBoth(a.Keys, b.Keys, fineB, seen, ra.value, rb);
      CollectBoth(a.Keys, b.Keys, seen, ra.value, rb);
    } else {
      CardGrows(a.Keys, b.Keys);
    }
  }

  lemma CardDisjoint(x: set<nat>, y: set<nat>)
    requires x !! y
    ensures |x + y| == |x| + |y|
  {
  }

  lemma CardGrows(x: set<nat>, y: set<nat>)
    ensures |x| <= |x + y|
  {
    CardDisjoint(x, y - x);
    assert x + (y - x) == x + y;
  }

  lemma {:induction false} ValidateAmongJudges(nodes: seq<Item>, depth: nat, seen: Seen)
    requires |seen.ids| <= MAX_ITEMS
    ensures Judged(RowsAmong(nodes), AcceptableAmong(nodes, depth) && UniqueAmong(nodes), seen,
                   ValidateAmong(nodes, depth, seen))
    decreases nodes, 1
  {
    if nodes == [] {
      assert seen.ids + {} == seen.ids;
    } else {
      ValidateJudges(nodes[0], depth, seen);
      var first := Validate(nodes[0], depth, seen);
      if first.Ok? {
        CardDisjoint(seen.ids, Rows(nodes[0]).Keys);
        ValidateAmongJudges(nodes[1..], depth, first.value);
      }
      JudgeCons(Rows(nodes[0]), RowsAmong(nodes[1..]), Acceptable(nodes[0], depth) && Unique(nodes[0]),
                AcceptableAmong(nodes[1..], depth) && UniqueAmong(nodes[1..]), seen, first,
                if first.Ok? then ValidateAmong(nodes[1..], depth, first.value) else first);
    }
  }

  // ---- The manager ----------------------------------------------------------------------------

  datatype Manager = Manager(root: Item, nextId: nat)

  const FRESH := Manager(Item(1, "Bookmarks Bar", None, true, []), 2)

  function FromRoot(root: Item): (r: Result<Manager, ImportError>) {
    var seen :- Validate(root, 0, Seen({}, 0));
    if !root.isFolder then Err(RootNotFolder) else Ok(Manager(root, SaturatingAdd(seen.maxId, 1)))
  }

  /** A tree is accepted exactly when it is within every budget, well shaped, without a repeated id, and a folder. */
  lemma ImportAcceptsExactly(root: Item)
    ensures FromRoot(root).Ok? <==>
            Acceptable(root, 0) && Unique(root) && |Rows(root)| <= MAX_ITEMS && root.isFolder
    ensures FromRoot(root).Ok? ==>
              exists max :: IsMax(Rows(root).Keys, 0, max) && FromRoot(root).value == Manager(root, SaturatingAdd(max, 1))
  {
    ValidateJudges(root, 0, Seen({}, 0));
    assert |Rows(root)| == |Rows(root).Keys|;
    var seen := Validate(root, 0, Seen({}, 0));
    if seen.Ok? && root.isFolder {
      assert IsMax(Rows(root).Keys, 0, seen.value.maxId);
    }
  }

  /** Titles up to 4096 bytes, addresses up to 64 KiB; folders have no address, and only folders hold items; 32 levels. */
  lemma ItemLimits(node: Item, depth: nat)
    ensures Acceptable(node, depth)
            <==> && depth < 33 && Bytes(node.title) < 4_097 && (node.url.Some? ==> Bytes(node.url.value) < 65_537)
                 && (node.isFolder <==> node.url.None?) && (node.children != [] ==> node.isFolder)
                 && forall i :: 0 <= i < |node.children| ==> Acceptable(node.children[i], depth + 1)
  {
    AllAcceptable(node.children, depth + 1);
  }

  lemma {:induction false} AllAcceptable(nodes: seq<Item>, depth: nat)
    ensures AcceptableAmong(nodes, depth) <==> forall i :: 0 <= i < |nodes| ==> Acceptable(nodes[i], depth)
  {
    if nodes != [] {
      AllAcceptable(nodes[1..], depth);
      assert forall i :: 0 < i < |nodes| ==> nodes[i] == nodes[1..][i - 1];
    }
  }

  lemma {:induction false} AcceptableIsShaped(node: Item, depth: nat)
    requires Acceptable(node, depth)
    ensures Shaped(node)
    decreases node, 0
  {
    AcceptableAmongIsShaped(node.children, depth + 1);
  }

  lemma {:induction false} AcceptableAmongIsShaped(nodes: seq<Item>, depth: nat)
    requires AcceptableAmong(nodes, depth)
    ensures ShapedAmong(nodes)
    decreases nodes, 1
  {
    if nodes != [] {
      AcceptableIsShaped(nodes[0], depth);
      AcceptableAmongIsShaped(nodes[1..], depth);
    }
  }

  /** A bookmark when a URL is given, a folder otherwise; the id is used up even if there is no such parent. */
  function Add(m: Manager, parent: nat, title: string, url: Option<string>): (r: (Manager, Option<nat>)) {
    var placed := InsertInto(m.root, parent, Item(m.nextId, title, url, url.None?, []));
    (Manager(placed.0, (m.nextId + 1) % (U64_MAX + 1)), if placed.1 then Some(m.nextId) else None)
  }

  function Remove(m: Manager, id: nat): (r: (Manager, bool)) {
    if id == m.root.id then (m, false)
    else
      var taken := RemoveFrom(m.root, id);
      (m.(root := taken.0), taken.1)
  }

  function RemoveUrl(m: Manager, url: string): (r: (Manager, nat)) {
    var taken := RemoveUrlFrom(m.root, url);
    (m.(root := taken.0), taken.1)
  }

  function Import(m: Manager, root: Item): (after: Manager) {
    if FromRoot(root).Ok? then FromRoot(root).value else m
  }

  class BookmarksManager {
    var root: Item
    var nextId: nat

    function View(): (m: Manager)
      reads this
    {
      Manager(root, nextId)
    }

    constructor ()
      ensures View() == FRESH
    {
      root, nextId := Item(1, "Bookmarks Bar", None, true, []), 2;
    }

    method AddBookmark(parent: nat, title: string, url: string) returns (id: Option<nat>)
      modifies this
      ensures (View(), id) == Add(old(View()), parent, title, Some(url))
    {
      id := Place(parent, title, Some(url));
    }

    method CreateFolder(parent: nat, title: string) returns (id: Option<nat>)
      modifies this
      ensures (View(), id) == Add(old(View()), parent, title, None)
    {
      id := Place(parent, title, None);
    }

    method Place(parent: nat, title: string, url: Option<string>) returns (id: Option<nat>)
      modifies this
      ensures (View(), id) == Add(old(View()), parent, title, url)
    {
      var own := nextId;
      nextId := (nextId + 1) % (U64_MAX + 1);
      var placed := InsertInto(root, parent, Item(own, title, url, url.None?, []));
      root := placed.0;
      id := if placed.1 then Some(own) else None;
    }

    method RemoveItem(id: nat) returns (ok: bool)
      modifies this
      ensures (View(), ok) == Remove(old(View()), id)
    {
      if id == root.id {
        return false;
      }
      var taken := RemoveFrom(root, id);
      root := taken.0;
      ok := taken.1;
    }

    method RemoveByUrl(url: string) returns (removed: nat)
      modifies this
      ensures (View(), removed) == RemoveUrl(old(View()), url)
    {
      var taken := RemoveUrlFrom(root, url);
      root := taken.0;
      removed := taken.1;
    }

    method ImportTree(tree: Item) returns (error: Option<ImportError>)
      modifies this
      ensures View() == Import(old(View()), tree)
      ensures error == if FromRoot(tree).Err? then Some(FromRoot(tree).error) else None
    {
      var made := FromRoot(tree);
      if made.Err? {
        return Some(made.error);
      }
      root, nextId := made.value.root, made.value.nextId;
      error := None;
    }
  }

  // ---- What every edit keeps --------------------------------------------------------------------

  /** Ids are unique and below the next one; the root is a folder. */
  predicate Inv(m: Manager) {
    Sane(m.root) && m.root.isFolder && m.nextId <= U64_MAX && forall id <- Rows(m.root) :: id < m.nextId
  }

  lemma NewItem(m: Manager, title: string, url: Option<string>)
    requires Inv(m)
    ensures var item := Item(m.nextId, title, url, url.None?, []);
            Sane(item) && Rows(item) == map[m.nextId := Row(title, url, url.None?, [])]
            && Rows(m.root).Keys !! Rows(item).Keys
  {
    var item := Item(m.nextId, title, url, url.None?, []);
    assert Rows(item) == map[m.nextId := RowOf(item)] + map[] == map[m.nextId := RowOf(item)];
  }

  /** An addition hangs exactly one new row, with an id never used before, under the named folder, or nothing. */
  lemma AddHangsOne(m: Manager, parent: nat, title: string, url: Option<string>)
    requires Inv(m)
    ensures var (after, id) := Add(m, parent, title, url);
            var before := Rows(m.root);
            && m.nextId !in before
            && (if IsFolderIn(before, parent)
                then id == Some(m.nextId)
                     && Rows(after.root) == before[parent := before[parent].(children := before[parent].children + [m.nextId])]
                                                  [m.nextId := Row(title, url, url.None?, [])]
                else id == None && Rows(after.root) == before)
  {
    NewItem(m, title, url);
    InsertIntoHangs(m.root, parent, Item(m.nextId, title, url, url.None?, []));
  }

  /**
   * Additions keep the invariant as long as the 64-bit counter does not wrap, and that is exactly when:
   * after the last id the counter starts again at 0.
   */
  lemma AddKeepsInv(m: Manager, parent: nat, title: string, url: Option<string>)
    requires Inv(m)
    ensures Inv(Add(m, parent, title, url).0) <==> m.nextId < U64_MAX
  {
    var item := Item(m.nextId, title, url, url.None?, []);
    NewItem(m, title, url);
    InsertIntoHangs(m.root, parent, item);
    HeadRow(m.root);
    var after := Add(m, parent, title, url).0;
    assert after.root.id in Rows(after.root);
    assert forall id <- Rows(after.root) :: id in Rows(m.root) || id == m.nextId;
  }

  /** A removal takes out exactly one whole subtree, and never the root. */
  lemma RemoveTakesSubtree(m: Manager, id: nat) returns (sub: Item)
    requires Inv(m)
    ensures var (after, ok) := Remove(m, id);
            && (ok <==> id in Rows(m.root) && id != m.root.id)
            && (ok ==> TakesOut(Rows(m.root), Rows(after.root), sub, id))
            && (!ok ==> after == m)
            && Inv(after)
  {
    sub := RemoveFromTakes(m.root, id);
    assert Rows(m.root).Keys == {m.root.id} + RowsAmong(m.root.children).Keys;
  }

  lemma RemoveUrlTakesBookmarks(m: Manager, url: string)
    requires Inv(m)
    ensures var (after, removed) := RemoveUrl(m, url);
            && Strikes(Rows(m.root), Rows(after.root), url, removed)
            && Bookmarked(Rows(after.root), url) == {} && removed == |Rows(m.root)| - |Rows(after.root)|
            && Inv(after)
  {
    RemoveUrlStrikes(m.root, url);
    NoneLeft(m.root, url);
  }

  /** An accepted import keeps the invariant exactly when no id is the largest 64-bit number. */
  lemma ImportKeepsInv(m: Manager, root: Item)
    requires FromRoot(root).Ok? && forall id <- Rows(root) :: id <= U64_MAX
    ensures Inv(Import(m, root)) <==> U64_MAX !in Rows(root)
  {
    ImportAcceptsExactly(root);
    AcceptableIsShaped(root, 0);
    var max :| IsMax(Rows(root).Keys, 0, max) && FromRoot(root).value == Manager(root, SaturatingAdd(max, 1));
    assert U64_MAX in Rows(root) ==> max == U64_MAX;
    assert max == U64_MAX ==> U64_MAX in Rows(root).Keys;
  }

  function Folder(id: nat, children: seq<Item>): (f: Item) {
    Item(id, "", None, true, children)
  }

  const LAST := U64_MAX - 1

  lemma OneFolder(id: nat)
    ensures Rows(Folder(id, [])) == map[id := Row("", None, true, [])] && Sane(Folder(id, []))
  {
    assert Rows(Folder(id, [])) == map[id := RowOf(Folder(id, []))] + map[];
  }

  lemma TwoRows()
    ensures var tree := Folder(LAST, [Folder(0, [])]);
            Rows(tree).Keys == {LAST, 0} && Sane(tree)
  {
    var inner := Folder(0, []);
    OneFolder(0);
    assert [inner][1..] == [];
    assert RowsAmong([inner]) == Rows(inner) + map[] == Rows(inner);
    assert UniqueAmong([inner]) && ShapedAmong([inner]);
  }

  /** A tree of two folders, one of them with the last id but one. */
  lemma TwoFolders()
    ensures var tree := Folder(LAST, [Folder(0, [])]);
            FromRoot(tree) == Ok(Manager(tree, U64_MAX)) && Inv(Manager(tree, U64_MAX))
  {
    var inner := Folder(0, []);
    TwoRows();
    assert [inner][1..] == [] && |{LAST}| == 1 && {LAST} + {0} == {LAST, 0};
    assert Grown(Seen({}, 0), LAST) == Seen({LAST}, LAST);
    assert ValidateAmong([], 2, Seen({LAST, 0}, LAST)) == Ok(Seen({LAST, 0}, LAST));
    assert Validate(inner, 1, Seen({LAST}, LAST)) == Ok(Seen({LAST, 0}, LAST));
    assert ValidateAmong([inner], 1, Seen({LAST}, LAST)) == Ok(Seen({LAST, 0}, LAST));
  }

  /** The counter runs out: after an import with the last id but one, the second folder added gets an id in use. */
  lemma CounterWraps()
    ensures var tree := Folder(LAST, [Folder(0, [])]);
            var full := Import(FRESH, tree);
            var (once, first) := Add(full, LAST, "", None);
            var (twice, second) := Add(once, LAST, "", None);
            && FromRoot(tree).Ok? && Inv(full) && full.nextId == U64_MAX && first == Some(U64_MAX) && !Inv(once)
            && second == Some(0) && 0 in Rows(once.root) && !Unique(twice.root)
  {
    var inner, middle := Folder(0, []), Folder(U64_MAX, []);
    var full := Manager(Folder(LAST, [inner]), U64_MAX);
    TwoFolders();
    AddKeepsInv(full, LAST, "", None);
    assert [inner] + [middle] == [inner, middle] && [inner, middle] + [inner] == [inner, middle, inner];
    assert Add(full, LAST, "", None) == (Manager(Folder(LAST, [inner, middle]), 0), Some(U64_MAX));
    assert Add(Manager(Folder(LAST, [inner, middle]), 0), LAST, "", None)
        == (Manager(Folder(LAST, [inner, middle, inner]), 1), Some(0));
    assert [inner, middle][1..] == [middle];
    assert [inner, middle, inner][1..] == [middle, inner] && [middle, inner][1..] == [inner];
    assert 0 in Rows(inner) && 0 in RowsAmong([inner]) && 0 in RowsAmong([middle, inner]) && 0 in RowsAmong([inner, middle]);
  }

  /** An accepted tree with the largest id: the first folder added gets that id again. */
  lemma LargestIdIsImported()
    ensures var tree := Folder(U64_MAX, []);
            var full := Import(FRESH, tree);
            var (once, first) := Add(full, U64_MAX, "", None);
            FromRoot(tree).Ok? && !Inv(full) && first == Some(U64_MAX) && !Unique(once.root)
  {
    var tree := Folder(U64_MAX, []);
    assert FromRoot(tree) == Ok(Manager(tree, U64_MAX));
    ImportKeepsInv(FRESH, tree);
    assert [] + [tree] == [tree];
    assert InsertInto(tree, U64_MAX, tree) == (Folder(U64_MAX, [tree]), true);
    assert U64_MAX in Rows(tree) && U64_MAX in RowsAmong([tree]);
  }

  // ---- Every run --------------------------------------------------------------------------------

  datatype Edit =
    | AddEdit(parent: nat, title: string, url: Option<string>) | RemoveEdit(id: nat) | RemoveUrlEdit(target: string)
    | ImportEdit(root: Item)

  function Step(m: Manager, e: Edit): (after: Manager) {
    match e
    case AddEdit(parent, title, url) => Add(m, parent, title, url).0
    case RemoveEdit(id) => Remove(m, id).0
    case RemoveUrlEdit(url) => RemoveUrl(m, url).0
    case ImportEdit(root) => Import(m, root)
  }

  /** The counter does not run out on this edit: the two exceptions found above. */
  predicate HasRoom(m: Manager, e: Edit) {
    match e
    case AddEdit(_, _, _) => m.nextId < U64_MAX
    case ImportEdit(root) => FromRoot(root).Ok? ==> forall id <- Rows(root) :: id < U64_MAX
    case _ => true
  }

  ghost predicate IsRun(trace: seq<Manager>, edits: seq<Edit>) {
    |trace| == |edits| + 1 && forall i :: 0 <= i < |edits| ==> trace[i + 1] == Step(trace[i], edits[i])
  }

  /** Every run of edits keeps ids unique and below the next one. */
  lemma {:induction false} RunKeepsInv(trace: seq<Manager>, edits: seq<Edit>, n: nat)
    requires IsRun(trace, edits) && n <= |edits| && Inv(trace[0])
    requires forall i :: 0 <= i < n ==> HasRoom(trace[i], edits[i])
    ensures Inv(trace[n])
  {
    if n > 0 {
      RunKeepsInv(trace, edits, n - 1);
      var m := trace[n - 1];
      assert HasRoom(m, edits[n - 1]);
      match edits[n - 1] {
        case AddEdit(parent, title, url) => AddKeepsInv(m, parent, title, url);
        case RemoveEdit(id) => var _ := RemoveTakesSubtree(m, id);
        case RemoveUrlEdit(url) => RemoveUrlTakesBookmarks(m, url);
        case ImportEdit(root) =>
          if FromRoot(root).Ok? {
            ImportKeepsInv(m, root);
          }
      }
      assert trace[n] == Step(m, edits[n - 1]);
    }
  }

  /** A new manager satisfies the invariant. */
  lemma FreshInv()
    ensures Inv(FRESH)
  {
    assert Rows(FRESH.root) == map[1 := RowOf(FRESH.root)] + map[];
  }
}
