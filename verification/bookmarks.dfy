/** The bookmark tree, its edits, and the manager that hands out ids. */
module Bookmarks {
  import opened Wrappers

  const MAX_DEPTH := 32
  const MAX_ITEMS := 10_000
  const MAX_TITLE_BYTES := 4096
  const MAX_URL_BYTES := 64 * 1024

  datatype Item = Item(id: nat, title: string, url: Option<string>, isFolder: bool, children: seq<Item>)

  // ---- Edits --------------------------------------------------------------------------------

  function InsertInto(node: Item, parent: nat, item: Item): (r: (Item, bool)) {
    if node.id == parent && node.isFolder then (node.(children := node.children + [item]), true)
    else
      var r := InsertAmong(node.children, parent, item);
      (node.(children := r.0), r.1)
  }

  function InsertAmong(nodes: seq<Item>, parent: nat, item: Item): (r: (seq<Item>, bool)) {
    if nodes == [] then ([], false)
    else
      var first := if nodes[0].isFolder then InsertInto(nodes[0], parent, item) else (nodes[0], false);
      if first.1 then ([first.0] + nodes[1..], true)
      else
        var rest := InsertAmong(nodes[1..], parent, item);
        ([first.0] + rest.0, rest.1)
  }

  /** The first child with that id. */
  function Position(nodes: seq<Item>, id: nat): (i: Option<nat>)
    ensures i.Some? ==> i.value < |nodes| && nodes[i.value].id == id
  {
    if nodes == [] then None
    else if nodes[0].id == id then Some(0)
    else
      var later := Position(nodes[1..], id);
      if later.None? then None else Some(later.value + 1)
  }

  function RemoveFrom(node: Item, id: nat): (r: (Item, bool)) {
    var at := Position(node.children, id);
    if at.Some? then (node.(children := node.children[..at.value] + node.children[at.value + 1..]), true)
    else
      var r := RemoveAmong(node.children, id);
      (node.(children := r.0), r.1)
  }

  function RemoveAmong(nodes: seq<Item>, id: nat): (r: (seq<Item>, bool)) {
    if nodes == [] then ([], false)
    else
      var first := if nodes[0].isFolder then RemoveFrom(nodes[0], id) else (nodes[0], false);
      if first.1 then ([first.0] + nodes[1..], true)
      else
        var rest := RemoveAmong(nodes[1..], id);
        ([first.0] + rest.0, rest.1)
  }

  predicate IsBookmarkOf(node: Item, url: string) {
    !node.isFolder && node.url == Some(url)
  }

  function RemoveUrlFrom(node: Item, url: string): (r: (Item, nat)) {
    var r := RemoveUrlAmong(node.children, url);
    (node.(children := r.0), r.1)
  }

  /** Bookmarks of the URL go, folders are searched, and what was removed is counted. */
  function RemoveUrlAmong(nodes: seq<Item>, url: string): (r: (seq<Item>, nat)) {
    if nodes == [] then ([], 0)
    else
      var rest := RemoveUrlAmong(nodes[1..], url);
      if IsBookmarkOf(nodes[0], url) then (rest.0, rest.1 + 1)
      else
        var first := if nodes[0].isFolder then RemoveUrlFrom(nodes[0], url) else (nodes[0], 0);
        ([first.0] + rest.0, first.1 + rest.1)
  }

  // ---- The tree as a table ------------------------------------------------------------------

  /** One item, its children only named. */
  datatype Row = Row(title: string, url: Option<string>, isFolder: bool, children: seq<nat>)

  type Table = map<nat, Row>

  function IdsOf(nodes: seq<Item>): (ids: seq<nat>) {
    if nodes == [] then [] else [nodes[0].id] + IdsOf(nodes[1..])
  }

  function RowOf(node: Item): (row: Row) {
    Row(node.title, node.url, node.isFolder, IdsOf(node.children))
  }

  function Rows(node: Item): (t: Table) {
    map[node.id := RowOf(node)] + RowsAmong(node.children)
  }

  function RowsAmong(nodes: seq<Item>): (t: Table) {
    if nodes == [] then map[] else Rows(nodes[0]) + RowsAmong(nodes[1..])
  }

  /** No id occurs twice in the tree. */
  predicate Unique(node: Item) {
    node.id !in RowsAmong(node.children) && UniqueAmong(node.children)
  }

  predicate UniqueAmong(nodes: seq<Item>) {
    nodes == []
    || (Unique(nodes[0]) && Rows(nodes[0]).Keys !! RowsAmong(nodes[1..]).Keys && UniqueAmong(nodes[1..]))
  }

  /** Only folders have children. */
  predicate Shaped(node: Item) {
    (!node.isFolder ==> node.children == []) && ShapedAmong(node.children)
  }

  predicate ShapedAmong(nodes: seq<Item>) {
    nodes == [] || (Shaped(nodes[0]) && ShapedAmong(nodes[1..]))
  }

  // ---- Insertion ------------------------------------------------------------------------------

  /** The table after a new row is hung last under folder `parent`. */
  function Hung(t: Table, parent: nat, item: Item): (after: Table)
    requires parent in t
  {
    t[parent := t[parent].(children := t[parent].children + [item.id])] + Rows(item)
  }

  predicate IsFolderIn(t: Table, id: nat) {
    id in t && t[id].isFolder
  }

  ghost predicate Inserts(before: Table, after: Table, parent: nat, item: Item, ok: bool) {
    (ok <==> IsFolderIn(before, parent)) && after == if ok then Hung(before, parent, item) else before
  }

  lemma MapsAssociate<K, V>(a: map<K, V>, b: map<K, V>, c: map<K, V>)
    ensures (a + b) + c == a + (b + c)
  {
  }

  lemma {:induction false} AppendRows(nodes: seq<Item>, item: Item)
    requires RowsAmong(nodes).Keys !! Rows(item).Keys
    ensures RowsAmong(nodes + [item]) == RowsAmong(nodes) + Rows(item)
    ensures IdsOf(nodes + [item]) == IdsOf(nodes) + [item.id]
    ensures UniqueAmong(nodes) && Unique(item) ==> UniqueAmong(nodes + [item])
    ensures ShapedAmong(nodes) && Shaped(item) ==> ShapedAmong(nodes + [item])
  {
    var all := nodes + [item];
    if nodes == [] {
      assert all == [item] && all[1..] == [];
      assert Rows(item) + map[] == Rows(item) == map[] + Rows(item);
    } else {
      assert all[0] == nodes[0] && all[1..] == nodes[1..] + [item];
      AppendRows(nodes[1..], item);
      MapsAssociate(Rows(nodes[0]), RowsAmong(nodes[1..]), Rows(item));
    }
  }

  lemma HungLeft(a: Table, b: Table, a2: Table, parent: nat, item: Item, ok: bool)
    requires a.Keys !! b.Keys && (a.Keys + b.Keys) !! Rows(item).Keys
    requires Inserts(a, a2, parent, item, ok)
    ensures ok ==> Inserts(a + b, a2 + b, parent, item, true)
    ensures !ok && !IsFolderIn(b, parent) ==> Inserts(a + b, a2 + b, parent, item, false)
    ensures ok ==> a2.Keys !! b.Keys
  {
  }

  lemma HungRight(a: Table, b: Table, b2: Table, parent: nat, item: Item, ok: bool)
    requires a.Keys !! b.Keys && (a.Keys + b.Keys) !! Rows(item).Keys
    requires Inserts(b, b2, parent, item, ok) && !IsFolderIn(a, parent)
    ensures Inserts(a + b, a + b2, parent, item, ok)
    ensures ok ==> a.Keys !! b2.Keys
  {
  }

  /** `id` and `isFolder` of a node, and so its place among its siblings, stay what they were. */
  predicate SameHead(a: Item, b: Item) {
    a.id == b.id && a.title == b.title && a.url == b.url && a.isFolder == b.isFolder
  }

  predicate Sane(node: Item) {
    Unique(node) && Shaped(node)
  }

  predicate SaneAmong(nodes: seq<Item>) {
    UniqueAmong(nodes) && ShapedAmong(nodes)
  }

  lemma LeafHolds(node: Item, parent: nat, item: Item)
    requires Shaped(node) && !node.isFolder
    ensures Inserts(Rows(node), Rows(node), parent, item, false)
  {
  }

  lemma HungAtRoot(id: nat, row: Row, t: Table, item: Item)
    requires id !in t && (t.Keys + {id}) !! Rows(item).Keys
    ensures map[id := row.(children := row.children + [item.id])] + (t + Rows(item)) == Hung(map[id := row] + t, id, item)
  {
  }

  lemma HangHere(node: Item, parent: nat, item: Item)
    requires Sane(node) && Sane(item) && Rows(node).Keys !! Rows(item).Keys && node.id == parent && node.isFolder
    ensures var after := node.(children := node.children + [item]);
            Inserts(Rows(node), Rows(after), parent, item, true) && Sane(after)
  {
    AppendRows(node.children, item);
    HungAtRoot(node.id, RowOf(node), RowsAmong(node.children), item);
  }

  lemma HangBelow(node: Item, nodes: seq<Item>, parent: nat, item: Item, ok: bool)
    requires Sane(node) && Rows(node).Keys !! Rows(item).Keys && !(node.id == parent && node.isFolder)
    requires Inserts(RowsAmong(node.children), RowsAmong(nodes), parent, item, ok)
    requires SaneAmong(nodes) && IdsOf(nodes) == IdsOf(node.children) && (node.children == [] ==> nodes == [])
    ensures var after := node.(children := nodes);
            Inserts(Rows(node), Rows(after), parent, item, ok) && Sane(after)
  {
    HungRight(map[node.id := RowOf(node)], RowsAmong(node.children), RowsAmong(nodes), parent, item, ok);
  }

  /** Inserting hangs the item under the named folder, and changes nothing if there is none. */
  lemma {:induction false} InsertIntoHangs(node: Item, parent: nat, item: Item)
    requires Sane(node) && Sane(item) && Rows(node).Keys !! Rows(item).Keys
    ensures var r := InsertInto(node, parent, item);
            Inserts(Rows(node), Rows(r.0), parent, item, r.1) && Sane(r.0) && SameHead(node, r.0)
    decreases node, 0
  {
    if node.id == parent && node.isFolder {
      HangHere(node, parent, item);
    } else {
      InsertAmongHangs(node.children, parent, item);
      var r := InsertAmong(node.children, parent, item);
      HangBelow(node, r.0, parent, item, r.1);
    }
  }

  lemma HangFirst(nodes: seq<Item>, first: Item, parent: nat, item: Item)
    requires nodes != [] && SaneAmong(nodes) && RowsAmong(nodes).Keys !! Rows(item).Keys
    requires Inserts(Rows(nodes[0]), Rows(first), parent, item, true) && Sane(first) && SameHead(nodes[0], first)
    ensures var after := [first] + nodes[1..];
            && Inserts(RowsAmong(nodes), RowsAmong(after), parent, item, true)
            && SaneAmong(after) && IdsOf(after) == IdsOf(nodes)
  {
    HungLeft(Rows(nodes[0]), RowsAmong(nodes[1..]), Rows(first), parent, item, true);
    assert ([first] + nodes[1..])[1..] == nodes[1..];
  }

  lemma HangLater(nodes: seq<Item>, rest: seq<Item>, parent: nat, item: Item, ok: bool)
    requires nodes != [] && SaneAmong(nodes) && RowsAmong(nodes).Keys !! Rows(item).Keys
    requires !IsFolderIn(Rows(nodes[0]), parent)
    requires Inserts(RowsAmong(nodes[1..]), RowsAmong(rest), parent, item, ok)
    requires SaneAmong(rest) && IdsOf(rest) == IdsOf(nodes[1..])
    ensures var after := [nodes[0]] + rest;
            && Inserts(RowsAmong(nodes), RowsAmong(after), parent, item, ok)
            && SaneAmong(after) && IdsOf(after) == IdsOf(nodes)
  {
    HungRight(Rows(nodes[0]), RowsAmong(nodes[1..]), RowsAmong(rest), parent, item, ok);
    assert ([nodes[0]] + rest)[1..] == rest;
  }

  /** A failed insertion leaves the node itself as it was. */
  lemma {:induction false} InsertFails(node: Item, parent: nat, item: Item)
    ensures !InsertInto(node, parent, item).1 ==> InsertInto(node, parent, item).0 == node
    decreases node, 0
  {
    if !(node.id == parent && node.isFolder) {
      InsertAmongFails(node.children, parent, item);
    }
  }

  lemma {:induction false} InsertAmongFails(nodes: seq<Item>, parent: nat, item: Item)
    ensures !InsertAmong(nodes, parent, item).1 ==> InsertAmong(nodes, parent, item).0 == nodes
    decreases nodes, 1
  {
    if nodes != [] {
      InsertFails(nodes[0], parent, item);
      InsertAmongFails(nodes[1..], parent, item);
    }
  }

  lemma {:induction false} InsertAmongHangs(nodes: seq<Item>, parent: nat, item: Item)
    requires SaneAmong(nodes) && Sane(item) && RowsAmong(nodes).Keys !! Rows(item).Keys
    ensures var r := InsertAmong(nodes, parent, item);
            && Inserts(RowsAmong(nodes), RowsAmong(r.0), parent, item, r.1)
            && SaneAmong(r.0) && IdsOf(r.0) == IdsOf(nodes)
    decreases nodes, 1
  {
    if nodes != [] {
      if nodes[0].isFolder {
        InsertIntoHangs(nodes[0], parent, item);
        InsertFails(nodes[0], parent, item);
      } else {
        LeafHolds(nodes[0], parent, item);
      }
      var first := InsertInto(nodes[0], parent, item);
      if nodes[0].isFolder && first.1 {
        HangFirst(nodes, first.0, parent, item);
      } else {
        InsertAmongHangs(nodes[1..], parent, item);
        var rest := InsertAmong(nodes[1..], parent, item);
        HangLater(nodes, rest.0, parent, item, rest.1);
      }
    }
  }

  // ---- Removal --------------------------------------------------------------------------------

  function Keep(ids: seq<nat>, gone: set<nat>): (kept: seq<nat>) {
    if ids == [] then [] else (if ids[0] in gone then [] else [ids[0]]) + Keep(ids[1..], gone)
  }

  /** The table with some items struck out, also from the lists of children. */
  function Struck(t: Table, gone: set<nat>): (after: Table) {
    map id | id in t && id !in gone :: t[id].(children := Keep(t[id].children, gone))
  }

  /** Every child named in the table has a row in it. */
  predicate Closed(t: Table) {
    forall id <- t :: forall c <- t[id].children :: c in t
  }

  lemma {:induction false} IdsAreRows(nodes: seq<Item>)
    ensures forall c <- IdsOf(nodes) :: c in RowsAmong(nodes)
  {
    if nodes != [] {
      IdsAreRows(nodes[1..]);
    }
  }

  lemma {:induction false} RowsAreClosed(node: Item)
    ensures Closed(Rows(node))
    decreases node, 0
  {
    IdsAreRows(node.children);
    RowsAmongAreClosed(node.children);
  }

  lemma {:induction false} RowsAmongAreClosed(nodes: seq<Item>)
    ensures Closed(RowsAmong(nodes))
    decreases nodes, 1
  {
    if nodes != [] {
      RowsAreClosed(nodes[0]);
      RowsAmongAreClosed(nodes[1..]);
    }
  }

  lemma {:induction false} KeepIrrelevant(ids: seq<nat>, gone: set<nat>, extra: set<nat>)
    requires forall c <- ids :: c !in extra
    ensures Keep(ids, gone + extra) == Keep(ids, gone)
  {
    if ids != [] {
      assert ids[0] in ids;
      KeepIrrelevant(ids[1..], gone, extra);
    }
  }

  /** Striking out items of another table changes nothing. */
  lemma StruckIrrelevant(t: Table, gone: set<nat>, extra: set<nat>)
    requires Closed(t) && t.Keys !! extra
    ensures Struck(t, gone + extra) == Struck(t, gone)
  {
    forall id | id in t ensures Keep(t[id].children, gone + extra) == Keep(t[id].children, gone) {
      KeepIrrelevant(t[id].children, gone, extra);
    }
  }

  lemma {:induction false} KeepAll(ids: seq<nat>)
    ensures Keep(ids, {}) == ids
  {
    if ids != [] {
      KeepAll(ids[1..]);
    }
  }

  lemma StruckNothing(t: Table)
    ensures Struck(t, {}) == t
  {
    forall id | id in t ensures Keep(t[id].children, {}) == t[id].children {
      KeepAll(t[id].children);
    }
  }

  lemma StruckElsewhere(t: Table, gone: set<nat>)
    requires Closed(t) && t.Keys !! gone
    ensures Struck(t, gone) == t
  {
    StruckIrrelevant(t, {}, gone);
    StruckNothing(t);
    assert {} + gone == gone;
  }

  lemma StruckParts(a: Table, b: Table, gone: set<nat>)
    requires a.Keys !! b.Keys
    ensures Struck(a + b, gone) == Struck(a, gone) + Struck(b, gone)
  {
  }

  /** The rows of `sub` are rows of the table. */
  predicate IsBranch(t: Table, sub: Item) {
    forall id <- Rows(sub) :: id in t && t[id] == Rows(sub)[id]
  }

  /** Removing takes out `sub`, all of it and nothing else. */
  ghost predicate TakesOut(before: Table, after: Table, sub: Item, id: nat) {
    sub.id == id && IsBranch(before, sub) && after == Struck(before, Rows(sub).Keys)
  }

  ghost predicate TakesOutOf(nodes: seq<Item>, after: seq<Item>, sub: Item, id: nat) {
    && TakesOut(RowsAmong(nodes), RowsAmong(after), sub, id)
    && SaneAmong(after) && IdsOf(after) == Keep(IdsOf(nodes), Rows(sub).Keys)
  }

  lemma {:induction false} IdsElsewhere(nodes: seq<Item>, gone: set<nat>)
    requires RowsAmong(nodes).Keys !! gone
    ensures Keep(IdsOf(nodes), gone) == IdsOf(nodes)
  {
    IdsAreRows(nodes);
    KeepIrrelevant(IdsOf(nodes), {}, gone);
    KeepAll(IdsOf(nodes));
    assert {} + gone == gone;
  }

  lemma HeadRow(node: Item)
    requires Unique(node)
    ensures node.id in Rows(node) && Rows(node)[node.id] == RowOf(node)
  {
  }

  /** The named child itself. */
  lemma TakeFirst(nodes: seq<Item>)
    requires nodes != [] && SaneAmong(nodes)
    ensures TakesOutOf(nodes, nodes[1..], nodes[0], nodes[0].id)
  {
    FirstStruck(Rows(nodes[0]), RowsAmong(nodes[1..]), nodes[1..]);
    FirstIsBranch(nodes);
    IdsElsewhere(nodes[1..], Rows(nodes[0]).Keys);
  }

  lemma FirstIsBranch(nodes: seq<Item>)
    requires nodes != [] && SaneAmong(nodes)
    ensures IsBranch(RowsAmong(nodes), nodes[0]) && nodes[0].id in Rows(nodes[0])
  {
    HeadRow(nodes[0]);
  }

  lemma FirstStruck(a: Table, b: Table, nodes: seq<Item>)
    requires a.Keys !! b.Keys && b == RowsAmong(nodes)
    ensures Struck(a + b, a.Keys) == b
  {
    StruckParts(a, b, a.Keys);
    RowsAmongAreClosed(nodes);
    StruckElsewhere(b, a.Keys);
    StruckWhole(a);
    NothingPlus(b);
  }

  lemma StruckWhole(t: Table)
    ensures Struck(t, t.Keys) == map[]
  {
  }

  lemma NothingPlus(t: Table)
    ensures map[] + t == t
  {
  }

  /** Removal somewhere after the first node leaves that one alone. */
  lemma TakeLater(nodes: seq<Item>, rest: seq<Item>, sub: Item, id: nat)
    requires nodes != [] && SaneAmong(nodes) && TakesOutOf(nodes[1..], rest, sub, id)
    ensures TakesOutOf(nodes, [nodes[0]] + rest, sub, id)
  {
    var all, gone := [nodes[0]] + rest, Rows(sub).Keys;
    assert all[0] == nodes[0] && all[1..] == rest;
    StruckParts(Rows(nodes[0]), RowsAmong(nodes[1..]), gone);
    RowsAreClosed(nodes[0]);
    StruckElsewhere(Rows(nodes[0]), gone);
  }

  /** Removal within the first node leaves the others alone. */
  lemma TakeWithin(nodes: seq<Item>, first: Item, sub: Item, id: nat)
    requires nodes != [] && SaneAmong(nodes) && TakesOut(Rows(nodes[0]), Rows(first), sub, id)
    requires Sane(first) && SameHead(nodes[0], first) && nodes[0].id !in Rows(sub)
    ensures TakesOutOf(nodes, [first] + nodes[1..], sub, id)
  {
    var all, gone := [first] + nodes[1..], Rows(sub).Keys;
    assert all[0] == first && all[1..] == nodes[1..];
    StruckParts(Rows(nodes[0]), RowsAmong(nodes[1..]), gone);
    RowsAmongAreClosed(nodes[1..]);
    StruckElsewhere(RowsAmong(nodes[1..]), gone);
    IdsElsewhere(nodes[1..], gone);
  }

  /** What is taken out of the children is taken out of the node. */
  lemma TakeBelow(node: Item, nodes: seq<Item>, sub: Item, id: nat)
    requires Sane(node) && TakesOutOf(node.children, nodes, sub, id)
    ensures var after := node.(children := nodes);
            TakesOut(Rows(node), Rows(after), sub, id) && Sane(after) && node.id !in Rows(sub)
  {
    StruckParts(map[node.id := RowOf(node)], RowsAmong(node.children), Rows(sub).Keys);
    StruckHead(node.id, RowOf(node), Rows(sub).Keys);
    assert node.id !in RowsAmong(node.children);
    BelowIsBranch(node, sub);
  }

  lemma StruckHead(id: nat, row: Row, gone: set<nat>)
    requires id !in gone
    ensures Struck(map[id := row], gone) == map[id := row.(children := Keep(row.children, gone))]
  {
  }

  lemma BelowIsBranch(node: Item, sub: Item)
    requires node.id !in RowsAmong(node.children) && IsBranch(RowsAmong(node.children), sub)
    ensures IsBranch(Rows(node), sub) && node.id !in Rows(sub)
  {
  }

  lemma DropLater(nodes: seq<Item>, k: nat)
    requires k + 1 < |nodes|
    ensures nodes[..k + 1] + nodes[k + 2..] == [nodes[0]] + (nodes[1..][..k] + nodes[1..][k + 1..])
    ensures nodes[k + 1] == nodes[1..][k]
  {
  }

  lemma {:induction false} DropPosition(nodes: seq<Item>, id: nat)
    requires SaneAmong(nodes)
    ensures var at := Position(nodes, id);
            if at.Some? then TakesOutOf(nodes, nodes[..at.value] + nodes[at.value + 1..], nodes[at.value], id)
            else id !in IdsOf(nodes)
  {
    if nodes != [] {
      if nodes[0].id == id {
        TakeFirst(nodes);
        assert nodes[..0] + nodes[1..] == nodes[1..];
      } else {
        DropPosition(nodes[1..], id);
        var at := Position(nodes[1..], id);
        if at.Some? {
          TakeLater(nodes, nodes[1..][..at.value] + nodes[1..][at.value + 1..], nodes[1..][at.value], id);
          DropLater(nodes, at.value);
        }
      }
    }
  }

  /** Removal takes out the whole subtree of that id, and changes nothing if there is none below the node. */
  ghost predicate RemovesFrom(node: Item, id: nat, sub: Item) {
    var r := RemoveFrom(node, id);
    && (r.1 <==> id in RowsAmong(node.children))
    && (!r.1 ==> r.0 == node)
    && (r.1 ==> TakesOut(Rows(node), Rows(r.0), sub, id) && Sane(r.0) && SameHead(node, r.0) && node.id !in Rows(sub))
  }

  ghost predicate RemovesAmong(nodes: seq<Item>, id: nat, sub: Item) {
    var r := RemoveAmong(nodes, id);
    && (r.1 <==> id in RowsAmong(nodes))
    && (!r.1 ==> r.0 == nodes)
    && (r.1 ==> TakesOutOf(nodes, r.0, sub, id))
  }

  lemma {:induction false} RemoveFromTakes(node: Item, id: nat) returns (sub: Item)
    requires Sane(node)
    ensures RemovesFrom(node, id, sub)
    decreases node, 0
  {
    DropPosition(node.children, id);
    var at := Position(node.children, id);
    if at.Some? {
      sub := node.children[at.value];
      IdsAreRows(node.children);
      PositionIsRow(node.children, id);
      TakeBelow(node, node.children[..at.value] + node.children[at.value + 1..], sub, id);
    } else {
      sub := RemoveAmongTakes(node.children, id);
      var r := RemoveAmong(node.children, id);
      if r.1 {
        TakeBelow(node, r.0, sub, id);
      }
    }
  }

  lemma {:induction false} PositionIsRow(nodes: seq<Item>, id: nat)
    requires Position(nodes, id).Some?
    ensures id in RowsAmong(nodes)
  {
    if nodes[0].id != id {
      PositionIsRow(nodes[1..], id);
    }
  }

  lemma {:induction false} RemoveAmongTakes(nodes: seq<Item>, id: nat) returns (sub: Item)
    requires SaneAmong(nodes) && id !in IdsOf(nodes)
    ensures RemovesAmong(nodes, id, sub)
    decreases nodes, 1
  {
    if nodes == [] {
      sub := Item(id, "", None, true, []);
    } else {
      var within := RemoveFromTakes(nodes[0], id);
      var first := RemoveFrom(nodes[0], id);
      if nodes[0].isFolder && first.1 {
        sub := within;
        TakeWithin(nodes, first.0, sub, id);
      } else {
        sub := RemoveAmongTakes(nodes[1..], id);
        var rest := RemoveAmong(nodes[1..], id);
        if rest.1 {
          TakeLater(nodes, rest.0, sub, id);
        }
      }
    }
  }

  // ---- Removal by URL -------------------------------------------------------------------------

  function Bookmarked(t: Table, url: string): (ids: set<nat>) {
    set id | id in t && !t[id].isFolder && t[id].url == Some(url)
  }

  /** Every bookmark of the URL is struck out, nothing else, and the count says how many there were. */
  ghost predicate Strikes(before: Table, after: Table, url: string, removed: nat) {
    after == Struck(before, Bookmarked(before, url)) && removed == |Bookmarked(before, url)|
  }

  lemma StrikesParts(a: Table, b: Table, a2: Table, b2: Table, url: string, n: nat, m: nat)
    requires a.Keys !! b.Keys && Closed(a) && Closed(b)
    requires Strikes(a, a2, url, n) && Strikes(b, b2, url, m)
    ensures Strikes(a + b, a2 + b2, url, n + m)
  {
    var goneA, goneB := Bookmarked(a, url), Bookmarked(b, url);
    BookmarkedParts(a, b, url);
    StruckParts(a, b, goneA + goneB);
    StruckIrrelevant(a, goneA, goneB);
    StruckIrrelevant(b, goneB, goneA);
    assert goneB + goneA == goneA + goneB;
  }

  lemma BookmarkedParts(a: Table, b: Table, url: string)
    requires a.Keys !! b.Keys
    ensures Bookmarked(a + b, url) == Bookmarked(a, url) + Bookmarked(b, url)
    ensures |Bookmarked(a + b, url)| == |Bookmarked(a, url)| + |Bookmarked(b, url)|
  {
    assert Bookmarked(a + b, url) == Bookmarked(a, url) + Bookmarked(b, url);
    assert Bookmarked(a, url) !! Bookmarked(b, url);
  }

  lemma LeafStrikes(node: Item, url: string)
    requires Shaped(node) && !node.isFolder
    ensures if IsBookmarkOf(node, url) then Strikes(Rows(node), map[], url, 1) else Strikes(Rows(node), Rows(node), url, 0)
  {
    if IsBookmarkOf(node, url) {
      assert Bookmarked(Rows(node), url) == {node.id};
    } else {
      assert Bookmarked(Rows(node), url) == {};
      StruckNothing(Rows(node));
    }
  }

  lemma HeadStrikes(node: Item, nodes: seq<Item>, url: string, removed: nat)
    requires Sane(node) && node.isFolder
    requires Strikes(RowsAmong(node.children), RowsAmong(nodes), url, removed)
    requires SaneAmong(nodes) && IdsOf(nodes) == Keep(IdsOf(node.children), Bookmarked(RowsAmong(node.children), url))
    ensures var after := node.(children := nodes);
            Strikes(Rows(node), Rows(after), url, removed) && Sane(after)
  {
    var head, below := map[node.id := RowOf(node)], RowsAmong(node.children);
    var gone := Bookmarked(below, url);
    assert Bookmarked(head, url) == {};
    BookmarkedParts(head, below, url);
    assert {} + gone == gone;
    StruckParts(head, below, gone);
    StruckHead(node.id, RowOf(node), gone);
  }

  lemma {:induction false} RemoveUrlStrikes(node: Item, url: string)
    requires Sane(node) && node.isFolder
    ensures var r := RemoveUrlFrom(node, url);
            Strikes(Rows(node), Rows(r.0), url, r.1) && Sane(r.0) && SameHead(node, r.0)
    decreases node, 0
  {
    RemoveUrlAmongStrikes(node.children, url);
    var r := RemoveUrlAmong(node.children, url);
    HeadStrikes(node, r.0, url, r.1);
  }

  ghost predicate StrikesAmong(nodes: seq<Item>, after: seq<Item>, url: string, removed: nat) {
    && Strikes(RowsAmong(nodes), RowsAmong(after), url, removed)
    && SaneAmong(after) && IdsOf(after) == Keep(IdsOf(nodes), Bookmarked(RowsAmong(nodes), url))
  }

  lemma KeepOthers(nodes: seq<Item>, extra: set<nat>, gone: set<nat>, a: Table)
    requires RowsAmong(nodes).Keys !! a.Keys && extra <= a.Keys
    ensures Keep(IdsOf(nodes), extra + gone) == Keep(IdsOf(nodes), gone)
  {
    IdsAreRows(nodes);
    KeepIrrelevant(IdsOf(nodes), gone, extra);
    assert extra + gone == gone + extra;
  }

  /** The ids that stay when the first node does, or does not. */
  lemma IdsStruck(nodes: seq<Item>, rest: seq<Item>, url: string)
    requires nodes != [] && SaneAmong(nodes)
    requires IdsOf(rest) == Keep(IdsOf(nodes[1..]), Bookmarked(RowsAmong(nodes[1..]), url))
    ensures Keep(IdsOf(nodes), Bookmarked(RowsAmong(nodes), url))
            == (if IsBookmarkOf(nodes[0], url) then [] else [nodes[0].id]) + IdsOf(rest)
  {
    var a, b := Rows(nodes[0]), RowsAmong(nodes[1..]);
    HeadRow(nodes[0]);
    BookmarkedParts(a, b, url);
    KeepOthers(nodes[1..], Bookmarked(a, url), Bookmarked(b, url), a);
    assert nodes[0].id in Bookmarked(a, url) <==> IsBookmarkOf(nodes[0], url);
    assert nodes[0].id !in b;
  }

  lemma StrikeFirst(nodes: seq<Item>, rest: seq<Item>, url: string, m: nat)
    requires nodes != [] && SaneAmong(nodes) && IsBookmarkOf(nodes[0], url) && StrikesAmong(nodes[1..], rest, url, m)
    ensures StrikesAmong(nodes, rest, url, m + 1)
  {
    var a, b := Rows(nodes[0]), RowsAmong(nodes[1..]);
    LeafStrikes(nodes[0], url);
    RowsAreClosed(nodes[0]);
    RowsAmongAreClosed(nodes[1..]);
    StrikesParts(a, b, map[], RowsAmong(rest), url, 1, m);
    NothingPlus(RowsAmong(rest));
    IdsStruck(nodes, rest, url);
  }

  lemma KeepFirst(nodes: seq<Item>, first: Item, rest: seq<Item>, url: string, n: nat, m: nat)
    requires nodes != [] && SaneAmong(nodes) && !IsBookmarkOf(nodes[0], url) && StrikesAmong(nodes[1..], rest, url, m)
    requires Strikes(Rows(nodes[0]), Rows(first), url, n) && Sane(first) && SameHead(nodes[0], first)
    ensures StrikesAmong(nodes, [first] + rest, url, n + m)
  {
    var all, a, b := [first] + rest, Rows(nodes[0]), RowsAmong(nodes[1..]);
    assert all[0] == first && all[1..] == rest;
    RowsAreClosed(nodes[0]);
    RowsAmongAreClosed(nodes[1..]);
    StrikesParts(a, b, Rows(first), RowsAmong(rest), url, n, m);
    IdsStruck(nodes, rest, url);
    StruckKeys(a, Bookmarked(a, url));
    StruckKeys(b, Bookmarked(b, url));
  }

  lemma StruckKeys(t: Table, gone: set<nat>)
    ensures Struck(t, gone).Keys == t.Keys - gone
  {
  }

  lemma {:induction false} RemoveUrlAmongStrikes(nodes: seq<Item>, url: string)
    requires SaneAmong(nodes)
    ensures StrikesAmong(nodes, RemoveUrlAmong(nodes, url).0, url, RemoveUrlAmong(nodes, url).1)
    decreases nodes, 1
  {
    if nodes == [] {
      assert Bookmarked(map[], url) == {} && Struck(map[], {}) == map[];
    } else {
      RemoveUrlAmongStrikes(nodes[1..], url);
      var rest := RemoveUrlAmong(nodes[1..], url);
      if IsBookmarkOf(nodes[0], url) {
        StrikeFirst(nodes, rest.0, url, rest.1);
      } else if nodes[0].isFolder {
        RemoveUrlStrikes(nodes[0], url);
        var first := RemoveUrlFrom(nodes[0], url);
        KeepFirst(nodes, first.0, rest.0, url, first.1, rest.1);
      } else {
        LeafStrikes(nodes[0], url);
        KeepFirst(nodes, nodes[0], rest.0, url, 0, rest.1);
      }
    }
  }

  /** So no bookmark of the URL is left, and the count is the number of items the tree lost. */
  lemma NoneLeft(node: Item, url: string)
    requires Sane(node) && node.isFolder
    ensures var r := RemoveUrlFrom(node, url);
            Bookmarked(Rows(r.0), url) == {} && r.1 == |Rows(node)| - |Rows(r.0)|
  {
    RemoveUrlStrikes(node, url);
    var t, gone := Rows(node), Bookmarked(Rows(node), url);
    var after := Struck(t, gone);
    assert after.Keys == t.Keys - gone;
    assert (t.Keys - gone) + gone == t.Keys;
    assert |after| == |after.Keys| && |t| == |t.Keys|;
  }
}
