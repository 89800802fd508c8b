/** Finding an element: the explicit stack against the recursive search. */
module DomWalk {
  import opened Wrappers

  /** Four times the parser's nesting limit. */
  const MAX_WALK_DEPTH := 64 * 4

  datatype Element = Element(tag: string, attrs: map<string, string>, children: seq<Element>)

  /** The child indices from the root: which element it is, not only what it looks like. */
  type Path = seq<nat>

  type Test = Element -> bool

  // ---- The recursive search -----------------------------------------------------------------

  function Find(node: Element, path: Path, depth: nat, test: Test): (found: Option<Path>) {
    if depth > MAX_WALK_DEPTH then None
    else if test(node) then Some(path)
    else FindAmong(node.children, path, 0, depth + 1, test)
  }

  /** Among siblings, the first of which is child number `first`. */
  function FindAmong(nodes: seq<Element>, path: Path, first: nat, depth: nat, test: Test): (found: Option<Path>) {
    if nodes == [] then None
    else
      var own := Find(nodes[0], path + [first], depth, test);
      if own.Some? then own else FindAmong(nodes[1..], path, first + 1, depth, test)
  }

  // ---- The stack ------------------------------------------------------------------------------

  datatype Entry = Entry(node: Element, depth: nat, path: Path)

  /** What searching the entries from the top of the stack comes to. */
  function FindOn(stack: seq<Entry>, test: Test): (found: Option<Path>) {
    if stack == [] then None
    else
      var top := stack[|stack| - 1];
      var own := Find(top.node, top.path, top.depth, test);
      if own.Some? then own else FindOn(stack[..|stack| - 1], test)
  }

  function Size(node: Element): (n: nat) {
    1 + SizeAmong(node.children)
  }

  function SizeAmong(nodes: seq<Element>): (n: nat) {
    if nodes == [] then 0 else Size(nodes[0]) + SizeAmong(nodes[1..])
  }

  function StackSize(stack: seq<Entry>): (n: nat) {
    if stack == [] then 0 else Size(stack[|stack| - 1].node) + StackSize(stack[..|stack| - 1])
  }

  function OrElse(first: Option<Path>, second: Option<Path>): (r: Option<Path>) {
    if first.Some? then first else second
  }

  /** The children go on the stack last one first, so that the first is on top. */
  method PushChildren(rest: seq<Entry>, top: Entry, ghost test: Test) returns (stack: seq<Entry>)
    ensures FindOn(stack, test) == OrElse(FindAmong(top.node.children, top.path, 0, top.depth + 1, test), FindOn(rest, test))
    ensures StackSize(stack) == SizeAmong(top.node.children) + StackSize(rest)
  {
    stack := rest;
    var children := top.node.children;
    var i: nat := |children|;
    assert children[i..] == [];
    while i > 0
      invariant i <= |children|
      invariant FindOn(stack, test) == OrElse(FindAmong(children[i..], top.path, i, top.depth + 1, test), FindOn(rest, test))
      invariant StackSize(stack) == SizeAmong(children[i..]) + StackSize(rest)
    {
      i := i - 1;
      assert children[i..][0] == children[i] && children[i..][1..] == children[i + 1..];
      var entry := Entry(children[i], top.depth + 1, top.path + [i]);
      assert (stack + [entry])[..|stack|] == stack;
      stack := stack + [entry];
    }
    assert children[0..] == children;
  }

  /** Both searches return the same element, for every tree and every test, and the stack walk ends. */
  method GetElement(root: Element, test: Test) returns (found: Option<Path>)
    ensures found == Find(root, [], 0, test)
  {
    var stack := [Entry(root, 0, [])];
    assert stack[..0] == [];
    while stack != []
      invariant FindOn(stack, test) == Find(root, [], 0, test)
      decreases StackSize(stack)
    {
      var top := stack[|stack| - 1];
      stack := stack[..|stack| - 1];
      if top.depth > MAX_WALK_DEPTH {
        continue;
      }
      if test(top.node) {
        return Some(top.path);
      }
      stack := PushChildren(stack, top, test);
    }
    found := None;
  }

  // ---- Document order -------------------------------------------------------------------------

  /** The elements the search may visit, in document order. */
  function Preorder(node: Element, path: Path, depth: nat): (s: seq<(Element, Path)>) {
    if depth > MAX_WALK_DEPTH then [] else [(node, path)] + PreorderAmong(node.children, path, 0, depth + 1)
  }

  function PreorderAmong(nodes: seq<Element>, path: Path, first: nat, depth: nat): (s: seq<(Element, Path)>) {
    if nodes == [] then []
    else Preorder(nodes[0], path + [first], depth) + PreorderAmong(nodes[1..], path, first + 1, depth)
  }

  /** `found` is the first element of the list that passes the test. */
  ghost predicate IsFirst(list: seq<(Element, Path)>, test: Test, found: Option<Path>) {
    if found.None? then forall i :: 0 <= i < |list| ==> !test(list[i].0)
    else exists k :: 0 <= k < |list| && test(list[k].0) && list[k].1 == found.value
                     && forall i :: 0 <= i < k ==> !test(list[i].0)
  }

  lemma FirstOfJoin(a: seq<(Element, Path)>, b: seq<(Element, Path)>, test: Test, fa: Option<Path>, fb: Option<Path>)
    requires IsFirst(a, test, fa) && IsFirst(b, test, fb)
    ensures IsFirst(a + b, test, OrElse(fa, fb))
  {
    var all := a + b;
    if fa.Some? {
      var k :| 0 <= k < |a| && test(a[k].0) && a[k].1 == fa.value && forall i :: 0 <= i < k ==> !test(a[i].0);
      assert all[k] == a[k];
    } else if fb.Some? {
      var k :| 0 <= k < |b| && test(b[k].0) && b[k].1 == fb.value && forall i :: 0 <= i < k ==> !test(b[i].0);
      assert all[|a| + k] == b[k];
      forall i | 0 <= i < |a| + k ensures !test(all[i].0) {
        if i >= |a| {
          assert all[i] == b[i - |a|];
        }
      }
    }
  }

  /** The search finds the first element in document order that passes the test and is not nested too deep. */
  lemma {:induction false} FindIsFirst(node: Element, path: Path, depth: nat, test: Test)
    ensures IsFirst(Preorder(node, path, depth), test, Find(node, path, depth, test))
    decreases node, 0
  {
    if depth <= MAX_WALK_DEPTH {
      FindAmongIsFirst(node.children, path, 0, depth + 1, test);
      var head := [(node, path)];
      assert IsFirst(head, test, if test(node) then Some(path) else None) by {
        assert test(node) ==> test(head[0].0) && head[0].1 == path;
      }
      FirstOfJoin(head, PreorderAmong(node.children, path, 0, depth + 1), test,
                  if test(node) then Some(path) else None, FindAmong(node.children, path, 0, depth + 1, test));
    }
  }

  lemma {:induction false} FindAmongIsFirst(nodes: seq<Element>, path: Path, first: nat, depth: nat, test: Test)
    ensures IsFirst(PreorderAmong(nodes, path, first, depth), test, FindAmong(nodes, path, first, depth, test))
    decreases nodes, 1
  {
    if nodes != [] {
      FindIsFirst(nodes[0], path + [first], depth, test);
      FindAmongIsFirst(nodes[1..], path, first + 1, depth, test);
      FirstOfJoin(Preorder(nodes[0], path + [first], depth), PreorderAmong(nodes[1..], path, first + 1, depth), test,
                  Find(nodes[0], path + [first], depth, test), FindAmong(nodes[1..], path, first + 1, depth, test));
    }
  }
}
