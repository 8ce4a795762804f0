/** Trees of items in memory: what they hold, where they lie, walking over children, and making new lists of
    children one by one (packages/cjson/cJSON.h:103-123). */
module ItemTrees {
  import opened Sequences
  import opened ChildList

  /** What a tree of items holds. */
  datatype Tree = Tree(payload: Payload, kids: Trees)
  datatype Trees = NoTrees | SomeTrees(head: Tree, tail: Trees)

  /** Where it lies in memory. */
  datatype Shape = Shape(node: Item, kids: Shapes)
  datatype Shapes = NoShapes | SomeShapes(head: Shape, tail: Shapes)

  ghost function Roots(kids: Shapes): seq<Item> {
    if kids.NoShapes? then [] else [kids.head.node] + Roots(kids.tail)
  }

  ghost function Nodes(sh: Shape): set<Item> {
    {sh.node} + NodesOf(sh.kids)
  }

  ghost function NodesOf(kids: Shapes): set<Item> {
    if kids.NoShapes? then {} else Nodes(kids.head) + NodesOf(kids.tail)
  }

  /** All of them but the roots */
  ghost function Below(kids: Shapes): set<Item> {
    if kids.NoShapes? then {} else NodesOf(kids.head.kids) + Below(kids.tail)
  }

  ghost function RootSet(kids: Shapes): set<Item> {
    if kids.NoShapes? then {} else {kids.head.node} + RootSet(kids.tail)
  }

  lemma {:induction false} RootsAreNodes(kids: Shapes)
    ensures forall x :: x in Roots(kids) <==> x in RootSet(kids)
    ensures RootSet(kids) + Below(kids) == NodesOf(kids)
  {
    if kids.SomeShapes? {
      RootsAreNodes(kids.tail);
    }
  }

  lemma {:induction false} RootsAvoid(kids: Shapes, avoided: set<Item>)
    requires RootSet(kids) !! avoided
    ensures forall x :: x in Roots(kids) ==> x !in avoided
  {
    if kids.SomeShapes? {
      RootsAvoid(kids.tail, avoided);
    }
  }

  lemma {:induction false} RootsAreWithin(kids: Shapes, all: set<Item>)
    requires RootSet(kids) <= all
    ensures forall x :: x in Roots(kids) ==> x in all
  {
    if kids.SomeShapes? {
      RootsAreWithin(kids.tail, all);
    }
  }

  /** The items of sh hold t, the root among roots and all others among under.  The links of the root to its
      own siblings do not matter. */
  ghost predicate Holds(sh: Shape, t: Tree, roots: set<Item>, under: set<Item>)
    reads roots`child, roots`payload, under
    decreases t
  {
    RootsAreNodes(sh.kids);
    && sh.node in roots && NodesOf(sh.kids) <= under
    && sh.node.payload == t.payload
    && sh.node !in NodesOf(sh.kids)
    && Children(sh.node, Roots(sh.kids))
    && AllHold(sh.kids, t.kids, under, under)
  }

  ghost predicate AllHold(kids: Shapes, ts: Trees, roots: set<Item>, under: set<Item>)
    reads roots`child, roots`payload, under
    decreases ts
  {
    if kids.NoShapes? || ts.NoTrees? then kids.NoShapes? && ts.NoTrees?
    else
      && Holds(kids.head, ts.head, roots, under)
      && AllHold(kids.tail, ts.tail, roots, under)
      && Nodes(kids.head) !! NodesOf(kids.tail)
  }

  /** Only the items of the shapes themselves matter. */
  lemma {:induction false} Widen(kids: Shapes, ts: Trees,
                                 roots: set<Item>, under: set<Item>, roots': set<Item>, under': set<Item>)
    requires AllHold(kids, ts, roots, under)
    requires RootSet(kids) <= roots' && Below(kids) <= under'
    ensures AllHold(kids, ts, roots', under')
    decreases kids
  {
    if kids.SomeShapes? {
      RootsAreNodes(kids.head.kids);
      Widen(kids.head.kids, ts.head.kids, under, under, under', under');
      Widen(kids.tail, ts.tail, roots, under, roots', under');
    }
  }

  ghost predicate Stands(sh: Shape, t: Tree)
    reads {sh.node}`child, {sh.node}`payload, NodesOf(sh.kids)
  {
    Holds(sh, t, {sh.node}, NodesOf(sh.kids))
  }

  lemma WidenOne(sh: Shape, t: Tree, roots: set<Item>, under: set<Item>, roots': set<Item>, under': set<Item>)
    requires Holds(sh, t, roots, under) && sh.node in roots' && NodesOf(sh.kids) <= under'
    ensures Holds(sh, t, roots', under')
  {
    RootsAreNodes(sh.kids);
    Widen(sh.kids, t.kids, under, under, under', under');
  }

  function AddShape(kids: Shapes, c: Shape): Shapes {
    if kids.NoShapes? then SomeShapes(c, NoShapes) else SomeShapes(kids.head, AddShape(kids.tail, c))
  }

  function AddTree(ts: Trees, t: Tree): Trees {
    if ts.NoTrees? then SomeTrees(t, NoTrees) else SomeTrees(ts.head, AddTree(ts.tail, t))
  }

  lemma {:induction false} AddedNodes(kids: Shapes, c: Shape)
    ensures Roots(AddShape(kids, c)) == Roots(kids) + [c.node]
    ensures NodesOf(AddShape(kids, c)) == NodesOf(kids) + Nodes(c)
    ensures RootSet(AddShape(kids, c)) == RootSet(kids) + {c.node}
    ensures Below(AddShape(kids, c)) == Below(kids) + NodesOf(c.kids)
  {
    if kids.SomeShapes? {
      AddedNodes(kids.tail, c);
    }
  }

  lemma {:induction false} AddedHolds(kids: Shapes, ts: Trees, c: Shape, t: Tree, roots: set<Item>, under: set<Item>)
    requires AllHold(kids, ts, roots, under) && Holds(c, t, roots, under) && NodesOf(kids) !! Nodes(c)
    ensures AllHold(AddShape(kids, c), AddTree(ts, t), roots, under)
    decreases kids
  {
    if kids.SomeShapes? {
      AddedHolds(kids.tail, ts.tail, c, t, roots, under);
      AddedNodes(kids.tail, c);
    }
  }

  lemma {:induction false} RootsAreApart(kids: Shapes, ts: Trees, roots: set<Item>, under: set<Item>)
    requires AllHold(kids, ts, roots, under)
    ensures Distinct(Roots(kids)) && RootSet(kids) !! Below(kids)
    decreases kids
  {
    if kids.SomeShapes? {
      RootsAreApart(kids.tail, ts.tail, roots, under);
      RootsAreNodes(kids.tail);
    }
  }

  // --------------------------------------------------------- walking over children

  /** A walk over children that has come to the k-th of them. */
  ghost predicate Source(item: Item, s: seq<Item>, k: nat, rest: Shapes, ts: Trees, all: set<Item>)
    reads item`child, all
  {
    && (forall x :: x in s ==> x in all) && Children(item, s)
    && k <= |s| && s[k..] == Roots(rest)
    && AllHold(rest, ts, all, all)
  }

  lemma SourceStarts(sh: Shape, t: Tree, roots: set<Item>, under: set<Item>)
    requires Holds(sh, t, roots, under)
    ensures Source(sh.node, Roots(sh.kids), 0, sh.kids, t.kids, under)
    ensures sh.node.child == First(Roots(sh.kids))
  {
    RootsAreNodes(sh.kids);
    RootsAreWithin(sh.kids, under);
  }

  lemma SourceAdvances(item: Item, s: seq<Item>, k: nat, rest: Shapes, ts: Trees, all: set<Item>)
    requires Source(item, s, k, rest, ts, all) && rest.SomeShapes?
    ensures Source(item, s, k + 1, rest.tail, ts.tail, all)
    ensures rest.head.node in all && rest.head.node.next == First(Roots(rest.tail))
  {
    assert s[k..][0] == rest.head.node && s[k..][1..] == Roots(rest.tail);
    assert s[k].next == NextOf(s, k);
    assert k + 1 < |s| ==> s[k + 1] == s[k..][1..][0];
  }

  // --------------------------------------------------------- new lists of children

  /** The links of a list while it grows: prev of the first child is not set yet. */
  ghost predicate Strung(s: seq<Item>)
    reads s`next, s`prev
  {
    forall i {:trigger NextOf(s, i)} {:trigger PrevOf(s, i)} :: 0 <= i < |s| ==>
      s[i].next == NextOf(s, i) && (i > 0 ==> s[i].prev == PrevOf(s, i))
  }

  ghost function Last(s: seq<Item>): (n: Item?)
    ensures n == null <==> s == []
  {
    if s == [] then null else s[|s| - 1]
  }

  /** A new child is linked behind the last one. */
  method Crosswire(last: Item?, newchild: Item, ghost s: seq<Item>)
    requires Strung(s) && last == Last(s) && newchild.next == null && Distinct(s) && newchild !in s
    modifies newchild`prev, s`next
    ensures Strung(s + [newchild])
  {
    ghost var s' := s + [newchild];
    if last != null {
      last.next := newchild;
      newchild.prev := last;
    }
    forall i | 0 <= i < |s'| ensures s'[i].next == NextOf(s', i) && (i > 0 ==> s'[i].prev == PrevOf(s', i)) {
      if i < |s| {
        assert old(s[i].next == NextOf(s, i) && (i > 0 ==> s[i].prev == PrevOf(s, i)));
      }
    }
  }

  /** The links of a complete list: prev of the first child is the last child. */
  ghost predicate Closed(s: seq<Item>)
    reads s`next, s`prev
  {
    forall i {:trigger NextOf(s, i)} {:trigger PrevOf(s, i)} :: 0 <= i < |s| ==>
      s[i].next == NextOf(s, i) && s[i].prev == PrevOf(s, i)
  }

  method CloseList(head: Item?, last: Item?, ghost s: seq<Item>)
    requires Strung(s) && head == First(s) && (s != [] ==> last == Last(s)) && Distinct(s)
    modifies s`prev
    ensures Closed(s)
  {
    if head != null {
      head.prev := last;
    }
    forall i | 0 <= i < |s| ensures s[i].next == NextOf(s, i) && s[i].prev == PrevOf(s, i) {
      assert old(s[i].next == NextOf(s, i) && (i > 0 ==> s[i].prev == PrevOf(s, i)));
    }
  }

  /** The children made so far: strung up, each holding its part of the tree. */
  ghost predicate Growing(kids: Shapes, ts: Trees, roots: set<Item>, under: set<Item>)
    reads roots, under
  {
    && roots == RootSet(kids) && under == Below(kids)
    && (RootsAreWithin(kids, roots); Strung(Roots(kids)))
    && AllHold(kids, ts, roots, under)
  }

  /** A child that holds its part, and is linked behind them, is one of them. */
  lemma OneMoreChild(kids: Shapes, ts: Trees, roots: set<Item>, under: set<Item>, c: Shape, t: Tree)
    requires roots == RootSet(kids) && under == Below(kids) && AllHold(kids, ts, roots, under)
    requires Stands(c, t) && NodesOf(kids) !! Nodes(c) && Strung(Roots(kids) + [c.node])
    ensures Growing(AddShape(kids, c), AddTree(ts, t), roots + {c.node}, under + NodesOf(c.kids))
  {
    var roots', under' := roots + {c.node}, under + NodesOf(c.kids);
    RootsAreNodes(kids);
    AddedNodes(kids, c);
    WidenOne(c, t, {c.node}, NodesOf(c.kids), roots', under');
    Widen(kids, ts, roots, under, roots', under');
    AddedHolds(kids, ts, c, t, roots', under');
  }

  /** What Crosswire rewrites is not what says what the children hold. */
  method CrosswireBeside(last: Item?, newchild: Item, ghost s: seq<Item>,
                         ghost kids: Shapes, ghost ts: Trees, ghost roots: set<Item>, ghost under: set<Item>,
                         ghost c: Shape, ghost t: Tree, ghost root: set<Item>, ghost below: set<Item>)
    requires Strung(s) && last == Last(s) && newchild.next == null && Distinct(s) && newchild !in s
    requires AllHold(kids, ts, roots, under) && Holds(c, t, root, below)
    requires newchild !in under + below && forall x :: x in s ==> x !in under + below
    modifies newchild`prev, s`next
    ensures Strung(s + [newchild]) && AllHold(kids, ts, roots, under) && Holds(c, t, root, below)
  {
    Crosswire(last, newchild, s);
  }

  /** A new child, complete with what it holds, joins the others. */
  method Attach(last: Item?, newchild: Item, ghost kids: Shapes, ghost ts: Trees,
                ghost c: Shape, ghost t: Tree, ghost roots: set<Item>, ghost under: set<Item>)
    requires Growing(kids, ts, roots, under) && last == Last(Roots(kids))
    requires Stands(c, t) && c.node == newchild && newchild.next == null && NodesOf(kids) !! Nodes(c)
    modifies newchild`prev, roots`next
    ensures Growing(AddShape(kids, c), AddTree(ts, t), roots + {newchild}, under + NodesOf(c.kids))
  {
    RootsAreApart(kids, ts, roots, under);
    RootsAreNodes(kids);
    RootsAreWithin(kids, roots);
    ghost var root, below := {newchild}, NodesOf(c.kids);
    assert newchild in Nodes(c) && newchild !in below;
    RootsAvoid(kids, under + below);
    RootsAvoid(kids, root);
    CrosswireBeside(last, newchild, Roots(kids), kids, ts, roots, under, c, t, root, below);
    OneMoreChild(kids, ts, roots, under, c, t);
  }

  /** A parent without children gets those that have been made. */
  method Adopt(parent: Item, head: Item?, last: Item?, payload: Payload, ghost kids: Shapes, ghost ts: Trees,
               ghost roots: set<Item>, ghost under: set<Item>)
    requires Growing(kids, ts, roots, under) && parent !in roots + under
    requires head == First(Roots(kids)) && (head != null ==> last == Last(Roots(kids)))
    modifies parent`child, parent`payload, roots`prev
    ensures Stands(Shape(parent, kids), Tree(payload, ts)) && parent.payload == payload
  {
    RootsAreApart(kids, ts, roots, under);
    RootsAreNodes(kids);
    RootsAreWithin(kids, roots);
    RootsAvoid(kids, under + {parent});
    AdoptBeside(parent, head, last, payload, Roots(kids), kids, ts, roots, under);
    Widen(kids, ts, roots, under, NodesOf(kids), NodesOf(kids));
  }

  method AdoptBeside(parent: Item, head: Item?, last: Item?, payload: Payload, ghost s: seq<Item>,
                     ghost kids: Shapes, ghost ts: Trees, ghost roots: set<Item>, ghost under: set<Item>)
    requires Strung(s) && head == First(s) && (s != [] ==> last == Last(s)) && Distinct(s)
    requires parent !in s && parent !in roots + under
    requires AllHold(kids, ts, roots, under) && forall x :: x in s ==> x !in under
    modifies parent`child, parent`payload, s`prev
    ensures Children(parent, s) && AllHold(kids, ts, roots, under) && parent.payload == payload
  {
    CloseList(head, last, s);
    parent.payload := payload;
    parent.child := head;
  }
}
