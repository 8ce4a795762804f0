/** cJSON_Duplicate, recursive (packages/cjson/cJSON.c:2747-2831): a tree of items in memory is copied to
    a tree of new items. */
module JsonDuplicate {
  import opened Sequences
  import opened ChildList
  import opened ItemTrees

  const CJSON_CIRCULAR_LIMIT: nat := 10000

  /** No path down from t has more than room steps. */
  predicate Within(t: Tree, room: nat) {
    t.kids.SomeTrees? ==> room > 0 && AllWithin(t.kids, room - 1)
  }

  predicate AllWithin(ts: Trees, room: nat) {
    ts.SomeTrees? ==> Within(ts.head, room) && AllWithin(ts.tail, room)
  }

  /** How many steps the longest path down has */
  function Steps(t: Tree): nat {
    StepsOfAll(t.kids)
  }

  function StepsOfAll(ts: Trees): nat {
    if ts.NoTrees? then 0
    else
      var head, tail := 1 + Steps(ts.head), StepsOfAll(ts.tail);
      if head > tail then head else tail
  }

  lemma {:induction false} WithinMeansSteps(t: Tree, room: nat)
    ensures Within(t, room) <==> Steps(t) <= room
    decreases t
  {
    if t.kids.SomeTrees? && room > 0 {
      AllWithinMeansSteps(t.kids, room - 1);
    }
  }

  lemma {:induction false} AllWithinMeansSteps(ts: Trees, room: nat)
    ensures AllWithin(ts, room) <==> StepsOfAll(ts) <= room + 1
    decreases ts
  {
    if ts.SomeTrees? {
      WithinMeansSteps(ts.head, room);
      AllWithinMeansSteps(ts.tail, room);
    }
  }

  /** The children of an item at a depth may be copied. */
  predicate Fit(ts: Trees, depth: nat) {
    ts.SomeTrees? ==> depth < CJSON_CIRCULAR_LIMIT && AllWithin(ts, CJSON_CIRCULAR_LIMIT - depth - 1)
  }

  lemma FitGoesOn(ts: Trees, depth: nat)
    requires ts.SomeTrees? && depth < CJSON_CIRCULAR_LIMIT
    ensures Fit(ts, depth) <==> Within(ts.head, CJSON_CIRCULAR_LIMIT - depth - 1) && Fit(ts.tail, depth)
  {
    var room := CJSON_CIRCULAR_LIMIT - depth - 1;
    assert AllWithin(ts, room) <==> Within(ts.head, room) && AllWithin(ts.tail, room);
    assert ts.tail.NoTrees? ==> AllWithin(ts.tail, room);
  }

  function Concat(ts: Trees, more: Trees): Trees {
    if ts.NoTrees? then more else SomeTrees(ts.head, Concat(ts.tail, more))
  }

  lemma {:induction false} ConcatAdded(ts: Trees, t: Tree, more: Trees)
    ensures Concat(AddTree(ts, t), more) == Concat(ts, SomeTrees(t, more))
  {
    if ts.SomeTrees? {
      ConcatAdded(ts.tail, t, more);
    }
  }

  lemma {:induction false} ConcatNothing(ts: Trees)
    ensures Concat(ts, NoTrees) == ts
  {
    if ts.SomeTrees? {
      ConcatNothing(ts.tail);
    }
  }


  /** The end of one turn of the loop; the source is not touched. */
  method Turn(item: Item, newitem: Item, next: Item?, child: Item, newchild: Item,
              ghost s: seq<Item>, ghost k: nat, ghost rest: Shapes, ghost ts: Trees, ghost all: set<Item>,
              ghost copies: Shapes, ghost done: Trees, ghost c: Shape, ghost roots: set<Item>, ghost under: set<Item>)
    returns (child': Item?)
    requires Source(item, s, k, rest, ts, all) && rest.SomeShapes? && child == rest.head.node && newitem != item
    requires Growing(copies, done, roots, under) && next == Last(Roots(copies)) && newitem.child == First(Roots(copies))
    requires Stands(c, ts.head) && c.node == newchild && newchild.next == null && NodesOf(copies) !! Nodes(c)
    requires newitem !in all + roots + under + Nodes(c) && newchild !in all && roots !! all
    modifies newitem`child, newchild`prev, roots`next
    ensures Growing(AddShape(copies, c), AddTree(done, ts.head), roots + {newchild}, under + NodesOf(c.kids))
    ensures newitem.child == First(Roots(AddShape(copies, c)))
    ensures Source(item, s, k + 1, rest.tail, ts.tail, all)
    ensures child' == First(Roots(rest.tail))
  {
    RootsAvoid(copies, all);
    RootsAvoid(copies, {newitem});
    AddedNodes(copies, c);
    Attach(next, newchild, copies, done, c, ts.head, roots, under);
    assert Source(item, s, k, rest, ts, all);
    child' := child.next;
    SourceAdvances(item, s, k, rest, ts, all);
    if next == null {
      newitem.child := newchild;
    }
  }

  /** A new item, and what the item holds copied into it */
  method NewItemLike(item: Item, ghost s: seq<Item>, ghost rest: Shapes, ghost ts: Trees, ghost all: set<Item>)
    returns (newitem: Item)
    requires Source(item, s, 0, rest, ts, all)
    ensures fresh(newitem) && newitem !in all && newitem.next == newitem.prev == newitem.child == null
    ensures newitem.payload == item.payload && Source(item, s, 0, rest, ts, all)
  {
    newitem := new Item();
    newitem.payload := item.payload;
  }

  /** cJSON_Duplicate_rec with recurse set: it succeeds exactly if the tree goes no deeper than the limit; the
      copy holds the same, and shares no item with what was there before. */
  method Duplicate(item: Item, depth: nat, ghost sh: Shape, ghost t: Tree) returns (copy: Item?, ghost sh': Shape)
    requires Stands(sh, t) && sh.node == item && depth <= CJSON_CIRCULAR_LIMIT
    ensures copy != null <==> Within(t, CJSON_CIRCULAR_LIMIT - depth)
    ensures copy != null ==> sh'.node == copy && copy.next == null && copy.prev == null
    ensures copy != null ==> Stands(sh', t) && fresh(Nodes(sh'))
    decreases t, 0
  {
    sh' := sh;
    SourceStarts(sh, t, {item}, NodesOf(sh.kids));
    copy, sh' := DuplicateFrom(item, depth, Roots(sh.kids), sh.kids, t, NodesOf(sh.kids));
  }

  method DuplicateFrom(item: Item, depth: nat,
                       ghost s: seq<Item>, ghost kids: Shapes, ghost t: Tree, ghost all: set<Item>)
    returns (copy: Item?, ghost sh': Shape)
    requires Source(item, s, 0, kids, t.kids, all) && item.payload == t.payload && depth <= CJSON_CIRCULAR_LIMIT
    requires item.child == First(Roots(kids))
    ensures copy != null <==> Within(t, CJSON_CIRCULAR_LIMIT - depth)
    ensures copy != null ==> sh'.node == copy && copy.next == null && copy.prev == null
    ensures copy != null ==> Stands(sh', t) && fresh(Nodes(sh'))
    decreases t.kids, 3
  {
    var newitem := NewItemLike(item, s, kids, t.kids, all);
    var ok, newchild;
    ghost var copies, roots, under;
    ok, newchild, copies, roots, under := CopyChildren(item, depth, newitem, s, kids, t.kids, all);
    copy, sh' := newitem, Shape(newitem, copies);
    if !ok {
      return null, sh';
    }
    Finish(newitem, newchild, copies, t, roots, under);
  }

  /** The loop over the children */
  method CopyChildren(item: Item, depth: nat, newitem: Item,
                      ghost s: seq<Item>, ghost kids: Shapes, ghost trees: Trees, ghost all: set<Item>)
    returns (ok: bool, newchild: Item?, ghost copies: Shapes, ghost roots: set<Item>, ghost under: set<Item>)
    requires Source(item, s, 0, kids, trees, all) && item.child == First(Roots(kids)) && depth <= CJSON_CIRCULAR_LIMIT
    requires newitem.child == null && newitem !in all && newitem != item
    modifies newitem`child
    ensures ok <==> Fit(trees, depth)
    ensures ok ==> Growing(copies, trees, roots, under) && newchild == Last(Roots(copies))
    ensures ok ==> newitem.child == First(Roots(copies)) && newitem !in roots + under && fresh(roots) && fresh(under)
    decreases trees, 2
  {
    var child, next: Item? := item.child, null;
    newchild := null;
    ghost var k: nat, rest, ts := 0, kids, trees;
    ghost var done := NoTrees;
    copies, roots, under := NoShapes, {}, {};
    while child != null
      invariant child == First(Roots(rest)) && Source(item, s, k, rest, ts, all)
      invariant Growing(copies, done, roots, under) && next == newchild == Last(Roots(copies))
      invariant newitem.child == First(Roots(copies)) && newitem !in all + roots + under
      invariant fresh(roots) && fresh(under) && roots !! all
      invariant Concat(done, ts) == trees && (ts == trees || ts < trees)
      invariant Fit(trees, depth) <==> Fit(ts, depth)
      decreases ts
    {
      if depth >= CJSON_CIRCULAR_LIMIT {
        return false, newchild, copies, roots, under;
      }
      ghost var c;
      FitGoesOn(ts, depth);
      newchild, child, c := CopyChild(item, depth, newitem, next, child, s, k, rest, ts, all, copies, done, roots, under);
      if newchild == null {
        return false, newchild, copies, roots, under;
      }
      next := newchild;
      ConcatAdded(done, ts.head, ts.tail);
      roots, under := roots + {newchild}, under + NodesOf(c.kids);
      copies, done := AddShape(copies, c), AddTree(done, ts.head);
      k, rest, ts := k + 1, rest.tail, ts.tail;
    }
    ConcatNothing(done);
    ok := true;
  }

  /** One turn of the loop */
  method CopyChild(item: Item, depth: nat, newitem: Item, next: Item?, child: Item,
                   ghost s: seq<Item>, ghost k: nat, ghost rest: Shapes, ghost ts: Trees, ghost all: set<Item>,
                   ghost copies: Shapes, ghost done: Trees, ghost roots: set<Item>, ghost under: set<Item>)
    returns (newchild: Item?, child': Item?, ghost c: Shape)
    requires Source(item, s, k, rest, ts, all) && rest.SomeShapes? && child == rest.head.node && newitem != item
    requires Growing(copies, done, roots, under) && next == Last(Roots(copies)) && newitem.child == First(Roots(copies))
    requires newitem !in all + roots + under && roots !! all && depth < CJSON_CIRCULAR_LIMIT
    modifies newitem`child, roots`next
    ensures newchild != null <==> Within(ts.head, CJSON_CIRCULAR_LIMIT - depth - 1)
    ensures
      newchild != null ==>
        && Growing(AddShape(copies, c), AddTree(done, ts.head), roots + {newchild}, under + NodesOf(c.kids))
        && newitem.child == First(Roots(AddShape(copies, c)))
        && Source(item, s, k + 1, rest.tail, ts.tail, all)
        && child' == First(Roots(rest.tail)) && newchild == Last(Roots(AddShape(copies, c)))
        && fresh(newchild) && fresh(NodesOf(c.kids)) && newchild !in all + {newitem} && newitem !in NodesOf(c.kids)
    decreases ts, 1
  {
    child' := child;
    RootsAreNodes(copies);
    newchild, c := DuplicateChild(item, newitem, child, depth, s, k, rest, ts, all, copies, done, roots, under);
    if newchild != null {
      AddedNodes(copies, c);
      child' := Turn(item, newitem, next, child, newchild, s, k, rest, ts, all, copies, done, c, roots, under);
    }
  }

  /** Its recursive call; nothing that exists is touched. */
  method DuplicateChild(item: Item, newitem: Item, child: Item, depth: nat,
                        ghost s: seq<Item>, ghost k: nat, ghost rest: Shapes, ghost ts: Trees, ghost all: set<Item>,
                        ghost copies: Shapes, ghost done: Trees, ghost roots: set<Item>, ghost under: set<Item>)
    returns (copy: Item?, ghost c: Shape)
    requires Source(item, s, k, rest, ts, all) && rest.SomeShapes? && child == rest.head.node
    requires Growing(copies, done, roots, under) && depth < CJSON_CIRCULAR_LIMIT
    ensures copy != null <==> Within(ts.head, CJSON_CIRCULAR_LIMIT - depth - 1)
    ensures copy != null ==> c.node == copy && copy.next == null && copy.prev == null
    ensures copy != null ==> Stands(c, ts.head) && fresh(Nodes(c)) && Nodes(c) !! all + roots + under + {newitem}
    ensures Source(item, s, k, rest, ts, all) && Growing(copies, done, roots, under)
    decreases ts, 0
  {
    WidenOne(rest.head, ts.head, all, all, {rest.head.node}, NodesOf(rest.head.kids));
    copy, c := Duplicate(child, depth + 1, rest.head, ts.head);
  }

  /** The copy is complete. */
  method Finish(newitem: Item, newchild: Item?, ghost copies: Shapes, ghost t: Tree,
                ghost roots: set<Item>, ghost under: set<Item>)
    requires Growing(copies, t.kids, roots, under) && newchild == Last(Roots(copies))
    requires newitem.child == First(Roots(copies)) && newitem !in roots + under && newitem.payload == t.payload
    modifies roots`prev
    ensures Stands(Shape(newitem, copies), t) && Nodes(Shape(newitem, copies)) == {newitem} + roots + under
  {
    RootsAreApart(copies, t.kids, roots, under);
    RootsAreNodes(copies);
    RootsAvoid(copies, under + {newitem});
    RootsAreWithin(copies, roots);
    CloseListBeside(newitem, newchild, Roots(copies), copies, t.kids, roots, under);
    Widen(copies, t.kids, roots, under, NodesOf(copies), NodesOf(copies));
  }

  method CloseListBeside(newitem: Item, newchild: Item?, ghost s: seq<Item>,
                         ghost copies: Shapes, ghost ts: Trees, ghost roots: set<Item>, ghost under: set<Item>)
    requires Strung(s) && newchild == Last(s) && newitem.child == First(s) && Distinct(s) && newitem !in s
    requires AllHold(copies, ts, roots, under) && forall x :: x in s ==> x !in under
    modifies s`prev
    ensures Children(newitem, s) && AllHold(copies, ts, roots, under)
  {
    CloseList(newitem.child, newchild, s);
  }
}
