/** JSON trees as trees of items: what cJSON_Duplicate copies, and when (packages/cjson/cJSON.h:88-143). */
module JsonItems {
  import opened Options
  import opened Json
  import opened JsonParse
  import opened ChildList
  import opened ItemTrees
  import opened JsonDuplicate
  import JsonCompare

  /** valueint: the number truncated, and saturated to 32 bits */
  function ValueInt(d: real): int {
    if d >= INT_MAX as real then INT_MAX
    else if d <= INT_MIN as real then INT_MIN
    else Truncated(d)
  }

  /** The conversion to int */
  function Truncated(d: real): int {
    if d >= 0.0 then d.Floor else -((-d).Floor)
  }

  /** It is the nearest integer towards 0, or the nearest that 32 bits hold. */
  lemma ValueIntIsTruncated(d: real)
    ensures INT_MIN <= ValueInt(d) <= INT_MAX
    ensures 0.0 <= d < INT_MAX as real ==> 0 <= ValueInt(d) && ValueInt(d) as real <= d < (ValueInt(d) + 1) as real
    ensures INT_MIN as real < d <= 0.0 ==> ValueInt(d) <= 0 && (ValueInt(d) - 1) as real < d <= ValueInt(d) as real
    ensures d >= INT_MAX as real ==> ValueInt(d) == INT_MAX
    ensures d <= INT_MIN as real ==> ValueInt(d) == INT_MIN
  {
  }

  function TreeOf(name: Option<string>, j: Json): Tree
    decreases j
  {
    match j
    case False => Tree(Payload(1, None, 0, 0.0, name), NoTrees)
    case True => Tree(Payload(2, None, 1, 0.0, name), NoTrees)
    case Null => Tree(Payload(4, None, 0, 0.0, name), NoTrees)
    case Number(d) => Tree(Payload(8, None, ValueInt(d), d, name), NoTrees)
    case String(s) => Tree(Payload(16, Some(s), 0, 0.0, name), NoTrees)
    case Array(elems) => Tree(Payload(32, None, 0, 0.0, name), TreesOfElems(elems))
    case Object(members) => Tree(Payload(64, None, 0, 0.0, name), TreesOfMembers(members))
  }

  function TreesOfElems(elems: Elems): Trees
    decreases elems
  {
    if elems.NoElems? then NoTrees else SomeTrees(TreeOf(None, elems.head), TreesOfElems(elems.tail))
  }

  function TreesOfMembers(members: Members): Trees
    decreases members
  {
    if members.NoMembers? then NoTrees
    else SomeTrees(TreeOf(Some(members.key), members.value), TreesOfMembers(members.rest))
  }

  /** The children of an array, from one of them on. */
  lemma ElemIsThere(item: Item, s: seq<Item>, k: nat, rest: Shapes, elems: Elems, all: set<Item>)
    requires Source(item, s, k, rest, TreesOfElems(elems), all) && elems.Elem?
    ensures rest.SomeShapes? && Stands(rest.head, TreeOf(None, elems.head)) && Nodes(rest.head) <= all
    ensures Holds(rest.head, TreeOf(None, elems.head), all, all)
    ensures Source(item, s, k + 1, rest.tail, TreesOfElems(elems.tail), all)
    ensures rest.head.node.next == First(Roots(rest.tail)) && (rest.head.node.next == null <==> elems.tail.NoElems?)
  {
    SourceAdvances(item, s, k, rest, TreesOfElems(elems), all);
    WidenOne(rest.head, TreeOf(None, elems.head), all, all, {rest.head.node}, NodesOf(rest.head.kids));
  }

  lemma MemberIsThere(item: Item, s: seq<Item>, k: nat, rest: Shapes, members: Members, all: set<Item>)
    requires Source(item, s, k, rest, TreesOfMembers(members), all) && members.Member?
    ensures rest.SomeShapes? && Stands(rest.head, TreeOf(Some(members.key), members.value)) && Nodes(rest.head) <= all
    ensures Holds(rest.head, TreeOf(Some(members.key), members.value), all, all)
    ensures rest.head.node.payload.name == Some(members.key)
    ensures Source(item, s, k + 1, rest.tail, TreesOfMembers(members.rest), all)
    ensures rest.head.node.next == First(Roots(rest.tail)) && (rest.head.node.next == null <==> members.rest.NoMembers?)
  {
    SourceAdvances(item, s, k, rest, TreesOfMembers(members), all);
    WidenOne(rest.head, TreeOf(Some(members.key), members.value), all, all, {rest.head.node}, NodesOf(rest.head.kids));
  }

  /** The items determine the JSON tree, so a copy that holds the same items holds the same JSON. */
  lemma {:induction false} ItemsDetermineJson(name: Option<string>, a: Json, b: Json)
    requires TreeOf(name, a) == TreeOf(name, b)
    ensures a == b
    decreases a
  {
    match (a, b)
    case (Array(x), Array(y)) => ItemsDetermineElems(x, y);
    case (Object(x), Object(y)) => ItemsDetermineMembers(x, y);
    case _ =>
  }

  lemma {:induction false} ItemsDetermineElems(a: Elems, b: Elems)
    requires TreesOfElems(a) == TreesOfElems(b)
    ensures a == b
    decreases a
  {
    if a.Elem? {
      ItemsDetermineJson(None, a.head, b.head);
      ItemsDetermineElems(a.tail, b.tail);
    }
  }

  lemma {:induction false} ItemsDetermineMembers(a: Members, b: Members)
    requires TreesOfMembers(a) == TreesOfMembers(b)
    ensures a == b
    decreases a
  {
    if a.Member? {
      assert TreeOf(Some(a.key), a.value).payload.name == Some(a.key);
      assert TreeOf(Some(b.key), b.value).payload.name == Some(b.key);
      ItemsDetermineJson(Some(a.key), a.value, b.value);
      ItemsDetermineMembers(a.rest, b.rest);
    }
  }

  /** A tree that is nested no deeper than the limit of cJSON_Duplicate can be duplicated. */
  lemma {:induction false} NestingBoundsThePaths(name: Option<string>, j: Json, room: nat)
    requires Height(j) <= room
    ensures Within(TreeOf(name, j), room)
    decreases j
  {
    match j
    case Array(elems) => ElemsBoundThePaths(elems, room - 1);
    case Object(members) => MembersBoundThePaths(members, room - 1);
    case _ =>
  }

  lemma {:induction false} ElemsBoundThePaths(elems: Elems, room: nat)
    requires HeightOfElems(elems) <= room
    ensures AllWithin(TreesOfElems(elems), room)
    decreases elems
  {
    if elems.Elem? {
      NestingBoundsThePaths(None, elems.head, room);
      ElemsBoundThePaths(elems.tail, room);
    }
  }

  lemma {:induction false} MembersBoundThePaths(members: Members, room: nat)
    requires HeightOfMembers(members) <= room
    ensures AllWithin(TreesOfMembers(members), room)
    decreases members
  {
    if members.Member? {
      NestingBoundsThePaths(Some(members.key), members.value, room);
      MembersBoundThePaths(members.rest, room);
    }
  }

  /** So every tree that was parsed can be duplicated. */
  lemma ParsedTreesCanBeDuplicated(text: string, name: Option<string>)
    ensures
      var r := ParseValue(text, 0);
      r.Ok? ==> Within(TreeOf(name, r.value), CJSON_CIRCULAR_LIMIT)
  {
    var r := ParseValue(text, 0);
    if r.Ok? {
      NestingBoundsThePaths(name, r.value, CJSON_CIRCULAR_LIMIT);
    }
  }

  /** What items hold is one tree. */
  lemma {:induction false} HeldTreeIsUnique(sh: Shape, t: Tree, u: Tree, roots: set<Item>, under: set<Item>)
    requires Holds(sh, t, roots, under) && Holds(sh, u, roots, under)
    ensures t == u
    decreases sh
  {
    HeldTreesAreUnique(sh.kids, t.kids, u.kids, under, under);
  }

  lemma {:induction false} HeldTreesAreUnique(kids: Shapes, ts: Trees, us: Trees, roots: set<Item>, under: set<Item>)
    requires AllHold(kids, ts, roots, under) && AllHold(kids, us, roots, under)
    ensures ts == us
    decreases kids
  {
    if kids.SomeShapes? {
      HeldTreeIsUnique(kids.head, ts.head, us.head, roots, under);
      HeldTreesAreUnique(kids.tail, ts.tail, us.tail, roots, under);
    }
  }

  /** Nor do the links leave a choice of items. */
  lemma {:induction false} ChildIsUnique(parent: Item, s: seq<Item>, r: seq<Item>, i: nat)
    requires Children(parent, s) && Children(parent, r) && i < |s|
    ensures i < |r| && s[i] == r[i]
  {
    if i > 0 {
      ChildIsUnique(parent, s, r, i - 1);
      assert NextOf(s, i - 1) == NextOf(r, i - 1);
    }
  }

  lemma ChildrenAreAsMany(parent: Item, s: seq<Item>, r: seq<Item>)
    requires Children(parent, s) && Children(parent, r)
    ensures |s| <= |r|
  {
    if s != [] {
      ChildIsUnique(parent, s, r, |s| - 1);
    }
  }

  lemma ChildrenAreUnique(parent: Item, s: seq<Item>, r: seq<Item>)
    requires Children(parent, s) && Children(parent, r)
    ensures s == r
  {
    ChildrenAreAsMany(parent, s, r);
    ChildrenAreAsMany(parent, r, s);
    forall i | 0 <= i < |s| ensures s[i] == r[i] {
      ChildIsUnique(parent, s, r, i);
    }
  }

  /** One item holds one tree, in one shape. */
  lemma {:induction false} OneItemOneTree(sh: Shape, t: Tree, roots: set<Item>, under: set<Item>,
                                          sg: Shape, u: Tree, roots': set<Item>, under': set<Item>)
    requires Holds(sh, t, roots, under) && Holds(sg, u, roots', under') && sh.node == sg.node
    ensures sh == sg && t == u
    decreases sh
  {
    ChildrenAreUnique(sh.node, Roots(sh.kids), Roots(sg.kids));
    SameItemsSameTrees(sh.kids, t.kids, under, under, sg.kids, u.kids, under', under');
  }

  lemma {:induction false} SameItemsSameTrees(kids: Shapes, ts: Trees, roots: set<Item>, under: set<Item>,
                                              kids': Shapes, us: Trees, roots': set<Item>, under': set<Item>)
    requires AllHold(kids, ts, roots, under) && AllHold(kids', us, roots', under') && Roots(kids) == Roots(kids')
    ensures kids == kids' && ts == us
    decreases kids
  {
    if kids.SomeShapes? && kids'.SomeShapes? {
      assert Roots(kids)[0] == kids.head.node && Roots(kids)[1..] == Roots(kids.tail);
      assert Roots(kids')[0] == kids'.head.node && Roots(kids')[1..] == Roots(kids'.tail);
      OneItemOneTree(kids.head, ts.head, roots, under, kids'.head, us.head, roots', under');
      SameItemsSameTrees(kids.tail, ts.tail, roots, under, kids'.tail, us.tail, roots', under');
    }
  }

  lemma OneItemOneJson(sh: Shape, name: Option<string>, j: Json, sg: Shape, name': Option<string>, j': Json)
    requires Stands(sh, TreeOf(name, j)) && Stands(sg, TreeOf(name', j')) && sh.node == sg.node
    ensures sh == sg && j == j'
  {
    OneItemOneTree(sh, TreeOf(name, j), {sh.node}, NodesOf(sh.kids), sg, TreeOf(name', j'), {sg.node}, NodesOf(sg.kids));
    assert TreeOf(name, j).payload.name == name && TreeOf(name', j').payload.name == name';
    ItemsDetermineJson(name, j, j');
  }

  /** Two trees of items that hold the same, as an item and its duplicate do: read as JSON they are equal, and
      cJSON_Compare says so exactly if no name is repeated with different values. */
  lemma DuplicatesCompareEqual(sh: Shape, copy: Shape, t: Tree, name: Option<string>, a: Json, b: Json, cased: bool)
    requires Stands(sh, t) && Stands(copy, t) && Printable(a)
    requires Stands(sh, TreeOf(name, a)) && Stands(copy, TreeOf(name, b))
    ensures a == b && (JsonCompare.Compare(a, b, cased) <==> JsonCompare.Regular(a, cased))
  {
    HeldTreeIsUnique(sh, t, TreeOf(name, a), {sh.node}, NodesOf(sh.kids));
    HeldTreeIsUnique(copy, t, TreeOf(name, b), {copy.node}, NodesOf(copy.kids));
    ItemsDetermineJson(name, a, b);
    JsonCompare.CompareDecidesMeaning(a, b, cased);
  }
}
