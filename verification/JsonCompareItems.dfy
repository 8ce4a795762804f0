/** cJSON_Compare as it runs on items in memory: cursors over linked children, and the shortcut for one and
    the same item (packages/cjson/cJSON.c:132-155, 1909-1939, 3030-3153). */
module JsonCompareItems {
  import opened Options
  import opened Json
  import opened JsonCompare
  import opened ChildList
  import opened ItemTrees
  import opened JsonItems

  /** The character at i, or the terminator. */
  function CharAt(s: string, i: nat): char {
    if i < |s| then s[i] else NUL
  }

  /** case_insensitive_strcmp */
  method CaseInsensitiveStrcmp(string1: string, string2: string) returns (r: int)
    requires IsCString(string1) && IsCString(string2)
    ensures r == 0 <==> SameButForCase(string1, string2)
  {
    LowerMeansSame(string1, string2);
    var i := 0;
    while ToLower(CharAt(string1, i)) == ToLower(CharAt(string2, i))
      invariant 0 <= i <= |string1| && i <= |string2|
      invariant forall k :: 0 <= k < i ==> Lower(string1)[k] == Lower(string2)[k]
      decreases |string1| - i
    {
      if CharAt(string1, i) == NUL {
        return 0;
      }
      i := i + 1;
    }
    r := ToLower(CharAt(string1, i)) as int - ToLower(CharAt(string2, i)) as int;
    LowerAt(string1, i);
    LowerAt(string2, i);
  }

  lemma LowerAt(s: string, i: nat)
    ensures ToLower(CharAt(s, i)) == CharAt(Lower(s), i)
  {
  }

  // --------------------------------------------------------------- the comparison

  /** What an answer is worth: what Compare finds equal is found equal, and the other way round where the
      shortcut can be trusted. */
  predicate Verdict(equal: bool, decided: bool, trusted: bool) {
    (decided ==> equal) && (trusted && equal ==> decided)
  }

  /** get_object_item */
  method GetObjectItem(parent: Item, name: string, cased: bool,
                       ghost s: seq<Item>, ghost kids: Shapes, ghost members: Members, ghost all: set<Item>)
    returns (item: Item?, ghost found: Shape, ghost key: string)
    requires Source(parent, s, 0, kids, TreesOfMembers(members), all) && parent.child == First(Roots(kids))
    ensures item == null <==> Get(members, name, cased).None?
    ensures
      item != null ==>
        && found.node == item && Nodes(found) <= all
        && Stands(found, TreeOf(Some(key), Get(members, name, cased).value))
  {
    found, key := Shape(parent, kids), "";
    item := parent.child;
    ghost var k: nat, rest, ms := 0, kids, members;
    while item != null && item.payload.name.Some? && Key(item.payload.name.value, cased) != Key(name, cased)
      invariant Source(parent, s, k, rest, TreesOfMembers(ms), all) && item == First(Roots(rest))
      invariant Get(members, name, cased) == Get(ms, name, cased)
      decreases ms
    {
      MemberIsThere(parent, s, k, rest, ms, all);
      item := item.next;
      k, rest, ms := k + 1, rest.tail, ms.rest;
    }
    if ms.Member? {
      MemberIsThere(parent, s, k, rest, ms, all);
      found, key := rest.head, ms.key;
    }
    if item == null || item.payload.name.None? {
      return null, found, key;
    }
  }

  /** The loop over the elements of two arrays */
  method CompareElemItems(a: Item, b: Item, cased: bool,
                          ghost s: seq<Item>, ghost kids: Shapes, ghost x: Elems, ghost all: set<Item>,
                          ghost r: seq<Item>, ghost kids': Shapes, ghost y: Elems, ghost all': set<Item>,
                          ghost trusted: bool) returns (equal: bool)
    requires Source(a, s, 0, kids, TreesOfElems(x), all) && a.child == First(Roots(kids))
    requires Source(b, r, 0, kids', TreesOfElems(y), all') && b.child == First(Roots(kids'))
    requires trusted ==> all !! all' || (RegularElems(x, cased) && RegularElems(y, cased))
    ensures Verdict(equal, CompareElems(x, y, cased), trusted)
    decreases SizeOfElems(x) + SizeOfElems(y), 1
  {
    var aElement, bElement := a.child, b.child;
    ghost var k: nat, rest, x', rest', y' := 0, kids, x, kids', y;
    while aElement != null && bElement != null
      invariant Source(a, s, k, rest, TreesOfElems(x'), all) && aElement == First(Roots(rest))
      invariant Source(b, r, k, rest', TreesOfElems(y'), all') && bElement == First(Roots(rest'))
      invariant trusted ==> all !! all' || (RegularElems(x', cased) && RegularElems(y', cased))
      invariant SizeOfElems(x') <= SizeOfElems(x) && SizeOfElems(y') <= SizeOfElems(y)
      invariant Verdict(CompareElems(x', y', cased), CompareElems(x, y, cased), trusted)
      decreases x'
    {
      ElemIsThere(a, s, k, rest, x', all);
      ElemIsThere(b, r, k, rest', y', all');
      equal := CompareItems(aElement, bElement, cased, rest.head, None, x'.head, rest'.head, None, y'.head, trusted);
      if !equal {
        return;
      }
      aElement, bElement := aElement.next, bElement.next;
      k, rest, x', rest', y' := k + 1, rest.tail, x'.tail, rest'.tail, y'.tail;
    }
    equal := aElement == bElement;
    assert equal <==> x' == y' by {
      assert aElement == null <==> x'.NoElems?;
      assert bElement == null <==> y'.NoElems?;
    }
  }

  /** One turn of that loop: a member is looked up in the other object and compared. */
  method CompareMember(element: Item, b: Item, cased: bool,
                       ghost sh: Shape, ghost name: string, ghost j: Json, ghost all: set<Item>,
                       ghost r: seq<Item>, ghost kids': Shapes, ghost y: Members, ghost all': set<Item>,
                       ghost table': map<string, Value>, ghost trusted: bool) returns (equal: bool)
    requires Stands(sh, TreeOf(Some(name), j)) && sh.node == element && element.payload.name == Some(name)
    requires Nodes(sh) <= all
    requires Source(b, r, 0, kids', TreesOfMembers(y), all') && b.child == First(Roots(kids'))
    requires trusted ==> all !! all' || (Regular(j, cased) && Fits(y, table', cased))
    ensures Verdict(equal, Get(y, name, cased).Some? && Compare(j, Get(y, name, cased).value, cased), trusted)
    decreases Size(j) + SizeOfMembers(y), 1
  {
    var other;
    ghost var found, key;
    other, found, key := GetObjectItem(b, element.payload.name.value, cased, r, kids', y, all');
    if other == null {
      return false;
    }
    ghost var value := Get(y, name, cased).value;
    if trusted && !(all !! all') {
      FittingMembersAreRegular(y, table', name, cased);
    }
    equal := CompareItems(element, other, cased, sh, Some(name), j, found, Some(key), value, trusted);
  }

  /** One of the two loops over the members of objects */
  method CompareMemberItems(a: Item, b: Item, cased: bool,
                            ghost s: seq<Item>, ghost kids: Shapes, ghost x: Members, ghost all: set<Item>,
                            ghost r: seq<Item>, ghost kids': Shapes, ghost y: Members, ghost all': set<Item>,
                            ghost table: map<string, Value>, ghost table': map<string, Value>, ghost trusted: bool)
    returns (equal: bool)
    requires Source(a, s, 0, kids, TreesOfMembers(x), all) && a.child == First(Roots(kids))
    requires Source(b, r, 0, kids', TreesOfMembers(y), all') && b.child == First(Roots(kids'))
    requires trusted ==> all !! all' || (Fits(x, table, cased) && Fits(y, table', cased))
    ensures Verdict(equal, AllIn(x, y, cased), trusted)
    decreases SizeOfMembers(x) + SizeOfMembers(y), 1
  {
    var element := a.child;
    ghost var k: nat, rest, x' := 0, kids, x;
    while element != null
      invariant Source(a, s, k, rest, TreesOfMembers(x'), all) && element == First(Roots(rest))
      invariant trusted ==> all !! all' || (Fits(x', table, cased) && Fits(y, table', cased))
      invariant SizeOfMembers(x') <= SizeOfMembers(x)
      invariant Verdict(AllIn(x', y, cased), AllIn(x, y, cased), trusted)
      decreases x'
    {
      MemberIsThere(a, s, k, rest, x', all);
      equal := CompareMember(element, b, cased, rest.head, x'.key, x'.value, all, r, kids', y, all', table', trusted);
      if !equal {
        return;
      }
      element := element.next;
      k, rest, x' := k + 1, rest.tail, x'.rest;
    }
    equal := true;
  }

  /** cJSON_Compare on two items.  One and the same item is equal to itself; what Compare finds equal is found
      equal; and if the trees share no item, or repeat no name with different values, nothing else is. */
  method CompareItems(a: Item, b: Item, cased: bool,
                      ghost sa: Shape, ghost na: Option<string>, ghost ja: Json,
                      ghost sb: Shape, ghost nb: Option<string>, ghost jb: Json, ghost trusted: bool)
    returns (equal: bool)
    requires Stands(sa, TreeOf(na, ja)) && sa.node == a && Stands(sb, TreeOf(nb, jb)) && sb.node == b
    requires trusted ==> Nodes(sa) !! Nodes(sb) || (Regular(ja, cased) && Regular(jb, cased))
    ensures a == b ==> equal
    ensures Verdict(equal, Compare(ja, jb, cased), trusted)
    decreases Size(ja) + Size(jb), 0
  {
    if a.payload.kind != b.payload.kind {
      return false;
    }
    if a == b {
      OneItemOneJson(sa, na, ja, sb, nb, jb);
      if trusted {
        assert a in Nodes(sa) && a in Nodes(sb);
        SameMeaningCompares(ja, jb, cased);
      }
      return true;
    }
    if a.payload.kind == 1 || a.payload.kind == 2 || a.payload.kind == 4 {
      return true;
    } else if a.payload.kind == 8 {
      return CompareDouble(a.payload.number, b.payload.number);
    } else if a.payload.kind == 16 {
      return a.payload.text.Some? && b.payload.text.Some? && a.payload.text == b.payload.text;
    }
    SourceStarts(sa, TreeOf(na, ja), {a}, NodesOf(sa.kids));
    SourceStarts(sb, TreeOf(nb, jb), {b}, NodesOf(sb.kids));
    ghost var all, all' := NodesOf(sa.kids), NodesOf(sb.kids);
    if a.payload.kind == 32 {
      equal := CompareElemItems(a, b, cased, Roots(sa.kids), sa.kids, ja.elems, all,
                                Roots(sb.kids), sb.kids, jb.elems, all', trusted);
    } else {
      equal := CompareObjectItems(a, b, cased, Roots(sa.kids), sa.kids, ja.members, all,
                                  Roots(sb.kids), sb.kids, jb.members, all', trusted);
    }
  }

  method CompareObjectItems(a: Item, b: Item, cased: bool,
                            ghost s: seq<Item>, ghost kids: Shapes, ghost x: Members, ghost all: set<Item>,
                            ghost r: seq<Item>, ghost kids': Shapes, ghost y: Members, ghost all': set<Item>,
                            ghost trusted: bool) returns (equal: bool)
    requires Source(a, s, 0, kids, TreesOfMembers(x), all) && a.child == First(Roots(kids))
    requires Source(b, r, 0, kids', TreesOfMembers(y), all') && b.child == First(Roots(kids'))
    requires trusted ==> all !! all' || (Regular(Object(x), cased) && Regular(Object(y), cased))
    ensures Verdict(equal, Compare(Object(x), Object(y), cased), trusted)
    decreases SizeOfMembers(x) + SizeOfMembers(y), 2
  {
    ghost var table, table' := MeaningOfMembers(x, cased), MeaningOfMembers(y, cased);
    equal := CompareMemberItems(a, b, cased, s, kids, x, all, r, kids', y, all', table, table', trusted);
    if equal {
      equal := CompareMemberItems(b, a, cased, r, kids', y, all', s, kids, x, all, table', table, trusted);
    }
  }
}
