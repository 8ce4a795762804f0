/** The children of an array or object (packages/cjson/cJSON.c:1857-1905, 1949-2016, 2216-2373): a list
    linked through next that ends with NULL, in which prev of the first child is the last child.  Every
    operation rewrites the links in place, and is proved to be an operation on the sequence of children. */
module ChildList {
  import opened Options
  import opened Sequences

  /** What an item holds besides its links: its type, valuestring, valueint and valuedouble, and its name. */
  datatype Payload = Payload(kind: nat, text: Option<string>, whole: int, number: real, name: Option<string>)

  class Item {
    var next: Item?
    var prev: Item?
    var child: Item?
    var payload: Payload

    /** cJSON_New_Item */
    constructor ()
      ensures next == null && prev == null && child == null && payload == Payload(0, None, 0, 0.0, None)
    {
      next, prev, child := null, null, null;
      payload := Payload(0, None, 0, 0.0, None);
    }
  }

  ghost function First(s: seq<Item>): (n: Item?)
    ensures n == null <==> s == []
  {
    if s == [] then null else s[0]
  }

  ghost function NextOf(s: seq<Item>, i: nat): (n: Item?)
    ensures n == null <==> i + 1 >= |s|
  {
    if i + 1 < |s| then s[i + 1] else null
  }

  ghost function PrevOf(s: seq<Item>, i: nat): Item
    requires i < |s|
  {
    if i == 0 then s[|s| - 1] else s[i - 1]
  }

  /** The children of parent are s. */
  ghost predicate Children(parent: Item, s: seq<Item>)
    reads parent`child, s`next, s`prev
  {
    && parent !in s
    && Distinct(s)
    && parent.child == First(s)
    && forall i {:trigger NextOf(s, i)} {:trigger PrevOf(s, i)} :: 0 <= i < |s| ==>
         s[i].next == NextOf(s, i) && s[i].prev == PrevOf(s, i)
  }

  // ------------------------------------------------------------ snapshots of links

  /** The same of a snapshot of the links. */
  ghost predicate Linked(s: seq<Item>, next: map<Item, Item?>, prev: map<Item, Item?>) {
    && (forall x :: x in s ==> x in next && x in prev)
    && (forall i {:trigger NextOf(s, i)} {:trigger PrevOf(s, i)} :: 0 <= i < |s| ==>
         next[s[i]] == NextOf(s, i) && prev[s[i]] == PrevOf(s, i))
  }

  ghost function Nexts(s: seq<Item>): map<Item, Item?>
    reads s
  {
    map x | x in s :: x.next
  }

  ghost function Prevs(s: seq<Item>): map<Item, Item?>
    reads s
  {
    map x | x in s :: x.prev
  }

  lemma Snapshot(parent: Item, s: seq<Item>)
    requires Children(parent, s)
    ensures Linked(s, Nexts(s), Prevs(s))
  {
  }

  lemma FromSnapshot(parent: Item, s: seq<Item>, next: map<Item, Item?>, prev: map<Item, Item?>)
    requires parent !in s && Distinct(s) && parent.child == First(s) && Linked(s, next, prev)
    requires forall x :: x in s ==> x in next && x in prev && x.next == next[x] && x.prev == prev[x]
    ensures Children(parent, s)
  {
    forall i | 0 <= i < |s| ensures s[i].next == NextOf(s, i) && s[i].prev == PrevOf(s, i) {
      assert s[i] in s;
    }
  }

  /** The links that change when the k-th child leaves, when n comes in front of it or takes its place, and
      when n comes last. */
  ghost function NextWithout(s: seq<Item>, k: nat, next: map<Item, Item?>): map<Item, Item?>
    requires k < |s|
  {
    if k > 0 then next[s[k - 1] := NextOf(s, k)] else next
  }

  ghost function PrevWithout(s: seq<Item>, k: nat, prev: map<Item, Item?>): map<Item, Item?>
    requires k < |s|
  {
    if k + 1 < |s| then prev[s[k + 1] := PrevOf(s, k)] else if k > 0 then prev[s[0] := PrevOf(s, k)] else prev
  }

  ghost function NextWith(s: seq<Item>, k: nat, n: Item, next: map<Item, Item?>): map<Item, Item?>
    requires k < |s|
  {
    if k > 0 then next[n := s[k]][s[k - 1] := n] else next[n := s[k]]
  }

  ghost function PrevWith(s: seq<Item>, k: nat, n: Item, prev: map<Item, Item?>): map<Item, Item?>
    requires k < |s|
  {
    prev[n := PrevOf(s, k)][s[k] := n]
  }

  ghost function NextReplaced(s: seq<Item>, k: nat, n: Item, next: map<Item, Item?>): map<Item, Item?>
    requires k < |s|
  {
    if k > 0 then next[n := NextOf(s, k)][s[k - 1] := n] else next[n := NextOf(s, k)]
  }

  ghost function PrevReplaced(s: seq<Item>, k: nat, n: Item, prev: map<Item, Item?>): map<Item, Item?>
    requires k < |s|
  {
    var prev' := prev[n := if |s| == 1 then n else PrevOf(s, k)];
    if k + 1 < |s| then prev'[s[k + 1] := n] else if k > 0 then prev'[s[0] := n] else prev'
  }

  ghost function NextAppended(s: seq<Item>, n: Item, next: map<Item, Item?>): map<Item, Item?>
    requires s != []
  {
    next[s[|s| - 1] := n][n := null]
  }

  ghost function PrevAppended(s: seq<Item>, n: Item, prev: map<Item, Item?>): map<Item, Item?>
    requires s != []
  {
    prev[n := s[|s| - 1]][s[0] := n]
  }

  /** Who is next to whom when the k-th child is gone. */
  lemma NeighboursWithout(s: seq<Item>, k: nat, i: nat)
    requires Distinct(s) && k < |s| && i < |s| - 1
    ensures
      var s', j := RemoveAt(s, k), if i < k then i else i + 1;
      && s'[i] == s[j] && j < |s|
      && NextOf(s', i) == (if j + 1 == k then NextOf(s, k) else NextOf(s, j))
      && PrevOf(s', i) == (if j == k + 1 || (j == 0 && k == |s| - 1) then PrevOf(s, k) else PrevOf(s, j))
  {
  }

  lemma LinkedWithout(s: seq<Item>, k: nat, next: map<Item, Item?>, prev: map<Item, Item?>)
    requires Distinct(s) && k < |s| && Linked(s, next, prev)
    ensures Linked(RemoveAt(s, k), NextWithout(s, k, next), PrevWithout(s, k, prev))
  {
    var s', next', prev' := RemoveAt(s, k), NextWithout(s, k, next), PrevWithout(s, k, prev);
    forall x | x in s' ensures x in next' && x in prev' {
    }
    forall i | 0 <= i < |s'|
      ensures next'[s'[i]] == NextOf(s', i) && prev'[s'[i]] == PrevOf(s', i)
    {
      NeighboursWithout(s, k, i);
      var j := if i < k then i else i + 1;
      assert next[s[j]] == NextOf(s, j) && prev[s[j]] == PrevOf(s, j);
    }
  }

  lemma NeighboursWith(s: seq<Item>, k: nat, n: Item, i: nat)
    requires Distinct(s) && k < |s| && i <= |s| && n !in s
    ensures
      var s', j := InsertAt(s, k, n), if i < k then i else i - 1;
      && (i == k ==> s'[i] == n && NextOf(s', i) == s[k] && PrevOf(s', i) == PrevOf(s, k))
      && (i != k ==> s'[i] == s[j] && NextOf(s', i) == (if j + 1 == k then n else NextOf(s, j)))
      && (i != k ==> PrevOf(s', i) == (if j == k then n else PrevOf(s, j)))
  {
  }

  lemma LinkedWith(s: seq<Item>, k: nat, n: Item, next: map<Item, Item?>, prev: map<Item, Item?>)
    requires Distinct(s) && k < |s| && n !in s && Linked(s, next, prev)
    ensures Linked(InsertAt(s, k, n), NextWith(s, k, n, next), PrevWith(s, k, n, prev))
  {
    var s', next', prev' := InsertAt(s, k, n), NextWith(s, k, n, next), PrevWith(s, k, n, prev);
    forall x | x in s' ensures x in next' && x in prev' {
    }
    forall i | 0 <= i < |s'|
      ensures next'[s'[i]] == NextOf(s', i) && prev'[s'[i]] == PrevOf(s', i)
    {
      NeighboursWith(s, k, n, i);
      if i != k {
        var j := if i < k then i else i - 1;
        assert next[s[j]] == NextOf(s, j) && prev[s[j]] == PrevOf(s, j);
      }
    }
  }

  lemma LinkedAppended(s: seq<Item>, n: Item, next: map<Item, Item?>, prev: map<Item, Item?>)
    requires Distinct(s) && s != [] && n !in s && Linked(s, next, prev)
    ensures Linked(s + [n], NextAppended(s, n, next), PrevAppended(s, n, prev))
  {
    var s', next', prev' := s + [n], NextAppended(s, n, next), PrevAppended(s, n, prev);
    forall x | x in s' ensures x in next' && x in prev' {
    }
    forall i | 0 <= i < |s'|
      ensures next'[s'[i]] == NextOf(s', i) && prev'[s'[i]] == PrevOf(s', i)
    {
      if i < |s| {
        assert s'[i] == s[i] && next[s[i]] == NextOf(s, i) && prev[s[i]] == PrevOf(s, i);
      }
    }
  }

  lemma LinkedReplaced(s: seq<Item>, k: nat, n: Item, next: map<Item, Item?>, prev: map<Item, Item?>)
    requires Distinct(s) && k < |s| && n !in s && Linked(s, next, prev)
    ensures Distinct(s[k := n]) && Linked(s[k := n], NextReplaced(s, k, n, next), PrevReplaced(s, k, n, prev))
  {
    var s', next', prev' := s[k := n], NextReplaced(s, k, n, next), PrevReplaced(s, k, n, prev);
    forall x | x in s' ensures x in next' && x in prev' {
    }
    forall i | 0 <= i < |s'|
      ensures next'[s'[i]] == NextOf(s', i) && prev'[s'[i]] == PrevOf(s', i)
    {
      if i != k {
        assert s'[i] == s[i] && next[s[i]] == NextOf(s, i) && prev[s[i]] == PrevOf(s, i);
      }
    }
  }

  // ------------------------------------------------- what must have been rewritten

  /** The child whose prev changes along with the k-th child: the one behind it, or else the first. */
  ghost function Behind(s: seq<Item>, k: nat): Item
    requires k < |s|
  {
    if k + 1 < |s| then s[k + 1] else s[0]
  }

  lemma ChildrenWithout(parent: Item, s: seq<Item>, k: nat, next: map<Item, Item?>, prev: map<Item, Item?>)
    requires parent !in s && Distinct(s) && k < |s| && Linked(s, next, prev)
    requires parent.child == First(RemoveAt(s, k))
    requires k > 0 ==> s[k - 1].next == NextOf(s, k)
    requires |s| > 1 ==> Behind(s, k).prev == PrevOf(s, k)
    requires forall x :: x in s && x != s[k] && (k > 0 ==> x != s[k - 1]) ==> x.next == next[x]
    requires forall x :: x in s && x != s[k] && x != Behind(s, k) ==> x.prev == prev[x]
    ensures Children(parent, RemoveAt(s, k))
  {
    RemoveKeepsDistinct(s, k);
    LinkedWithout(s, k, next, prev);
    FromSnapshot(parent, RemoveAt(s, k), NextWithout(s, k, next), PrevWithout(s, k, prev));
  }

  lemma ChildrenWith(parent: Item, s: seq<Item>, k: nat, n: Item, next: map<Item, Item?>, prev: map<Item, Item?>)
    requires parent !in s && Distinct(s) && k < |s| && Linked(s, next, prev) && n !in s && n != parent
    requires parent.child == if k == 0 then n else s[0]
    requires n.next == s[k] && n.prev == PrevOf(s, k) && s[k].prev == n && (k > 0 ==> s[k - 1].next == n)
    requires forall x :: x in s && (k > 0 ==> x != s[k - 1]) ==> x.next == next[x]
    requires forall x :: x in s && x != s[k] ==> x.prev == prev[x]
    ensures Children(parent, InsertAt(s, k, n))
  {
    InsertAdds(s, k, n);
    LinkedWith(s, k, n, next, prev);
    FromSnapshot(parent, InsertAt(s, k, n), NextWith(s, k, n, next), PrevWith(s, k, n, prev));
  }

  lemma ChildrenAppended(parent: Item, s: seq<Item>, n: Item, next: map<Item, Item?>, prev: map<Item, Item?>)
    requires parent !in s && Distinct(s) && s != [] && Linked(s, next, prev) && n !in s && n != parent
    requires parent.child == s[0] && n.next == null && n.prev == s[|s| - 1]
    requires s[|s| - 1].next == n && s[0].prev == n
    requires forall x :: x in s && x != s[|s| - 1] ==> x.next == next[x]
    requires forall x :: x in s && x != s[0] ==> x.prev == prev[x]
    ensures Children(parent, s + [n])
  {
    LinkedAppended(s, n, next, prev);
    FromSnapshot(parent, s + [n], NextAppended(s, n, next), PrevAppended(s, n, prev));
  }

  lemma ChildrenReplaced(parent: Item, s: seq<Item>, k: nat, n: Item, next: map<Item, Item?>, prev: map<Item, Item?>)
    requires parent !in s && Distinct(s) && k < |s| && Linked(s, next, prev) && n !in s && n != parent
    requires parent.child == if k == 0 then n else s[0]
    requires n.next == NextOf(s, k) && n.prev == if |s| == 1 then n else PrevOf(s, k)
    requires k > 0 ==> s[k - 1].next == n
    requires |s| > 1 ==> Behind(s, k).prev == n
    requires forall x :: x in s && x != s[k] && (k > 0 ==> x != s[k - 1]) ==> x.next == next[x]
    requires forall x :: x in s && x != s[k] && x != Behind(s, k) ==> x.prev == prev[x]
    ensures Children(parent, s[k := n])
  {
    LinkedReplaced(s, k, n, next, prev);
    FromSnapshot(parent, s[k := n], NextReplaced(s, k, n, next), PrevReplaced(s, k, n, prev));
  }

  // ------------------------------------------------------------- what is not a list

  /** Following child and then next leads through w, which may visit an item twice. */
  ghost predicate Walk(parent: Item, w: seq<Item>)
    reads parent`child, w`next
  {
    && w != []
    && parent.child == w[0]
    && forall i {:trigger NextOf(w, i)} :: 0 <= i < |w| - 1 ==> w[i].next == NextOf(w, i)
  }

  lemma LinksOf(parent: Item, s: seq<Item>, i: nat)
    requires Children(parent, s) && i < |s|
    ensures s[i].prev == PrevOf(s, i) && s[0].prev == s[|s| - 1]
    ensures s[i].next == NextOf(s, i) && s[|s| - 1].next == null
  {
    assert s[0].prev == PrevOf(s, 0) && s[|s| - 1].next == NextOf(s, |s| - 1);
  }

  /** Whatever the children are, every walk starts with them. */
  lemma {:induction false} WalkIsPrefix(parent: Item, w: seq<Item>, r: seq<Item>)
    requires Walk(parent, w) && Children(parent, r)
    ensures |w| <= |r| && w == r[..|w|]
    decreases |w|
  {
    var n := |w| - 1;
    if n > 0 {
      forall i | 0 <= i < n - 1 ensures w[i].next == NextOf(w[..n], i) {
        assert w[i].next == NextOf(w, i);
      }
      WalkIsPrefix(parent, w[..n], r);
      assert w[n - 1] == w[..n][n - 1] == r[n - 1];
      assert w[n - 1].next == NextOf(w, n - 1) && r[n - 1].next == NextOf(r, n - 1);
      assert w == w[..n] + [w[n]];
    }
  }

  /** No children are right if a walk comes to an item twice, or to the parent. */
  lemma RepeatingWalk(parent: Item, w: seq<Item>)
    requires Walk(parent, w) && (parent in w || !Distinct(w))
    ensures forall r: seq<Item> :: !Children(parent, r)
  {
    forall r: seq<Item> | Children(parent, r) ensures false {
      WalkIsPrefix(parent, w, r);
    }
  }

  /** Nor if what is appended to them is one of them, is the parent, or has a next. */
  lemma CannotAppend(parent: Item, s: seq<Item>, n: Item, next: map<Item, Item?>, prev: map<Item, Item?>)
    requires Distinct(s) && s != [] && Linked(s, next, prev) && parent.child == s[0]
    requires s[|s| - 1].next == n && s[0].prev == n
    requires forall x :: x in s && x != s[|s| - 1] ==> x.next == next[x]
    requires n in s || n.next != null
    ensures forall r: seq<Item> :: !Children(parent, r)
  {
    var w := s + [n];
    forall i | 0 <= i < |w| - 1 ensures w[i].next == NextOf(w, i) {
      assert w[i] == s[i] && next[s[i]] == NextOf(s, i);
    }
    if n in s {
      var k: nat :| k < |s| && s[k] == n;
      assert w[k] == w[|s|];
      RepeatingWalk(parent, w);
    } else {
      forall r: seq<Item> | Children(parent, r) ensures false {
        WalkIsPrefix(parent, w, r);
        LinksOf(parent, r, |s|);
      }
    }
  }

  /** Nor if one of them is inserted in front of itself or the one behind it, */
  lemma CannotInsertBeside(parent: Item, s: seq<Item>, j: nat, next: map<Item, Item?>, prev: map<Item, Item?>)
    requires Distinct(s) && j < |s| && Linked(s, next, prev) && parent.child == s[0]
    requires s[j].next == s[j] && forall i :: 0 <= i < j ==> s[i].next == next[s[i]]
    ensures forall r: seq<Item> :: !Children(parent, r)
  {
    var w := s[..j + 1] + [s[j]];
    forall i | 0 <= i < |w| - 1 ensures w[i].next == NextOf(w, i) {
      assert w[i] == s[i] && next[s[i]] == NextOf(s, i);
    }
    assert w[j] == w[j + 1];
    RepeatingWalk(parent, w);
  }

  /** in front of an earlier one, */
  lemma CannotInsertAhead(parent: Item, s: seq<Item>, k: nat, j: nat, next: map<Item, Item?>, prev: map<Item, Item?>)
    requires Distinct(s) && k < j < |s| && Linked(s, next, prev)
    requires parent.child == if k == 0 then s[j] else s[0]
    requires s[j].next == s[k] && (k > 0 ==> s[k - 1].next == s[j])
    requires forall i :: 0 <= i < |s| && i != j && i + 1 != k ==> s[i].next == next[s[i]]
    ensures forall r: seq<Item> :: !Children(parent, r)
  {
    var w := s[..k] + [s[j]] + s[k..j + 1];
    forall i | 0 <= i < |w| - 1 ensures w[i].next == NextOf(w, i) {
      if i < k {
        assert w[i] == s[i] && next[s[i]] == NextOf(s, i);
      } else if i > k {
        assert w[i] == s[i - 1] && next[s[i - 1]] == NextOf(s, i - 1);
      }
    }
    assert w[k] == w[j + 1];
    RepeatingWalk(parent, w);
  }

  lemma PrevInPrefix(s: seq<Item>, r: seq<Item>, j: nat)
    requires j < |s| && j < |r| && s[..j + 1] == r[..j + 1]
    ensures r[j] == s[j] && PrevOf(r, j) == if j == 0 then r[|r| - 1] else s[j - 1]
  {
    assert s[..j + 1][j] == r[..j + 1][j];
    if j > 0 {
      assert s[..j + 1][j - 1] == r[..j + 1][j - 1];
    }
  }

  /** or in front of a later one, */
  lemma CannotInsertBehind(parent: Item, s: seq<Item>, k: nat, j: nat, next: map<Item, Item?>, prev: map<Item, Item?>)
    requires Distinct(s) && j + 1 < k < |s| && Linked(s, next, prev) && parent.child == s[0]
    requires s[j].prev == s[k - 1] && s[k - 1].next == s[j]
    requires forall i :: 0 <= i < j ==> s[i].next == next[s[i]]
    ensures forall r: seq<Item> :: !Children(parent, r)
  {
    var w := s[..j + 1];
    forall i | 0 <= i < |w| - 1 ensures w[i].next == NextOf(w, i) {
      assert w[i] == s[i] && next[s[i]] == NextOf(s, i);
    }
    forall r: seq<Item> | Children(parent, r) ensures false {
      WalkIsPrefix(parent, w, r);
      PrevInPrefix(s, r, j);
      LinksOf(parent, r, j);
    }
  }

  /** and in front of whichever it is. */
  lemma CannotInsert(parent: Item, s: seq<Item>, k: nat, j: nat, next: map<Item, Item?>, prev: map<Item, Item?>)
    requires Distinct(s) && k < |s| && j < |s| && Linked(s, next, prev)
    requires parent.child == if k == 0 then s[j] else s[0]
    requires s[j].next == if j == k || j + 1 == k then s[j] else s[k]
    requires k > 0 && j != k ==> s[j].prev == s[k - 1] && s[k - 1].next == s[j]
    requires forall i :: 0 <= i < |s| && i != j && (j != k ==> i + 1 != k) ==> s[i].next == next[s[i]]
    ensures forall r: seq<Item> :: !Children(parent, r)
  {
    if j == k || j + 1 == k {
      CannotInsertBeside(parent, s, j, next, prev);
    } else if j > k {
      CannotInsertAhead(parent, s, k, j, next, prev);
    } else {
      CannotInsertBehind(parent, s, k, j, next, prev);
    }
  }

  /** Nor if the parent is inserted among them. */
  lemma CannotInsertParent(parent: Item, s: seq<Item>, k: nat, next: map<Item, Item?>, prev: map<Item, Item?>)
    requires Distinct(s) && k < |s| && Linked(s, next, prev)
    requires parent.child == if k == 0 then parent else s[0]
    requires k > 0 ==> s[k - 1].next == parent
    requires forall i :: 0 <= i < k - 1 ==> s[i].next == next[s[i]]
    ensures forall r: seq<Item> :: !Children(parent, r)
  {
    var w := s[..k] + [parent];
    forall i | 0 <= i < |w| - 1 ensures w[i].next == NextOf(w, i) {
      assert w[i] == s[i] && next[s[i]] == NextOf(s, i);
    }
    assert w[k] == parent;
    RepeatingWalk(parent, w);
  }

  // ------------------------------------------------------------------ operations

  ghost function At(s: seq<Item>, i: nat): (n: Item?)
    ensures n == null <==> i >= |s|
  {
    if i < |s| then s[i] else null
  }

  /** get_array_item */
  method GetArrayItem(parent: Item, index: nat, ghost s: seq<Item>) returns (item: Item?)
    requires Children(parent, s)
    ensures item == At(s, index)
  {
    item := parent.child;
    var left: nat := index;
    while item != null && left > 0
      invariant left <= index && item == At(s, index - left) && index - left <= |s|
      decreases left
    {
      left := left - 1;
      assert item.next == NextOf(s, index - left - 1);
      item := item.next;
    }
  }

  /** cJSON_GetArraySize */
  method GetArraySize(parent: Item, ghost s: seq<Item>) returns (size: nat)
    requires Children(parent, s)
    ensures size == |s|
  {
    var child := parent.child;
    size := 0;
    while child != null
      invariant size <= |s| && child == At(s, size)
      decreases |s| - size
    {
      size := size + 1;
      assert child.next == NextOf(s, size - 1);
      child := child.next;
    }
  }

  method SuffixObject(prev: Item, item: Item)
    modifies prev`next, item`prev
    ensures prev.next == item && item.prev == prev
  {
    prev.next := item;
    item.prev := prev;
  }

  /** add_item_to_array.  The link behind the item is only cleared if it becomes the only child, so the list is
      right again exactly if it was empty, or the item was not in it and that link was NULL.  Otherwise there is no
      sequence of items at all of which the links are right. */
  method AddItemToArray(parent: Item, item: Item, ghost s: seq<Item>) returns (ok: bool)
    requires Children(parent, s)
    modifies parent`child, item`next, item`prev, s`next, s`prev
    ensures ok <==> item != parent
    ensures !ok ==> Children(parent, s)
    ensures ok ==> (Children(parent, s + [item]) <==> s == [] || (item !in s && old(item.next) == null))
    ensures ok ==> Children(parent, s + [item]) || forall r: seq<Item> :: !Children(parent, r)
    ensures s != [] && item !in s ==> item.next == old(item.next)
  {
    if parent == item {
      return false;
    }
    var child := parent.child;
    if child == null {
      parent.child := item;
      item.prev := item;
      item.next := null;
    } else {
      ghost var next, prev, lone := Nexts(s), Prevs(s), item !in s && item.next == null;
      Snapshot(parent, s);
      assert s[0].prev == PrevOf(s, 0);
      if child.prev != null {
        SuffixObject(child.prev, item);
        parent.child.prev := item;
      }
      if lone {
        ChildrenAppended(parent, s, item, next, prev);
      } else {
        CannotAppend(parent, s, item, next, prev);
      }
    }
    ok := true;
  }

  /** cJSON_DetachItemViaPointer */
  method DetachItemViaPointer(parent: Item, item: Item, ghost s: seq<Item>, ghost k: nat) returns (detached: Item?)
    requires Children(parent, s) && k < |s| && item == s[k]
    modifies parent`child, s`next, s`prev
    ensures detached == item && item.next == null && item.prev == null
    ensures Children(parent, RemoveAt(s, k))
  {
    assert item.next == NextOf(s, k) && item.prev == PrevOf(s, k);
    if item != parent.child && item.prev == null {
      return null;
    }
    ghost var next, prev := Nexts(s), Prevs(s);
    Snapshot(parent, s);
    if item != parent.child {
      item.prev.next := item.next;
    }
    if item.next != null {
      item.next.prev := item.prev;
    }
    if item == parent.child {
      parent.child := item.next;
    } else if item.next == null {
      parent.child.prev := item.prev;
    }
    item.prev := null;
    item.next := null;
    ChildrenWithout(parent, s, k, next, prev);
    return item;
  }

  /** cJSON_DetachItemFromArray */
  method DetachItemFromArray(parent: Item, which: int, ghost s: seq<Item>) returns (detached: Item?)
    requires Children(parent, s)
    modifies parent`child, s`next, s`prev
    ensures if 0 <= which < |s| then detached == s[which] && detached.next == null && detached.prev == null
            else detached == null
    ensures Children(parent, if 0 <= which < |s| then RemoveAt(s, which) else s)
  {
    if which < 0 {
      return null;
    }
    var item := GetArrayItem(parent, which, s);
    if item == null {
      return null;
    }
    detached := DetachItemViaPointer(parent, item, s, which);
  }

  /** cJSON_InsertItemInArray.  In front of a child the new item's own links do not matter, only that it is new;
      behind the last one they do, as in add_item_to_array. */
  method InsertItemInArray(parent: Item, which: int, newitem: Item, ghost s: seq<Item>) returns (ok: bool)
    requires Children(parent, s)
    modifies parent`child, newitem`next, newitem`prev, s`next, s`prev
    ensures ok <==> 0 <= which < |s| || (which >= 0 && newitem != parent)
    ensures !ok ==> Children(parent, s)
    ensures 0 <= which < |s| ==>
      (Children(parent, InsertAt(s, which, newitem)) <==> newitem !in s && newitem != parent)
    ensures ok && which >= |s| ==>
      (Children(parent, s + [newitem]) <==> s == [] || (newitem !in s && old(newitem.next) == null))
    ensures ok ==>
      || Children(parent, InsertAt(s, if which < |s| then which else |s|, newitem))
      || forall r: seq<Item> :: !Children(parent, r)
  {
    if which < 0 {
      return false;
    }
    var afterInserted := GetArrayItem(parent, which, s);
    if afterInserted == null {
      ok := AddItemToArray(parent, newitem, s);
      RemoveUndoesInsert(s, |s|, newitem);
      return;
    }
    assert afterInserted.prev == PrevOf(s, which);
    if afterInserted != parent.child && afterInserted.prev == null {
      return false;
    }
    InsertBefore(parent, afterInserted, newitem, s, which);
    ok := true;
  }

  /** Its last part */
  method InsertBefore(parent: Item, afterInserted: Item, newitem: Item, ghost s: seq<Item>, ghost k: nat)
    requires Children(parent, s) && k < |s| && afterInserted == s[k]
    modifies parent`child, newitem`next, newitem`prev, s`next, s`prev
    ensures newitem !in s && newitem != parent ==> Children(parent, InsertAt(s, k, newitem))
    ensures newitem in s || newitem == parent ==> forall r: seq<Item> :: !Children(parent, r)
  {
    ghost var next, prev := Nexts(s), Prevs(s);
    assert afterInserted.next == NextOf(s, k) && afterInserted.prev == PrevOf(s, k);
    Snapshot(parent, s);
    newitem.next := afterInserted;
    newitem.prev := afterInserted.prev;
    afterInserted.prev := newitem;
    if afterInserted == parent.child {
      parent.child := newitem;
    } else {
      newitem.prev.next := newitem;
    }
    if newitem in s {
      ghost var j: nat :| j < |s| && s[j] == newitem;
      CannotInsert(parent, s, k, j, next, prev);
    } else if newitem == parent {
      CannotInsertParent(parent, s, k, next, prev);
    } else {
      ChildrenWith(parent, s, k, newitem, next, prev);
    }
  }

  /** cJSON_ReplaceItemViaPointer, up to the deletion of the item.  A replacement that is another child, or the
      parent, is not refused either. */
  method ReplaceItemViaPointer(parent: Item, item: Item, replacement: Item, ghost s: seq<Item>, ghost k: nat)
    returns (ok: bool)
    requires Children(parent, s) && k < |s| && item == s[k]
    modifies parent`child, replacement`next, replacement`prev, s`next, s`prev
    ensures ok
    ensures Children(parent, s[k := replacement]) <==>
      replacement == item || (replacement !in s && replacement != parent)
    ensures replacement != item ==> item.next == null && item.prev == null
  {
    if parent.child == null {
      return false;
    }
    if replacement == item {
      assert s[k := replacement] == s;
      return true;
    }
    Substitute(parent, item, replacement, s, k);
    assert s[k := replacement][k] == replacement;
    if replacement in s {
      ghost var j: nat :| j < |s| && s[j] == replacement;
      assert s[k := replacement][j] == replacement;
    }
    ok := true;
  }

  method Substitute(parent: Item, item: Item, replacement: Item, ghost s: seq<Item>, ghost k: nat)
    requires Children(parent, s) && k < |s| && item == s[k] && replacement != item
    modifies parent`child, replacement`next, replacement`prev, s`next, s`prev
    ensures replacement !in s && replacement != parent ==> Children(parent, s[k := replacement])
    ensures item.next == null && item.prev == null
  {
    ghost var next, prev := Nexts(s), Prevs(s);
    assert item.next == NextOf(s, k) && item.prev == PrevOf(s, k);
    Snapshot(parent, s);
    replacement.next := item.next;
    replacement.prev := item.prev;
    if replacement.next != null {
      replacement.next.prev := replacement;
    }
    if parent.child == item {
      if parent.child.prev == parent.child {
        replacement.prev := replacement;
      }
      parent.child := replacement;
    } else {
      if replacement.prev != null {
        replacement.prev.next := replacement;
      }
      if replacement.next == null {
        parent.child.prev := replacement;
      }
    }
    item.next := null;
    item.prev := null;
    if replacement !in s && replacement != parent {
      ChildrenReplaced(parent, s, k, replacement, next, prev);
    }
  }

  // ----------------------------------------------------------- what they amount to

  lemma RemoveUndoesInsert(s: seq<Item>, k: nat, n: Item)
    requires k <= |s|
    ensures RemoveAt(InsertAt(s, k, n), k) == s && InsertAt(s, |s|, n) == s + [n]
  {
  }

  /** cJSON_InsertItemInArray and then cJSON_DetachItemFromArray with the same index, inside the list or at its
      end: the list is as before, and the item is on its own again. */
  method InsertThenDetach(parent: Item, which: nat, newitem: Item, ghost s: seq<Item>)
    requires Children(parent, s) && newitem !in s && newitem != parent && newitem.next == null && which <= |s|
    modifies parent`child, newitem`next, newitem`prev, s`next, s`prev
    ensures Children(parent, s) && newitem.next == null && newitem.prev == null
  {
    RemoveUndoesInsert(s, which, newitem);
    var _ := InsertItemInArray(parent, which, newitem, s);
    var detached := DetachItemFromArray(parent, which, InsertAt(s, which, newitem));
  }

  /** cJSON_DetachItemFromArray and then cJSON_InsertItemInArray of what was detached, at the same index. */
  method DetachThenInsert(parent: Item, which: nat, ghost s: seq<Item>)
    requires Children(parent, s) && which < |s|
    modifies parent`child, s`next, s`prev
    ensures Children(parent, s)
  {
    RemoveKeepsDistinct(s, which);
    ghost var rest := RemoveAt(s, which);
    assert InsertAt(rest, which, s[which]) == s;
    var detached := DetachItemFromArray(parent, which, s);
    if which == |rest| {
      assert rest + [s[which]] == s;
    }
    var _ := InsertItemInArray(parent, which, detached, rest);
  }
}
