/** The children of an array or object in cJSON.c: items linked by next and prev, the first one's prev null. */
module SiblingList {

  class Item {
    var next: Item?
    var prev: Item?
    var child: Item?

    constructor ()
      ensures next == null && prev == null && child == null
    {
      next, prev, child := null, null, null;
    }
  }

  // ----- sequences

  function At(s: seq<Item>, i: int): (r: Item?)
    ensures r != null <==> 0 <= i < |s|
  {
    if 0 <= i < |s| then s[i] else null
  }

  ghost predicate Distinct(s: seq<Item>) {
    forall i, j :: 0 <= i < j < |s| ==> s[i] != s[j]
  }

  function Inserted(s: seq<Item>, k: nat, x: Item): seq<Item>
    requires k <= |s|
  {
    s[..k] + [x] + s[k..]
  }

  function Removed(s: seq<Item>, k: nat): seq<Item>
    requires k < |s|
  {
    s[..k] + s[k + 1..]
  }

  lemma RemovedUndoesInserted(s: seq<Item>, k: nat, x: Item)
    requires k <= |s|
    ensures Removed(Inserted(s, k, x), k) == s
    ensures k < |s| ==> Inserted(Removed(s, k), k, s[k]) == s
  {
  }

  lemma InsertedAt(s: seq<Item>, k: nat, x: Item, i: int)
    requires k <= |s| && 0 <= i <= |s|
    ensures Inserted(s, k, x)[i] == if i < k then s[i] else if i == k then x else s[i - 1]
  {
  }

  lemma InsertedIsDistinct(s: seq<Item>, k: nat, x: Item)
    requires k <= |s| && Distinct(s) && x !in s
    ensures Distinct(Inserted(s, k, x)) && forall y :: y in Inserted(s, k, x) ==> y == x || y in s
  {
    forall i, j | 0 <= i < j <= |s|
      ensures Inserted(s, k, x)[i] != Inserted(s, k, x)[j]
    {
      InsertedAt(s, k, x, i);
      InsertedAt(s, k, x, j);
    }
  }

  lemma RemovedIsDistinct(s: seq<Item>, k: nat)
    requires k < |s| && Distinct(s)
    ensures Distinct(Removed(s, k)) && forall y :: y in Removed(s, k) ==> y in s && y != s[k]
  {
    var t := Removed(s, k);
    forall i, j | 0 <= i < j < |t|
      ensures t[i] != t[j]
    {
      assert t[i] == s[if i < k then i else i + 1] && t[j] == s[if j < k then j else j + 1];
    }
    forall y | y in t
      ensures y in s && y != s[k]
    {
      var i :| 0 <= i < |t| && t[i] == y;
      assert t[i] == s[if i < k then i else i + 1];
    }
  }

  // ----- links

  ghost function Set(s: seq<Item>): set<Item> {
    set x | x in s
  }

  ghost predicate Linked(s: seq<Item>, i: int)
    requires 0 <= i < |s|
    reads s
  {
    s[i].next == At(s, i + 1) && s[i].prev == At(s, i - 1)
  }

  /** The children of parent are s, in this order. */
  ghost predicate Children(parent: Item, s: seq<Item>)
    reads parent, s
  {
    && parent !in s && parent.child == At(s, 0) && Distinct(s)
    && forall i {:trigger Linked(s, i)} :: 0 <= i < |s| ==> Linked(s, i)
  }

  /** The items whose links a call may set: none if it is not given all it needs. */
  ghost function If(given: bool, xs: set<Item>): set<Item> {
    if given then xs else {}
  }

  ghost function Just(x: Item?): set<Item> {
    if x == null then {} else {x}
  }

  /** get_array_item */
  method GetArrayItem(parent: Item?, index: nat, ghost s: seq<Item>) returns (r: Item?)
    requires parent != null ==> Children(parent, s)
    ensures r == if parent == null then null else At(s, index)
  {
    if parent == null {
      return null;
    }
    r := parent.child;
    var left := index;
    while r != null && left > 0
      invariant 0 <= left <= index && r == At(s, index - left)
      decreases left
    {
      assert Linked(s, index - left);
      left := left - 1;
      r := r.next;
    }
  }

  /** An item without links that appending would leave in place. */
  predicate Loose(item: Item, s: seq<Item>)
    reads item
  {
    item.next == null && (s == [] ==> item.prev == null)
  }

  /** add_item_to_array: the list is right exactly if the item brings no links of its own. */
  method AddItemToArray(parent: Item?, item: Item?, ghost s: seq<Item>) returns (ok: bool)
    requires parent != null && item != null ==> Children(parent, s) && item !in s && item != parent
    modifies Just(parent)`child, Just(item)`prev, If(parent != null && item != null, Set(s))`next
    ensures ok <==> parent != null && item != null
    ensures ok ==> (Children(parent, s + [item]) <==> old(Loose(item, s)))
  {
    if item == null || parent == null {
      return false;
    }
    var child := parent.child;
    ghost var t := s + [item];
    ok := true;
    if child == null {
      parent.child := item;
      assert t == [item];
      assert Linked(t, 0) <==> item.next == null && item.prev == null;
    } else {
      ghost var k := 0;
      while child.next != null
        invariant k < |s| && child == s[k]
        decreases |s| - k
      {
        assert Linked(s, k);
        child := child.next;
        k := k + 1;
      }
      assert Linked(s, k);
      child.next := item;
      item.prev := child;
      forall i | 0 <= i < |s|
        ensures Linked(t, i)
      {
        assert old(Linked(s, i)) && t[i] == s[i];
      }
      assert Linked(t, |s|) <==> item.next == null;
    }
  }

  /** cJSON_InsertItemInArray */
  method InsertItemInArray(parent: Item?, which: int, newitem: Item, ghost s: seq<Item>)
    requires parent != null ==> Children(parent, s) && newitem !in s && newitem != parent
    modifies Just(parent)`child, newitem`next, newitem`prev, If(parent != null, Set(s))`next,
             If(parent != null, Set(s))`prev
    ensures parent != null && which < 0 ==> Children(parent, s)
    ensures parent != null && 0 <= which < |s| ==> Children(parent, Inserted(s, which, newitem))
    ensures parent != null && which >= |s| ==> (Children(parent, s + [newitem]) <==> old(Loose(newitem, s)))
  {
    if which < 0 {
      return;
    }
    var after := GetArrayItem(parent, which, s);
    if after == null {
      var _ := AddItemToArray(parent, newitem, s);
    } else {
      InsertBefore(parent, after, newitem, s, which);
    }
  }

  /** The links that cJSON_InsertItemInArray sets. */
  method InsertBefore(parent: Item, after: Item, newitem: Item, ghost s: seq<Item>, ghost k: nat)
    requires Children(parent, s) && newitem !in s && newitem != parent && k < |s| && after == s[k]
    modifies parent`child, newitem`next, newitem`prev, Set(s)`next, Set(s)`prev
    ensures Children(parent, Inserted(s, k, newitem))
  {
    assert Linked(s, k);
    newitem.next := after;
    newitem.prev := after.prev;
    after.prev := newitem;
    if after == parent.child {
      parent.child := newitem;
    } else {
      newitem.prev.next := newitem;
    }
    ghost var t := Inserted(s, k, newitem);
    InsertedIsDistinct(s, k, newitem);
    forall i | 0 <= i < |t|
      ensures Linked(t, i)
    {
      assert i < k ==> old(Linked(s, i));
      assert i > k ==> old(Linked(s, i - 1));
      InsertedAt(s, k, newitem, i);
      if i > 0 {
        InsertedAt(s, k, newitem, i - 1);
      }
      if i < |s| {
        InsertedAt(s, k, newitem, i + 1);
      }
    }
    InsertedAt(s, k, newitem, 0);
  }

  /** cJSON_DetachItemViaPointer */
  method DetachItemViaPointer(parent: Item?, item: Item?, ghost s: seq<Item>, ghost k: nat) returns (r: Item?)
    requires parent != null && item != null ==> Children(parent, s) && k < |s| && item == s[k]
    modifies If(item != null, Just(parent))`child
    modifies If(parent != null && item != null, Set(s))`next, If(parent != null && item != null, Set(s))`prev
    ensures parent == null || item == null ==> r == null
    ensures parent != null && item != null ==>
              r == item && item.next == null && item.prev == null && Children(parent, Removed(s, k))
  {
    if parent == null || item == null {
      return null;
    }
    Unlink(parent, item, s, k);
    return item;
  }

  method Unlink(parent: Item, item: Item, ghost s: seq<Item>, ghost k: nat)
    requires Children(parent, s) && k < |s| && item == s[k]
    modifies parent`child, Set(s)`next, Set(s)`prev
    ensures item.next == null && item.prev == null && Children(parent, Removed(s, k))
  {
    assert Linked(s, k);
    if item.prev != null {
      item.prev.next := item.next;
    }
    if item.next != null {
      item.next.prev := item.prev;
    }
    if item == parent.child {
      parent.child := item.next;
    }
    item.prev := null;
    item.next := null;
    ghost var t := Removed(s, k);
    RemovedIsDistinct(s, k);
    forall i | 0 <= i < |t|
      ensures Linked(t, i)
    {
      assert old(Linked(s, if i < k then i else i + 1));
    }
  }

  /** cJSON_ReplaceItemViaPointer; the item that it then deletes has no links any more. */
  method ReplaceItemViaPointer(parent: Item?, item: Item?, replacement: Item?, ghost s: seq<Item>, ghost k: nat)
    returns (ok: bool)
    requires parent != null && item != null && replacement != null ==>
               Children(parent, s) && k < |s| && item == s[k]
               && (replacement == item || (replacement !in s && replacement != parent))
    modifies Just(parent)`child, Just(replacement)`next, Just(replacement)`prev
    modifies If(parent != null && item != null && replacement != null, Set(s))`next
    modifies If(parent != null && item != null && replacement != null, Set(s))`prev
    ensures ok <==> parent != null && item != null && replacement != null
    ensures ok ==> Children(parent, s[k := replacement])
    ensures ok && replacement != item ==> item.next == null && item.prev == null
  {
    if parent == null || replacement == null || item == null {
      return false;
    }
    ok := true;
    if replacement == item {
      assert s[k := replacement] == s;
      return;
    }
    Exchange(parent, item, replacement, s, k);
  }

  method Exchange(parent: Item, item: Item, replacement: Item, ghost s: seq<Item>, ghost k: nat)
    requires Children(parent, s) && k < |s| && item == s[k] && replacement !in s && replacement != parent
    modifies parent`child, replacement`next, replacement`prev, Set(s)`next, Set(s)`prev
    ensures Children(parent, s[k := replacement]) && item.next == null && item.prev == null
  {
    assert Linked(s, k);
    replacement.next := item.next;
    replacement.prev := item.prev;
    if replacement.next != null {
      replacement.next.prev := replacement;
    }
    if replacement.prev != null {
      replacement.prev.next := replacement;
    }
    if parent.child == item {
      parent.child := replacement;
    }
    item.next := null;
    item.prev := null;
    ghost var t := s[k := replacement];
    forall i | 0 <= i < |t|
      ensures Linked(t, i)
    {
      assert old(Linked(s, i));
    }
  }
}
