/** Operations on the child list of an array or object (lib/cJSON.c:2053-2203, 2429-2607, 2911-3100). */
module JsonList {
  import opened Bytes
  import opened JsonValue
  import opened JsonItem
  import opened Options

  // ---- sequences ------------------------------------------------------

  function Inserted<T>(s: seq<T>, k: nat, x: T): seq<T>
    requires k <= |s|
  {
    s[..k] + [x] + s[k..]
  }

  function Removed<T>(s: seq<T>, k: nat): seq<T>
    requires k < |s|
  {
    s[..k] + s[k + 1..]
  }

  // ---- what relinking leaves alone ------------------------------------

  /** Everything about an item except its links. */
  twostate predicate SameData(o: Item)
    reads o
  {
    o.child == old(o.child) && o.kind == old(o.kind) && o.valuestring == old(o.valuestring) &&
    o.valuedouble == old(o.valuedouble) && o.key == old(o.key) &&
    o.kids == old(o.kids) && o.repr == old(o.repr) && o.val == old(o.val)
  }

  /** A change of an item's links does not disturb the tree below it. */
  twostate lemma ValidKept(o: Item)
    requires old(o.Valid()) && SameData(o)
    requires forall x | x in o.repr && x != o :: unchanged(x)
    ensures o.Valid()
  {
  }

  /** Relinking the children of an item does not disturb the trees below them. */
  twostate lemma ForestKept(parent: Item)
    requires old(Forest(parent.kids, parent.repr - {parent}))
    requires forall k | k in old(parent.kids) :: SameData(k)
    requires forall o | o in old(parent.repr) && o != parent && o !in old(parent.kids) :: unchanged(o)
    ensures Forest(old(parent.kids), old(parent.repr) - {parent})
  {
    ghost var kids := old(parent.kids);
    forall i | 0 <= i < |kids| ensures kids[i].Valid() {
      assert old(kids[i].Valid());
      forall x | x in kids[i].repr && x != kids[i] ensures unchanged(x) {
        forall j | 0 <= j < |kids| ensures kids[j] != x {
          assert old(kids[j].Valid());
        }
        assert x in old(parent.repr) && x !in kids;
      }
      ValidKept(kids[i]);
    }
  }

  // ---- forests --------------------------------------------------------

  ghost predicate Distinct(kids: seq<Item>) {
    forall i, j :: 0 <= i < j < |kids| ==> kids[i] != kids[j]
  }

  /** The children of an item are different items, none of them the item itself. */
  lemma DistinctKids(parent: Item)
    requires parent.Valid()
    ensures Distinct(parent.kids)
    ensures forall k | k in parent.kids :: k in parent.repr && k != parent && k.repr <= parent.repr - {parent}
  {
    forall i, j | 0 <= i < j < |parent.kids| ensures parent.kids[i] != parent.kids[j] {
      assert parent.kids[i].Valid() && parent.kids[j].Valid();
    }
  }

  lemma InsertedAt(kids: seq<Item>, k: nat, item: Item, i: nat)
    requires k <= |kids| && i <= |kids|
    ensures Inserted(kids, k, item)[i] == if i < k then kids[i] else if i == k then item else kids[i - 1]
  {
  }

  lemma InsertedLength(kids: seq<Item>, k: nat, item: Item)
    requires k <= |kids|
    ensures |Inserted(kids, k, item)| == |kids| + 1
  {
  }

  lemma ForestBelow(kids: seq<Item>, below: set<Item>)
    requires Forest(kids, below)
    ensures forall i :: 0 <= i < |kids| ==> kids[i] in below
  {
  }

  lemma ForestInserted(kids: seq<Item>, below: set<Item>, k: nat, item: Item)
    requires Forest(kids, below) && k <= |kids| && item.Valid() && item.repr !! below
    ensures Forest(Inserted(kids, k, item), below + item.repr)
  {
    hide Inserted;
    var after := Inserted(kids, k, item);
    InsertedLength(kids, k, item);
    forall i | 0 <= i < |after|
      ensures after[i] in below + item.repr && after[i].repr <= below + item.repr && after[i].Valid()
    {
      InsertedAt(kids, k, item, i);
    }
    forall i, j | 0 <= i < j < |after| ensures after[i].repr !! after[j].repr {
      InsertedAt(kids, k, item, i);
      InsertedAt(kids, k, item, j);
    }
  }

  lemma ForestRemoved(kids: seq<Item>, below: set<Item>, k: nat)
    requires Forest(kids, below) && k < |kids|
    ensures Forest(Removed(kids, k), below - kids[k].repr)
  {
    var after := Removed(kids, k);
    forall i | 0 <= i < |after|
      ensures after[i] in below - kids[k].repr && after[i].repr <= below - kids[k].repr && after[i].Valid()
    {
      assert after[i] == if i < k then kids[i] else kids[i + 1];
    }
    forall i, j | 0 <= i < j < |after| ensures after[i].repr !! after[j].repr {
      assert after[i] == if i < k then kids[i] else kids[i + 1];
      assert after[j] == if j < k then kids[j] else kids[j + 1];
    }
  }

  // ---- values ---------------------------------------------------------

  /** An item whose children form a list: an array or an object. */
  ghost predicate Container(parent: Item)
    reads parent`kind
  {
    parent.kind == ArrayKind || parent.kind == ObjectKind
  }

  function Length(v: Value): nat
    requires v.Arr? || v.Obj?
  {
    if v.Arr? then |v.items| else |v.members|
  }

  /** The value of a container after a child was inserted at index `k`. */
  ghost function InsertedValue(v: Value, k: nat, item: Item): Value
    requires v.Arr? || v.Obj?
    requires k <= Length(v)
    requires v.Obj? ==> item.key.Some?
    reads item`key, item`val
  {
    if v.Arr? then Arr(Inserted(v.items, k, item.val))
    else Obj(Inserted(v.members, k, Member(item.key.value, item.val)))
  }

  /** The value of a container after the child at index `k` was taken out. */
  function RemovedValue(v: Value, k: nat): Value
    requires v.Arr? || v.Obj?
    requires k < Length(v)
  {
    if v.Arr? then Arr(Removed(v.items, k)) else Obj(Removed(v.members, k))
  }

  /** `val` lists the keys and values of `kids`. */
  ghost predicate Lists(kind: Kind, val: Value, kids: seq<Item>)
    reads kids`key, kids`val
  {
    if kind == ArrayKind then val.Arr? && ItemsMatch(kids, val.items)
    else kind == ObjectKind && val.Obj? && MembersMatch(kids, val.members)
  }

  lemma ListsInserted(kind: Kind, val: Value, kids: seq<Item>, k: nat, item: Item)
    requires Lists(kind, val, kids) && k <= |kids| && (kind == ObjectKind ==> item.key.Some?)
    ensures Length(val) == |kids|
    ensures Lists(kind, InsertedValue(val, k, item), Inserted(kids, k, item))
  {
  }

  lemma ListsRemoved(kind: Kind, val: Value, kids: seq<Item>, k: nat)
    requires Lists(kind, val, kids) && k < |kids|
    ensures Length(val) == |kids|
    ensures Lists(kind, RemovedValue(val, k), Removed(kids, k))
  {
  }

  // ---- operations -----------------------------------------------------

  /** `get_array_item` (lib/cJSON.c:2053-2071). */
  method GetArrayItem(parent: Item, index: nat) returns (item: Item?)
    requires parent.Valid()
    ensures item == if index < |parent.kids| then parent.kids[index] else null
  {
    var current := parent.child;
    var left := index;
    while current != null && left > 0
      invariant 0 <= left <= index && index - left <= |parent.kids|
      invariant current == if index - left < |parent.kids| then parent.kids[index - left] else null
    {
      left := left - 1;
      current := current.next;
    }
    return current;
  }

  /** `suffix_object` (lib/cJSON.c:2140-2144). */
  method SuffixObject(prev: Item, item: Item)
    modifies prev`next, item`prev
    ensures prev.next == item && item.prev == prev
  {
    prev.next := item;
    item.prev := prev;
  }

  /** Whether `item` may become a child of `parent`: a tree of its own, with a key when it goes into an object. */
  ghost predicate Insertable(parent: Item, item: Item)
    reads parent, parent.repr, item, item.repr
  {
    parent.Valid() && Container(parent) && item.Valid() && item.repr !! parent.repr &&
      (parent.kind == ObjectKind ==> item.key.Some?)
  }

  /** `parent` is a container whose children, apart from the links between them, are in order. */
  ghost predicate Sound(parent: Item)
    reads parent, parent.repr
  {
    parent in parent.repr && Container(parent) && Forest(parent.kids, parent.repr - {parent})
    && Lists(parent.kind, parent.val, parent.kids)
  }

  /** Enters a new child in the ghost state of its parent, once the pointers are in place. */
  ghost method Adopt(parent: Item, k: nat, item: Item)
    requires Sound(parent) && k <= |parent.kids|
    requires item.Valid() && item.repr !! parent.repr && (parent.kind == ObjectKind ==> item.key.Some?)
    requires parent.child == Inserted(parent.kids, k, item)[0]
    modifies parent`kids, parent`repr, parent`val
    ensures k <= Length(old(parent.val)) && parent.val == old(InsertedValue(parent.val, k, item))
    ensures parent.kids == old(Inserted(parent.kids, k, item)) && parent.repr == old(parent.repr) + item.repr
    ensures Linked(parent.kids) ==> parent.Valid()
  {
    hide Forest;
    hide ItemsMatch;
    hide MembersMatch;
    hide Linked;
    hide Item.Valid;
    InsertedLength(parent.kids, k, item);
    ForestInserted(parent.kids, parent.repr - {parent}, k, item);
    ListsInserted(parent.kind, parent.val, parent.kids, k, item);
    ForestBelow(Inserted(parent.kids, k, item), parent.repr - {parent} + item.repr);
    parent.val := InsertedValue(parent.val, k, item);
    parent.kids := Inserted(parent.kids, k, item);
    assert parent.repr - {parent} + item.repr == parent.repr + item.repr - {parent};
    parent.repr := parent.repr + item.repr;
    if Linked(parent.kids) { ValidAgain(parent); }
  }

  lemma ValidAgain(parent: Item)
    requires Sound(parent) && Linked(parent.kids)
    requires parent.child == if parent.kids == [] then null else parent.kids[0]
    ensures parent.Valid()
  {
    hide Forest;
  }

  lemma ValidParts(parent: Item)
    requires parent.Valid() && Container(parent)
    ensures Sound(parent) && Linked(parent.kids) && Distinct(parent.kids) && parent in parent.repr
    ensures forall k | k in parent.kids :: k in parent.repr && k != parent
    ensures parent.child == if parent.kids == [] then null else parent.kids[0]
  {
    DistinctKids(parent);
    hide Forest;
  }

  /** The pointer changes of `add_item_to_array` (lib/cJSON.c:2180-2200). The append branch leaves the item's own
      `next` alone, so the list stays well linked exactly when that was NULL already. */
  method LinkLast(parent: Item, item: Item, ghost kids: seq<Item>)
    requires parent.child == (if kids == [] then null else kids[0])
    requires Linked(kids) && Distinct(kids) && item !in kids
    modifies parent`child, kids`next, kids`prev, item`next, item`prev
    ensures parent.child == (kids + [item])[0]
    ensures Linked(kids + [item]) <==> old(kids == [] || item.next == null)
  {
    var child := parent.child;
    if child == null {
      parent.child := item;
      item.prev := item;
      item.next := null;
    } else if child.prev != null {
      SuffixObject(child.prev, item);
      parent.child.prev := item;
    }
    ghost var after := kids + [item];
    assert after[|kids|] == item;
  }

  /** Changing the links of the children, of the new item and of the list head keeps everything else in order. */
  twostate lemma SoundKept(parent: Item)
    requires old(parent.Valid()) && Container(parent)
    requires parent.kids == old(parent.kids) && parent.repr == old(parent.repr)
    requires parent.val == old(parent.val) && parent.kind == old(parent.kind)
    requires forall k | k in parent.kids :: SameData(k)
    requires forall o | o in parent.repr && o != parent && o !in parent.kids :: unchanged(o)
    ensures Sound(parent)
  {
    hide Forest;
    ForestKept(parent);
  }

  /** `add_item_to_array` (lib/cJSON.c:2171-2203): the item becomes the last child. */
  method AddItemToArray(parent: Item, item: Item) returns (ok: bool)
    requires parent != item ==> Insertable(parent, item)
    modifies parent`child, parent`kids, parent`repr, parent`val, parent.kids`next, parent.kids`prev, item`next,
             item`prev
    ensures ok == (parent != item)
    ensures ok ==> parent.kids == old(parent.kids) + [item] && parent.repr == old(parent.repr) + old(item.repr)
    ensures ok ==>
            |old(parent.kids)| <= Length(old(parent.val)) &&
              parent.val == old(InsertedValue(parent.val, |parent.kids|, item))
    ensures ok ==> (Linked(parent.kids) <==> old(parent.kids == [] || item.next == null))
    ensures ok && old(parent.kids == [] || item.next == null) ==> parent.Valid()
  {
    if parent == item { return false; }
    hide Item.Valid;
    hide Sound;
    hide Linked;
    hide Distinct;
    ghost var kids := parent.kids;
    NewChild(parent, item);
    hide Insertable;
    ValidParts(parent);
    LinkLast(parent, item, kids);
    SoundKept(parent);
    ValidKept(item);
    assert Inserted(kids, |kids|, item) == kids + [item];
    Adopt(parent, |kids|, item);
    return true;
  }

  /** Takes a child out of the ghost state of its parent. */
  ghost method Orphan(parent: Item, k: nat)
    requires Sound(parent) && k < |parent.kids|
    modifies parent`kids, parent`repr, parent`val
    ensures k < Length(old(parent.val)) && parent.val == old(RemovedValue(parent.val, k))
    ensures parent.kids == old(Removed(parent.kids, k)) && parent.repr == old(parent.repr - parent.kids[k].repr)
    ensures Sound(parent)
  {
    hide Forest;
    hide ItemsMatch;
    hide MembersMatch;
    ForestRemoved(parent.kids, parent.repr - {parent}, k);
    ListsRemoved(parent.kind, parent.val, parent.kids, k);
    ghost var item := parent.kids[k];
    DistinctRoots(parent, k);
    parent.val := RemovedValue(parent.val, k);
    parent.kids := Removed(parent.kids, k);
    assert parent.repr - {parent} - item.repr == parent.repr - item.repr - {parent};
    parent.repr := parent.repr - item.repr;
  }

  lemma DistinctRoots(parent: Item, k: nat)
    requires Sound(parent) && k < |parent.kids|
    ensures parent !in parent.kids[k].repr
  {
    assert parent.kids[k].repr <= parent.repr - {parent};
  }

  /** The pointer changes of `cJSON_DetachItemViaPointer` (lib/cJSON.c:2437-2462). */
  method LinkPast(parent: Item, item: Item, ghost kids: seq<Item>, ghost k: nat)
    requires k < |kids| && kids[k] == item && parent.child == kids[0]
    requires Linked(kids) && Distinct(kids)
    modifies parent`child, kids`next, kids`prev
    ensures item.next == null && item.prev == null
    ensures var after := Removed(kids, k);
            Linked(after) && parent.child == if after == [] then null else after[0]
  {
    if item != parent.child {
      item.prev.next := item.next;
    }
    if item.next != null {
      item.next.prev := item.prev;
    }
    if item == parent.child {
      parent.child := item.next;
    } else if item.next == null {
      parent.child.prev := item.prev;
    }
    item.prev := null;
    item.next := null;
    ghost var after := Removed(kids, k);
    forall i | 0 <= i < |after| ensures after[i] == if i < k then kids[i] else kids[i + 1] {}
  }

  /** `cJSON_DetachItemViaPointer` (lib/cJSON.c:2429-2465) on a child of `parent`. */
  method DetachItemViaPointer(parent: Item, item: Item, ghost k: nat)
    requires parent.Valid() && Container(parent) && k < |parent.kids| && parent.kids[k] == item
    modifies parent`child, parent`kids, parent`repr, parent`val, parent.kids`next, parent.kids`prev
    ensures parent.Valid() && parent.kids == old(Removed(parent.kids, k)) && parent.repr == old(parent.repr) - item.repr
    ensures k < Length(old(parent.val)) && parent.val == old(RemovedValue(parent.val, k))
    ensures item.Valid() && item.next == null && item.prev == null && item.repr !! parent.repr
  {
    hide Item.Valid;
    hide Sound;
    hide Linked;
    hide Distinct;
    ghost var kids := parent.kids;
    ValidParts(parent);
    LinkPast(parent, item, kids, k);
    SoundKept(parent);
    ChildValid(parent, k);
    Orphan(parent, k);
    ValidAgain(parent);
  }

  lemma ChildValid(parent: Item, k: nat)
    requires Sound(parent) && k < |parent.kids|
    ensures parent in parent.repr && parent.kids[k].Valid()
    ensures parent !in parent.kids[k].repr && parent.kids[k].repr <= parent.repr
  {
    assert parent.kids[k].repr <= parent.repr - {parent};
  }

  lemma ReplacedIs<T>(s: seq<T>, k: nat, x: T)
    requires k < |s|
    ensures Inserted(Removed(s, k), k, x) == s[k := x]
  {
  }

  lemma NewChild(parent: Item, item: Item)
    requires Insertable(parent, item)
    ensures item.Valid() && Container(parent) && (parent.kind == ObjectKind ==> item.key.Some?)
    ensures item in item.repr && item.repr !! parent.repr && item != parent && item !in parent.repr &&
            item !in parent.kids
  {
    DistinctKids(parent);
  }

  /** The pointer changes of `cJSON_InsertItemInArray` (lib/cJSON.c:2527-2538). */
  method LinkBefore(parent: Item, after: Item, item: Item, ghost kids: seq<Item>, ghost k: nat)
    requires k < |kids| && kids[k] == after && parent.child == kids[0]
    requires Linked(kids) && Distinct(kids) && item !in kids
    modifies parent`child, kids`next, kids`prev, item`next, item`prev
    ensures Linked(Inserted(kids, k, item)) && parent.child == Inserted(kids, k, item)[0]
  {
    item.next := after;
    item.prev := after.prev;
    after.prev := item;
    if after == parent.child {
      parent.child := item;
    } else {
      item.prev.next := item;
    }
    InsertedLinks(kids, k, item);
  }

  /** The links around an item that has been put in front of child `k`. */
  lemma InsertedLinks(kids: seq<Item>, k: nat, item: Item)
    requires k < |kids| && item.next == kids[k] && item.prev == kids[if k == 0 then |kids| - 1 else k - 1]
    requires forall i {:trigger kids[i].next} :: 0 <= i < |kids| - 1 && i != k - 1 ==> kids[i].next == kids[i + 1]
    requires k > 0 ==> kids[k - 1].next == item && kids[0].prev == kids[|kids| - 1]
    requires kids[|kids| - 1].next == null && kids[k].prev == item
    requires forall i {:trigger kids[i].prev} :: 0 < i < |kids| && i != k ==> kids[i].prev == kids[i - 1]
    ensures Linked(Inserted(kids, k, item))
  {
    hide Inserted;
    var s := Inserted(kids, k, item);
    assert |s| == |kids| + 1 by { InsertedLength(kids, k, item); }
    InsertedAt(kids, k, item, 0);
    InsertedAt(kids, k, item, |kids|);
    forall i {:trigger s[i].next} | 0 <= i < |s| - 1 ensures s[i].next == s[i + 1] {
      InsertedAt(kids, k, item, i);
      InsertedAt(kids, k, item, i + 1);
    }
    forall i {:trigger s[i].prev} | 0 < i < |s| ensures s[i].prev == s[i - 1] {
      InsertedAt(kids, k, item, i);
      InsertedAt(kids, k, item, i - 1);
    }
  }

  /** `cJSON_InsertItemInArray` (lib/cJSON.c:2510-2541): in front of the child at `which`, or at the end. */
  method InsertItemInArray(parent: Item, which: int, item: Item) returns (ok: bool)
    requires parent.Valid() && Container(parent) && item.Valid() && item.repr !! parent.repr
    requires which >= 0 && parent.kind == ObjectKind ==> item.key.Some?
    modifies parent`child, parent`kids, parent`repr, parent`val, parent.kids`next, parent.kids`prev, item`next,
             item`prev
    ensures ok == (which >= 0)
    ensures !ok ==> parent.Valid() && parent.kids == old(parent.kids) && parent.val == old(parent.val)
    ensures !ok ==> parent.repr == old(parent.repr) && item.next == old(item.next) && item.prev == old(item.prev)
    ensures ok ==> var k := if which < |old(parent.kids)| then which else |old(parent.kids)|;
      parent.kids == old(Inserted(parent.kids, k, item)) && parent.repr == old(parent.repr) + old(item.repr) &&
      k <= Length(old(parent.val)) && parent.val == old(InsertedValue(parent.val, k, item))
    ensures ok ==>
            (Linked(parent.kids) <==> which < |old(parent.kids)| || old(parent.kids) == [] || old(item.next) == null)
    ensures ok && Linked(parent.kids) ==> parent.Valid()
  {
    if which < 0 { return false; }
    var after := GetArrayItem(parent, which);
    ghost var kids := parent.kids;
    if after == null {
      assert Inserted(kids, |kids|, item) == kids + [item];
      ok := AddItemToArray(parent, item);
    } else {
      InsertBefore(parent, which, after, item);
      ok := true;
    }
  }

  method InsertBefore(parent: Item, ghost k: nat, after: Item, item: Item)
    requires Insertable(parent, item) && k < |parent.kids| && parent.kids[k] == after
    modifies parent`child, parent`kids, parent`repr, parent`val, parent.kids`next, parent.kids`prev, item`next,
             item`prev
    ensures parent.Valid() && parent.kids == old(Inserted(parent.kids, k, item)) &&
            parent.repr == old(parent.repr) + old(item.repr)
    ensures k <= Length(old(parent.val)) && parent.val == old(InsertedValue(parent.val, k, item))
  {
    hide Item.Valid;
    hide Sound;
    hide Linked;
    hide Distinct;
    ghost var kids := parent.kids;
    NewChild(parent, item);
    hide Insertable;
    ValidParts(parent);
    LinkBefore(parent, after, item, kids, k);
    SoundKept(parent);
    ValidKept(item);
    Adopt(parent, k, item);
  }

  /** The pointer changes of `cJSON_ReplaceItemViaPointer` (lib/cJSON.c:2556-2591). */
  method LinkInstead(parent: Item, item: Item, replacement: Item, ghost kids: seq<Item>, ghost k: nat)
    requires k < |kids| && kids[k] == item && parent.child == kids[0]
    requires Linked(kids) && Distinct(kids) && replacement !in kids
    modifies parent`child, kids`next, kids`prev, replacement`next, replacement`prev
    ensures Linked(kids[k := replacement]) && parent.child == kids[k := replacement][0]
    ensures item.next == null && item.prev == null
  {
    replacement.next := item.next;
    replacement.prev := item.prev;
    if replacement.next != null {
      replacement.next.prev := replacement;
    }
    if parent.child == item {
      if parent.child.prev == parent.child {
        replacement.prev := replacement;
      }
      parent.child := replacement;
    } else {
      if replacement.prev != null {
        replacement.prev.next := replacement;
      }
      if replacement.next == null {
        parent.child.prev := replacement;
      }
    }
    item.next := null;
    item.prev := null;
    ReplacedLinks(kids, k, replacement);
  }

  /** The links around an item that has taken the place of child `k`. */
  lemma ReplacedLinks(kids: seq<Item>, k: nat, item: Item)
    requires k < |kids|
    requires item.next == if k + 1 < |kids| then kids[k + 1] else null
    requires item.prev == if k > 0 then kids[k - 1] else if |kids| == 1 then item else kids[|kids| - 1]
    requires k > 0 ==> kids[k - 1].next == item && kids[0].prev == if k + 1 < |kids| then kids[|kids| - 1] else item
    requires k + 1 < |kids| ==> kids[k + 1].prev == item && kids[|kids| - 1].next == null
    requires forall i {:trigger kids[i].next} :: 0 <= i < |kids| - 1 && i != k - 1 && i != k ==>
             kids[i].next == kids[i + 1]
    requires forall i {:trigger kids[i].prev} :: 0 < i < |kids| && i != k && i != k + 1 ==> kids[i].prev == kids[i - 1]
    ensures Linked(kids[k := item])
  {
  }

  /** Swaps a child in the ghost state of its parent, once the pointers are in place. */
  ghost method Exchange(parent: Item, k: nat, replacement: Item)
    requires Sound(parent) && k < |parent.kids| && parent.child == parent.kids[k := replacement][0]
    requires replacement.Valid() && replacement.repr !! parent.repr &&
             (parent.kind == ObjectKind ==> replacement.key.Some?)
    modifies parent`kids, parent`repr, parent`val
    ensures parent.kids == old(parent.kids[k := replacement])
    ensures k < Length(old(parent.val)) && parent.val == InsertedValue(RemovedValue(old(parent.val), k), k, replacement)
    ensures parent.repr == old(parent.repr - parent.kids[k].repr) + replacement.repr
    ensures Linked(parent.kids) ==> parent.Valid()
    ensures old(parent.kids[k]).Valid() && old(parent.kids[k]).repr !! parent.repr
  {
    hide Item.Valid;
    hide Sound;
    hide Linked;
    ghost var kids := parent.kids;
    ChildValid(parent, k);
    ReplacedIs(kids, k, replacement);
    hide Inserted;
    hide Removed;
    Orphan(parent, k);
    Adopt(parent, k, replacement);
  }

  /** `cJSON_ReplaceItemViaPointer` (lib/cJSON.c:2543-2595); the replaced item is left detached and whole, ready
      to be deleted. */
  method ReplaceItemViaPointer(parent: Item, item: Item, replacement: Item, ghost k: nat) returns (ok: bool)
    requires parent.Valid() && Container(parent) && k < |parent.kids| && parent.kids[k] == item
    requires replacement != item ==> Insertable(parent, replacement)
    modifies parent`child, parent`kids, parent`repr, parent`val, parent.kids`next, parent.kids`prev
    modifies replacement`next, replacement`prev
    ensures ok && parent.Valid() && parent.kids == old(parent.kids)[k := replacement]
    ensures replacement == item ==> parent.val == old(parent.val)
    ensures replacement != item ==>
      k < Length(old(parent.val)) && parent.val == InsertedValue(RemovedValue(old(parent.val), k), k, replacement) &&
      parent.repr == old(parent.repr) - item.repr + replacement.repr &&
      item.Valid() && item.next == null && item.prev == null && item.repr !! parent.repr
  {
    if replacement == item {
      return true;
    }
    ReplaceOther(parent, item, replacement, k);
    return true;
  }

  method ReplaceOther(parent: Item, item: Item, replacement: Item, ghost k: nat)
    requires k < |parent.kids| && parent.kids[k] == item && Insertable(parent, replacement)
    modifies parent`child, parent`kids, parent`repr, parent`val, parent.kids`next, parent.kids`prev
    modifies replacement`next, replacement`prev
    ensures parent.Valid() && parent.kids == old(parent.kids)[k := replacement]
    ensures k < Length(old(parent.val)) && parent.val == InsertedValue(RemovedValue(old(parent.val), k), k, replacement)
    ensures parent.repr == old(parent.repr) - item.repr + replacement.repr
    ensures item.Valid() && item.next == null && item.prev == null && item.repr !! parent.repr
  {
    hide Item.Valid;
    hide Sound;
    hide Linked;
    hide Distinct;
    hide Inserted;
    hide Removed;
    NewChild(parent, replacement);
    hide Insertable;
    ValidParts(parent);
    LinkInstead(parent, item, replacement, parent.kids, k);
    SoundKept(parent);
    ValidKept(replacement);
    Exchange(parent, k, replacement);
  }
}
