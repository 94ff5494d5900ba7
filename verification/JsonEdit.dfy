/** The functions of lib/cJSON.c that change an array or object at an index or under a key. */
module JsonEdit {
  import opened Bytes
  import opened JsonValue
  import opened JsonItem
  import opened Options
  import opened JsonList
  import opened JsonBuild
  import opened JsonEquality
  import opened JsonCompare

  /** The key of an item belongs to the list that it is to be put into. */
  method SetKey(parent: Item, item: Item, name: CString)
    requires parent.Valid() && item.Valid() && item.repr !! parent.repr
    modifies item`key
    ensures parent.Valid() && item.Valid() && item.key == Some(name)
  {
    item.key := Some(name);
  }

  /** A container with one more child at index `k`; only an object has use for the key. */
  function WithNew(v: Value, k: nat, key: CString, x: Value): Value
    requires v.Arr? || v.Obj?
    requires k <= Length(v)
  {
    if v.Arr? then Arr(Inserted(v.items, k, x)) else Obj(Inserted(v.members, k, Member(key, x)))
  }

  /** A container with another child at index `k`. */
  function WithOther(v: Value, k: nat, key: CString, x: Value): Value
    requires v.Arr? || v.Obj?
    requires k < Length(v)
  {
    if v.Arr? then Arr(v.items[k := x]) else Obj(v.members[k := Member(key, x)])
  }

  /** The key of an item, if it has one. */
  function KeyOr(key: Option<CString>): CString {
    if key.Some? then key.value else []
  }

  lemma NewIs(v: Value, k: int, item: Item)
    requires v.Arr? || v.Obj?
    ensures 0 <= k <= Length(v) && (v.Obj? ==> item.key.Some?) ==>
      InsertedValue(v, k, item) == WithNew(v, k, KeyOr(item.key), item.val)
  {
  }

  lemma OtherIs(v: Value, k: nat, item: Item)
    requires v.Arr? || v.Obj?
    requires k < Length(v) && (v.Obj? ==> item.key.Some?)
    ensures InsertedValue(RemovedValue(v, k), k, item) == WithOther(v, k, KeyOr(item.key), item.val)
  {
  }

  /** `add_item_to_object` (lib/cJSON.c:2227-2265) without constant keys: the item gets the key and becomes the last
      child, in an array too. */
  method AddItemToObject(parent: Item, name: CString, item: Item) returns (ok: bool)
    requires parent != item ==> parent.Valid() && Container(parent) && item.Valid() && item.repr !! parent.repr
    modifies parent`child, parent`kids, parent`repr, parent`val, parent.kids`next, parent.kids`prev
    modifies item`key, item`next, item`prev
    ensures ok == (parent != item)
    ensures ok ==> parent.kids == old(parent.kids) + [item] && parent.repr == old(parent.repr) + old(item.repr)
    ensures ok ==> (old(parent.val).Arr? || old(parent.val).Obj?) &&
                   parent.val == WithNew(old(parent.val), Length(old(parent.val)), name, old(item.val))
    ensures ok ==> (Linked(parent.kids) <==> old(parent.kids == [] || item.next == null))
    ensures ok && Linked(parent.kids) ==> parent.Valid()
  {
    if parent == item { return false; }
    hide Item.Valid;
    hide InsertedValue;
    hide WithNew;
    hide Linked;
    SetKey(parent, item, name);
    ContainerShape(parent);
    NewIs(parent.val, Length(parent.val), item);
    ok := AddItemToArray(parent, item);
  }

  /** `cJSON_DetachItemFromArray` (lib/cJSON.c:2467-2475). */
  method DetachItemFromArray(parent: Item, which: int) returns (item: Item?)
    requires parent.Valid() && Container(parent)
    modifies parent`child, parent`kids, parent`repr, parent`val, parent.kids`next, parent.kids`prev
    ensures item != null <==> 0 <= which < |old(parent.kids)|
    ensures item == null ==> Untouched(parent)
    ensures item != null ==> Detached(parent, item, which)
  {
    if which < 0 { return null; }
    item := GetArrayItem(parent, which);
    if item != null {
      DetachItemViaPointer(parent, item, which);
    }
  }

  /** `cJSON_DetachItemFromObject` and its case-sensitive form (lib/cJSON.c:2482-2496). */
  method DetachItemFromObject(parent: Item, name: CString, caseSensitive: bool) returns (item: Item?)
    requires parent.Valid() && parent.kind == ObjectKind
    modifies parent`child, parent`kids, parent`repr, parent`val, parent.kids`next, parent.kids`prev
    ensures old(parent.val).Obj?
    ensures var k := Find(old(parent.val).members, name, caseSensitive, 0);
      if k < |old(parent.kids)| then item != null && Detached(parent, item, k) else item == null && Untouched(parent)
  {
    ghost var k;
    item, k := GetObjectItem(parent, name, caseSensitive);
    if item != null {
      DetachItemViaPointer(parent, item, k);
    }
  }

  /** Replacing a child by a tree outside of the parent. */
  method ReplaceChild(parent: Item, target: Item, item: Item, ghost k: nat)
    requires Insertable(parent, item) && k < |parent.kids| && parent.kids[k] == target
    modifies parent`child, parent`kids, parent`repr, parent`val, parent.kids`next, parent.kids`prev, item`next,
             item`prev
    ensures parent.Valid() && parent.kids == old(parent.kids)[k := item]
    ensures parent.repr == old(parent.repr - parent.kids[k].repr) + item.repr
    ensures (old(parent.val).Arr? || old(parent.val).Obj?) && k < Length(old(parent.val)) &&
            parent.val == WithOther(old(parent.val), k, KeyOr(item.key), item.val)
  {
    KidIsInside(parent, k);
    ContainerShape(parent);
    hide Item.Valid;
    OtherIs(parent.val, k, item);
    var _ := ReplaceItemViaPointer(parent, target, item, k);
  }

  lemma ContainerShape(parent: Item)
    requires parent.Valid() && Container(parent)
    ensures parent.val.Arr? <==> parent.kind == ArrayKind
    ensures parent.val.Obj? <==> parent.kind == ObjectKind
    ensures Length(parent.val) == |parent.kids|
  {
  }

  /** `cJSON_ReplaceItemInArray` (lib/cJSON.c:2597-2607). The old child is deleted. */
  method ReplaceItemInArray(parent: Item, which: int, item: Item) returns (ok: bool)
    requires parent.Valid() && Container(parent) && item.Valid() && item.repr !! parent.repr
    requires 0 <= which < |parent.kids| && parent.kind == ObjectKind ==> item.key.Some?
    modifies parent`child, parent`kids, parent`repr, parent`val, parent.kids`next, parent.kids`prev, item`next,
             item`prev
    ensures ok == (0 <= which < |old(parent.kids)|)
    ensures !ok ==> Untouched(parent) && item.next == old(item.next) && item.prev == old(item.prev)
    ensures ok ==> parent.Valid() && parent.kids == old(parent.kids)[which := item]
    ensures ok ==> (old(parent.val).Arr? || old(parent.val).Obj?) && which < Length(old(parent.val)) &&
                   parent.val == WithOther(old(parent.val), which, KeyOr(item.key), old(item.val))
    ensures ok ==> parent.repr == old(parent.repr - parent.kids[which].repr) + item.repr
  {
    if which < 0 { return false; }
    ContainerShape(parent);
    var target := GetArrayItem(parent, which);
    if target == null { return false; }
    hide Item.Valid;
    ReplaceChild(parent, target, item, which);
    ok := true;
  }

  /** `replace_item_in_object` (lib/cJSON.c:2609-2629): the replacement gets the key in any case. */
  method ReplaceItemInObject(parent: Item, name: CString, item: Item, caseSensitive: bool) returns (ok: bool)
    requires parent.Valid() && parent.kind == ObjectKind && item.Valid() && item.repr !! parent.repr
    modifies parent`child, parent`kids, parent`repr, parent`val, parent.kids`next, parent.kids`prev
    modifies item`key, item`next, item`prev
    ensures old(parent.val).Obj? && item.key == Some(name)
    ensures var k := Find(old(parent.val).members, name, caseSensitive, 0);
      ok == (k < |old(parent.kids)|) &&
      (!ok ==> Untouched(parent) && item.next == old(item.next) && item.prev == old(item.prev)) &&
      (ok ==> parent.Valid() && parent.kids == old(parent.kids)[k := item] && k < |old(parent.val).members| &&
              parent.val == WithOther(old(parent.val), k, name, old(item.val)) &&
              parent.repr == old(parent.repr - parent.kids[k].repr) + item.repr)
  {
    hide Item.Valid;
    SetKey(parent, item, name);
    ObjectShape(parent);
    var target, k := GetObjectItem(parent, name, caseSensitive);
    if target == null { return false; }
    ReplaceChild(parent, target, item, k);
    ok := true;
  }

  lemma KidIsInside(parent: Item, k: nat)
    requires parent.Valid() && k < |parent.kids|
    ensures parent.kids[k].Valid() && parent.kids[k] in parent.kids[k].repr && parent.kids[k].repr <= parent.repr
  {
    Child(parent, k);
  }

  twostate predicate Untouched(parent: Item)
    reads parent, parent.repr
  {
    parent.Valid() && parent.kids == old(parent.kids) && parent.repr == old(parent.repr) &&
      parent.val == old(parent.val)
  }

  /** `item` was the child at index `k`; it is out of the list now, and both trees are whole. */
  twostate predicate Detached(parent: Item, new item: Item, k: int)
    reads parent, parent.repr, item, item.repr
  {
    0 <= k < |old(parent.kids)| && item == old(parent.kids)[k] && parent.kids == Removed(old(parent.kids), k) &&
    (old(parent.val).Arr? || old(parent.val).Obj?) && k < Length(old(parent.val)) &&
    parent.val == RemovedValue(old(parent.val), k) && parent.repr == old(parent.repr) - item.repr &&
    parent.Valid() && item.Valid() && item.next == null && item.prev == null && item.repr !! parent.repr
  }
}
