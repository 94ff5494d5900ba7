/** The functions of lib/cJSON.c that edit an array or object, anywhere inside of a tree: the whole tree stays well
    formed, and stands for its old value with the same edit at the same place. */
module JsonPath {
  import opened Bytes
  import opened JsonValue
  import opened JsonItem
  import opened Options
  import opened JsonList
  import opened JsonBuild
  import opened JsonEquality
  import opened JsonCompare
  import opened JsonEdit

  // ---- edits of values --------------------------------------------------------------------

  /** A call that gives a tree to a container. */
  datatype Gift =
    | AddToArray
    | AddToObject(name: CString)
    | InsertInArray(which: int)
    | ReplaceInArray(which: int)
    | ReplaceInObject(name: CString, caseSensitive: bool)

  /** A call that takes a part out of a container. */
  datatype Grip =
    | DetachFromArray(which: int)
    | DetachFromObject(name: CString, caseSensitive: bool)

  predicate Fits(v: Value, g: Gift) {
    v.Obj? || (v.Arr? && !g.ReplaceInObject?)
  }

  predicate Holds(v: Value, g: Grip) {
    v.Obj? || (g.DetachFromArray? && v.Arr?)
  }

  /** Where the call puts the tree: the index of a new child, or of the one to replace. */
  function Target(v: Value, g: Gift): int
    requires Fits(v, g)
  {
    match g
    case AddToArray => Length(v)
    case AddToObject(_) => Length(v)
    case InsertInArray(which) => if which < Length(v) then which else Length(v)
    case ReplaceInArray(which) => which
    case ReplaceInObject(name, caseSensitive) => Find(v.members, name, caseSensitive, 0)
  }

  predicate Replaces(g: Gift) {
    g.ReplaceInArray? || g.ReplaceInObject?
  }

  /** Whether the container takes the tree. */
  predicate Accepted(v: Value, g: Gift)
    requires Fits(v, g)
  {
    0 <= Target(v, g) && (Replaces(g) ==> Target(v, g) < Length(v))
  }

  /** The key of the tree after the call. */
  function NewKey(g: Gift, key: Option<CString>): Option<CString> {
    if g.AddToObject? || g.ReplaceInObject? then Some(g.name) else key
  }

  /** An object only has use for a tree with a key. */
  predicate Keyed(v: Value, g: Gift, key: Option<CString>)
    requires Fits(v, g)
  {
    v.Obj? && Accepted(v, g) ==> NewKey(g, key).Some?
  }

  /** The container `v` after the call with a tree for the value `x`. */
  function Given(v: Value, g: Gift, key: Option<CString>, x: Value): Value
    requires Fits(v, g)
  {
    if !Accepted(v, g) then v
    else if Replaces(g) then WithOther(v, Target(v, g), KeyOr(NewKey(g, key)), x)
    else WithNew(v, Target(v, g), KeyOr(NewKey(g, key)), x)
  }

  /** The index of the part that the call takes out; negative or too large if there is none. */
  function Place(v: Value, g: Grip): int
    requires Holds(v, g)
  {
    match g
    case DetachFromArray(which) => which
    case DetachFromObject(name, caseSensitive) => Find(v.members, name, caseSensitive, 0)
  }

  predicate Found(v: Value, g: Grip)
    requires Holds(v, g)
  {
    0 <= Place(v, g) < Length(v)
  }

  /** The value of the child at index `k`. */
  function Kid(v: Value, k: nat): Value
    requires v.Arr? || v.Obj?
    requires k < Length(v)
  {
    if v.Arr? then v.items[k] else v.members[k].value
  }

  /** The container without the part that the call takes out. */
  function Without(v: Value, g: Grip): Value
    requires Holds(v, g)
  {
    if Found(v, g) then RemovedValue(v, Place(v, g)) else v
  }

  // ---- places in values -------------------------------------------------------------------

  /** `path` leads from child to child, by index, to a place in `v`. */
  predicate Leads(v: Value, path: seq<nat>)
    decreases |path|
  {
    path == [] || ((v.Arr? || v.Obj?) && path[0] < Length(v) && Leads(Kid(v, path[0]), path[1..]))
  }

  /** The value at that place. */
  function ValueAt(v: Value, path: seq<nat>): Value
    requires Leads(v, path)
    decreases |path|
  {
    if path == [] then v else ValueAt(Kid(v, path[0]), path[1..])
  }

  function WithKid(v: Value, k: nat, w: Value): Value
    requires v.Arr? || v.Obj?
    requires k < Length(v)
  {
    if v.Arr? then Arr(v.items[k := w]) else Obj(v.members[k := v.members[k].(value := w)])
  }

  /** The value with `w` at that place, and everything else as it was. */
  function WithValueAt(v: Value, path: seq<nat>, w: Value): Value
    requires Leads(v, path)
    decreases |path|
  {
    if path == [] then w else WithKid(v, path[0], WithValueAt(Kid(v, path[0]), path[1..], w))
  }

  /** What is at the place afterwards, and what is at every place that does not lead there. */
  lemma {:induction false} ValueAtIs(v: Value, path: seq<nat>, w: Value, other: seq<nat>)
    requires Leads(v, path)
    ensures Leads(WithValueAt(v, path, w), path) && ValueAt(WithValueAt(v, path, w), path) == w
    ensures !(path <= other) && !(other <= path) && Leads(v, other) ==>
      Leads(WithValueAt(v, path, w), other) && ValueAt(WithValueAt(v, path, w), other) == ValueAt(v, other)
    decreases |path|
  {
    if path != [] {
      var k := path[0];
      if other != [] && other[0] == k {
        ValueAtIs(Kid(v, k), path[1..], w, other[1..]);
        assert path[1..] <= other[1..] ==> path <= other;
        assert other[1..] <= path[1..] ==> other <= path;
      } else {
        ValueAtIs(Kid(v, k), path[1..], w, []);
      }
    }
  }

  // ---- keys ----------------------------------------------------------------------------------

  /** What the value of a tree tells about the key of an item: an item of an array may have any, or none. */
  datatype Tag = Known(key: Option<CString>) | Unknown

  function KidTag(v: Value, k: nat): Tag
    requires v.Arr? || v.Obj?
    requires k < Length(v)
  {
    if v.Obj? then Known(Some(v.members[k].key)) else Unknown
  }

  /** The same at a place in `v`, the key of which is `tag`. */
  function TagAt(v: Value, path: seq<nat>, tag: Tag): Tag
    requires Leads(v, path)
    decreases |path|
  {
    if path == [] then tag else TagAt(Kid(v, path[0]), path[1..], KidTag(v, path[0]))
  }

  ghost predicate Wears(t: Item, tag: Tag)
    reads t
  {
    tag.Known? ==> t.key == tag.key
  }

  /** The key of a tree, where it is known. */
  function KnownKey(tag: Tag): Option<CString> {
    if tag.Known? then tag.key else None
  }

  /** A call that can do without a key that is not known does not depend on it. */
  lemma KeyUnused(v: Value, g: Gift, tag: Tag, key: Option<CString>, x: Value)
    requires Fits(v, g) && Keyed(v, g, KnownKey(tag)) && (tag.Known? ==> key == tag.key)
    ensures Keyed(v, g, key) && Given(v, g, key, x) == Given(v, g, KnownKey(tag), x)
  {
  }

  // ---- the edits on trees in memory ----------------------------------------------------------

  /** The links and the key of an item belong to the list that it is in. */
  twostate predicate SameRole(t: Item)
    reads t
  {
    t.next == old(t.next) && t.prev == old(t.prev) && t.key == old(t.key)
  }

  /** An item that is in no list. */
  ghost predicate Loose(t: Item)
    reads t
  {
    t.next == null && t.prev == null
  }

  /** One of the calls that give a tree to a container. */
  method GiveAt(t: Item, g: Gift, item: Item) returns (ok: bool)
    requires t.Valid() && Fits(t.val, g) && item.Valid() && item.repr !! t.repr && Loose(item)
    requires Keyed(t.val, g, item.key)
    modifies t.repr, item
    ensures t.Valid() && SameRole(t) && Fits(old(t.val), g)
    ensures ok == Accepted(old(t.val), g) && t.val == Given(old(t.val), g, old(item.key), old(item.val))
    ensures t.repr <= old(t.repr) + old(item.repr)
    ensures !ok ==> t.repr == old(t.repr) && item.Valid() && item.repr == old(item.repr) && item.val == old(item.val)
    ensures !ok ==> Loose(item) && item.key == NewKey(g, old(item.key))
  {
    hide Item.Valid;
    hide Linked;
    hide Find;
    hide WithNew;
    hide WithOther;
    hide InsertedValue;
    SelfInside(t);
    SelfInside(item);
    ContainerOf(t);
    ContainerShape(t);
    NewIs(t.val, Target(t.val, g), item);
    match g
    case AddToArray => ok := JsonList.AddItemToArray(t, item);
    case AddToObject(name) => ok := AddItemToObject(t, name, item);
    case InsertInArray(which) => ok := JsonList.InsertItemInArray(t, which, item);
    case ReplaceInArray(which) => ok := ReplaceItemInArray(t, which, item);
    case ReplaceInObject(name, caseSensitive) => ok := ReplaceItemInObject(t, name, item, caseSensitive);
  }

  lemma SelfInside(t: Item)
    requires t.Valid()
    ensures t in t.repr && t !in t.kids && forall k | k in t.kids :: k in t.repr && k.repr <= t.repr
  {
    DistinctKids(t);
  }

  /** One of the calls that take a part out of a container. */
  method TakeAt(t: Item, g: Grip) returns (part: Item?)
    requires t.Valid() && Holds(t.val, g)
    modifies t.repr
    ensures t.Valid() && SameRole(t) && Holds(old(t.val), g)
    ensures part != null <==> Found(old(t.val), g)
    ensures t.val == Without(old(t.val), g) && t.repr <= old(t.repr)
    ensures part == null ==> t.repr == old(t.repr)
    ensures part != null ==> part.Valid() && Loose(part) && part.repr <= old(t.repr) && part.repr !! t.repr
    ensures part != null ==> part.val == Kid(old(t.val), Place(old(t.val), g))
    ensures part != null ==> Wears(part, KidTag(old(t.val), Place(old(t.val), g)))
  {
    hide Item.Valid;
    hide Linked;
    hide Find;
    hide Removed;
    SelfInside(t);
    ContainerOf(t);
    ContainerShape(t);
    KidIs(t, Place(t.val, g));
    match g
    case DetachFromArray(which) => part := DetachItemFromArray(t, which);
    case DetachFromObject(name, caseSensitive) => part := DetachItemFromObject(t, name, caseSensitive);
  }

  /** The child at index `k`, in memory and in the value. */
  lemma KidIs(t: Item, k: int)
    requires t.Valid() && (t.val.Arr? || t.val.Obj?)
    ensures Length(t.val) == |t.kids|
    ensures 0 <= k < |t.kids| ==>
      t.kids[k].val == Kid(t.val, k) && Wears(t.kids[k], KidTag(t.val, k)) && t.kids[k].Valid() &&
        t.kids[k].repr <= t.repr - {t} && t.kids[k] in t.kids[k].repr
  {
    if 0 <= k < |t.kids| { Child(t, k); }
  }

  // ---- the trees around a child that has changed ------------------------------------------------

  /** The children of `a` other than `k` are whole trees outside of `was`, and share no nodes. */
  ghost predicate Siblings(a: Item, k: nat, was: set<Item>)
    reads a, a.repr
  {
    (forall i :: 0 <= i < |a.kids| ==> a.kids[i] in a.repr) &&
    (forall i :: 0 <= i < |a.kids| && i != k ==>
       a.kids[i] in a.repr && a.kids[i].repr <= a.repr - {a} - was && a.kids[i].Valid()) &&
    (forall i, j :: 0 <= i < j < |a.kids| && i != k && j != k && a.kids[i] in a.repr && a.kids[j] in a.repr ==>
       a.kids[i].repr !! a.kids[j].repr)
  }

  /** The value of `a` lists the keys of its children, and the values of all of them but `k`. */
  ghost predicate ListsOthers(a: Item, k: nat)
    reads a`kind, a`val, a`kids, a.kids`key, a.kids`val
  {
    if a.kind == ArrayKind then
      a.val.Arr? && |a.val.items| == |a.kids| &&
      forall i :: 0 <= i < |a.kids| && i != k ==> a.val.items[i] == a.kids[i].val
    else
      a.kind == ObjectKind && a.val.Obj? && |a.val.members| == |a.kids| &&
      (forall i :: 0 <= i < |a.kids| ==> a.kids[i].key == Some(a.val.members[i].key)) &&
      forall i :: 0 <= i < |a.kids| && i != k ==> a.val.members[i].value == a.kids[i].val
  }

  /** The tree `a` is whole apart from its child `k`, the nodes of which were `was`. */
  ghost predicate Around(a: Item, k: nat, was: set<Item>)
    reads a, a.repr
  {
    a in a.repr && k < |a.kids| && a.child == a.kids[0] && was <= a.repr - {a} &&
    Siblings(a, k, was) && Linked(a.kids) && ListsOthers(a, k)
  }

  /** A child of an item. */
  datatype Spot = Spot(parent: Item, k: nat)

  /** The other children stay whole. */
  twostate lemma SiblingsKept(s: Spot)
    requires old(s.parent.Valid()) && s.k < |old(s.parent.kids)| && unchanged(s.parent)
    requires forall o | o in s.parent.repr && o !in old(s.parent.kids[s.k].repr) :: unchanged(o)
    ensures Siblings(s.parent, s.k, old(s.parent.kids[s.k].repr))
  {
    var a, k := s.parent, s.k;
    forall i | 0 <= i < |a.kids| && i != k
      ensures a.kids[i] in a.repr && a.kids[i].repr <= a.repr - {a} - old(a.kids[k].repr) && a.kids[i].Valid()
      ensures a.kids[i].repr == old(a.kids[i].repr)
    {
      assert old(a.kids[i].Valid() && a.kids[i].repr !! a.kids[k].repr);
    }
  }

  /** So do their places in the list and in the value. */
  twostate lemma ListKept(s: Spot)
    requires old(s.parent.Valid()) && old(Container(s.parent)) && s.k < |old(s.parent.kids)|
    requires unchanged(s.parent) && SameRole(s.parent.kids[s.k])
    requires forall o | o in s.parent.repr && o !in old(s.parent.kids[s.k].repr) :: unchanged(o)
    ensures Linked(s.parent.kids) && ListsOthers(s.parent, s.k)
  {
    var a, k := s.parent, s.k;
    forall i | 0 <= i < |a.kids| && i != k ensures unchanged(a.kids[i]) {
      assert old(a.kids[i].Valid() && a.kids[i].repr !! a.kids[k].repr);
    }
  }

  /** The tree around a child when nothing but the nodes of that child has changed. */
  twostate lemma StillAround(s: Spot)
    requires old(s.parent.Valid()) && old(Container(s.parent)) && s.k < |old(s.parent.kids)|
    requires unchanged(s.parent) && SameRole(s.parent.kids[s.k])
    requires forall o | o in s.parent.repr && o !in old(s.parent.kids[s.k].repr) :: unchanged(o)
    ensures Around(s.parent, s.k, old(s.parent.kids[s.k].repr))
  {
    hide Linked;
    hide ListsOthers;
    hide Siblings;
    SiblingsKept(s);
    ListKept(s);
    assert old(s.parent.kids[s.k].repr <= s.parent.repr - {s.parent});
  }

  lemma ForestAround(a: Item, k: nat, was: set<Item>)
    requires Around(a, k, was) && a.kids[k].Valid() && a.kids[k].repr !! a.repr - was
    ensures Forest(a.kids, a.repr - was - {a} + a.kids[k].repr)
  {
    hide Linked;
    hide ListsOthers;
    assert a.kids[k] in a.kids[k].repr;
  }

  lemma ListsWithKid(a: Item, k: nat)
    requires ListsOthers(a, k) && k < |a.kids|
    ensures (a.val.Arr? || a.val.Obj?) && k < Length(a.val)
    ensures Lists(a.kind, WithKid(a.val, k, a.kids[k].val), a.kids)
  {
  }

  /** Enters the changed child in the ghost state of its parent. */
  ghost method Refresh(a: Item, k: nat, was: set<Item>)
    requires Around(a, k, was) && a.kids[k].Valid() && a.kids[k].repr !! a.repr - was
    modifies a`val, a`repr
    ensures a.Valid() && a.repr == old(a.repr) - was + a.kids[k].repr
    ensures (old(a.val).Arr? || old(a.val).Obj?) && k < Length(old(a.val))
    ensures a.val == WithKid(old(a.val), k, old(a.kids[k].val))
  {
    hide Forest;
    hide Siblings;
    ForestAround(a, k, was);
    ListsWithKid(a, k);
    hide ListsOthers;
    ghost var below := a.repr - was - {a} + a.kids[k].repr;
    a.val := WithKid(a.val, k, a.kids[k].val);
    a.repr := a.repr - was + a.kids[k].repr;
    assert a.repr - {a} == below;
    ValidAgain(a);
  }

  /** One of the calls that give a tree to a container, at a place inside of a tree. */
  method GiveBelow(t: Item, path: seq<nat>, g: Gift, item: Item) returns (ok: bool)
    requires t.Valid() && Leads(t.val, path) && Fits(ValueAt(t.val, path), g)
    requires item.Valid() && item.repr !! t.repr && Loose(item) && Keyed(ValueAt(t.val, path), g, item.key)
    modifies t.repr, item
    ensures t.Valid() && SameRole(t) && Leads(old(t.val), path) && Fits(ValueAt(old(t.val), path), g)
    ensures ok == Accepted(ValueAt(old(t.val), path), g)
    ensures t.val == WithValueAt(old(t.val), path, Given(ValueAt(old(t.val), path), g, old(item.key), old(item.val)))
    ensures t.repr <= old(t.repr) + old(item.repr)
    ensures !ok ==> t.repr == old(t.repr) && item.Valid() && item.repr == old(item.repr) && item.val == old(item.val)
    ensures !ok ==> Loose(item) && item.key == NewKey(g, old(item.key))
    decreases |path|
  {
    hide Item.Valid;
    hide Around;
    hide Given;
    hide Accepted;
    hide Fits;
    hide Keyed;
    if path == [] {
      ok := GiveAt(t, g, item);
    } else {
      var k := path[0];
      SelfInside(t);
      SelfInside(item);
      ContainerOf(t);
      KidIs(t, k);
      var child := GetArrayItem(t, k);
      ghost var spot, was := Spot(t, k), child.repr;
      label before:
      ok := GiveBelow(child, path[1..], g, item);
      StillAround@before(spot);
      Refresh(t, k, was);
    }
  }

  /** One of the calls that take a part out of a container, at a place inside of a tree. */
  method TakeBelow(t: Item, path: seq<nat>, g: Grip) returns (part: Item?)
    requires t.Valid() && Leads(t.val, path) && Holds(ValueAt(t.val, path), g)
    modifies t.repr
    ensures t.Valid() && SameRole(t) && Leads(old(t.val), path) && Holds(ValueAt(old(t.val), path), g)
    ensures part != null <==> Found(ValueAt(old(t.val), path), g)
    ensures t.val == WithValueAt(old(t.val), path, Without(ValueAt(old(t.val), path), g)) && t.repr <= old(t.repr)
    ensures part == null ==> t.repr == old(t.repr)
    ensures part != null ==> part.Valid() && Loose(part) && part.repr <= old(t.repr) && part.repr !! t.repr
    ensures part != null ==> part.val == Kid(ValueAt(old(t.val), path), Place(ValueAt(old(t.val), path), g))
    ensures part != null ==> Wears(part, KidTag(ValueAt(old(t.val), path), Place(ValueAt(old(t.val), path), g)))
    decreases |path|
  {
    hide Item.Valid;
    hide Around;
    hide Without;
    hide Found;
    hide Place;
    if path == [] {
      part := TakeAt(t, g);
    } else {
      var k := path[0];
      SelfInside(t);
      ContainerOf(t);
      KidIs(t, k);
      var child := GetArrayItem(t, k);
      ghost var spot, was := Spot(t, k), child.repr;
      label before:
      part := TakeBelow(child, path[1..], g);
      StillAround@before(spot);
      Refresh(t, k, was);
    }
  }

  /** Walks to a place inside of a tree. */
  method NodeAt(t: Item, path: seq<nat>, ghost tag: Tag) returns (n: Item)
    requires t.Valid() && Leads(t.val, path) && Wears(t, tag)
    ensures n.Valid() && n.repr <= t.repr && n.val == ValueAt(t.val, path) && Wears(n, TagAt(t.val, path, tag))
  {
    hide Item.Valid;
    hide Wears;
    n := t;
    var j := 0;
    ghost var known := tag;
    while j < |path|
      invariant 0 <= j <= |path| && n.Valid() && n.repr <= t.repr && Wears(n, known)
      invariant Leads(n.val, path[j..]) && ValueAt(n.val, path[j..]) == ValueAt(t.val, path)
      invariant TagAt(n.val, path[j..], known) == TagAt(t.val, path, tag)
    {
      assert path[j..][1..] == path[j + 1..];
      KidIs(n, path[j]);
      known := KidTag(n.val, path[j]);
      n := GetArrayItem(n, path[j]);
      j := j + 1;
    }
  }

  lemma ContainerOf(t: Item)
    requires t.Valid() && (t.val.Arr? || t.val.Obj?)
    ensures Container(t)
  {
  }
}
