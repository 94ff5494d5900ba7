/** Child lists built element by element: by the parser, by the array constructors and by `cJSON_Duplicate`. */
module JsonBuild {
  import opened Bytes
  import opened JsonValue
  import opened JsonItem
  import opened Options
  import opened JsonList

  /** The links of a list under construction: the `prev` of its head is not set yet. */
  ghost predicate Chain(kids: seq<Item>)
    reads kids`next, kids`prev
  {
    (forall i {:trigger kids[i].next} :: 0 <= i < |kids| - 1 ==> kids[i].next == kids[i + 1]) &&
    (forall i {:trigger kids[i].prev} :: 0 < i < |kids| ==> kids[i].prev == kids[i - 1]) &&
    (kids != [] ==> kids[|kids| - 1].next == null)
  }

  /** `owner` collects a list under construction in its ghost state. */
  ghost predicate Growing(owner: Item)
    reads owner`kids, owner`repr, owner.repr - {owner}
  {
    owner in owner.repr && Forest(owner.kids, owner.repr - {owner}) && Chain(owner.kids)
  }

  /** Attaches a new item to the end of the list (lib/cJSON.c:1631-1643, 1813-1825). */
  method LinkNew(owner: Item, head: Item?, last: Item?, item: Item) returns (newHead: Item)
    requires Growing(owner) && item !in owner.repr && item.next == null
    requires if owner.kids == [] then head == null
             else head == owner.kids[0] && last == owner.kids[|owner.kids| - 1]
    modifies owner.kids`next, item`prev
    ensures Forest(owner.kids, owner.repr - {owner}) && Chain(owner.kids + [item])
    ensures newHead == (owner.kids + [item])[0]
  {
    hide Forest;
    GrowingDistinct(owner);
    if head == null {
      newHead := item;
    } else {
      newHead := head;
      SuffixObject(last, item);
    }
    ForestKept(owner);
    ghost var after := owner.kids + [item];
    assert after[|owner.kids|] == item;
  }

  lemma GrowingDistinct(owner: Item)
    requires Growing(owner)
    ensures Distinct(owner.kids) && owner !in owner.kids
    ensures forall i :: 0 <= i < |owner.kids| ==> owner.kids[i] in owner.repr
  {
    var kids := owner.kids;
    forall i, j | 0 <= i < j < |kids| ensures kids[i] != kids[j] {
      assert kids[i].Valid() && kids[j].Valid();
    }
  }

  /** Enters a finished item in the ghost state of the owner. */
  ghost method Enter(owner: Item, item: Item)
    requires owner in owner.repr && Forest(owner.kids, owner.repr - {owner}) && Chain(owner.kids + [item])
    requires item.Valid() && item.repr !! owner.repr
    modifies owner`kids, owner`repr
    ensures owner.kids == old(owner.kids) + [item] && owner.repr == old(owner.repr) + item.repr
    ensures Growing(owner)
  {
    hide Forest;
    hide Chain;
    hide Item.Valid;
    ForestInserted(owner.kids, owner.repr - {owner}, |owner.kids|, item);
    assert Inserted(owner.kids, |owner.kids|, item) == owner.kids + [item];
    owner.kids := owner.kids + [item];
    assert owner.repr - {owner} + item.repr == owner.repr + item.repr - {owner};
    owner.repr := owner.repr + item.repr;
  }

  /** Attaches an item that is already complete. */
  method Attach(owner: Item, head: Item?, last: Item?, item: Item) returns (newHead: Item)
    requires Growing(owner) && item.Valid() && item.repr !! owner.repr && item.next == null
    requires if owner.kids == [] then head == null
             else head == owner.kids[0] && last == owner.kids[|owner.kids| - 1]
    modifies owner`kids, owner`repr, owner.kids`next, item`prev
    ensures owner.kids == old(owner.kids) + [item] && owner.repr == old(owner.repr) + old(item.repr)
    ensures Growing(owner) && newHead == owner.kids[0]
    ensures item.next == null
  {
    hide Growing;
    hide Forest;
    hide Chain;
    SelfIn(owner, item);
    hide Item.Valid;
    newHead := LinkNew(owner, head, last, item);
    ValidKept(item);
    Enter(owner, item);
  }

  lemma SelfIn(owner: Item, item: Item)
    requires Growing(owner) && item.Valid() && item.repr !! owner.repr
    ensures item in item.repr && item !in owner.repr && item !in owner.kids && owner in owner.repr
    ensures forall i :: 0 <= i < |owner.kids| ==> owner.kids[i] in owner.repr
  {
    GrowingDistinct(owner);
  }

  /** Sets the `prev` of the head (lib/cJSON.c:1668-1671, 2947-2950, 3085-3088), which completes the list. */
  method CloseList(owner: Item, head: Item?, last: Item?)
    requires Growing(owner)
    requires if owner.kids == [] then head == null
             else head == owner.kids[0] && last == owner.kids[|owner.kids| - 1]
    modifies owner.kids`prev
    ensures Forest(owner.kids, owner.repr - {owner}) && Linked(owner.kids)
  {
    hide Forest;
    GrowingDistinct(owner);
    if head != null {
      head.prev := last;
    }
    ForestKept(owner);
  }

  // ---- constructors ---------------------------------------------------

  /** `cJSON_CreateNumber` (the item it returns carries the number). */
  method CreateNumber(n: real) returns (item: Item)
    ensures fresh(item) && item.Valid() && item.val == Number(n) && item.repr == {item} && item.next == null
  {
    item := new Item();
    item.kind := NumberKind;
    item.valuedouble := n;
    item.val := Number(n);
  }

  function Numbers(numbers: seq<real>): seq<Value> {
    seq(|numbers|, i requires 0 <= i < |numbers| => Number(numbers[i]))
  }

  lemma MatchAppended(kids: seq<Item>, values: seq<Value>, item: Item)
    requires ItemsMatch(kids, values)
    ensures ItemsMatch(kids + [item], values + [item.val])
  {
  }

  lemma ArrayValid(a: Item)
    requires a in a.repr && a.kind == ArrayKind && Forest(a.kids, a.repr - {a}) && Linked(a.kids)
    requires a.child == (if a.kids == [] then null else a.kids[0])
    requires a.val.Arr? && ItemsMatch(a.kids, a.val.items)
    ensures a.Valid()
  {
    hide Forest;
    hide Linked;
  }

  lemma MembersAppended(kids: seq<Item>, members: seq<Member>, item: Item)
    requires MembersMatch(kids, members) && item.key.Some?
    ensures MembersMatch(kids + [item], members + [Member(item.key.value, item.val)])
  {
  }

  lemma ObjectValid(a: Item)
    requires a in a.repr && a.kind == ObjectKind && Forest(a.kids, a.repr - {a}) && Linked(a.kids)
    requires a.child == (if a.kids == [] then null else a.kids[0])
    requires a.val.Obj? && MembersMatch(a.kids, a.val.members)
    ensures a.Valid()
  {
    hide Forest;
    hide Linked;
  }

  lemma NothingYet(owner: Item)
    requires owner.kids == [] && owner.repr == {owner}
    ensures Growing(owner)
  {
  }

  /** Completes an array from its finished items (lib/cJSON.c:1668-1674). */
  method FinishArray(owner: Item, head: Item?, last: Item?, ghost values: seq<Value>)
    requires Growing(owner) && ItemsMatch(owner.kids, values)
    requires if owner.kids == [] then head == null
             else head == owner.kids[0] && last == owner.kids[|owner.kids| - 1]
    modifies owner`child, owner`kind, owner`val, owner.kids`prev
    ensures owner.Valid() && owner.val == Arr(values)
  {
    hide Forest;
    hide Linked;
    hide Chain;
    hide ItemsMatch;
    hide Item.Valid;
    GrowingDistinct(owner);
    CloseList(owner, head, last);
    owner.kind, owner.child, owner.val := ArrayKind, head, Arr(values);
    ArrayValid(owner);
  }

  /** Completes an object from its finished members (lib/cJSON.c:1871-1877). */
  method FinishObject(owner: Item, head: Item?, last: Item?, ghost members: seq<Member>)
    requires Growing(owner) && MembersMatch(owner.kids, members)
    requires if owner.kids == [] then head == null
             else head == owner.kids[0] && last == owner.kids[|owner.kids| - 1]
    modifies owner`child, owner`kind, owner`val, owner.kids`prev
    ensures owner.Valid() && owner.val == Obj(members)
  {
    hide Forest;
    hide Linked;
    hide Chain;
    hide MembersMatch;
    hide Item.Valid;
    GrowingDistinct(owner);
    CloseList(owner, head, last);
    owner.kind, owner.child, owner.val := ObjectKind, head, Obj(members);
    ObjectValid(owner);
  }

  lemma NumbersAppended(numbers: seq<real>, i: nat)
    requires i < |numbers|
    ensures Numbers(numbers[..i + 1]) == Numbers(numbers[..i]) + [Number(numbers[i])]
  {
  }

  /** `cJSON_CreateDoubleArray` (lib/cJSON.c:2911-2953). */
  method CreateDoubleArray(numbers: seq<real>) returns (a: Item)
    ensures fresh(a.repr) && a.Valid() && a.val == Arr(Numbers(numbers))
    ensures a.next == null && a.prev == null && a.key == None
  {
    hide Growing;
    hide Forest;
    hide Chain;
    hide Linked;
    hide Item.Valid;
    hide Numbers;
    hide ItemsMatch;
    a := new Item();
    a.kind := ArrayKind;
    NothingYet(a);
    assert numbers[..0] == [];
    EmptyMatch();
    var p: Item? := null;
    for i := 0 to |numbers|
      invariant a in a.repr && fresh(a.repr) && Growing(a) && a.kind == ArrayKind && |a.kids| == i
      invariant a.child == (if a.kids == [] then null else a.kids[0])
      invariant i > 0 ==> p == a.kids[i - 1]
      invariant a.next == null && a.prev == null && a.key == None
      invariant ItemsMatch(a.kids, Numbers(numbers[..i]))
    {
      GrowingDistinct(a);
      NumbersAppended(numbers, i);
      p := AttachNumber(a, p, numbers[i], Numbers(numbers[..i]));
    }
    GrowingDistinct(a);
    CloseList(a, a.child, p);
    assert numbers[..|numbers|] == numbers;
    a.val := Arr(Numbers(numbers));
    ArrayValid(a);
  }

  /** One turn of the loop (lib/cJSON.c:2925-2944). */
  method AttachNumber(a: Item, p: Item?, n: real, ghost before: seq<Value>) returns (item: Item)
    requires a in a.repr && Growing(a) && ItemsMatch(a.kids, before)
    requires a.child == (if a.kids == [] then null else a.kids[0])
    requires a.kids != [] ==> p == a.kids[|a.kids| - 1]
    modifies a`child, a`kids, a`repr, a.kids`next
    ensures a in a.repr && fresh(a.repr - old(a.repr)) && Growing(a) && a.kids == old(a.kids) + [item]
    ensures a.child == a.kids[0] && ItemsMatch(a.kids, before + [Number(n)])
  {
    hide Growing;
    hide Forest;
    hide Chain;
    hide Linked;
    hide Item.Valid;
    hide ItemsMatch;
    item := CreateNumber(n);
    GrowingDistinct(a);
    MatchAppended(a.kids, before, item);
    a.child := Attach(a, a.child, p, item);
  }

  /** An item that is still in another list, in front of a sibling, is appended without ending the list. */
  method AppendFromAnother(parent: Item, other: Item)
    requires parent.Valid() && parent.kind == ArrayKind && parent.kids != []
    requires other.Valid() && other.repr !! parent.repr && |other.kids| >= 2
    modifies parent`child, parent`kids, parent`repr, parent`val, parent.kids`next, parent.kids`prev
    modifies other.kids`next, other.kids`prev
    ensures parent.kids == old(parent.kids) + [old(other.kids[0])] && !Linked(parent.kids)
    ensures parent.repr == old(parent.repr) + old(other.kids[0].repr)
  {
    var item := other.child;
    DistinctKids(other);
    assert item == other.kids[0] && item.next == other.kids[1];
    assert item.Valid() && item.repr <= other.repr;
    var ok := AddItemToArray(parent, item);
    assert ok;
  }

  /** Such a call: the first of two numbers, appended to another list of one. */
  method AppendingCanFail() returns (parent: Item)
    ensures fresh(parent.repr) && |parent.kids| == 2 && !Linked(parent.kids)
  {
    hide Item.Valid;
    var other := CreateDoubleArray([1.0, 2.0]);
    parent := CreateDoubleArray([3.0]);
    ArrayKids(other);
    ArrayKids(parent);
    AppendFromAnother(parent, other);
  }

  lemma ArrayKids(a: Item)
    requires a.Valid() && a.val.Arr?
    ensures a.kind == ArrayKind && |a.kids| == |a.val.items| && a in a.repr
    ensures forall i :: 0 <= i < |a.kids| ==> a.kids[i] in a.repr && a.kids[i].repr <= a.repr
  {
  }

  lemma EmptyMatch()
    ensures ItemsMatch([], []) && MembersMatch([], []) && Numbers([]) == []
  {
  }

  // ---- duplication ----------------------------------------------------

  /** `kids` copies the keys and values of the first children of `item`. */
  ghost predicate Copies(kids: seq<Item>, originals: seq<Item>)
    reads kids`key, kids`val, originals`key, originals`val
  {
    |kids| <= |originals| &&
    forall i :: 0 <= i < |kids| ==> kids[i].key == originals[i].key && kids[i].val == originals[i].val
  }

  lemma CopiesAppended(kids: seq<Item>, originals: seq<Item>, copy: Item)
    requires Copies(kids, originals) && |kids| < |originals|
    requires copy.key == originals[|kids|].key && copy.val == originals[|kids|].val
    ensures Copies(kids + [copy], originals)
  {
  }

  /** A full copy of the children, under an item with the same data, stands for the same value. */
  lemma CopyValid(copy: Item, item: Item)
    requires item.Valid()
    requires copy in copy.repr && Forest(copy.kids, copy.repr - {copy}) && Linked(copy.kids)
    requires copy.child == if copy.kids == [] then null else copy.kids[0]
    requires copy.kind == item.kind && copy.valuestring == item.valuestring && copy.valuedouble == item.valuedouble
    requires copy.val == item.val && Copies(copy.kids, item.kids) && |copy.kids| == |item.kids|
    ensures copy.Valid()
  {
    hide Forest;
    hide Linked;
  }

  /** Facts about the child at index `k` of a well-formed item. */
  lemma KidAt(item: Item, k: nat)
    requires item.Valid() && k < |item.kids|
    ensures item.kids[k].Valid() && item.kids[k].repr < item.repr
    ensures item.kids[k].next == if k + 1 < |item.kids| then item.kids[k + 1] else null
  {
    assert item.kids[k].repr <= item.repr - {item};
  }

  lemma FirstKid(item: Item)
    requires item.Valid()
    ensures item.child == if item.kids == [] then null else item.kids[0]
  {
  }

  /** `cJSON_Duplicate` (lib/cJSON.c:3001-3100): a fresh tree that stands for the same value. */
  method Duplicate(item: Item, recurse: bool) returns (copy: Item)
    requires item.Valid()
    ensures fresh(copy.repr) && copy in copy.repr && copy.next == null && copy.prev == null
    ensures copy.kind == item.kind && copy.valuestring == item.valuestring
    ensures copy.valuedouble == item.valuedouble && copy.key == item.key
    ensures recurse ==> copy.Valid() && copy.val == item.val
    ensures !recurse ==> copy.child == null && copy.kids == [] && copy.repr == {copy}
    decreases item.repr, 1, 0
  {
    hide Forest;
    hide Linked;
    hide Item.Valid;
    hide Copies;
    copy := new Item();
    copy.kind, copy.valuestring, copy.valuedouble, copy.key := item.kind, item.valuestring, item.valuedouble, item.key;
    if !recurse { return; }
    copy.val := item.val;
    DuplicateChildren(item, copy);
    CopyValid(copy, item);
  }

  /** The loop over the children (lib/cJSON.c:3055-3088). */
  method DuplicateChildren(item: Item, copy: Item)
    requires item.Valid() && copy !in item.repr
    requires copy.child == null && copy.kids == [] && copy.repr == {copy}
    modifies copy`child, copy`kids, copy`repr
    ensures copy in copy.repr && fresh(copy.repr - {copy})
    ensures Forest(copy.kids, copy.repr - {copy}) && Linked(copy.kids)
    ensures copy.child == if copy.kids == [] then null else copy.kids[0]
    ensures Copies(copy.kids, item.kids) && |copy.kids| == |item.kids|
    ensures item.Valid()
    decreases item.repr, 0, 1
  {
    hide Growing;
    hide Forest;
    hide Chain;
    hide Linked;
    hide Item.Valid;
    hide Copies;
    hide Distinct;
    NothingYet(copy);
    NoCopies(item.kids);
    FirstKid(item);
    var child := item.child;
    var last: Item? := null;
    while child != null
      invariant copy in copy.repr && fresh(copy.repr - {copy}) && Growing(copy) && item.Valid()
      invariant copy.child == (if copy.kids == [] then null else copy.kids[0])
      invariant copy.kids != [] ==> last == copy.kids[|copy.kids| - 1]
      invariant |copy.kids| <= |item.kids| && Copies(copy.kids, item.kids)
      invariant child == if |copy.kids| < |item.kids| then item.kids[|copy.kids|] else null
      decreases |item.kids| - |copy.kids|
    {
      KidAt(item, |copy.kids|);
      GrowingDistinct(copy);
      last := DuplicateNext(item, copy, child, last);
      child := child.next;
    }
    GrowingDistinct(copy);
    CloseList(copy, copy.child, last);
  }

  /** One child copied and attached (lib/cJSON.c:3057-3080). */
  method DuplicateNext(item: Item, copy: Item, child: Item, last: Item?) returns (newChild: Item)
    requires item.Valid() && copy !in item.repr && Growing(copy) && copy in copy.repr && copy.repr !! item.repr
    requires |copy.kids| < |item.kids| && child == item.kids[|copy.kids|] && Copies(copy.kids, item.kids)
    requires copy.child == (if copy.kids == [] then null else copy.kids[0])
    requires copy.kids != [] ==> last == copy.kids[|copy.kids| - 1]
    modifies copy`child, copy`kids, copy`repr, copy.kids`next
    ensures Growing(copy) && copy in copy.repr && fresh(copy.repr - old(copy.repr))
    ensures copy.kids == old(copy.kids) + [newChild] && copy.child == copy.kids[0] && Copies(copy.kids, item.kids)
    decreases item.repr, 0, 0
  {
    hide Growing;
    hide Forest;
    hide Chain;
    hide Linked;
    hide Item.Valid;
    hide Copies;
    hide Distinct;
    KidAt(item, |copy.kids|);
    newChild := Duplicate(child, true);
    GrowingDistinct(copy);
    CopiesAppended(copy.kids, item.kids, newChild);
    copy.child := Attach(copy, copy.child, last, newChild);
  }

  lemma NoCopies(originals: seq<Item>)
    ensures Copies([], originals)
  {
  }
}
