/** The `cJSON` structure on the heap (lib/cJSON.h:103-127): children in a doubly linked list whose head's
    `prev` is the tail. */
module JsonItem {
  import opened Bytes
  import opened JsonValue
  import opened Options

  /** The low byte of `type`; raw items, references and constant keys are not part of this model. */
  datatype Kind = InvalidKind | FalseKind | TrueKind | NullKind | NumberKind | StringKind | ArrayKind | ObjectKind

  /** The links of a complete child list: `prev` of the head is the tail, `next` of the tail is NULL. */
  ghost predicate Linked(kids: seq<Item>)
    reads kids`next, kids`prev
  {
    (forall i {:trigger kids[i].next} :: 0 <= i < |kids| - 1 ==> kids[i].next == kids[i + 1]) &&
    (forall i {:trigger kids[i].prev} :: 0 < i < |kids| ==> kids[i].prev == kids[i - 1]) &&
    (kids != [] ==> kids[|kids| - 1].next == null && kids[0].prev == kids[|kids| - 1])
  }

  /** Each child is the root of a well-formed tree below `owner`, and these trees are disjoint. */
  ghost predicate Forest(kids: seq<Item>, below: set<Item>)
    reads below
    decreases below, 1
  {
    (forall i :: 0 <= i < |kids| ==> kids[i] in below && kids[i].repr <= below && kids[i].Valid()) &&
    (forall i, j :: 0 <= i < j < |kids| ==> kids[i].repr !! kids[j].repr)
  }

  ghost predicate ItemsMatch(kids: seq<Item>, items: seq<Value>)
    reads kids`val
  {
    |items| == |kids| && forall i :: 0 <= i < |kids| ==> items[i] == kids[i].val
  }

  ghost predicate MembersMatch(kids: seq<Item>, members: seq<Member>)
    reads kids`key, kids`val
  {
    |members| == |kids| &&
    forall i :: 0 <= i < |kids| ==> kids[i].key == Some(members[i].key) && members[i].value == kids[i].val
  }

  class Item {
    var next: Item?
    var prev: Item?
    var child: Item?
    var kind: Kind
    var valuestring: Option<CString>
    var valuedouble: real
    var key: Option<CString>

    /** The children in order, the items of the whole tree, and the value the tree stands for. */
    ghost var kids: seq<Item>
    ghost var repr: set<Item>
    ghost var val: Value

    /** `cJSON_New_Item` (lib/cJSON.c:251-261). */
    constructor ()
      ensures next == prev == child == null && kind == InvalidKind && valuestring == key == None && valuedouble == 0.0
      ensures kids == [] && repr == {this}
    {
      next, prev, child := null, null, null;
      kind, valuestring, valuedouble, key := InvalidKind, None, 0.0, None;
      kids, repr := [], {this};
    }

    /** The tree below this item is well formed and stands for `val`. The item's own links and key belong
        to the list it is in, not to the tree below it. */
    ghost predicate Valid()
      reads this`child, this`kind, this`valuestring, this`valuedouble, this`kids, this`repr, this`val, repr - {this}
      decreases repr, 0
    {
      this in repr &&
      child == (if kids == [] then null else kids[0]) &&
      Forest(kids, repr - {this}) && Linked(kids) && Represents()
    }

    ghost predicate Represents()
      reads this`kind, this`valuestring, this`valuedouble, this`kids, this`val, kids`key, kids`val
    {
      match kind
      case InvalidKind => false
      case FalseKind => kids == [] && val == False
      case TrueKind => kids == [] && val == True
      case NullKind => kids == [] && val == Null
      case NumberKind => kids == [] && val == Number(valuedouble)
      case StringKind => kids == [] && valuestring.Some? && val == Str(valuestring.value)
      case ArrayKind => val.Arr? && ItemsMatch(kids, val.items)
      case ObjectKind => val.Obj? && MembersMatch(kids, val.members)
    }
  }
}
