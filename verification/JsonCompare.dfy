/** `cJSON_Compare` on trees in memory (lib/cJSON.c:134-156, 2083-2119, 3308-3437). */
module JsonCompare {
  import opened Bytes
  import opened JsonValue
  import opened JsonItem
  import opened Options
  import opened JsonBuild
  import opened JsonEquality

  lemma FoldPrefix(a: CString, b: CString, i: nat)
    requires i <= |a| && i <= |b| && forall k :: 0 <= k < i ==> ToLower(a[k]) == ToLower(b[k])
    ensures ToLower(CharAt(a, i)) != ToLower(CharAt(b, i)) ==> Fold(a) != Fold(b)
    ensures i == |a| && i == |b| ==> Fold(a) == Fold(b)
  {
    if Fold(a) == Fold(b) && i < |a| {
      assert Fold(a)[i] == Fold(b)[i];
    }
  }

  /** `case_insensitive_strcmp` (lib/cJSON.c:134-156). */
  method CaseInsensitiveStrcmp(a: CString, b: CString) returns (difference: int)
    ensures difference == 0 <==> SameKey(a, b, false)
  {
    var i: nat := 0;
    while ToLower(CharAt(a, i)) == ToLower(CharAt(b, i))
      invariant i <= |a| && i <= |b|
      invariant forall k :: 0 <= k < i ==> ToLower(a[k]) == ToLower(b[k])
      decreases |a| - i
    {
      FoldPrefix(a, b, i);
      if CharAt(a, i) == 0 {
        return 0;
      }
      i := i + 1;
    }
    FoldPrefix(a, b, i);
    var x: int := ToLower(CharAt(a, i));
    var y: int := ToLower(CharAt(b, i));
    return x - y;
  }

  /** `get_object_item` (lib/cJSON.c:2083-2119). */
  method GetObjectItem(container: Item, name: CString, caseSensitive: bool) returns (item: Item?, ghost k: nat)
    requires container.Valid() && container.kind == ObjectKind
    ensures k == Find(container.val.members, name, caseSensitive, 0)
    ensures var j := Find(container.val.members, name, caseSensitive, 0);
            item == if j < |container.kids| then container.kids[j] else null
  {
    hide SameKey;
    k := 0;
    ghost var members := container.val.members;
    var current := container.child;
    while current != null
      invariant k <= |container.kids| && current == if k < |container.kids| then container.kids[k] else null
      invariant Find(members, name, caseSensitive, k) == Find(members, name, caseSensitive, 0)
      decreases |container.kids| - k
    {
      var same := IsKey(name, current.key.value, caseSensitive);
      if same {
        return current, k;
      }
      current := current.next;
      k := k + 1;
    }
    return null, k;
  }

  method IsKey(name: CString, key: CString, caseSensitive: bool) returns (same: bool)
    ensures same == SameKey(name, key, caseSensitive)
  {
    if caseSensitive {
      return name == key;
    } else {
      var d := CaseInsensitiveStrcmp(name, key);
      return d == 0;
    }
  }

  /** `cJSON_Compare`: the same node, or trees whose values are equal. */
  method Compare(a: Item, b: Item, caseSensitive: bool) returns (r: bool)
    requires a.Valid() && b.Valid() && Related(a, b)
    ensures r == (a == b || Equal(a.val, b.val, caseSensitive))
    decreases a.repr + b.repr, 2
  {
    if a.kind != b.kind {
      return false;
    }
    if a == b {
      return true;
    }
    match a.kind
    case FalseKind => return true;
    case TrueKind => return true;
    case NullKind => return true;
    case NumberKind => return SameNumber(a.valuedouble, b.valuedouble);
    case StringKind => return a.valuestring.value == b.valuestring.value;
    case ArrayKind => r := CompareArrays(a, b, caseSensitive);
    case ObjectKind =>
      r := CompareObjects(a, b, caseSensitive);
      if r {
        r := CompareObjects(b, a, caseSensitive);
      }
  }

  method CompareArrays(a: Item, b: Item, caseSensitive: bool) returns (r: bool)
    requires a.Valid() && b.Valid() && Related(a, b) && a != b && a.kind == ArrayKind && b.kind == ArrayKind
    ensures r == Equal(a.val, b.val, caseSensitive)
    decreases a.repr + b.repr, 1
  {
    hide Equal;
    hide Item.Valid;
    hide Forest;
    hide Linked;
    ArrayShape(a);
    ArrayShape(b);
    FirstKid(a);
    FirstKid(b);
    var aElement, bElement := a.child, b.child;
    ghost var k: nat := 0;
    while aElement != null && bElement != null
      invariant k <= |a.kids| && k <= |b.kids|
      invariant aElement == if k < |a.kids| then a.kids[k] else null
      invariant bElement == if k < |b.kids| then b.kids[k] else null
      invariant forall i :: 0 <= i < k ==> Equal(a.val.items[i], b.val.items[i], caseSensitive)
      decreases |a.kids| - k
    {
      KidAt(a, k);
      KidAt(b, k);
      Apart(a, b, k, k);
      var same := Compare(aElement, bElement, caseSensitive);
      if !same {
        ItemsDiffer(a.val, b.val, k, caseSensitive);
        return false;
      }
      aElement, bElement, k := aElement.next, bElement.next, k + 1;
    }
    ItemsEqual(a.val, b.val, k, caseSensitive);
    return aElement == bElement;
  }

  /** Member `i` of the object `a` has an equal in the object `b`. */
  ghost predicate Matched(a: Value, b: Value, i: nat, caseSensitive: bool)
    requires a.Obj? && b.Obj? && i < |a.members|
  {
    var j := Find(b.members, a.members[i].key, caseSensitive, 0);
    j < |b.members| && Equal(a.members[i].value, b.members[j].value, caseSensitive)
  }

  lemma MatchedWhen(a: Value, b: Value, i: nat, caseSensitive: bool)
    requires a.Obj? && b.Obj? && i < |a.members|
    ensures var j := Find(b.members, a.members[i].key, caseSensitive, 0);
            Matched(a, b, i, caseSensitive) <==>
              (j < |b.members| && Equal(a.members[i].value, b.members[j].value, caseSensitive))
  {
    hide Equal;
    hide Find;
  }

  lemma CoversWhenMatched(a: Value, b: Value, caseSensitive: bool)
    requires a.Obj? && b.Obj?
    ensures Covers(a, b, caseSensitive) <==> forall i :: 0 <= i < |a.members| ==> Matched(a, b, i, caseSensitive)
  {
    hide Equal;
    hide Find;
    hide Covers;
    hide Matched;
    CoversWhen(a, b, caseSensitive);
    forall i | 0 <= i < |a.members|
      ensures var j := Find(b.members, a.members[i].key, caseSensitive, 0);
              Matched(a, b, i, caseSensitive) <==>
                (j < |b.members| && Equal(a.members[i].value, b.members[j].value, caseSensitive))
    {
      MatchedWhen(a, b, i, caseSensitive);
    }
  }

  /** One of the two passes over the members: each has an equal in the other object. */
  method CompareObjects(a: Item, b: Item, caseSensitive: bool) returns (r: bool)
    requires a.Valid() && b.Valid() && Related(a, b) && a != b && a.kind == ObjectKind && b.kind == ObjectKind
    ensures r == Covers(a.val, b.val, caseSensitive)
    decreases a.repr + b.repr, 1
  {
    hide Equal;
    hide Covers;
    hide Find;
    hide Item.Valid;
    hide Forest;
    hide Linked;
    ObjectShape(a);
    ObjectShape(b);
    FirstKid(a);
    hide Matched;
    CoversWhenMatched(a.val, b.val, caseSensitive);
    var aElement := a.child;
    ghost var k: nat := 0;
    while aElement != null
      invariant k <= |a.kids|
      invariant aElement == if k < |a.kids| then a.kids[k] else null
      invariant forall i :: 0 <= i < k ==> Matched(a.val, b.val, i, caseSensitive)
      decreases |a.kids| - k
    {
      KidAt(a, k);
      var bElement, j := GetObjectItem(b, aElement.key.value, caseSensitive);
      MatchedWhen(a.val, b.val, k, caseSensitive);
      if bElement == null {
        return false;
      }
      Apart(a, b, k, j);
      var same := Compare(aElement, bElement, caseSensitive);
      if !same {
        return false;
      }
      aElement, k := aElement.next, k + 1;
    }
    return true;
  }

  /** `b` is a descendant of `a`. */
  ghost predicate Below(a: Item, b: Item)
    requires a.Valid()
    reads a, a.repr
    decreases a.repr
  {
    exists i :: 0 <= i < |a.kids| && (Child(a, i); b == a.kids[i] || Below(a.kids[i], b))
  }

  /** The same node, disjoint trees, or a tree and one of its own subtrees. */
  ghost predicate Related(a: Item, b: Item)
    requires a.Valid() && b.Valid()
    reads a, a.repr, b, b.repr
  {
    a == b || a.repr !! b.repr || Below(a, b) || Below(b, a)
  }

  lemma {:induction false} BelowIsWithin(a: Item, b: Item)
    requires a.Valid() && Below(a, b)
    ensures b.Valid() && b in b.repr && b.repr <= a.repr - {a}
    decreases a.repr
  {
    var i :| 0 <= i < |a.kids| && (Child(a, i); b == a.kids[i] || Below(a.kids[i], b));
    Child(a, i);
    if b != a.kids[i] { BelowIsWithin(a.kids[i], b); }
  }

  lemma {:induction false} BelowBelow(a: Item, b: Item, j: nat)
    requires a.Valid() && Below(a, b) && b.Valid() && j < |b.kids|
    ensures Below(a, b.kids[j])
    decreases a.repr
  {
    Child(b, j);
    var i :| 0 <= i < |a.kids| && (Child(a, i); b == a.kids[i] || Below(a.kids[i], b));
    Child(a, i);
    if b == a.kids[i] {
      assert Below(a.kids[i], b.kids[j]);
    } else {
      BelowBelow(a.kids[i], b, j);
    }
  }

  /** The children of a tree and of a subtree of it. */
  lemma ApartBelow(a: Item, b: Item, i: nat, j: nat)
    requires a.Valid() && b.Valid() && Below(a, b) && i < |a.kids| && j < |b.kids|
    ensures a.kids[i].Valid() && b.kids[j].Valid() && a.kids[i] != b.kids[j] && Related(a.kids[i], b.kids[j])
    ensures a.kids[i].repr + b.kids[j].repr < a.repr + b.repr
  {
    hide Item.Valid;
    hide Forest;
    hide Linked;
    BelowIsWithin(a, b);
    Child(a, i);
    Child(b, j);
    var m :| 0 <= m < |a.kids| && (Child(a, m); b == a.kids[m] || Below(a.kids[m], b));
    Child(a, m);
    if b == a.kids[m] {
      KidBelow(b, j);
    } else {
      BelowIsWithin(a.kids[m], b);
      BelowBelow(a.kids[m], b, j);
    }
    if i != m { KidsApart(a, i, m); }
  }

  lemma KidBelow(a: Item, i: nat)
    requires a.Valid() && i < |a.kids|
    ensures Below(a, a.kids[i])
  {
    Child(a, i);
  }

  lemma KidsApart(a: Item, i: nat, m: nat)
    requires a.Valid() && i < |a.kids| && m < |a.kids| && i != m
    ensures a.kids[i].repr !! a.kids[m].repr
  {
  }

  /** The children of two different trees are different trees of the same kind, smaller together. */
  lemma Apart(a: Item, b: Item, i: nat, j: nat)
    requires a.Valid() && b.Valid() && Related(a, b) && a != b && i < |a.kids| && j < |b.kids|
    ensures a.kids[i].Valid() && b.kids[j].Valid() && Related(a.kids[i], b.kids[j]) && a.kids[i] != b.kids[j]
    ensures a.kids[i].repr + b.kids[j].repr < a.repr + b.repr
  {
    hide Forest;
    hide Linked;
    hide Below;
    Child(a, i);
    Child(b, j);
    if Below(a, b) {
      ApartBelow(a, b, i, j);
    } else if Below(b, a) {
      ApartBelow(b, a, j, i);
    }
  }

  lemma Child(a: Item, i: nat)
    requires a.Valid() && i < |a.kids|
    ensures a.kids[i].Valid() && a.kids[i] in a.kids[i].repr && a.kids[i].repr <= a.repr - {a} && a in a.repr
  {
    assert a.kids[i].repr <= a.repr - {a};
    assert a.kids[i].Valid();
  }

  lemma ArrayShape(a: Item)
    requires a.Valid() && a.kind == ArrayKind
    ensures a.val.Arr? && |a.val.items| == |a.kids|
    ensures forall i :: 0 <= i < |a.kids| ==> a.kids[i].val == a.val.items[i]
  {
  }

  lemma ObjectShape(a: Item)
    requires a.Valid() && a.kind == ObjectKind
    ensures a.val.Obj? && |a.val.members| == |a.kids|
    ensures forall i :: 0 <= i < |a.kids| ==>
            a.kids[i].val == a.val.members[i].value && a.kids[i].key == Some(a.val.members[i].key)
  {
  }

  lemma ItemsDiffer(a: Value, b: Value, k: nat, caseSensitive: bool)
    requires a.Arr? && b.Arr? && k < |a.items| && k < |b.items|
    requires !Equal(a.items[k], b.items[k], caseSensitive)
    ensures !Equal(a, b, caseSensitive)
  {
  }

  lemma ItemsEqual(a: Value, b: Value, k: nat, caseSensitive: bool)
    requires a.Arr? && b.Arr? && k <= |a.items| && k <= |b.items| && (k == |a.items| || k == |b.items|)
    requires forall i :: 0 <= i < k ==> Equal(a.items[i], b.items[i], caseSensitive)
    ensures Equal(a, b, caseSensitive) <==> |a.items| == |b.items|
  {
  }
}
