/** What the edits and comparisons of values are, call by call, in terms of indices and bytes alone. */
module JsonCallMeaning {
  import opened Bytes
  import opened Options
  import opened JsonValue
  import opened JsonEquality
  import opened JsonEdit
  import opened JsonPath

  // ---- keys and numbers -----------------------------------------------

  /** The bytes are the same letter, or the same byte. */
  predicate SameLetter(a: byte, b: byte) {
    a == b || (65 <= a <= 90 && b == a + 32) || (65 <= b <= 90 && a == b + 32)
  }

  /** Keys are the same in one mode if they are equal, in the other up to the case of ASCII letters
      (lib/cJSON.c:88-108, 2083-2119). */
  lemma SameKeyIs(a: CString, b: CString)
    ensures SameKey(a, b, true) <==> a == b
    ensures SameKey(a, b, false) <==> |a| == |b| && forall k :: 0 <= k < |a| ==> SameLetter(a[k], b[k])
  {
    if SameKey(a, b, false) {
      assert |a| == |Fold(a)| == |Fold(b)| == |b|;
      forall k | 0 <= k < |a| ensures SameLetter(a[k], b[k]) {
        assert Fold(a)[k] == Fold(b)[k];
      }
    }
    if |a| == |b| && forall k :: 0 <= k < |a| ==> SameLetter(a[k], b[k]) {
      assert Fold(a) == Fold(b);
    }
  }

  /** `x` is no larger than one of the numbers in size. */
  predicate WithinSize(x: real, a: real, b: real) {
    x <= a || x <= -a || x <= b || x <= -b
  }

  /** Numbers are the same if they differ by at most one part in 2^52 of the one that is larger in size
      (lib/cJSON.c:572-576). */
  lemma SameNumberIs(a: real, b: real)
    ensures SameNumber(a, b) <==>
            WithinSize(4503599627370496.0 * (a - b), a, b) && WithinSize(4503599627370496.0 * (b - a), a, b)
  {
  }

  // ---- giving -----------------------------------------------------------

  /** What stands at an index of a container: a key, in an object, and a value. */
  datatype Entry = Entry(key: Option<CString>, value: Value)

  function Entries(v: Value): seq<Entry>
    requires v.Arr? || v.Obj?
  {
    if v.Arr? then seq(|v.items|, k requires 0 <= k < |v.items| => Entry(None, v.items[k]))
    else seq(|v.members|, k requires 0 <= k < |v.members| => Entry(Some(v.members[k].key), v.members[k].value))
  }

  /** `name` names index `k`, and no index before it. */
  predicate FirstNamed(v: Value, name: CString, caseSensitive: bool, k: nat)
    requires v.Obj?
  {
    k < |v.members| && SameKey(name, v.members[k].key, caseSensitive)
    && forall j :: 0 <= j < k ==> !SameKey(name, v.members[j].key, caseSensitive)
  }

  predicate Named(v: Value, name: CString, caseSensitive: bool)
    requires v.Obj?
  {
    exists k :: 0 <= k < |v.members| && SameKey(name, v.members[k].key, caseSensitive)
  }

  /** The entry that a tree becomes: in an object it has the key that the call names, or else its own. */
  function NewEntry(v: Value, name: Option<CString>, key: Option<CString>, x: Value): Entry {
    Entry(if v.Arr? then None else if name.Some? then name
          else Some(match key case Some(own) => own case None => []), x)
  }

  predicate SameShape(v: Value, w: Value) {
    (v.Arr? && w.Arr?) || (v.Obj? && w.Obj?)
  }

  /** Adding puts the tree behind all others. */
  lemma AddingIs(v: Value, name: Option<CString>, key: Option<CString>, x: Value)
    requires v.Arr? || v.Obj?
    ensures var w := Given(v, match name case None => AddToArray case Some(n) => AddToObject(n), key, x);
            SameShape(v, w) && Entries(w) == Entries(v) + [NewEntry(v, name, key, x)]
  {
  }

  lemma EntriesWithNew(v: Value, k: nat, key: CString, x: Value)
    requires (v.Arr? || v.Obj?) && k <= |Entries(v)|
    ensures var w, e := WithNew(v, k, key, x), Entries(v);
            SameShape(v, w) && Entries(w) == e[..k] + [Entry(if v.Arr? then None else Some(key), x)] + e[k..]
  {
  }

  /** Inserting puts it in front of the index, or behind all others; a negative index is refused. */
  lemma InsertingIs(v: Value, which: int, key: Option<CString>, x: Value)
    requires v.Arr? || v.Obj?
    ensures var w, e := Given(v, InsertInArray(which), key, x), Entries(v);
            if which < 0 then w == v
            else if which >= |e| then SameShape(v, w) && Entries(w) == e + [NewEntry(v, None, key, x)]
            else SameShape(v, w) && Entries(w) == e[..which] + [NewEntry(v, None, key, x)] + e[which..]
  {
    var e := Entries(v);
    if which >= 0 {
      EntriesWithNew(v, if which < |e| then which else |e|, KeyOr(key), x);
      assert e[..|e|] == e && e[|e|..] == [];
    }
    hide Entries;
  }

  /** Replacing changes the entry at the index, or nothing. */
  lemma ReplacingIs(v: Value, which: int, key: Option<CString>, x: Value)
    requires v.Arr? || v.Obj?
    ensures var w, e := Given(v, ReplaceInArray(which), key, x), Entries(v);
            if 0 <= which < |e| then SameShape(v, w) && Entries(w) == e[which := NewEntry(v, None, key, x)]
            else w == v
  {
  }

  /** Replacing by name changes the first entry of that name, or nothing. */
  lemma ReplacingNamedIs(v: Value, name: CString, caseSensitive: bool, key: Option<CString>, x: Value, k: nat)
    requires v.Obj?
    ensures var w := Given(v, ReplaceInObject(name, caseSensitive), key, x);
            (FirstNamed(v, name, caseSensitive, k) ==>
               w.Obj? && Entries(w) == Entries(v)[k := Entry(Some(name), x)])
            && (!Named(v, name, caseSensitive) ==> w == v)
  {
    hide SameKey;
  }

  // ---- taking -----------------------------------------------------------

  /** Detaching takes out the entry at the index, or nothing. */
  lemma DetachingIs(v: Value, which: int)
    requires v.Arr? || v.Obj?
    ensures var g, e := DetachFromArray(which), Entries(v);
            var w := Without(v, g);
            if 0 <= which < |e| then
              SameShape(v, w) && Entries(w) == e[..which] + e[which + 1..] && Found(v, g)
              && Kid(v, Place(v, g)) == e[which].value
            else w == v && !Found(v, g)
  {
  }

  /** Detaching by name takes out the first entry of that name, or nothing. */
  lemma DetachingNamedIs(v: Value, name: CString, caseSensitive: bool, k: nat)
    requires v.Obj?
    ensures var g, e := DetachFromObject(name, caseSensitive), Entries(v);
            var w := Without(v, g);
            (FirstNamed(v, name, caseSensitive, k) ==>
               w.Obj? && Entries(w) == e[..k] + e[k + 1..] && Found(v, g) && Kid(v, Place(v, g)) == e[k].value)
            && (!Named(v, name, caseSensitive) ==> w == v && !Found(v, g))
  {
    hide SameKey;
    if FirstNamed(v, name, caseSensitive, k) {
      assert Place(v, DetachFromObject(name, caseSensitive)) == k;
      hide FirstNamed;
      DetachingIs(v, k);
      hide Entries;
    }
  }
}
