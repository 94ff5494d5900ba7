/** What `cJSON_Compare` decides (lib/cJSON.c:3308-3437), as a relation between values. */
module JsonEquality {
  import opened Bytes
  import opened JsonValue

  // ---- keys ---------------------------------------------------------------

  function ToLower(b: byte): byte {
    if UPPER_A <= b <= UPPER_Z then b + 32 else b
  }

  function Fold(s: CString): (r: CString)
    ensures |r| == |s|
  {
    seq(|s|, i requires 0 <= i < |s| => ToLower(s[i]))
  }

  /** A key as the comparison sees it. */
  function KeyOf(s: CString, caseSensitive: bool): CString {
    if caseSensitive then s else Fold(s)
  }

  predicate SameKey(a: CString, b: CString, caseSensitive: bool) {
    KeyOf(a, caseSensitive) == KeyOf(b, caseSensitive)
  }

  /** The first member, from index `i` on, with the given key; the number of members if there is none
      (lib/cJSON.c:2083-2119). */
  function Find(members: seq<Member>, name: CString, caseSensitive: bool, i: nat): (r: nat)
    requires i <= |members|
    ensures i <= r <= |members|
    ensures r < |members| ==> SameKey(name, members[r].key, caseSensitive)
    ensures forall k :: i <= k < r ==> !SameKey(name, members[k].key, caseSensitive)
    decreases |members| - i
  {
    if i == |members| || SameKey(name, members[i].key, caseSensitive) then i
    else Find(members, name, caseSensitive, i + 1)
  }

  lemma FindCongruent(members: seq<Member>, a: CString, b: CString, caseSensitive: bool, i: nat)
    requires i <= |members| && SameKey(a, b, caseSensitive)
    ensures Find(members, a, caseSensitive, i) == Find(members, b, caseSensitive, i)
    decreases |members| - i
  {
  }

  // ---- numbers ------------------------------------------------------------

  /** DBL_EPSILON */
  const EPSILON := 1.0 / 4503599627370496.0

  function Abs(x: real): real {
    if x < 0.0 then -x else x
  }

  /** `compare_double` (lib/cJSON.c:572-576). */
  predicate SameNumber(a: real, b: real) {
    var largest := if Abs(a) > Abs(b) then Abs(a) else Abs(b);
    Abs(a - b) <= largest * EPSILON
  }

  lemma SameWholeNumber(a: real, b: real)
    requires Printable(Number(a)) && Printable(Number(b))
    ensures SameNumber(a, b) <==> a == b
  {
    if a != b {
      assert a.Floor != b.Floor;
      assert Abs(a - b) >= 1.0;
    }
  }

  /** Every number in the value is one of `numbers`. */
  ghost predicate Over(v: Value, numbers: iset<real>) {
    match v
    case Number(n) => n in numbers
    case Arr(items) => forall i :: 0 <= i < |items| ==> Over(items[i], numbers)
    case Obj(members) => forall i :: 0 <= i < |members| ==> Over(members[i].value, numbers)
    case _ => true
  }

  /** The comparison tells any two of the numbers apart. */
  ghost predicate Separate(numbers: iset<real>) {
    forall x, y :: x in numbers && y in numbers && SameNumber(x, y) ==> x == y
  }

  ghost predicate Transitive(numbers: iset<real>) {
    forall x, y, z :: x in numbers && y in numbers && z in numbers && SameNumber(x, y) && SameNumber(y, z) ==>
      SameNumber(x, z)
  }

  /** The numbers that the printer writes as whole numbers. */
  ghost const WHOLE := iset n: real | Printable(Number(n))

  lemma WholeNumbersAreSeparate()
    ensures Separate(WHOLE) && Transitive(WHOLE)
  {
    forall x, y | x in WHOLE && y in WHOLE && SameNumber(x, y) ensures x == y { SameWholeNumber(x, y); }
  }

  lemma {:induction false} PrintableIsOverWhole(v: Value)
    ensures Printable(v) <==> Over(v, WHOLE)
  {
    match v
    case Arr(items) =>
      forall i | 0 <= i < |items|
        ensures Printable(items[i]) <==> Over(items[i], WHOLE)
      {
        PrintableIsOverWhole(items[i]);
      }
    case Obj(members) =>
      forall i | 0 <= i < |members| ensures Printable(members[i].value) <==> Over(members[i].value, WHOLE) {
        PrintableIsOverWhole(members[i].value);
      }
    case _ =>
  }

  // ---- the relation ---------------------------------------------------------

  lemma ItemHeight(items: seq<Value>, i: nat)
    requires i < |items|
    ensures Height(items[i]) < Height(Arr(items))
  {
    ItemsHeightAt(items, 0, i);
  }

  lemma {:induction false} ItemsHeightAt(items: seq<Value>, k: nat, i: nat)
    requires k <= i < |items|
    ensures Height(items[i]) <= ItemsHeight(items, k)
    decreases i - k
  {
    if k < i { ItemsHeightAt(items, k + 1, i); }
  }

  lemma MemberHeight(members: seq<Member>, i: nat)
    requires i < |members|
    ensures Height(members[i].value) < Height(Obj(members))
  {
    MembersHeightAt(members, 0, i);
  }

  lemma {:induction false} MembersHeightAt(members: seq<Member>, k: nat, i: nat)
    requires k <= i < |members|
    ensures Height(members[i].value) <= MembersHeight(members, k)
    decreases i - k
  {
    if k < i { MembersHeightAt(members, k + 1, i); }
  }

  /** `cJSON_Compare` of two different trees. */
  predicate Equal(a: Value, b: Value, caseSensitive: bool)
    decreases Height(a) + Height(b), 1
  {
    match a
    case Null => b.Null?
    case False => b.False?
    case True => b.True?
    case Number(n) => b.Number? && SameNumber(n, b.n)
    case Str(s) => b.Str? && s == b.s
    case Arr(items) =>
      b.Arr? && |items| == |b.items| &&
      forall i :: 0 <= i < |items| ==>
        (ItemHeight(items, i); ItemHeight(b.items, i); Equal(items[i], b.items[i], caseSensitive))
    case Obj(members) =>
      b.Obj? && Covers(a, b, caseSensitive) && Covers(b, a, caseSensitive)
  }

  /** Every member of `a` has an equal in `b` under the same key. */
  predicate Covers(a: Value, b: Value, caseSensitive: bool)
    requires a.Obj? && b.Obj?
    decreases Height(a) + Height(b), 0
  {
    forall i :: 0 <= i < |a.members| ==>
      (MemberHeight(a.members, i);
       var j := Find(b.members, a.members[i].key, caseSensitive, 0);
       j < |b.members| && (MemberHeight(b.members, j); Equal(a.members[i].value, b.members[j].value, caseSensitive)))
  }

  // ---- an equivalence ---------------------------------------------------------

  lemma {:induction false} EqualIsSymmetric(a: Value, b: Value, caseSensitive: bool)
    ensures Equal(a, b, caseSensitive) <==> Equal(b, a, caseSensitive)
    decreases Height(a)
  {
    if a.Arr? && b.Arr? && |a.items| == |b.items| {
      forall i | 0 <= i < |a.items|
        ensures Equal(a.items[i], b.items[i], caseSensitive) <==> Equal(b.items[i], a.items[i], caseSensitive)
      {
        ItemHeight(a.items, i);
        EqualIsSymmetric(a.items[i], b.items[i], caseSensitive);
      }
    }
  }

  lemma {:induction false} EqualIsTransitive(a: Value, b: Value, c: Value, caseSensitive: bool, numbers: iset<real>)
    requires Transitive(numbers) && Over(a, numbers) && Over(b, numbers) && Over(c, numbers)
    requires Equal(a, b, caseSensitive) && Equal(b, c, caseSensitive)
    ensures Equal(a, c, caseSensitive)
    decreases Height(a) + Height(b) + Height(c), 1
  {
    match a
    case Arr(items) =>
      forall i | 0 <= i < |items| ensures Equal(items[i], c.items[i], caseSensitive) {
        ItemHeight(items, i);
        ItemHeight(b.items, i);
        ItemHeight(c.items, i);
        EqualIsTransitive(items[i], b.items[i], c.items[i], caseSensitive, numbers);
      }
    case Obj(members) =>
      CoversIsTransitive(a, b, c, caseSensitive, numbers);
      CoversIsTransitive(c, b, a, caseSensitive, numbers);
    case _ =>
  }

  lemma {:induction false} CoversIsTransitive(a: Value, b: Value, c: Value, caseSensitive: bool, numbers: iset<real>)
    requires Transitive(numbers) && Over(a, numbers) && Over(b, numbers) && Over(c, numbers) && a.Obj? && b.Obj? &&
             c.Obj?
    requires Covers(a, b, caseSensitive) && Covers(b, c, caseSensitive)
    ensures Covers(a, c, caseSensitive)
    decreases Height(a) + Height(b) + Height(c), 0
  {
    forall i | 0 <= i < |a.members|
      ensures var k := Find(c.members, a.members[i].key, caseSensitive, 0);
              k < |c.members| && Equal(a.members[i].value, c.members[k].value, caseSensitive)
    {
      var j := Find(b.members, a.members[i].key, caseSensitive, 0);
      var k := Find(c.members, b.members[j].key, caseSensitive, 0);
      FindCongruent(c.members, a.members[i].key, b.members[j].key, caseSensitive, 0);
      MemberHeight(a.members, i);
      MemberHeight(b.members, j);
      MemberHeight(c.members, k);
      EqualIsTransitive(a.members[i].value, b.members[j].value, c.members[k].value, caseSensitive, numbers);
    }
  }

  /** The comparison is transitive on the values over some numbers exactly when it is on these numbers. */
  lemma TransitiveExactlyOver(numbers: iset<real>, caseSensitive: bool)
    ensures Transitive(numbers) <==>
      forall a, b, c ::
        Over(a, numbers) && Over(b, numbers) && Over(c, numbers) && Equal(a, b, caseSensitive)
        && Equal(b, c, caseSensitive)
        ==> Equal(a, c, caseSensitive)
  {
    hide Over;
    hide Equal;
    if Transitive(numbers) {
      forall a, b, c | Over(a, numbers) && Over(b, numbers) && Over(c, numbers) && Equal(a, b, caseSensitive) &&
        Equal(b, c, caseSensitive)
        ensures Equal(a, c, caseSensitive)
      {
        EqualIsTransitive(a, b, c, caseSensitive, numbers);
      }
    } else {
      var x, y, z :| x in numbers && y in numbers && z in numbers && SameNumber(x, y) && SameNumber(y, z) &&
        !SameNumber(x, z);
      OverNumber(x, numbers);
      OverNumber(y, numbers);
      OverNumber(z, numbers);
      EqualNumbers(x, y, caseSensitive);
      EqualNumbers(y, z, caseSensitive);
      EqualNumbers(x, z, caseSensitive);
    }
  }

  lemma OverNumber(x: real, numbers: iset<real>)
    ensures Over(Number(x), numbers) <==> x in numbers
  {
  }

  lemma EqualNumbers(x: real, y: real, caseSensitive: bool)
    ensures Equal(Number(x), Number(y), caseSensitive) <==> SameNumber(x, y)
  {
  }

  /** On values that print as whole numbers below 10^15 the comparison is transitive. */
  lemma PrintableIsTransitive(a: Value, b: Value, c: Value, caseSensitive: bool)
    requires Printable(a) && Printable(b) && Printable(c)
    requires Equal(a, b, caseSensitive) && Equal(b, c, caseSensitive)
    ensures Equal(a, c, caseSensitive)
  {
    PrintableIsOverWhole(a);
    PrintableIsOverWhole(b);
    PrintableIsOverWhole(c);
    WholeNumbersAreSeparate();
    EqualIsTransitive(a, b, c, caseSensitive, WHOLE);
  }

  /** Numbers in general are only compared up to a relative error, which is not transitive. */
  lemma SameNumberIsNotTransitive()
    ensures exists a: real, b: real, c: real :: SameNumber(a, b) && SameNumber(b, c) && !SameNumber(a, c)
  {
    var a, b, c := 1.0, 1.0 + EPSILON, 1.0 + 2.0 * EPSILON;
    assert SameNumber(a, b) && SameNumber(b, c) && !SameNumber(a, c);
  }

  // ---- equality of maps -------------------------------------------------------

  /** No object has two members with the same key. */
  predicate DistinctKeys(v: Value, caseSensitive: bool) {
    match v
    case Arr(items) => forall i :: 0 <= i < |items| ==> DistinctKeys(items[i], caseSensitive)
    case Obj(members) =>
      (forall i :: 0 <= i < |members| ==> DistinctKeys(members[i].value, caseSensitive)) &&
      (forall i, j :: 0 <= i < j < |members| ==> !SameKey(members[i].key, members[j].key, caseSensitive))
    case _ => true
  }

  /** A value with the order of members forgotten: objects are maps. */
  datatype Canonical =
    | Atom(v: Value)
    | List(items: seq<Canonical>)
    | Map(entries: map<CString, Canonical>)

  function Canon(v: Value, caseSensitive: bool): Canonical
    requires DistinctKeys(v, caseSensitive)
  {
    match v
    case Arr(items) => List(seq(|items|, i requires 0 <= i < |items| => Canon(items[i], caseSensitive)))
    case Obj(members) => Map(Entries(members, |members|, caseSensitive))
    case _ => Atom(v)
  }

  /** The first `n` members as a map. */
  function Entries(members: seq<Member>, n: nat, caseSensitive: bool): map<CString, Canonical>
    requires n <= |members| && forall i :: 0 <= i < |members| ==> DistinctKeys(members[i].value, caseSensitive)
    decreases members, n
  {
    if n == 0 then map[]
    else Entries(members, n - 1, caseSensitive)
           [KeyOf(members[n - 1].key, caseSensitive) := Canon(members[n - 1].value, caseSensitive)]
  }

  /** With distinct keys, the comparison is equality of maps, up to the order of members. */
  lemma {:induction false} EqualIsMapEquality(a: Value, b: Value, caseSensitive: bool, numbers: iset<real>)
    requires Separate(numbers) && Over(a, numbers) && Over(b, numbers) && DistinctKeys(a, caseSensitive) &&
             DistinctKeys(b, caseSensitive)
    ensures Equal(a, b, caseSensitive) <==> Canon(a, caseSensitive) == Canon(b, caseSensitive)
    decreases Height(a) + Height(b)
  {
    if a.Arr? && b.Arr? {
      ArraysAreMapEqual(a, b, caseSensitive, numbers);
    } else if a.Obj? && b.Obj? {
      ObjectsAreMapEqual(a, b, caseSensitive, numbers);
    }
  }

  lemma {:induction false} ArraysAreMapEqual(a: Value, b: Value, caseSensitive: bool, numbers: iset<real>)
    requires a.Arr? && b.Arr?
    requires Separate(numbers) && Over(a, numbers) && Over(b, numbers) && DistinctKeys(a, caseSensitive) &&
             DistinctKeys(b, caseSensitive)
    ensures Equal(a, b, caseSensitive) <==> Canon(a, caseSensitive) == Canon(b, caseSensitive)
    decreases Height(a) + Height(b), 0
  {
    var xs, ys := a.items, b.items;
    CanonItems(a, caseSensitive);
    CanonItems(b, caseSensitive);
    if |xs| == |ys| {
      forall i | 0 <= i < |xs|
        ensures Equal(xs[i], ys[i], caseSensitive) <==>
                Canon(a, caseSensitive).items[i] == Canon(b, caseSensitive).items[i]
      {
        ItemHeight(xs, i);
        ItemHeight(ys, i);
        EqualIsMapEquality(xs[i], ys[i], caseSensitive, numbers);
      }
      ListsEqual(Canon(a, caseSensitive), Canon(b, caseSensitive));
      EqualItems(a, b, caseSensitive);
    } else {
      LengthsDiffer(a, b, caseSensitive);
    }
  }

  lemma CanonItems(a: Value, caseSensitive: bool)
    requires a.Arr? && DistinctKeys(a, caseSensitive)
    ensures Canon(a, caseSensitive).List? && |Canon(a, caseSensitive).items| == |a.items|
    ensures forall i :: 0 <= i < |a.items| ==>
      DistinctKeys(a.items[i], caseSensitive) && Canon(a, caseSensitive).items[i] == Canon(a.items[i], caseSensitive)
  {
  }

  lemma ListsEqual(x: Canonical, y: Canonical)
    requires x.List? && y.List? && |x.items| == |y.items|
    ensures x == y <==> forall i :: 0 <= i < |x.items| ==> x.items[i] == y.items[i]
  {
  }

  lemma EqualItems(a: Value, b: Value, caseSensitive: bool)
    requires a.Arr? && b.Arr? && |a.items| == |b.items|
    ensures Equal(a, b, caseSensitive) <==> forall i :: 0 <= i < |a.items| ==>
            Equal(a.items[i], b.items[i], caseSensitive)
  {
  }

  lemma LengthsDiffer(a: Value, b: Value, caseSensitive: bool)
    requires a.Arr? && b.Arr? && |a.items| != |b.items|
    ensures !Equal(a, b, caseSensitive)
  {
  }

  /** With distinct keys, the search finds the entry of the map. */
  lemma Lookup(b: Value, name: CString, caseSensitive: bool)
    requires b.Obj? && DistinctKeys(b, caseSensitive)
    ensures var j := Find(b.members, name, caseSensitive, 0);
            var entries, key := Canon(b, caseSensitive).entries, KeyOf(name, caseSensitive);
            (key in entries <==> j < |b.members|) &&
            (j < |b.members| ==> entries[key] == Canon(b.members[j].value, caseSensitive))
  {
    hide KeyOf;
    EntryOf(b, KeyOf(name, caseSensitive), caseSensitive);
    var j := Find(b.members, name, caseSensitive, 0);
    if j == |b.members| {
      forall i | 0 <= i < |b.members| ensures KeyOf(b.members[i].key, caseSensitive) != KeyOf(name, caseSensitive) {
        assert !SameKey(name, b.members[i].key, caseSensitive);
      }
    }
  }

  lemma {:induction false} CoversIsSubmap(a: Value, b: Value, caseSensitive: bool, numbers: iset<real>)
    requires a.Obj? && b.Obj?
    requires Separate(numbers) && Over(a, numbers) && Over(b, numbers) && DistinctKeys(a, caseSensitive) &&
             DistinctKeys(b, caseSensitive)
    ensures Covers(a, b, caseSensitive) <==> Submap(Canon(a, caseSensitive).entries, Canon(b, caseSensitive).entries)
    decreases Height(a) + Height(b), 0
  {
    var x, y := Canon(a, caseSensitive).entries, Canon(b, caseSensitive).entries;
    forall i | 0 <= i < |a.members|
      ensures var j := Find(b.members, a.members[i].key, caseSensitive, 0);
              var key := KeyOf(a.members[i].key, caseSensitive);
              key in x && ((j < |b.members| && Equal(a.members[i].value, b.members[j].value, caseSensitive))
                           <==> (key in y && x[key] == y[key]))
    {
      var j := Find(b.members, a.members[i].key, caseSensitive, 0);
      Lookup(b, a.members[i].key, caseSensitive);
      OwnEntry(a, i, caseSensitive);
      if j < |b.members| {
        MemberHeight(a.members, i);
        MemberHeight(b.members, j);
        EqualIsMapEquality(a.members[i].value, b.members[j].value, caseSensitive, numbers);
      }
    }
    CoversWhen(a, b, caseSensitive);
    SubmapWhen(a, y, caseSensitive);
  }

  lemma OwnEntry(a: Value, i: nat, caseSensitive: bool)
    requires a.Obj? && DistinctKeys(a, caseSensitive) && i < |a.members|
    ensures var key := KeyOf(a.members[i].key, caseSensitive);
            key in Canon(a, caseSensitive).entries
            && Canon(a, caseSensitive).entries[key] == Canon(a.members[i].value, caseSensitive)
  {
    hide KeyOf;
    EntryOf(a, KeyOf(a.members[i].key, caseSensitive), caseSensitive);
  }

  /** The entries of the map are the members. */
  lemma EntryOf(a: Value, key: CString, caseSensitive: bool)
    requires a.Obj? && DistinctKeys(a, caseSensitive)
    ensures var entries := Canon(a, caseSensitive).entries;
            (key in entries <==> exists i :: 0 <= i < |a.members| && KeyOf(a.members[i].key, caseSensitive) == key)
    ensures forall i :: 0 <= i < |a.members| && KeyOf(a.members[i].key, caseSensitive) == key ==>
      key in Canon(a, caseSensitive).entries &&
        Canon(a, caseSensitive).entries[key] == Canon(a.members[i].value, caseSensitive)
  {
    EntriesAre(a.members, |a.members|, key, caseSensitive);
  }

  lemma {:induction false} EntriesAre(members: seq<Member>, n: nat, key: CString, caseSensitive: bool)
    requires DistinctKeys(Obj(members), caseSensitive) && n <= |members|
    ensures var entries := Entries(members, n, caseSensitive);
            (key in entries <==> exists i :: 0 <= i < n && KeyOf(members[i].key, caseSensitive) == key)
    ensures forall i :: 0 <= i < n && KeyOf(members[i].key, caseSensitive) == key ==>
      key in Entries(members, n, caseSensitive)
      && Entries(members, n, caseSensitive)[key] == Canon(members[i].value, caseSensitive)
  {
    hide KeyOf;
    if n > 0 {
      EntriesAre(members, n - 1, key, caseSensitive);
      forall i | 0 <= i < n - 1
        ensures KeyOf(members[i].key, caseSensitive) != KeyOf(members[n - 1].key, caseSensitive)
      {
        assert !SameKey(members[i].key, members[n - 1].key, caseSensitive);
      }
    }
  }

  lemma CoversWhen(a: Value, b: Value, caseSensitive: bool)
    requires a.Obj? && b.Obj?
    ensures Covers(a, b, caseSensitive) <==> forall i :: 0 <= i < |a.members| ==>
      var j := Find(b.members, a.members[i].key, caseSensitive, 0);
      j < |b.members| && Equal(a.members[i].value, b.members[j].value, caseSensitive)
  {
  }

  predicate Submap(x: map<CString, Canonical>, y: map<CString, Canonical>) {
    forall k :: k in x ==> k in y && x[k] == y[k]
  }

  lemma SubmapWhen(a: Value, y: map<CString, Canonical>, caseSensitive: bool)
    requires a.Obj? && DistinctKeys(a, caseSensitive)
    ensures var x := Canon(a, caseSensitive).entries;
      Submap(x, y) <==> forall i :: 0 <= i < |a.members| ==>
        var key := KeyOf(a.members[i].key, caseSensitive);
        key in x && key in y && x[key] == y[key]
  {
    forall i | 0 <= i < |a.members| ensures KeyOf(a.members[i].key, caseSensitive) in Canon(a, caseSensitive).entries {
      OwnEntry(a, i, caseSensitive);
    }
    var x := Canon(a, caseSensitive).entries;
    forall k | k in x ensures exists i :: 0 <= i < |a.members| && KeyOf(a.members[i].key, caseSensitive) == k {
      EntryOf(a, k, caseSensitive);
    }
  }

  lemma {:induction false} ObjectsAreMapEqual(a: Value, b: Value, caseSensitive: bool, numbers: iset<real>)
    requires a.Obj? && b.Obj?
    requires Separate(numbers) && Over(a, numbers) && Over(b, numbers) && DistinctKeys(a, caseSensitive) &&
             DistinctKeys(b, caseSensitive)
    ensures Equal(a, b, caseSensitive) <==> Canon(a, caseSensitive) == Canon(b, caseSensitive)
    decreases Height(a) + Height(b), 1
  {
    hide Covers;
    CoversIsSubmap(a, b, caseSensitive, numbers);
    CoversIsSubmap(b, a, caseSensitive, numbers);
    EqualObjects(a, b, caseSensitive);
    MapsEqual(Canon(a, caseSensitive), Canon(b, caseSensitive));
  }

  lemma EqualObjects(a: Value, b: Value, caseSensitive: bool)
    requires a.Obj? && b.Obj?
    ensures Equal(a, b, caseSensitive) <==> Covers(a, b, caseSensitive) && Covers(b, a, caseSensitive)
  {
  }

  lemma MapsEqual(x: Canonical, y: Canonical)
    requires x.Map? && y.Map?
    ensures x == y <==> Submap(x.entries, y.entries) && Submap(y.entries, x.entries)
  {
    if Submap(x.entries, y.entries) && Submap(y.entries, x.entries) {
      assert x.entries == y.entries;
    }
  }

  /** The comparison is equality of maps on the values over some numbers exactly when it tells these numbers apart. */
  lemma MapEqualityExactlyOver(numbers: iset<real>, caseSensitive: bool)
    ensures Separate(numbers) <==>
      forall a, b ::
        Over(a, numbers) && Over(b, numbers) && DistinctKeys(a, caseSensitive) && DistinctKeys(b, caseSensitive) ==>
        (Equal(a, b, caseSensitive) <==> Canon(a, caseSensitive) == Canon(b, caseSensitive))
  {
    if Separate(numbers) {
      forall a, b | Over(a, numbers) && Over(b, numbers) && DistinctKeys(a, caseSensitive) &&
        DistinctKeys(b, caseSensitive)
        ensures Equal(a, b, caseSensitive) <==> Canon(a, caseSensitive) == Canon(b, caseSensitive)
      {
        EqualIsMapEquality(a, b, caseSensitive, numbers);
      }
    } else {
      var x, y :| x in numbers && y in numbers && SameNumber(x, y) && x != y;
      assert Equal(Number(x), Number(y), caseSensitive) && DistinctKeys(Number(x), caseSensitive) &&
        DistinctKeys(Number(y), caseSensitive);
      assert Canon(Number(x), caseSensitive) == Atom(Number(x)) && Canon(Number(y), caseSensitive) == Atom(Number(y));
    }
  }

  /** On values with distinct keys that print as whole numbers below 10^15 the comparison is equality of maps. */
  lemma PrintableIsMapEquality(a: Value, b: Value, caseSensitive: bool)
    requires Printable(a) && Printable(b) && DistinctKeys(a, caseSensitive) && DistinctKeys(b, caseSensitive)
    ensures Equal(a, b, caseSensitive) <==> Canon(a, caseSensitive) == Canon(b, caseSensitive)
  {
    PrintableIsOverWhole(a);
    PrintableIsOverWhole(b);
    WholeNumbersAreSeparate();
    EqualIsMapEquality(a, b, caseSensitive, WHOLE);
  }

  // ---- reflexivity ------------------------------------------------------------

  /** Members of the same object with the same key have equal values. */
  predicate Coherent(v: Value, caseSensitive: bool) {
    match v
    case Arr(items) => forall i :: 0 <= i < |items| ==> Coherent(items[i], caseSensitive)
    case Obj(members) =>
      (forall i :: 0 <= i < |members| ==> Coherent(members[i].value, caseSensitive)) &&
      (forall i, j :: 0 <= i < j < |members| && SameKey(members[i].key, members[j].key, caseSensitive) ==>
         Equal(members[i].value, members[j].value, caseSensitive))
    case _ => true
  }

  lemma {:induction false} DistinctIsCoherent(v: Value, caseSensitive: bool)
    requires DistinctKeys(v, caseSensitive)
    ensures Coherent(v, caseSensitive)
  {
    hide Equal;
    match v
    case Arr(items) =>
      forall i | 0 <= i < |items|
        ensures Coherent(items[i], caseSensitive)
      {
        DistinctIsCoherent(items[i], caseSensitive);
      }
    case Obj(members) =>
      forall i | 0 <= i < |members| ensures Coherent(members[i].value, caseSensitive) {
        DistinctIsCoherent(members[i].value, caseSensitive);
      }
    case _ =>
  }

  /** A coherent value, with any numbers, equals another copy of itself. */
  lemma {:induction false} CoherentEqualsItself(v: Value, caseSensitive: bool)
    requires Coherent(v, caseSensitive)
    ensures Equal(v, v, caseSensitive)
    decreases v, 1
  {
    match v
    case Arr(items) =>
      forall i | 0 <= i < |items| ensures Equal(items[i], items[i], caseSensitive) {
        CoherentEqualsItself(items[i], caseSensitive);
      }
    case Obj(members) => CoherentCoversItself(v, caseSensitive);
    case _ =>
  }

  lemma {:induction false} CoherentCoversItself(v: Value, caseSensitive: bool)
    requires v.Obj? && Coherent(v, caseSensitive)
    ensures Covers(v, v, caseSensitive)
    decreases v, 0
  {
    hide Equal;
    hide Covers;
    hide SameKey;
    var ms := v.members;
    CoversWhen(v, v, caseSensitive);
    forall i | 0 <= i < |ms|
      ensures var j := Find(ms, ms[i].key, caseSensitive, 0); j < |ms| && Equal(ms[i].value, ms[j].value, caseSensitive)
    {
      FindsItself(ms, i, caseSensitive);
      var j := Find(ms, ms[i].key, caseSensitive, 0);
      CoherentEqualsItself(ms[i].value, caseSensitive);
      KeysAgree(ms[i].key, ms[j].key, caseSensitive);
      EqualIsSymmetric(ms[j].value, ms[i].value, caseSensitive);
    }
  }

  /** A value equals another copy of itself exactly when it is coherent, if its numbers are compared transitively. */
  lemma {:induction false} EqualToItself(v: Value, caseSensitive: bool, numbers: iset<real>)
    requires Transitive(numbers) && Over(v, numbers)
    ensures Equal(v, v, caseSensitive) <==> Coherent(v, caseSensitive)
    decreases v, 1
  {
    if Equal(v, v, caseSensitive) {
      match v
      case Arr(items) =>
        forall i | 0 <= i < |items| ensures Coherent(items[i], caseSensitive) {
          EqualToItself(items[i], caseSensitive, numbers);
        }
      case Obj(members) => CoveringItselfIsCoherent(v, caseSensitive, numbers);
      case _ =>
    }
    if Coherent(v, caseSensitive) {
      CoherentEqualsItself(v, caseSensitive);
    }
  }

  lemma {:induction false} CoveringItselfIsCoherent(v: Value, caseSensitive: bool, numbers: iset<real>)
    requires Transitive(numbers) && Over(v, numbers) && v.Obj? && Covers(v, v, caseSensitive)
    ensures Coherent(v, caseSensitive)
    decreases v, 0
  {
    hide Equal;
    hide Covers;
    hide SameKey;
    hide Find;
    var ms := v.members;
    CoversWhen(v, v, caseSensitive);
    forall i | 0 <= i < |ms| ensures Coherent(ms[i].value, caseSensitive) {
      KeysAgree(ms[i].key, ms[i].key, caseSensitive);
      FirstIsEqual(ms, i, i, caseSensitive, numbers);
      EqualToItself(ms[i].value, caseSensitive, numbers);
    }
    forall i, j | 0 <= i < j < |ms| && SameKey(ms[i].key, ms[j].key, caseSensitive)
      ensures Equal(ms[i].value, ms[j].value, caseSensitive)
    {
      FirstIsEqual(ms, i, j, caseSensitive, numbers);
    }
  }

  lemma KeysAgree(a: CString, b: CString, caseSensitive: bool)
    ensures SameKey(a, b, caseSensitive) <==> SameKey(b, a, caseSensitive)
    ensures SameKey(a, a, caseSensitive)
  {
  }

  lemma FindsItself(ms: seq<Member>, i: nat, caseSensitive: bool)
    requires i < |ms|
    ensures Find(ms, ms[i].key, caseSensitive, 0) <= i
  {
    KeysAgree(ms[i].key, ms[i].key, caseSensitive);
  }

  /** If every member equals the first one under its key, then members with the same key are equal. */
  lemma FirstIsEqual(ms: seq<Member>, i: nat, j: nat, caseSensitive: bool, numbers: iset<real>)
    requires i < |ms| && j < |ms| && SameKey(ms[i].key, ms[j].key, caseSensitive)
    requires Transitive(numbers) && Over(Obj(ms), numbers)
    requires forall k :: 0 <= k < |ms| ==>
      var f := Find(ms, ms[k].key, caseSensitive, 0); f < |ms| && Equal(ms[k].value, ms[f].value, caseSensitive)
    ensures Equal(ms[i].value, ms[j].value, caseSensitive)
  {
    hide Equal;
    FindCongruent(ms, ms[i].key, ms[j].key, caseSensitive, 0);
    var f := Find(ms, ms[i].key, caseSensitive, 0);
    EqualIsSymmetric(ms[j].value, ms[f].value, caseSensitive);
    EqualIsTransitive(ms[i].value, ms[f].value, ms[j].value, caseSensitive, numbers);
  }

  /** Coherence decides this over some numbers exactly when they are compared transitively. */
  lemma CoherenceExactlyOver(numbers: iset<real>, caseSensitive: bool)
    ensures Transitive(numbers) <==>
      forall v :: Over(v, numbers) ==> (Equal(v, v, caseSensitive) <==> Coherent(v, caseSensitive))
  {
    hide Over;
    hide Equal;
    hide Coherent;
    if Transitive(numbers) {
      forall v | Over(v, numbers) ensures Equal(v, v, caseSensitive) <==> Coherent(v, caseSensitive) {
        EqualToItself(v, caseSensitive, numbers);
      }
    } else {
      var x, y, z :| x in numbers && y in numbers && z in numbers && SameNumber(x, y) && SameNumber(y, z) &&
        !SameNumber(x, z);
      ThreeUnderOneKey(x, y, z, caseSensitive);
      OverThree(x, y, z, numbers);
    }
  }

  function Three(x: real, y: real, z: real): Value {
    Obj([Member([0x61], Number(y)), Member([0x61], Number(x)), Member([0x61], Number(z))])
  }

  lemma OverThree(x: real, y: real, z: real, numbers: iset<real>)
    ensures Over(Three(x, y, z), numbers) <==> x in numbers && y in numbers && z in numbers
  {
    var ms := Three(x, y, z).members;
    forall i | 0 <= i < |ms| ensures Over(ms[i].value, numbers) <==> ms[i].value.n in numbers {}
    assert ms[0].value == Number(y) && ms[1].value == Number(x) && ms[2].value == Number(z);
  }

  /** Two numbers that equal the first one, but not each other. */
  lemma ThreeUnderOneKey(x: real, y: real, z: real, caseSensitive: bool)
    requires SameNumber(x, y) && SameNumber(y, z) && !SameNumber(x, z)
    ensures var v := Three(x, y, z);
            Equal(v, v, caseSensitive) && !Coherent(v, caseSensitive)
  {
    hide Equal;
    hide Coherent;
    var ms := Three(x, y, z).members;
    forall i | 0 <= i < |ms|
      ensures Find(ms, ms[i].key, caseSensitive, 0) == 0 && Equal(ms[i].value, ms[0].value, caseSensitive)
    {
      assert ms[i].key == ms[0].key;
      EqualNumbers(y, y, caseSensitive);
      EqualNumbers(x, y, caseSensitive);
      EqualNumbers(z, y, caseSensitive);
    }
    CoversWhen(Obj(ms), Obj(ms), caseSensitive);
    EqualObjects(Obj(ms), Obj(ms), caseSensitive);
    EqualNumbers(x, z, caseSensitive);
    assert !Equal(ms[1].value, ms[2].value, caseSensitive) && SameKey(ms[1].key, ms[2].key, caseSensitive);
    NotCoherent(ms, 1, 2, caseSensitive);
  }

  lemma NotCoherent(ms: seq<Member>, i: nat, j: nat, caseSensitive: bool)
    requires i < j < |ms| && SameKey(ms[i].key, ms[j].key, caseSensitive) &&
             !Equal(ms[i].value, ms[j].value, caseSensitive)
    ensures !Coherent(Obj(ms), caseSensitive)
  {
    hide Equal;
  }

  /** A value that prints as whole numbers below 10^15 equals its own duplicate exactly when it is coherent. */
  lemma PrintableEqualsItself(v: Value, caseSensitive: bool)
    requires Printable(v)
    ensures Equal(v, v, caseSensitive) <==> Coherent(v, caseSensitive)
  {
    PrintableIsOverWhole(v);
    WholeNumbersAreSeparate();
    EqualToItself(v, caseSensitive, WHOLE);
  }

  /** A value that does not equal its own duplicate: two unequal members under one key. */
  lemma EqualToItselfCanFail(caseSensitive: bool)
    ensures var v := Obj([Member([0x61], True), Member([0x61], False)]); !Equal(v, v, caseSensitive)
  {
    var ms := [Member([0x61], True), Member([0x61], False)];
    assert SameKey(ms[0].key, ms[1].key, caseSensitive) && !Equal(ms[0].value, ms[1].value, caseSensitive);
    NotCoherent(ms, 0, 1, caseSensitive);
    assert Over(Obj(ms), iset{});
    EqualToItself(Obj(ms), caseSensitive, iset{});
  }

  /** With distinct keys every value, with any numbers, equals its duplicate. */
  lemma EqualsDuplicate(v: Value, caseSensitive: bool)
    requires DistinctKeys(v, caseSensitive)
    ensures Equal(v, v, caseSensitive)
  {
    DistinctIsCoherent(v, caseSensitive);
    CoherentEqualsItself(v, caseSensitive);
  }
}
