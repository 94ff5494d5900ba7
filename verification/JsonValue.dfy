/** The values a cJSON tree stands for (lib/cJSON.h:87-127). */
module JsonValue {
  import opened Bytes

  /** One value. Numbers are the exact reals behind `valuedouble`; strings and keys are C strings. */
  datatype Value =
    | Null
    | False
    | True
    | Number(n: real)
    | Str(s: CString)
    | Arr(items: seq<Value>)
    | Obj(members: seq<Member>)

  datatype Member = Member(key: CString, value: Value)

  /** The nesting limit of the parser (lib/cJSON.h:136-138). */
  const NESTING_LIMIT := 1000

  function Max(a: nat, b: nat): nat {
    if a < b then b else a
  }

  /** How many arrays and objects are nested inside each other, at most. */
  function Height(v: Value): nat {
    match v
    case Arr(items) => 1 + ItemsHeight(items, 0)
    case Obj(members) => 1 + MembersHeight(members, 0)
    case _ => 0
  }

  function ItemsHeight(items: seq<Value>, i: nat): nat
    decreases items, |items| - i
  {
    if i >= |items| then 0 else Max(Height(items[i]), ItemsHeight(items, i + 1))
  }

  function MembersHeight(members: seq<Member>, i: nat): nat
    decreases members, |members| - i
  {
    if i >= |members| then 0 else Max(Height(members[i].value), MembersHeight(members, i + 1))
  }

  /** Numbers that `%1.15g` renders as plain decimal digits. */
  predicate Printable(v: Value) {
    match v
    case Number(n) => -1000000000000000.0 < n < 1000000000000000.0 && n == n.Floor as real
    case Arr(items) => forall i :: 0 <= i < |items| ==> Printable(items[i])
    case Obj(members) => forall i :: 0 <= i < |members| ==> Printable(members[i].value)
    case _ => true
  }
}
