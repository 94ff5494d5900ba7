/** Whole runs of a program that parses, creates, copies and edits trees: every tree that it holds has complete child
    lists, and stands for the value that the same edits of values give. */
module JsonRun {
  import opened Bytes
  import opened JsonValue
  import opened JsonItem
  import opened JsonList
  import opened JsonBuild
  import opened Options
  import opened JsonCompare
  import opened JsonPath
  import opened JsonParser
  import G = JsonGrammar

  // ---- the same on values -------------------------------------------------------------

  /** What a tree stands for, and what is known of its key. */
  datatype Form = Form(value: Value, tag: Tag)

  /** One call. The numbers `p` and `i` name trees that the program holds, and a path leads to a node below. */
  datatype Command =
    | Parse(text: CString, requireEnd: bool)
    | CreateNumbers(numbers: seq<real>)
    | Copy(i: nat, path: seq<nat>)
    | Delete(i: nat)
    | Give(p: nat, path: seq<nat>, gift: Gift, i: nat)
    | Take(p: nat, path: seq<nat>, grip: Grip)

  /** The call names nodes of the right kind, and gives a tree, with a key if it needs one, to another tree. */
  predicate Enabled(fs: seq<Form>, c: Command) {
    match c
    case Parse(_, _) => true
    case CreateNumbers(_) => true
    case Copy(i, path) => i < |fs| && Leads(fs[i].value, path)
    case Delete(i) => i < |fs|
    case Give(p, path, gift, i) =>
      p < |fs| && i < |fs| && p != i && Leads(fs[p].value, path) && Fits(ValueAt(fs[p].value, path), gift) &&
      Keyed(ValueAt(fs[p].value, path), gift, KnownKey(fs[i].tag))
    case Take(p, path, grip) => p < |fs| && Leads(fs[p].value, path) && Holds(ValueAt(fs[p].value, path), grip)
  }

  /** What the trees stand for after a call: a tree that is given away becomes part of another one, and a part that is
      taken out becomes a tree of its own. */
  ghost function Apply(fs: seq<Form>, c: Command): seq<Form>
    requires Enabled(fs, c)
  {
    match c
    case Parse(text, requireEnd) =>
      var r := G.Parse(text, requireEnd);
      if r.Parsed? then fs + [Form(r.value, Known(None))] else fs
    case CreateNumbers(numbers) => fs + [Form(Arr(Numbers(numbers)), Known(None))]
    case Copy(i, path) => fs + [Form(ValueAt(fs[i].value, path), TagAt(fs[i].value, path, fs[i].tag))]
    case Delete(i) => Removed(fs, i)
    case Give(p, path, gift, i) =>
      if Accepted(ValueAt(fs[p].value, path), gift) then Removed(fs[p := Grown(fs[p], path, gift, fs[i])], i)
      else fs[i := Renamed(fs[i], gift)]
    case Take(p, path, grip) =>
      var v := ValueAt(fs[p].value, path);
      if Found(v, grip) then fs[p := Shrunk(fs[p], path, grip)] + [Part(v, grip)] else fs
  }

  function Grown(f: Form, path: seq<nat>, gift: Gift, x: Form): Form
    requires Leads(f.value, path) && Fits(ValueAt(f.value, path), gift)
  {
    f.(value := WithValueAt(f.value, path, Given(ValueAt(f.value, path), gift, KnownKey(x.tag), x.value)))
  }

  function Shrunk(f: Form, path: seq<nat>, grip: Grip): Form
    requires Leads(f.value, path) && Holds(ValueAt(f.value, path), grip)
  {
    f.(value := WithValueAt(f.value, path, Without(ValueAt(f.value, path), grip)))
  }

  function Part(v: Value, grip: Grip): Form
    requires Holds(v, grip) && Found(v, grip)
  {
    Form(Kid(v, Place(v, grip)), KidTag(v, Place(v, grip)))
  }

  /** A tree that has been refused may have got a key all the same. */
  function Renamed(x: Form, gift: Gift): Form {
    if NewKey(gift, None).Some? then x.(tag := Known(NewKey(gift, None))) else x
  }

  ghost predicate Possible(fs: seq<Form>, commands: seq<Command>)
    decreases |commands|
  {
    commands == [] || (Enabled(fs, commands[0]) && Possible(Apply(fs, commands[0]), commands[1..]))
  }

  ghost function ApplyAll(fs: seq<Form>, commands: seq<Command>): seq<Form>
    requires Possible(fs, commands)
    decreases |commands|
  {
    if commands == [] then fs else ApplyAll(Apply(fs, commands[0]), commands[1..])
  }

  // ---- on trees in memory ---------------------------------------------------------------

  /** `t` is a whole tree that stands for `v`, in no list, with nodes among `nodes`. */
  ghost predicate Stands(t: Item, v: Form, nodes: set<Item>)
    reads t, nodes
  {
    t in nodes && t.repr <= nodes && t.Valid() && Loose(t) && t.val == v.value && Wears(t, v.tag)
  }

  /** The trees with what they stand for; no two of them share nodes. */
  ghost predicate Collection(trees: seq<Item>, forms: seq<Form>, nodes: set<Item>)
    reads nodes
  {
    |forms| == |trees| &&
    (forall i :: 0 <= i < |trees| ==> trees[i] in nodes && Stands(trees[i], forms[i], nodes)) &&
    (forall i, j :: 0 <= i < j < |trees| ==> trees[i].repr !! trees[j].repr)
  }

  lemma Two(trees: seq<Item>, forms: seq<Form>, nodes: set<Item>, p: nat, i: nat)
    requires Collection(trees, forms, nodes) && p < |trees| && i < |trees|
    ensures Stands(trees[p], forms[p], nodes) && Stands(trees[i], forms[i], nodes)
    ensures p != i ==> trees[p].repr !! trees[i].repr && trees[p] != trees[i]
    ensures trees[p] in trees[p].repr && trees[p] !in trees[p].kids && forall k | k in trees[p].kids ::
            k in trees[p].repr
    ensures trees[i] in trees[i].repr
  {
    SelfInside(trees[p]);
    SelfInside(trees[i]);
  }

  /** All trees but `p` and `i` stand for what they did, and share no nodes with `touched` or among each other. */
  ghost predicate Others(trees: seq<Item>, forms: seq<Form>, nodes: set<Item>, p: nat, i: nat, touched: set<Item>)
    reads nodes
  {
    |forms| == |trees| && p < |trees| && i < |trees| &&
    (forall j :: 0 <= j < |trees| && j != p && j != i ==>
       trees[j] in nodes && Stands(trees[j], forms[j], nodes) && trees[j].repr !! touched) &&
    (forall j, k ::
       0 <= j < k < |trees| && j != p && j != i && k != p && k != i && trees[j] in nodes && trees[k] in nodes ==>
       trees[j].repr !! trees[k].repr)
  }

  /** What a call works on: all trees, and the two that it names. */
  datatype Scene = Scene(trees: seq<Item>, forms: seq<Form>, nodes: set<Item>, p: nat, i: nat)

  /** Nothing but the nodes of two trees has changed. */
  twostate lemma OthersStand(s: Scene)
    requires old(Collection(s.trees, s.forms, s.nodes)) && s.p < |s.trees| && s.i < |s.trees|
    requires forall o | o in s.nodes && o !in old(s.trees[s.p].repr) && o !in old(s.trees[s.i].repr) :: unchanged(o)
    ensures Others(s.trees, s.forms, s.nodes, s.p, s.i, old(s.trees[s.p].repr) + old(s.trees[s.i].repr))
  {
    forall j | 0 <= j < |s.trees| && j != s.p && j != s.i
      ensures Stands(s.trees[j], s.forms[j], s.nodes) && s.trees[j].repr == old(s.trees[j].repr)
      ensures s.trees[j].repr !! old(s.trees[s.p].repr) && s.trees[j].repr !! old(s.trees[s.i].repr)
    {
      assert old(Stands(s.trees[j], s.forms[j], s.nodes));
      assert old(s.trees[j].repr !! s.trees[s.p].repr && s.trees[j].repr !! s.trees[s.i].repr);
    }
  }

  /** Tree `i` has become part of tree `p`. */
  lemma AfterMove(trees: seq<Item>, forms: seq<Form>, nodes: set<Item>, p: nat, i: nat, v: Form, touched: set<Item>)
    requires Others(trees, forms, nodes, p, i, touched) && p != i
    requires Stands(trees[p], v, nodes) && trees[p].repr <= touched
    ensures Collection(Removed(trees, i), Removed(forms[p := v], i), nodes)
  {
    hide Stands;
    assert trees[p] in nodes by { InNodes(trees[p], v, nodes); }
  }

  /** `q` has become a tree of its own. */
  lemma AfterSplit(trees: seq<Item>, forms: seq<Form>, nodes: set<Item>, p: nat, v: Form, q: Item,
                   x: Form, touched: set<Item>)
    requires Others(trees, forms, nodes, p, p, touched)
    requires Stands(trees[p], v, nodes) && Stands(q, x, nodes) && q.repr !! trees[p].repr
    requires trees[p].repr <= touched && q.repr <= touched
    ensures Collection(trees + [q], forms[p := v] + [x], nodes)
  {
    hide Stands;
    InNodes(trees[p], v, nodes);
    InNodes(q, x, nodes);
  }

  /** Both trees are still there, and tree `i` stands for `x` now. */
  lemma AfterNothing(trees: seq<Item>, forms: seq<Form>, nodes: set<Item>, p: nat, i: nat, x: Form, touched: set<Item>)
    requires Others(trees, forms, nodes, p, i, touched)
    requires Stands(trees[p], forms[p], nodes) && Stands(trees[i], x, nodes)
    requires trees[p].repr <= touched && trees[i].repr <= touched && (p != i ==> trees[p].repr !! trees[i].repr)
    ensures Collection(trees, forms[i := x], nodes)
  {
    hide Stands;
    InNodes(trees[p], forms[p], nodes);
    InNodes(trees[i], x, nodes);
  }

  lemma InNodes(t: Item, v: Form, nodes: set<Item>)
    requires Stands(t, v, nodes)
    ensures t in nodes
  {
  }

  /** The program and the trees that it holds, which share no nodes. */
  class Program {
    var trees: seq<Item>
    ghost var nodes: set<Item>
    ghost var forms: seq<Form>

    constructor ()
      ensures Valid() && forms == [] && fresh(nodes)
    {
      trees, nodes, forms := [], {}, [];
    }

    ghost predicate Valid()
      reads this, nodes
    {
      Collection(trees, forms, nodes)
    }

    /** A new tree. */
    method Put(t: Item, ghost tag: Tag)
      requires Valid() && t.Valid() && t.repr !! nodes && Loose(t) && Wears(t, tag)
      modifies this
      ensures Valid() && forms == old(forms) + [Form(t.val, tag)] && nodes == old(nodes) + t.repr
    {
      SelfInside(t);
      trees, forms, nodes := trees + [t], forms + [Form(t.val, tag)], nodes + t.repr;
    }

    /** Tree `p`, which stands for `v` now, has taken over nodes of tree `i`. */
    ghost predicate Joined(p: nat, i: nat, v: Form, touched: set<Item>)
      reads this, nodes
    {
      Others(trees, forms, nodes, p, i, touched) && p != i && trees[p] in nodes && Stands(trees[p], v, nodes)
      && trees[p].repr <= touched
    }

    /** Forgets tree `i`, which has become part of tree `p`. */
    method Join(p: nat, i: nat, ghost v: Form, ghost touched: set<Item>)
      requires Joined(p, i, v, touched)
      modifies this`trees, this`forms
      ensures Valid() && forms == Removed(old(forms)[p := v], i)
    {
      AfterMove(trees, forms, nodes, p, i, v, touched);
      trees, forms := Removed(trees, i), Removed(forms[p := v], i);
    }

    /** Keeps `q`, which was part of tree `p`, as a tree of its own. */
    method Divide(p: nat, q: Item, ghost v: Form, ghost x: Form, ghost touched: set<Item>)
      requires Others(trees, forms, nodes, p, p, touched) && trees[p] in nodes && Stands(trees[p], v, nodes)
      requires q in nodes && Stands(q, x, nodes) && q.repr !! trees[p].repr
      requires trees[p].repr <= touched && q.repr <= touched
      modifies this`trees, this`forms
      ensures Valid() && forms == old(forms)[p := v] + [x]
    {
      AfterSplit(trees, forms, nodes, p, v, q, x, touched);
      trees, forms := trees + [q], forms[p := v] + [x];
    }

    /** A call that gives tree `i` to a container in tree `p`. */
    method Give(p: nat, path: seq<nat>, gift: Gift, i: nat)
      requires Valid() && Enabled(forms, Command.Give(p, path, gift, i))
      modifies this, nodes
      ensures Valid() && nodes == old(nodes) && forms == Apply(old(forms), Command.Give(p, path, gift, i))
    {
      hide Item.Valid;
      hide Fits;
      hide Accepted;
      hide Given;
      hide Keyed;
      Two(trees, forms, nodes, p, i);
      KeyUnused(ValueAt(forms[p].value, path), gift, forms[i].tag, trees[i].key, forms[i].value);
      ghost var scene, touched := Scene(trees, forms, nodes, p, i), trees[p].repr + trees[i].repr;
      var ok := GiveBelow(trees[p], path, gift, trees[i]);
      OthersStand(scene);
      if ok {
        Join(p, i, Grown(forms[p], path, gift, forms[i]), touched);
      } else {
        Refused(forms[p], path, gift, forms[i]);
        AfterNothing(trees, forms, nodes, p, i, Renamed(forms[i], gift), touched);
        forms := forms[i := Renamed(forms[i], gift)];
      }
    }

    /** A call that takes a part out of a container in tree `p`. */
    method Take(p: nat, path: seq<nat>, grip: Grip)
      requires Valid() && Enabled(forms, Command.Take(p, path, grip))
      modifies this, nodes
      ensures Valid() && nodes == old(nodes) && forms == Apply(old(forms), Command.Take(p, path, grip))
    {
      hide Item.Valid;
      hide Holds;
      hide Found;
      hide Place;
      Two(trees, forms, nodes, p, p);
      ghost var scene, touched := Scene(trees, forms, nodes, p, p), trees[p].repr + trees[p].repr;
      ghost var v := ValueAt(forms[p].value, path);
      var part := TakeBelow(trees[p], path, grip);
      OthersStand(scene);
      if part == null {
        NotFound(forms[p], path, grip);
        AfterNothing(trees, forms, nodes, p, p, forms[p], touched);
      } else {
        SelfInside(part);
        Divide(p, part, Shrunk(forms[p], path, grip), Part(v, grip), touched);
      }
    }

    /** Calls that change no tree: parsing, creating, copying and deleting. */
    method Make(c: Command)
      requires Valid() && Enabled(forms, c) && (c.Parse? || c.CreateNumbers? || c.Copy? || c.Delete?)
      modifies this
      ensures Valid() && old(nodes) <= nodes && fresh(nodes - old(nodes)) && forms == Apply(old(forms), c)
    {
      hide Item.Valid;
      hide Linked;
      match c
      case Parse(text, requireEnd) =>
        var t, _ := ParseWithOpts(text, requireEnd);
        if t != null { Put(t, Known(None)); }
      case CreateNumbers(numbers) =>
        var t := CreateDoubleArray(numbers);
        Put(t, Known(None));
      case Copy(i, path) =>
        Two(trees, forms, nodes, i, i);
        ghost var tag := TagAt(forms[i].value, path, forms[i].tag);
        var n := NodeAt(trees[i], path, forms[i].tag);
        var t := JsonBuild.Duplicate(n, true);
        Put(t, tag);
      case Delete(i) =>
        trees, forms := Removed(trees, i), Removed(forms, i);
    }

    method Execute(c: Command)
      requires Valid() && Enabled(forms, c)
      modifies this, nodes
      ensures Valid() && old(nodes) <= nodes && fresh(nodes - old(nodes)) && forms == Apply(old(forms), c)
    {
      hide Apply;
      hide Collection;
      match c
      case Give(p, path, gift, i) => Give(p, path, gift, i);
      case Take(p, path, grip) => Take(p, path, grip);
      case _ => Make(c);
    }

    /** A whole run. */
    method Run(commands: seq<Command>)
      requires Valid() && Possible(forms, commands)
      modifies this, nodes
      ensures Valid() && forms == ApplyAll(old(forms), commands)
    {
      hide Apply;
      hide Enabled;
      hide Collection;
      var n := 0;
      while n < |commands|
        invariant 0 <= n <= |commands| && Valid() && old(nodes) <= nodes && fresh(nodes - old(nodes))
        invariant Possible(forms, commands[n..]) && ApplyAll(forms, commands[n..]) == ApplyAll(old(forms), commands)
      {
        assert commands[n..][0] == commands[n] && commands[n..][1..] == commands[n + 1..];
        Execute(commands[n]);
        n := n + 1;
      }
    }
  }

  /** Every child list in a tree that stands is complete: `next` and `prev` are inverse to each other, `prev` of the
      head is the tail, and `next` of the tail is NULL. */
  lemma EveryListIsComplete(t: Item, x: Item)
    requires t.Valid() && (x == t || Below(t, x))
    ensures x.Valid() && x.child == if x.kids == [] then null else x.kids[0]
    ensures forall i :: 0 <= i < |x.kids| ==> x.kids[i].next == if i + 1 < |x.kids| then x.kids[i + 1] else null
    ensures forall k | k in x.kids && k.next != null :: k.next.prev == k
    ensures x.child != null ==> x.child.prev == x.kids[|x.kids| - 1]
  {
    if x != t { BelowIsWithin(t, x); }
    forall i | 0 <= i < |x.kids| ensures x.kids[i].next == if i + 1 < |x.kids| then x.kids[i + 1] else null {
      KidAt(x, i);
    }
  }

  lemma Refused(f: Form, path: seq<nat>, gift: Gift, x: Form)
    requires Leads(f.value, path) && Fits(ValueAt(f.value, path), gift) && !Accepted(ValueAt(f.value, path), gift)
    ensures forall key :: WithValueAt(f.value, path, Given(ValueAt(f.value, path), gift, key, x.value)) == f.value
  {
    Unchanged(f.value, path);
  }

  lemma NotFound(f: Form, path: seq<nat>, grip: Grip)
    requires Leads(f.value, path) && Holds(ValueAt(f.value, path), grip) && !Found(ValueAt(f.value, path), grip)
    ensures Shrunk(f, path, grip) == f
  {
    Unchanged(f.value, path);
  }

  /** Putting back what is there already changes nothing. */
  lemma {:induction false} Unchanged(v: Value, path: seq<nat>)
    requires Leads(v, path)
    ensures WithValueAt(v, path, ValueAt(v, path)) == v
    decreases |path|
  {
    if path != [] {
      Unchanged(Kid(v, path[0]), path[1..]);
    }
  }
}
