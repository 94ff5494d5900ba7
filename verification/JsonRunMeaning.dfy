/** What each call of a run does to the trees that the program holds, one by one. */
module JsonRunMeaning {
  import opened Bytes
  import opened Options
  import opened JsonValue
  import opened JsonPath
  import G = JsonGrammar
  import D = JsonDocument
  import opened JsonRun

  /** Tree `k` after tree `i` has gone. */
  function Moved(k: nat, i: nat): nat
    requires k != i
  {
    if k < i then k else k - 1
  }

  /** A tree for the value that the text stands for is new, if the text stands for one. */
  lemma ParsingIs(fs: seq<Form>, text: CString, requireEnd: bool, v: Value, end: nat)
    ensures D.DocumentIs(text, requireEnd, v, end) ==>
              Apply(fs, Parse(text, requireEnd)) == fs + [Form(v, Known(None))]
    ensures (forall w, e :: !D.DocumentIs(text, requireEnd, w, e)) ==> Apply(fs, Parse(text, requireEnd)) == fs
  {
    hide G.Parse;
    hide D.DocumentIs;
    D.ParsesExactly(text, requireEnd, v, end);
    var r := G.Parse(text, requireEnd);
    if r.Parsed? { D.ParsesExactly(text, requireEnd, r.value, r.off); }
  }

  /** The numbers in order are a new tree. */
  lemma CreatingIs(fs: seq<Form>, numbers: seq<real>)
    ensures var r := Apply(fs, CreateNumbers(numbers));
            |r| == |fs| + 1 && r[..|fs|] == fs && r[|fs|].value.Arr? && |r[|fs|].value.items| == |numbers|
            && forall k :: 0 <= k < |numbers| ==> r[|fs|].value.items[k] == Number(numbers[k])
  {
  }

  /** A copy of the value at the place is new, and nothing else changes. */
  lemma CopyingIs(fs: seq<Form>, i: nat, path: seq<nat>)
    requires i < |fs| && Leads(fs[i].value, path)
    ensures var r := Apply(fs, Copy(i, path));
            |r| == |fs| + 1 && r[..|fs|] == fs && r[|fs|].value == ValueAt(fs[i].value, path)
  {
    hide ValueAt;
    hide Leads;
  }

  /** One tree goes, the others stay in order. */
  lemma DeletingIs(fs: seq<Form>, i: nat, k: nat)
    requires i < |fs| && k < |fs| && k != i
    ensures var r := Apply(fs, Delete(i)); |r| == |fs| - 1 && r[Moved(k, i)] == fs[k]
  {
  }

  /** The tree that is given away goes, the one that takes it has changed at that place alone, and all others stay;
      refused, every value stays. */
  lemma GivingIs(fs: seq<Form>, p: nat, path: seq<nat>, gift: Gift, i: nat, k: nat)
    requires Enabled(fs, Give(p, path, gift, i)) && k < |fs|
    ensures var r, v := Apply(fs, Give(p, path, gift, i)), ValueAt(fs[p].value, path);
            if Accepted(v, gift) then
              |r| == |fs| - 1 && (k != p && k != i ==> r[Moved(k, i)] == fs[k])
              && r[Moved(p, i)].value
                 == WithValueAt(fs[p].value, path, Given(v, gift, KnownKey(fs[i].tag), fs[i].value))
            else |r| == |fs| && r[k].value == fs[k].value
  {
    hide ValueAt;
    hide WithValueAt;
    hide Leads;
    hide Accepted;
    hide Given;
  }

  /** The part that is taken out is a new tree, the one that had it has changed at that place alone, and all others
      stay; where there is no such part, nothing changes. */
  lemma TakingIs(fs: seq<Form>, p: nat, path: seq<nat>, grip: Grip, k: nat)
    requires Enabled(fs, Take(p, path, grip)) && k < |fs|
    ensures var r, v := Apply(fs, Take(p, path, grip)), ValueAt(fs[p].value, path);
            if Found(v, grip) then
              |r| == |fs| + 1 && (k != p ==> r[k] == fs[k]) && r[|fs|].value == Kid(v, Place(v, grip))
              && r[p].value == WithValueAt(fs[p].value, path, Without(v, grip))
            else r == fs
  {
    hide ValueAt;
    hide WithValueAt;
    hide Leads;
    hide Without;
  }
}
