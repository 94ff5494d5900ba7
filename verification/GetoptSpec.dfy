/** What a scan of the arguments from left to right finds, without any permutation (lib/getopt.c:244-298). */
module GetoptSpec {
  import opened Sequences
  import opened Options

  /** `struct option` (lib/getopt.h:78-90). `flag` names the variable that the option sets, if any. */
  datatype LongOption = LongOption(name: string, hasArg: int, flag: Option<nat>, val: int)

  /** A leading `-` or `+` would choose another mode than PERMUTE (lib/getopt.c:324-333). */
  type Optstring = s: string | s == "" || (s[0] != '-' && s[0] != '+')

  /** The arguments of `_getopt_internal` that stay the same over a run, and whether `char` is signed. */
  datatype Config = Config(optstring: Optstring, longopts: Option<seq<LongOption>>, longOnly: bool, signedChars: bool)

  /** What one call reports: its result, `optarg`, and whatever it sets of `optopt`, `*longind` and a flag. */
  datatype Event = Event(code: int, arg: Option<string>, bad: Option<char>, index: Option<nat>,
                         store: Option<(nat, int)>)

  /** An event, the element at which the scan goes on, and what is left of that element. */
  datatype Decoded = Decoded(event: Event, next: nat, rest: string)

  /** A character as an `int`. */
  function Code(cfg: Config, c: char): int {
    if cfg.signedChars && c as int >= 128 then c as int - 256 else c as int
  }

  /** An element that is no option: it does not start with a dash, or is only a dash. */
  predicate NonOption(s: string) {
    s == "" || s[0] != '-' || s == "-"
  }

  /** The code for an option without its argument. */
  function Missing(cfg: Config): int {
    if cfg.optstring != "" && cfg.optstring[0] == ':' then ':' as int else '?' as int
  }

  // ---- long options --------------------------------------------------------------

  datatype LongMatch = Found(index: nat) | Ambiguous | NoMatch

  predicate Abbreviates(name: string, o: LongOption) {
    name <= o.name
  }

  /** An exact match counts first; without one, the only option that is abbreviated. */
  ghost predicate IsMatch(options: seq<LongOption>, name: string, m: LongMatch) {
    match m
    case Found(i) =>
      i < |options| && Abbreviates(name, options[i]) &&
      (if options[i].name == name then forall j :: 0 <= j < i ==> options[j].name != name
       else (forall j :: 0 <= j < |options| ==> options[j].name != name) &&
            (forall j :: 0 <= j < |options| && j != i ==> !Abbreviates(name, options[j])))
    case Ambiguous =>
      (forall j :: 0 <= j < |options| ==> options[j].name != name) &&
      (exists i, j :: 0 <= i < j < |options| && Abbreviates(name, options[i]) && Abbreviates(name, options[j]))
    case NoMatch => forall j :: 0 <= j < |options| ==> !Abbreviates(name, options[j])
  }

  lemma MatchIsUnique(options: seq<LongOption>, name: string, m: LongMatch, n: LongMatch)
    requires IsMatch(options, name, m) && IsMatch(options, name, n)
    ensures m == n
  {
    if m.Found? && n.Found? {
      assert options[m.index].name == name <==> options[n.index].name == name;
    }
  }

  /** The options from `i` on, given the first abbreviated one before and whether there was a second. */
  function MatchFrom(options: seq<LongOption>, name: string, i: nat, first: Option<nat>, second: bool): LongMatch
    requires i <= |options|
    decreases |options| - i
  {
    if i == |options| then
      if second then Ambiguous else if first.Some? then Found(first.value) else NoMatch
    else if options[i].name == name then Found(i)
    else if !Abbreviates(name, options[i]) then MatchFrom(options, name, i + 1, first, second)
    else if first.None? then MatchFrom(options, name, i + 1, Some(i), second)
    else MatchFrom(options, name, i + 1, first, true)
  }

  function MatchLong(options: seq<LongOption>, name: string): LongMatch {
    MatchFrom(options, name, 0, None, false)
  }

  lemma {:induction false} MatchFromIs(options: seq<LongOption>, name: string, i: nat, first: Option<nat>, second: bool)
    requires i <= |options| && forall j :: 0 <= j < i ==> options[j].name != name
    requires first.None? ==> !second && forall j :: 0 <= j < i ==> !Abbreviates(name, options[j])
    requires first.Some? ==> first.value < i && Abbreviates(name, options[first.value])
    requires first.Some? && !second ==> forall j :: 0 <= j < i && j != first.value ==> !Abbreviates(name, options[j])
    requires second ==> exists j :: 0 <= j < i && j != first.value && Abbreviates(name, options[j])
    ensures IsMatch(options, name, MatchFrom(options, name, i, first, second))
    decreases |options| - i
  {
    if i == |options| {
      if second {
        var j :| 0 <= j < i && j != first.value && Abbreviates(name, options[j]);
        var p, q := if j < first.value then j else first.value, if j < first.value then first.value else j;
        assert 0 <= p < q < |options| && Abbreviates(name, options[p]) && Abbreviates(name, options[q]);
      }
    } else if options[i].name == name {
    } else if !Abbreviates(name, options[i]) {
      MatchFromIs(options, name, i + 1, first, second);
    } else if first.None? {
      MatchFromIs(options, name, i + 1, Some(i), second);
    } else {
      MatchFromIs(options, name, i + 1, first, true);
    }
  }

  lemma MatchLongIs(options: seq<LongOption>, name: string)
    ensures IsMatch(options, name, MatchLong(options, name))
  {
    MatchFromIs(options, name, 0, None, false);
  }

  /** The length of the name: everything before the first `=`. */
  function NameLength(s: string): (n: nat)
    ensures n <= |s| && (n < |s| ==> s[n] == '=') && forall k :: 0 <= k < n ==> s[k] != '='
  {
    if s == "" || s[0] == '=' then 0 else 1 + NameLength(s[1..])
  }

  function Plain(code: int): Event {
    Event(code, None, None, None, None)
  }

  /** A long option that has been found, with its argument. */
  function LongEvent(o: LongOption, index: nat, arg: Option<string>): Event {
    if o.flag.Some? then Event(0, arg, None, Some(index), Some((o.flag.value, o.val)))
    else Event(o.val, arg, None, Some(index), None)
  }

  /** Option `index` with the text `rest` of element `i`, the name of which has length `n` (lines 499-563). */
  function DecodeFound(cfg: Config, args: seq<string>, i: nat, rest: string, n: nat, o: LongOption,
                       index: nat): (d: Decoded)
    requires i < |args| && n <= |rest|
    ensures i < d.next <= |args| && d.rest == ""
  {
    if n < |rest| then
      if o.hasArg != 0 then Decoded(LongEvent(o, index, Some(rest[n + 1..])), i + 1, "")
      else Decoded(Plain('?' as int), i + 1, "")
    else if o.hasArg == 1 then
      if i + 1 < |args| then Decoded(LongEvent(o, index, Some(args[i + 1])), i + 2, "")
      else Decoded(Plain(Missing(cfg)), i + 1, "")
    else Decoded(LongEvent(o, index, None), i + 1, "")
  }

  // ---- short options ----------------------------------------------------------------

  /** The place of an option character; the length of the string if it is not there. */
  function Index(s: string, c: char): (k: nat)
    ensures k <= |s| && (k < |s| ==> s[k] == c) && forall j :: 0 <= j < k ==> s[j] != c
  {
    if s == "" || s[0] == c then 0 else 1 + Index(s[1..], c)
  }

  datatype Wants = Illegal | NoArgument | RequiredArgument | OptionalArgument

  /** What `optstring` says about a character. */
  function WantsOf(optstring: string, c: char): Wants {
    var k := Index(optstring, c);
    if k == |optstring| || c == ':' then Illegal
    else if k + 1 < |optstring| && optstring[k + 1] == ':' then
      if k + 2 < |optstring| && optstring[k + 2] == ':' then OptionalArgument else RequiredArgument
    else NoArgument
  }

  function Short(cfg: Config, c: char, arg: Option<string>): Event {
    Event(Code(cfg, c), arg, None, None, None)
  }

  /** The next character of a cluster of short options (lines 593-693). */
  function DecodeShort(cfg: Config, args: seq<string>, i: nat, rest: string): (d: Decoded)
    requires i < |args| && rest != ""
    ensures i <= d.next <= |args|
    ensures d.rest != "" ==> d.next == i && d.rest == rest[1..]
    ensures d.rest == "" ==> i < d.next
  {
    var c, more := rest[0], rest[1..];
    var after := if more == "" then i + 1 else i;
    match WantsOf(cfg.optstring, c)
    case Illegal => Decoded(Event('?' as int, None, Some(c), None, None), after, more)
    case NoArgument => Decoded(Short(cfg, c, None), after, more)
    case OptionalArgument => if more != "" then Decoded(Short(cfg, c, Some(more)), i + 1, "")
      else Decoded(Short(cfg, c, None), i + 1, "")
    case RequiredArgument =>
      if more != "" then Decoded(Short(cfg, c, Some(more)), i + 1, "")
      else if i + 1 == |args| then Decoded(Event(Missing(cfg), None, Some(c), None, None), i + 1, "")
      else Decoded(Short(cfg, c, Some(args[i + 1])), i + 2, "")
  }

  // ---- one call -----------------------------------------------------------------------

  /** Whether an element may be a long option (lines 441-447). */
  predicate MayBeLong(cfg: Config, s: string) {
    cfg.longopts.Some? && |s| >= 2 && s[0] == '-' && (s[1] == '-' || cfg.longOnly)
  }

  /** What is left of an element when its scan starts (lines 437-438). */
  function Start(cfg: Config, s: string): string
    requires |s| >= 2
  {
    if cfg.longopts.Some? && s[1] == '-' then s[2..] else s[1..]
  }

  /** The option at the start of `rest`, which is left of element `i`. */
  function Decode(cfg: Config, args: seq<string>, i: nat, rest: string): (d: Decoded)
    requires i < |args| && rest != ""
    ensures i <= d.next <= |args|
    ensures d.rest != "" ==> d.next == i && d.rest == rest[1..]
    ensures d.rest == "" ==> i < d.next
  {
    if MayBeLong(cfg, args[i]) then
      var n := NameLength(rest);
      match MatchLong(cfg.longopts.value, rest[..n])
      case Ambiguous => Decoded(Plain('?' as int), i + 1, "")
      case Found(index) =>
        MatchLongIs(cfg.longopts.value, rest[..n]);
        DecodeFound(cfg, args, i, rest, n, cfg.longopts.value[index], index)
      case NoMatch =>
        if !cfg.longOnly || args[i][1] == '-' || Index(cfg.optstring, rest[0]) == |cfg.optstring| then
          Decoded(Plain('?' as int), i + 1, "")
        else DecodeShort(cfg, args, i, rest)
    else DecodeShort(cfg, args, i, rest)
  }

  /** The first element from `i` on that is an option. */
  function Skip(args: seq<string>, i: nat): (j: nat)
    requires i <= |args|
    ensures i <= j <= |args| && (j < |args| ==> !NonOption(args[j]))
    ensures forall k :: i <= k < j ==> NonOption(args[k])
    decreases |args| - i
  {
    if i < |args| && NonOption(args[i]) then Skip(args, i + 1) else i
  }

  /** One call: the elements passed by and taken, and the event or the end of the options. */
  datatype Step =
    | Emit(passed: seq<string>, taken: seq<string>, event: Event, next: nat, rest: string)
    | End(passed: seq<string>, taken: seq<string>)

  /** The step that passes by some elements and then takes those of `d`, which begins at element `j`. */
  function EmitAt(args: seq<string>, passed: seq<string>, j: nat, d: Decoded): Step
    requires j <= d.next <= |args|
  {
    Emit(passed, args[j..d.next], d.event, d.next, d.rest)
  }

  /** How much there is left of element `i`. */
  function Left(args: seq<string>, i: nat, rest: string): nat {
    if rest != "" then |rest| else if i < |args| then |args[i]| else 0
  }

  function NextStep(cfg: Config, args: seq<string>, i: nat, rest: string): (s: Step)
    requires i <= |args| && (rest != "" ==> i < |args|)
    ensures s.Emit? ==> i <= s.next <= |args| && (s.rest != "" ==> s.next < |args|)
    ensures s.Emit? && s.next == i ==> s.rest != "" && |s.rest| < Left(args, i, rest)
  {
    if rest != "" then
      EmitAt(args, [], i, Decode(cfg, args, i, rest))
    else
      var j := Skip(args, i);
      if j == |args| then End(args[i..], [])
      else if args[j] == "--" then End(args[i..j] + args[j + 1..], ["--"])
      else
        StartIsNotEmpty(cfg, args[j]);
        EmitAt(args, args[i..j], j, Decode(cfg, args, j, Start(cfg, args[j])))
  }

  /** The two ways to a step: in the middle of an element, and from the start of one. */
  lemma StepCases(cfg: Config, args: seq<string>, i: nat, rest: string)
    requires i <= |args| && (rest != "" ==> i < |args|)
    ensures rest != "" ==> NextStep(cfg, args, i, rest) == EmitAt(args, [], i, Decode(cfg, args, i, rest))
    ensures rest == "" ==>
      var j, s := Skip(args, i), NextStep(cfg, args, i, rest);
      if j == |args| then s == End(args[i..], [])
      else if args[j] == "--" then s == End(args[i..j] + args[j + 1..], ["--"])
      else Start(cfg, args[j]) != "" && s == EmitAt(args, args[i..j], j, Decode(cfg, args, j, Start(cfg, args[j])))
  {
  }

  lemma StartIsNotEmpty(cfg: Config, s: string)
    requires !NonOption(s) && s != "--"
    ensures |s| >= 2 && Start(cfg, s) != ""
  {
    assert |s| == 2 ==> s == [s[0], s[1]];
  }

  // ---- the whole scan --------------------------------------------------------------------

  /** All events, the elements that belong to options, and the other ones. */
  datatype Scan = Scan(events: seq<Event>, taken: seq<string>, passed: seq<string>)

  function ScanFrom(cfg: Config, args: seq<string>, i: nat, rest: string): Scan
    requires i <= |args| && (rest != "" ==> i < |args|)
    decreases |args| - i, Left(args, i, rest)
  {
    match NextStep(cfg, args, i, rest)
    case End(passed, taken) => Scan([], taken, passed)
    case Emit(passed, taken, event, next, more) =>
      var s := ScanFrom(cfg, args, next, more);
      Scan([event] + s.events, taken + s.taken, passed + s.passed)
  }

  /** `s` is made of `a` and `b`, each in its own order. */
  ghost predicate Interleaved(s: seq<string>, a: seq<string>, b: seq<string>)
    decreases |s|
  {
    if s == [] then a == [] && b == []
    else
      (a != [] && s[0] == a[0] && Interleaved(s[1..], a[1..], b)) ||
      (b != [] && s[0] == b[0] && Interleaved(s[1..], a, b[1..]))
  }

  lemma {:induction false} TakenFirst(a: seq<string>, s: seq<string>, x: seq<string>, y: seq<string>)
    requires Interleaved(s, x, y)
    ensures Interleaved(a + s, a + x, y)
  {
    if a == [] {
      assert a + s == s && a + x == x;
    } else {
      TakenFirst(a[1..], s, x, y);
      assert (a + s)[1..] == a[1..] + s && (a + x)[1..] == a[1..] + x;
    }
  }

  lemma {:induction false} PassedFirst(a: seq<string>, s: seq<string>, x: seq<string>, y: seq<string>)
    requires Interleaved(s, x, y)
    ensures Interleaved(a + s, x, a + y)
  {
    if a == [] {
      assert a + s == s && a + y == y;
    } else {
      PassedFirst(a[1..], s, x, y);
      assert (a + s)[1..] == a[1..] + s && (a + y)[1..] == a[1..] + y;
    }
  }

  /** The elements of one call; `j` is where it stops passing by. */
  lemma StepPieces(cfg: Config, args: seq<string>, i: nat, rest: string) returns (j: nat)
    requires i <= |args| && (rest != "" ==> i < |args|)
    ensures var s := NextStep(cfg, args, i, rest);
            i <= j && j + |s.taken| <= |args| && args[i..] == args[i..j] + (s.taken + args[j + |s.taken|..]) &&
            (s.Emit? ==> s.passed == args[i..j] && s.next == j + |s.taken|) &&
            (s.End? ==> s.passed == args[i..j] + args[j + |s.taken|..])
  {
    hide Decode;
    hide NonOption;
    hide Start;
    j := if rest != "" then i else Skip(args, i);
    var k := j + |NextStep(cfg, args, i, rest).taken|;
    TakenIs(cfg, args, i, rest, j);
    Cut(args, i, j, k);
  }

  lemma TakenIs(cfg: Config, args: seq<string>, i: nat, rest: string, j: nat)
    requires i <= |args| && (rest != "" ==> i < |args|) && j == if rest != "" then i else Skip(args, i)
    ensures var s := NextStep(cfg, args, i, rest); j + |s.taken| <= |args| && s.taken == args[j..j + |s.taken|]
    ensures var s := NextStep(cfg, args, i, rest);
            (s.Emit? ==> s.passed == args[i..j] && s.next == j + |s.taken|) &&
            (s.End? ==> s.passed == args[i..j] + args[j + |s.taken|..])
  {
    hide Decode;
    hide NonOption;
    hide Start;
  }

  lemma Cut(args: seq<string>, i: nat, j: nat, k: nat)
    requires i <= j <= k <= |args|
    ensures args[i..] == args[i..j] + (args[j..k] + args[k..])
  {
  }

  lemma {:induction false} AllPassed(s: seq<string>)
    ensures Interleaved(s, [], s)
  {
    if s != [] { AllPassed(s[1..]); }
  }

  /** The elements that a scan takes and passes by are all the elements, both in their original order. */
  lemma {:induction false} ScanPartitions(cfg: Config, args: seq<string>, i: nat, rest: string)
    requires i <= |args| && (rest != "" ==> i < |args|)
    ensures var s := ScanFrom(cfg, args, i, rest); Interleaved(args[i..], s.taken, s.passed)
    decreases |args| - i, Left(args, i, rest)
  {
    hide NextStep;
    hide Interleaved;
    var j := StepPieces(cfg, args, i, rest);
    match NextStep(cfg, args, i, rest)
    case End(passed, taken) =>
      AllPassed(args[j + |taken|..]);
      TakenFirst(taken, args[j + |taken|..], [], args[j + |taken|..]);
      PassedFirst(args[i..j], taken + args[j + |taken|..], taken + [], args[j + |taken|..]);
      assert taken + [] == taken;
    case Emit(passed, taken, event, next, more) =>
      var s := ScanFrom(cfg, args, next, more);
      ScanPartitions(cfg, args, next, more);
      TakenFirst(taken, args[next..], s.taken, s.passed);
      PassedFirst(passed, taken + args[next..], taken + s.taken, s.passed);
  }

  /** The step that ends the scan. */
  function LastStep(cfg: Config, args: seq<string>, i: nat, rest: string): (s: Step)
    requires i <= |args| && (rest != "" ==> i < |args|)
    ensures s.End?
    decreases |args| - i, Left(args, i, rest)
  {
    var s := NextStep(cfg, args, i, rest);
    if s.End? then s else LastStep(cfg, args, s.next, s.rest)
  }

  lemma StepPasses(cfg: Config, args: seq<string>, i: nat, rest: string) returns (j: nat)
    requires i <= |args| && (rest != "" ==> i < |args|)
    ensures i <= j <= |args| && forall x | x in args[i..j] :: NonOption(x)
    ensures var s := NextStep(cfg, args, i, rest);
            if s.Emit? then s.passed == args[i..j]
            else if j == |args| then s == End(args[i..j] + args[j..], [])
            else s == End(args[i..j] + args[j + 1..], ["--"]) && args[j] == "--"
  {
    hide Decode;
    hide NonOption;
    StepCases(cfg, args, i, rest);
    hide NextStep;
    j := if rest != "" then i else Skip(args, i);
    assert args[i..] == args[i..j] + args[j..];
  }

  /** A scan that ends with the arguments passes by non-options only; one that ends at `--` passes by non-options and
      then everything behind that element, from element `e` on. */
  lemma {:induction false} PassedAreNonOptions(cfg: Config, args: seq<string>, i: nat, rest: string)
    returns (front: seq<string>, e: nat)
    requires i <= |args| && (rest != "" ==> i < |args|)
    ensures i <= e <= |args| && ScanFrom(cfg, args, i, rest).passed == front + args[e..]
    ensures forall x | x in front :: NonOption(x)
    ensures var taken := LastStep(cfg, args, i, rest).taken;
            (taken == [] && e == |args|) || (taken == ["--"] && i < e && args[e - 1] == "--")
    decreases |args| - i, Left(args, i, rest)
  {
    hide NextStep;
    hide NonOption;
    var j := StepPasses(cfg, args, i, rest);
    match NextStep(cfg, args, i, rest)
    case End(passed, taken) => front, e := args[i..j], if j == |args| then j else j + 1;
    case Emit(passed, taken, event, next, more) =>
      var later;
      later, e := PassedAreNonOptions(cfg, args, next, more);
      front := passed + later;
      Regroup(passed, later, args[e..]);
  }
}
