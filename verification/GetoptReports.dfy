/** What one call of getopt reports, element shape by element shape (lib/getopt.c:338-693). */
module GetoptReports {
  import opened Options
  import opened Sequences
  import opened GetoptSpec

  /** A call that starts at element `i`, of which `left` is left, comes to the option text `text` of element `j`. */
  predicate Reaches(cfg: Config, args: seq<string>, i: nat, left: string, j: nat, text: string) {
    text != "" && i <= j < |args| &&
    if left != "" then j == i && text == left
    else
      (forall k :: i <= k < j ==> args[k] == "" || args[k] == "-" || args[k][0] != '-') &&
      if cfg.longopts.Some? then args[j] == "--" + text || (args[j] == "-" + text && text[0] != '-')
      else args[j] == "-" + text && text != "-"
  }

  /** Whether the text is looked up among the long options: behind two dashes, or behind one for
      `getopt_long_only`. */
  predicate IsLong(cfg: Config, element: string) {
    cfg.longopts.Some? && |element| >= 2 && element[0] == '-' && (cfg.longOnly || element[1] == '-')
  }

  /** The call passes by elements i to j - 1, takes `n` elements from `j` on and reports `event`. */
  predicate Emits(s: Step, args: seq<string>, i: nat, j: nat, n: nat, rest: string, event: Event)
    requires i <= j && j + n <= |args|
  {
    s == Emit(args[i..j], args[j..j + n], event, j + n, rest)
  }

  /** The report for a long option: its value, or 0 and a store to its flag. */
  function Chosen(o: LongOption, index: nat, arg: Option<string>): Event {
    match o.flag
    case None => Event(o.val, arg, None, Some(index), None)
    case Some(v) => Event(0, arg, None, Some(index), Some((v, o.val)))
  }

  function Refused(code: char, bad: Option<char>): Event {
    Event(code as int, None, bad, None, None)
  }

  /** The report for an option whose argument is missing. */
  function NoArg(cfg: Config, bad: Option<char>): Event {
    Refused(if cfg.optstring != "" && cfg.optstring[0] == ':' then ':' else '?', bad)
  }

  lemma {:induction false} SkipIs(args: seq<string>, i: nat, j: nat)
    requires i <= j <= |args| && (j < |args| ==> !NonOption(args[j]))
    requires forall k :: i <= k < j ==> args[k] == "" || args[k] == "-" || args[k][0] != '-'
    ensures Skip(args, i) == j
    decreases j - i
  {
    if i < j { SkipIs(args, i + 1, j); }
  }

  lemma StartIs(cfg: Config, s: string, text: string)
    requires text != ""
    requires if cfg.longopts.Some? then s == "--" + text || (s == "-" + text && text[0] != '-')
             else s == "-" + text && text != "-"
    ensures !NonOption(s) && s != "--" && |s| >= 2 && Start(cfg, s) == text
  {
    if s == "-" + text {
      assert s[1..] == text;
      assert |s| == 2 ==> text == [text[0]];
    } else {
      assert s[2..] == text;
    }
  }

  /** The step decodes the text that the call comes to. */
  lemma Reached(cfg: Config, args: seq<string>, i: nat, left: string, j: nat, text: string)
    requires Reaches(cfg, args, i, left, j, text)
    ensures NextStep(cfg, args, i, left) == EmitAt(args, args[i..j], j, Decode(cfg, args, j, text))
  {
    hide Decode;
    StepCases(cfg, args, i, left);
    hide NextStep;
    if left == "" {
      StartIs(cfg, args[j], text);
      SkipIs(args, i, j);
      hide Start;
    }
  }

  // ---- long options -----------------------------------------------------------------

  /** The text behind the dashes: a name, and behind an equals sign its argument. */
  function Spelled(name: string, given: Option<string>): string {
    match given
    case None => name
    case Some(a) => name + "=" + a
  }

  lemma {:induction false} NameIs(name: string, given: Option<string>)
    requires '=' !in name
    ensures NameLength(Spelled(name, given)) == |name| && Spelled(name, given)[..|name|] == name
    ensures given.Some? ==> Spelled(name, given)[|name| + 1..] == given.value
  {
    var text := Spelled(name, given);
    var n := NameLength(text);
    assert forall k :: 0 <= k < |name| ==> text[k] == name[k];
    assert n < |text| ==> text[n] == '=';
    assert given.Some? ==> text[|name|] == '=';
  }

  /** The options of that name, or abbreviated by it, decide. */
  lemma MatchIs(options: seq<LongOption>, name: string, m: LongMatch)
    requires IsMatch(options, name, m)
    ensures MatchLong(options, name) == m
  {
    MatchLongIs(options, name);
    MatchIsUnique(options, name, m, MatchLong(options, name));
  }

  /** A long option `name` that is found as option `index`, with or without an argument behind an equals sign. */
  lemma LongReports(cfg: Config, args: seq<string>, i: nat, left: string, j: nat, name: string, given: Option<string>,
                    index: nat)
    requires '=' !in name && Reaches(cfg, args, i, left, j, Spelled(name, given)) && IsLong(cfg, args[j])
    requires IsMatch(cfg.longopts.value, name, Found(index))
    ensures var s, o := NextStep(cfg, args, i, left), cfg.longopts.value[index];
            if given.Some? then
              Emits(s, args, i, j, 1, "", if o.hasArg == 0 then Refused('?', None) else Chosen(o, index, given))
            else if o.hasArg != 1 then Emits(s, args, i, j, 1, "", Chosen(o, index, None))
            else if j + 1 < |args| then Emits(s, args, i, j, 2, "", Chosen(o, index, Some(args[j + 1])))
            else Emits(s, args, i, j, 1, "", NoArg(cfg, None))
  {
    var text := Spelled(name, given);
    assert index < |cfg.longopts.value|;
    hide IsMatch;
    hide IsLong;
    hide NoArg;
    hide Refused;
    MatchIs(cfg.longopts.value, name, Found(index));
    NameIs(name, given);
    Reached(cfg, args, i, left, j, text);
    ChosenIs(cfg.longopts.value[index], index);
    hide LongEvent;
    hide Chosen;
    hide NextStep;
    hide Reaches;
    hide MatchLong;
    hide Spelled;
  }

  lemma ChosenIs(o: LongOption, index: nat)
    ensures forall arg :: LongEvent(o, index, arg) == Chosen(o, index, arg)
  {
  }

  /** A name that abbreviates more than one option, or none, is refused; except that `getopt_long_only` looks for a
      short option where no long one begins like the text behind a single dash. */
  lemma UnknownReports(cfg: Config, args: seq<string>, i: nat, left: string, j: nat, name: string,
                       given: Option<string>, m: LongMatch)
    requires '=' !in name && Reaches(cfg, args, i, left, j, Spelled(name, given)) && IsLong(cfg, args[j])
    requires IsMatch(cfg.longopts.value, name, m) && !m.Found?
    requires m == NoMatch ==> args[j][1] == '-' || Spelled(name, given)[0] !in cfg.optstring
    ensures Emits(NextStep(cfg, args, i, left), args, i, j, 1, "", Refused('?', None))
  {
    var text := Spelled(name, given);
    hide IsMatch;
    MatchIs(cfg.longopts.value, name, m);
    NameIs(name, given);
    Reached(cfg, args, i, left, j, text);
    hide NextStep;
    hide Reaches;
    hide MatchLong;
    hide Spelled;
  }

  // ---- short options ----------------------------------------------------------------

  /** Whether the text is a cluster of short options: no long option is looked up, or none is found and
      `getopt_long_only` accepts the first character. */
  ghost predicate IsShort(cfg: Config, element: string, text: string)
    requires text != ""
  {
    !IsLong(cfg, element) ||
    (cfg.longOnly && element[1] != '-' && text[0] in cfg.optstring &&
     exists name, given: Option<string> :: '=' !in name && text == Spelled(name, given)
                                           && IsMatch(cfg.longopts.value, name, NoMatch))
  }

  /** `optstring` has the character `c`, for the first time at `k`, with so many colons behind it. */
  predicate Declares(optstring: string, c: char, k: nat, colons: nat) {
    c != ':' && k < |optstring| && optstring[k] == c && (forall j :: 0 <= j < k ==> optstring[j] != c) &&
    if k + 1 == |optstring| || optstring[k + 1] != ':' then colons == 0
    else if k + 2 == |optstring| || optstring[k + 2] != ':' then colons == 1
    else colons == 2
  }

  lemma WantsIs(optstring: string, c: char, k: nat, colons: nat)
    requires Declares(optstring, c, k, colons)
    ensures WantsOf(optstring, c)
         == if colons == 0 then NoArgument else if colons == 1 then RequiredArgument else OptionalArgument
  {
    assert Index(optstring, c) == k;
  }

  lemma ShortIsDecoded(cfg: Config, args: seq<string>, i: nat, left: string, j: nat, text: string)
    requires Reaches(cfg, args, i, left, j, text) && IsShort(cfg, args[j], text)
    ensures NextStep(cfg, args, i, left) == EmitAt(args, args[i..j], j, DecodeShort(cfg, args, j, text))
  {
    Reached(cfg, args, i, left, j, text);
    hide NextStep;
    hide DecodeShort;
    if IsLong(cfg, args[j]) {
      var name, given: Option<string> :| '=' !in name && text == Spelled(name, given)
                                         && IsMatch(cfg.longopts.value, name, NoMatch);
      MatchIs(cfg.longopts.value, name, NoMatch);
      NameIs(name, given);
      hide MatchLong;
      hide IsMatch;
      hide Spelled;
    }
  }

  /** The value of a character as C has it. */
  function CharValue(cfg: Config, c: char): int {
    if cfg.signedChars && c as int > 127 then c as int - 256 else c as int
  }

  lemma DecodedShort(cfg: Config, args: seq<string>, j: nat, c: char, more: string, k: nat, colons: nat)
    requires j < |args| && Declares(cfg.optstring, c, k, colons)
    ensures var plain := Event(CharValue(cfg, c), None, None, None, None);
            DecodeShort(cfg, args, j, [c] + more) ==
            if colons == 0 then Decoded(plain, if more == "" then j + 1 else j, more)
            else if more != "" then Decoded(plain.(arg := Some(more)), j + 1, "")
            else if colons == 2 then Decoded(plain, j + 1, "")
            else if j + 1 < |args| then Decoded(plain.(arg := Some(args[j + 1])), j + 2, "")
            else Decoded(NoArg(cfg, Some(c)), j + 1, "")
  {
    WantsIs(cfg.optstring, c, k, colons);
    assert colons <= 2;
    var text := [c] + more;
    assert text[1..] == more;
    hide WantsOf;
    hide Declares;
  }

  /** A short option that is declared, with what follows it in its element. */
  lemma ShortReports(cfg: Config, args: seq<string>, i: nat, left: string, j: nat, c: char, more: string,
                     k: nat, colons: nat)
    requires Reaches(cfg, args, i, left, j, [c] + more) && IsShort(cfg, args[j], [c] + more)
    requires Declares(cfg.optstring, c, k, colons)
    ensures var s := NextStep(cfg, args, i, left);
            var plain := Event(CharValue(cfg, c), None, None, None, None);
            if colons == 0 then Emits(s, args, i, j, if more == "" then 1 else 0, more, plain)
            else if more != "" then Emits(s, args, i, j, 1, "", plain.(arg := Some(more)))
            else if colons == 2 then Emits(s, args, i, j, 1, "", plain)
            else if j + 1 < |args| then Emits(s, args, i, j, 2, "", plain.(arg := Some(args[j + 1])))
            else Emits(s, args, i, j, 1, "", NoArg(cfg, Some(c)))
  {
    ShortIsDecoded(cfg, args, i, left, j, [c] + more);
    DecodedShort(cfg, args, j, c, more, k, colons);
    hide NextStep;
    hide Reaches;
    hide IsShort;
    hide CharValue;
    hide Declares;
    hide DecodeShort;
    hide NoArg;
  }

  /** A short option that is not declared, or a colon, is refused and named. */
  lemma IllegalReports(cfg: Config, args: seq<string>, i: nat, left: string, j: nat, c: char, more: string)
    requires Reaches(cfg, args, i, left, j, [c] + more) && IsShort(cfg, args[j], [c] + more)
    requires c !in cfg.optstring || c == ':'
    ensures Emits(NextStep(cfg, args, i, left), args, i, j, if more == "" then 1 else 0, more, Refused('?', Some(c)))
  {
    var text := [c] + more;
    assert text[1..] == more;
    ShortIsDecoded(cfg, args, i, left, j, text);
    hide NextStep;
    hide Reaches;
    hide IsShort;
  }

  // ---- the end -----------------------------------------------------------------------

  /** The scan ends when no option is left, or at the first double dash. */
  lemma EndReports(cfg: Config, args: seq<string>, i: nat, j: nat)
    requires i <= j <= |args| && (j < |args| ==> args[j] == "--")
    requires forall k :: i <= k < j ==> args[k] == "" || args[k] == "-" || args[k][0] != '-'
    ensures NextStep(cfg, args, i, "")
         == if j == |args| then End(args[i..], []) else End(args[i..j] + args[j + 1..], ["--"])
  {
    SkipIs(args, i, j);
  }

  /** Every text is a name with or without an argument. */
  lemma NameAndArgument(text: string) returns (name: string, given: Option<string>)
    ensures '=' !in name && text == Spelled(name, given)
  {
    var n := NameLength(text);
    name, given := text[..n], if n < |text| then Some(text[n + 1..]) else None;
    assert n < |text| ==> text == text[..n] + [text[n]] + text[n + 1..];
  }

  /** No other calls are possible: one comes to the text of an option, or to the end. */
  lemma EveryCall(cfg: Config, args: seq<string>, i: nat, left: string) returns (j: nat, text: string)
    requires i <= |args| && (left != "" ==> i < |args|)
    ensures i <= j <= |args|
    ensures Reaches(cfg, args, i, left, j, text) ||
            (left == "" && (j < |args| ==> args[j] == "--")
             && forall k :: i <= k < j ==> args[k] == "" || args[k] == "-" || args[k][0] != '-')
  {
    if left != "" {
      j, text := i, left;
    } else {
      j, text := Skip(args, i), "";
      if j < |args| && args[j] != "--" {
        StartIsNotEmpty(cfg, args[j]);
        text := Start(cfg, args[j]);
        StartText(cfg, args[j]);
      }
    }
  }

  lemma StartText(cfg: Config, s: string)
    requires !NonOption(s) && s != "--" && |s| >= 2
    ensures var text := Start(cfg, s);
            if cfg.longopts.Some? then s == "--" + text || (s == "-" + text && text[0] != '-')
            else s == "-" + text && text != "-"
  {
    assert s[..1] == "-" && s == s[..1] + s[1..];
    assert s[1] == '-' ==> s[..2] == "--" && s == s[..2] + s[2..];
  }

  // ---- clusters ----------------------------------------------------------------------

  /** Every character of `cluster` is declared without an argument. */
  ghost predicate Flags(optstring: string, cluster: string) {
    forall m :: 0 <= m < |cluster| ==> IsFlag(optstring, cluster[m])
  }

  ghost predicate IsFlag(optstring: string, c: char) {
    exists k :: Declares(optstring, c, k, 0)
  }

  /** The reports of a cluster of flags: one for each character, in order. */
  function FlagEvents(cfg: Config, cluster: string): seq<Event> {
    seq(|cluster|, k requires 0 <= k < |cluster| => Event(CharValue(cfg, cluster[k]), None, None, None, None))
  }

  lemma FlagsRest(cfg: Config, c: char, more: string)
    requires Flags(cfg.optstring, [c] + more)
    ensures Flags(cfg.optstring, more)
    ensures FlagEvents(cfg, [c] + more)
         == [Event(CharValue(cfg, c), None, None, None, None)] + FlagEvents(cfg, more)
    ensures more == "" ==> FlagEvents(cfg, more) == []
  {
    forall m | 0 <= m < |more| ensures IsFlag(cfg.optstring, more[m]) {
      assert ([c] + more)[m + 1] == more[m];
    }
  }

  /** From the middle of a cluster of flags the scan reports each of them and goes on with the next element. */
  lemma {:induction false} ClusterReports(cfg: Config, args: seq<string>, i: nat, cluster: string)
    requires i < |args| && cluster != "" && !IsLong(cfg, args[i]) && Flags(cfg.optstring, cluster)
    ensures var s, rest := ScanFrom(cfg, args, i, cluster), ScanFrom(cfg, args, i + 1, "");
            s == Scan(FlagEvents(cfg, cluster) + rest.events, [args[i]] + rest.taken, rest.passed)
    decreases |cluster|
  {
    hide ScanFrom;
    hide NextStep;
    hide IsLong;
    hide Declares;
    var c, more := cluster[0], cluster[1..];
    assert cluster == [c] + more;
    assert IsFlag(cfg.optstring, cluster[0]);
    var k :| Declares(cfg.optstring, c, k, 0);
    ShortReports(cfg, args, i, cluster, i, c, more, k, 0);
    FlagsRest(cfg, c, more);
    hide Flags;
    hide FlagEvents;
    hide CharValue;
    ScanStep(cfg, args, i, cluster);
    var e, rest := Event(CharValue(cfg, c), None, None, None, None), ScanFrom(cfg, args, i + 1, "");
    if more == "" {
      assert [args[i]] == args[i..i + 1];
    } else {
      ClusterReports(cfg, args, i, more);
      Regroup([e], FlagEvents(cfg, more), rest.events);
      assert args[i..i] == [] && [] + ([args[i]] + rest.taken) == [args[i]] + rest.taken;
    }
    assert [] + rest.passed == rest.passed;
  }

  lemma ScanStep(cfg: Config, args: seq<string>, i: nat, rest: string)
    requires i <= |args| && (rest != "" ==> i < |args|) && NextStep(cfg, args, i, rest).Emit?
    ensures var s := NextStep(cfg, args, i, rest);
            var later := ScanFrom(cfg, args, s.next, s.rest);
            ScanFrom(cfg, args, i, rest) ==
            Scan([s.event] + later.events, s.taken + later.taken, s.passed + later.passed)
  {
  }
}
