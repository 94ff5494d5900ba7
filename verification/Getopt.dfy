/** `_getopt_internal` (lib/getopt.c:221-694) in PERMUTE mode. */
module Getopt {
  import opened Sequences
  import opened Options
  import opened GetoptSpec

  class Scanner {
    /** The global variables (lib/getopt.c:84-210) and the caller's ARGV. A `nextchar` that is NULL counts as empty. */
    var optarg: Option<string>
    var optind: nat
    var nextchar: string
    var optopt: char
    var firstNonopt: nat
    var lastNonopt: nat
    const argv: array<string>
    var longind: Option<nat>
    var flags: map<nat, int>

    /** The original ARGV, and its elements so far by kind. */
    ghost const orig: seq<string>
    ghost var taken: seq<string>
    ghost var passed: seq<string>

    constructor (args: array<string>)
      requires args.Length >= 1
      ensures argv == args && orig == args[..] && optind == 0
    {
      optarg, optind, nextchar, optopt := None, 0, "", '?';
      firstNonopt, lastNonopt := 0, 0;
      argv := args;
      longind, flags := None, map[];
      orig := args[..];
      taken, passed := [], [];
    }

    /** The elements before `optind` are the program name, the options before the skipped non-options,
        these non-options, and the options after them; the ones from `optind` on are untouched. */
    ghost predicate Arranged()
      reads this`optind, this`firstNonopt, this`lastNonopt, this`taken, this`passed, argv
    {
      ArrangedAt(optind)
    }

    /** The same with `i` in place of `optind`. */
    ghost predicate ArrangedAt(i: nat)
      reads this`firstNonopt, this`lastNonopt, this`taken, this`passed, argv
    {
      |orig| == argv.Length && 1 <= firstNonopt <= lastNonopt <= i <= argv.Length &&
      argv[..1] == orig[..1] && argv[i..] == orig[i..] &&
      passed == argv[firstNonopt..lastNonopt] && taken == argv[1..firstNonopt] + argv[lastNonopt..i]
    }

    ghost predicate Valid()
      reads this`optind, this`nextchar, this`firstNonopt, this`lastNonopt, this`taken, this`passed, argv
    {
      Arranged() && (nextchar != "" ==> optind < argv.Length && !NonOption(orig[optind]))
    }

    /** `optind++`: the element is taken as an option or as the argument of one. */
    method NextElement()
      requires Arranged() && optind < argv.Length
      modifies this`optind, this`taken
      ensures Arranged() && optind == old(optind) + 1 && taken == old(taken) + orig[old(optind)..optind]
    {
      ghost var i := optind;
      Untouched(i);
      optind := optind + 1;
      taken := taken + orig[i..i + 1];
      assert argv[lastNonopt..i + 1] == argv[lastNonopt..i] + argv[i..i + 1];
      assert argv[i + 1..] == argv[i..][1..] && orig[i + 1..] == orig[i..][1..];
    }

    /** `optind++` after the elements from `i` on have been taken. */
    method NextAfter(ghost i: nat, ghost was: seq<string>)
      requires Arranged() && i <= optind < argv.Length && taken == was + orig[i..optind]
      modifies this`optind, this`taken
      ensures Arranged() && optind == old(optind) + 1 && taken == was + orig[i..optind]
    {
      hide ArrangedAt;
      ValidShape();
      ghost var k := optind;
      NextElement();
      assert orig[i..k] + orig[k..k + 1] == orig[i..k + 1];
      Regroup(was, orig[i..k], orig[k..k + 1]);
    }

    /** Elements from `optind` on are where they were. */
    lemma Untouched(i: nat)
      requires Arranged() && optind <= i < argv.Length
      ensures argv[i] == orig[i] && argv[i..i + 1] == orig[i..i + 1]
    {
      assert argv[optind..][i - optind] == orig[optind..][i - optind];
    }

    lemma ValidShape()
      requires Arranged()
      ensures |orig| == argv.Length && optind <= argv.Length
      ensures optind < argv.Length ==> argv[optind] == orig[optind]
    {
      assert optind < argv.Length ==> argv[optind..][0] == orig[optind..][0];
    }

    /** Passing by non-options (lines 346-375). */
    method PassNonOptions()
      requires Arranged()
      modifies argv, this`firstNonopt, this`lastNonopt, this`optind, this`passed
      ensures Arranged() && lastNonopt == optind && optind == Skip(orig, old(optind))
      ensures passed == old(passed) + orig[old(optind)..optind]
    {
      ghost var was, start := passed, optind;
      if firstNonopt != lastNonopt && lastNonopt != optind {
        Exchange();
      } else if lastNonopt != optind {
        firstNonopt := optind;
      }
      PassAll();
    }

    /** The skipped non-options end at element `i`: no options come after them. */
    ghost predicate Gathered(i: nat)
      reads this`firstNonopt, this`taken, this`passed, argv
    {
      |orig| == argv.Length && 1 <= firstNonopt <= i <= argv.Length &&
      argv[..1] == orig[..1] && argv[i..] == orig[i..] && passed == argv[firstNonopt..i] &&
        taken == argv[1..firstNonopt]
    }

    lemma Extended(i: nat, j: nat)
      requires Gathered(i) && i <= j <= argv.Length
      ensures argv[j..] == orig[j..] && argv[firstNonopt..j] == passed + orig[i..j]
      ensures taken == argv[1..firstNonopt] + argv[j..j]
    {
      assert argv[j..] == argv[i..][j - i..] && orig[j..] == orig[i..][j - i..];
      assert argv[i..j] == argv[i..][..j - i] == orig[i..][..j - i];
      Joined(argv[..], firstNonopt, i, j);
    }

    /** The loop over non-options, which extend the ones skipped before. */
    method PassAll()
      requires Gathered(optind)
      modifies this`lastNonopt, this`optind, this`passed
      ensures Arranged() && lastNonopt == optind && optind == Skip(orig, old(optind))
      ensures passed == old(passed) + orig[old(optind)..optind]
    {
      ghost var was, start := passed, optind;
      while optind < argv.Length && NonOption(argv[optind])
        invariant start <= optind <= argv.Length && Gathered(start)
        invariant Skip(orig, optind) == Skip(orig, start)
      {
        assert argv[start..][optind - start] == orig[start..][optind - start];
        optind := optind + 1;
      }
      Extended(start, optind);
      assert optind < argv.Length ==> argv[start..][optind - start] == orig[start..][optind - start];
      lastNonopt := optind;
      passed := was + orig[start..optind];
    }

    /** All elements have been seen: the options and then the others, with `optind` in between. */
    ghost predicate Finished()
      reads this`optind, this`taken, this`passed, argv
    {
      |orig| >= 1 && argv[..] == orig[..1] + taken + passed && optind == 1 + |taken|
    }

    /** `--` (lines 382-398): everything after it is passed by. */
    method EndAtDashes()
      requires Arranged() && lastNonopt == optind < argv.Length && orig[optind] == "--"
      modifies argv, this`firstNonopt, this`lastNonopt, this`optind, this`taken, this`passed
      ensures optind == lastNonopt == argv.Length && Arranged()
      ensures taken == old(taken) + ["--"] && passed == old(passed) + orig[old(optind) + 1..]
      ensures passed == argv[firstNonopt..]
    {
      NextElement();
      if firstNonopt != lastNonopt && lastNonopt != optind {
        Exchange();
      } else if firstNonopt == lastNonopt {
        firstNonopt := optind;
      }
      PassRest();
    }

    /** Everything from `optind` on is passed by. */
    method PassRest()
      requires Gathered(optind)
      modifies this`lastNonopt, this`optind, this`passed
      ensures optind == lastNonopt == argv.Length && Arranged()
      ensures passed == old(passed) + orig[old(optind)..] && passed == argv[firstNonopt..]
    {
      Extended(optind, argv.Length);
      assert orig[optind..argv.Length] == orig[optind..] && argv[firstNonopt..argv.Length] == argv[firstNonopt..];
      passed := passed + orig[optind..];
      lastNonopt := argv.Length;
      optind := argv.Length;
    }

    /** Lines 403-413: at the end, `optind` goes back over the elements that were passed by. */
    method Finish()
      requires Arranged() && optind == argv.Length && lastNonopt == optind
      modifies this`optind
      ensures Finished()
    {
      AllSeen();
      if firstNonopt != lastNonopt {
        optind := firstNonopt;
      }
    }

    lemma AllSeen()
      requires Arranged() && optind == argv.Length && lastNonopt == optind
      ensures argv[..] == orig[..1] + taken + passed && firstNonopt == 1 + |taken|
    {
      assert argv[..] == argv[..1] + argv[1..firstNonopt] + argv[firstNonopt..];
    }

    /** Lines 344-439: on to the next option, or the end. */
    method Advance(cfg: Config) returns (ended: bool)
      requires Valid() && nextchar == ""
      modifies argv, this`firstNonopt, this`lastNonopt, this`optind, this`nextchar, this`taken, this`passed
      ensures var j := Skip(orig, old(optind));
        ended == (j == |orig| || orig[j] == "--") &&
        (if j == |orig| then taken == old(taken) && passed == old(passed) + orig[old(optind)..] && Finished()
         else if orig[j] == "--" then
           taken == old(taken) + ["--"] && passed == old(passed) + (orig[old(optind)..j] + orig[j + 1..]) && Finished()
         else Valid() && optind == j && nextchar != "" && nextchar == Start(cfg, orig[j]) &&
              taken == old(taken) && passed == old(passed) + orig[old(optind)..j])
    {
      hide Skip;
      hide NonOption;
      hide Start;
      hide ArrangedAt;
      hide Finished;
      ghost var start, before := optind, passed;
      ValidShape();
      PassNonOptions();
      ValidShape();
      Regroup(before, orig[start..optind], if optind < |orig| then orig[optind + 1..] else []);
      if optind != argv.Length && argv[optind] == "--" {
        EndAtDashes();
      }
      if optind == argv.Length {
        Finish();
        return true;
      }
      StartIsNotEmpty(cfg, argv[optind]);
      nextchar := Start(cfg, argv[optind]);
      return false;
    }

    /** The call has reported the option `d`, and its elements have been taken. */
    twostate predicate Did(code: int, d: Decoded)
      requires old(optind) <= d.next <= |orig|
      reads this
    {
      code == d.event.code && optarg == d.event.arg && optind == d.next && nextchar == d.rest &&
      optopt == (if d.event.bad.Some? then d.event.bad.value else old(optopt)) &&
      longind == (if d.event.index.Some? then d.event.index else old(longind)) &&
      flags == (if d.event.store.Some? then old(flags)[d.event.store.value.0 := d.event.store.value.1]
        else old(flags)) &&
      passed == old(passed) && taken == old(taken) + orig[old(optind)..d.next]
    }

    /** A long option (lines 448-591); `handled` says whether the call ends here. */
    method LongAt(cfg: Config) returns (handled: bool, code: int)
      requires Valid() && nextchar != "" && MayBeLong(cfg, orig[optind]) && optarg == None
      modifies this`optind, this`nextchar, this`optarg, this`longind, this`flags, this`taken
      ensures Valid()
      ensures handled ==> Did(code, Decode(cfg, orig, old(optind), old(nextchar)))
      ensures !handled ==>
              optind == old(optind) && nextchar == old(nextchar) && optarg == None && longind == old(longind)
      ensures !handled ==> flags == old(flags) && taken == old(taken)
      ensures !handled ==> Decode(cfg, orig, optind, nextchar) == DecodeShort(cfg, orig, optind, nextchar)
    {
      hide NonOption;
      hide ArrangedAt;
      hide DecodeShort;
      hide DecodeFound;
      hide NameLength;
      hide MatchLong;
      hide Index;
      ValidShape();
      handled := true;
      var n := NameEnd(nextchar);
      var m := FindLong(cfg.longopts.value, nextchar[..n]);
      match m
      case Ambiguous =>
        nextchar := "";
        NextElement();
        code := '?' as int;
      case Found(index) =>
        MatchLongIs(cfg.longopts.value, nextchar[..n]);
        code := TakeLong(cfg, n, cfg.longopts.value[index], index);
      case NoMatch =>
        var k := MyIndex(cfg.optstring, nextchar[0]);
        if !cfg.longOnly || argv[optind][1] == '-' || k == |cfg.optstring| {
          nextchar := "";
          NextElement();
          code := '?' as int;
        } else {
          handled, code := false, 0;
        }
    }

    /** A long option that has been found, and its argument (lines 499-563). */
    method TakeLong(cfg: Config, n: nat, o: LongOption, index: nat) returns (code: int)
      requires Valid() && nextchar != "" && n <= |nextchar| && optarg == None
      modifies this`optind, this`nextchar, this`optarg, this`longind, this`flags, this`taken
      ensures Valid() && Did(code, DecodeFound(cfg, orig, old(optind), old(nextchar), n, o, index))
    {
      hide NonOption;
      hide Arranged;
      ghost var i, was := optind, taken;
      ValidShape();
      assert was + orig[i..i] == was;
      NextAfter(i, was);
      ValidShape();
      if n < |nextchar| {
        if o.hasArg != 0 {
          optarg := Some(nextchar[n + 1..]);
        } else {
          nextchar := "";
          return '?' as int;
        }
      } else if o.hasArg == 1 {
        if optind < argv.Length {
          optarg := Some(argv[optind]);
          NextAfter(i, was);
        } else {
          nextchar := "";
          return Missing(cfg);
        }
      }
      nextchar := "";
      longind := Some(index);
      if o.flag.Some? {
        flags := flags[o.flag.value := o.val];
        return 0;
      }
      return o.val;
    }

    /** The next option character (lines 593-693). */
    method ShortAt(cfg: Config) returns (code: int)
      requires Valid() && nextchar != "" && optarg == None
      modifies this`optind, this`nextchar, this`optarg, this`optopt, this`taken
      ensures Valid() && Did(code, DecodeShort(cfg, orig, old(optind), old(nextchar)))
    {
      hide NonOption;
      hide Arranged;
      hide Index;
      ghost var i, was := optind, taken;
      ValidShape();
      assert was + orig[i..i] == was;
      var c := nextchar[0];
      nextchar := nextchar[1..];
      var temp := MyIndex(cfg.optstring, c);
      if nextchar == "" {
        NextAfter(i, was);
        ValidShape();
      }
      if temp == |cfg.optstring| || c == ':' {
        optopt := c;
        return '?' as int;
      }
      code := Code(cfg, c);
      if temp + 1 < |cfg.optstring| && cfg.optstring[temp + 1] == ':' {
        if temp + 2 < |cfg.optstring| && cfg.optstring[temp + 2] == ':' {
          if nextchar != "" {
            optarg := Some(nextchar);
            NextAfter(i, was);
          } else {
            optarg := None;
          }
          nextchar := "";
        } else {
          if nextchar != "" {
            optarg := Some(nextchar);
            NextAfter(i, was);
          } else if optind == argv.Length {
            optopt := c;
            code := Missing(cfg);
          } else {
            optarg := Some(argv[optind]);
            NextAfter(i, was);
          }
          nextchar := "";
        }
      }
    }

    /** Before the first call. */
    ghost predicate Fresh()
      reads this, argv
    {
      optind == 0 && |orig| >= 1 && argv[..] == orig && taken == [] && passed == []
    }

    /** Where the next call goes on. */
    ghost function Place(): (nat, string)
      reads this
    {
      if optind == 0 then (1, "") else (optind, nextchar)
    }

    /** Lines 316-342, in PERMUTE mode. */
    method Initialise()
      requires Fresh() || Valid()
      modifies this`firstNonopt, this`lastNonopt, this`optind, this`nextchar
      ensures Valid() && (optind, nextchar) == old(Place())
    {
      if optind == 0 {
        firstNonopt, lastNonopt, optind := 1, 1, 1;
        nextchar := "";
      }
    }

    /** `_getopt_internal` (lines 300-694): -1 stands for EOF. */
    method GetOpt(cfg: Config) returns (code: int, ghost step: Step)
      requires Fresh() || Valid()
      modifies argv, this
      ensures step == NextStep(cfg, orig, old(Place()).0, old(Place()).1)
      ensures taken == old(taken) + step.taken && passed == old(passed) + step.passed
      ensures step.End? ==> code == -1 && optarg == None && Finished()
      ensures step.Emit? ==> Valid() && optind == step.next && nextchar == step.rest
      ensures step.Emit? ==> code == step.event.code && optarg == step.event.arg
      ensures optopt == if step.Emit? && step.event.bad.Some? then step.event.bad.value else old(optopt)
      ensures longind == if step.Emit? && step.event.index.Some? then step.event.index else old(longind)
      ensures flags == if step.Emit? && step.event.store.Some?
                       then old(flags)[step.event.store.value.0 := step.event.store.value.1] else old(flags)
    {
      hide NonOption;
      hide ArrangedAt;
      hide Decode;
      hide DecodeShort;
      hide Skip;
      hide Start;
      hide Finished;
      hide NextStep;
      optarg := None;
      Initialise();
      ValidShape();
      step := NextStep(cfg, orig, optind, nextchar);
      StepCases(cfg, orig, optind, nextchar);
      ghost var before := passed;
      if nextchar == "" {
        var ended := Advance(cfg);
        if ended {
          return -1, step;
        }
      }
      assert step == EmitAt(orig, step.passed, optind, Decode(cfg, orig, optind, nextchar));
      assert passed == before + step.passed;
      code := OptionAt(cfg);
    }

    /** Lines 441-693. */
    method OptionAt(cfg: Config) returns (code: int)
      requires Valid() && nextchar != "" && optarg == None
      modifies this`optind, this`nextchar, this`optarg, this`longind, this`flags, this`taken, this`optopt
      ensures Valid() && Did(code, Decode(cfg, orig, old(optind), old(nextchar)))
    {
      hide NonOption;
      hide ArrangedAt;
      hide DecodeShort;
      hide DecodeFound;
      hide NameLength;
      hide MatchLong;
      hide Index;
      ValidShape();
      OptionShape(orig[optind]);
      if cfg.longopts.Some? && argv[optind][0] == '-' && (argv[optind][1] == '-' || cfg.longOnly) {
        var handled;
        handled, code := LongAt(cfg);
        if handled {
          return;
        }
      }
      code := ShortAt(cfg);
    }

    /** `exchange` (lines 221-242). */
    method Exchange()
      requires Arranged()
      modifies argv, this`firstNonopt, this`lastNonopt
      ensures Arranged() && lastNonopt == optind
    {
      ghost var a, f, l, o := argv[..], firstNonopt, lastNonopt, optind;
      SwapBlocks();
      firstNonopt := firstNonopt + (optind - lastNonopt);
      lastNonopt := optind;
      Swapped(a, argv[..], f, l, o);
    }

    /** The three moves of `exchange`. */
    method SwapBlocks()
      requires firstNonopt <= lastNonopt <= optind <= argv.Length
      modifies argv
      ensures Exchanged(old(argv[..]), argv[..], firstNonopt, lastNonopt, optind)
    {
      var size, moved := lastNonopt - firstNonopt, optind - lastNonopt;
      var temp := new string[size];
      ghost var a := argv[..];
      Copy(argv, firstNonopt, temp, 0, size);
      ghost var t := temp[..];
      CopyDown(argv, lastNonopt, firstNonopt, moved);
      ghost var b := argv[..];
      Copy(temp, 0, argv, firstNonopt + moved, size);
      Assembled(a, b, argv[..], t, firstNonopt, lastNonopt, optind);
    }
  }

  /** `b` is `a` with the blocks [f, l) and [l, o) exchanged. */
  ghost predicate Exchanged(a: seq<string>, b: seq<string>, f: nat, l: nat, o: nat) {
    f <= l <= o <= |a| && |b| == |a| &&
    b[..f] == a[..f] && b[f..f + (o - l)] == a[l..o] && b[f + (o - l)..o] == a[f..l] && b[o..] == a[o..]
  }

  lemma Assembled(a: seq<string>, b: seq<string>, c: seq<string>, t: seq<string>, f: nat, l: nat, o: nat)
    requires f <= l <= o <= |a| && |a| == |b| == |c| && t == a[f..l]
    requires b[..f] == a[..f] && b[f..f + (o - l)] == a[l..o] && b[f + (o - l)..] == a[f + (o - l)..]
    requires c[..f + (o - l)] == b[..f + (o - l)] && c[f + (o - l)..o] == t && c[o..] == b[o..]
    ensures Exchanged(a, c, f, l, o)
  {
    assert c[..f] == c[..f + (o - l)][..f] == b[..f];
    assert c[f..f + (o - l)] == c[..f + (o - l)][f..] == b[f..f + (o - l)];
    assert b[o..] == b[f + (o - l)..][l - f..] == a[o..];
  }

  lemma Swapped(a: seq<string>, b: seq<string>, f: nat, l: nat, o: nat)
    requires 1 <= f && Exchanged(a, b, f, l, o)
    ensures var g := f + (o - l);
            |b| == |a| && b[..1] == a[..1] && b[o..] == a[o..] && b[g..o] == a[f..l] && b[1..g] == a[1..f] + a[l..o]
  {
    var g := f + (o - l);
    assert b[..1] == b[..f][..1];
    assert b[1..g] == b[..f][1..] + b[f..g];
    assert a[1..f] == a[..f][1..];
  }

  lemma Joined(s: seq<string>, a: nat, b: nat, c: nat)
    requires a <= b <= c <= |s|
    ensures s[a..b] + s[b..c] == s[a..c]
  {
  }

  /** What the caller sees of the events: results and arguments. */
  function Reports(events: seq<Event>): (r: seq<(int, Option<string>)>)
    ensures |r| == |events|
  {
    seq(|events|, i requires 0 <= i < |events| => (events[i].code, events[i].arg))
  }

  lemma ReportsAre(events: seq<Event>, i: nat)
    requires i < |events|
    ensures Reports(events)[i].0 == events[i].code && Reports(events)[i].1 == events[i].arg
  {
  }

  /** Only the end of the options is reported as -1. */
  predicate NoEofValue(cfg: Config) {
    (cfg.longopts.Some? ==> forall o | o in cfg.longopts.value :: o.flag.Some? || o.val != -1) &&
    (cfg.signedChars ==> forall c | c in cfg.optstring :: c as int != 255)
  }

  lemma CodeIsNotEof(cfg: Config, args: seq<string>, i: nat, rest: string)
    requires NoEofValue(cfg) && i <= |args| && (rest != "" ==> i < |args|)
    ensures var s := NextStep(cfg, args, i, rest); s.Emit? ==> s.event.code != -1
  {
    hide Decode;
    var j := Skip(args, i);
    if rest != "" {
      DecodedIsNotEof(cfg, args, i, rest);
    } else if j < |args| && args[j] != "--" {
      StartIsNotEmpty(cfg, args[j]);
      DecodedIsNotEof(cfg, args, j, Start(cfg, args[j]));
    }
  }

  lemma DecodedIsNotEof(cfg: Config, args: seq<string>, i: nat, rest: string)
    requires NoEofValue(cfg) && i < |args| && rest != ""
    ensures Decode(cfg, args, i, rest).event.code != -1
  {
    if cfg.longopts.Some? { MatchLongIs(cfg.longopts.value, rest[..NameLength(rest)]); }
    assert Index(cfg.optstring, rest[0]) < |cfg.optstring| ==> rest[0] in cfg.optstring;
  }

  lemma {:induction false} EventsAreNotEof(cfg: Config, args: seq<string>, i: nat, rest: string)
    requires NoEofValue(cfg) && i <= |args| && (rest != "" ==> i < |args|)
    ensures forall e | e in ScanFrom(cfg, args, i, rest).events :: e.code != -1
    decreases |args| - i, Left(args, i, rest)
  {
    hide NextStep;
    hide NoEofValue;
    CodeIsNotEof(cfg, args, i, rest);
    match NextStep(cfg, args, i, rest)
    case End(passed, taken) =>
    case Emit(passed, taken, event, next, more) => EventsAreNotEof(cfg, args, next, more);
  }

  /** What has been reported and taken, and what is still to come, make up the scan. */
  ghost predicate Continues(all: Scan, rest: Scan, reports: seq<(int, Option<string>)>, taken: seq<string>,
                            passed: seq<string>) {
    (forall k :: 0 <= k < |reports| ==> reports[k].0 != -1) &&
    Reports(all.events) == reports + Reports(rest.events) && all.taken == taken + rest.taken &&
      all.passed == passed + rest.passed
  }

  lemma ScanStep(cfg: Config, args: seq<string>, i: nat, rest: string)
    requires i <= |args| && (rest != "" ==> i < |args|)
    ensures var s := NextStep(cfg, args, i, rest);
      ScanFrom(cfg, args, i, rest) ==
        if s.End? then Scan([], s.taken, s.passed)
        else var more := ScanFrom(cfg, args, s.next, s.rest);
             Scan([s.event] + more.events, s.taken + more.taken, s.passed + more.passed)
  {
    hide NextStep;
  }

  lemma ContinuesStep(all: Scan, more: Scan, event: Event, reports: seq<(int, Option<string>)>,
                      taken: seq<string>, passed: seq<string>, t: seq<string>, p: seq<string>)
    requires Continues(all, Scan([event] + more.events, t + more.taken, p + more.passed), reports, taken, passed)
    requires event.code != -1
    ensures Continues(all, more, reports + [(event.code, event.arg)], taken + t, passed + p)
  {
    assert Reports([event] + more.events) == [(event.code, event.arg)] + Reports(more.events);
    Regroup(taken, t, more.taken);
    Regroup(passed, p, more.passed);
  }

  /** The calls until one returns -1 report what the scan from left to right finds, up to an option with this value. */
  ghost predicate Told(all: Scan, reports: seq<(int, Option<string>)>) {
    |reports| <= |all.events| && reports == Reports(all.events)[..|reports|] &&
    (forall k :: 0 <= k < |reports| ==> all.events[k].code != -1) &&
    (|reports| < |all.events| ==> all.events[|reports|].code == -1)
  }

  lemma ToldAll(all: Scan, reports: seq<(int, Option<string>)>)
    requires Told(all, reports) && forall e | e in all.events :: e.code != -1
    ensures reports == Reports(all.events)
  {
  }

  /** A whole run: calls until one returns -1. Unless this is the value of an option, it is the end of the options, and
      ARGV is a stable partition. */
  method Run(scanner: Scanner, cfg: Config) returns (reports: seq<(int, Option<string>)>)
    requires scanner.Fresh()
    modifies scanner, scanner.argv
    ensures var args := old(scanner.argv[..]);
      var scan := ScanFrom(cfg, args, 1, "");
      Told(scan, reports) &&
      (if |reports| == |scan.events| then
         scanner.argv[..] == args[..1] + scan.taken + scan.passed && scanner.optind == 1 + |scan.taken|
       else scanner.Valid() && scanner.optarg == scan.events[|reports|].arg)
    ensures NoEofValue(cfg) ==> reports == Reports(ScanFrom(cfg, old(scanner.argv[..]), 1, "").events)
  {
    hide NextStep;
    hide ScanFrom;
    hide NoEofValue;
    hide Continues;
    hide Told;
    hide Scanner.Valid;
    ghost var args := scanner.orig;
    ghost var all := ScanFrom(cfg, args, 1, "");
    ghost var i: nat, rest: string := 1, "";
    reports := [];
    Begins(all);
    if NoEofValue(cfg) { EventsAreNotEof(cfg, args, 1, ""); }
    while true
      invariant scanner.orig == args && i <= |args| && (rest != "" ==> i < |args|)
      invariant scanner.Fresh() || scanner.Valid()
      invariant scanner.Place() == (i, rest)
      invariant Continues(all, ScanFrom(cfg, args, i, rest), reports, scanner.taken, scanner.passed)
      decreases |args| - i, Left(args, i, rest)
    {
      ScanStep(cfg, args, i, rest);
      ghost var taken, passed := scanner.taken, scanner.passed;
      var code;
      ghost var step;
      code, step := scanner.GetOpt(cfg);
      if code == -1 {
        if step.End? {
          Ends(all, step, reports, taken, passed);
        } else {
          Stops(all, ScanFrom(cfg, args, step.next, step.rest), step, reports, taken, passed);
        }
        if NoEofValue(cfg) { ToldAll(all, reports); }
        return;
      }
      ContinuesStep(all, ScanFrom(cfg, args, step.next, step.rest), step.event, reports, taken, passed, step.taken,
        step.passed);
      reports := reports + [(code, scanner.optarg)];
      i, rest := step.next, step.rest;
    }
  }

  lemma Begins(all: Scan)
    ensures Continues(all, all, [], [], [])
  {
  }

  lemma Ends(all: Scan, step: Step, reports: seq<(int, Option<string>)>, taken: seq<string>, passed: seq<string>)
    requires step.End? && Continues(all, Scan([], step.taken, step.passed), reports, taken, passed)
    ensures Told(all, reports) && |reports| == |all.events|
    ensures all.taken == taken + step.taken && all.passed == passed + step.passed
  {
    assert Reports(all.events) == reports;
    forall k | 0 <= k < |reports| ensures all.events[k].code != -1 { assert Reports(all.events)[k] == reports[k]; }
  }

  lemma Stops(all: Scan, more: Scan, step: Step, reports: seq<(int, Option<string>)>, taken: seq<string>,
              passed: seq<string>)
    requires step.Emit? && step.event.code == -1
    requires Continues(all, Scan([step.event] + more.events, step.taken + more.taken, step.passed + more.passed),
             reports, taken, passed)
    ensures Told(all, reports) && |reports| < |all.events| && all.events[|reports|].arg == step.event.arg
  {
    var n := |reports|;
    var rest := Reports([step.event] + more.events);
    assert Reports(all.events)[n] == rest[0] == (step.event.code, step.event.arg);
    forall k | 0 <= k < n ensures all.events[k].code != -1 { assert Reports(all.events)[k] == reports[k]; }
  }

  lemma OptionShape(s: string)
    requires !NonOption(s)
    ensures |s| >= 2 && s[0] == '-'
  {
  }

  /** `my_index` (lines 170-186). */
  method MyIndex(s: string, c: char) returns (k: nat)
    ensures k == Index(s, c)
  {
    k := 0;
    assert s[0..] == s;
    while k < |s|
      invariant k <= |s| && Index(s, c) == k + Index(s[k..], c)
    {
      if s[k] == c {
        return;
      }
      assert s[k..][1..] == s[k + 1..];
      k := k + 1;
    }
  }

  /** The end of the name of a long option (lines 457-460). */
  method NameEnd(s: string) returns (n: nat)
    ensures n == NameLength(s)
  {
    n := 0;
    assert s[0..] == s;
    while n < |s| && s[n] != '='
      invariant n <= |s| && NameLength(s) == n + NameLength(s[n..])
    {
      assert s[n..][1..] == s[n + 1..];
      n := n + 1;
    }
  }

  /** The loop over the long options (lines 449-488). */
  method FindLong(longopts: seq<LongOption>, name: string) returns (m: LongMatch)
    ensures m == MatchLong(longopts, name)
  {
    hide Abbreviates;
    var pfound: Option<nat> := None;
    var exact, ambig := false, false;
    var p := 0;
    while p < |longopts|
      invariant p <= |longopts| && !exact
      invariant MatchLong(longopts, name) == MatchFrom(longopts, name, p, pfound, ambig)
    {
      PrefixOf(name, longopts[p]);
      if Abbreviates(name, longopts[p]) {
        if |name| == |longopts[p].name| {
          pfound := Some(p);
          exact := true;
          break;
        } else if pfound.None? {
          pfound := Some(p);
        } else {
          ambig := true;
        }
      }
      p := p + 1;
    }
    m := if ambig && !exact then Ambiguous else if pfound.Some? then Found(pfound.value) else NoMatch;
  }

  lemma PrefixOf(name: string, o: LongOption)
    ensures Abbreviates(name, o) && |name| == |o.name| <==> o.name == name
  {
  }

  /** `my_bcopy` between two arrays. */
  method Copy(from: array<string>, p: nat, to: array<string>, q: nat, n: nat)
    requires from != to && p + n <= from.Length && q + n <= to.Length
    modifies to
    ensures to[..q] == old(to[..q]) && to[q..q + n] == from[p..p + n] && to[q + n..] == old(to[q + n..])
  {
    var i := 0;
    while i < n
      invariant 0 <= i <= n
      invariant to[..q] == old(to[..q]) && to[q..q + i] == from[p..p + i] && to[q + n..] == old(to[q + n..])
    {
      to[q + i] := from[p + i];
      i := i + 1;
    }
  }

  /** `my_bcopy` to lower places of the same array. */
  method CopyDown(a: array<string>, from: nat, to: nat, n: nat)
    requires to <= from && from + n <= a.Length
    modifies a
    ensures a[..to] == old(a[..to]) && a[to..to + n] == old(a[from..from + n]) && a[to + n..] == old(a[to + n..])
  {
    ghost var was := a[..];
    var i := 0;
    while i < n
      invariant 0 <= i <= n
      invariant forall k :: 0 <= k < to || to + i <= k < a.Length ==> a[k] == was[k]
      invariant forall k :: to <= k < to + i ==> a[k] == was[k + (from - to)]
    {
      a[to + i] := a[from + i];
      i := i + 1;
    }
    Moved(was, a[..], from, to, n);
  }

  lemma Moved(a: seq<string>, b: seq<string>, from: nat, to: nat, n: nat)
    requires |a| == |b| && to <= from && from + n <= |a|
    requires forall k :: 0 <= k < to || to + n <= k < |a| ==> b[k] == a[k]
    requires forall k :: to <= k < to + n ==> b[k] == a[k + (from - to)]
    ensures b[..to] == a[..to] && b[to..to + n] == a[from..from + n] && b[to + n..] == a[to + n..]
  {
  }
}
