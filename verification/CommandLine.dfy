/** The flags of gtest-all.cc on the command line, taken out of argv in place. */
module CommandLine {
  import opened Options

  datatype FlagKind = BoolFlag | Int32Flag | StringFlag

  datatype Flag = Flag(name: string, kind: FlagKind)

  /** A flag set from the command line, and its text. */
  datatype Setting = Setting(flag: string, text: string)

  /** The flags in the order they are tried; the flag file comes last. */
  const FLAGS: seq<Flag> := [
    Flag("also_run_disabled_tests", BoolFlag), Flag("break_on_failure", BoolFlag), Flag("catch_exceptions", BoolFlag),
    Flag("color", StringFlag), Flag("death_test_style", StringFlag), Flag("death_test_use_fork", BoolFlag),
    Flag("filter", StringFlag), Flag("internal_run_death_test", StringFlag), Flag("list_tests", BoolFlag),
    Flag("output", StringFlag), Flag("print_time", BoolFlag), Flag("print_utf8", BoolFlag),
    Flag("random_seed", Int32Flag), Flag("repeat", Int32Flag), Flag("shuffle", BoolFlag),
    Flag("stack_trace_depth", Int32Flag), Flag("stream_result_to", StringFlag), Flag("throw_on_failure", BoolFlag),
    Flag("flagfile", StringFlag)]

  predicate SkipsPrefix(str: string, prefix: string) {
    |prefix| <= |str| && str[..|prefix|] == prefix
  }

  function ParseFlagValue(str: string, flag: string, defOptional: bool): Option<string> {
    var flagStr := "--gtest_" + flag;
    if !SkipsPrefix(str, flagStr) then None
    else if defOptional && |str| == |flagStr| then Some("")
    else if |str| == |flagStr| || str[|flagStr|] != '=' then None
    else Some(str[|flagStr| + 1..])
  }

  /** The text of a flag that the argument sets; numbers must read as 32-bit integers. */
  function ParseFlag(arg: string, flag: Flag, isInt32: string -> bool): Option<string> {
    var text := ParseFlagValue(arg, flag.name, flag.kind == BoolFlag);
    if text.Some? && flag.kind == Int32Flag && !isInt32(text.value) then None else text
  }

  function ParseGoogleTestFlag(arg: string, flags: seq<Flag>, isInt32: string -> bool): Option<Setting> {
    if flags == [] then None
    else
      var text := ParseFlag(arg, flags[0], isInt32);
      if text.Some? then Some(Setting(flags[0].name, text.value)) else ParseGoogleTestFlag(arg, flags[1..], isInt32)
  }

  /** An argument sets at most one flag, names having no equals sign. */
  lemma {:induction false} OneFlagOnly(arg: string, a: Flag, b: Flag, isInt32: string -> bool)
    requires '=' !in a.name && '=' !in b.name
    requires ParseFlag(arg, a, isInt32).Some? && ParseFlag(arg, b, isInt32).Some?
    ensures a.name == b.name
  {
    if |a.name| <= |b.name| {
      SameFlag(arg, a, b, isInt32);
    } else {
      SameFlag(arg, b, a, isInt32);
    }
  }

  lemma {:induction false} SameFlag(arg: string, a: Flag, b: Flag, isInt32: string -> bool)
    requires '=' !in a.name && '=' !in b.name && |a.name| <= |b.name|
    requires ParseFlag(arg, a, isInt32).Some? && ParseFlag(arg, b, isInt32).Some?
    ensures a.name == b.name
  {
    var n := |"--gtest_"|;
    assert arg[..n + |b.name|][n..] == b.name && arg[..n + |a.name|][n..] == a.name;
    assert a.name == b.name[..|a.name|];
  }

  lemma {:induction false} NamesFrom0(i: nat)
    requires 0 <= i < 3
    ensures '=' !in FLAGS[i].name
  {
  }

  lemma {:induction false} NamesFrom3(i: nat)
    requires 3 <= i < 6
    ensures '=' !in FLAGS[i].name
  {
  }

  lemma {:induction false} NamesFrom6(i: nat)
    requires 6 <= i < 8
    ensures '=' !in FLAGS[i].name
  {
  }

  lemma {:induction false} NamesFrom8(i: nat)
    requires 8 <= i < 12
    ensures '=' !in FLAGS[i].name
  {
  }

  lemma {:induction false} NamesFrom12(i: nat)
    requires 12 <= i < 16
    ensures '=' !in FLAGS[i].name
  {
  }

  lemma {:induction false} NamesFrom16(i: nat)
    requires 16 <= i < 19
    ensures '=' !in FLAGS[i].name
  {
  }

  lemma {:induction false} NamesInTable(i: nat)
    requires i < |FLAGS|
    ensures '=' !in FLAGS[i].name
  {
    if i < 3 { NamesFrom0(i); }
    else if i < 6 { NamesFrom3(i); }
    else if i < 8 { NamesFrom6(i); }
    else if i < 12 { NamesFrom8(i); }
    else if i < 16 { NamesFrom12(i); }
    else { NamesFrom16(i); }
  }

  /** Two characters and the length tell the names of the table apart. */
  function Mark(name: string): (int, char, char) {
    if name == "" then (0, ' ', ' ') else (|name|, name[0], name[|name| - 1])
  }

  lemma {:induction false} MarksDiffer(i: nat, j: nat)
    requires i < j < |FLAGS|
    ensures Mark(FLAGS[i].name) != Mark(FLAGS[j].name)
  {
  }

  /** An argument sets at most one flag of the program's table, whatever the argument, so the
      order of the table does not matter. */
  lemma {:induction false} OneFlagOfTable(arg: string, i: nat, j: nat, isInt32: string -> bool)
    requires i < |FLAGS| && j < |FLAGS|
    requires ParseFlag(arg, FLAGS[i], isInt32).Some? && ParseFlag(arg, FLAGS[j], isInt32).Some?
    ensures i == j
  {
    NamesInTable(i);
    NamesInTable(j);
    OneFlagOnly(arg, FLAGS[i], FLAGS[j], isInt32);
    if i < j { MarksDiffer(i, j); } else if j < i { MarksDiffer(j, i); }
  }

  /** What an argument must be to set a flag: two dashes, `gtest_`, the flag's name, and then an
      equals sign and the text, which a boolean flag may lack. */
  predicate IsSetting(arg: string, flag: Flag, text: string, isInt32: string -> bool) {
    || (arg == "--gtest_" + flag.name && flag.kind == BoolFlag && text == "")
    || (arg == "--gtest_" + flag.name + "=" + text && (flag.kind == Int32Flag ==> isInt32(text)))
  }

  lemma {:induction false} PrefixAndRest(arg: string, flagStr: string, text: string)
    ensures arg == flagStr <==> SkipsPrefix(arg, flagStr) && |arg| == |flagStr|
    ensures arg == flagStr + "=" + text <==>
            SkipsPrefix(arg, flagStr) && |arg| > |flagStr| && arg[|flagStr|] == '=' && arg[|flagStr| + 1..] == text
  {
    if SkipsPrefix(arg, flagStr) && |arg| > |flagStr| {
      assert arg == arg[..|flagStr|] + [arg[|flagStr|]] + arg[|flagStr| + 1..];
    }
    if arg == flagStr + "=" + text {
      assert arg[..|flagStr|] == flagStr && arg[|flagStr| + 1..] == text;
    }
  }

  lemma {:induction false} ParseFlagIff(arg: string, flag: Flag, text: string, isInt32: string -> bool)
    ensures ParseFlag(arg, flag, isInt32) == Some(text) <==> IsSetting(arg, flag, text, isInt32)
  {
    PrefixAndRest(arg, "--gtest_" + flag.name, text);
  }

  /** Some flag of the list is the first that the argument sets. */
  lemma {:induction false} FirstSet(arg: string, flags: seq<Flag>, isInt32: string -> bool) returns (i: nat)
    ensures
      var set_ := ParseGoogleTestFlag(arg, flags, isInt32);
      if set_.None? then i == |flags| && forall j :: 0 <= j < |flags| ==> ParseFlag(arg, flags[j], isInt32).None?
      else i < |flags| && set_.value.flag == flags[i].name && ParseFlag(arg, flags[i], isInt32) == Some(set_.value.text)
  {
    if flags == [] {
      i := 0;
    } else if ParseFlag(arg, flags[0], isInt32).Some? {
      i := 0;
    } else {
      var k := FirstSet(arg, flags[1..], isInt32);
      i := k + 1;
      assert forall j :: 1 <= j < |flags| ==> flags[j] == flags[1..][j - 1];
    }
  }

  /** The program's flags are set by exactly the arguments of their form, to exactly the text
      they hold, and by no other argument. */
  lemma {:induction false} SetsIff(arg: string, flag: string, text: string, isInt32: string -> bool)
    ensures ParseGoogleTestFlag(arg, FLAGS, isInt32) == Some(Setting(flag, text)) <==>
            exists i :: 0 <= i < |FLAGS| && FLAGS[i].name == flag && IsSetting(arg, FLAGS[i], text, isInt32)
  {
    var k := FirstSet(arg, FLAGS, isInt32);
    if ParseGoogleTestFlag(arg, FLAGS, isInt32) == Some(Setting(flag, text)) {
      ParseFlagIff(arg, FLAGS[k], text, isInt32);
    }
    if i :| 0 <= i < |FLAGS| && FLAGS[i].name == flag && IsSetting(arg, FLAGS[i], text, isInt32) {
      ParseFlagIff(arg, FLAGS[i], text, isInt32);
      if k < |FLAGS| { OneFlagOfTable(arg, i, k, isInt32); }
    }
  }

  /** An argument of either form for a flag sets this flag or none. */
  lemma {:induction false} SetsThisOrNone(arg: string, i: nat, text: string, isInt32: string -> bool)
    requires i < |FLAGS|
    requires arg == "--gtest_" + FLAGS[i].name + "=" + text || (arg == "--gtest_" + FLAGS[i].name && text == "")
    ensures ParseGoogleTestFlag(arg, FLAGS, isInt32)
         == if IsSetting(arg, FLAGS[i], text, isInt32) then Some(Setting(FLAGS[i].name, text)) else None
  {
    var flag := FLAGS[i];
    var k := FirstSet(arg, FLAGS, isInt32);
    if k < |FLAGS| {
      var got := ParseGoogleTestFlag(arg, FLAGS, isInt32).value.text;
      var any := Flag(flag.name, BoolFlag);
      ParseFlagIff(arg, any, text, isInt32);
      NamesInTable(i);
      NamesInTable(k);
      OneFlagOnly(arg, FLAGS[k], any, isInt32);
      if i < k { MarksDiffer(i, k); } else if k < i { MarksDiffer(k, i); }
      ParseFlagIff(arg, flag, got, isInt32);
      PrefixAndRest(arg, "--gtest_" + flag.name, got);
      PrefixAndRest(arg, "--gtest_" + flag.name, text);
    } else {
      ParseFlagIff(arg, flag, text, isInt32);
    }
  }

  /** The two forms of an argument for a flag of the program. */
  lemma {:induction false} FormsOf(i: nat, text: string, isInt32: string -> bool)
    requires i < |FLAGS|
    ensures
      var flag := FLAGS[i];
      && ParseGoogleTestFlag("--gtest_" + flag.name + "=" + text, FLAGS, isInt32)
         == (if flag.kind == Int32Flag && !isInt32(text) then None else Some(Setting(flag.name, text)))
      && ParseGoogleTestFlag("--gtest_" + flag.name, FLAGS, isInt32)
         == (if flag.kind == BoolFlag then Some(Setting(flag.name, "")) else None)
  {
    var bare := "--gtest_" + FLAGS[i].name;
    PrefixAndRest(bare, bare, "");
    SetsThisOrNone(bare + "=" + text, i, text, isInt32);
    SetsThisOrNone(bare, i, "", isInt32);
  }

  predicate HasGoogleTestFlagPrefix(arg: string) {
    var rest :=
      if SkipsPrefix(arg, "--") then Some(arg[2..])
      else if SkipsPrefix(arg, "-") || SkipsPrefix(arg, "/") then Some(arg[1..])
      else None;
    && rest.Some? && !SkipsPrefix(rest.value, "gtest_internal_")
    && (SkipsPrefix(rest.value, "gtest_") || SkipsPrefix(rest.value, "gtest-"))
  }

  predicate AsksForHelp(arg: string) {
    arg in {"--help", "-h", "-?", "/?"} || HasGoogleTestFlagPrefix(arg)
  }

  /** The argument begins so, with something behind it or nothing. */
  predicate Begins(arg: string, first: string, second: string) {
    first + second <= arg
  }

  /** The arguments that ask for help: four of them, and what begins like a flag of the library
      behind two dashes, a dash or a slash, unless the flag is an internal one. */
  lemma {:induction false} AsksForHelpIff(arg: string)
    ensures AsksForHelp(arg) <==>
            || arg in {"--help", "-h", "-?", "/?"}
            || exists mark :: mark in {"--", "-", "/"} && !Begins(arg, mark, "gtest_internal_")
                              && (Begins(arg, mark, "gtest_") || Begins(arg, mark, "gtest-"))
  {
    MarkSkipped(arg, "--");
    MarkSkipped(arg, "-");
    MarkSkipped(arg, "/");
    if SkipsPrefix(arg, "--") { TwoDashes(arg); }
  }

  lemma {:induction false} MarkSkipped(arg: string, mark: string)
    ensures SkipsPrefix(arg, mark) ==> forall s :: Begins(arg, mark, s) <==> SkipsPrefix(arg[|mark|..], s)
    ensures !SkipsPrefix(arg, mark) ==> forall s :: !Begins(arg, mark, s)
  {
    forall s ensures Begins(arg, mark, s) <==> SkipsPrefix(arg, mark) && SkipsPrefix(arg[|mark|..], s) {
      BeginsIff(arg, mark, s);
    }
  }

  lemma {:induction false} BeginsIff(arg: string, mark: string, s: string)
    ensures Begins(arg, mark, s) <==> SkipsPrefix(arg, mark) && SkipsPrefix(arg[|mark|..], s)
  {
    if Begins(arg, mark, s) {
      assert arg[..|mark|] == (mark + s)[..|mark|] == mark;
      assert arg[|mark|..][..|s|] == arg[..|mark| + |s|][|mark|..] == s;
    }
  }

  lemma {:induction false} TwoDashes(arg: string)
    requires SkipsPrefix(arg, "--")
    ensures !Begins(arg, "-", "gtest_") && !Begins(arg, "-", "gtest-") && !Begins(arg, "/", "gtest_")
    ensures !Begins(arg, "/", "gtest-")
  {
    assert arg[1] == '-' && arg[0] == '-';
  }

  // ---------------------------------------------------------------- what is kept and what is set

  /** The flags known, and which texts read as 32-bit integers. */
  datatype Parser = Parser(flags: seq<Flag>, isInt32: string -> bool)

  predicate Sets(arg: string, parser: Parser) {
    ParseGoogleTestFlag(arg, parser.flags, parser.isInt32).Some?
  }

  /** Of args[1..n], the arguments that set no flag, in order. */
  function Kept(args: seq<string>, n: nat, parser: Parser): (kept: seq<string>)
    requires 1 <= n <= |args|
    ensures |kept| < n
  {
    if n == 1 then []
    else
      var (rest, last) := (Kept(args, n - 1, parser), args[n - 1]);
      if Sets(last, parser) then rest else rest + [last]
  }

  /** The flags the others set, in order. */
  function Settings(args: seq<string>, n: nat, parser: Parser): seq<Setting>
    requires 1 <= n <= |args|
  {
    if n == 1 then []
    else
      var (rest, last) := (Settings(args, n - 1, parser), args[n - 1]);
      if Sets(last, parser) then rest + [ParseGoogleTestFlag(last, parser.flags, parser.isInt32).value] else rest
  }

  /** Does an argument that is kept ask for help. */
  predicate HelpAsked(args: seq<string>, n: nat, parser: Parser)
    requires 1 <= n <= |args|
  {
    n > 1 && (HelpAsked(args, n - 1, parser) || (!Sets(args[n - 1], parser) && AsksForHelp(args[n - 1])))
  }

  lemma {:induction false} HelpAskedIff(args: seq<string>, n: nat, parser: Parser)
    requires 1 <= n <= |args|
    ensures HelpAsked(args, n, parser) <==> exists arg :: arg in Kept(args, n, parser) && AsksForHelp(arg)
  {
    if n > 1 {
      HelpAskedIff(args, n - 1, parser);
      var kept := Kept(args, n - 1, parser);
      if arg :| arg in kept && AsksForHelp(arg) {
        assert arg in Kept(args, n, parser);
      }
      if !Sets(args[n - 1], parser) {
        assert args[n - 1] in Kept(args, n, parser);
      }
    }
  }

  /** argv: the arguments and a null. */
  function Terminated(args: seq<string>): (argv: seq<Option<string>>)
    ensures |argv| == |args| + 1 && argv[|args|] == None
    ensures forall k :: 0 <= k < |args| ==> argv[k] == Some(args[k])
  {
    seq(|args|, k requires 0 <= k < |args| => Some(args[k])) + [None]
  }

  /** Moves what follows position i, the null included, one place down. */
  method ShiftDown(argv: array<Option<string>>, i: nat, argc: nat)
    requires i <= argc < argv.Length
    modifies argv
    ensures argv[..argc] == old(argv[..i]) + old(argv[i + 1..argc + 1])
    ensures argv[argc..] == old(argv[argc..])
  {
    var j := i;
    while j != argc
      invariant i <= j <= argc
      invariant argv[..i] == old(argv[..i]) && argv[i..j] == old(argv[i + 1..j + 1]) && argv[j..] == old(argv[j..])
    {
      ghost var was := argv[..];
      argv[j] := argv[j + 1];
      j := j + 1;
      assert argv[i..j] == was[i..j - 1] + [was[j]];
      assert old(argv[i + 1..j + 1]) == old(argv[i + 1..j]) + [was[j]];
      assert argv[j..] == was[j..];
    }
    assert argv[..argc] == argv[..i] + argv[i..argc];
  }

  /** argv when the arguments before `done` have been looked at. */
  function Remaining(args: seq<string>, done: nat, parser: Parser): seq<string>
    requires 1 <= done <= |args|
  {
    [args[0]] + Kept(args, done, parser) + args[done..]
  }

  lemma {:induction false} KeepOne(args: seq<string>, done: nat, parser: Parser)
    requires 1 <= done < |args| && !Sets(args[done], parser)
    ensures |Kept(args, done + 1, parser)| == |Kept(args, done, parser)| + 1
    ensures Remaining(args, done + 1, parser) == Remaining(args, done, parser)
  {
    assert args[done..] == [args[done]] + args[done + 1..];
  }

  /** One argument less: the others stay in order, and the null behind them. */
  lemma {:induction false} DropOne(args: seq<string>, done: nat, parser: Parser)
    requires 1 <= done < |args| && Sets(args[done], parser)
    ensures |Kept(args, done + 1, parser)| == |Kept(args, done, parser)|
    ensures
      var (i, before) := (1 + |Kept(args, done, parser)|, Terminated(Remaining(args, done, parser)));
      Terminated(Remaining(args, done + 1, parser)) == before[..i] + before[i + 1..]
  {
    assert args[done..] == [args[done]] + args[done + 1..];
  }

  lemma {:induction false} NextArgument(args: seq<string>, done: nat, parser: Parser)
    requires 1 <= done < |args|
    ensures var i := 1 + |Kept(args, done, parser)|;
      Terminated(Remaining(args, done, parser))[i] == Some(args[done])
  {
  }

  lemma {:induction false} OneMoreLookedAt(args: seq<string>, done: nat, parser: Parser)
    requires 1 <= done < |args|
    ensures
      var setting := ParseGoogleTestFlag(args[done], parser.flags, parser.isInt32);
      && Settings(args, done + 1, parser) == (if setting.Some? then Settings(args, done, parser) + [setting.value]
                                               else Settings(args, done, parser))
      && HelpAsked(args, done + 1, parser)
         == (HelpAsked(args, done, parser) || (setting.None? && AsksForHelp(args[done])))
  {
  }

  /** The arguments before `done` have been looked at, and i is the place of the next one. */
  ghost predicate Looking(argv: array<Option<string>>, argc: nat, i: nat, args: seq<string>, done: nat, parser: Parser)
    reads argv
  {
    && 1 <= done <= |args| && i == 1 + |Kept(args, done, parser)| && argc - i == |args| - done
    && argc < argv.Length && argv[..argc + 1] == Terminated(Remaining(args, done, parser))
  }

  lemma {:induction false} NoneLookedAt(argv: array<Option<string>>, argc: nat, args: seq<string>, parser: Parser)
    requires argc > 0 && argc == |args| && argv[..] == Terminated(args)
    ensures Looking(argv, argc, 1, args, 1, parser)
  {
    assert Remaining(args, 1, parser) == args;
    assert argv[..argc + 1] == argv[..];
  }

  lemma {:induction false} AllLookedAt(argv: array<Option<string>>, argc: nat, i: nat, args: seq<string>, done: nat,
                                       parser: Parser)
    requires Looking(argv, argc, i, args, done, parser) && i >= argc
    ensures done == |args| && argc == 1 + |Kept(args, done, parser)| && argc < argv.Length
    ensures argv[..argc + 1] == Terminated([args[0]] + Kept(args, done, parser))
  {
    assert Remaining(args, done, parser) == [args[0]] + Kept(args, done, parser);
  }

  /** What one turn of the loop does to argv: an argument that set a flag is taken out. */
  method Advance(argc: nat, argv: array<Option<string>>, i: nat, removeFlag: bool,
                 parser: Parser, ghost args: seq<string>, ghost done: nat)
    returns (argc': nat, i': nat)
    requires Looking(argv, argc, i, args, done, parser) && i < argc && removeFlag == Sets(args[done], parser)
    modifies argv
    ensures Looking(argv, argc', i', args, done + 1, parser)
  {
    ghost var before := argv[..argc + 1];
    ghost var after := Terminated(Remaining(args, done + 1, parser));
    argc', i' := argc, i;
    if removeFlag {
      DropOne(args, done, parser);
      ShiftDown(argv, i, argc);
      assert argv[..argc] == before[..i] + before[i + 1..] == after;
      argc' := argc - 1;
      i' := i - 1;
    } else {
      KeepOne(args, done, parser);
      assert argv[..argc + 1] == after;
    }
    assert argv[..argc' + 1] == after;
    i' := i' + 1;
  }

  /** One turn of the loop. */
  method LookAt(argc: nat, argv: array<Option<string>>, i: nat, parser: Parser, ghost args: seq<string>,
                ghost done: nat)
    returns (argc': nat, i': nat, setting: Option<Setting>, help: bool)
    requires Looking(argv, argc, i, args, done, parser) && i < argc
    modifies argv
    ensures Looking(argv, argc', i', args, done + 1, parser)
    ensures setting == ParseGoogleTestFlag(args[done], parser.flags, parser.isInt32)
    ensures help <==> setting.None? && AsksForHelp(args[done])
  {
    NextArgument(args, done, parser);
    assert argv[i] == argv[..argc + 1][i];
    var arg := argv[i].value;
    setting := ParseGoogleTestFlag(arg, parser.flags, parser.isInt32);
    help := setting.None? && AsksForHelp(arg);
    argc', i' := Advance(argc, argv, i, setting.Some?, parser, args, done);
  }

  /** Takes the arguments that set flags out of argv. */
  method ParseGoogleTestFlagsOnly(argc: nat, argv: array<Option<string>>, parser: Parser, ghost args: seq<string>)
    returns (argc': nat, settings: seq<Setting>, help: bool)
    requires argc > 0 && argc == |args| && argv[..] == Terminated(args)
    modifies argv
    ensures argc' == 1 + |Kept(args, argc, parser)| && argc' < argv.Length
    ensures argv[..argc' + 1] == Terminated([args[0]] + Kept(args, argc, parser))
    ensures settings == Settings(args, argc, parser)
    ensures help == HelpAsked(args, argc, parser)
  {
    argc', settings, help := argc, [], false;
    ghost var done := 1;
    NoneLookedAt(argv, argc, args, parser);
    var i: nat := 1;
    while i < argc'
      invariant Looking(argv, argc', i, args, done, parser)
      invariant settings == Settings(args, done, parser)
      invariant help == HelpAsked(args, done, parser)
      decreases |args| - done
    {
      var setting, asked;
      OneMoreLookedAt(args, done, parser);
      argc', i, setting, asked := LookAt(argc', argv, i, parser, args, done);
      done := done + 1;
      settings := if setting.Some? then settings + [setting.value] else settings;
      help := help || asked;
    }
    AllLookedAt(argv, argc', i, args, done, parser);
  }
}
