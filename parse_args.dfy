/**
 * sc_nonfatal_parse_args as the C code runs it: it checks the pointers and the
 * vector, scans the option switches, takes the two positional arguments, and
 * then shifts the rest of argv left in place and writes the new argc back.
 */
module ScArgsParser {
  import opened Wrappers
  import opened ScArgs

  /** The `int` that `argcp` points to. */
  class IntCell {
    var value: int
  }

  /** The `char **` that `argvp` points to; `argv` is null when it is NULL. */
  class ArgvCell {
    var argv: array?<Option<CString>>
  }

  /**
   * Parses `*argcp` and `*argvp`. The result is either a record or an error,
   * never both. On an error nothing is written; on success the parsed prefix
   * of argv is consumed as Consume describes and `*argcp` is the new count.
   */
  method NonfatalParseArgs(argcp: IntCell?, argvp: ArgvCell?) returns (args: Option<Args>, err: Option<ParseError>)
    requires argcp != null && argvp != null && argvp.argv != null ==> argcp.value <= argvp.argv.Length
    modifies argcp, if argvp != null then argvp.argv else null
    ensures args.None? <==> err.Some?
    ensures argcp == null || argvp == null ==> err == Some(NullPointer)
    ensures argcp != null && argvp != null ==>
      var r := Parse(old(argcp.value), if argvp.argv == null then None else Some(old(argvp.argv[..])));
      (r.Failure? ==> err == Some(r.error)) &&
      (r.Success? ==> args == Some(r.value.args))
    ensures err.Some? && argcp != null ==> argcp.value == old(argcp.value)
    ensures err.Some? && argvp != null && argvp.argv != null ==> argvp.argv[..] == old(argvp.argv[..])
    ensures args.Some? ==>
      argcp != null && argvp != null && argvp.argv != null &&
      var k := Parse(old(argcp.value), Some(old(argvp.argv[..]))).value.optind;
      argcp.value == old(argcp.value) - k &&
      argvp.argv[..] == Consume(old(argvp.argv[..]), old(argcp.value), k)
  {
    if argcp == null || argvp == null {
      return None, Some(NullPointer);
    }
    var argc := argcp.value;
    var argv := argvp.argv;
    if argc == 0 || argv == null {
      return None, Some(NoArguments);
    }
    var nullAt := FindNullArgument(argv, argc);
    if nullAt.Some? {
      return None, Some(NullArgument(nullAt.value));
    }
    var scan := ScanSwitches(argv, argc);
    var parsed: Parsed;
    match scan {
      case Rejected(e) =>
        return None, Some(Usage(e));
      case VersionAt(st, at) =>
        // "--version" ends the parse: nothing else is required.
        parsed := Parsed(st, at);
      case PositionalAt(st, at) =>
        var r := TakeSecurityTagAndExecutable(argv, argc, at, st);
        if r.Failure? {
          return None, Some(Usage(r.error));
        }
        parsed := r.value;
    }
    ShiftLeft(argv, argc, parsed.optind);
    argcp.value := argc - parsed.optind;
    return Some(parsed.args), None;
  }

  /** True when none of the first argc entries is NULL. */
  ghost predicate NoNullBelow(argv: array<Option<CString>>, argc: int)
    reads argv
  {
    argc <= argv.Length && forall j :: 0 <= j < argc ==> argv[j].Some?
  }

  /** The first argc entries as strings (none for a negative argc). */
  ghost function Arguments(argv: array<Option<CString>>, argc: int): (a: seq<CString>)
    reads argv
    requires NoNullBelow(argv, argc)
  {
    Strings(argv[..], if argc < 0 then 0 else argc)
  }

  /** The sanity loop: the index of the first NULL entry below argc. */
  method FindNullArgument(argv: array<Option<CString>>, argc: int) returns (r: Option<nat>)
    requires argc <= argv.Length
    ensures r == FirstNull(argv[..], if argc < 0 then 0 else argc)
    ensures r.None? <==> NoNullBelow(argv, argc)
  {
    ghost var n: nat := if argc < 0 then 0 else argc;
    var i := 0;
    while i < argc
      invariant 0 <= i <= n
      invariant forall j :: 0 <= j < i ==> argv[j].Some?
    {
      if argv[i].None? {
        return Some(i);
      }
      i := i + 1;
    }
    return None;
  }

  /** The option-switch loop, from index 1. */
  method ScanSwitches(argv: array<Option<CString>>, argc: int) returns (scan: Scan)
    requires NoNullBelow(argv, argc)
    ensures scan == ScanOptions(Arguments(argv, argc), 1, Cleared)
  {
    ghost var a := Arguments(argv, argc);
    var st := Cleared;
    var optind := 1;
    while optind < argc
      invariant 1 <= optind && (optind <= argc || optind == 1)
      invariant !st.isVersionQuery
      invariant ScanOptions(a, optind, st) == ScanOptions(a, 1, Cleared)
    {
      var arg := argv[optind].value;
      assert arg == a[optind];
      if !IsSwitch(arg) {
        break;
      }
      if arg == VersionSwitch {
        return VersionAt(st.(isVersionQuery := true), optind);
      } else if arg == ClassicSwitch {
        st := st.(isClassicConfinement := true);
      } else if arg == BaseSwitch {
        if optind + 1 >= argc {
          return Rejected(BaseWithoutValue);
        }
        if st.baseSnap.Some? {
          return Rejected(BaseRepeated);
        }
        st := st.(baseSnap := Some(argv[optind + 1].value));
        optind := optind + 1;
      } else {
        return Rejected(UnrecognizedOption(arg));
      }
      optind := optind + 1;
    }
    return PositionalAt(st, optind);
  }

  /**
   * The positional loop, from index `optind`: the first positional argument
   * becomes the security tag, the second the executable, and the loop stops
   * there; then both are checked to be present.
   */
  method TakeSecurityTagAndExecutable(argv: array<Option<CString>>, argc: int, optind: nat, st: Args)
      returns (r: Result<Parsed, UsageError>)
    requires NoNullBelow(argv, argc)
    requires st.securityTag.None? && st.executable.None?
    ensures r == TakePositionals(Arguments(argv, argc), optind, st)
  {
    ghost var a := Arguments(argv, argc);
    var args := st;
    var i := optind;
    while i < argc
      invariant args.executable.None?
      invariant (i == optind && args == st) ||
                (i == optind + 1 && i <= argc && args == st.(securityTag := Some(a[optind])))
    {
      if args.securityTag.None? {
        args := args.(securityTag := Some(argv[i].value));
      } else if args.executable.None? {
        args := args.(executable := Some(argv[i].value));
        break;
      }
      i := i + 1;
    }
    if args.securityTag.None? {
      return Failure(NoSecurityTag);
    }
    if args.executable.None? {
      return Failure(NoExecutable);
    }
    return Success(Parsed(args, i));
  }

  /**
   * The "shift": argv[optind + 1 ..] moves down to argv[1 ..], keeping
   * argv[0], and a NULL is written after the last moved entry.
   */
  method ShiftLeft(argv: array<Option<CString>>, argc: int, optind: int)
    requires 1 <= optind < argc <= argv.Length
    modifies argv
    ensures argv[..] == Consume(old(argv[..]), argc, optind)
  {
    var i := 1;
    while optind + i < argc
      invariant 1 <= i <= argc - optind
      invariant argv[0] == old(argv[0])
      invariant forall m :: 1 <= m < i ==> argv[m] == old(argv[optind + m])
      invariant forall m :: i <= m < argv.Length ==> argv[m] == old(argv[m])
    {
      argv[i] := argv[optind + i];
      i := i + 1;
    }
    argv[i] := None;
  }
}
