/**
 * The command line of snap-confine: its argument record, its error kinds, and
 * the parse written as functions over the argument vector. These functions are
 * the specification that the in-place parser (module ScArgsParser) is proved
 * against.
 */
module ScArgs {
  import opened Wrappers

  /**
   * A C string: its characters up to, not including, the terminating NUL.
   * For these, `strcmp(x, y) == 0` is `x == y`. The type does not forbid a
   * NUL inside; such a value has no C counterpart.
   */
  type CString = string

  /**
   * An argument is an option switch when its first byte is '-'. The first byte
   * of the empty string is its terminating NUL, so "" is not a switch, and the
   * lone "-" is one.
   */
  predicate IsSwitch(s: CString)
  {
    |s| > 0 && s[0] == '-'
  }

  const VersionSwitch: CString := "--version"
  const ClassicSwitch: CString := "--classic"
  const BaseSwitch: CString := "--base"

  /** The fields of `struct sc_args`; NULL pointers are None. */
  datatype Args = Args(
    securityTag: Option<CString>,
    executable: Option<CString>,
    baseSnap: Option<CString>,
    isVersionQuery: bool,
    isClassicConfinement: bool)

  /** The record as `calloc` hands it out: every pointer NULL, every flag false. */
  const Cleared := Args(None, None, None, false, false)

  /** Errors reported with code SC_ARGS_ERR_USAGE. */
  datatype UsageError =
    | BaseWithoutValue                    // "--base" is the last argument
    | BaseRepeated                        // "--base" given a second time
    | UnrecognizedOption(option: CString) // any other switch, "-" included
    | NoSecurityTag                       // no positional argument
    | NoExecutable                        // only one positional argument

  /** Every error of SC_ARGS_DOMAIN that the parser reports. */
  datatype ParseError =
    | NullPointer             // argcp or argvp is NULL (code 0)
    | NoArguments             // argc is zero or argv is NULL (code 0)
    | NullArgument(index: nat) // argv[index] is NULL (code 0)
    | Usage(reason: UsageError)
  {
    /** The errors that carry SC_ARGS_ERR_USAGE rather than code 0. */
    predicate IsUsage()
    {
      Usage?
    }
  }

  /** A successful parse: the record and the final value of `optind`. */
  datatype Parsed = Parsed(args: Args, optind: nat)

  /** Where the option-switch loop stops. */
  datatype Scan =
    | Rejected(reason: UsageError)
    | VersionAt(st: Args, at: nat)     // "--version" at index `at` ends the parse
    | PositionalAt(st: Args, at: nat)  // positional arguments start at `at`

  /**
   * The option-switch loop, from index `i` with the record `st` built so far,
   * over the arguments `a` (whose length is argc).
   */
  function ScanOptions(a: seq<CString>, i: nat, st: Args): (r: Scan)
    requires 1 <= i
    ensures r.VersionAt? ==>
      i <= r.at < |a| && a[r.at] == VersionSwitch && r.st.isVersionQuery &&
      r.st.securityTag == st.securityTag && r.st.executable == st.executable
    ensures r.PositionalAt? ==>
      i <= r.at && (i <= |a| ==> r.at <= |a|) &&
      (r.at < |a| ==> !IsSwitch(a[r.at])) &&
      r.st.securityTag == st.securityTag && r.st.executable == st.executable &&
      r.st.isVersionQuery == st.isVersionQuery
    ensures r.Rejected? ==> r.reason in {BaseWithoutValue, BaseRepeated} || r.reason.UnrecognizedOption?
    decreases |a| - i
  {
    if i >= |a| || !IsSwitch(a[i]) then PositionalAt(st, i)
    else if a[i] == VersionSwitch then VersionAt(st.(isVersionQuery := true), i)
    else if a[i] == ClassicSwitch then ScanOptions(a, i + 1, st.(isClassicConfinement := true))
    else if a[i] == BaseSwitch then
      if i + 1 >= |a| then Rejected(BaseWithoutValue)
      else if st.baseSnap.Some? then Rejected(BaseRepeated)
      else ScanOptions(a, i + 2, st.(baseSnap := Some(a[i + 1])))
    else Rejected(UnrecognizedOption(a[i]))
  }

  /**
   * The positional loop from index `i`: the first positional argument is the
   * security tag, the second the executable, and the loop stops on the latter.
   */
  function TakePositionals(a: seq<CString>, i: nat, st: Args): Result<Parsed, UsageError>
  {
    if i >= |a| then Failure(NoSecurityTag)
    else if i + 1 >= |a| then Failure(NoExecutable)
    else Success(Parsed(st.(securityTag := Some(a[i]), executable := Some(a[i + 1])), i + 1))
  }

  /** The parse of an argument vector in which no entry is NULL. */
  function ParseArgv(a: seq<CString>): (r: Result<Parsed, UsageError>)
    ensures r.Success? ==> 1 <= r.value.optind < |a|
    ensures r.Success? && r.value.args.isVersionQuery ==>
      a[r.value.optind] == VersionSwitch &&
      r.value.args.securityTag.None? && r.value.args.executable.None?
    ensures r.Success? && !r.value.args.isVersionQuery ==>
      r.value.args.securityTag == Some(a[r.value.optind - 1]) &&
      r.value.args.executable == Some(a[r.value.optind]) &&
      !IsSwitch(a[r.value.optind - 1])
  {
    match ScanOptions(a, 1, Cleared)
    case Rejected(e) => Failure(e)
    case VersionAt(st, i) => Success(Parsed(st, i))
    case PositionalAt(st, i) => TakePositionals(a, i, st)
  }

  /** The index of the first NULL among the first `n` entries, if any. */
  function FirstNull(s: seq<Option<CString>>, n: nat): (r: Option<nat>)
    requires n <= |s|
    ensures r.Some? ==> r.value < n && s[r.value].None? && forall j :: 0 <= j < r.value ==> s[j].Some?
    ensures r.None? ==> forall j :: 0 <= j < n ==> s[j].Some?
  {
    if n == 0 then None
    else match FirstNull(s, n - 1)
      case Some(k) => Some(k)
      case None => if s[n - 1].None? then Some(n - 1) else None
  }

  /** The first `n` entries, known not to be NULL, as strings. */
  function Strings(s: seq<Option<CString>>, n: nat): (r: seq<CString>)
    requires n <= |s|
    requires forall j :: 0 <= j < n ==> s[j].Some?
    ensures |r| == n && forall j :: 0 <= j < n ==> s[j] == Some(r[j])
  {
    seq(n, j requires 0 <= j < n => s[j].value)
  }

  /**
   * The whole parse of `sc_nonfatal_parse_args` once argcp and argvp are known
   * not to be NULL: `argc` is `*argcp`, `argv` is `*argvp` (None for NULL).
   */
  function Parse(argc: int, argv: Option<seq<Option<CString>>>): (r: Result<Parsed, ParseError>)
    requires argv.Some? ==> argc <= |argv.value|
    ensures r.Failure? ==> r.error != NullPointer
    ensures r.Failure? ==>
      (r.error.IsUsage() <==> argc != 0 && argv.Some? && forall j :: 0 <= j < argc ==> argv.value[j].Some?)
  {
    if argc == 0 || argv.None? then Failure(NoArguments)
    else
      var n := if argc < 0 then 0 else argc;
      match FirstNull(argv.value, n)
      case Some(i) => Failure(NullArgument(i))
      case None =>
        match ParseArgv(Strings(argv.value, n))
        case Failure(e) => Failure(Usage(e))
        case Success(p) => Success(p)
  }

  /**
   * The argument vector after the parsed prefix is consumed: argv[0] stays,
   * the arguments after index `k` move down to index 1, a NULL follows them,
   * and the entries beyond are left as they were.
   */
  function Consume(s: seq<Option<CString>>, argc: int, k: int): (r: seq<Option<CString>>)
    requires 1 <= k < argc <= |s|
    ensures |r| == |s|
    ensures r[0] == s[0]
    ensures forall j {:trigger r[j]} :: 1 <= j < argc - k ==> r[j] == s[k + j]
    ensures r[argc - k] == None
    ensures forall j {:trigger r[j]} :: argc - k < j < |s| ==> r[j] == s[j]
  {
    [s[0]] + s[k + 1..argc] + [None] + s[argc - k + 1..]
  }

  // The read-only accessors. Each dies on a NULL record, so each requires one.

  function IsVersionQuery(args: Option<Args>): bool
    requires args.Some?
  {
    args.value.isVersionQuery
  }

  function IsClassicConfinement(args: Option<Args>): bool
    requires args.Some?
  {
    args.value.isClassicConfinement
  }

  function SecurityTag(args: Option<Args>): Option<CString>
    requires args.Some?
  {
    args.value.securityTag
  }

  function Executable(args: Option<Args>): Option<CString>
    requires args.Some?
  {
    args.value.executable
  }

  function BaseSnap(args: Option<Args>): Option<CString>
    requires args.Some?
  {
    args.value.baseSnap
  }

  /**
   * Parse refuses exactly the vectors that are missing (argc zero or argv
   * NULL) and, among the others, reports the first NULL entry below argc.
   */
  lemma NullInputRejected(argc: int, argv: Option<seq<Option<CString>>>)
    requires argv.Some? ==> argc <= |argv.value|
    ensures (Parse(argc, argv) == Failure(NoArguments)) <==> (argc == 0 || argv.None?)
    ensures forall i: nat ::
      Parse(argc, argv) == Failure(NullArgument(i)) <==>
        (argc != 0 && argv.Some? && i < argc && argv.value[i].None? &&
         forall j :: 0 <= j < i ==> argv.value[j].Some?)
  {
  }

  /**
   * A successful parse reports a record that is either a version query with
   * no positional arguments or carries both the security tag and the
   * executable, and consumes at least one and fewer than argc arguments.
   */
  lemma SuccessfulParse(argc: int, argv: Option<seq<Option<CString>>>)
    requires argv.Some? ==> argc <= |argv.value|
    requires Parse(argc, argv).Success?
    ensures var p := Parse(argc, argv).value;
      1 <= p.optind < argc && 1 <= argc - p.optind <= argc - 1
    ensures var args := Some(Parse(argc, argv).value.args);
      if IsVersionQuery(args) then SecurityTag(args).None? && Executable(args).None?
      else SecurityTag(args).Some? && Executable(args).Some?
  {
  }
}
