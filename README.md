# snap-confine argument parsing, in Dafny

This project models the command-line parser of `snap-confine`, the setuid
helper that starts a snap application inside its sandbox.
`sc_nonfatal_parse_args` takes `argcp`/`argvp` and reads `argv`. It scans the
option switches `--version`, `--classic` and `--base <snap>`. It then takes two
positional arguments, the security tag and the executable. Finally it
"consumes" the parsed prefix by shifting the rest of `argv` left in place,
keeping `argv[0]`, writes a NULL after the last kept entry, and stores the
new `argc` through `argcp`. The result is either a `struct sc_args` record or
an error. The `sc_args_*` accessors read the record's fields.

Files:

- `wrappers.dfy`: `Option` (a nullable pointer) and `Result`.
- `sc_args.dfy` (module `ScArgs`): the record `Args`, the error kinds, and the
  parse written as functions over the argument vector. These are `FirstNull`,
  `ScanOptions`, `TakePositionals`, `ParseArgv`, `Parse`, and `Consume` (the
  vector after the shift). This module also holds the five accessors.
- `command_line.dfy` (module `CommandLine`): the accepted command lines as a
  grammar (`Invocation`, `Render`) with the record each should give
  (`Expected`). It proves that `ParseArgv` accepts exactly these, and names
  the error for each way of leaving the grammar.
- `parse_args.dfy` (module `ScArgsParser`): the C function as an imperative
  method over pointer cells and an `array<Option<CString>>`. Each of its loops
  is a method proved against the function that specifies it.

Modelling choices:

- `argv` is an array whose entries may be NULL (`None`). `argc` is an `int`.
  The method requires only `argc <= argv.Length`: the C code reads
  `argv[0 .. argc-1]` and writes no index at or beyond `argc`.
- A `CString` is the characters of a C string before its terminating NUL.
  For these, `strcmp(x, y) == 0` is `x == y`. The type does not forbid a NUL
  inside; such a value has no C counterpart. An argument is a switch when its first
  byte is `-`. The empty string is therefore positional, because its first
  byte is the terminator.
- A negative `argc` passes both sanity checks, and every loop is skipped. The
  code then reports "security tag was not provided". The model follows this.
- The positional loop breaks on the executable, so the final `optind` is the
  executable's index. The arguments kept after the shift are those after the
  executable, or after `--version` on a version query.
- `--base` as the last argument is checked before the "only once" check. So
  `--base x --base` reports the missing value.

## Model

| member | source | states |
|---|---|---|
| `ScArgsParser.NonfatalParseArgs` | cmd/snap-confine/snap-confine-args.c:39-167 | NULL `argcp`/`argvp` gives `NullPointer`. Otherwise the outcome is `Parse` of `*argcp` and `*argvp`, with exactly one of record and error. On an error neither `*argcp` nor any `argv` entry changes. On success `argv` is `Consume(old argv, argc, optind)` and `*argcp` is `argc - optind` |
| `ScArgsParser.FindNullArgument` | cmd/snap-confine/snap-confine-args.c:55-61 | returns the first NULL index below `argc` (`FirstNull`), and none exactly when no entry below `argc` is NULL |
| `ScArgsParser.ScanSwitches` | cmd/snap-confine/snap-confine-args.c:67-110 | the switch loop from index 1 ends exactly as `ScanOptions` says: a usage error, `--version` at some index, or the index of the first positional argument |
| `ScArgsParser.TakeSecurityTagAndExecutable` | cmd/snap-confine/snap-confine-args.c:112-145 | the positional loop and its two checks give `TakePositionals`: no argument left is `NoSecurityTag`, one left is `NoExecutable`, otherwise the tag and the executable, with `optind` at the executable (`ScArgs.TakePositionals` is the function it is proved equal to) |
| `ScArgsParser.ShiftLeft` | cmd/snap-confine/snap-confine-args.c:147-154 | after the shift `argv` is `Consume(old argv, argc, optind)` |
| `ScArgs.FirstNull` | cmd/snap-confine/snap-confine-args.c:55-61 | the result is the least index below `n` whose entry is NULL, or none when every entry below `n` is non-NULL |
| `ScArgs.ScanOptions` | cmd/snap-confine/snap-confine-args.c:68-110 | a version stop lies at an index holding `--version` and sets the flag. A positional stop lies at or before argc on an argument that is not a switch. Neither changes tag or executable. A rejection is one of the three switch errors |
| `ScArgs.ParseArgv` | cmd/snap-confine/snap-confine-args.c:67-145 | on success `1 <= optind < argc`. A version query has `argv[optind] == "--version"` and no tag or executable. Otherwise the tag is `argv[optind-1]`, which is not a switch, and the executable is `argv[optind]` |
| `ScArgs.Consume` | cmd/snap-confine/snap-confine-args.c:148-157 | the vector keeps its length and `argv[0]`. `argv[j]` becomes old `argv[optind+j]` for `1 <= j < argc-optind`. `argv[argc-optind]` becomes NULL, and every later entry is unchanged |
| `ScArgs.Parse` | cmd/snap-confine/snap-confine-args.c:43-157 | the whole parse once `argcp` and `argvp` are non-NULL; it never reports `NullPointer`, and a failure carries the usage code (`IsUsage`) exactly when `argc != 0`, `argv` is non-NULL and no entry below `argc` is NULL |
| `ScArgs.NullInputRejected` | cmd/snap-confine/snap-confine-args.c:51-61 | `NoArguments` exactly when `argc == 0` or `argv` is NULL. `NullArgument(i)` exactly when `argv[i]` is the first NULL entry below `argc` |
| `ScArgs.SuccessfulParse` | cmd/snap-confine/snap-confine-args.c:129-157 | after a success the new argc `argc - optind` is between 1 and `argc - 1`. A version query has no tag and no executable; any other record has both |
| `CommandLine.ApplySwitchesEffect` | cmd/snap-confine/snap-confine-args.c:82-100 | with at most one `--base`, the switches set the classic flag iff `--classic` occurs and set the base snap to the `--base` value. Nothing else changes |
| `CommandLine.ScanThroughSwitches` | cmd/snap-confine/snap-confine-args.c:69-100 | scanning over the words of valid switches applies them in order and resumes right after them |
| `CommandLine.ScanSound` | cmd/snap-confine/snap-confine-args.c:69-110 | whatever the switch loop passes over is the spelling of a list of valid switches (`--base` at most once), and its record is those switches applied |
| `CommandLine.ParseComplete` | cmd/snap-confine/snap-confine-args.c:67-145 | every well-formed invocation is accepted with its expected record. Options stop at the first non-switch, and the executable may start with `-`. The arguments after `optind` are exactly the invocation's trailing ones |
| `CommandLine.ParseSound` | cmd/snap-confine/snap-confine-args.c:67-145 | every accepted vector is a well-formed invocation: program, switches, then tag and executable or `--version`, then the rest. The record is what that invocation should give, and the arguments after `optind` are its rest |
| `CommandLine.UnrecognizedOptionRejected` | cmd/snap-confine/snap-confine-args.c:101-108 | after valid switches, any other switch (a lone `-` included) fails with `UnrecognizedOption` naming it |
| `CommandLine.BaseWithoutValueRejected` | cmd/snap-confine/snap-confine-args.c:85-91 | `--base` as the last argument fails with `BaseWithoutValue` |
| `CommandLine.RepeatedBaseRejected` | cmd/snap-confine/snap-confine-args.c:92-98 | a second `--base` with a value fails with `BaseRepeated` |
| `CommandLine.MissingPositionalsRejected` | cmd/snap-confine/snap-confine-args.c:129-145 | after valid switches, no argument fails with `NoSecurityTag`, and a tag alone fails with `NoExecutable` |
| `CommandLine.ParseVector` | cmd/snap-confine/snap-confine-args.c:55-145 | a vector with no NULL entry below argc parses exactly as its strings do under `ParseArgv`: the same record and `optind` on success, and `Usage(e)` when `ParseArgv` fails with `e` |
| `CommandLine.AccessorsAfterParse` | cmd/snap-confine/snap-confine-args.c:186-219 | on the record parsed from a well-formed invocation the accessors `ScArgs.IsVersionQuery`, `ScArgs.IsClassicConfinement`, `ScArgs.BaseSnap`, `ScArgs.SecurityTag` and `ScArgs.Executable` (each requiring a non-NULL record, where the C code dies) report its version flag, classic flag, base snap, security tag and executable |
| `CommandLine.ConsumeKeepsRest` | cmd/snap-confine/snap-confine-args.c:148-157 | end to end on the vector: the new argc is one plus the number of trailing arguments. `argv[0]` is the program, `argv[1..]` are the trailing arguments, and a NULL follows them |

## Left out

- Memory management: `calloc` and its failure (`die`), `sc_strdup`, `sc_args_free` and `sc_cleanup_args` (cmd/snap-confine/snap-confine-args.c:63-66, 169-184). Copies are string values, and the record is a value.
- Error messages and numeric codes: `sc_error_init`/`sc_error_forward` are defined in headers that are not part of this model. Errors keep their kind only. `ParseError.IsUsage` separates `SC_ARGS_ERR_USAGE` from code 0. What `sc_error_forward` does with a NULL `errorp` is not modelled; the error is always returned.
- The accessors' `die` on a NULL record is a precondition (`args.Some?`), not a process exit.
- `ScArgsParser.NonfatalParseArgs` runs each C loop as a helper method. The control flow (`goto out`, `goto done`) becomes early returns and a `match`. The reads and writes of `argv` are those of the C code.
- The interface descriptors in interfaces/builtin/ (cpu_latency_qos_control.go, cpu_latency_qos_observe.go, ptrace_poc.go) are constant data handed to a registry that is not part of this model. Their tests exercise that registry and the policy evaluation and snippet composition around it, whose code is not part of this model.
