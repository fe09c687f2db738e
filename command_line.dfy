/**
 * The accepted command lines of snap-confine, written as a grammar:
 *
 *   program switch* security-tag executable rest*
 *   program switch* --version rest*
 *
 * where a switch is "--classic" or "--base <snap>", "--base" appears at most
 * once and the security tag does not start with '-'. The lemmas show that
 * ParseArgv accepts exactly these command lines, with the meaning given here,
 * and name the error for each way of leaving the grammar.
 */
module CommandLine {
  import opened Wrappers
  import opened ScArgs

  datatype Switch = Classic | Base(snap: CString)

  function SwitchWords(sw: Switch): seq<CString>
  {
    match sw
    case Classic => [ClassicSwitch]
    case Base(snap) => [BaseSwitch, snap]
  }

  /** The arguments that spell out a list of switches. */
  function Words(sws: seq<Switch>): seq<CString>
  {
    if sws == [] then [] else SwitchWords(sws[0]) + Words(sws[1..])
  }

  function BaseCount(sws: seq<Switch>): nat
  {
    if sws == [] then 0 else (if sws[0].Base? then 1 else 0) + BaseCount(sws[1..])
  }

  /** The snap named by the first "--base" switch, if any. */
  function BaseOf(sws: seq<Switch>): Option<CString>
  {
    if sws == [] then None
    else if sws[0].Base? then Some(sws[0].snap)
    else BaseOf(sws[1..])
  }

  /** The record after one switch: "--classic" sets the flag, "--base" records the snap. */
  function Step(sw: Switch, st: Args): Args
  {
    match sw
    case Classic => st.(isClassicConfinement := true)
    case Base(snap) => st.(baseSnap := Some(snap))
  }

  /** The record after the switches are applied one by one, as the loop does. */
  function ApplySwitches(sws: seq<Switch>, st: Args): Args
  {
    if sws == [] then st else ApplySwitches(sws[1..], Step(sws[0], st))
  }

  datatype Invocation =
    | Run(program: CString, switches: seq<Switch>, securityTag: CString, executable: CString, rest: seq<CString>)
    | VersionQuery(program: CString, switches: seq<Switch>, rest: seq<CString>)

  predicate WellFormed(inv: Invocation)
  {
    BaseCount(inv.switches) <= 1 && (inv.Run? ==> !IsSwitch(inv.securityTag))
  }

  /** The argument vector (argv[0] .. argv[argc - 1]) of an invocation. */
  function Render(inv: Invocation): seq<CString>
  {
    match inv
    case Run(program, sws, tag, exe, rest) => [program] + Words(sws) + [tag, exe] + rest
    case VersionQuery(program, sws, rest) => [program] + Words(sws) + [VersionSwitch] + rest
  }

  /** What the parsed record of an invocation should hold. */
  function Expected(inv: Invocation): Args
  {
    Args(
      if inv.Run? then Some(inv.securityTag) else None,
      if inv.Run? then Some(inv.executable) else None,
      BaseOf(inv.switches),
      inv.VersionQuery?,
      Classic in inv.switches)
  }

  lemma {:induction false} WordsOfCons(sws: seq<Switch>)
    requires sws != []
    ensures Words(sws) == SwitchWords(sws[0]) + Words(sws[1..])
    ensures BaseCount(sws) == (if sws[0].Base? then 1 else 0) + BaseCount(sws[1..])
  {
  }

  /**
   * Applying switches changes only the flag and the base snap: "--classic"
   * sets the flag, and with at most one "--base" the base snap is its value.
   */
  lemma {:induction false} ApplySwitchesEffect(sws: seq<Switch>, st: Args)
    requires BaseCount(sws) <= (if st.baseSnap.Some? then 0 else 1)
    ensures ApplySwitches(sws, st) ==
      st.(baseSnap := if BaseOf(sws).Some? then BaseOf(sws) else st.baseSnap,
          isClassicConfinement := st.isClassicConfinement || Classic in sws)
    decreases sws
  {
    if sws != [] {
      var tail := sws[1..];
      assert sws == [sws[0]] + tail;
      match sws[0]
      case Classic =>
        ApplySwitchesEffect(tail, st.(isClassicConfinement := true));
      case Base(snap) =>
        NoBaseNoSnap(tail);
        ApplySwitchesEffect(tail, st.(baseSnap := Some(snap)));
    }
  }

  lemma {:induction false} NoBaseNoSnap(sws: seq<Switch>)
    requires BaseCount(sws) == 0
    ensures BaseOf(sws) == None
    decreases sws
  {
    if sws != [] {
      NoBaseNoSnap(sws[1..]);
    }
  }

  /** Scanning over the words of valid switches applies them and moves past them. */
  lemma {:induction false} ScanThroughSwitches(a: seq<CString>, i: nat, sws: seq<Switch>, st: Args)
    requires 1 <= i && i + |Words(sws)| <= |a|
    requires a[i..i + |Words(sws)|] == Words(sws)
    requires BaseCount(sws) <= (if st.baseSnap.Some? then 0 else 1)
    ensures ScanOptions(a, i, st) == ScanOptions(a, i + |Words(sws)|, ApplySwitches(sws, st))
    decreases sws
  {
    if sws != [] {
      WordsOfCons(sws);
      FirstSwitchAt(a, i, sws);
      ScanPastSwitch(a, i, st, sws[0]);
      ScanThroughSwitches(a, i + |SwitchWords(sws[0])|, sws[1..], Step(sws[0], st));
    }
  }

  /** The switch loop passes over the words of one switch, applying it. */
  lemma ScanPastSwitch(a: seq<CString>, i: nat, st: Args, sw: Switch)
    requires 1 <= i && i + |SwitchWords(sw)| <= |a|
    requires a[i..i + |SwitchWords(sw)|] == SwitchWords(sw)
    requires sw.Base? ==> st.baseSnap.None?
    ensures ScanOptions(a, i, st) == ScanOptions(a, i + |SwitchWords(sw)|, Step(sw, st))
  {
    var w := SwitchWords(sw);
    assert a[i] == w[0];
    if sw.Base? {
      assert a[i + 1] == w[1];
    }
  }

  /** Where the words of switches sit in `a`, the first switch's words come first. */
  lemma FirstSwitchAt(a: seq<CString>, i: nat, sws: seq<Switch>)
    requires sws != [] && i + |Words(sws)| <= |a|
    requires a[i..i + |Words(sws)|] == Words(sws)
    ensures var w := SwitchWords(sws[0]);
      a[i..i + |w|] == w && a[i + |w|..i + |Words(sws)|] == Words(sws[1..])
  {
    WordsOfCons(sws);
    SliceSplit(a, i, SwitchWords(sws[0]), Words(sws[1..]));
  }

  /** A slice that equals `x + y` splits into a slice equal to `x` and one equal to `y`. */
  lemma SliceSplit<T>(a: seq<T>, i: nat, x: seq<T>, y: seq<T>)
    requires i + |x| + |y| <= |a| && a[i..i + |x| + |y|] == x + y
    ensures a[i..i + |x|] == x && a[i + |x|..i + |x| + |y|] == y
  {
    var n := |x| + |y|;
    assert a[i..i + |x|] == a[i..i + n][..|x|];
    assert a[i + |x|..i + n] == a[i..i + n][|x|..];
  }

  /**
   * Every well-formed invocation is accepted with its expected record, and the
   * arguments left after the consumed prefix are exactly its trailing ones.
   */
  lemma ParseComplete(inv: Invocation)
    requires WellFormed(inv)
    ensures var r := ParseArgv(Render(inv));
      r.Success? && r.value.args == Expected(inv) &&
      r.value.optind < |Render(inv)| && Render(inv)[r.value.optind + 1..] == inv.rest
  {
    var a := Render(inv);
    var sws := inv.switches;
    var k := 1 + |Words(sws)|;
    assert a[1..k] == Words(sws);
    ScanThroughSwitches(a, 1, sws, Cleared);
    ApplySwitchesEffect(sws, Cleared);
    match inv
    case Run(program, _, tag, exe, rest) =>
      assert a[k] == tag && a[k + 1] == exe && a[k + 2..] == rest;
    case VersionQuery(program, _, rest) =>
      assert a[k] == VersionSwitch && a[k + 1..] == rest;
  }

  /**
   * The switch loop only ever passes over the words of valid switches: from
   * any start it stops after a list of switches that it has applied in order.
   */
  lemma {:induction false} ScanSound(a: seq<CString>, i: nat, st: Args) returns (sws: seq<Switch>)
    requires 1 <= i <= |a|
    requires !ScanOptions(a, i, st).Rejected?
    ensures SoundScan(a, i, st, sws)
    decreases |a| - i
  {
    if i == |a| || !IsSwitch(a[i]) || a[i] == VersionSwitch {
      sws := [];
    } else {
      var sw := if a[i] == ClassicSwitch then Classic else Base(a[i + 1]);
      var tail := ScanSound(a, i + |SwitchWords(sw)|, Step(sw, st));
      sws := [sw] + tail;
      ExtendSound(a, i, st, sw, tail);
    }
  }

  /** What ScanSound promises of the switches `sws` it finds from index `i`. */
  predicate SoundScan(a: seq<CString>, i: nat, st: Args, sws: seq<Switch>)
    requires 1 <= i
  {
    var r := ScanOptions(a, i, st);
    !r.Rejected? && i + |Words(sws)| == r.at && r.at <= |a| && a[i..r.at] == Words(sws) &&
    BaseCount(sws) <= (if st.baseSnap.Some? then 0 else 1) &&
    r.st == (if r.VersionAt? then ApplySwitches(sws, st).(isVersionQuery := true) else ApplySwitches(sws, st))
  }

  /** One recognised switch at index `i` extends a sound scan of what follows it. */
  lemma ExtendSound(a: seq<CString>, i: nat, st: Args, sw: Switch, tail: seq<Switch>)
    requires 1 <= i < |a| && IsSwitch(a[i]) && a[i] != VersionSwitch
    requires !ScanOptions(a, i, st).Rejected?
    requires sw == if a[i] == ClassicSwitch then Classic else Base(a[i + 1])
    requires i + |SwitchWords(sw)| <= |a|
    requires SoundScan(a, i + |SwitchWords(sw)|, Step(sw, st), tail)
    ensures SoundScan(a, i, st, [sw] + tail)
  {
    var w := SwitchWords(sw);
    assert a[i..i + |w|] == w;
    ScanPastSwitch(a, i, st, sw);
    StepSwitches(sw, tail, st);
    var at := ScanOptions(a, i, st).at;
    assert a[i..at] == a[i..i + |w|] + a[i + |w|..at];
  }

  /** One switch in front of a list: its words come first and it is applied first. */
  lemma StepSwitches(sw: Switch, tail: seq<Switch>, st: Args)
    ensures Words([sw] + tail) == SwitchWords(sw) + Words(tail)
    ensures BaseCount([sw] + tail) == (if sw.Base? then 1 else 0) + BaseCount(tail)
    ensures ApplySwitches([sw] + tail, st) == ApplySwitches(tail, Step(sw, st))
  {
    assert ([sw] + tail)[1..] == tail;
  }

  /**
   * Every accepted argument vector is a well-formed invocation, the record is
   * the one that invocation should give, and the arguments after the
   * consumed prefix are its trailing ones.
   */
  lemma ParseSound(a: seq<CString>) returns (inv: Invocation)
    requires ParseArgv(a).Success?
    ensures WellFormed(inv) && Render(inv) == a
    ensures ParseArgv(a).value.args == Expected(inv)
    ensures a[ParseArgv(a).value.optind + 1..] == inv.rest
  {
    var sws := ScanSound(a, 1, Cleared);
    assert SoundScan(a, 1, Cleared, sws);
    ApplySwitchesEffect(sws, Cleared);
    var k := 1 + |Words(sws)|;
    assert a[1..k] == Words(sws);
    if ParseArgv(a).value.args.isVersionQuery {
      inv := VersionQuery(a[0], sws, a[k + 1..]);
      SplitAt(a, k, 1);
    } else {
      inv := Run(a[0], sws, a[k], a[k + 1], a[k + 2..]);
      SplitAt(a, k, 2);
    }
  }

  /** A vector is its head, the slice up to `k`, `m` single entries, and the rest. */
  lemma SplitAt<T>(a: seq<T>, k: nat, m: nat)
    requires 1 <= k && k + m <= |a| && m <= 2
    ensures m == 1 ==> a == [a[0]] + a[1..k] + [a[k]] + a[k + 1..]
    ensures m == 2 ==> a == [a[0]] + a[1..k] + [a[k], a[k + 1]] + a[k + 2..]
  {
    if m == 1 {
      assert a == [a[0]] + a[1..k] + [a[k]] + a[k + 1..];
    } else if m == 2 {
      assert a == [a[0]] + a[1..k] + [a[k], a[k + 1]] + a[k + 2..];
    }
  }

  /** The prefix argv[0], then valid switches. */
  function Prefix(program: CString, sws: seq<Switch>): seq<CString>
  {
    [program] + Words(sws)
  }

  /** Scanning a vector that starts with Prefix(program, sws) resumes after it. */
  lemma ScanAfterPrefix(program: CString, sws: seq<Switch>, tail: seq<CString>)
    requires BaseCount(sws) <= 1
    ensures var a := Prefix(program, sws) + tail;
      ScanOptions(a, 1, Cleared) == ScanOptions(a, 1 + |Words(sws)|, ApplySwitches(sws, Cleared))
  {
    var a := Prefix(program, sws) + tail;
    assert a[1..1 + |Words(sws)|] == Words(sws);
    ScanThroughSwitches(a, 1, sws, Cleared);
  }

  /** Any other switch in the switch phase, "-" included, is refused by name. */
  lemma UnrecognizedOptionRejected(program: CString, sws: seq<Switch>, x: CString, tail: seq<CString>)
    requires BaseCount(sws) <= 1
    requires IsSwitch(x) && x != VersionSwitch && x != ClassicSwitch && x != BaseSwitch
    ensures ParseArgv(Prefix(program, sws) + [x] + tail) == Failure(UnrecognizedOption(x))
  {
    ScanAfterPrefix(program, sws, [x] + tail);
    assert Prefix(program, sws) + [x] + tail == Prefix(program, sws) + ([x] + tail);
  }

  /** "--base" as the last argument is a usage error. */
  lemma BaseWithoutValueRejected(program: CString, sws: seq<Switch>)
    requires BaseCount(sws) <= 1
    ensures ParseArgv(Prefix(program, sws) + [BaseSwitch]) == Failure(BaseWithoutValue)
  {
    ScanAfterPrefix(program, sws, [BaseSwitch]);
  }

  /** A second "--base" with a value is a usage error. */
  lemma RepeatedBaseRejected(program: CString, sws: seq<Switch>, snap: CString, tail: seq<CString>)
    requires BaseCount(sws) == 1
    ensures ParseArgv(Prefix(program, sws) + [BaseSwitch, snap] + tail) == Failure(BaseRepeated)
  {
    ScanAfterPrefix(program, sws, [BaseSwitch, snap] + tail);
    assert Prefix(program, sws) + [BaseSwitch, snap] + tail == Prefix(program, sws) + ([BaseSwitch, snap] + tail);
    ApplySwitchesEffect(sws, Cleared);
    BaseRecorded(sws);
  }

  lemma {:induction false} BaseRecorded(sws: seq<Switch>)
    requires BaseCount(sws) >= 1
    ensures BaseOf(sws).Some?
    decreases sws
  {
    if !sws[0].Base? {
      BaseRecorded(sws[1..]);
    }
  }

  /** Without a security tag, or with a tag and no executable, the parse fails. */
  lemma MissingPositionalsRejected(program: CString, sws: seq<Switch>, tag: CString)
    requires BaseCount(sws) <= 1 && !IsSwitch(tag)
    ensures ParseArgv(Prefix(program, sws)) == Failure(NoSecurityTag)
    ensures ParseArgv(Prefix(program, sws) + [tag]) == Failure(NoExecutable)
  {
    ScanAfterPrefix(program, sws, []);
    assert Prefix(program, sws) + [] == Prefix(program, sws);
    ScanAfterPrefix(program, sws, [tag]);
  }

  /**
   * The accessors on the record parsed from an invocation report what the
   * invocation says.
   */
  lemma AccessorsAfterParse(inv: Invocation)
    requires WellFormed(inv)
    ensures ParseArgv(Render(inv)).Success?
    ensures var args := Some(ParseArgv(Render(inv)).value.args);
      IsVersionQuery(args) == inv.VersionQuery? &&
      IsClassicConfinement(args) == (Classic in inv.switches) &&
      BaseSnap(args) == BaseOf(inv.switches) &&
      SecurityTag(args) == (if inv.Run? then Some(inv.securityTag) else None) &&
      Executable(args) == (if inv.Run? then Some(inv.executable) else None)
  {
    ParseComplete(inv);
  }

  /**
   * End to end on the argument vector: after parsing an invocation, argv[0]
   * is the program, argv[1 ..] are its trailing arguments, a NULL follows
   * them and argc counts exactly those. (ParseVector relates Parse on the
   * vector to ParseArgv on its strings.)
   */
  lemma ConsumeKeepsRest(inv: Invocation, s: seq<Option<CString>>)
    requires WellFormed(inv) && |Render(inv)| <= |s|
    requires forall j :: 0 <= j < |Render(inv)| ==> s[j] == Some(Render(inv)[j])
    ensures ParseArgv(Render(inv)).Success?
    ensures var argc, k := |Render(inv)|, ParseArgv(Render(inv)).value.optind;
      argc - k == 1 + |inv.rest| &&
      var out := Consume(s, argc, k);
      out[0] == Some(inv.program) && out[1 + |inv.rest|] == None &&
      forall j :: 0 <= j < |inv.rest| ==> out[1 + j] == Some(inv.rest[j])
  {
    var a := Render(inv);
    KeptArguments(inv);
    var k := ParseArgv(a).value.optind;
    assert 1 <= k < |a| <= |s| && |a| - k == 1 + |inv.rest|;
    assert forall j :: 0 <= j < |a| ==> s[j] == Some(a[j]);
    assert forall j :: 0 <= j < |inv.rest| ==> a[k + 1 + j] == inv.rest[j];
    ConsumedRest(s, a, k, inv.rest);
    assert Consume(s, |a|, k)[0] == Some(inv.program);
  }

  /**
   * When `s` holds the strings `a` below |a| and `rest` follows index `k` in
   * `a`, Consume moves `rest` down to index 1.
   */
  lemma ConsumedRest(s: seq<Option<CString>>, a: seq<CString>, k: int, rest: seq<CString>)
    requires 1 <= k < |a| <= |s| && |a| - k == 1 + |rest|
    requires forall j :: 0 <= j < |a| ==> s[j] == Some(a[j])
    requires forall j :: 0 <= j < |rest| ==> a[k + 1 + j] == rest[j]
    ensures forall j :: 0 <= j < |rest| ==> Consume(s, |a|, k)[1 + j] == Some(rest[j])
  {
    var out := Consume(s, |a|, k);
    forall j | 0 <= j < |rest|
      ensures out[1 + j] == Some(rest[j])
    {
      assert out[1 + j] == s[k + (1 + j)] == Some(a[k + 1 + j]);
    }
  }

  /** The arguments after the consumed prefix of an invocation are its trailing ones. */
  lemma KeptArguments(inv: Invocation)
    requires WellFormed(inv)
    ensures ParseArgv(Render(inv)).Success?
    ensures var a, k := Render(inv), ParseArgv(Render(inv)).value.optind;
      a[0] == inv.program && |a| - k == 1 + |inv.rest| &&
      forall j :: 0 <= j < |inv.rest| ==> a[k + 1 + j] == inv.rest[j]
  {
    ParseComplete(inv);
    var a, k := Render(inv), ParseArgv(Render(inv)).value.optind;
    forall j | 0 <= j < |inv.rest|
      ensures a[k + 1 + j] == inv.rest[j]
    {
      assert a[k + 1 + j] == a[k + 1..][j];
    }
  }

  /** A vector with no NULL below argc parses as its strings do, with the same optind. */
  lemma ParseVector(a: seq<CString>, s: seq<Option<CString>>)
    requires 0 < |a| <= |s|
    requires forall j :: 0 <= j < |a| ==> s[j] == Some(a[j])
    ensures Parse(|a|, Some(s)) ==
      match ParseArgv(a)
      case Failure(e) => Failure(Usage(e))
      case Success(p) => Success(p)
  {
    assert Strings(s, |a|) == a;
  }
}
