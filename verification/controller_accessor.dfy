/** The ControllerAccessor tool: it validates its retry count and delay, then
    makes a fixed number of attempts on the framework's controller, each one
    a fresh connection that reads the configuration and, on exactly one
    attempt, substitutes it back. */
module ControllerAccessor {
  import opened Base
  import opened Numbers
  import opened Argv

  const DefaultRetries: int := 100
  const DefaultDelayMs: int := 500

  const ExitSuccessCode: int := 0
  const ExitFailureCode: int := 1

  /** Where argument parsing leaves the program: running with a retry count
      and delay, or already exited through `exit(EXIT_SUCCESS)` (usage or
      help) or `exit(EXIT_FAILURE)`. */
  datatype ParseOutcome = Proceed(retries: int, delayMs: int) | ExitSuccess | ExitFailure

  predicate IsOption(arg: string) {
    |arg| >= 2 && arg[0] == '-'
  }

  /** The option loop from `argv[i]` on: `-h`/`--help` exits successfully;
      `-r`/`--retries` and `-d`/`--delay` read the next element with `atoi`
      and exit with failure on a negative value or a missing one; any other
      option exits with failure; `--` ends the options; other elements are
      ignored. */
  function ParseFrom(args: seq<string>, i: nat, retries: int, delayMs: int): (r: ParseOutcome)
    ensures retries >= 0 && delayMs >= 0 && r.Proceed? ==> r.retries >= 0 && r.delayMs >= 0
    decreases |args| - i
  {
    if i >= |args| then Proceed(retries, delayMs)
    else
      var arg := args[i];
      if arg == "-h" || arg == "--help" then ExitSuccess
      else if arg == "-r" || arg == "--retries" then
        if i + 1 >= |args| then ExitFailure
        else
          var n := Atoi(args[i + 1]);
          if n < 0 then ExitFailure else ParseFrom(args, i + 2, n, delayMs)
      else if arg == "-d" || arg == "--delay" then
        if i + 1 >= |args| then ExitFailure
        else
          var n := Atoi(args[i + 1]);
          if n < 0 then ExitFailure else ParseFrom(args, i + 2, retries, n)
      else if arg == "--" then Proceed(retries, delayMs)
      else if IsOption(arg) then ExitFailure
      else ParseFrom(args, i + 1, retries, delayMs)
  }

  /** `parseArgs`: with no arguments at all it prints usage and exits
      successfully; otherwise the option loop runs from the defaults of 100
      retries and 500 ms. Only values that are not negative get through;
      0 among them. */
  function ParseArgs(args: seq<string>): (r: ParseOutcome)
    ensures |args| == 1 ==> r == ExitSuccess
    ensures r.Proceed? ==> r.retries >= 0 && r.delayMs >= 0
  {
    if |args| == 1 then ExitSuccess else ParseFrom(args, 1, DefaultRetries, DefaultDelayMs)
  }

  /** The option elements that take the element after them as their value. */
  const ValueFlags: set<string> := {"-r", "--retries", "-d", "--delay"}
  const RetriesFlags: set<string> := {"-r", "--retries"}
  const DelayFlags: set<string> := {"-d", "--delay"}

  /** Whether a step of the option loop ends it: a help flag, `--`, an option
      the tool does not know, or `-r`/`-d` with a missing or negative value. */
  predicate Ends(t: Token) {
    match t
    case Help => true
    case Valued(_, v) => v.None? || Atoi(v.value) < 0
    case Word(w) => w == "--help" || w == "--" || IsOption(w)
  }

  /** The steps the option loop completes: those before the first that ends it. */
  function Completed(ts: seq<Token>): (pre: seq<Token>)
    ensures pre <= ts
    ensures |pre| < |ts| ==> Ends(ts[|pre|])
  {
    if |ts| == 0 || Ends(ts[0]) then [] else [ts[0]] + Completed(ts[1..])
  }

  /** No completed step ends the loop. */
  lemma {:induction false} CompletedContinue(ts: seq<Token>)
    ensures forall k | 0 <= k < |Completed(ts)| :: !Ends(Completed(ts)[k])
  {
    if |ts| > 0 && !Ends(ts[0]) {
      CompletedContinue(ts[1..]);
      assert Completed(ts) == [ts[0]] + Completed(ts[1..]);
    }
  }

  /** The value set by the last completed occurrence of `flags`, or `default`
      when there is none. */
  function Setting(pre: seq<Token>, flags: set<string>, default: int): int {
    match LastOf(pre, flags)
    case Some(Valued(_, Some(v))) => Atoi(v)
    case _ => default
  }

  /** What the option loop decides, stated over the steps rather than the
      index: the step that ends it decides the exit (success for help, `--`
      proceeds, anything else fails); when it proceeds, each setting is the
      one given by its last completed occurrence, or the incoming one. */
  function Decision(ts: seq<Token>, retries: int, delayMs: int): ParseOutcome {
    var pre := Completed(ts);
    var settled := Proceed(Setting(pre, RetriesFlags, retries), Setting(pre, DelayFlags, delayMs));
    if |pre| == |ts| then settled
    else match ts[|pre|]
      case Help => ExitSuccess
      case Word(w) => if w == "--help" then ExitSuccess else if w == "--" then settled else ExitFailure
      case Valued(_, _) => ExitFailure
  }

  lemma SettingCons(t: Token, pre: seq<Token>, flags: set<string>, default: int)
    requires forall k | 0 <= k < |pre| :: !Ends(pre[k])
    ensures Setting([t] + pre, flags, default) ==
      Setting(pre, flags, if Matches(t, flags) && t.value.Some? then Atoi(t.value.value) else default)
  {
    LastOfCons(t, pre, flags);
    if LastOf(pre, flags).Some? {
      var k :| 0 <= k < |pre| && pre[k] == LastOf(pre, flags).value && Matches(pre[k], flags);
      assert !Ends(pre[k]);
    }
  }

  /** A step that does not end the loop hands its settings on to the rest. */
  lemma DecisionCons(t: Token, ts: seq<Token>, retries: int, delayMs: int)
    requires !Ends(t)
    ensures Decision([t] + ts, retries, delayMs) ==
      Decision(ts,
        if Matches(t, RetriesFlags) then Atoi(t.value.value) else retries,
        if Matches(t, DelayFlags) then Atoi(t.value.value) else delayMs)
  {
    assert ([t] + ts)[1..] == ts;
    var pre := Completed(ts);
    assert Completed([t] + ts) == [t] + pre;
    CompletedContinue(ts);
    SettingCons(t, pre, RetriesFlags, retries);
    SettingCons(t, pre, DelayFlags, delayMs);
    if |pre| < |ts| {
      assert ([t] + ts)[|[t] + pre|] == ts[|pre|];
    }
  }

  /** A step that ends the loop decides the outcome on its own. */
  lemma DecisionEnds(t: Token, ts: seq<Token>, retries: int, delayMs: int)
    requires Ends(t)
    ensures Decision([t] + ts, retries, delayMs) ==
      match t
      case Help => ExitSuccess
      case Word(w) => if w == "--help" then ExitSuccess else if w == "--" then Proceed(retries, delayMs) else ExitFailure
      case Valued(_, _) => ExitFailure
  {
    assert Completed([t] + ts) == [];
    assert ([t] + ts)[0] == t;
    assert LastOf([], RetriesFlags) == None && LastOf([], DelayFlags) == None;
  }

  /** The option loop from `argv[i]` on, for any arguments, decides as the
      step view does: a reached `-h`/`--help` exits with success; an unknown
      option, or `-r`/`-d` with a missing or negative value, exits with
      failure; otherwise the last `-r` and the last `-d` scanned win. */
  lemma {:induction false} ParseFromMeaning(args: seq<string>, i: nat, retries: int, delayMs: int)
    ensures ParseFrom(args, i, retries, delayMs) == Decision(Tokens(args, i, ValueFlags), retries, delayMs)
    decreases |args| - i
  {
    if i >= |args| {
      assert Tokens(args, i, ValueFlags) == [];
      assert Completed([]) == [];
      assert LastOf([], RetriesFlags) == None && LastOf([], DelayFlags) == None;
    } else if args[i] in ValueFlags {
      if i + 1 < |args| && Atoi(args[i + 1]) >= 0 {
        var n := Atoi(args[i + 1]);
        ParseFromMeaning(args, i + 2,
          if args[i] in RetriesFlags then n else retries,
          if args[i] in DelayFlags then n else delayMs);
      }
      ValuedStep(args, i, retries, delayMs);
    } else {
      if !Ends(Word(args[i])) && args[i] != "-h" {
        ParseFromMeaning(args, i + 1, retries, delayMs);
      }
      OtherStep(args, i, retries, delayMs);
    }
  }

  /** `ParseFromMeaning` for a value flag, given the rest of the scan. */
  lemma ValuedStep(args: seq<string>, i: nat, retries: int, delayMs: int)
    requires i < |args| && args[i] in ValueFlags
    requires i + 1 < |args| && Atoi(args[i + 1]) >= 0 ==>
      var n := Atoi(args[i + 1]);
      var r := if args[i] in RetriesFlags then n else retries;
      var d := if args[i] in DelayFlags then n else delayMs;
      ParseFrom(args, i + 2, r, d) == Decision(Tokens(args, i + 2, ValueFlags), r, d)
    ensures ParseFrom(args, i, retries, delayMs) == Decision(Tokens(args, i, ValueFlags), retries, delayMs)
  {
    var t := Valued(args[i], if i + 1 < |args| then Some(args[i + 1]) else None);
    var rest := Tokens(args, i + 2, ValueFlags);
    assert Tokens(args, i, ValueFlags) == [t] + rest;
    if Ends(t) {
      DecisionEnds(t, rest, retries, delayMs);
    } else {
      DecisionCons(t, rest, retries, delayMs);
    }
  }

  /** `ParseFromMeaning` for any other element, given the rest of the scan. */
  lemma OtherStep(args: seq<string>, i: nat, retries: int, delayMs: int)
    requires i < |args| && args[i] !in ValueFlags
    requires !Ends(Word(args[i])) && args[i] != "-h" ==>
      ParseFrom(args, i + 1, retries, delayMs) == Decision(Tokens(args, i + 1, ValueFlags), retries, delayMs)
    ensures ParseFrom(args, i, retries, delayMs) == Decision(Tokens(args, i, ValueFlags), retries, delayMs)
  {
    var t := if args[i] == "-h" then Help else Word(args[i]);
    var rest := Tokens(args, i + 1, ValueFlags);
    assert Tokens(args, i, ValueFlags) == [t] + rest;
    if Ends(t) {
      DecisionEnds(t, rest, retries, delayMs);
    } else {
      DecisionCons(t, rest, retries, delayMs);
    }
  }

  /** `parseArgs` on any arguments beyond the program name: the outcome the
      step view decides from the defaults of 100 retries and 500 ms. */
  lemma ParseArgsMeaning(args: seq<string>)
    requires |args| != 1
    ensures ParseArgs(args) == Decision(Tokens(args, 1, ValueFlags), DefaultRetries, DefaultDelayMs)
  {
    ParseFromMeaning(args, 1, DefaultRetries, DefaultDelayMs);
  }

  /** Without options the defaults stand. */
  lemma {:induction false} NoOptionsKeepDefaults(args: seq<string>, i: nat, retries: int, delayMs: int)
    requires forall k | i <= k < |args| :: !IsOption(args[k]) && args[k] != "--"
    ensures ParseFrom(args, i, retries, delayMs) == Proceed(retries, delayMs)
    decreases |args| - i
  {
    if i < |args| {
      assert !IsOption(args[i]);
      NoOptionsKeepDefaults(args, i + 1, retries, delayMs);
    }
  }

  /** A retry count on its own is accepted exactly when `atoi` reads it as
      not negative (0 included), and then replaces the default; the delay
      stays 500 ms. */
  lemma RetriesOption(flag: string, text: string)
    requires flag == "-r" || flag == "--retries"
    ensures ParseArgs(["ControllerAccessor", flag, text]) ==
      if Atoi(text) >= 0 then Proceed(Atoi(text), DefaultDelayMs) else ExitFailure
  {
    var args := ["ControllerAccessor", flag, text];
    assert args[1] == flag && args[2] == text;
    assert flag != "-h" && flag != "--help";
    assert ParseFrom(args, 3, Atoi(text), DefaultDelayMs) == Proceed(Atoi(text), DefaultDelayMs);
  }

  /** A delay on its own is accepted exactly when `atoi` reads it as not
      negative, and then replaces the default; the retry count stays 100. */
  lemma DelayOption(flag: string, text: string)
    requires flag == "-d" || flag == "--delay"
    ensures ParseArgs(["ControllerAccessor", flag, text]) ==
      if Atoi(text) >= 0 then Proceed(DefaultRetries, Atoi(text)) else ExitFailure
  {
    var args := ["ControllerAccessor", flag, text];
    assert args[1] == flag && args[2] == text;
    assert flag != "-h" && flag != "--help" && flag != "-r" && flag != "--retries";
    assert ParseFrom(args, 3, DefaultRetries, Atoi(text)) == Proceed(DefaultRetries, Atoi(text));
  }

  /** What the connector reports during one attempt: whether it is already
      operational, whether `Open` succeeds, and whether a controller
      interface is available afterwards. */
  datatype Observation = Observation(operational: bool, openSucceeds: bool, controller: bool)

  /** What one attempt does on the controller and its connection. */
  datatype Action = Open(ok: bool) | ReadConfig | Substitute | Close | Sleep(ms: nat)

  /** The `Open` call an attempt makes when the connector is not yet
      operational. */
  function Opening(o: Observation): seq<Action> {
    if !o.operational then [Open(o.openSucceeds)] else []
  }

  /** The configuration read an attempt makes when a controller is available,
      followed by the substitution on the designated attempt. */
  function Reading(o: Observation, substitute: bool): seq<Action> {
    if !o.controller then [] else if substitute then [ReadConfig, Substitute] else [ReadConfig]
  }

  /** Attempt number `attempt` of `maxRetries`: open if not operational, read
      the configuration if there is a controller (and substitute it back when
      `maxRetries - attempt == 1`), then close and sleep. */
  function Attempt(maxRetries: u8, attempt: nat, delayMs: u16, o: Observation): seq<Action> {
    Opening(o) + Reading(o, maxRetries - attempt == 1) + [Close, Sleep(delayMs)]
  }

  /** Attempts 1 to `n`, in order; `world(k)` is what the connector reports
      during attempt `k`. */
  function Attempts(maxRetries: u8, delayMs: u16, world: nat -> Observation, n: nat): seq<Action> {
    if n == 0 then []
    else Attempts(maxRetries, delayMs, world, n - 1) + Attempt(maxRetries, n, delayMs, world(n))
  }

  lemma EndsWith<T>(p: seq<T>, c: seq<T>)
    ensures (p + c)[|p + c| - |c|..] == c
  {
  }

  lemma CountThree(a: seq<Action>, b: seq<Action>, c: seq<Action>, x: Action)
    ensures Count(a + b + c, x) == Count(a, x) + Count(b, x) + Count(c, x)
  {
    CountAppend(a, b, x);
    CountAppend(a + b, c, x);
  }

  /** One attempt closes and sleeps once, and substitutes once exactly when it
      is attempt `maxRetries - 1` and a controller is there. */
  lemma AttemptCounts(maxRetries: u8, attempt: nat, delayMs: u16, o: Observation)
    ensures Count(Attempt(maxRetries, attempt, delayMs, o), Close) == 1
    ensures Count(Attempt(maxRetries, attempt, delayMs, o), Sleep(delayMs)) == 1
    ensures Count(Attempt(maxRetries, attempt, delayMs, o), Substitute) ==
      if o.controller && attempt + 1 == maxRetries then 1 else 0
  {
    var a := Opening(o);
    var b := Reading(o, maxRetries - attempt == 1);
    var c := [Close, Sleep(delayMs)];
    assert c[1..] == [Sleep(delayMs)];
    assert Count(c, Close) == 1 && Count(c, Sleep(delayMs)) == 1 && Count(c, Substitute) == 0;
    assert Count(a, Close) == 0 && Count(a, Sleep(delayMs)) == 0 && Count(a, Substitute) == 0;
    assert Count(b, Close) == 0 && Count(b, Sleep(delayMs)) == 0;
    if o.controller && maxRetries - attempt == 1 {
      assert b[1..] == [Substitute];
      assert Count(b, Substitute) == 1;
    } else {
      assert Count(b, Substitute) == 0;
    }
    CountThree(a, b, c, Close);
    CountThree(a, b, c, Sleep(delayMs));
    CountThree(a, b, c, Substitute);
  }

  /** An attempt calls `Open` exactly when the connector is not operational,
      and reads the configuration exactly when a controller is there. */
  lemma AttemptOpensAndReads(maxRetries: u8, attempt: nat, delayMs: u16, o: Observation)
    ensures Count(Attempt(maxRetries, attempt, delayMs, o), Open(o.openSucceeds)) == if o.operational then 0 else 1
    ensures Count(Attempt(maxRetries, attempt, delayMs, o), ReadConfig) == if o.controller then 1 else 0
  {
    var a := Opening(o);
    var b := Reading(o, maxRetries - attempt == 1);
    var c := [Close, Sleep(delayMs)];
    CountZero(c, Open(o.openSucceeds));
    CountZero(c, ReadConfig);
    CountZero(a, ReadConfig);
    CountZero(b, Open(o.openSucceeds));
    if o.controller && maxRetries - attempt == 1 {
      assert b[1..] == [Substitute];
    }
    CountThree(a, b, c, Open(o.openSucceeds));
    CountThree(a, b, c, ReadConfig);
  }

  /** The first `n` attempts close once each. */
  lemma {:induction false} AttemptsClose(maxRetries: u8, delayMs: u16, world: nat -> Observation, n: nat)
    ensures Count(Attempts(maxRetries, delayMs, world, n), Close) == n
  {
    if n > 0 {
      AttemptCounts(maxRetries, n, delayMs, world(n));
      AttemptsClose(maxRetries, delayMs, world, n - 1);
      CountAppend(Attempts(maxRetries, delayMs, world, n - 1), Attempt(maxRetries, n, delayMs, world(n)), Close);
    }
  }

  /** The first `n` attempts sleep once each, for the configured delay. */
  lemma {:induction false} AttemptsSleep(maxRetries: u8, delayMs: u16, world: nat -> Observation, n: nat)
    ensures Count(Attempts(maxRetries, delayMs, world, n), Sleep(delayMs)) == n
  {
    if n > 0 {
      AttemptCounts(maxRetries, n, delayMs, world(n));
      AttemptsSleep(maxRetries, delayMs, world, n - 1);
      CountAppend(Attempts(maxRetries, delayMs, world, n - 1), Attempt(maxRetries, n, delayMs, world(n)), Sleep(delayMs));
    }
  }

  /** Among the first `n` attempts only attempt `maxRetries - 1` substitutes,
      and only when it is one of them and a controller is there. */
  lemma {:induction false} AttemptsSubstitute(maxRetries: u8, delayMs: u16, world: nat -> Observation, n: nat)
    ensures Count(Attempts(maxRetries, delayMs, world, n), Substitute) ==
      if 1 <= maxRetries - 1 <= n && world(maxRetries - 1).controller then 1 else 0
  {
    if n > 0 {
      AttemptCounts(maxRetries, n, delayMs, world(n));
      AttemptsSubstitute(maxRetries, delayMs, world, n - 1);
      CountAppend(Attempts(maxRetries, delayMs, world, n - 1), Attempt(maxRetries, n, delayMs, world(n)), Substitute);
    }
  }

  /** After at least one attempt the trace ends with a close and a sleep. */
  lemma AttemptsEndWithSleep(maxRetries: u8, delayMs: u16, world: nat -> Observation, n: nat)
    requires n >= 1
    ensures var s := Attempts(maxRetries, delayMs, world, n);
      |s| >= 2 && s[|s| - 2..] == [Close, Sleep(delayMs)]
  {
    var before := Attempts(maxRetries, delayMs, world, n - 1);
    var middle := Opening(world(n)) + Reading(world(n), maxRetries - n == 1);
    var last := [Close, Sleep(delayMs)];
    assert Attempts(maxRetries, delayMs, world, n) == before + (middle + last);
    EndsWith(before + middle, last);
    assert before + (middle + last) == (before + middle) + last;
  }

  /** While the connector stays operational no attempt calls `Open`. */
  lemma {:induction false} NoOpenWhileOperational(maxRetries: u8, delayMs: u16, world: nat -> Observation, n: nat)
    requires forall k :: world(k).operational
    ensures Open(true) !in Attempts(maxRetries, delayMs, world, n)
    ensures Open(false) !in Attempts(maxRetries, delayMs, world, n)
  {
    if n > 0 {
      NoOpenWhileOperational(maxRetries, delayMs, world, n - 1);
      assert Opening(world(n)) == [];
    }
  }

  /** The body of `access`'s retry loop for attempt `attempt`. */
  method RunAttempt(maxRetries: u8, attempt: nat, delayMs: u16, o: Observation) returns (step: seq<Action>)
    ensures step == Attempt(maxRetries, attempt, delayMs, o)
    ensures Count(step, Close) == 1 && Count(step, Sleep(delayMs)) == 1
    ensures Count(step, Open(o.openSucceeds)) == if o.operational then 0 else 1
    ensures Count(step, ReadConfig) == if o.controller then 1 else 0
    ensures Count(step, Substitute) == if o.controller && attempt + 1 == maxRetries then 1 else 0
  {
    step := [];
    if !o.operational {
      step := step + [Open(o.openSucceeds)];
    }
    if o.controller {
      if maxRetries - attempt == 1 {
        step := step + [ReadConfig, Substitute];
      } else {
        step := step + [ReadConfig];
      }
    }
    step := step + [Close, Sleep(delayMs)];
    AttemptCounts(maxRetries, attempt, delayMs, o);
    AttemptOpensAndReads(maxRetries, attempt, delayMs, o);
  }

  /** `ControllerAccessor::access`. `success` is never set, so the loop runs
      all `maxRetries` attempts (none for 0), closing and sleeping on each;
      `Substitute` runs at most once, on attempt `maxRetries - 1`, and never
      when `maxRetries <= 1`; the result is true regardless. */
  method Access(maxRetries: u8, retryDelayMs: u16, world: nat -> Observation) returns (ok: bool, trace: seq<Action>)
    ensures ok
    ensures trace == Attempts(maxRetries, retryDelayMs, world, maxRetries)
    ensures Count(trace, Close) == maxRetries && Count(trace, Sleep(retryDelayMs)) == maxRetries
    ensures Count(trace, Substitute) == if maxRetries >= 2 && world(maxRetries - 1).controller then 1 else 0
    ensures maxRetries > 0 ==> trace[|trace| - 2..] == [Close, Sleep(retryDelayMs)]
  {
    var success := false;
    var currentRetry := 1;
    trace := [];
    while !success && currentRetry <= maxRetries
      invariant 1 <= currentRetry <= maxRetries + 1
      invariant !success
      invariant trace == Attempts(maxRetries, retryDelayMs, world, currentRetry - 1)
      decreases maxRetries + 1 - currentRetry
    {
      var step := RunAttempt(maxRetries, currentRetry, retryDelayMs, world(currentRetry));
      trace := trace + step;
      currentRetry := currentRetry + 1;
    }
    ok := true;
    AttemptsClose(maxRetries, retryDelayMs, world, maxRetries);
    AttemptsSleep(maxRetries, retryDelayMs, world, maxRetries);
    AttemptsSubstitute(maxRetries, retryDelayMs, world, maxRetries);
    if maxRetries > 0 {
      AttemptsEndWithSleep(maxRetries, retryDelayMs, world, maxRetries);
    }
  }

  /** The attempt count `main` ends up with: the parsed `int` retry count
      passed to `access`'s `uint8_t` parameter, so taken modulo 256. */
  function EffectiveAttempts(args: seq<string>): (n: u8)
    ensures ParseArgs(args).Proceed? && ParseArgs(args).retries < 0x100 ==> n == ParseArgs(args).retries
    ensures ParseArgs(args).Proceed? ==> n == ParseArgs(args).retries % 0x100
    ensures !ParseArgs(args).Proceed? ==> n == 0
  {
    match ParseArgs(args)
    case Proceed(retries, _) => ToU8(retries)
    case _ => 0
  }

  /** `-r 256` makes no attempt at all, `-r 300` makes 44. */
  lemma RetriesNarrowed(n: nat)
    ensures EffectiveAttempts(["ControllerAccessor", "-r", DecimalText(n)]) == n % 0x100
  {
    RetriesOption("-r", DecimalText(n));
    AtoiDecimalText(n);
  }

  /** The tool's `main`: parse, then run `access` with the narrowed count and delay. The
      exit status is failure only when parsing failed, since `access` always
      reports success. */
  method Run(args: seq<string>, world: nat -> Observation) returns (exitCode: int, trace: seq<Action>)
    ensures exitCode == ExitFailureCode <==> ParseArgs(args).ExitFailure?
    ensures exitCode == ExitSuccessCode <==> !ParseArgs(args).ExitFailure?
    ensures Count(trace, Close) == EffectiveAttempts(args)
    ensures ParseArgs(args).Proceed? ==>
      var p := ParseArgs(args);
      trace == Attempts(ToU8(p.retries), ToU16(p.delayMs), world, ToU8(p.retries))
    ensures !ParseArgs(args).Proceed? ==> trace == []
  {
    match ParseArgs(args)
    case ExitSuccess =>
      return ExitSuccessCode, [];
    case ExitFailure =>
      return ExitFailureCode, [];
    case Proceed(retries, delayMs) =>
      var ok;
      ok, trace := Access(ToU8(retries), ToU16(delayMs), world);
      exitCode := if ok then ExitSuccessCode else ExitFailureCode;
  }
}
