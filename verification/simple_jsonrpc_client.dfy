/** The JSON-RPC demo client: its command-line parser and the series of
    `time` invocations its `main` makes on the remote `JSONRPCPlugin`. */
module SimpleJsonRpcClient {
  import opened Base
  import opened Numbers
  import Argv

  /** `limit` and `delayMs` are always written by the parser; `justDelay` only
      on `-j`, so it stays whatever the caller had in it otherwise. */
  datatype Options = Options(limit: u32, delayMs: u32, justDelay: Option<u32>)

  datatype Parsed = Parsed(help: bool, options: Options)

  const ValueFlags: set<string> := {"-l", "-d", "-j"}

  const DefaultLimit: u32 := 10
  const DefaultDelayMs: u32 := 300

  /** A command-line number: `atoi`, stored into a `uint32_t`. */
  function Number(text: string): u32 {
    ToU32(Atoi(text))
  }

  /** The parser's loop from `index` on, with `opts` the settings so far. */
  function Scan(args: seq<string>, index: nat, opts: Options): Parsed
    requires Argv.ValuesPresent(Argv.Tokens(args, index, ValueFlags), ValueFlags)
    decreases |args| - index
  {
    if index >= |args| then Parsed(false, opts)
    else
      var ts := Argv.Tokens(args, index, ValueFlags);
      Argv.ValuesPresentCons(ts[0], ts[1..], ValueFlags);
      if args[index] == "-l" then Scan(args, index + 2, opts.(limit := Number(args[index + 1])))
      else if args[index] == "-d" then Scan(args, index + 2, opts.(delayMs := Number(args[index + 1])))
      else if args[index] == "-j" then Scan(args, index + 2, opts.(justDelay := Some(Number(args[index + 1]))))
      else if args[index] == "-h" then Parsed(true, opts)
      else Scan(args, index + 1, opts)
  }

  /** The number a setting ends up with: its effective text read by `atoi`,
      or `default` when the scan never set it. */
  function NumberOr(text: Option<string>, default: u32): u32 {
    match text
    case Some(v) => Number(v)
    case None => default
  }

  lemma {:induction false} ScanMeaning(args: seq<string>, index: nat, opts: Options)
    requires Argv.ValuesPresent(Argv.Tokens(args, index, ValueFlags), ValueFlags)
    ensures Scan(args, index, opts).help == (Argv.Help in Argv.Tokens(args, index, ValueFlags))
    ensures Scan(args, index, opts).options.limit ==
      NumberOr(Argv.Effective(Argv.Tokens(args, index, ValueFlags), "-l"), opts.limit)
    ensures Scan(args, index, opts).options.delayMs ==
      NumberOr(Argv.Effective(Argv.Tokens(args, index, ValueFlags), "-d"), opts.delayMs)
    ensures Scan(args, index, opts).options.justDelay ==
      match Argv.Effective(Argv.Tokens(args, index, ValueFlags), "-j")
      case Some(v) => Some(Number(v))
      case None => opts.justDelay
    decreases |args| - index
  {
    if index < |args| {
      var ts := Argv.Tokens(args, index, ValueFlags);
      var t, rest := ts[0], ts[1..];
      assert ts == [t] + rest;
      Argv.ValuesPresentCons(t, rest, ValueFlags);
      Argv.EffectiveCons(t, rest, ValueFlags, "-l");
      Argv.EffectiveCons(t, rest, ValueFlags, "-d");
      Argv.EffectiveCons(t, rest, ValueFlags, "-j");
      if args[index] == "-l" {
        ScanMeaning(args, index + 2, opts.(limit := Number(args[index + 1])));
      } else if args[index] == "-d" {
        ScanMeaning(args, index + 2, opts.(delayMs := Number(args[index + 1])));
      } else if args[index] == "-j" {
        ScanMeaning(args, index + 2, opts.(justDelay := Some(Number(args[index + 1]))));
      } else if args[index] != "-h" {
        ScanMeaning(args, index + 1, opts);
      }
    }
  }

  /** `ParseOptions`: help iff a `-h` is reached; each of `-l`, `-d`, `-j`
      takes the value of its last occurrence before that point. `limit` and
      `delayMs` fall back to 10 and 300; `justDelay` is set only by `-j`. */
  function ParseOptions(args: seq<string>): (r: Parsed)
    requires Argv.ValuesPresent(Argv.Tokens(args, 1, ValueFlags), ValueFlags)
    ensures r.help <==> Argv.Help in Argv.Tokens(args, 1, ValueFlags)
    ensures r.options.limit == NumberOr(Argv.Effective(Argv.Tokens(args, 1, ValueFlags), "-l"), DefaultLimit)
    ensures r.options.delayMs == NumberOr(Argv.Effective(Argv.Tokens(args, 1, ValueFlags), "-d"), DefaultDelayMs)
    ensures r.options.justDelay.Some? <==> Argv.Effective(Argv.Tokens(args, 1, ValueFlags), "-j").Some?
    ensures r.options.justDelay.Some? ==>
      r.options.justDelay.value == Number(Argv.Effective(Argv.Tokens(args, 1, ValueFlags), "-j").value)
  {
    var opts := Options(DefaultLimit, DefaultDelayMs, None);
    ScanMeaning(args, 1, opts);
    Scan(args, 1, opts)
  }

  /** What `main` does remotely: `time` invocations, each followed by a sleep. */
  datatype Event = InvokeTime | Sleep(ms: u32)

  /** `n` rounds of "invoke `time`, then sleep `delayMs`". */
  function Rounds(n: nat, delayMs: u32): (trace: seq<Event>)
    ensures |trace| == 2 * n
    ensures Count(trace, InvokeTime) == n
    ensures forall k | 0 <= k < |trace| :: trace[k] == if k % 2 == 0 then InvokeTime else Sleep(delayMs)
  {
    if n == 0 then []
    else
      var rest := Rounds(n - 1, delayMs);
      CountAppend([InvokeTime, Sleep(delayMs)], rest, InvokeTime);
      [InvokeTime, Sleep(delayMs)] + rest
  }

  /** The body of `main` after parsing: one invocation and a `justDelay`
      sleep when `justDelay` is non-zero, otherwise `limit` rounds. The
      caller's `justDelay` starts at 0. */
  function Session(opts: Options): (trace: seq<Event>)
    ensures Count(trace, InvokeTime) == if opts.justDelay.GetOr(0) != 0 then 1 else opts.limit
    ensures |trace| == 2 * Count(trace, InvokeTime)
    ensures forall k | 0 <= k < |trace| :: trace[k].Sleep? <==> k % 2 == 1
  {
    var justDelay := opts.justDelay.GetOr(0);
    if justDelay != 0 then Rounds(1, justDelay) else Rounds(opts.limit, opts.delayMs)
  }

  /** `main`: the help result of `ParseOptions` is ignored, so the session
      runs whatever the arguments say. */
  function Run(args: seq<string>): (trace: seq<Event>)
    requires Argv.ValuesPresent(Argv.Tokens(args, 1, ValueFlags), ValueFlags)
  {
    Session(ParseOptions(args).options)
  }

  /** Asking for help does not stop the client: with `-h` first it still makes
      the default ten invocations, 300 ms apart. */
  lemma HelpDoesNotStop(args: seq<string>)
    requires |args| >= 2 && args[1] == "-h"
    ensures Argv.ValuesPresent(Argv.Tokens(args, 1, ValueFlags), ValueFlags)
    ensures ParseOptions(args).help
    ensures Count(Run(args), InvokeTime) == 10
    ensures Run(args)[1] == Sleep(300)
  {
    var ts := Argv.Tokens(args, 1, ValueFlags);
    assert ts[0] == Argv.Help;
    assert Argv.BeforeHelp(ts) == [];
  }
}
