/** The stand-alone COM-RPC service of the TrivialCOMRPC demo: the `Math`
    object it hands out, the `Acquire` filter that decides whether a client's
    request gets one, and its command-line parser. */
module SimpleService {
  import opened Base
  import opened Numbers
  import Argv

  /** What a `uint32_t Math::X(A, B, uint16_t& out)` call yields: its status
      code and the value written to the out parameter. */
  datatype MathReply = MathReply(status: Status, result: u16)

  /** `Math::Add`: the sum stored into a `uint16_t`, so it wraps past 65535. */
  function Add(a: u16, b: u16): (r: MathReply)
    ensures r.status == ErrorNone
    ensures r.result == a + b <==> a + b < 0x1_0000
    ensures r.result == a + b || r.result == a + b - 0x1_0000
  {
    MathReply(ErrorNone, ToU16(a + b))
  }

  /** `Math::Sub`: the difference stored into a `uint16_t`, so it wraps
      below 0 when `b > a`. */
  function Sub(a: u16, b: u16): (r: MathReply)
    ensures r.status == ErrorNone
    ensures r.result == a - b <==> b <= a
    ensures r.result == a - b || r.result == a - b + 0x1_0000
  {
    MathReply(ErrorNone, ToU16(a - b))
  }

  /** Subtracting what was added gives the first operand back, overflow or not. */
  lemma SubUndoesAdd(a: u16, b: u16)
    ensures Sub(Add(a, b).result, b).result == a
  {
  }

  /** Adding back what was subtracted gives the first operand back, wrap or not. */
  lemma AddUndoesSub(a: u16, b: u16)
    ensures Add(Sub(a, b).result, b).result == a
  {
  }

  lemma AddCommutes(a: u16, b: u16)
    ensures Add(a, b) == Add(b, a)
  {
  }

  /** A newly created object implementing `IMath`; each successful `Acquire`
      creates its own. */
  datatype MathObject = MathObject

  /** The version number that stands for "any version": `~0` as `uint32_t`. */
  const AnyVersion: u32 := 0xFFFF_FFFF

  /** `COMServer::Acquire`: a new `Math` object for a request of version 1 or
      "any version" of the `IMath` interface, null for any other request.
      `mathId` is `IMath::ID`, whose value comes from the interface header. */
  function Acquire(mathId: u32, className: string, interfaceId: u32, versionId: u32): (r: Option<MathObject>)
    ensures r.Some? <==> (versionId == 1 || versionId == AnyVersion) && interfaceId == mathId
  {
    if versionId == 1 || versionId == AnyVersion then
      if interfaceId == mathId then Some(MathObject) else None
    else None
  }

  /** The class name a client asks for plays no part in the decision. */
  lemma AcquireIgnoresClassName(mathId: u32, c1: string, c2: string, interfaceId: u32, versionId: u32)
    ensures Acquire(mathId, c1, interfaceId, versionId) == Acquire(mathId, c2, interfaceId, versionId)
  {
  }

  /** The service's settings: the channel it listens on and the directory it
      loads proxy-stubs from. */
  datatype Options = Options(channel: string, psPath: string)

  /** What `ParseOptions` returns (whether help was asked for) together with
      the settings it leaves in its out parameters. */
  datatype Parsed = Parsed(help: bool, options: Options)

  const ValueFlags: set<string> := {"-listen", "-path"}

  const DefaultPsPath: string := "./PS"

  /** The `while ((index < argc) && (!showHelp))` loop of `ParseOptions`,
      from `index` on, with `opts` the settings so far. */
  function Scan(args: seq<string>, index: nat, opts: Options): Parsed
    requires Argv.ValuesPresent(Argv.Tokens(args, index, ValueFlags), ValueFlags)
    decreases |args| - index
  {
    if index >= |args| then Parsed(false, opts)
    else
      var ts := Argv.Tokens(args, index, ValueFlags);
      Argv.ValuesPresentCons(ts[0], ts[1..], ValueFlags);
      if args[index] == "-listen" then Scan(args, index + 2, opts.(channel := args[index + 1]))
      else if args[index] == "-path" then Scan(args, index + 2, opts.(psPath := args[index + 1]))
      else if args[index] == "-h" then Parsed(true, opts)
      else Scan(args, index + 1, opts)
  }

  lemma {:induction false} ScanMeaning(args: seq<string>, index: nat, opts: Options)
    requires Argv.ValuesPresent(Argv.Tokens(args, index, ValueFlags), ValueFlags)
    ensures Scan(args, index, opts).help == (Argv.Help in Argv.Tokens(args, index, ValueFlags))
    ensures Scan(args, index, opts).options.channel ==
      Argv.Effective(Argv.Tokens(args, index, ValueFlags), "-listen").GetOr(opts.channel)
    ensures Scan(args, index, opts).options.psPath ==
      Argv.Effective(Argv.Tokens(args, index, ValueFlags), "-path").GetOr(opts.psPath)
    decreases |args| - index
  {
    if index < |args| {
      var ts := Argv.Tokens(args, index, ValueFlags);
      var t, rest := ts[0], ts[1..];
      assert ts == [t] + rest;
      Argv.ValuesPresentCons(t, rest, ValueFlags);
      Argv.EffectiveCons(t, rest, ValueFlags, "-listen");
      Argv.EffectiveCons(t, rest, ValueFlags, "-path");
      if args[index] == "-listen" {
        ScanMeaning(args, index + 2, opts.(channel := args[index + 1]));
      } else if args[index] == "-path" {
        ScanMeaning(args, index + 2, opts.(psPath := args[index + 1]));
      } else if args[index] != "-h" {
        ScanMeaning(args, index + 1, opts);
      }
    }
  }

  /** `ParseOptions` over `argv` (program name first). It reports help iff a
      `-h` is reached; the channel and proxy-stub path are the values of the
      last `-listen` and `-path` before that point, or the defaults.
      `simpleTestAddress` is `Exchange::SimpleTestAddress`, whose value comes
      from the interface header. */
  function ParseOptions(args: seq<string>, simpleTestAddress: string): (r: Parsed)
    requires Argv.ValuesPresent(Argv.Tokens(args, 1, ValueFlags), ValueFlags)
    ensures r.help <==> Argv.Help in Argv.Tokens(args, 1, ValueFlags)
    ensures r.options.channel == Argv.Effective(Argv.Tokens(args, 1, ValueFlags), "-listen").GetOr(simpleTestAddress)
    ensures r.options.psPath == Argv.Effective(Argv.Tokens(args, 1, ValueFlags), "-path").GetOr(DefaultPsPath)
  {
    var opts := Options(simpleTestAddress, DefaultPsPath);
    ScanMeaning(args, 1, opts);
    Scan(args, 1, opts)
  }
}
