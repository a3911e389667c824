/** The TrivialCOMRPC client: its command-line parser and the interactive
    loop that creates, uses and destroys its one `IMath` handle. */
module SimpleClient {
  import opened Base
  import Argv

  datatype ServerType = PluginServer | StandaloneServer

  /** The settings `ParseOptions` writes. `kind` is `None` when neither
      `-connect` nor `-plugin` was given: `main` leaves the variable
      uninitialised and the parser does not assign it. */
  datatype Options = Options(channel: string, kind: Option<ServerType>, callsign: string)

  datatype Parsed = Parsed(help: bool, options: Options)

  const ValueFlags: set<string> := {"-connect", "-plugin"}

  /** `-plugin` tolerates a missing value; `-connect` reads past `argv`'s end. */
  const NeedsValue: set<string> := {"-connect"}

  /** The plugin server's communicator channel (the non-Windows build). */
  const PluginChannel: string := "/tmp/communicator"

  const DefaultCallsign: string := "SimpleCOMRPCPluginServer"

  /** The parser's loop from `index` on, with `opts` the settings so far. */
  function Scan(args: seq<string>, index: nat, opts: Options): Parsed
    requires Argv.ValuesPresent(Argv.Tokens(args, index, ValueFlags), NeedsValue)
    decreases |args| - index
  {
    if index >= |args| then Parsed(false, opts)
    else
      var ts := Argv.Tokens(args, index, ValueFlags);
      Argv.ValuesPresentCons(ts[0], ts[1..], NeedsValue);
      if args[index] == "-connect" then
        Scan(args, index + 2, opts.(channel := args[index + 1], kind := Some(StandaloneServer)))
      else if args[index] == "-plugin" then
        var callsign := if index + 1 < |args| then args[index + 1] else DefaultCallsign;
        Scan(args, index + 2, Options(PluginChannel, Some(PluginServer), callsign))
      else if args[index] == "-h" then Parsed(true, opts)
      else Scan(args, index + 1, opts)
  }

  /** The channel the winning `-connect`/`-plugin` step leaves. */
  function ChannelAfter(winner: Option<Argv.Token>, default: string): string {
    match winner
    case None => default
    case Some(Valued(flag, value)) => if flag == "-plugin" then PluginChannel else value.GetOr(default)
    case Some(_) => default
  }

  /** The server type the winning `-connect`/`-plugin` step leaves. */
  function KindAfter(winner: Option<Argv.Token>, default: Option<ServerType>): Option<ServerType> {
    match winner
    case None => default
    case Some(Valued(flag, _)) => Some(if flag == "-plugin" then PluginServer else StandaloneServer)
    case Some(_) => default
  }

  /** The callsign the last `-plugin` leaves: the element after it, whatever
      it looks like, or the default one when `-plugin` comes last. */
  function CallsignAfter(lastPlugin: Option<Argv.Token>, default: string): string {
    match lastPlugin
    case None => default
    case Some(Valued(_, value)) => value.GetOr(DefaultCallsign)
    case Some(_) => default
  }

  function Winner(ts: seq<Argv.Token>): Option<Argv.Token> {
    Argv.LastOf(Argv.BeforeHelp(ts), ValueFlags)
  }

  function LastPlugin(ts: seq<Argv.Token>): Option<Argv.Token> {
    Argv.LastOf(Argv.BeforeHelp(ts), {"-plugin"})
  }

  /** How the first step of a scan moves the winners: a help flag leaves
      none, a `-connect`/`-plugin` wins unless a later one does. */
  lemma WinnersCons(t: Argv.Token, rest: seq<Argv.Token>)
    requires Argv.ValuesPresent([t] + rest, NeedsValue)
    ensures t == Argv.Help ==> Winner([t] + rest) == None && LastPlugin([t] + rest) == None
    ensures t != Argv.Help ==>
      Winner([t] + rest) ==
        if Winner(rest).Some? then Winner(rest)
        else if Argv.Matches(t, ValueFlags) then Some(t) else None
    ensures t != Argv.Help ==>
      LastPlugin([t] + rest) ==
        if LastPlugin(rest).Some? then LastPlugin(rest)
        else if Argv.Matches(t, {"-plugin"}) then Some(t) else None
    ensures t != Argv.Help ==> Argv.ValuesPresent(rest, NeedsValue)
    ensures t != Argv.Help && Winner(rest).Some? && Winner(rest).value.flag == "-connect" ==>
      Winner(rest).value.value.Some?
  {
    Argv.ValuesPresentCons(t, rest, NeedsValue);
    Argv.BeforeHelpCons(t, rest);
    if t != Argv.Help {
      Argv.LastOfCons(t, Argv.BeforeHelp(rest), ValueFlags);
      Argv.LastOfCons(t, Argv.BeforeHelp(rest), {"-plugin"});
      Argv.LastHasValue(rest, NeedsValue, ValueFlags);
    }
  }

  // ScanHelp, ScanChannel, ScanKind and ScanCallsign share one case split.
  // They are kept apart because one lemma with all four conclusions exceeds
  // the verifier's resource budget.
  lemma {:induction false} ScanHelp(args: seq<string>, index: nat, opts: Options)
    requires Argv.ValuesPresent(Argv.Tokens(args, index, ValueFlags), NeedsValue)
    ensures Scan(args, index, opts).help == (Argv.Help in Argv.Tokens(args, index, ValueFlags))
    decreases |args| - index
  {
    if index < |args| {
      var ts := Argv.Tokens(args, index, ValueFlags);
      var t, rest := ts[0], ts[1..];
      assert ts == [t] + rest;
      WinnersCons(t, rest);
      if args[index] == "-connect" {
        assert rest == Argv.Tokens(args, index + 2, ValueFlags);
        ScanHelp(args, index + 2, opts.(channel := args[index + 1], kind := Some(StandaloneServer)));
      } else if args[index] == "-plugin" {
        assert rest == Argv.Tokens(args, index + 2, ValueFlags);
        var callsign := if index + 1 < |args| then args[index + 1] else DefaultCallsign;
        ScanHelp(args, index + 2, Options(PluginChannel, Some(PluginServer), callsign));
      } else if args[index] != "-h" {
        assert rest == Argv.Tokens(args, index + 1, ValueFlags);
        ScanHelp(args, index + 1, opts);
      }
    }
  }

  lemma {:induction false} ScanChannel(args: seq<string>, index: nat, opts: Options)
    requires Argv.ValuesPresent(Argv.Tokens(args, index, ValueFlags), NeedsValue)
    ensures Scan(args, index, opts).options.channel ==
      ChannelAfter(Winner(Argv.Tokens(args, index, ValueFlags)), opts.channel)
    decreases |args| - index
  {
    if index < |args| {
      var ts := Argv.Tokens(args, index, ValueFlags);
      var t, rest := ts[0], ts[1..];
      assert ts == [t] + rest;
      WinnersCons(t, rest);
      if args[index] == "-connect" {
        assert rest == Argv.Tokens(args, index + 2, ValueFlags);
        ScanChannel(args, index + 2, opts.(channel := args[index + 1], kind := Some(StandaloneServer)));
      } else if args[index] == "-plugin" {
        assert rest == Argv.Tokens(args, index + 2, ValueFlags);
        var callsign := if index + 1 < |args| then args[index + 1] else DefaultCallsign;
        ScanChannel(args, index + 2, Options(PluginChannel, Some(PluginServer), callsign));
      } else if args[index] != "-h" {
        assert rest == Argv.Tokens(args, index + 1, ValueFlags);
        ScanChannel(args, index + 1, opts);
      }
    }
  }

  lemma {:induction false} ScanKind(args: seq<string>, index: nat, opts: Options)
    requires Argv.ValuesPresent(Argv.Tokens(args, index, ValueFlags), NeedsValue)
    ensures Scan(args, index, opts).options.kind ==
      KindAfter(Winner(Argv.Tokens(args, index, ValueFlags)), opts.kind)
    decreases |args| - index
  {
    if index < |args| {
      var ts := Argv.Tokens(args, index, ValueFlags);
      var t, rest := ts[0], ts[1..];
      assert ts == [t] + rest;
      WinnersCons(t, rest);
      if args[index] == "-connect" {
        assert rest == Argv.Tokens(args, index + 2, ValueFlags);
        ScanKind(args, index + 2, opts.(channel := args[index + 1], kind := Some(StandaloneServer)));
      } else if args[index] == "-plugin" {
        assert rest == Argv.Tokens(args, index + 2, ValueFlags);
        var callsign := if index + 1 < |args| then args[index + 1] else DefaultCallsign;
        ScanKind(args, index + 2, Options(PluginChannel, Some(PluginServer), callsign));
      } else if args[index] != "-h" {
        assert rest == Argv.Tokens(args, index + 1, ValueFlags);
        ScanKind(args, index + 1, opts);
      }
    }
  }

  lemma {:induction false} ScanCallsign(args: seq<string>, index: nat, opts: Options)
    requires Argv.ValuesPresent(Argv.Tokens(args, index, ValueFlags), NeedsValue)
    ensures Scan(args, index, opts).options.callsign ==
      CallsignAfter(LastPlugin(Argv.Tokens(args, index, ValueFlags)), opts.callsign)
    decreases |args| - index
  {
    if index < |args| {
      var ts := Argv.Tokens(args, index, ValueFlags);
      var t, rest := ts[0], ts[1..];
      assert ts == [t] + rest;
      WinnersCons(t, rest);
      if args[index] == "-connect" {
        assert rest == Argv.Tokens(args, index + 2, ValueFlags);
        ScanCallsign(args, index + 2, opts.(channel := args[index + 1], kind := Some(StandaloneServer)));
      } else if args[index] == "-plugin" {
        assert rest == Argv.Tokens(args, index + 2, ValueFlags);
        var callsign := if index + 1 < |args| then args[index + 1] else DefaultCallsign;
        ScanCallsign(args, index + 2, Options(PluginChannel, Some(PluginServer), callsign));
      } else if args[index] != "-h" {
        assert rest == Argv.Tokens(args, index + 1, ValueFlags);
        ScanCallsign(args, index + 1, opts);
      }
    }
  }

  /** `ParseOptions`, with `main`'s empty callsign and unset server type as
      the starting point: help iff a `-h` is reached; channel and type come
      from the last `-connect`/`-plugin` before that point, the callsign from
      the last `-plugin`. */
  function ParseOptions(args: seq<string>, simpleTestAddress: string): (r: Parsed)
    requires Argv.ValuesPresent(Argv.Tokens(args, 1, ValueFlags), NeedsValue)
    ensures r.help <==> Argv.Help in Argv.Tokens(args, 1, ValueFlags)
    ensures r.options.channel == ChannelAfter(Winner(Argv.Tokens(args, 1, ValueFlags)), simpleTestAddress)
    ensures r.options.kind.Some? <==> Winner(Argv.Tokens(args, 1, ValueFlags)).Some?
    ensures r.options.kind == Some(PluginServer) <==>
      Winner(Argv.Tokens(args, 1, ValueFlags)).Some? && Winner(Argv.Tokens(args, 1, ValueFlags)).value.flag == "-plugin"
    ensures r.options.callsign == CallsignAfter(LastPlugin(Argv.Tokens(args, 1, ValueFlags)), "")
  {
    var opts := Options(simpleTestAddress, None, "");
    ScanHelp(args, 1, opts);
    ScanChannel(args, 1, opts);
    ScanKind(args, 1, opts);
    ScanCallsign(args, 1, opts);
    Scan(args, 1, opts)
  }

  /** Remote effects the client records: opening and closing its link,
      acquiring and releasing the `IMath` handle or the controller's `IShell`,
      and calls on the handle. */
  datatype Event =
    | OpenLink | CloseLink
    | AcquireMath | ReleaseMath
    | AcquireController | ReleaseController
    | CallAdd | CallSub

  /** What the framework answers during one key's handling: whether the link
      is open after `Open(2000)`, whether `IMath` is obtained (directly, or via
      `QueryInterfaceByCallsign`), whether the controller's `IShell` is. */
  datatype Reply = Reply(linkOpens: bool, mathOffered: bool, controllerOffered: bool)

  /** `math != nullptr`, `client->IsOpen()`, and what has happened so far. */
  datatype State = State(math: bool, linkOpen: bool, trace: seq<Event>)

  /** The `math` handle's balance: it is held exactly when one more `IMath`
      was acquired than released, and every controller reference taken has
      been given back. */
  ghost predicate Balanced(st: State) {
    && Count(st.trace, AcquireMath) == Count(st.trace, ReleaseMath) + (if st.math then 1 else 0)
    && Count(st.trace, AcquireController) == Count(st.trace, ReleaseController)
  }

  function Append(st: State, events: seq<Event>): (r: State)
    ensures r.math == st.math && r.linkOpen == st.linkOpen
    ensures r.trace == st.trace + events
  {
    st.(trace := st.trace + events)
  }

  /** Appending events that acquire and release in step with the change of
      the handle keeps the balance. */
  lemma AppendKeepsBalance(st: State, events: seq<Event>, math: bool)
    requires Balanced(st)
    requires Count(events, AcquireMath) + (if st.math then 1 else 0) == Count(events, ReleaseMath) + (if math then 1 else 0)
    requires Count(events, AcquireController) == Count(events, ReleaseController)
    ensures Balanced(Append(st, events).(math := math))
  {
    CountAppend(st.trace, events, AcquireMath);
    CountAppend(st.trace, events, ReleaseMath);
    CountAppend(st.trace, events, AcquireController);
    CountAppend(st.trace, events, ReleaseController);
  }

  /** 'M' once the link is open: acquire `IMath` the way `kind` says. */
  function AcquireMathHandle(st: State, reply: Reply, kind: ServerType): State {
    if kind == StandaloneServer then
      if reply.mathOffered then Append(st, [AcquireMath]).(math := true) else st
    else if !reply.controllerOffered then st
    else if reply.mathOffered then
      Append(st, [AcquireController, AcquireMath, ReleaseController]).(math := true)
    else Append(st, [AcquireController, ReleaseController])
  }

  /** One key of the interactive loop (already upper-cased). */
  function Step(st: State, key: char, reply: Reply, kind: ServerType): (r: State)
    ensures key == 'M' && st.math ==> r == st
    ensures key == 'M' && !st.math && !r.math ==> !r.linkOpen
    ensures key == 'D' ==> !r.math && r.linkOpen == st.linkOpen
    ensures key == 'D' && st.math ==> r.trace == st.trace + [ReleaseMath]
    ensures key == 'D' && !st.math ==> r == st
    ensures key == 'A' || key == 'S' ==> r.math == st.math && r.linkOpen == st.linkOpen
    ensures key !in "MDAS" ==> r == st
    ensures st.trace <= r.trace
  {
    match key
    case 'M' =>
      if st.math then st
      else
        var linked := if !st.linkOpen then Append(st, [OpenLink]).(linkOpen := reply.linkOpens) else st;
        if !linked.linkOpen then linked
        else
          var acquired := AcquireMathHandle(linked, reply, kind);
          if !acquired.math then Append(acquired, [CloseLink]).(linkOpen := false) else acquired
    case 'D' => if st.math then Append(st, [ReleaseMath]).(math := false) else st
    case 'A' => if st.math then Append(st, [CallAdd]) else st
    case 'S' => if st.math then Append(st, [CallSub]) else st
    case _ => st
  }

  lemma AcquireKeepsBalance(st: State, reply: Reply, kind: ServerType)
    requires Balanced(st) && !st.math
    ensures Balanced(AcquireMathHandle(st, reply, kind))
  {
    if kind == StandaloneServer {
      if reply.mathOffered {
        AppendKeepsBalance(st, [AcquireMath], true);
      }
    } else if reply.controllerOffered {
      if reply.mathOffered {
        var events := [AcquireController, AcquireMath, ReleaseController];
        assert Count(events, AcquireMath) == 1 && Count(events, ReleaseMath) == 0;
        assert Count(events, AcquireController) == 1 && Count(events, ReleaseController) == 1;
        AppendKeepsBalance(st, events, true);
      } else {
        var events := [AcquireController, ReleaseController];
        assert Count(events, AcquireMath) == 0 && Count(events, ReleaseMath) == 0;
        assert Count(events, AcquireController) == 1 && Count(events, ReleaseController) == 1;
        AppendKeepsBalance(st, events, false);
      }
    }
  }

  lemma CreateKeepsBalance(st: State, reply: Reply, kind: ServerType)
    requires Balanced(st)
    ensures Balanced(Step(st, 'M', reply, kind))
  {
    if !st.math {
      var linked := if !st.linkOpen then Append(st, [OpenLink]).(linkOpen := reply.linkOpens) else st;
      if !st.linkOpen {
        AppendKeepsBalance(st, [OpenLink], false);
      }
      if linked.linkOpen {
        AcquireKeepsBalance(linked, reply, kind);
        var acquired := AcquireMathHandle(linked, reply, kind);
        if !acquired.math {
          AppendKeepsBalance(acquired, [CloseLink], false);
        }
      }
    }
  }

  lemma StepKeepsBalance(st: State, key: char, reply: Reply, kind: ServerType)
    requires Balanced(st)
    ensures Balanced(Step(st, key, reply, kind))
  {
    if key == 'M' {
      CreateKeepsBalance(st, reply, kind);
    } else if key == 'D' && st.math {
      AppendKeepsBalance(st, [ReleaseMath], false);
    } else if key == 'A' && st.math {
      AppendKeepsBalance(st, [CallAdd], true);
    } else if key == 'S' && st.math {
      AppendKeepsBalance(st, [CallSub], true);
    }
  }

  /** The code after the loop: release a held `math`, close an open link. */
  function Shutdown(st: State): (r: State)
    ensures !r.math && !r.linkOpen
    ensures st.linkOpen ==> |r.trace| > 0 && r.trace[|r.trace| - 1] == CloseLink
  {
    var released := if st.math then Append(st, [ReleaseMath]).(math := false) else st;
    if released.linkOpen then Append(released, [CloseLink]).(linkOpen := false) else released
  }

  /** After the shutdown code every `IMath` acquired has been released. */
  lemma ShutdownReleasesAll(st: State)
    requires Balanced(st)
    ensures Balanced(Shutdown(st))
    ensures Count(Shutdown(st).trace, AcquireMath) == Count(Shutdown(st).trace, ReleaseMath)
  {
    var released := if st.math then Append(st, [ReleaseMath]).(math := false) else st;
    if st.math {
      AppendKeepsBalance(st, [ReleaseMath], false);
    }
    if released.linkOpen {
      AppendKeepsBalance(released, [CloseLink], false);
    }
  }

  /** How the loop ends: 'Q' runs the shutdown code, 'E' calls `exit(0)`
      straight away, and without either the program is still waiting for keys. */
  datatype Outcome = Quit(final: State) | Ejected(final: State) | Waiting(final: State)

  /** The interactive loop over `keys[i..]`; `world(i)` answers the framework
      calls made while handling key `i`, and `kind` is the server type the
      program acts on. */
  function Loop(keys: seq<char>, i: nat, world: nat -> Reply, kind: ServerType, st: State): Outcome
    decreases |keys| - i
  {
    if i >= |keys| then Waiting(st)
    else
      var key := Upper(keys[i]);
      if key == 'Q' then Quit(Shutdown(st))
      else if key == 'E' then Ejected(st)
      else Loop(keys, i + 1, world, kind, Step(st, key, world(i), kind))
  }

  lemma {:induction false} LoopBalanced(keys: seq<char>, i: nat, world: nat -> Reply, kind: ServerType, st: State)
    requires Balanced(st)
    ensures Balanced(Loop(keys, i, world, kind, st).final)
    ensures Loop(keys, i, world, kind, st).Quit? ==>
      !Loop(keys, i, world, kind, st).final.math && !Loop(keys, i, world, kind, st).final.linkOpen
    decreases |keys| - i
  {
    if i < |keys| && Upper(keys[i]) == 'Q' {
      ShutdownReleasesAll(st);
    } else if i < |keys| && Upper(keys[i]) != 'E' {
      StepKeepsBalance(st, Upper(keys[i]), world(i), kind);
      LoopBalanced(keys, i + 1, world, kind, Step(st, Upper(keys[i]), world(i), kind));
    }
  }

  /** The server type `main` acts on: the parsed one, or whatever the
      uninitialised variable holds (`indeterminate`) when none was given. */
  function EffectiveKind(parsed: Option<ServerType>, indeterminate: ServerType): ServerType {
    parsed.GetOr(indeterminate)
  }

  /** `main`'s loop from the start (no handle, link not open). Whatever the
      keys and the framework's answers, a run that quits has released every
      `IMath` handle it acquired exactly once, has given back every controller
      reference, and has closed its link. */
  function Session(keys: seq<char>, world: nat -> Reply, kind: ServerType): (r: Outcome)
    ensures Balanced(r.final)
    ensures r.Quit? ==> Count(r.final.trace, AcquireMath) == Count(r.final.trace, ReleaseMath)
    ensures r.Quit? ==> !r.final.math && !r.final.linkOpen
  {
    var init := State(false, false, []);
    LoopBalanced(keys, 0, world, kind, init);
    Loop(keys, 0, world, kind, init)
  }

  /** 'E' bails out without the shutdown code: a handle created by 'M' is
      never released. */
  lemma EjectLeaksHandle()
    ensures var r := Session("ME", _ => Reply(true, true, true), StandaloneServer);
      r.Ejected? && Count(r.final.trace, AcquireMath) == 1 && Count(r.final.trace, ReleaseMath) == 0
  {
    var world: nat -> Reply := _ => Reply(true, true, true);
    var init := State(false, false, []);
    var afterM := Step(init, 'M', Reply(true, true, true), StandaloneServer);
    assert afterM == State(true, true, [OpenLink, AcquireMath]);
    assert Upper('M') == 'M' && Upper('E') == 'E';
    assert Loop("ME", 1, world, StandaloneServer, afterM) == Ejected(afterM);
    assert Loop("ME", 0, world, StandaloneServer, init) == Ejected(afterM);
  }
}
