# ThunderTestApps in Dafny

A model of the demo clients and services in ThunderTestApps, which are built
on the Thunder (WPEFramework) plugin framework. The demos contain little
logic of their own; the model covers the parts listed below:

- **ControllerAccessor** (`controller_accessor.dfy`). `parseArgs` validates
  the retry count and delay. `access` then makes exactly `maxRetries`
  attempts on the framework's controller. Each attempt opens the connector
  if needed, reads the configuration, substitutes it back on attempt
  `maxRetries - 1` only, closes and sleeps. `main` narrows the parsed `int`s
  to `uint8_t`/`uint16_t`.
- **SmartInterfaceClient** (`smart_interface_client.dfy`). The `Operational`
  notification takes an `IWallClock` reference and arms a countdown on it.
  When the link goes down it disarms and releases the reference. The model
  also covers `Arm`, `Disarm`, `Now`, the sink's `Elapsed` callback and the
  process-wide `Init`/`Term` instance.
- **SimpleDictClient** (`simple_dict_client.dfy`). The `Dictionary` smart
  link takes one `IDictionary` reference per `Get`/`Set` and gives back one;
  `Trigger` gives back two. The key loop writes consecutive counter values
  on 'S' and 'X'.
- **TrivialCOMRPC service** (`simple_service.dfy`). `Math::Add`/`Sub`
  compute in 16-bit arithmetic. The model also covers the `Acquire` filter
  on interface id and version, and the command-line parser.
- **TrivialCOMRPC client** (`simple_client.dfy`). Its parser, and the
  interactive M/D/A/S/Q/E loop around its one `IMath` handle.
- **SimpleJSONRPCClient** (`simple_jsonrpc_client.dfy`). Its parser, and the
  number of `time` invocations `main` makes.

Shared pieces:

- `base.dfy` holds `Option`, the framework's status codes, occurrence
  counting over traces, and `toupper`.
- `numbers.dfy` holds the fixed-width integer types, conversion modulo
  2^n, `atoi`, and the decimal `Text()` of a number.
- `argv.dfy` holds a token view of the three hand-written `ParseOptions`
  loops.
  - A value flag consumes the element after it, `-h` ends the scan, and
    anything else is skipped.
  - "Effective" means the value of the last occurrence before the first `-h`.
  - Each parser is written as the source's index loop and proved equal to
    this view.

The framework is not modelled, only what it answers:

- `Interface()`, `Open`, `IsOpen`, `IsOperational`, `ControllerInterface()`,
  `QueryInterfaceByCallsign`, the remote `Arm`/`Disarm`/`Now`/`Get`/`Set`.
- The model takes these answers as inputs: a record per step, or a function
  from step number to answer.
- Remote effects are recorded as events in a trace (Acquire, Release,
  RemoteArm, Close, Sleep, ...), and the properties are stated over the trace.

`IMath::ID` and `Exchange::SimpleTestAddress` come from an interface header
that is not part of this model, so they are parameters.

Some behaviour of the code looks unintended; the model follows the code:

- `access` returns true whatever happened in the attempts, so its caller
  cannot tell whether `Substitute` ran.
- The one `Substitute` happens on attempt `maxRetries - 1`; it never happens
  when `maxRetries <= 1`.
- `Trigger` releases twice after one acquisition. The model reproduces this
  and proves the net count of -1 per `Trigger`.

## Model

| member | source | states |
|---|---|---|
| ControllerAccessor.ParseFrom | ControllerAccessor/main.cpp:67-101 | the option loop; if it proceeds from non-negative settings, both settings it returns are non-negative |
| ControllerAccessor.ParseArgs | ControllerAccessor/main.cpp:48-86 | with no arguments it exits successfully; any retry count and delay it lets through are non-negative (0 included) |
| ControllerAccessor.ParseFromMeaning | ControllerAccessor/main.cpp:67-101 | for any arguments, the option loop decides as the step view: a reached `-h`/`--help` exits with success; an unknown option, or `-r`/`-d` with a missing or negative value, exits with failure; `--` or the end proceeds with the values of the last `-r` and last `-d` scanned, or the incoming ones |
| ControllerAccessor.ParseArgsMeaning | ControllerAccessor/main.cpp:48-101 | with any arguments beyond the program name, `parseArgs` gives the step view's outcome from the defaults of 100 retries and 500 ms |
| ControllerAccessor.NoOptionsKeepDefaults | ControllerAccessor/main.cpp:24-25 | without option elements the settings keep their incoming values (100 and 500 ms from `parseArgs`) |
| ControllerAccessor.RetriesOption | ControllerAccessor/main.cpp:73-79 | `-r`/`--retries` with a text: exit failure iff `atoi` of it is negative, otherwise that retry count with the default delay |
| ControllerAccessor.DelayOption | ControllerAccessor/main.cpp:80-86 | `-d`/`--delay` with a text: exit failure iff `atoi` of it is negative, otherwise that delay with the default retry count |
| ControllerAccessor.RunAttempt | ControllerAccessor/main.cpp:127-154 | one pass of the loop body closes once and sleeps the delay once; it calls `Open` iff the connector is not operational, reads the configuration iff a controller is there, and substitutes iff a controller is there and `attempt + 1 == maxRetries` |
| ControllerAccessor.AttemptCounts | ControllerAccessor/main.cpp:134-154 | one attempt closes once and sleeps once; it substitutes once iff a controller is there and `attempt + 1 == maxRetries` |
| ControllerAccessor.AttemptOpensAndReads | ControllerAccessor/main.cpp:127-147 | one attempt calls `Open` iff the connector is not operational, and reads the configuration iff a controller is there |
| ControllerAccessor.AttemptsClose | ControllerAccessor/main.cpp:149-151 | the first n attempts close exactly n times |
| ControllerAccessor.AttemptsSleep | ControllerAccessor/main.cpp:151-154 | the first n attempts sleep the configured delay exactly n times |
| ControllerAccessor.AttemptsSubstitute | ControllerAccessor/main.cpp:136-142 | among the first n attempts, `Substitute` runs once iff attempt `maxRetries - 1` is among them and has a controller; otherwise it never runs |
| ControllerAccessor.AttemptsEndWithSleep | ControllerAccessor/main.cpp:151-154 | after any attempt, the last one included, the trace ends with a close followed by a sleep |
| ControllerAccessor.NoOpenWhileOperational | ControllerAccessor/main.cpp:127-132 | while the connector stays operational no attempt calls `Open` |
| ControllerAccessor.Access | ControllerAccessor/main.cpp:118-159 | returns true; makes exactly `maxRetries` attempts (closes and sleeps `maxRetries` times); substitutes once iff `maxRetries >= 2` and a controller is there on attempt `maxRetries - 1`; ends with close and sleep |
| ControllerAccessor.EffectiveAttempts | ControllerAccessor/main.cpp:178 | the attempt count `access` receives is the parsed retry count modulo 256 (unchanged below 256), and 0 when parsing exits |
| ControllerAccessor.RetriesNarrowed | ControllerAccessor/main.cpp:118 | with `-r n` the tool makes `n mod 256` attempts |
| ControllerAccessor.Run | ControllerAccessor/main.cpp:171-183 | exit code is failure iff argument parsing failed; when parsing proceeds, the actions are those of `access` run with the retry count narrowed to `uint8_t` and the delay narrowed to `uint16_t`; otherwise none |
| SmartInterfaceClient.Arm | SmartInterfaceClient/main.cpp:149-163 | with a held reference: records one remote arm and returns `ERROR_UNAVAILABLE` |
| SmartInterfaceClient.ArmIgnoresRemote | SmartInterfaceClient/main.cpp:151-162 | `Arm`'s result is the same whatever the remote arm answers |
| SmartInterfaceClient.Disarm | SmartInterfaceClient/main.cpp:164-181 | with a held reference: records one remote disarm and returns the remote status unchanged |
| SmartInterfaceClient.Classify | SmartInterfaceClient/main.cpp:170-178 | a disarm status means "removed" iff `ERROR_NONE`, and "not armed or already fired" iff `ERROR_NOT_EXIST` |
| SmartInterfaceClient.Operational | SmartInterfaceClient/main.cpp:98-122 | going up: a reference is held afterwards iff one was held or `Interface()` offered one; going down: none is held, and a held one is disarmed then released; no-op cases unchanged |
| SmartInterfaceClient.UpArmsOnce | SmartInterfaceClient/main.cpp:102-111 | coming up without a reference arms once iff one is offered and `_seconds > 0`, and acquires once iff offered; with a reference held nothing changes |
| SmartInterfaceClient.UpKeepsDiscipline | SmartInterfaceClient/main.cpp:102-111 | coming up keeps the reference discipline |
| SmartInterfaceClient.DownKeepsDiscipline | SmartInterfaceClient/main.cpp:112-120 | going down keeps the reference discipline, with the release right after the disarm |
| SmartInterfaceClient.OperationalKeepsDiscipline | SmartInterfaceClient/main.cpp:98-122 | any notification keeps: releases never exceed acquisitions, `_wc` non-null iff acquisitions minus releases is 1, every release right after a disarm |
| SmartInterfaceClient.NotifyKeepsDiscipline | SmartInterfaceClient/main.cpp:98-122 | a disciplined client stays disciplined over any sequence of notifications |
| SmartInterfaceClient.NotificationsKeepDiscipline | SmartInterfaceClient/main.cpp:82-122 | from construction, over any sequence of notifications, the client keeps the reference discipline |
| SmartInterfaceClient.Now | SmartInterfaceClient/main.cpp:182-191 | 0 when no reference is held, the remote time otherwise |
| SmartInterfaceClient.NowAfterDownIsZero | SmartInterfaceClient/main.cpp:112-120 | after the link goes down `Now` answers 0 |
| SmartInterfaceClient.Elapsed | SmartInterfaceClient/main.cpp:131-137 | returns `_seconds` (narrowed to 16 bits) |
| SmartInterfaceClient.ElapsedIgnoresArgument | SmartInterfaceClient/main.cpp:131-137 | the reported seconds do not affect the result |
| SmartInterfaceClient.Init | SmartInterfaceClient/main.cpp:193-201 | afterwards an instance exists; an existing one is kept, otherwise a fresh one with the given seconds is created |
| SmartInterfaceClient.Term | SmartInterfaceClient/main.cpp:203-214 | afterwards no instance exists |
| SmartInterfaceClient.InitTermIdempotent | SmartInterfaceClient/main.cpp:193-214 | a second `Init` keeps the first instance, a second `Term` changes nothing, `Init` after `Term` creates a fresh instance |
| SimpleDictClient.Get | SimpleDictClient/TestClient.cpp:52-65 | true iff a reference was available and the remote `Get` returned `ERROR_NONE`; one acquire and one release (net 0); without a reference nothing happens and the value is untouched |
| SimpleDictClient.Set | SimpleDictClient/TestClient.cpp:66-83 | true iff a reference was available and the remote `Set` returned `ERROR_NONE`; one acquire, one release (net 0), the value sent; nothing without a reference |
| SimpleDictClient.Trigger | SimpleDictClient/TestClient.cpp:85-96 | with a reference: one acquire, two releases, net -1; nothing otherwise |
| SimpleDictClient.NetAppend | SimpleDictClient/TestClient.cpp:52-96 | the net reference change of consecutive calls adds up |
| SimpleDictClient.SessionNet | SimpleDictClient/TestClient.cpp:52-96 | over any series of calls the net reference change is minus the number of `Trigger`s that got a reference |
| SimpleDictClient.Expected | SimpleDictClient/TestClient.cpp:116-129 | the first n values written are the texts of 8, 9, ..., 8+n-1 (modulo 2^32, as `int32_t`) |
| SimpleDictClient.WriteNextAdvances | SimpleDictClient/TestClient.cpp:129 | writing the counter's text and incrementing it advances the state by one write |
| SimpleDictClient.RepeatAdvances | SimpleDictClient/TestClient.cpp:149-157 | the 'X' loop body run `count` times advances the state by `count` writes |
| SimpleDictClient.KeysAdvance | SimpleDictClient/TestClient.cpp:119-169 | a key sequence advances the state by one write per 'S' and 500000 per 'X' |
| SimpleDictClient.Menu | SimpleDictClient/TestClient.cpp:115-169 | the keys before the first 'Q' write exactly the texts of 8, 9, ... (one per 'S', 500000 per 'X') and leave the counter one past the last value |
| SimpleDictClient.WritesReadBack | SimpleDictClient/TestClient.cpp:129 | the k-th value written reads back through `atoi` as the counter 8+k (as `int32_t`) |
| SimpleService.Add | TrivialCOMRPC/service/SimpleService.cpp:44-48 | status `ERROR_NONE`; the sum equals A+B iff it fits in 16 bits, otherwise A+B-65536 |
| SimpleService.Sub | TrivialCOMRPC/service/SimpleService.cpp:49-53 | status `ERROR_NONE`; the difference equals A-B iff B <= A, otherwise A-B+65536 |
| SimpleService.SubUndoesAdd | TrivialCOMRPC/service/SimpleService.cpp:44-53 | subtracting B from A+B gives A back, with or without overflow |
| SimpleService.AddUndoesSub | TrivialCOMRPC/service/SimpleService.cpp:44-53 | adding B to A-B gives A back, with or without wrap-around |
| SimpleService.AddCommutes | TrivialCOMRPC/service/SimpleService.cpp:44-48 | A+B and B+A give the same reply |
| SimpleService.Acquire | TrivialCOMRPC/service/SimpleService.cpp:91-106 | an object is returned iff the version is 1 or `~0` and the interface id is `IMath::ID` |
| SimpleService.AcquireIgnoresClassName | TrivialCOMRPC/service/SimpleService.cpp:91-106 | the class name does not affect the result |
| SimpleService.ScanMeaning | TrivialCOMRPC/service/SimpleService.cpp:124-137 | the index loop reports help iff a `-h` is reached, and leaves each setting at its effective value or its incoming one |
| SimpleService.ParseOptions | TrivialCOMRPC/service/SimpleService.cpp:117-140 | help iff `-h` is reached; channel and proxy-stub path are the last `-listen`/`-path` values before it, else `SimpleTestAddress` and "./PS" |
| SimpleClient.WinnersCons | TrivialCOMRPC/client/SimpleClient.cpp:45-70 | how one scanned step moves the winning `-connect`/`-plugin` and the last `-plugin` |
| SimpleClient.ScanHelp | TrivialCOMRPC/client/SimpleClient.cpp:45-69 | the index loop reports help iff a `-h` is reached |
| SimpleClient.ScanChannel | TrivialCOMRPC/client/SimpleClient.cpp:46-65 | the channel the loop leaves is set by the last `-connect`/`-plugin` before `-h` |
| SimpleClient.ScanKind | TrivialCOMRPC/client/SimpleClient.cpp:46-65 | the server type the loop leaves is set by the last `-connect`/`-plugin` before `-h`, and untouched without one |
| SimpleClient.ScanCallsign | TrivialCOMRPC/client/SimpleClient.cpp:51-65 | the callsign is the element after the last `-plugin`, or the default callsign when `-plugin` comes last |
| SimpleClient.ParseOptions | TrivialCOMRPC/client/SimpleClient.cpp:39-73 | help iff `-h` is reached; the type is set iff some `-connect`/`-plugin` takes effect, and is the plugin server iff the last one is `-plugin`; channel and callsign follow the last occurrences |
| SimpleClient.AppendKeepsBalance | TrivialCOMRPC/client/SimpleClient.cpp:127-239 | events that acquire and release in step with the handle keep the balance |
| SimpleClient.Step | TrivialCOMRPC/client/SimpleClient.cpp:131-228 | 'M' with a handle changes nothing; a failed 'M' leaves the link closed; 'D' releases a held handle once and nulls it, no-op on null; 'A'/'S' keep the handle; other keys change nothing |
| SimpleClient.AcquireKeepsBalance | TrivialCOMRPC/client/SimpleClient.cpp:144-157 | acquiring on either path keeps the balance; the controller reference on the plugin path is released exactly once |
| SimpleClient.CreateKeepsBalance | TrivialCOMRPC/client/SimpleClient.cpp:132-173 | 'M' keeps the balance, including the close after a failed acquisition |
| SimpleClient.StepKeepsBalance | TrivialCOMRPC/client/SimpleClient.cpp:131-228 | every key keeps the handle balance |
| SimpleClient.Shutdown | TrivialCOMRPC/client/SimpleClient.cpp:232-239 | afterwards no handle is held and the link is closed, the close being the last event if the link was open |
| SimpleClient.ShutdownReleasesAll | TrivialCOMRPC/client/SimpleClient.cpp:232-235 | after the exit path every acquired handle has been released |
| SimpleClient.LoopBalanced | TrivialCOMRPC/client/SimpleClient.cpp:127-230 | the loop keeps the balance; a run that quits ends with no handle and the link closed |
| SimpleClient.Session | TrivialCOMRPC/client/SimpleClient.cpp:127-239 | for any keys and answers the balance holds, and a run that quits has released every acquired handle exactly once and closed the link |
| SimpleClient.EjectLeaksHandle | TrivialCOMRPC/client/SimpleClient.cpp:215 | "M" then "E" exits with the acquired handle never released |
| SimpleJsonRpcClient.ScanMeaning | SimpleJSONRPCClient/SimpleJSONRPCClient.cpp:37-51 | the index loop reports help iff a `-h` is reached, and leaves each of limit, delay and `justDelay` at its effective value or its incoming one |
| SimpleJsonRpcClient.ParseOptions | SimpleJSONRPCClient/SimpleJSONRPCClient.cpp:30-54 | help iff `-h` is reached; limit and delay from the last `-l`/`-d` before it, else 10 and 300; `justDelay` set iff some `-j` takes effect |
| SimpleJsonRpcClient.Rounds | SimpleJSONRPCClient/SimpleJSONRPCClient.cpp:80-86 | n rounds invoke `time` n times, each invocation followed by a sleep of the delay |
| SimpleJsonRpcClient.Session | SimpleJSONRPCClient/SimpleJSONRPCClient.cpp:73-87 | exactly 1 invocation when `justDelay != 0`, `limit` otherwise, each followed by a sleep |
| SimpleJsonRpcClient.HelpDoesNotStop | SimpleJSONRPCClient/SimpleJSONRPCClient.cpp:47-60 | with `-h` first the parser reports help, yet `main` still makes the default 10 invocations, 300 ms apart |
| Numbers.AtoiDecimalText | SimpleDictClient/TestClient.cpp:129 | `atoi` reads the decimal text of any number back as that number |

## Left out

- WebSocketServerTest: socket server set-up and a thread handshake; nothing of it is modelled.
- Framework internals (`SmartInterfaceType`, `CommunicatorClient`, `Communicator`, `JSONRPC::LinkType`, `ServiceType::Create`): their results are inputs of the model.
- Locks (`_apiLock`), threads, reentrant callbacks and `gettid`: the handlers are modelled as sequential transitions.
- Console I/O (`printf`, `getchar`, `cin`/`cout`), `SetEnvironment`, `Core::Singleton::Dispose`: no effect on the modelled state; sleeps are trace events without timing.
- The `extern "C"` wrappers of SmartInterfaceClient: they only forward to the modelled methods.
- SmartInterfaceClient's `main` key loop: it only waits for 'Q' or exits on 'E'; the `Init`, `Now` and `Term` calls around it are modelled as members.
- SimpleDictClient's key loop is modelled for the counter and the values written (`Menu`). Its reference traffic is stated over any series of `Get`/`Set`/`Trigger` calls (`SessionNet`), not per key.
- SmartInterfaceClient's exit status: it is read from the uninitialised `success` (undefined behaviour) and is not modelled.
- The disabled `#if 0` Binder block in the TrivialCOMRPC client.
- The key loop of the TrivialCOMRPC service's `main`: it only waits for 'Q'.
- The values of `IMath::ID` and `Exchange::SimpleTestAddress`: they are defined in an interface header that is not part of this model, so they are parameters.
- `Core::NodeId` parsing of a channel text: channels are kept as the text given.
- The dictionary plugin is not part of this model. So no Set-then-Get round trip is stated, and the 'G' and 'O' keys and the `Get` inside the 'X' loop appear only as reference traffic, not in the counter model.
- ControllerAccessor.ParseFrom: `getopt_long` is reduced to whole elements. Attached values (`-r5`, `--retries=5`), abbreviated long options and option clusters are not modelled. Non-options are skipped, and `--` ends the options.
- ControllerAccessor.Run: the trailing loop that only warns about non-option arguments is not modelled.
- Numbers.Atoi: values outside the range of `int` (undefined in C) are read as unbounded integers before each caller's explicit narrowing.
- SimpleJsonRpcClient.Session: the `int` loop counter is compared with a `uint32_t` limit. Limits of 2^31 and above would overflow that counter, which is undefined behaviour; the model counts up to `limit`.
- SimpleClient.Step: `IsOpen` changes only by the client's own `Open` and `Close`; a link dropped asynchronously by the framework is not modelled.
- SmartInterfaceClient.Term: deleting the instance runs `Close(infinite)`, whose `Operational(false)` notification is not modelled here; it is covered by `Operational` when sent explicitly.
- Each parser reads `argv[index + 1]` unchecked after a value flag, and a flag in last position reads past the end of `argv` (undefined behaviour). Each parser therefore requires `Argv.ValuesPresent` for the flags that read a value. SimpleClient's `-plugin` checks for this itself and needs no such requirement.
