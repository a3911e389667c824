/** The dictionary test client: its `Dictionary` smart link, which takes and
    gives back one `IDictionary` reference per call, and the key loop that
    writes consecutive counter values. */
module SimpleDictClient {
  import opened Base
  import opened Numbers

  /** Reference traffic on `IDictionary` and the remote calls made with it. */
  datatype Event = Acquire | Release | RemoteGet | RemoteSet(value: string)

  /** Net references a trace leaves held: acquisitions minus releases. */
  function Net(trace: seq<Event>): int {
    Count(trace, Acquire) - Count(trace, Release)
  }

  lemma NetAppend(a: seq<Event>, b: seq<Event>)
    ensures Net(a + b) == Net(a) + Net(b)
  {
    CountAppend(a, b, Acquire);
    CountAppend(a, b, Release);
  }

  /** The remote `Get`'s answer: its status and what it wrote to `value`. */
  datatype GetReply = GetReply(status: Status, value: string)

  datatype GetResult = GetResult(ok: bool, value: string, trace: seq<Event>)

  /** `Dictionary::Get`. `available` is whether `Interface()` returned a
      reference; `value` is the caller's variable before the call. */
  function Get(available: bool, reply: GetReply, value: string): (r: GetResult)
    ensures r.ok <==> available && reply.status == ErrorNone
    ensures Net(r.trace) == 0
    ensures available ==> Count(r.trace, Acquire) == 1 && Count(r.trace, Release) == 1
    ensures !available ==> r.trace == [] && r.value == value
  {
    if available then
      GetResult(reply.status == ErrorNone, reply.value, [Acquire, RemoteGet, Release])
    else
      GetResult(false, value, [])
  }

  datatype SetResult = SetResult(ok: bool, trace: seq<Event>)

  /** `Dictionary::Set`; `status` is what the remote `Set` returns. */
  function Set(available: bool, status: Status, value: string): (r: SetResult)
    ensures r.ok <==> available && status == ErrorNone
    ensures Net(r.trace) == 0
    ensures available ==> Count(r.trace, Acquire) == 1 && Count(r.trace, Release) == 1
    ensures available ==> RemoteSet(value) in r.trace
    ensures !available ==> r.trace == []
  {
    if available then
      var trace := [Acquire, RemoteSet(value), Release];
      assert trace[1..] == [RemoteSet(value), Release] && trace[1..][1..] == [Release];
      CountZero(trace[1..], Acquire);
      assert Count(trace[1..][1..], Release) == 1;
      assert Count(trace, Acquire) == 1 && Count(trace, Release) == 1;
      SetResult(status == ErrorNone, trace)
    else SetResult(false, [])
  }

  /** `Dictionary::Trigger`: one reference taken, two given back. */
  function Trigger(available: bool): (trace: seq<Event>)
    ensures available ==> Count(trace, Acquire) == 1 && Count(trace, Release) == 2
    ensures available ==> Net(trace) == -1
    ensures !available ==> trace == []
  {
    if available then [Acquire, Release, Release] else []
  }

  /** One call on the smart link, with the framework's answers to it. */
  datatype Call =
    | GetCall(available: bool, reply: GetReply)
    | SetCall(available: bool, status: Status, value: string)
    | TriggerCall(available: bool)

  function CallTrace(c: Call): seq<Event> {
    match c
    case GetCall(available, reply) => Get(available, reply, "").trace
    case SetCall(available, status, value) => Set(available, status, value).trace
    case TriggerCall(available) => Trigger(available)
  }

  function SessionTrace(calls: seq<Call>): seq<Event> {
    if |calls| == 0 then [] else CallTrace(calls[0]) + SessionTrace(calls[1..])
  }

  /** The number of `Trigger` calls that got a reference. */
  function Triggers(calls: seq<Call>): nat {
    if |calls| == 0 then 0
    else (if calls[0] == TriggerCall(true) then 1 else 0) + Triggers(calls[1..])
  }

  /** Over any series of calls the link gives back exactly as many references
      as it takes, except one extra release per `Trigger` that got one: gets
      and sets are balanced and only `Trigger` over-releases. */
  lemma {:induction false} SessionNet(calls: seq<Call>)
    ensures Net(SessionTrace(calls)) == -(Triggers(calls) as int)
  {
    if |calls| > 0 {
      SessionNet(calls[1..]);
      NetAppend(CallTrace(calls[0]), SessionTrace(calls[1..]));
    }
  }

  /** The counter `main` starts from. */
  const FirstCounter: u32 := 8

  /** Iterations of the 'X' stress loop. */
  const Burst: nat := 500000

  /** The text 'S' and 'X' write: the `uint32_t` counter as an `int32_t`. */
  function CounterText(counter: u32): string {
    DecimalText(ToI32(counter))
  }

  /** The counter and the values handed to `Set` so far. */
  datatype MenuState = MenuState(counter: u32, writes: seq<string>)

  /** The `n` values the loop writes first: the counter's text for 8, 9, ... */
  function Expected(n: nat): (w: seq<string>)
    ensures |w| == n
    ensures forall k | 0 <= k < n :: w[k] == CounterText(ToU32(FirstCounter + k))
  {
    if n == 0 then [] else Expected(n - 1) + [CounterText(ToU32(FirstCounter + n - 1))]
  }

  /** The state after `n` writes. */
  ghost predicate After(st: MenuState, n: nat) {
    st.writes == Expected(n) && st.counter == ToU32(FirstCounter + n)
  }

  /** Write the counter's text, then increment the counter (wrapping). */
  function WriteNext(st: MenuState): MenuState {
    MenuState(ToU32(st.counter + 1), st.writes + [CounterText(st.counter)])
  }

  lemma WriteNextAdvances(st: MenuState, n: nat)
    requires After(st, n)
    ensures After(WriteNext(st), n + 1)
  {
    ToU32Succ(FirstCounter + n);
  }

  /** `count` iterations of the 'X' loop body: write, then increment. */
  function Repeat(count: nat, st: MenuState): MenuState {
    if count == 0 then st else Repeat(count - 1, WriteNext(st))
  }

  lemma {:induction false} RepeatAdvances(count: nat, st: MenuState, n: nat)
    requires After(st, n)
    ensures After(Repeat(count, st), n + count)
  {
    if count > 0 {
      WriteNextAdvances(st, n);
      RepeatAdvances(count - 1, WriteNext(st), n + 1);
    }
  }

  /** One (upper-cased) key: 'S' writes once, 'X' writes `Burst` times;
      the other keys leave the counter alone. */
  function Key(st: MenuState, key: char): MenuState {
    if key == 'S' then WriteNext(st)
    else if key == 'X' then Repeat(Burst, st)
    else st
  }

  function Keys(keys: seq<char>, st: MenuState): MenuState {
    if |keys| == 0 then st else Keys(keys[1..], Key(st, keys[0]))
  }

  lemma {:induction false} KeysAdvance(keys: seq<char>, st: MenuState, n: nat)
    requires After(st, n)
    ensures After(Keys(keys, st), n + Count(keys, 'S') + Burst * Count(keys, 'X'))
  {
    if |keys| > 0 {
      var next := Key(st, keys[0]);
      var m := n + (if keys[0] == 'S' then 1 else 0) + (if keys[0] == 'X' then Burst else 0);
      if keys[0] == 'S' {
        WriteNextAdvances(st, n);
      } else if keys[0] == 'X' {
        RepeatAdvances(Burst, st, n);
      }
      KeysAdvance(keys[1..], next, m);
    }
  }

  function UpperAll(keys: seq<char>): (u: seq<char>)
    ensures |u| == |keys|
    ensures forall i | 0 <= i < |keys| :: u[i] == Upper(keys[i])
  {
    if |keys| == 0 then [] else [Upper(keys[0])] + UpperAll(keys[1..])
  }

  /** `main`'s key loop, as far as the counter goes: the keys before the
      first 'Q' (either case) act. The values written are exactly the texts
      of 8, 9, 10, ... (one per 'S', 500000 per 'X', counted modulo 2^32),
      and the counter ends one past the last value written. */
  function Menu(keys: seq<char>): (st: MenuState)
    ensures var acted := Before(UpperAll(keys), 'Q');
      var n := Count(acted, 'S') + Burst * Count(acted, 'X');
      st.writes == Expected(n) && st.counter == ToU32(FirstCounter + n)
  {
    var init := MenuState(FirstCounter, []);
    assert After(init, 0);
    KeysAdvance(Before(UpperAll(keys), 'Q'), init, 0);
    Keys(Before(UpperAll(keys), 'Q'), init)
  }

  /** Every value the loop writes reads back, through `atoi`, as the counter
      it was made from. */
  lemma WritesReadBack(keys: seq<char>, k: nat)
    requires k < |Menu(keys).writes|
    ensures Atoi(Menu(keys).writes[k]) == ToI32(ToU32(FirstCounter + k))
  {
    var w := Menu(keys).writes;
    assert w[k] == CounterText(ToU32(FirstCounter + k));
    AtoiDecimalText(ToI32(ToU32(FirstCounter + k)));
  }
}
