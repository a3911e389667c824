/** The SmartInterfaceClient demo: a smart link to the wall-clock plugin that
    takes an `IWallClock` reference when the link becomes operational, arms a
    countdown callback on it, and disarms and releases it when the link goes
    down; plus the process-wide instance its `Init`/`Term` manage. */
module SmartInterfaceClient {
  import opened Base
  import opened Numbers

  /** Reference traffic on `IWallClock` and the calls made on it. */
  datatype Event = Acquire | Release | RemoteArm(seconds: u16) | RemoteDisarm

  /** The client: whether `_wc` holds a reference, the countdown `_seconds`
      it was created with, and what it has done with `_wc` so far. */
  datatype Client = Client(held: bool, seconds: u32, trace: seq<Event>)

  /** Result of a client method: the client afterwards and the status returned. */
  datatype Reply = Reply(client: Client, status: Status)

  /** The framework's answers during one `Operational` notification: whether
      `Interface()` hands out a reference, and what the remote `Arm` and
      `Disarm` return. */
  datatype Remote = Remote(offered: bool, armStatus: Status, disarmStatus: Status)

  /** `SmartInterfaceClient::Arm`: registers the sink on the held reference and
      reports `ERROR_UNAVAILABLE` whatever the remote side answered. The source
      dereferences `_wc` without a check, so a reference must be held. */
  function Arm(c: Client, seconds: u16, remote: Status): (r: Reply)
    requires c.held
    ensures r.status == ErrorUnavailable
    ensures r.client.held && r.client.seconds == c.seconds
    ensures r.client.trace == c.trace + [RemoteArm(seconds)]
  {
    Reply(c.(trace := c.trace + [RemoteArm(seconds)]), ErrorUnavailable)
  }

  /** The status `Arm` reports does not depend on the remote answer. */
  lemma ArmIgnoresRemote(c: Client, seconds: u16, a: Status, b: Status)
    requires c.held
    ensures Arm(c, seconds, a) == Arm(c, seconds, b)
  {
  }

  /** `SmartInterfaceClient::Disarm`: unregisters the sink and passes the
      remote answer through. Like `Arm`, it needs a held reference. */
  function Disarm(c: Client, remote: Status): (r: Reply)
    requires c.held
    ensures r.status == remote
    ensures r.client.held && r.client.seconds == c.seconds
    ensures r.client.trace == c.trace + [RemoteDisarm]
  {
    Reply(c.(trace := c.trace + [RemoteDisarm]), remote)
  }

  /** How `Disarm` reads the remote answer. */
  datatype DisarmMeaning = Removed | NotArmedOrFired | Failed

  function Classify(status: Status): (m: DisarmMeaning)
    ensures m == Removed <==> status == ErrorNone
    ensures m == NotArmedOrFired <==> status == ErrorNotExist
  {
    match status
    case ErrorNone => Removed
    case ErrorNotExist => NotArmedOrFired
    case _ => Failed
  }

  /** The `Operational` notification. Going up with no reference: take one
      from `Interface()` and, if there is one and `_seconds > 0`, arm it (the
      `uint32_t` seconds narrowed to `Arm`'s `uint16_t`). Going up with a
      reference: nothing. Going down with a reference: disarm, release, null.
      Going down without one: nothing. */
  function Operational(c: Client, upAndRunning: bool, remote: Remote): (r: Client)
    ensures r.seconds == c.seconds
    ensures c.trace <= r.trace
    ensures upAndRunning ==> (r.held <==> c.held || remote.offered)
    ensures !upAndRunning ==> !r.held
    ensures upAndRunning && c.held ==> r == c
    ensures !upAndRunning && !c.held ==> r == c
    ensures !upAndRunning && c.held ==> r.trace == c.trace + [RemoteDisarm, Release]
  {
    if upAndRunning then
      if !c.held then
        if remote.offered then
          var acquired := Client(true, c.seconds, c.trace + [Acquire]);
          if c.seconds > 0 then Arm(acquired, ToU16(c.seconds), remote.armStatus).client else acquired
        else c
      else c
    else if c.held then
      var disarmed := Disarm(c, remote.disarmStatus).client;
      disarmed.(held := false, trace := disarmed.trace + [Release])
    else c
  }

  /** Number of `Arm` calls in a trace, whatever their argument. */
  function Arms(trace: seq<Event>): nat {
    if |trace| == 0 then 0 else (if trace[0].RemoteArm? then 1 else 0) + Arms(trace[1..])
  }

  lemma {:induction false} ArmsAppend(a: seq<Event>, b: seq<Event>)
    ensures Arms(a + b) == Arms(a) + Arms(b)
    decreases |a|
  {
    if |a| == 0 {
      assert a + b == b;
    } else {
      assert (a + b)[1..] == a[1..] + b;
      ArmsAppend(a[1..], b);
    }
  }

  /** Coming up without a reference arms exactly once when `Interface()`
      hands one out and `_seconds > 0`, and not at all otherwise; coming up
      with a reference takes no second one and arms nothing. */
  lemma UpArmsOnce(c: Client, remote: Remote)
    ensures !c.held ==>
      Arms(Operational(c, true, remote).trace) == Arms(c.trace) + (if remote.offered && c.seconds > 0 then 1 else 0)
    ensures !c.held ==>
      Count(Operational(c, true, remote).trace, Acquire) == Count(c.trace, Acquire) + (if remote.offered then 1 else 0)
    ensures c.held ==> Operational(c, true, remote) == c
  {
    if !c.held && remote.offered {
      var acquired := c.trace + [Acquire];
      ArmsAppend(c.trace, [Acquire]);
      CountAppend(c.trace, [Acquire], Acquire);
      if c.seconds > 0 {
        ArmsAppend(acquired, [RemoteArm(ToU16(c.seconds))]);
        CountAppend(acquired, [RemoteArm(ToU16(c.seconds))], Acquire);
      }
    }
  }

  /** Every release comes right after a disarm of the same reference. */
  ghost predicate DisarmThenRelease(trace: seq<Event>) {
    forall k | 0 <= k < |trace| && trace[k] == Release :: k > 0 && trace[k - 1] == RemoteDisarm
  }

  /** The reference discipline: `_wc` is non-null exactly when one
      acquisition is outstanding, so there are never more releases than
      acquisitions. */
  ghost predicate Disciplined(c: Client) {
    && Count(c.trace, Acquire) == Count(c.trace, Release) + (if c.held then 1 else 0)
    && DisarmThenRelease(c.trace)
  }

  /** Appending events that hold no release keeps the order of releases. */
  lemma AppendWithoutRelease(trace: seq<Event>, events: seq<Event>)
    requires DisarmThenRelease(trace)
    requires Release !in events
    ensures DisarmThenRelease(trace + events)
  {
    var t := trace + events;
    forall k | 0 <= k < |t| && t[k] == Release
      ensures k > 0 && t[k - 1] == RemoteDisarm
    {
      assert k < |trace|;
    }
  }

  lemma UpKeepsDiscipline(c: Client, remote: Remote)
    requires Disciplined(c)
    ensures Disciplined(Operational(c, true, remote))
  {
    if !c.held && remote.offered {
      var added := if c.seconds > 0 then [Acquire, RemoteArm(ToU16(c.seconds))] else [Acquire];
      assert Operational(c, true, remote).trace == c.trace + added;
      assert Count(added, Acquire) == 1 && Count(added, Release) == 0;
      CountAppend(c.trace, added, Acquire);
      CountAppend(c.trace, added, Release);
      AppendWithoutRelease(c.trace, added);
    }
  }

  lemma DownKeepsDiscipline(c: Client, remote: Remote)
    requires Disciplined(c)
    ensures Disciplined(Operational(c, false, remote))
  {
    if c.held {
      var added := [RemoteDisarm, Release];
      var t := c.trace + added;
      assert Count(added, Acquire) == 0 && Count(added, Release) == 1;
      CountAppend(c.trace, added, Acquire);
      CountAppend(c.trace, added, Release);
      forall k | 0 <= k < |t| && t[k] == Release
        ensures k > 0 && t[k - 1] == RemoteDisarm
      {
        if k < |c.trace| {
          assert c.trace[k] == Release;
        } else {
          assert k == |c.trace| + 1;
        }
      }
    }
  }

  lemma OperationalKeepsDiscipline(c: Client, upAndRunning: bool, remote: Remote)
    requires Disciplined(c)
    ensures Disciplined(Operational(c, upAndRunning, remote))
  {
    if upAndRunning {
      UpKeepsDiscipline(c, remote);
    } else {
      DownKeepsDiscipline(c, remote);
    }
  }

  /** A sequence of `Operational` notifications with the framework's answers. */
  datatype Notification = Notification(upAndRunning: bool, remote: Remote)

  function Notify(c: Client, ns: seq<Notification>): Client
    decreases |ns|
  {
    if |ns| == 0 then c else Notify(Operational(c, ns[0].upAndRunning, ns[0].remote), ns[1..])
  }

  lemma {:induction false} NotifyKeepsDiscipline(c: Client, ns: seq<Notification>)
    requires Disciplined(c)
    ensures Disciplined(Notify(c, ns))
    decreases |ns|
  {
    if |ns| > 0 {
      OperationalKeepsDiscipline(c, ns[0].upAndRunning, ns[0].remote);
      NotifyKeepsDiscipline(Operational(c, ns[0].upAndRunning, ns[0].remote), ns[1..]);
    }
  }

  /** The client as its constructor leaves it: no reference, nothing done. */
  function Fresh(secs: u32): Client {
    Client(false, secs, [])
  }

  /** Whatever notifications arrive, a client never releases more than it
      acquired, holds `_wc` exactly when one acquisition is outstanding, and
      disarms right before every release. */
  lemma NotificationsKeepDiscipline(secs: u32, ns: seq<Notification>)
    ensures Disciplined(Notify(Fresh(secs), ns))
  {
    NotifyKeepsDiscipline(Fresh(secs), ns);
  }

  /** `SmartInterfaceClient::Now`: the remote time while a reference is
      held, 0 when `_wc` is null. */
  function Now(c: Client, remoteNow: u64): (now: u64)
    ensures !c.held ==> now == 0
    ensures c.held ==> now == remoteNow
  {
    if c.held then remoteNow else 0
  }

  /** Once the link has gone down, `Now` answers 0. */
  lemma NowAfterDownIsZero(c: Client, remote: Remote, remoteNow: u64)
    ensures Now(Operational(c, false, remote), remoteNow) == 0
  {
  }

  /** The sink's `Elapsed` callback: returns `_seconds` narrowed to its
      `uint16_t` result, whatever the wall clock reports. */
  function Elapsed(c: Client, seconds: u16): (r: u16)
    ensures c.seconds < 0x1_0000 ==> r == c.seconds
    ensures (c.seconds - r) % 0x1_0000 == 0
  {
    ToU16(c.seconds)
  }

  lemma ElapsedIgnoresArgument(c: Client, a: u16, b: u16)
    ensures Elapsed(c, a) == Elapsed(c, b)
  {
  }

  /** `Init`: creates the process-wide client only when there is none. */
  function Init(instance: Option<Client>, secs: u32): (r: Option<Client>)
    ensures r.Some?
    ensures instance.Some? ==> r == instance
    ensures instance.None? ==> r.value.seconds == secs && !r.value.held && r.value.trace == []
  {
    if instance.None? then Some(Fresh(secs)) else instance
  }

  /** `Term`: deletes the process-wide client when there is one. */
  function Term(instance: Option<Client>): (r: Option<Client>)
    ensures r.None?
  {
    if instance.Some? then None else instance
  }

  /** Both are idempotent: a second `Init` keeps the first client (and its
      `secs`), a second `Term` finds nothing to delete. */
  lemma InitTermIdempotent(instance: Option<Client>, a: u32, b: u32)
    ensures Init(Init(instance, a), b) == Init(instance, a)
    ensures Term(Term(instance)) == Term(instance)
    ensures Init(Term(instance), b) == Some(Fresh(b))
  {
  }
}
