/**
 * src/BMNetwork.cpp in direct mode: the login session with its two timers, and the paced
 * packet-data transmitter that shares its clock.
 */
module BmNetwork {
  import opened Common

  const RETRY_MS := 10_000
  const TIMEOUT_MS := 60_000
  const FRAME_INTERVAL_MS := 60
  const MAX_QUEUED := 512

  type WirePacket = seq<byte>

  datatype Status = WaitingConnect | WaitingLogin | WaitingAuthorisation | WaitingConfig | WaitingOptions | Running

  /** DVMHost's Timer: counts milliseconds while running. */
  datatype Timer = Timer(running: bool, elapsed: nat)

  const STARTED := Timer(true, 0)
  const STOPPED := Timer(false, 0)

  function Clocked(t: Timer, ms: nat): Timer {
    if t.running then t.(elapsed := t.elapsed + ms) else t
  }

  predicate HasExpired(t: Timer, limit: nat) { t.running && t.elapsed >= limit }

  datatype Net = Net(status: Status, socketActive: bool, retry: Timer, timeout: Timer,
                     queue: seq<WirePacket>, txElapsed: uint32, hasOptions: bool)

  /** What one socket read yields, told apart as far as the session does. */
  datatype Received = ReadError | Nothing | Foreign | Dmrd | Nak | Ack | Pong | Beacon | MasterClose | Unknown

  /** Everything a clock call learns from outside: time, one read, and which calls succeed. */
  datatype Env = Env(ms: uint32, received: Received, openOk: bool, loginOk: bool, sendOk: bool)

  datatype Output =
    | OpenAttempt
    | Login
    | Authorisation
    | Configuration
    | Options
    | Ping
    | CloseMessage
    | Accepted(packet: WirePacket)
    | BusyStart
    | Sent(packet: WirePacket)
    | Discarded(packet: WirePacket)

  // ------------------------------------------------------------------ session operations

  /** open: lookup and socket may fail; the login may fail to be written. */
  function Opened(n: Net, env: Env): (Net, seq<Output>) {
    if !env.openOk then
      (n.(socketActive := false, status := WaitingConnect, retry := STARTED, timeout := STOPPED), [OpenAttempt])
    else if env.loginOk then
      (n.(socketActive := true, status := WaitingLogin, retry := STARTED, timeout := STARTED), [OpenAttempt, Login])
    else
      (n.(socketActive := true, status := WaitingConnect, retry := STARTED, timeout := STOPPED), [OpenAttempt, Login])
  }

  function AllDiscarded(q: seq<WirePacket>): (outs: seq<Output>)
    ensures |outs| == |q| && forall i :: 0 <= i < |q| ==> outs[i] == Discarded(q[i])
  {
    seq(|q|, i requires 0 <= i < |q| => Discarded(q[i]))
  }

  /** close */
  function Closed(n: Net): (Net, seq<Output>) {
    (n.(status := WaitingConnect, socketActive := false, retry := STOPPED, timeout := STOPPED, queue := [], txElapsed := 0),
     (if n.status.Running? then [CloseMessage] else []) + AllDiscarded(n.queue))
  }

  /** deferReconnect, and the read-error path: close, then wait for the retry timer. */
  function Deferred(n: Net): (Net, seq<Output>) {
    (Closed(n).0.(retry := STARTED), Closed(n).1)
  }

  /** clock while waiting to connect. */
  function ClockWaiting(n: Net, env: Env): (Net, seq<Output>) {
    var n1 := n.(retry := Clocked(n.retry, env.ms));
    if !HasExpired(n1.retry, RETRY_MS) then (n1, [])
    else if !n.socketActive then Opened(n1, env)
    else if !env.loginOk then (n1, [Login])
    else (n1.(status := WaitingLogin, timeout := STARTED, retry := STARTED), [Login])
  }

  function Restarted(n: Net, status: Status): Net {
    n.(status := status, timeout := STARTED, retry := STARTED)
  }

  /** The reaction to a packet, except a read error and the master's close. */
  function OnPacket(n: Net, r: Received): (Net, seq<Output>) {
    match r
    case Dmrd => (if n.status.Running? then n else Restarted(n, Running), [])
    case Nak => (Restarted(n, WaitingLogin), [])
    case Pong => (n.(timeout := STARTED), [])
    case Ack =>
      (match n.status
       case WaitingLogin => (Restarted(n, WaitingAuthorisation), [Authorisation])
       case WaitingAuthorisation => (Restarted(n, WaitingConfig), [Configuration])
       case WaitingConfig => if n.hasOptions then (Restarted(n, WaitingOptions), [Options]) else (Restarted(n, Running), [])
       case WaitingOptions => (Restarted(n, Running), [])
       case _ => (n, []))
    case _ => (n, [])
  }

  /** clockPacketData: a token bucket of one frame per 60 ms, holding at most two intervals. */
  function ClockPacketData(n: Net, ms: uint32, sendOk: bool): (Net, seq<Output>) {
    if !n.status.Running? || n.queue == [] then (n, [])
    else
      var sum := (n.txElapsed + ms) % 0x1_0000_0000;
      var elapsed := if sum < 2 * FRAME_INTERVAL_MS then sum else 2 * FRAME_INTERVAL_MS;
      if elapsed < FRAME_INTERVAL_MS then (n.(txElapsed := elapsed), [])
      else if !sendOk then (n.(txElapsed := FRAME_INTERVAL_MS), [])
      else
        var rest := n.queue[1..];
        (n.(queue := rest, txElapsed := if rest == [] then 0 else elapsed - FRAME_INTERVAL_MS), [Sent(n.queue[0])])
  }

  function Retransmission(s: Status): seq<Output> {
    match s
    case WaitingLogin => [Login]
    case WaitingAuthorisation => [Authorisation]
    case WaitingConfig => [Configuration]
    case WaitingOptions => [Options]
    case Running => [Ping]
    case WaitingConnect => []
  }

  function ClockRetry(n: Net, ms: nat): (Net, seq<Output>) {
    var n1 := n.(retry := Clocked(n.retry, ms));
    if HasExpired(n1.retry, RETRY_MS) then (n1.(retry := STARTED), Retransmission(n.status)) else (n1, [])
  }

  function ClockTimeout(n: Net, ms: nat): (Net, seq<Output>) {
    var n1 := n.(timeout := Clocked(n.timeout, ms));
    if HasExpired(n1.timeout, TIMEOUT_MS) then Deferred(n1) else (n1, [])
  }

  /** clock with a session under way. */
  function ClockSession(n: Net, env: Env): (Net, seq<Output>) {
    if env.received == ReadError || env.received == MasterClose then Deferred(n)
    else
      var (n1, o1) := OnPacket(n, env.received);
      var (n2, o2) := ClockPacketData(n1, env.ms, env.sendOk);
      var (n3, o3) := ClockRetry(n2, env.ms);
      var (n4, o4) := ClockTimeout(n3, env.ms);
      (n4, o1 + o2 + o3 + o4)
  }

  function Clock(n: Net, env: Env): (Net, seq<Output>) {
    if n.status.WaitingConnect? then ClockWaiting(n, env) else ClockSession(n, env)
  }

  function AllAccepted(q: seq<WirePacket>): (outs: seq<Output>)
    ensures |outs| == |q| && forall i :: 0 <= i < |q| ==> outs[i] == Accepted(q[i])
  {
    seq(|q|, i requires 0 <= i < |q| => Accepted(q[i]))
  }

  /**
   * writePacketData from the encoded frames on. `packets` are the wire forms of the burst; an
   * unusable timeslot leaves all of them empty, since every frame of a burst has that slot.
   */
  function Written(n: Net, packets: seq<WirePacket>): (Net, seq<Output>) {
    if !n.status.Running? || packets == [] || |n.queue| + |packets| > MAX_QUEUED || packets[0] == [] then (n, [])
    else
      (n.(queue := n.queue + packets, txElapsed := if n.queue == [] then FRAME_INTERVAL_MS else n.txElapsed),
       (if n.queue == [] then [BusyStart] else []) + AllAccepted(packets))
  }

  datatype Event = Tick(env: Env) | Write(packets: seq<WirePacket>) | Reopen(env: Env)

  /** A close immediately followed by an open, as on the disconnect talkgroup. */
  function Reopened(n: Net, env: Env): (Net, seq<Output>) {
    var (n1, o1) := Closed(n);
    var (n2, o2) := Opened(n1, env);
    (n2, o1 + o2)
  }

  function Step(n: Net, e: Event): (Net, seq<Output>) {
    match e
    case Tick(env) => Clock(n, env)
    case Write(packets) => Written(n, packets)
    case Reopen(env) => Reopened(n, env)
  }

  function Run(n: Net, events: seq<Event>): (Net, seq<Output>) {
    if events == [] then (n, [])
    else
      var (n1, o1) := Run(n, events[..|events| - 1]);
      var (n2, o2) := Step(n1, events[|events| - 1]);
      (n2, o1 + o2)
  }

  // ------------------------------------------------------------------ session invariant

  /**
   * The retry timer always runs; the timeout timer runs exactly when the status is not
   * WaitingConnect, and then has not expired; any such status has a socket; the queue is bounded, and
   * no more than one interval is left in the bucket.
   */
  predicate Invariant(n: Net) {
    && n.retry.running
    && (n.timeout.running <==> !n.status.WaitingConnect?)
    && (n.timeout.running ==> n.timeout.elapsed < TIMEOUT_MS)
    && (!n.status.WaitingConnect? ==> n.socketActive)
    && |n.queue| <= MAX_QUEUED && n.txElapsed <= FRAME_INTERVAL_MS
  }

  lemma SessionKeepsInvariant(n: Net, env: Env)
    requires Invariant(n) && !n.status.WaitingConnect?
    ensures Invariant(ClockSession(n, env).0)
  {
    hide AllDiscarded;
    if env.received != ReadError && env.received != MasterClose {
      var n1 := OnPacket(n, env.received).0;
      assert Invariant(n1) && !n1.status.WaitingConnect?;
      var n2 := ClockPacketData(n1, env.ms, env.sendOk).0;
      assert Invariant(n2) && n2.status == n1.status;
      var n3 := ClockRetry(n2, env.ms).0;
      assert Invariant(n3) && n3.status == n1.status;
    }
  }

  lemma StepKeepsInvariant(n: Net, e: Event)
    requires Invariant(n)
    ensures Invariant(Step(n, e).0)
  {
    hide AllDiscarded, AllAccepted, ClockSession;
    if e.Tick? && !n.status.WaitingConnect? {
      SessionKeepsInvariant(n, e.env);
    }
  }

  /** In every run after an open, whatever arrives and whichever calls fail, the invariant holds. */
  lemma {:induction false} InvariantThroughout(n: Net, env: Env, events: seq<Event>)
    requires |n.queue| <= MAX_QUEUED && n.txElapsed <= FRAME_INTERVAL_MS
    ensures Invariant(Run(Opened(n, env).0, events).0)
  {
    hide Step;
    if events != [] {
      InvariantThroughout(n, env, events[..|events| - 1]);
      StepKeepsInvariant(Run(Opened(n, env).0, events[..|events| - 1]).0, events[|events| - 1]);
    }
  }

  // ------------------------------------------------------------------ a silent master

  /** Reads that carry no sign of life from the master. */
  predicate Silent(r: Received) { r == Nothing || r == Foreign || r == Beacon || r == Unknown }

  function Total(envs: seq<Env>): nat {
    if envs == [] then 0 else envs[0].ms + Total(envs[1..])
  }

  /** The state after the clock calls `envs`, front first. */
  function After(n: Net, envs: seq<Env>): Net
    decreases |envs|
  {
    if envs == [] then n else After(Clock(n, envs[0]).0, envs[1..])
  }

  predicate AllSilent(envs: seq<Env>) { forall i :: 0 <= i < |envs| ==> Silent(envs[i].received) }

  /** A silent clock call either ends the session or lets the timeout timer advance by its time. */
  lemma SilentTick(n: Net, env: Env)
    requires Invariant(n) && !n.status.WaitingConnect? && Silent(env.received)
    ensures var n' := Clock(n, env).0;
            && Invariant(n')
            && (n.timeout.elapsed + env.ms >= TIMEOUT_MS <==> n'.status.WaitingConnect?)
            && (!n'.status.WaitingConnect? ==> n'.timeout.elapsed == n.timeout.elapsed + env.ms)
  {
    hide AllDiscarded;
    StepKeepsInvariant(n, Tick(env));
  }

  /**
   * A silent master is given up on: once the clock calls add up to the time left on the 60 s
   * timeout, the session has gone back to WaitingConnect, on the very call that reached it.
   */
  lemma {:induction false} SilentMasterTimesOut(n: Net, envs: seq<Env>) returns (k: nat)
    requires Invariant(n) && !n.status.WaitingConnect? && AllSilent(envs)
    requires n.timeout.elapsed + Total(envs) >= TIMEOUT_MS
    ensures 0 < k <= |envs| && After(n, envs[..k]).status.WaitingConnect? && Invariant(After(n, envs[..k]))
    ensures n.timeout.elapsed + Total(envs[..k - 1]) < TIMEOUT_MS
    decreases |envs|
  {
    hide Clock, Invariant;
    assert envs != [] by { InvariantTimeout(n); }
    SilentTick(n, envs[0]);
    var n' := Clock(n, envs[0]).0;
    if n'.status.WaitingConnect? {
      k := 1;
      InvariantTimeout(n);
      assert envs[..1][1..] == [] && envs[..0] == [];
    } else {
      var j := SilentMasterTimesOut(n', envs[1..]);
      k := j + 1;
      assert envs[..k][1..] == envs[1..][..j] && envs[..k - 1][1..] == envs[1..][..j - 1];
    }
  }

  lemma InvariantTimeout(n: Net)
    requires Invariant(n) && !n.status.WaitingConnect?
    ensures n.timeout.elapsed < TIMEOUT_MS
  {
  }

  /** The clock call `i` of a run tries to open the socket or to log in. */
  ghost predicate AttemptsAt(n: Net, envs: seq<Env>, i: nat) {
    i < |envs| && var outs := Clock(After(n, envs[..i]), envs[i]).1; OpenAttempt in outs || Login in outs
  }

  /**
   * While waiting to connect, an attempt comes no later than the clock call that completes 10 s, and leads
   * to the login when lookup, socket and message succeed.
   */
  lemma {:induction false} WaitingIsRetried(n: Net, envs: seq<Env>) returns (k: nat)
    requires n.status.WaitingConnect? && n.retry.running && n.retry.elapsed + Total(envs) >= RETRY_MS && envs != []
    ensures AttemptsAt(n, envs, k)
    ensures k == 0 || n.retry.elapsed + Total(envs[..k]) < 10_000
    ensures envs[k].openOk && envs[k].loginOk ==> Clock(After(n, envs[..k]), envs[k]).0.status.WaitingLogin?
    decreases |envs|
  {
    hide Clock;
    AttemptOutcome(n, envs[0]);
    assert envs[..0] == [];
    if n.retry.elapsed + envs[0].ms >= RETRY_MS {
      k := 0;
    } else {
      var j := WaitingIsRetried(Clock(n, envs[0]).0, envs[1..]);
      k := j + 1;
      assert envs[..k][1..] == envs[1..][..j];
    }
  }

  /**
   * Which attempt a waiting session makes when its 10 s are over, and how it goes on: without a socket it opens one and logs
   * in, with one it only logs in; a login that cannot be written is tried again on the next call, anything
   * else only after another 10 s.
   */
  lemma AttemptOutcome(n: Net, env: Env)
    requires n.status.WaitingConnect? && n.retry.running
    ensures var (n', outs) := Clock(n, env);
            if n.retry.elapsed + env.ms < 10_000 then outs == [] && n' == n.(retry := Timer(true, n.retry.elapsed + env.ms))
            else
              && (OpenAttempt in outs <==> !n.socketActive) && (Login in outs <==> n.socketActive || env.openOk)
              && n'.socketActive == (n.socketActive || env.openOk)
              && n'.status == (if env.loginOk && n'.socketActive then WaitingLogin else WaitingConnect)
              && n'.retry == (if n.socketActive && !env.loginOk then Timer(true, n.retry.elapsed + env.ms) else STARTED)
              && n'.queue == n.queue
  {
  }

  /** A close gives up the socket, so that the next attempt opens a new one. */
  lemma CloseGivesUpSocket(n: Net, env: Env)
    requires Invariant(n) && !n.status.WaitingConnect? && Clock(n, env).0.status.WaitingConnect?
    ensures var n' := Clock(n, env).0; !n'.socketActive && n'.retry == STARTED && n'.queue == []
  {
    hide AllDiscarded, ClockPacketData;
    QueueKeepsSession(OnPacket(n, env.received).0, env.ms, env.sendOk);
  }

  /** Outside a running session nothing is sent from the queue, and only a close empties it. */
  lemma WaitsForSession(n: Net, env: Env)
    requires Invariant(n) && !OnPacket(n, env.received).0.status.Running?
    ensures var (n', outs) := Clock(n, env);
            SentCount(outs) == 0 && (n'.queue == n.queue || (n'.queue == [] && n'.status.WaitingConnect?))
  {
    hide AllDiscarded, SentCount, OnPacket, ClockPacketData, ClockRetry, ClockTimeout, ClockWaiting, Invariant;
    WaitingSendsNone(n, env);
    ClosingSendsNone(n);
    if !n.status.WaitingConnect? && env.received != ReadError && env.received != MasterClose {
      var (n1, o1) := OnPacket(n, env.received);
      var (n2, o2) := ClockPacketData(n1, env.ms, env.sendOk);
      var (n3, o3) := ClockRetry(n2, env.ms);
      PacketSendsNone(n, env.received);
      assert (n2, o2) == (n1, []) by { QueueRests(n1, env.ms, env.sendOk); }
      TimersSendNone(n2, env.ms);
      CountsConcat(o1, o2);
      CountsConcat(o1 + o2, o3);
      CountsConcat(o1 + o2 + o3, ClockTimeout(n3, env.ms).1);
      NoneSentCount([]);
    }
  }

  lemma WaitingSendsNone(n: Net, env: Env)
    ensures ClockWaiting(n, env).0.queue == n.queue && SentCount(ClockWaiting(n, env).1) == 0
  {
    NoneSentCount(ClockWaiting(n, env).1);
  }

  lemma ClosingSendsNone(n: Net)
    ensures var (n', outs) := Deferred(n); SentCount(outs) == 0 && n'.queue == [] && n'.status.WaitingConnect?
  {
    NoneSentCount(Deferred(n).1);
  }

  lemma PacketSendsNone(n: Net, r: Received)
    ensures OnPacket(n, r).0.queue == n.queue && SentCount(OnPacket(n, r).1) == 0
  {
    NoneSentCount(OnPacket(n, r).1);
  }

  lemma QueueRests(n: Net, ms: uint32, sendOk: bool)
    requires !n.status.Running?
    ensures ClockPacketData(n, ms, sendOk) == (n, [])
  {
  }

  lemma TimersSendNone(n: Net, ms: nat)
    ensures var (n3, o3) := ClockRetry(n, ms);
            var (n4, o4) := ClockTimeout(n3, ms);
            SentCount(o3) == 0 && SentCount(o4) == 0 && (n4.queue == n.queue || (n4.queue == [] && n4.status.WaitingConnect?))
  {
    var n3 := ClockRetry(n, ms).0;
    NoneSentCount(ClockRetry(n, ms).1);
    NoneSentCount([]);
    ClosingSendsNone(n3.(timeout := Clocked(n3.timeout, ms)));
    hide Deferred, SentCount;
  }

  lemma {:induction false} NoneSentCount(outs: seq<Output>)
    ensures (forall i :: 0 <= i < |outs| ==> !outs[i].Sent?) ==> SentCount(outs) == 0
  {
    if outs != [] { NoneSentCount(outs[..|outs| - 1]); }
  }

  lemma {:induction false} AfterSplit(n: Net, a: seq<Env>, b: seq<Env>)
    ensures After(n, a + b) == After(After(n, a), b) && Total(a + b) == Total(a) + Total(b)
    decreases |a|
  {
    hide Clock;
    if a == [] {
      assert a + b == b;
    } else {
      AfterSplit(Clock(n, a[0]).0, a[1..], b);
      assert (a + b)[1..] == a[1..] + b;
    }
  }

  /**
   * End to end: with clock calls of at most `g` ms, a master silent for 70 s plus one call is
   * first given up on and then contacted again.
   */
  lemma SilentMasterIsContactedAgain(n: Net, envs: seq<Env>, g: nat) returns (i: nat, j: nat)
    requires Invariant(n) && !n.status.WaitingConnect? && AllSilent(envs)
    requires forall k :: 0 <= k < |envs| ==> envs[k].ms <= g
    requires Total(envs) >= TIMEOUT_MS + g + RETRY_MS
    ensures 0 < i <= j < |envs| && After(n, envs[..i]).status.WaitingConnect? && AttemptsAt(n, envs, j)
  {
    hide Clock;
    i := SilentMasterTimesOut(n, envs);
    var rest := envs[i..];
    assert envs == envs[..i] + rest;
    AfterSplit(n, envs[..i], rest);
    assert envs[..i] == envs[..i - 1] + [envs[i - 1]];
    AfterSplit(n, envs[..i - 1], [envs[i - 1]]);
    assert Total([envs[i - 1]]) == envs[i - 1].ms;
    var m := After(n, envs[..i]);
    var k := WaitingIsRetried(m, rest);
    j := i + k;
    AfterSplit(n, envs[..i], rest[..k]);
    assert envs[..j] == envs[..i] + rest[..k];
  }

  /** Packets that start the timeout afresh: a pong, a rejection, traffic that promotes, a step of the login. */
  predicate SignOfLife(n: Net, r: Received) {
    r == Pong || r == Nak || (r == Dmrd && !n.status.Running?) || (r == Ack && !n.status.Running?)
  }

  /**
   * When a session ends, exactly: by a read error or the master's close at once, or on the clock call that
   * completes 60 s without a sign of life.
   */
  lemma SessionEndsIff(n: Net, env: Env)
    requires Invariant(n) && !n.status.WaitingConnect?
    ensures Clock(n, env).0.status.WaitingConnect? <==>
            || env.received == ReadError || env.received == MasterClose
            || (if SignOfLife(n, env.received) then env.ms else n.timeout.elapsed + env.ms) >= 60_000
    ensures !Clock(n, env).0.status.WaitingConnect? ==>
              Clock(n, env).0.timeout.elapsed == if SignOfLife(n, env.received) then env.ms else n.timeout.elapsed + env.ms
  {
    hide AllDiscarded, SignOfLife, Invariant, OnPacket;
    if env.received != ReadError && env.received != MasterClose {
      hide ClockPacketData, ClockRetry, ClockTimeout, Deferred;
      SignStarts(n, env.received);
      var n1 := OnPacket(n, env.received).0;
      var n2 := ClockPacketData(n1, env.ms, env.sendOk).0;
      QueueKeepsSession(n1, env.ms, env.sendOk);
      RetryKeepsSession(n2, env.ms);
      TimeoutEndsIff(ClockRetry(n2, env.ms).0, env.ms);
    }
  }

  lemma SignStarts(n: Net, r: Received)
    requires Invariant(n) && !n.status.WaitingConnect?
    ensures var n1 := OnPacket(n, r).0;
            !n1.status.WaitingConnect? && n1.timeout.running && n1.timeout == if SignOfLife(n, r) then STARTED else n.timeout
  {
  }

  lemma QueueKeepsSession(n: Net, ms: uint32, sendOk: bool)
    ensures var n' := ClockPacketData(n, ms, sendOk).0;
            n'.status == n.status && n'.timeout == n.timeout && n'.retry == n.retry
  {
  }

  lemma RetryKeepsSession(n: Net, ms: nat)
    ensures var n' := ClockRetry(n, ms).0; n'.status == n.status && n'.timeout == n.timeout
  {
  }

  lemma TimeoutEndsIff(n: Net, ms: nat)
    requires n.timeout.running && !n.status.WaitingConnect?
    ensures var n' := ClockTimeout(n, ms).0;
            if n.timeout.elapsed + ms >= 60_000 then n'.status.WaitingConnect?
            else n'.status == n.status && n'.timeout.elapsed == n.timeout.elapsed + ms
  {
    hide AllDiscarded;
  }

  /** The request that enters a state of the login. */
  function RequestOf(s: Status): Output
    requires !s.WaitingConnect? && !s.Running?
  {
    match s
    case WaitingLogin => Login
    case WaitingAuthorisation => Authorisation
    case WaitingConfig => Configuration
    case WaitingOptions => Options
  }

  /** What packets do to the session: who is rejected logs in again, traffic means the session runs, and each acknowledgement asks for the next state. */
  lemma PacketMoves(n: Net, r: Received)
    requires !n.status.WaitingConnect?
    ensures var (n1, outs) := OnPacket(n, r);
            && (r == Nak ==> n1.status.WaitingLogin? && outs == [])
            && (r == Dmrd ==> n1.status.Running? && outs == [])
            && (r == Ack && !n.status.Running? ==>
                  n1.status == NextStatus(n) && outs == if n1.status.Running? then [] else [RequestOf(n1.status)])
            && (r !in {Nak, Dmrd, Ack} || (r == Ack && n.status.Running?) ==> n1.status == n.status && outs == [])
            && (n1.status != n.status ==> n1.retry == STARTED && n1.timeout == STARTED)
  {
  }

  /** The clock call `i` of a run sends this. */
  ghost predicate SendsAt(n: Net, envs: seq<Env>, i: nat, o: Output) {
    i < |envs| && o in Clock(After(n, envs[..i]), envs[i]).1
  }

  /** Outputs that are no request to the master. */
  predicate NoRequest(outs: seq<Output>) {
    forall i :: 0 <= i < |outs| ==> outs[i].Sent? || outs[i].Discarded? || outs[i].CloseMessage?
  }

  lemma AsksNothing(outs: seq<Output>)
    requires NoRequest(outs)
    ensures Ping !in outs && forall s: Status :: !s.WaitingConnect? && !s.Running? ==> RequestOf(s) !in outs
  {
  }

  lemma QueueAsksNothing(n: Net, ms: uint32, sendOk: bool)
    ensures NoRequest(ClockPacketData(n, ms, sendOk).1)
  {
  }

  /** The timeout asks nothing, and a session it ends waits for 10 s from then. */
  lemma TimeoutAsksNothing(n: Net, ms: nat)
    ensures var (n', outs) := ClockTimeout(n, ms);
            && NoRequest(outs)
            && (if HasExpired(Clocked(n.timeout, ms), TIMEOUT_MS) then n'.status.WaitingConnect? && n'.retry == STARTED
                else n' == n.(timeout := Clocked(n.timeout, ms)))
  {
  }

  /** With a silent master the request of the present state goes out exactly every 10 s. */
  lemma RequestIffDue(n: Net, env: Env)
    requires Invariant(n) && !n.status.WaitingConnect? && Silent(env.received)
    ensures var (n', outs) := Clock(n, env);
            var request := if n.status.Running? then Ping else RequestOf(n.status);
            && (request in outs <==> n.retry.elapsed + env.ms >= 10_000)
            && if n.retry.elapsed + env.ms >= 10_000 then n'.retry == STARTED
            else !n'.status.WaitingConnect? ==> n'.status == n.status && n'.retry == Timer(true, n.retry.elapsed + env.ms)
  {
    hide AllDiscarded, ClockPacketData, ClockTimeout, NoRequest;
    QueueKeepsSession(n, env.ms, env.sendOk);
    var n2 := ClockPacketData(n, env.ms, env.sendOk).0;
    QueueAsksNothing(n, env.ms, env.sendOk);
    TimeoutAsksNothing(ClockRetry(n2, env.ms).0, env.ms);
    AsksNothing(ClockPacketData(n, env.ms, env.sendOk).1);
    AsksNothing(ClockTimeout(ClockRetry(n2, env.ms).0, env.ms).1);
  }

  /**
   * While the master is silent and the session is not given up, the request of the present state, or a
   * ping when it runs, is sent again no later than the clock call that completes 10 s.
   */
  lemma {:induction false} RequestIsRepeated(n: Net, envs: seq<Env>) returns (k: nat)
    requires Invariant(n) && !n.status.WaitingConnect? && AllSilent(envs) && n.timeout.elapsed + Total(envs) < 60_000
    requires n.retry.elapsed + Total(envs) >= 10_000 && envs != []
    ensures SendsAt(n, envs, k, if n.status.Running? then Ping else RequestOf(n.status))
    ensures k == 0 || n.retry.elapsed + Total(envs[..k]) < 10_000
    decreases |envs|
  {
    hide Clock, Invariant;
    RequestIffDue(n, envs[0]);
    assert envs[..0] == [];
    if n.retry.elapsed + envs[0].ms >= 10_000 {
      k := 0;
    } else {
      SilentTick(n, envs[0]);
      var j := RequestIsRepeated(Clock(n, envs[0]).0, envs[1..]);
      k := j + 1;
      assert envs[..k][1..] == envs[1..][..j];
    }
  }

  /** The state an acknowledgement leads to, and what is sent on it. */
  function NextStatus(n: Net): Status {
    match n.status
    case WaitingLogin => WaitingAuthorisation
    case WaitingAuthorisation => WaitingConfig
    case WaitingConfig => if n.hasOptions then WaitingOptions else Running
    case _ => Running
  }

  lemma AcknowledgedStep(n: Net, env: Env)
    requires Invariant(n) && !n.status.WaitingConnect? && !n.status.Running? && env.received == Ack && env.ms < RETRY_MS
    ensures var n' := Clock(n, env).0;
            Invariant(n') && n'.status == NextStatus(n) && n'.hasOptions == n.hasOptions
  {
    hide AllDiscarded;
    StepKeepsInvariant(n, Tick(env));
  }

  /** Acknowledgements still needed before the session runs. */
  function AcksLeft(n: Net): nat {
    match n.status
    case WaitingLogin => if n.hasOptions then 4 else 3
    case WaitingAuthorisation => if n.hasOptions then 3 else 2
    case WaitingConfig => if n.hasOptions then 2 else 1
    case WaitingOptions => 1
    case _ => 0
  }

  /** A master that acknowledges each request takes the session to running, one state per acknowledgement. */
  lemma {:induction false} AcknowledgedLogin(n: Net, envs: seq<Env>)
    requires Invariant(n) && !n.status.WaitingConnect? && (n.status.WaitingOptions? ==> n.hasOptions)
    requires |envs| == AcksLeft(n) && forall i :: 0 <= i < |envs| ==> envs[i].received == Ack && envs[i].ms < RETRY_MS
    ensures After(n, envs).status.Running?
    decreases |envs|
  {
    hide Clock, Invariant;
    if envs != [] {
      AcknowledgedStep(n, envs[0]);
      AcknowledgedLogin(Clock(n, envs[0]).0, envs[1..]);
    }
  }

  // ------------------------------------------------------------------ the transmitter

  /** Packets taken into the queue, in order. */
  function AcceptedPackets(outs: seq<Output>): seq<WirePacket> {
    if outs == [] then []
    else
      var o := outs[|outs| - 1];
      AcceptedPackets(outs[..|outs| - 1]) + (if o.Accepted? then [o.packet] else [])
  }

  /** Packets that left the queue, sent or discarded by a close, in order. */
  function LeftPackets(outs: seq<Output>): seq<WirePacket> {
    if outs == [] then []
    else
      var o := outs[|outs| - 1];
      LeftPackets(outs[..|outs| - 1]) + (if o.Sent? || o.Discarded? then [o.packet] else [])
  }

  function SentCount(outs: seq<Output>): nat {
    if outs == [] then 0 else SentCount(outs[..|outs| - 1]) + (if outs[|outs| - 1].Sent? then 1 else 0)
  }

  function BusyCount(outs: seq<Output>): nat {
    if outs == [] then 0 else BusyCount(outs[..|outs| - 1]) + (if outs[|outs| - 1].BusyStart? then 1 else 0)
  }

  lemma {:induction false} PacketsConcat(a: seq<Output>, b: seq<Output>)
    ensures AcceptedPackets(a + b) == AcceptedPackets(a) + AcceptedPackets(b)
    ensures LeftPackets(a + b) == LeftPackets(a) + LeftPackets(b)
  {
    if b == [] {
      assert a + b == a;
    } else {
      PacketsConcat(a, b[..|b| - 1]);
      assert (a + b)[..|a + b| - 1] == a + b[..|b| - 1];
    }
  }

  lemma {:induction false} CountsConcat(a: seq<Output>, b: seq<Output>)
    ensures SentCount(a + b) == SentCount(a) + SentCount(b) && BusyCount(a + b) == BusyCount(a) + BusyCount(b)
  {
    if b == [] {
      assert a + b == a;
    } else {
      CountsConcat(a, b[..|b| - 1]);
      assert (a + b)[..|a + b| - 1] == a + b[..|b| - 1];
    }
  }

  lemma HistoryConcat(a: seq<Output>, b: seq<Output>)
    ensures AcceptedPackets(a + b) == AcceptedPackets(a) + AcceptedPackets(b)
    ensures LeftPackets(a + b) == LeftPackets(a) + LeftPackets(b)
    ensures SentCount(a + b) == SentCount(a) + SentCount(b) && BusyCount(a + b) == BusyCount(a) + BusyCount(b)
  {
    PacketsConcat(a, b);
    CountsConcat(a, b);
  }

  /** Outputs that concern the session only. */
  predicate SessionOnly(outs: seq<Output>) {
    forall i :: 0 <= i < |outs| ==> !outs[i].Accepted? && !outs[i].BusyStart? && !outs[i].Sent? && !outs[i].Discarded?
  }

  lemma {:induction false} SessionOnlyHistory(outs: seq<Output>)
    requires SessionOnly(outs)
    ensures AcceptedPackets(outs) == [] && LeftPackets(outs) == [] && SentCount(outs) == 0 && BusyCount(outs) == 0
  {
    if outs != [] {
      SessionOnlyHistory(outs[..|outs| - 1]);
    }
  }

  lemma {:induction false} DiscardedHistory(q: seq<WirePacket>)
    ensures var outs := AllDiscarded(q);
            AcceptedPackets(outs) == [] && LeftPackets(outs) == q && SentCount(outs) == 0 && BusyCount(outs) == 0
  {
    if q != [] {
      DiscardedHistory(q[..|q| - 1]);
      assert AllDiscarded(q)[..|q| - 1] == AllDiscarded(q[..|q| - 1]);
      assert q == q[..|q| - 1] + [q[|q| - 1]];
    }
  }

  lemma {:induction false} AcceptedHistory(q: seq<WirePacket>)
    ensures var outs := AllAccepted(q);
            AcceptedPackets(outs) == q && LeftPackets(outs) == [] && SentCount(outs) == 0 && BusyCount(outs) == 0
  {
    if q != [] {
      AcceptedHistory(q[..|q| - 1]);
      assert AllAccepted(q)[..|q| - 1] == AllAccepted(q[..|q| - 1]);
      assert q == q[..|q| - 1] + [q[|q| - 1]];
    }
  }

  /** Milliseconds a step puts on the transmitter's clock. */
  function ClockedMs(e: Event): nat { if e.Tick? then e.env.ms else 0 }

  /** What each operation does to the queue and the token bucket. */
  ghost predicate Balanced(n: Net, n': Net, outs: seq<Output>, ms: nat) {
    && n.queue + AcceptedPackets(outs) == LeftPackets(outs) + n'.queue
    && FRAME_INTERVAL_MS * SentCount(outs) + n'.txElapsed <= n.txElapsed + FRAME_INTERVAL_MS * BusyCount(outs) + ms
  }

  lemma QuietBalanced(n: Net, n': Net, outs: seq<Output>, ms: nat)
    requires SessionOnly(outs) && n'.queue == n.queue && n'.txElapsed == n.txElapsed
    ensures Balanced(n, n', outs, ms)
  {
    SessionOnlyHistory(outs);
    assert n.queue + [] == n.queue && [] + n.queue == n.queue;
  }

  lemma BalancedThen(n: Net, n1: Net, n2: Net, o1: seq<Output>, o2: seq<Output>, ms1: nat, ms2: nat)
    requires Balanced(n, n1, o1, ms1) && Balanced(n1, n2, o2, ms2)
    ensures Balanced(n, n2, o1 + o2, ms1 + ms2)
  {
    HistoryConcat(o1, o2);
    Rearranged(n.queue, AcceptedPackets(o1), LeftPackets(o1), n1.queue, AcceptedPackets(o2), LeftPackets(o2), n2.queue);
  }

  lemma Rearranged(q0: seq<WirePacket>, a1: seq<WirePacket>, l1: seq<WirePacket>, q1: seq<WirePacket>,
                   a2: seq<WirePacket>, l2: seq<WirePacket>, q2: seq<WirePacket>)
    requires q0 + a1 == l1 + q1 && q1 + a2 == l2 + q2
    ensures q0 + (a1 + a2) == (l1 + l2) + q2
  {
    assert q0 + (a1 + a2) == (q0 + a1) + a2 == l1 + (q1 + a2) == l1 + (l2 + q2);
  }

  lemma ClosedBalanced(n: Net)
    ensures Balanced(n, Closed(n).0, Closed(n).1, 0)
    ensures Balanced(n, Deferred(n).0, Deferred(n).1, 0)
  {
    hide AllDiscarded, AcceptedPackets, LeftPackets, SentCount, BusyCount;
    var first: seq<Output> := if n.status.Running? then [CloseMessage] else [];
    SessionOnlyHistory(first);
    DiscardedHistory(n.queue);
    HistoryConcat(first, AllDiscarded(n.queue));
    assert n.queue + [] == n.queue == [] + n.queue;
  }

  lemma PacketDataBalanced(n: Net, ms: uint32, sendOk: bool)
    requires n.txElapsed <= 2 * FRAME_INTERVAL_MS
    ensures Balanced(n, ClockPacketData(n, ms, sendOk).0, ClockPacketData(n, ms, sendOk).1, ms)
  {
    var (n', outs) := ClockPacketData(n, ms, sendOk);
    if outs != [] {
      assert outs == [Sent(n.queue[0])] && outs[..0] == [];
      assert LeftPackets(outs) == [n.queue[0]] && AcceptedPackets(outs) == [] && SentCount(outs) == 1 && BusyCount(outs) == 0;
      assert n.queue == [n.queue[0]] + n'.queue;
    } else {
      assert n.queue + [] == [] + n'.queue;
    }
  }

  /**
   * A burst is accepted whole and back to back, exactly if the session runs, the burst is usable and
   * not empty, and 512 packets are not exceeded; or else not at all.
   */
  lemma WrittenOutputs(n: Net, packets: seq<WirePacket>)
    ensures var (n', outs) := Written(n, packets);
            if !n.status.Running? || packets == [] || packets[0] == [] || |n.queue| + |packets| > 512 then n' == n && outs == []
            else
              (&& n'.queue == n.queue + packets && |n'.queue| <= MAX_QUEUED
                && AcceptedPackets(outs) == packets && LeftPackets(outs) == [] && SentCount(outs) == 0
                && BusyCount(outs) == (if n.queue == [] then 1 else 0)
                && n'.txElapsed == if n.queue == [] then FRAME_INTERVAL_MS else n.txElapsed)
  {
    hide AllAccepted, AcceptedPackets, LeftPackets, SentCount, BusyCount;
    var first: seq<Output> := if n.queue == [] then [BusyStart] else [];
    AcceptedHistory(packets);
    HistoryConcat(first, AllAccepted(packets));
    FirstHistory(n.queue == []);
    assert [] + packets == packets;
  }

  lemma FirstHistory(busy: bool)
    ensures var first: seq<Output> := if busy then [BusyStart] else [];
            && AcceptedPackets(first) == [] && LeftPackets(first) == [] && SentCount(first) == 0
            && BusyCount(first) == if busy then 1 else 0
  {
    var one := [BusyStart];
    assert one[..0] == [];
  }

  lemma WrittenBalanced(n: Net, packets: seq<WirePacket>)
    ensures Balanced(n, Written(n, packets).0, Written(n, packets).1, 0)
  {
    hide Written;
    WrittenOutputs(n, packets);
    var (n', outs) := Written(n, packets);
    if outs == [] {
      assert n.queue + [] == [] + n.queue;
    }
  }

  lemma SessionBalanced(n: Net, env: Env)
    requires Invariant(n) && !n.status.WaitingConnect?
    ensures Balanced(n, ClockSession(n, env).0, ClockSession(n, env).1, env.ms)
  {
    hide Balanced, AllDiscarded, ClockPacketData;
    if env.received == ReadError || env.received == MasterClose {
      ClosedBalanced(n);
      BalancedLater(n, Deferred(n).0, Deferred(n).1, 0, env.ms);
    } else {
      var (n1, o1) := OnPacket(n, env.received);
      var (n2, o2) := ClockPacketData(n1, env.ms, env.sendOk);
      var (n3, o3) := ClockRetry(n2, env.ms);
      var (n4, o4) := ClockTimeout(n3, env.ms);
      QuietBalanced(n, n1, o1, 0);
      PacketDataBalanced(n1, env.ms, env.sendOk);
      QuietBalanced(n2, n3, o3, 0);
      TimeoutBalanced(n3, env.ms);
      BalancedThen(n, n1, n2, o1, o2, 0, env.ms);
      BalancedThen(n, n2, n3, o1 + o2, o3, env.ms, 0);
      BalancedThen(n, n3, n4, o1 + o2 + o3, o4, env.ms, 0);
    }
  }

  lemma TimeoutBalanced(n: Net, ms: nat)
    ensures Balanced(n, ClockTimeout(n, ms).0, ClockTimeout(n, ms).1, 0)
  {
    hide AllDiscarded;
    var n1 := n.(timeout := Clocked(n.timeout, ms));
    ClosedBalanced(n1);
    QuietBalanced(n, n1, [], 0);
  }

  lemma BalancedLater(n: Net, n': Net, outs: seq<Output>, ms: nat, more: nat)
    requires Balanced(n, n', outs, ms) && ms <= more
    ensures Balanced(n, n', outs, more)
  {
  }

  lemma StepBalanced(n: Net, e: Event)
    requires Invariant(n)
    ensures Balanced(n, Step(n, e).0, Step(n, e).1, ClockedMs(e))
  {
    hide Balanced, AllDiscarded, Written, ClockSession, Closed;
    match e {
      case Write(packets) => WrittenBalanced(n, packets);
      case Reopen(env) =>
        var (n1, o1) := Closed(n);
        ClosedBalanced(n);
        QuietBalanced(n1, Opened(n1, env).0, Opened(n1, env).1, 0);
        BalancedThen(n, n1, Opened(n1, env).0, o1, Opened(n1, env).1, 0, 0);
      case Tick(env) =>
        if n.status.WaitingConnect? {
          QuietBalanced(n, ClockWaiting(n, env).0, ClockWaiting(n, env).1, env.ms);
        } else {
          SessionBalanced(n, env);
        }
    }
  }

  function TotalMs(events: seq<Event>): nat {
    if events == [] then 0 else TotalMs(events[..|events| - 1]) + ClockedMs(events[|events| - 1])
  }

  /**
   * Over every run: packets leave the queue in the order they were accepted, none lost or
   * repeated; and 60 * sent + elapsed never exceeds 60 per busy period plus the clocked time.
   */
  lemma TransmitterConserves(n: Net, events: seq<Event>)
    requires Invariant(n)
    ensures var (n', outs) := Run(n, events);
            && Invariant(n')
            && n.queue + AcceptedPackets(outs) == LeftPackets(outs) + n'.queue
            && 60 * SentCount(outs) + n'.txElapsed <= n.txElapsed + 60 * BusyCount(outs) + TotalMs(events)
  {
    RunBalanced(n, events);
  }

  lemma {:induction false} RunBalanced(n: Net, events: seq<Event>)
    requires Invariant(n)
    ensures Invariant(Run(n, events).0) && Balanced(n, Run(n, events).0, Run(n, events).1, TotalMs(events))
  {
    hide Step, Balanced, Invariant;
    if events == [] {
      QuietBalanced(n, n, [], 0);
    } else {
      var before, e := events[..|events| - 1], events[|events| - 1];
      RunBalanced(n, before);
      var (n1, o1) := Run(n, before);
      StepKeepsInvariant(n1, e);
      StepBalanced(n1, e);
      BalancedThen(n, n1, Step(n1, e).0, o1, Step(n1, e).1, TotalMs(before), ClockedMs(e));
    }
  }

  // ------------------------------------------------------------------ the transmitter gets on

  /** A clock call that leaves the session running, and finds the socket willing. */
  predicate Serves(n: Net, env: Env) { n.status.Running? && env.sendOk && Clock(n, env).0.status.Running? }

  /**
   * What a clock call does to the queue and the bucket, as long as the session goes on: the head leaves exactly if
   * the elapsed time, kept in 32 bits, makes up 60 ms.
   */
  lemma TickSends(n: Net, env: Env)
    requires Invariant(n) && Serves(n, env)
    ensures var (n', outs) := Clock(n, env);
            var elapsed := (n.txElapsed + env.ms) % 0x1_0000_0000;
            && AcceptedPackets(outs) == [] && BusyCount(outs) == 0
            && if n.queue == [] || elapsed < 60 then
                 && LeftPackets(outs) == [] && SentCount(outs) == 0 && n'.queue == n.queue
                 && n'.txElapsed == if n.queue == [] then n.txElapsed else elapsed
               else
                 && LeftPackets(outs) == [n.queue[0]] && SentCount(outs) == 1 && n'.queue == n.queue[1..]
                 && n'.txElapsed == if |n.queue| == 1 then 0 else if elapsed >= 120 then 60 else elapsed - 60
  {
    hide AllDiscarded, ClockPacketData, AcceptedPackets, LeftPackets, SentCount, BusyCount, ClockTimeout, ClockRetry, OnPacket;
    RunningPacket(n, env);
    var (n1, o1) := OnPacket(n, env.received);
    var (n2, o2) := ClockPacketData(n1, env.ms, env.sendOk);
    var (n3, o3) := ClockRetry(n2, env.ms);
    var (n4, o4) := ClockTimeout(n3, env.ms);
    TimersOnly(n2, env.ms);
    SentOutputs(n1, env.ms);
    SessionOnlyHistory(o1);
    SessionOnlyHistory(o3);
    HistoryConcat(o1, o2);
    HistoryConcat(o1 + o2, o3);
    HistoryConcat(o1 + o2 + o3, o4);
    SessionOnlyHistory(o4);
  }

  /** A packet that leaves a running session running changes no more than its timeout. */
  lemma RunningPacket(n: Net, env: Env)
    requires Serves(n, env)
    ensures env.received != ReadError && env.received != MasterClose
    ensures var (n1, o1) := OnPacket(n, env.received);
            n1.status.Running? && n1.queue == n.queue && n1.txElapsed == n.txElapsed && SessionOnly(o1)
    ensures ClockTimeout(ClockRetry(ClockPacketData(OnPacket(n, env.received).0, env.ms, env.sendOk).0, env.ms).0, env.ms).0.status.Running?
  {
    hide AllDiscarded;
  }

  /** Timers that leave the session running leave the queue alone. */
  lemma TimersOnly(n: Net, ms: nat)
    requires ClockTimeout(ClockRetry(n, ms).0, ms).0.status.Running?
    ensures var (n3, o3) := ClockRetry(n, ms);
            var (n4, o4) := ClockTimeout(n3, ms);
            SessionOnly(o3) && SessionOnly(o4) && n4.queue == n.queue && n4.txElapsed == n.txElapsed
  {
    hide AllDiscarded;
  }

  lemma SentOutputs(n: Net, ms: uint32)
    requires n.status.Running?
    ensures var (n', outs) := ClockPacketData(n, ms, true);
            var elapsed := (n.txElapsed + ms) % 0x1_0000_0000;
            && AcceptedPackets(outs) == [] && BusyCount(outs) == 0
            && if n.queue == [] || elapsed < 60 then
                 && LeftPackets(outs) == [] && SentCount(outs) == 0 && n'.queue == n.queue
                 && n'.txElapsed == if n.queue == [] then n.txElapsed else elapsed
               else
                 && LeftPackets(outs) == [n.queue[0]] && SentCount(outs) == 1 && n'.queue == n.queue[1..]
                 && n'.txElapsed == if |n.queue| == 1 then 0 else if elapsed >= 120 then 60 else elapsed - 60
  {
    var (n', outs) := ClockPacketData(n, ms, true);
    if n.queue != [] && (n.txElapsed + ms) % 0x1_0000_0000 >= 60 {
      assert outs == [Sent(n.queue[0])] && outs[..0] == [];
    }
  }

  /** The first packet of a burst into an empty queue leaves on the next clock call. */
  lemma BurstStartsAtOnce(n: Net, packets: seq<WirePacket>, env: Env)
    requires Invariant(n) && n.queue == [] && n.status.Running? && 0 < |packets| <= 512 && packets[0] != []
    requires env.ms < 0x1_0000_0000 - 60 && Serves(Written(n, packets).0, env)
    ensures var (n', outs) := Clock(Written(n, packets).0, env);
            SentCount(outs) == 1 && LeftPackets(outs) == [packets[0]] && n'.queue == packets[1..]
  {
    hide Clock, AllAccepted;
    StepKeepsInvariant(n, Write(packets));
    WrittenOutputs(n, packets);
    TickSends(Written(n, packets).0, env);
  }

  /** The session runs through all of the events, which are clock calls of at most 60 ms with successful sends, and writes. */
  ghost predicate ServesAll(n: Net, events: seq<Event>) {
    forall i :: 0 <= i < |events| ==>
      var m := Run(n, events[..i]).0;
      match events[i]
      case Tick(env) => env.ms <= 60 && Serves(m, env)
      case Write(_) => m.status.Running?
      case Reopen(_) => false
  }

  /** Still `rest` of the first packets to send: what left is what was sent, and no time was lost. */
  ghost predicate OnTime(n: Net, n': Net, outs: seq<Output>, ms: nat) {
    && |LeftPackets(outs)| == SentCount(outs)
    && (SentCount(outs) < |n.queue| ==> 60 * SentCount(outs) + n'.txElapsed == n.txElapsed + ms)
  }

  lemma WriteOnTime(n: Net, n1: Net, o1: seq<Output>, ms: nat, packets: seq<WirePacket>)
    requires OnTime(n, n1, o1, ms) && Balanced(n, n1, o1, ms)
    ensures OnTime(n, Written(n1, packets).0, o1 + Written(n1, packets).1, ms)
  {
    hide Written, LeftPackets, AcceptedPackets, SentCount, BusyCount;
    WrittenOutputs(n1, packets);
    var (n2, o2) := Written(n1, packets);
    if o2 == [] { assert o1 + o2 == o1; }
    HistoryConcat(o1, o2);
    QueueLeft(n, n1, o1, ms);
  }

  lemma QueueLeft(n: Net, n1: Net, o1: seq<Output>, ms: nat)
    requires OnTime(n, n1, o1, ms) && Balanced(n, n1, o1, ms)
    ensures SentCount(o1) < |n.queue| ==> n1.queue != []
  {
    hide LeftPackets, AcceptedPackets, SentCount, BusyCount;
    assert |n.queue + AcceptedPackets(o1)| == |LeftPackets(o1) + n1.queue|;
  }

  lemma TickOnTime(n: Net, n1: Net, o1: seq<Output>, ms: nat, env: Env)
    requires OnTime(n, n1, o1, ms) && Balanced(n, n1, o1, ms) && Invariant(n1) && Serves(n1, env) && env.ms <= 60
    ensures OnTime(n, Clock(n1, env).0, o1 + Clock(n1, env).1, ms + env.ms)
  {
    hide Clock, Serves, LeftPackets, AcceptedPackets, SentCount, BusyCount;
    TickSends(n1, env);
    HistoryConcat(o1, Clock(n1, env).1);
    QueueLeft(n, n1, o1, ms);
    if |n1.queue| == 1 { LastOfQueue(n, n1, o1, ms); }
  }

  /** Once the queue is about to run empty, the last of the first packets is about to leave. */
  lemma LastOfQueue(n: Net, n1: Net, o1: seq<Output>, ms: nat)
    requires OnTime(n, n1, o1, ms) && Balanced(n, n1, o1, ms) && |n1.queue| == 1
    ensures SentCount(o1) + 1 >= |n.queue|
  {
    hide LeftPackets, AcceptedPackets, SentCount, BusyCount;
    assert |n.queue + AcceptedPackets(o1)| == |LeftPackets(o1) + n1.queue|;
  }

  lemma {:induction false} RunOnTime(n: Net, events: seq<Event>)
    requires Invariant(n) && ServesAll(n, events)
    ensures OnTime(n, Run(n, events).0, Run(n, events).1, TotalMs(events))
  {
    hide Step, Invariant, OnTime, Clock, Written, Balanced;
    if events == [] {
      NothingOnTime(n);
    } else {
      var before, e := events[..|events| - 1], events[|events| - 1];
      assert forall i :: 0 <= i < |before| ==> before[i] == events[i] && before[..i] == events[..i];
      RunOnTime(n, before);
      RunBalanced(n, before);
      var (n1, o1) := Run(n, before);
      StepIs(n1, e);
      match e {
        case Write(packets) => WriteOnTime(n, n1, o1, TotalMs(before), packets);
        case Tick(env) => TickOnTime(n, n1, o1, TotalMs(before), env);
      }
    }
  }

  lemma NothingOnTime(n: Net)
    ensures OnTime(n, n, [], 0)
  {
  }

  lemma StepIs(n: Net, e: Event)
    ensures e.Tick? ==> Step(n, e) == Clock(n, e.env)
    ensures e.Write? ==> Step(n, e) == Written(n, e.packets)
  {
  }

  /**
   * The transmitter gets on: whatever is queued behind them meanwhile, all packets queued now have left,
   * in order, once the bucket and the clock calls together exceed 60 ms for each.
   */
  lemma QueueDrains(n: Net, events: seq<Event>)
    requires Invariant(n) && ServesAll(n, events) && n.txElapsed + TotalMs(events) > 60 * |n.queue|
    ensures var left := LeftPackets(Run(n, events).1);
            n.queue <= left && SentCount(Run(n, events).1) == |left|
  {
    hide Run, ServesAll, LeftPackets, AcceptedPackets, SentCount, BusyCount, Invariant;
    RunOnTime(n, events);
    RunBalanced(n, events);
    var (n', outs) := Run(n, events);
    BucketBound(n');
    var left := LeftPackets(outs);
    assert |left| >= |n.queue|;
    assert n.queue == (n.queue + AcceptedPackets(outs))[..|n.queue|] == (left + n'.queue)[..|n.queue|] == left[..|n.queue|];
  }

  lemma BucketBound(n: Net)
    requires Invariant(n)
    ensures n.txElapsed <= 60
  {
  }

  /** Outputs that throw no packet away. */
  predicate Keeps(outs: seq<Output>) {
    forall i :: 0 <= i < |outs| ==> !outs[i].Discarded?
  }

  lemma SessionKeeps(n: Net, env: Env)
    requires Keeps(ClockTimeout(ClockRetry(ClockPacketData(OnPacket(n, env.received).0, env.ms, env.sendOk).0, env.ms).0, env.ms).1)
    requires env.received != ReadError && env.received != MasterClose
    ensures Keeps(ClockSession(n, env).1)
  {
    hide ClockTimeout;
    var (n1, o1) := OnPacket(n, env.received);
    var (n2, o2) := ClockPacketData(n1, env.ms, env.sendOk);
    var (n3, o3) := ClockRetry(n2, env.ms);
    assert Keeps(o1) && Keeps(o2) && Keeps(o3);
  }

  lemma WrittenKeeps(n: Net, packets: seq<WirePacket>)
    ensures Keeps(Written(n, packets).1)
  {
  }

  /** The state a close leaves behind: an empty queue and no session. */
  predicate IsClosed(n: Net) { n.queue == [] && n.status.WaitingConnect? }

  lemma TimeoutKeepsOrCloses(n: Net, ms: nat)
    ensures Keeps(ClockTimeout(n, ms).1) || IsClosed(ClockTimeout(n, ms).0)
  {
    hide AllDiscarded;
  }

  lemma SessionKeepsOrCloses(n: Net, env: Env)
    ensures Keeps(ClockSession(n, env).1) || IsClosed(ClockSession(n, env).0)
  {
    hide AllDiscarded, OnPacket, ClockPacketData, ClockRetry, ClockTimeout, Keeps;
    if env.received != ReadError && env.received != MasterClose {
      var n3 := ClockRetry(ClockPacketData(OnPacket(n, env.received).0, env.ms, env.sendOk).0, env.ms).0;
      TimeoutKeepsOrCloses(n3, env.ms);
      if Keeps(ClockTimeout(n3, env.ms).1) { SessionKeeps(n, env); }
    }
  }

  lemma WaitingKeeps(n: Net, env: Env)
    ensures Keeps(ClockWaiting(n, env).1)
  {
  }

  /** Every packet that leaves the queue unsent does so in a close, which empties the queue and ends the session. */
  lemma DiscardedOnlyByClose(n: Net, e: Event)
    requires !e.Reopen?
    ensures Keeps(Step(n, e).1) || IsClosed(Step(n, e).0)
  {
    hide Keeps, ClockSession, ClockWaiting, Written;
    match e {
      case Write(packets) => WrittenKeeps(n, packets);
      case Tick(env) =>
        WaitingKeeps(n, env);
        SessionKeepsOrCloses(n, env);
    }
  }

  /** A failed send keeps the whole queue, its head first in line and due on the next call. */
  lemma FailedSendKeepsQueue(n: Net, env: Env)
    requires Invariant(n) && !env.sendOk && !Clock(n, env).0.status.WaitingConnect?
    ensures Clock(n, env).0.queue == n.queue
    ensures n.status.Running? && Clock(n, env).0.status.Running? && n.queue != [] && (n.txElapsed + env.ms) % 0x1_0000_0000 >= 60 ==>
              Clock(n, env).0.txElapsed == 60
  {
    hide AllDiscarded, ClockPacketData, ClockRetry, ClockTimeout, OnPacket, Invariant;
    if !n.status.WaitingConnect? && env.received != ReadError && env.received != MasterClose {
      var n1 := OnPacket(n, env.received).0;
      var n2 := ClockPacketData(n1, env.ms, env.sendOk).0;
      PacketKeepsQueue(n, env.received);
      UnsentStays(n1, env.ms);
      TimersKeepQueue(n2, env.ms);
    }
  }

  lemma PacketKeepsQueue(n: Net, r: Received)
    ensures var n1 := OnPacket(n, r).0;
            n1.queue == n.queue && n1.txElapsed == n.txElapsed && (n1.status.WaitingConnect? ==> n.status.WaitingConnect?)
    ensures n.status.Running? && r != Nak ==> OnPacket(n, r).0.status.Running?
    ensures r == Nak ==> OnPacket(n, r).0.status.WaitingLogin?
  {
  }

  lemma UnsentStays(n: Net, ms: uint32)
    ensures var n' := ClockPacketData(n, ms, false).0;
            n'.queue == n.queue && n'.status == n.status
    ensures n.status.Running? && n.queue != [] && (n.txElapsed + ms) % 0x1_0000_0000 >= 60 ==> ClockPacketData(n, ms, false).0.txElapsed == 60
  {
  }

  lemma TimersKeepQueue(n: Net, ms: nat)
    requires !n.status.WaitingConnect?
    ensures var n' := ClockTimeout(ClockRetry(n, ms).0, ms).0;
            !n'.status.WaitingConnect? ==> n'.queue == n.queue && n'.txElapsed == n.txElapsed && n'.status == n.status
  {
    hide AllDiscarded;
  }
}
