/**
 * Service replies over whole runs: the bridge writes and withdraws routes, replies arrive, and
 * both happen in any order.
 */
module ServiceReplyRuns {
  import opened Common
  import opened Decimal
  import opened ServiceReplies

  // ------------------------------------------------------------------ the producer

  datatype Request = Request(createdMs: nat, maxAgeMs: nat, service: uint32, requester: uint32, unique: string)

  /** Times that fit the file name's 13 digits and the reader's 64 bits. */
  predicate Timely(q: Request) { 0 < q.createdMs < Pow10(13) && q.createdMs + q.maxAgeMs < 0x1_0000_0000_0000_0000 }

  function NameOf(q: Request): string { RouteName(q.createdMs, q.service, q.requester, q.unique) }

  function FileOf(q: Request): RouteFile
    requires q.createdMs + q.maxAgeMs < 0x1_0000_0000_0000_0000
  {
    RouteFile(Some(q.createdMs), Some(q.createdMs + q.maxAgeMs), Some(Rids(q.service, q.requester)))
  }

  datatype SendResult = SmsSent | SmsHeld | SmsRaised

  datatype FlushResult = LocalDelivery | HeldBack | ServiceSend(result: SendResult, routePath: Option<string>)
                       | PacketData(routePath: Option<string>)

  /** The settings and the pending text's flags flush_pending_text decides on. */
  datatype FlushCase = FlushCase(localCandidate: bool, localLoop: bool, brewService: bool, brewEnabled: bool, bmService: bool)

  /** The deliveries of flush_pending_text that leave a route for the reply. */
  predicate LeavesRoute(c: FlushCase, sent: SendResult) {
    && !(c.localCandidate && c.localLoop)
    && if c.brewService then c.brewEnabled && sent.SmsSent? else c.bmService
  }

  class TextBridge {
    const routes: RouteDirectory

    constructor (routes: RouteDirectory)
      ensures this.routes == routes
    {
      this.routes := routes;
    }

    /** write_service_route */
    method WriteServiceRoute(q: Request) returns (path: string)
      requires Timely(q)
      modifies routes
      ensures path == NameOf(q) && routes.files == old(routes.files)[path := FileOf(q)]
    {
      path := NameOf(q);
      routes.files := routes.files[path := FileOf(q)];
    }

    /** brew.send_sms; `meanwhile` is what the other process makes of the directory until it returns. */
    method SendSms(sent: SendResult, meanwhile: Directory -> Directory) returns (result: SendResult)
      modifies routes
      ensures result == sent && routes.files == meanwhile(old(routes.files))
    {
      routes.files := meanwhile(routes.files);
      return sent;
    }

    /**
     * flush_pending_text, whatever happens to the directory during the send: a route is written for a
     * text that goes to a service, before anything is sent; over BREW it is taken back, if it is still
     * there, exactly when the send fails or raises.
     */
    method FlushPendingText(c: FlushCase, q: Request, sent: SendResult, meanwhile: Directory -> Directory) returns (result: FlushResult)
      requires Timely(q) && NameOf(q) !in routes.files
      modifies routes
      ensures routes.files == Flushed(old(routes.files), c, q, sent, meanwhile)
      ensures LeavesRoute(c, sent) ==> result == if c.brewService then ServiceSend(SmsSent, Some(NameOf(q))) else PacketData(Some(NameOf(q)))
      ensures !LeavesRoute(c, sent) ==>
                result == if c.localCandidate && c.localLoop then LocalDelivery
                          else if !c.brewService then PacketData(None)
                          else if c.brewEnabled then ServiceSend(sent, None) else HeldBack
    {
      if c.localCandidate && c.localLoop { return LocalDelivery; }
      if c.brewService {
        if !c.brewEnabled { return HeldBack; }
        var path := WriteServiceRoute(q);
        var outcome := SendSms(sent, meanwhile);
        if !outcome.SmsSent? {
          routes.files := routes.files - {path};
          return ServiceSend(outcome, None);
        }
        return ServiceSend(outcome, Some(path));
      }
      if c.bmService {
        var path := WriteServiceRoute(q);
        return PacketData(Some(path));
      }
      return PacketData(None);
    }
  }

  /** The directory after a text was flushed. */
  function Flushed(files: Directory, c: FlushCase, q: Request, sent: SendResult, meanwhile: Directory -> Directory): Directory
    requires Timely(q)
  {
    if c.localCandidate && c.localLoop then files
    else if c.brewService then
      if !c.brewEnabled then files
      else
        var after := meanwhile(files[NameOf(q) := FileOf(q)]);
        if sent.SmsSent? then after else after - {NameOf(q)}
    else if c.bmService then files[NameOf(q) := FileOf(q)]
    else files
  }

  /**
   * A failed or undelivered text leaves no route of its own behind, however the directory changed
   * meanwhile; a delivered one leaves it there for the reply, unless a reply used it or its time ran out
   * during the send.
   */
  lemma FlushLeavesRouteIff(files: Directory, c: FlushCase, q: Request, sent: SendResult, meanwhile: Directory -> Directory)
    requires Timely(q) && NameOf(q) !in files
    ensures NameOf(q) in Flushed(files, c, q, sent, meanwhile) <==>
            LeavesRoute(c, sent) && (c.brewService ==> NameOf(q) in meanwhile(files[NameOf(q) := FileOf(q)]))
  {
    hide NameOf, FileOf;
  }

  // ------------------------------------------------------------------ runs

  datatype Event =
    | Write(request: Request)
    | Withdraw(name: string)
    | Receive(reply: Reply, env: Env)

  type Trace = seq<Event>

  ghost function Step(st: State, e: Event): (State, Option<Outcome>) {
    match e
    case Write(q) => (if Timely(q) then st.(files := st.files[NameOf(q) := FileOf(q)]) else st, None)
    case Withdraw(name) => (st.(files := st.files - {name}), None)
    case Receive(r, env) => (Handled(st, r, env).0, Some(Handled(st, r, env).1))
  }

  const NOTHING := State(map[], map[])

  /** Both processes' state after the events of the trace. */
  ghost function Run(trace: Trace): State {
    if trace == [] then NOTHING else Step(Run(trace[..|trace| - 1]), trace[|trace| - 1]).0
  }

  lemma RunNext(trace: Trace, i: nat)
    requires i < |trace|
    ensures Run(trace[..i + 1]) == Step(Run(trace[..i]), trace[i]).0
  {
    hide Step;
    assert trace[..i + 1][..i] == trace[..i];
  }

  /** Reply `i` of the trace was queued for `target` by the route `name`. */
  ghost predicate RoutedAt(trace: Trace, i: nat, target: uint32, name: string) {
    i < |trace| && Step(Run(trace[..i]), trace[i]).1 == Some(Queued(target, Some(name)))
  }

  ghost predicate QueuedAt(trace: Trace, i: nat, r: Reply) {
    i < |trace| && trace[i].Receive? && trace[i].reply == r && Step(Run(trace[..i]), trace[i]).1.value.Queued?
  }

  ghost predicate WrittenAt(trace: Trace, w: nat, name: string) {
    w < |trace| && trace[w].Write? && Timely(trace[w].request) && NameOf(trace[w].request) == name
  }

  /** Every name is written once, as its random part sees to. */
  ghost predicate FreshNames(trace: Trace) {
    forall v, w, name :: WrittenAt(trace, v, name) && WrittenAt(trace, w, name) ==> v == w
  }

  /** The wall clock of an event, if it reads one. */
  function WallClock(e: Event): Option<nat> {
    match e
    case Write(q) => Some(q.createdMs)
    case Withdraw(_) => None
    case Receive(_, env) => Some(env.nowMs)
  }

  /** The wall clock never goes back. */
  ghost predicate Forward(trace: Trace) {
    forall i, j :: 0 <= i < j < |trace| && WallClock(trace[i]).Some? && WallClock(trace[j]).Some? ==>
      WallClock(trace[i]).value <= WallClock(trace[j]).value
  }

  /** The steady clock never goes back. */
  ghost predicate Steady(trace: Trace) {
    forall i, j :: 0 <= i < j < |trace| && trace[i].Receive? && trace[j].Receive? ==> trace[i].env.steadyMs <= trace[j].env.steadyMs
  }

  // ------------------------------------------------------------------ routes over a run

  /** A file after a step was written by it or was there before, unchanged. */
  lemma FileOrigin(st: State, e: Event, name: string)
    requires name in Step(st, e).0.files
    ensures if e.Write? && Timely(e.request) && NameOf(e.request) == name then Step(st, e).0.files[name] == FileOf(e.request)
            else name in st.files && Step(st, e).0.files[name] == st.files[name]
  {
    hide FirstMatch, Swept, ReplyKey, NameOf;
  }

  /** Every route in the directory comes from a request. */
  lemma {:induction false} FilesWereWritten(trace: Trace, n: nat, name: string) returns (w: nat)
    requires n <= |trace| && name in Run(trace[..n]).files
    ensures w < n && WrittenAt(trace, w, name) && Run(trace[..n]).files[name] == FileOf(trace[w].request)
  {
    hide Step, Timely, NameOf, FileOf;
    RunNext(trace, n - 1);
    var e := trace[n - 1];
    FileOrigin(Run(trace[..n - 1]), e, name);
    if e.Write? && Timely(e.request) && NameOf(e.request) == name {
      w := n - 1;
    } else {
      w := FilesWereWritten(trace, n - 1, name);
    }
  }

  /** A route present at `j` and not written since `i` was present at `i`. */
  lemma {:induction false} PresentBefore(trace: Trace, i: nat, j: nat, name: string)
    requires i <= j <= |trace| && name in Run(trace[..j]).files
    requires forall w :: i <= w < j ==> !WrittenAt(trace, w, name)
    ensures name in Run(trace[..i]).files && Run(trace[..i]).files[name] == Run(trace[..j]).files[name]
    decreases j - i
  {
    hide Step, Timely, NameOf, FileOf;
    if i < j {
      RunNext(trace, j - 1);
      assert !WrittenAt(trace, j - 1, name);
      FileOrigin(Run(trace[..j - 1]), trace[j - 1], name);
      PresentBefore(trace, i, j - 1, name);
    }
  }

  lemma RoutedMeans(st: State, e: Event, target: uint32, name: string)
    requires Step(st, e).1 == Some(Queued(target, Some(name)))
    ensures e.Receive? && IsFirstMatch(st.files, e.reply.source, e.env.nowMs, name)
    ensures st.files[name].rids.value.requester == target
    ensures name !in e.env.stuck ==> name !in Step(st, e).0.files
  {
    hide FirstMatch, Swept, ReplyKey;
  }

  /**
   * Whatever happens, a reply sent by a route goes to the radio whose request wrote that route, to
   * this very service, and before the route's time was up.
   */
  lemma RoutedToRequester(trace: Trace, i: nat, target: uint32, name: string) returns (w: nat)
    requires RoutedAt(trace, i, target, name)
    ensures trace[i].Receive? && w < i && WrittenAt(trace, w, name)
    ensures var q := trace[w].request; var reply := trace[i];
            q.service == reply.reply.source && q.requester == target != 0 && reply.env.nowMs < q.createdMs + q.maxAgeMs
    ensures IsFirstMatch(Run(trace[..i]).files, trace[i].reply.source, trace[i].env.nowMs, name)
  {
    hide Step, NameOf;
    RoutedMeans(Run(trace[..i]), trace[i], target, name);
    w := FilesWereWritten(trace, i, name);
  }

  /** A route answers twice only if its file could not be removed when it was used before. */
  lemma RouteUsedOnce(trace: Trace, i: nat, j: nat, s: uint32, t: uint32, name: string)
    requires FreshNames(trace) && i < j
    requires RoutedAt(trace, i, s, name) && RoutedAt(trace, j, t, name)
    ensures trace[i].Receive? && name in trace[i].env.stuck
  {
    hide Step, IsFirstMatch;
    var w := RoutedToRequester(trace, i, s, name);
    RoutedMeans(Run(trace[..i]), trace[i], s, name);
    RoutedMeans(Run(trace[..j]), trace[j], t, name);
    IsFirstMatchPresent(Run(trace[..j]).files, trace[j].reply.source, trace[j].env.nowMs, name);
    RunNext(trace, i);
    PresentBefore(trace, i + 1, j, name);
  }

  /** And it does: the next reply of the service goes by a route that could not be removed, while it lives. */
  lemma StuckRouteIsUsedAgain(st: State, r: Reply, env: Env, target: uint32, name: string, next: Reply, env2: Env)
    requires Handled(st, r, env).1 == Queued(target, Some(name)) && name in env.stuck
    requires next.source == r.source && env.nowMs <= env2.nowMs && env2.published
    requires name in st.files && !Expired(st.files[name], env2.nowMs)
    requires ReplyKey(next) !in Remembered(Handled(st, r, env).0.recent, env2.steadyMs)
    ensures Handled(Handled(st, r, env).0, next, env2).1 == Queued(target, Some(name))
  {
    hide FirstMatch, Swept, ReplyKey, Less;
    var after := Handled(st, r, env).0.files;
    assert IsFirstMatch(st.files, r.source, env.nowMs, name);
    forall other | other in after && other != name && Matches(after[other], r.source, env2.nowMs)
      ensures Less(name, other)
    {
      MatchedBefore(after[other], r.source, env.nowMs, env2.nowMs);
    }
    FirstMatchUnique(after, r.source, env2.nowMs, name);
  }

  lemma IsFirstMatchPresent(files: Directory, service: uint32, nowMs: uint64, name: string)
    requires IsFirstMatch(files, service, nowMs, name)
    ensures name in files
  {
  }

  /** A route live at a later time was live before. */
  lemma MatchedBefore(f: RouteFile, service: uint32, early: uint64, late: uint64)
    requires Matches(f, service, late) && early <= late
    ensures Matches(f, service, early)
  {
  }

  /** Of two routes to a service, the one used first is not the younger: requests are answered in order. */
  lemma AnsweredInOrder(trace: Trace, i: nat, j: nat, s: uint32, t: uint32, first: string, second: string, v: nat, w: nat)
    requires FreshNames(trace) && Forward(trace) && i < j
    requires RoutedAt(trace, i, s, first) && RoutedAt(trace, j, t, second)
    requires trace[i].Receive? && trace[j].Receive? && trace[i].reply.source == trace[j].reply.source
    requires WrittenAt(trace, v, first) && WrittenAt(trace, w, second)
    ensures trace[v].request.createdMs <= trace[w].request.createdMs
  {
    hide Step, IsFirstMatch, Matches, Pow10, NameOf;
    var a := RoutedToRequester(trace, i, s, first);
    var b := RoutedToRequester(trace, j, t, second);
    assert a == v && b == w;
    if i <= w {
      assert WallClock(trace[v]).value <= WallClock(trace[w]).value;
    } else {
      OlderFirst(trace, i, j, first, second, v, w);
    }
  }

  lemma OlderFirst(trace: Trace, i: nat, j: nat, first: string, second: string, v: nat, w: nat)
    requires FreshNames(trace) && Forward(trace) && i < j < |trace|
    requires trace[i].Receive? && trace[j].Receive? && trace[i].reply.source == trace[j].reply.source
    requires IsFirstMatch(Run(trace[..i]).files, trace[i].reply.source, trace[i].env.nowMs, first)
    requires IsFirstMatch(Run(trace[..j]).files, trace[j].reply.source, trace[j].env.nowMs, second)
    requires WrittenAt(trace, v, first) && WrittenAt(trace, w, second) && w < i
    ensures first != second ==> trace[v].request.createdMs <= trace[w].request.createdMs
  {
    hide Run, Matches, Pow10;
    var files := Run(trace[..j]).files;
    PresentBefore(trace, i, j, second);
    assert WallClock(trace[i]).value <= WallClock(trace[j]).value;
    MatchedBefore(files[second], trace[i].reply.source, trace[i].env.nowMs, trace[j].env.nowMs);
    if first != second && trace[w].request.createdMs < trace[v].request.createdMs {
      var p, q := trace[w].request, trace[v].request;
      NamesSortByCreation(p.createdMs, p.service, p.requester, p.unique, q.createdMs, q.service, q.requester, q.unique);
      LessTotal(first, second);
      assert false;
    }
  }

  /** A route stays until it is withdrawn, used or out of time. */
  lemma {:induction false} RouteStays(trace: Trace, w: nat, i: nat, name: string)
    requires w < i <= |trace| && WrittenAt(trace, w, name) && FreshNames(trace)
    requires forall k :: w < k < i ==> trace[k] != Withdraw(name)
    requires forall k, t :: w < k < i ==> !RoutedAt(trace, k, t, name)
    requires forall k :: w < k < i && trace[k].Receive? ==> trace[k].env.nowMs < trace[w].request.createdMs + trace[w].request.maxAgeMs
    ensures name in Run(trace[..i]).files && Run(trace[..i]).files[name] == FileOf(trace[w].request)
    decreases i
  {
    hide Step, NameOf;
    RunNext(trace, i - 1);
    var e := trace[i - 1];
    if w == i - 1 {
      WriteLeaves(Run(trace[..w]), e);
    } else {
      RouteStays(trace, w, i - 1, name);
      assert !WrittenAt(trace, i - 1, name);
      StaysThroughStep(trace, i - 1, name, trace[w].request);
    }
  }

  lemma WriteLeaves(st: State, e: Event)
    requires e.Write? && Timely(e.request)
    ensures NameOf(e.request) in Step(st, e).0.files && Step(st, e).0.files[NameOf(e.request)] == FileOf(e.request)
  {
    hide NameOf, Timely;
  }

  lemma StaysThroughStep(trace: Trace, k: nat, name: string, q: Request)
    requires k < |trace| && Timely(q) && name in Run(trace[..k]).files && Run(trace[..k]).files[name] == FileOf(q)
    requires trace[k] != Withdraw(name) && !WrittenAt(trace, k, name) && forall t :: !RoutedAt(trace, k, t, name)
    requires trace[k].Receive? ==> trace[k].env.nowMs < q.createdMs + q.maxAgeMs
    ensures var after := Step(Run(trace[..k]), trace[k]).0.files; name in after && after[name] == FileOf(q)
  {
    hide FirstMatch, Swept, ReplyKey, NameOf, Run, Pow10;
    var st, e := Run(trace[..k]), trace[k];
    if e.Receive? {
      assert !Expired(FileOf(q), e.env.nowMs);
      if Step(st, e).1.value.Queued? && Step(st, e).1.value.route.Some? {
        assert RoutedAt(trace, k, Step(st, e).1.value.target, Step(st, e).1.value.route.value);
      }
    }
  }

  /**
   * A queued reply follows the first live route of its source, if there is one, and of all live
   * routes uses up that one alone, if its file can be removed; without one it goes where the network
   * addressed it.
   */
  lemma QueuedFollowsFirstRoute(st: State, r: Reply, env: Env)
    requires Handled(st, r, env).1.Queued?
    ensures var (after, outcome) := Handled(st, r, env);
            match outcome.route
            case None =>
              && outcome.target == r.target
              && (r.source == 0 || forall n :: n !in st.files || !Matches(st.files[n], r.source, env.nowMs))
              && forall n :: n in st.files && !Expired(st.files[n], env.nowMs) ==> n in after.files
            case Some(name) =>
              && IsFirstMatch(st.files, r.source, env.nowMs, name) && outcome.target == st.files[name].rids.value.requester
              && forall n :: n in st.files && !Expired(st.files[n], env.nowMs) ==> (n in after.files <==> n != name || n in env.stuck)
  {
    hide Swept, ReplyKey, Expired, Matches;
  }

  /** A duplicate and a reply that could not be published use up no route: every live one stays. */
  lemma OthersConsumeNothing(st: State, r: Reply, env: Env, name: string)
    requires !Handled(st, r, env).1.Queued?
    requires name in st.files && !Expired(st.files[name], env.nowMs)
    ensures name in Handled(st, r, env).0.files
  {
    hide FirstMatch, Swept, ReplyKey, Expired;
  }

  // ------------------------------------------------------------------ duplicates over a run

  lemma QueuedRemembers(st: State, e: Event, r: Reply)
    requires e.Receive? && e.reply == r && Step(st, e).1.value.Queued?
    ensures var recent := Step(st, e).0.recent;
            ReplyKey(r) in recent && recent[ReplyKey(r)] == e.env.steadyMs + DUPLICATE_WINDOW_MS
    ensures ReplyKey(r) !in Remembered(st.recent, e.env.steadyMs)
  {
    hide FirstMatch, Swept, ReplyKey;
  }

  /** What a step remembers it queued itself or remembered before. */
  lemma RecentOrigin(st: State, e: Event, key: string)
    requires key in Step(st, e).0.recent
    ensures e.Receive? ==> Step(st, e).1.Some?
    ensures if e.Receive? && Step(st, e).1.value.Queued? && ReplyKey(e.reply) == key then
              Step(st, e).0.recent[key] == e.env.steadyMs + DUPLICATE_WINDOW_MS
            else key in st.recent && Step(st, e).0.recent[key] == st.recent[key]
  {
    hide FirstMatch, Swept, ReplyKey;
  }

  /** An entry survives any step before its time; a reply queued under it renews it. */
  lemma RecentStays(st: State, e: Event, key: string)
    requires key in st.recent && (e.Receive? ==> e.env.steadyMs < st.recent[key])
    ensures key in Step(st, e).0.recent && Step(st, e).0.recent[key] == st.recent[key]
  {
    hide FirstMatch, Swept, ReplyKey;
  }

  lemma {:induction false} RememberedUntil(trace: Trace, i: nat, n: nat, r: Reply, now: nat)
    requires QueuedAt(trace, i, r) && i < n <= |trace| && now < trace[i].env.steadyMs + DUPLICATE_WINDOW_MS
    requires forall k :: 0 <= k < n && trace[k].Receive? ==> trace[k].env.steadyMs <= now
    ensures var recent := Run(trace[..n]).recent;
            ReplyKey(r) in recent && recent[ReplyKey(r)] == trace[i].env.steadyMs + DUPLICATE_WINDOW_MS
    decreases n
  {
    hide Step, ReplyKey;
    RunNext(trace, n - 1);
    if i == n - 1 {
      QueuedRemembers(Run(trace[..i]), trace[i], r);
    } else {
      RememberedUntil(trace, i, n - 1, r, now);
      RecentStays(Run(trace[..n - 1]), trace[n - 1], ReplyKey(r));
    }
  }

  lemma {:induction false} RecentWasQueued(trace: Trace, n: nat, r: Reply) returns (i: nat)
    requires n <= |trace| && ReplyKey(r) in Run(trace[..n]).recent
    ensures i < n && QueuedAt(trace, i, r) && Run(trace[..n]).recent[ReplyKey(r)] == trace[i].env.steadyMs + DUPLICATE_WINDOW_MS
  {
    hide Step, ReplyKey;
    RunNext(trace, n - 1);
    var e := trace[n - 1];
    RecentOrigin(Run(trace[..n - 1]), e, ReplyKey(r));
    if e.Receive? && Step(Run(trace[..n - 1]), e).1.value.Queued? && ReplyKey(e.reply) == ReplyKey(r) {
      ReplyKeyInjective(e.reply, r);
      i := n - 1;
    } else {
      i := RecentWasQueued(trace, n - 1, r);
    }
  }

  lemma DuplicateMeans(st: State, e: Event)
    requires e.Receive?
    ensures Step(st, e).1 == Some(Duplicate) <==>
            ReplyKey(e.reply) in st.recent && e.env.steadyMs < st.recent[ReplyKey(e.reply)]
  {
    hide FirstMatch, Swept, ReplyKey;
  }

  /**
   * A reply is dropped as a duplicate if and only if the same text from the same source to the same
   * target was queued within the last minute.
   */
  lemma DuplicateIffRecent(trace: Trace, j: nat)
    requires Steady(trace) && j < |trace| && trace[j].Receive?
    ensures Step(Run(trace[..j]), trace[j]).1 == Some(Duplicate) <==>
            exists i :: 0 <= i < j && QueuedAt(trace, i, trace[j].reply)
              && trace[j].env.steadyMs < trace[i].env.steadyMs + 60_000
  {
    hide Step, ReplyKey;
    var r, now := trace[j].reply, trace[j].env.steadyMs;
    DuplicateMeans(Run(trace[..j]), trace[j]);
    if Step(Run(trace[..j]), trace[j]).1 == Some(Duplicate) {
      var i := RecentWasQueued(trace, j, r);
    }
    forall i | 0 <= i < j && QueuedAt(trace, i, r) && now < trace[i].env.steadyMs + DUPLICATE_WINDOW_MS
      ensures Step(Run(trace[..j]), trace[j]).1 == Some(Duplicate)
    {
      RememberedUntil(trace, i, j, r, now);
    }
  }

  /** Two equal replies are never queued within a minute of each other. */
  lemma EqualRepliesApart(trace: Trace, i: nat, j: nat, r: Reply)
    requires Steady(trace) && i < j && QueuedAt(trace, i, r) && QueuedAt(trace, j, r)
    ensures trace[j].env.steadyMs - trace[i].env.steadyMs >= 60_000
  {
    hide Step;
    DuplicateIffRecent(trace, j);
  }

  // ------------------------------------------------------------------ what becomes of every reply

  /** An equal reply was queued within the last minute. */
  ghost predicate QueuedRecently(trace: Trace, j: nat) {
    j < |trace| && trace[j].Receive? &&
    exists i :: 0 <= i < j && QueuedAt(trace, i, trace[j].reply) && trace[j].env.steadyMs < trace[i].env.steadyMs + 60_000
  }

  /** Where a reply is to go: by the first live route to its requester, or else where it is addressed. */
  ghost predicate Addressed(files: Directory, r: Reply, nowMs: uint64, outcome: Outcome) {
    outcome.Queued? &&
    match outcome.route
    case Some(name) =>
      && r.source != 0 && IsFirstMatch(files, r.source, nowMs, name)
      && files[name].rids == Some(Rids(r.source, outcome.target)) && outcome.target != 0
    case None =>
      outcome.target == r.target && (r.source == 0 || forall name :: name in files ==> !Matches(files[name], r.source, nowMs))
  }

  lemma HandledOutcome(st: State, r: Reply, env: Env)
    ensures var outcome := Handled(st, r, env).1;
            && (outcome.Duplicate? <==> ReplyKey(r) in st.recent && env.steadyMs < st.recent[ReplyKey(r)])
            && (!outcome.Duplicate? ==> if env.published then Addressed(st.files, r, env.nowMs, outcome) else outcome.Failed?)
  {
    hide Swept, ReplyKey, Less;
  }

  /**
   * What becomes of every reply, in every run: it is queued if and only if it can be published and no equal
   * one was queued within the last minute, then by the first live route to its requester, or without one
   * to the radio it is addressed to; it fails if and only if it is no such duplicate and cannot be
   * published.
   */
  lemma ReplyOutcome(trace: Trace, j: nat)
    requires Steady(trace) && j < |trace| && trace[j].Receive?
    ensures var outcome := Step(Run(trace[..j]), trace[j]).1;
            && outcome.Some?
            && (outcome.value.Queued? <==> trace[j].env.published && !QueuedRecently(trace, j))
            && (outcome.value.Failed? <==> !trace[j].env.published && !QueuedRecently(trace, j))
            && (outcome.value.Queued? ==> Addressed(Run(trace[..j]).files, trace[j].reply, trace[j].env.nowMs, outcome.value))
  {
    hide Run, Handled, ReplyKey, QueuedAt, Addressed;
    DuplicateIffRecent(trace, j);
    HandledOutcome(Run(trace[..j]), trace[j].reply, trace[j].env);
    AddressedQueued(Run(trace[..j]), trace[j].reply, trace[j].env);
  }

  lemma AddressedQueued(st: State, r: Reply, env: Env)
    ensures Addressed(st.files, r, env.nowMs, Handled(st, r, env).1) ==> Handled(st, r, env).1.Queued?
  {
    hide Handled;
  }

  /**
   * A waiting route is followed: while a request's route is not withdrawn, used or out of time, any reply of
   * its service that is queued goes by that route or by an earlier one in name order.
   */
  lemma WaitingRouteIsFollowed(trace: Trace, w: nat, j: nat, name: string)
    requires w < j < |trace| && WrittenAt(trace, w, name) && FreshNames(trace)
    requires forall k :: w < k < j ==> trace[k] != Withdraw(name)
    requires forall k, t :: w < k < j ==> !RoutedAt(trace, k, t, name)
    requires forall k :: w < k <= j && trace[k].Receive? ==> trace[k].env.nowMs < trace[w].request.createdMs + trace[w].request.maxAgeMs
    requires trace[j].Receive? && trace[j].reply.source == trace[w].request.service != 0 && trace[w].request.requester != 0
    ensures var outcome := Step(Run(trace[..j]), trace[j]).1;
            outcome.Some? && outcome.value.Queued? ==>
              outcome.value.route.Some? && (outcome.value.route == Some(name) || Less(outcome.value.route.value, name))
  {
    hide Run, Less, Swept, ReplyKey, NameOf, Handled, Pow10;
    RouteStays(trace, w, j, name);
    var st, r, env := Run(trace[..j]), trace[j].reply, trace[j].env;
    HandledOutcome(st, r, env);
    assert Matches(st.files[name], r.source, env.nowMs);
  }

  /** Which files a scan removes, exactly: those out of time that can be removed and have no live route of the service before them. */
  lemma ScanRemoves(files: Directory, service: uint32, nowMs: uint64, stuck: set<string>, name: string)
    requires name in files
    ensures name !in Scanned(files, service, nowMs, stuck) <==>
            && service != 0 && Expired(files[name], nowMs) && name !in stuck
            && forall live :: live in files && Matches(files[live], service, nowMs) ==> Less(name, live)
  {
    hide Less, Expired, Matches;
    var first := FirstMatch(files, service, nowMs);
    ExpiredDoesNotMatch(files[name], service, nowMs);
    if first.Some? && Less(name, first.value) {
      forall live | live in files && Matches(files[live], service, nowMs) ensures Less(name, live) {
        if live != first.value { LessTransitive(name, first.value, live); }
      }
    }
  }
}
