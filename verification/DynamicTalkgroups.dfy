/**
 * The dynamic talkgroup routes of src/main.cpp in direct mode: RF traffic opens a route, which then
 * lets BrandMeister traffic of that talkgroup through until it has timed out and fallen silent.
 */
module DynamicTalkgroups {
  import opened Common

  type Talkgroup = uint32

  /** Nanoseconds since the epoch of the steady clock. */
  type Time = nat

  const RELEASE_GRACE: Time := 3_000_000_000
  const DISCONNECT_COOLDOWN: Time := 2_000_000_000

  /** DynamicTalkgroupState; a route BrandMeister has not used yet has the clock's epoch as last use. */
  datatype Route = Route(lastSeen: Time, lastBm: Time, expiredPending: bool, releaseRequested: bool)

  const UNUSED: Time := 0

  datatype Config = Config(timeout: nat, statics: set<Talkgroup>, p25ToBm: map<Talkgroup, Talkgroup>,
                           bmToP25: map<Talkgroup, Talkgroup>, disconnect: Talkgroup)

  datatype Mapping = Mapping(p25: Talkgroup, brandmeister: Talkgroup)

  /** The two mapping tables, as the configuration list fills them: a later entry overwrites. */
  function LoadedTables(list: seq<Mapping>): (map<Talkgroup, Talkgroup>, map<Talkgroup, Talkgroup>) {
    if list == [] then (map[], map[])
    else
      var (there, back) := LoadedTables(list[..|list| - 1]);
      var m := list[|list| - 1];
      (there[m.p25 := m.brandmeister], back[m.brandmeister := m.p25])
  }

  /** Whatever a table maps to, the other table maps back, if not always to the same number. */
  ghost predicate Paired(cfg: Config) {
    && (forall z :: z in cfg.p25ToBm ==> cfg.p25ToBm[z] in cfg.bmToP25)
    && (forall x :: x in cfg.bmToP25 ==> cfg.bmToP25[x] in cfg.p25ToBm)
  }

  /** The tables of any list are paired, repeated and contradictory entries included. */
  lemma {:induction false} LoadedTablesArePaired(list: seq<Mapping>, cfg: Config)
    requires (cfg.p25ToBm, cfg.bmToP25) == LoadedTables(list)
    ensures Paired(cfg)
  {
    if list != [] {
      var (there, back) := LoadedTables(list[..|list| - 1]);
      LoadedTablesArePaired(list[..|list| - 1], cfg.(p25ToBm := there, bmToP25 := back));
    }
  }

  datatype State = State(routes: map<Talkgroup, Route>, lastDisconnect: Option<Time>)

  const EMPTY := State(map[], None)

  // ------------------------------------------------------------------ the steps

  /** A route after a tick: past its time it is first marked, then kept while BrandMeister uses it, then removed. */
  function Aged(cfg: Config, r: Route, now: Time): Option<Route> {
    if now - r.lastSeen <= cfg.timeout then Some(r)
    else if !r.expiredPending then Some(r.(expiredPending := true, releaseRequested := true))
    else if now - r.lastBm <= RELEASE_GRACE then Some(r)
    else None
  }

  function Ticked(cfg: Config, st: State, now: Time): State {
    st.(routes := map tg | tg in st.routes && Aged(cfg, st.routes[tg], now).Some? :: Aged(cfg, st.routes[tg], now).value)
  }

  /** The talkgroups a tick asks BrandMeister to release. */
  function Released(cfg: Config, st: State, now: Time): set<Talkgroup> {
    set tg | tg in st.routes && NeedsRelease(cfg, st.routes[tg], now)
  }

  predicate NeedsRelease(cfg: Config, r: Route, now: Time) {
    now - r.lastSeen > cfg.timeout && !r.expiredPending && !r.releaseRequested
  }

  /** The BrandMeister talkgroup an uplink frame goes to. */
  function RouteOf(cfg: Config, dst: Talkgroup): Talkgroup { if dst in cfg.p25ToBm then cfg.p25ToBm[dst] else dst }

  /** A disconnect frame counts if it is a header and none has counted within the cooldown. */
  predicate Disconnects(cfg: Config, st: State, dst: Talkgroup, isHeader: bool, now: Time) {
    dst == cfg.disconnect && isHeader && (st.lastDisconnect.Some? ==> now - st.lastDisconnect.value >= DISCONNECT_COOLDOWN)
  }

  /** A group uplink frame refreshes the route of this talkgroup. */
  predicate Refreshes(cfg: Config, dst: Talkgroup, tg: Talkgroup) {
    dst != cfg.disconnect && RouteOf(cfg, dst) == tg && tg !in cfg.statics
  }

  function Refreshed(st: State, tg: Talkgroup, now: Time): State {
    var lastBm := if tg in st.routes then st.routes[tg].lastBm else UNUSED;
    st.(routes := st.routes[tg := Route(now, lastBm, false, false)])
  }

  /** A group frame from RF. */
  function Uplinked(cfg: Config, st: State, dst: Talkgroup, isHeader: bool, now: Time): State {
    if dst == cfg.disconnect then
      if Disconnects(cfg, st, dst, isHeader, now) then State(map[], Some(now)) else st
    else if RouteOf(cfg, dst) in cfg.statics then st
    else Refreshed(st, RouteOf(cfg, dst), now)
  }

  /** The local talkgroup of a downlink frame. */
  function LocalOf(cfg: Config, dst: Talkgroup): Talkgroup { if dst in cfg.bmToP25 then cfg.bmToP25[dst] else dst }

  predicate Live(cfg: Config, r: Route, now: Time) { !r.expiredPending && now - r.lastSeen <= cfg.timeout }

  /** The route test for a talkgroup that is neither mapped nor static. */
  predicate RoutePermits(cfg: Config, r: Route, now: Time) {
    Live(cfg, r, now) || (r.expiredPending && now - r.lastBm <= RELEASE_GRACE)
  }

  /** Whether a group frame from BrandMeister is passed on. */
  predicate Permitted(cfg: Config, st: State, dst: Talkgroup, now: Time) {
    var local := LocalOf(cfg, dst);
    dst in cfg.bmToP25 || local in cfg.statics || (local in st.routes && RoutePermits(cfg, st.routes[local], now))
  }

  function Downlinked(cfg: Config, st: State, dst: Talkgroup, now: Time): State {
    var local := LocalOf(cfg, dst);
    if Permitted(cfg, st, dst, now) && local in st.routes then
      st.(routes := st.routes[local := st.routes[local].(lastBm := now)])
    else st
  }

  datatype Event =
    | Tick(now: Time)
    | Uplink(now: Time, dst: Talkgroup, isHeader: bool)
    | Downlink(now: Time, dst: Talkgroup)

  function Step(cfg: Config, st: State, e: Event): State {
    match e
    case Tick(now) => Ticked(cfg, st, now)
    case Uplink(now, dst, isHeader) => Uplinked(cfg, st, dst, isHeader, now)
    case Downlink(now, dst) => Downlinked(cfg, st, dst, now)
  }

  // ------------------------------------------------------------------ the loop's state

  class Bridge {
    const config: Config
    var dynamicTalkgroups: map<Talkgroup, Route>
    var lastDisconnectCommand: Option<Time>

    function View(): State
      reads this
    {
      State(dynamicTalkgroups, lastDisconnectCommand)
    }

    constructor (config: Config)
      ensures this.config == config && View() == EMPTY
    {
      this.config, dynamicTalkgroups, lastDisconnectCommand := config, map[], None;
    }

    /** The body of the expiry loop for one entry. */
    method ExpireRoute(tg: Talkgroup, now: Time) returns (release: bool)
      requires tg in dynamicTalkgroups
      modifies this`dynamicTalkgroups
      ensures dynamicTalkgroups == Put(old(dynamicTalkgroups), tg, Aged(config, old(dynamicTalkgroups)[tg], now))
      ensures release == NeedsRelease(config, old(dynamicTalkgroups)[tg], now)
    {
      var state := dynamicTalkgroups[tg];
      release := false;
      if now - state.lastSeen > config.timeout {
        if !state.expiredPending {
          release := !state.releaseRequested;
          dynamicTalkgroups := dynamicTalkgroups[tg := state.(expiredPending := true, releaseRequested := true)];
        } else if now - state.lastBm > RELEASE_GRACE {
          dynamicTalkgroups := dynamicTalkgroups - {tg};
        }
      }
    }

    /** The expiry loop: every entry is visited once; the order does not show in the result. */
    method ExpireRoutes(now: Time) returns (released: set<Talkgroup>)
      modifies this`dynamicTalkgroups
      ensures View() == Ticked(config, old(View()), now) && released == Released(config, old(View()), now)
    {
      hide Aged, NeedsRelease;
      ghost var before := dynamicTalkgroups;
      var todo := dynamicTalkgroups.Keys;
      released := {};
      while todo != {}
        invariant todo <= dynamicTalkgroups.Keys <= before.Keys
        invariant forall tg :: tg in todo ==> dynamicTalkgroups[tg] == before[tg]
        invariant forall tg :: tg in before && tg !in todo ==> Get(dynamicTalkgroups, tg) == Aged(config, before[tg], now)
        invariant released <= before.Keys && forall tg :: tg in before ==> (tg in released <==> tg !in todo && NeedsRelease(config, before[tg], now))
        decreases |todo|
      {
        ghost var _ := SomeMember(todo);
        var tg :| tg in todo;
        todo := todo - {tg};
        var release := ExpireRoute(tg, now);
        if release { released := released + {tg}; }
      }
    }

    /** A group frame from RF; tells whether it is forwarded to BrandMeister. */
    method HandleUplink(dst: Talkgroup, isHeader: bool, now: Time) returns (forwarded: bool)
      modifies this
      ensures View() == Uplinked(config, old(View()), dst, isHeader, now) && forwarded == (dst != config.disconnect)
    {
      var bmRouteDst := dst;
      if dst in config.p25ToBm { bmRouteDst := config.p25ToBm[dst]; }
      if dst == config.disconnect {
        if !isHeader { return false; }
        if lastDisconnectCommand.Some? && now - lastDisconnectCommand.value < DISCONNECT_COOLDOWN { return false; }
        lastDisconnectCommand := Some(now);
        dynamicTalkgroups := map[];
        return false;
      }
      if bmRouteDst !in config.statics {
        var lastBm := if bmRouteDst in dynamicTalkgroups then dynamicTalkgroups[bmRouteDst].lastBm else UNUSED;
        dynamicTalkgroups := dynamicTalkgroups[bmRouteDst := Route(now, lastBm, false, false)];
      }
      return true;
    }

    /** A group frame from BrandMeister; tells whether it is passed on. */
    method HandleDownlink(dst: Talkgroup, now: Time) returns (permitted: bool)
      modifies this`dynamicTalkgroups
      ensures View() == Downlinked(config, old(View()), dst, now) && permitted == Permitted(config, old(View()), dst, now)
    {
      var local := dst;
      var mapped := false;
      if dst in config.bmToP25 {
        local := config.bmToP25[dst];
        mapped := true;
      }
      permitted := mapped || local in config.statics;
      if !permitted && local in dynamicTalkgroups {
        var entry := dynamicTalkgroups[local];
        permitted := (!entry.expiredPending && now - entry.lastSeen <= config.timeout) ||
                     (entry.expiredPending && now - entry.lastBm <= RELEASE_GRACE);
      }
      if !permitted { return; }
      if local in dynamicTalkgroups {
        dynamicTalkgroups := dynamicTalkgroups[local := dynamicTalkgroups[local].(lastBm := now)];
      }
    }
  }

  // ------------------------------------------------------------------ runs

  type Trace = seq<Event>

  function Run(cfg: Config, trace: Trace): State {
    if trace == [] then EMPTY else Step(cfg, Run(cfg, trace[..|trace| - 1]), trace[|trace| - 1])
  }

  lemma RunNext(cfg: Config, trace: Trace, i: nat)
    requires i < |trace|
    ensures Run(cfg, trace[..i + 1]) == Step(cfg, Run(cfg, trace[..i]), trace[i])
  {
    hide Step;
    assert trace[..i + 1][..i] == trace[..i];
  }

  /** The clock never goes back, and has left its epoch more than three seconds behind. */
  ghost predicate Clocked(trace: Trace) {
    && (forall i, j :: 0 <= i <= j < |trace| ==> trace[i].now <= trace[j].now)
    && (forall i :: 0 <= i < |trace| ==> trace[i].now > RELEASE_GRACE)
  }

  ghost predicate RefreshAt(cfg: Config, trace: Trace, i: nat, tg: Talkgroup) {
    i < |trace| && trace[i].Uplink? && Refreshes(cfg, trace[i].dst, tg)
  }

  ghost predicate DisconnectAt(cfg: Config, trace: Trace, i: nat) {
    i < |trace| && trace[i].Uplink? && Disconnects(cfg, Run(cfg, trace[..i]), trace[i].dst, trace[i].isHeader, trace[i].now)
  }

  /** What a step leaves of a route it does not refresh: its last RF frame, and mostly the rest. */
  lemma StepKeeps(cfg: Config, st: State, e: Event, tg: Talkgroup)
    requires tg in Step(cfg, st, e).routes && !(e.Uplink? && Refreshes(cfg, e.dst, tg))
    ensures tg in st.routes && Step(cfg, st, e).routes[tg].lastSeen == st.routes[tg].lastSeen
    ensures !(e.Uplink? && Disconnects(cfg, st, e.dst, e.isHeader, e.now))
    ensures Step(cfg, st, e).routes[tg].lastBm == st.routes[tg].lastBm
            || (e.Downlink? && LocalOf(cfg, e.dst) == tg && Permitted(cfg, st, e.dst, e.now) && Step(cfg, st, e).routes[tg].lastBm == e.now)
  {
  }

  lemma RefreshSets(cfg: Config, st: State, e: Event, tg: Talkgroup)
    requires e.Uplink? && Refreshes(cfg, e.dst, tg)
    ensures tg in Step(cfg, st, e).routes && Step(cfg, st, e).routes[tg].lastSeen == e.now && !Step(cfg, st, e).routes[tg].expiredPending
    ensures Step(cfg, st, e).routes[tg].lastBm == if tg in st.routes then st.routes[tg].lastBm else UNUSED
    ensures !Disconnects(cfg, st, e.dst, e.isHeader, e.now)
  {
  }

  /**
   * A route stems from an uplink frame, and bears the time of the latest one: neither downlink traffic
   * nor a tick moves it. No disconnect has come since.
   */
  lemma {:induction false} LastSeenIsLastUplink(cfg: Config, trace: Trace, n: nat, tg: Talkgroup) returns (i: nat)
    requires n <= |trace| && tg in Run(cfg, trace[..n]).routes
    ensures i < n && RefreshAt(cfg, trace, i, tg) && Run(cfg, trace[..n]).routes[tg].lastSeen == trace[i].now
    ensures forall j :: i < j < n ==> !RefreshAt(cfg, trace, j, tg) && !DisconnectAt(cfg, trace, j)
  {
    hide Step, Refreshes, Disconnects;
    RunNext(cfg, trace, n - 1);
    var st, e := Run(cfg, trace[..n - 1]), trace[n - 1];
    if RefreshAt(cfg, trace, n - 1, tg) {
      RefreshSets(cfg, st, e, tg);
      i := n - 1;
    } else {
      StepKeeps(cfg, st, e, tg);
      i := LastSeenIsLastUplink(cfg, trace, n - 1, tg);
    }
  }

  // ------------------------------------------------------------------ the chain of permitted frames

  /** Event `i` is a frame of this BrandMeister talkgroup that is passed on. */
  ghost predicate PassedAt(cfg: Config, trace: Trace, i: nat, tg: Talkgroup) {
    i < |trace| && trace[i].Downlink? && trace[i].dst == tg && Permitted(cfg, Run(cfg, trace[..i]), tg, trace[i].now)
  }

  ghost predicate LiveAt(cfg: Config, trace: Trace, i: nat, tg: Talkgroup) {
    i < |trace| && tg in Run(cfg, trace[..i]).routes && Live(cfg, Run(cfg, trace[..i]).routes[tg], trace[i].now)
  }

  /** Passed on while the route was live, or no more than three seconds behind a frame that was itself so passed on. */
  ghost predicate Chained(cfg: Config, trace: Trace, i: nat, tg: Talkgroup)
    decreases i
  {
    PassedAt(cfg, trace, i, tg) &&
    (LiveAt(cfg, trace, i, tg) || exists j :: 0 <= j < i && Chained(cfg, trace, j, tg) && trace[i].now - trace[j].now <= RELEASE_GRACE)
  }

  /** Only unmapped frames of its own talkgroup touch the route of an unmapped talkgroup. */
  lemma OwnFramesOnly(cfg: Config, dst: Talkgroup, from: Talkgroup, tg: Talkgroup)
    requires Paired(cfg) && tg !in cfg.bmToP25 && Refreshes(cfg, from, tg) && LocalOf(cfg, dst) == tg
    ensures dst == tg
  {
  }

  /** The last use by BrandMeister on record is that of a frame passed on. */
  lemma {:induction false} LastUseWasPassed(cfg: Config, trace: Trace, n: nat, tg: Talkgroup) returns (j: nat)
    requires Paired(cfg) && tg !in cfg.bmToP25 && n <= |trace| && tg in Run(cfg, trace[..n]).routes
    requires Run(cfg, trace[..n]).routes[tg].lastBm != UNUSED
    ensures j < n && PassedAt(cfg, trace, j, tg) && trace[j].now == Run(cfg, trace[..n]).routes[tg].lastBm
    ensures forall k :: j < k < n ==> !DisconnectAt(cfg, trace, k)
  {
    hide Step, Refreshes, Permitted;
    RunNext(cfg, trace, n - 1);
    var st, e := Run(cfg, trace[..n - 1]), trace[n - 1];
    var refreshed := RefreshAt(cfg, trace, n - 1, tg);
    if refreshed { RefreshSets(cfg, st, e, tg); } else { StepKeeps(cfg, st, e, tg); }
    if !refreshed && Run(cfg, trace[..n]).routes[tg].lastBm != st.routes[tg].lastBm {
      var i := LastSeenIsLastUplink(cfg, trace, n - 1, tg);
      OwnFramesOnly(cfg, e.dst, trace[i].dst, tg);
      j := n - 1;
    } else {
      j := LastUseWasPassed(cfg, trace, n - 1, tg);
    }
  }

  /**
   * A frame of a talkgroup that is neither mapped nor static is passed on only as part of an unbroken
   * chain: from a frame passed on while its route was live, without a gap of more than three seconds.
   */
  lemma {:induction false} PassedOnlyInChain(cfg: Config, trace: Trace, i: nat, tg: Talkgroup)
    requires Paired(cfg) && Clocked(trace) && tg !in cfg.bmToP25 && tg !in cfg.statics
    requires PassedAt(cfg, trace, i, tg)
    ensures Chained(cfg, trace, i, tg)
    decreases i
  {
    hide Step, Run;
    var r := Run(cfg, trace[..i]).routes[tg];
    if !Live(cfg, r, trace[i].now) {
      var j := LastUseWasPassed(cfg, trace, i, tg);
      PassedOnlyInChain(cfg, trace, j, tg);
    }
  }

  /** Two events in order, no more than three seconds apart. */
  ghost predicate Linked(trace: Trace, j: nat, i: nat) {
    j < i < |trace| && trace[i].now - trace[j].now <= RELEASE_GRACE
  }

  /** And there is a way back: a chained frame leads, link by link, to one passed on while the route was live. */
  lemma {:induction false} ChainReachesLive(cfg: Config, trace: Trace, i: nat, tg: Talkgroup) returns (links: seq<nat>)
    requires Chained(cfg, trace, i, tg)
    ensures links != [] && links[|links| - 1] == i && LiveAt(cfg, trace, links[0], tg)
    ensures forall k :: 0 <= k < |links| ==> links[k] < |trace| && PassedAt(cfg, trace, links[k], tg)
    ensures forall k :: 0 <= k < |links| - 1 ==> Linked(trace, links[k], links[k + 1])
    decreases i
  {
    hide Run, Permitted, Live;
    if LiveAt(cfg, trace, i, tg) {
      links := [i];
    } else {
      var j :| 0 <= j < i && Chained(cfg, trace, j, tg) && trace[i].now - trace[j].now <= RELEASE_GRACE;
      var before := ChainReachesLive(cfg, trace, j, tg);
      links := before + [i];
    }
  }

  // ------------------------------------------------------------------ exactly what is passed on

  /** A frame of a mapped talkgroup, or of one that is static, is always passed on. */
  lemma MappedOrStaticPasses(cfg: Config, trace: Trace, i: nat)
    requires i < |trace| && trace[i].Downlink? && (trace[i].dst in cfg.bmToP25 || trace[i].dst in cfg.statics)
    ensures PassedAt(cfg, trace, i, trace[i].dst)
  {
  }

  ghost predicate HeaderAt(cfg: Config, trace: Trace, i: nat) {
    i < |trace| && trace[i].Uplink? && trace[i].dst == cfg.disconnect && trace[i].isHeader
  }

  /** A disconnect counts exactly if its header comes two seconds or more behind every one that counted before. */
  lemma DisconnectIff(cfg: Config, trace: Trace, i: nat)
    requires Clocked(trace)
    ensures DisconnectAt(cfg, trace, i) <==>
            HeaderAt(cfg, trace, i) && forall j :: 0 <= j < i && DisconnectAt(cfg, trace, j) ==> trace[i].now - trace[j].now >= 2_000_000_000
  {
    if i < |trace| {
      hide Run;
      LastDisconnectNotBefore(cfg, trace, i);
      if Run(cfg, trace[..i]).lastDisconnect.Some? { var j := LastDisconnectCounted(cfg, trace, i); }
    }
  }

  /** The disconnect on record is one that counted, and none has counted later. */
  lemma {:induction false} LastDisconnectCounted(cfg: Config, trace: Trace, n: nat) returns (j: nat)
    requires n <= |trace| && Run(cfg, trace[..n]).lastDisconnect.Some?
    ensures j < n && DisconnectAt(cfg, trace, j) && Run(cfg, trace[..n]).lastDisconnect == Some(trace[j].now)
  {
    hide Step, Disconnects;
    RunNext(cfg, trace, n - 1);
    DisconnectSets(cfg, Run(cfg, trace[..n - 1]), trace[n - 1]);
    if DisconnectAt(cfg, trace, n - 1) { j := n - 1; } else { j := LastDisconnectCounted(cfg, trace, n - 1); }
  }

  lemma {:induction false} LastDisconnectNotBefore(cfg: Config, trace: Trace, n: nat)
    requires Clocked(trace) && n <= |trace|
    ensures forall j :: 0 <= j < n && DisconnectAt(cfg, trace, j) ==>
              var last := Run(cfg, trace[..n]).lastDisconnect; last.Some? && trace[j].now <= last.value
  {
    if n > 0 {
      hide Run, Step, Disconnects, Clocked;
      LastDisconnectNotBefore(cfg, trace, n - 1);
      RunNext(cfg, trace, n - 1);
      DisconnectSets(cfg, Run(cfg, trace[..n - 1]), trace[n - 1]);
      forall j | 0 <= j < n - 1 ensures trace[j].now <= trace[n - 1].now { InOrder(trace, j, n - 1); }
    }
  }

  lemma DisconnectSets(cfg: Config, st: State, e: Event)
    ensures Step(cfg, st, e).lastDisconnect ==
            if e.Uplink? && Disconnects(cfg, st, e.dst, e.isHeader, e.now) then Some(e.now) else st.lastDisconnect
  {
  }

  /** The latest RF frame for the talkgroup before `n`, with no counted disconnect behind it. */
  ghost predicate LatestUplink(cfg: Config, trace: Trace, u: nat, n: nat, tg: Talkgroup) {
    && u < n && RefreshAt(cfg, trace, u, tg)
    && forall k :: u < k < n ==> !RefreshAt(cfg, trace, k, tg) && !DisconnectAt(cfg, trace, k)
  }

  /** A tick that finds the frame of event `u` out of time. */
  ghost predicate MarkingTick(cfg: Config, trace: Trace, u: nat, m: nat) {
    u < m < |trace| && trace[m].Tick? && trace[m].now - trace[u].now > cfg.timeout
  }

  /** RF traffic within the timeout. */
  ghost predicate Fresh(cfg: Config, trace: Trace, i: nat, tg: Talkgroup) {
    i < |trace| && exists u: nat :: LatestUplink(cfg, trace, u, i, tg) && trace[i].now - trace[u].now <= cfg.timeout
  }

  /** RF traffic that a tick has found out of time. */
  ghost predicate Marked(cfg: Config, trace: Trace, i: nat, tg: Talkgroup) {
    exists u: nat, m: nat :: LatestUplink(cfg, trace, u, i, tg) && MarkingTick(cfg, trace, u, m) && m < i
  }

  /** A frame passed on three seconds ago or less, with no counted disconnect since. */
  ghost predicate RecentlyPassed(cfg: Config, trace: Trace, i: nat, tg: Talkgroup) {
    i < |trace| && exists j :: 0 <= j < i && PassedAt(cfg, trace, j, tg) && trace[i].now - trace[j].now <= 3_000_000_000
                               && forall k :: j < k < i ==> !DisconnectAt(cfg, trace, k)
  }

  lemma TickKeepsFresh(cfg: Config, st: State, e: Event, tg: Talkgroup)
    requires tg in st.routes && !st.routes[tg].expiredPending && (e.Tick? ==> e.now - st.routes[tg].lastSeen <= cfg.timeout)
    requires !(e.Uplink? && (Refreshes(cfg, e.dst, tg) || Disconnects(cfg, st, e.dst, e.isHeader, e.now)))
    ensures tg in Step(cfg, st, e).routes && !Step(cfg, st, e).routes[tg].expiredPending
    ensures Step(cfg, st, e).routes[tg].lastSeen == st.routes[tg].lastSeen
  {
  }

  /** Until a tick finds it out of time, the route of an RF frame is there, unmarked, with the frame's time. */
  lemma {:induction false} StaysFresh(cfg: Config, trace: Trace, u: nat, n: nat, tg: Talkgroup)
    requires n <= |trace| && LatestUplink(cfg, trace, u, n, tg)
    requires forall m: nat :: m < n ==> !MarkingTick(cfg, trace, u, m)
    ensures var routes := Run(cfg, trace[..n]).routes; tg in routes && !routes[tg].expiredPending && routes[tg].lastSeen == trace[u].now
    decreases n
  {
    hide Step, Run, Refreshes, Disconnects;
    RunNext(cfg, trace, n - 1);
    var st, e := Run(cfg, trace[..n - 1]), trace[n - 1];
    if u == n - 1 {
      RefreshSets(cfg, st, e, tg);
    } else {
      StaysFresh(cfg, trace, u, n - 1, tg);
      assert !RefreshAt(cfg, trace, n - 1, tg) && !DisconnectAt(cfg, trace, n - 1) && !MarkingTick(cfg, trace, u, n - 1);
      TickKeepsFresh(cfg, st, e, tg);
    }
  }

  lemma TickMarks(cfg: Config, st: State, e: Event, tg: Talkgroup)
    requires e.Tick? && tg in Step(cfg, st, e).routes
    ensures tg in st.routes && (e.now - st.routes[tg].lastSeen > cfg.timeout ==> Step(cfg, st, e).routes[tg].expiredPending)
  {
  }

  /** From the tick on that finds its RF frame out of time, the route is marked as long as it is there. */
  lemma {:induction false} StaysMarked(cfg: Config, trace: Trace, u: nat, m: nat, n: nat, tg: Talkgroup)
    requires m < n <= |trace| && LatestUplink(cfg, trace, u, n, tg) && MarkingTick(cfg, trace, u, m)
    requires tg in Run(cfg, trace[..n]).routes
    ensures Run(cfg, trace[..n]).routes[tg].expiredPending
    decreases n
  {
    hide Step, Run, Refreshes, Disconnects;
    RunNext(cfg, trace, n - 1);
    var st, e := Run(cfg, trace[..n - 1]), trace[n - 1];
    assert !RefreshAt(cfg, trace, n - 1, tg);
    StepKeepsMark(cfg, st, e, tg);
    if m == n - 1 {
      SeenSince(cfg, trace, u, n - 1, tg);
      TickMarks(cfg, st, e, tg);
    } else {
      StaysMarked(cfg, trace, u, m, n - 1, tg);
    }
  }

  lemma SeenSince(cfg: Config, trace: Trace, u: nat, n: nat, tg: Talkgroup)
    requires n <= |trace| && LatestUplink(cfg, trace, u, n, tg) && tg in Run(cfg, trace[..n]).routes
    ensures Run(cfg, trace[..n]).routes[tg].lastSeen == trace[u].now
  {
    hide Run, Refreshes, Disconnects;
    var i := LastSeenIsLastUplink(cfg, trace, n, tg);
  }

  lemma UseHolds(cfg: Config, st: State, e: Event, tg: Talkgroup, since: Time)
    requires tg in st.routes && since <= st.routes[tg].lastBm && since <= e.now <= since + RELEASE_GRACE
    requires !(e.Uplink? && Disconnects(cfg, st, e.dst, e.isHeader, e.now))
    ensures tg in Step(cfg, st, e).routes && since <= Step(cfg, st, e).routes[tg].lastBm
  {
  }

  lemma UseRecorded(cfg: Config, st: State, e: Event, tg: Talkgroup)
    requires e.Downlink? && e.dst == tg && Permitted(cfg, st, tg, e.now) && tg !in cfg.bmToP25 && tg !in cfg.statics
    ensures tg in Step(cfg, st, e).routes && Step(cfg, st, e).routes[tg].lastBm == e.now
  {
  }

  /** For three seconds behind a frame passed on, only a disconnect takes the route away. */
  lemma {:induction false} UseKeepsRoute(cfg: Config, trace: Trace, j: nat, n: nat, tg: Talkgroup)
    requires Clocked(trace) && tg !in cfg.bmToP25 && tg !in cfg.statics && j < n <= |trace| && PassedAt(cfg, trace, j, tg)
    requires forall k :: j < k < n ==> !DisconnectAt(cfg, trace, k) && trace[k].now - trace[j].now <= RELEASE_GRACE
    ensures var routes := Run(cfg, trace[..n]).routes; tg in routes && trace[j].now <= routes[tg].lastBm
    decreases n
  {
    hide Step, Run, Disconnects, Permitted;
    RunNext(cfg, trace, n - 1);
    var st, e := Run(cfg, trace[..n - 1]), trace[n - 1];
    if j == n - 1 {
      UseRecorded(cfg, st, e, tg);
    } else {
      UseKeepsRoute(cfg, trace, j, n - 1, tg);
      assert !DisconnectAt(cfg, trace, n - 1);
      UseHolds(cfg, st, e, tg, trace[j].now);
    }
  }

  /**
   * Exactly which frames of a talkgroup that is neither mapped nor static are passed on: those within
   * the timeout of the latest RF frame, and, once a tick has found that out of time, those at most three
   * seconds behind another that was passed on - with no counted disconnect in between. Past the
   * timeout and before that tick, none is.
   */
  lemma PassedIff(cfg: Config, trace: Trace, i: nat, tg: Talkgroup)
    requires Paired(cfg) && Clocked(trace) && tg !in cfg.bmToP25 && tg !in cfg.statics
    requires i < |trace| && trace[i].Downlink? && trace[i].dst == tg
    ensures PassedAt(cfg, trace, i, tg) <==>
            Fresh(cfg, trace, i, tg) || (Marked(cfg, trace, i, tg) && RecentlyPassed(cfg, trace, i, tg))
  {
    if PassedAt(cfg, trace, i, tg) { PassedOnlyIf(cfg, trace, i, tg); }
    if Fresh(cfg, trace, i, tg) { FreshPasses(cfg, trace, i, tg); }
    if Marked(cfg, trace, i, tg) && RecentlyPassed(cfg, trace, i, tg) { RecentPasses(cfg, trace, i, tg); }
  }

  lemma FreshPasses(cfg: Config, trace: Trace, i: nat, tg: Talkgroup)
    requires Clocked(trace) && tg !in cfg.bmToP25 && Fresh(cfg, trace, i, tg)
    requires trace[i].Downlink? && trace[i].dst == tg
    ensures PassedAt(cfg, trace, i, tg)
  {
    hide Run, RefreshAt, DisconnectAt, Clocked;
    var u: nat :| LatestUplink(cfg, trace, u, i, tg) && trace[i].now - trace[u].now <= cfg.timeout;
    forall m: nat | m < i ensures !MarkingTick(cfg, trace, u, m) { InOrder(trace, m, i); }
    StaysFresh(cfg, trace, u, i, tg);
  }

  /**
   * An answer comes through: after an RF frame to a talkgroup, every BrandMeister frame of the talkgroup
   * it is mapped to, or of its own, is passed on within the timeout, unless a disconnect counts in between.
   */
  lemma AnswerPasses(cfg: Config, trace: Trace, u: nat, i: nat)
    requires Paired(cfg) && Clocked(trace) && u < i < |trace| && trace[u].Uplink? && trace[i].Downlink?
    requires trace[u].dst != cfg.disconnect && trace[i].now - trace[u].now <= cfg.timeout
    requires trace[i].dst == if trace[u].dst in cfg.p25ToBm then cfg.p25ToBm[trace[u].dst] else trace[u].dst
    requires forall k :: u < k < i ==> !DisconnectAt(cfg, trace, k)
    ensures PassedAt(cfg, trace, i, trace[i].dst)
  {
    hide Run, Permitted, Disconnects;
    var tg := trace[i].dst;
    if tg in cfg.bmToP25 || tg in cfg.statics {
      MappedOrStaticPasses(cfg, trace, i);
    } else {
      var latest := LatestFrom(cfg, trace, u, i, tg);
      InOrder(trace, u, latest);
      FreshPasses(cfg, trace, i, tg);
    }
  }

  lemma {:induction false} LatestFrom(cfg: Config, trace: Trace, u: nat, n: nat, tg: Talkgroup) returns (latest: nat)
    requires u < n <= |trace| && RefreshAt(cfg, trace, u, tg) && forall k :: u < k < n ==> !DisconnectAt(cfg, trace, k)
    ensures u <= latest && LatestUplink(cfg, trace, latest, n, tg)
    decreases n
  {
    hide RefreshAt, DisconnectAt;
    if RefreshAt(cfg, trace, n - 1, tg) { latest := n - 1; } else { latest := LatestFrom(cfg, trace, u, n - 1, tg); }
  }

  lemma InOrder(trace: Trace, i: nat, j: nat)
    requires Clocked(trace) && i <= j < |trace|
    ensures trace[i].now <= trace[j].now
  {
  }

  lemma RecentPasses(cfg: Config, trace: Trace, i: nat, tg: Talkgroup)
    requires Clocked(trace) && tg !in cfg.bmToP25 && tg !in cfg.statics
    requires Marked(cfg, trace, i, tg) && RecentlyPassed(cfg, trace, i, tg)
    requires trace[i].Downlink? && trace[i].dst == tg
    ensures PassedAt(cfg, trace, i, tg)
  {
    hide Run, LatestUplink, Clocked, DisconnectAt;
    var u: nat, m: nat :| LatestUplink(cfg, trace, u, i, tg) && MarkingTick(cfg, trace, u, m) && m < i;
    var j :| 0 <= j < i && PassedAt(cfg, trace, j, tg) && trace[i].now - trace[j].now <= RELEASE_GRACE
             && forall k :: j < k < i ==> !DisconnectAt(cfg, trace, k);
    forall k | j < k < i ensures trace[k].now - trace[j].now <= RELEASE_GRACE { InOrder(trace, k, i); }
    UseKeepsRoute(cfg, trace, j, i, tg);
    StaysMarked(cfg, trace, u, m, i, tg);
  }

  lemma PassedOnlyIf(cfg: Config, trace: Trace, i: nat, tg: Talkgroup)
    requires Paired(cfg) && Clocked(trace) && tg !in cfg.bmToP25 && tg !in cfg.statics && PassedAt(cfg, trace, i, tg)
    ensures Fresh(cfg, trace, i, tg) || (Marked(cfg, trace, i, tg) && RecentlyPassed(cfg, trace, i, tg))
  {
    hide Run, Disconnects, Refreshes;
    var r := Run(cfg, trace[..i]).routes[tg];
    var u := LastSeenIsLastUplink(cfg, trace, i, tg);
    assert LatestUplink(cfg, trace, u, i, tg);
    if r.expiredPending {
      var j := LastUseWasPassed(cfg, trace, i, tg);
      if forall m: nat :: m < i ==> !MarkingTick(cfg, trace, u, m) {
        StaysFresh(cfg, trace, u, i, tg);
      }
    }
  }

  // ------------------------------------------------------------------ the end of a route

  /** Nothing since event `a` has touched the route. */
  ghost predicate Quiet(cfg: Config, trace: Trace, a: nat, b: nat, tg: Talkgroup) {
    forall k :: a <= k < b && k < |trace| ==> !RefreshAt(cfg, trace, k, tg) && !(trace[k].Downlink? && LocalOf(cfg, trace[k].dst) == tg)
  }

  lemma QuietStep(cfg: Config, st: State, e: Event, tg: Talkgroup)
    requires !(e.Uplink? && Refreshes(cfg, e.dst, tg)) && !(e.Downlink? && LocalOf(cfg, e.dst) == tg)
    ensures tg in Step(cfg, st, e).routes ==>
              && tg in st.routes && Step(cfg, st, e).routes[tg].lastSeen == st.routes[tg].lastSeen
              && Step(cfg, st, e).routes[tg].lastBm == st.routes[tg].lastBm
              && (st.routes[tg].expiredPending ==> Step(cfg, st, e).routes[tg].expiredPending)
    ensures tg in Step(cfg, st, e).routes && e.Tick? ==>
            Aged(cfg, st.routes[tg], e.now) == Some(Step(cfg, st, e).routes[tg])
  {
  }

  /** A quiet stretch leaves a route's times alone, and a mark on it stays. */
  lemma {:induction false} QuietKeeps(cfg: Config, trace: Trace, a: nat, b: nat, tg: Talkgroup)
    requires a <= b <= |trace| && Quiet(cfg, trace, a, b, tg) && tg in Run(cfg, trace[..b]).routes
    ensures tg in Run(cfg, trace[..a]).routes
    ensures var r, s := Run(cfg, trace[..a]).routes[tg], Run(cfg, trace[..b]).routes[tg];
            s.lastSeen == r.lastSeen && s.lastBm == r.lastBm && (r.expiredPending ==> s.expiredPending)
    decreases b
  {
    hide Step, Refreshes;
    if a < b {
      RunNext(cfg, trace, b - 1);
      assert !RefreshAt(cfg, trace, b - 1, tg);
      QuietStep(cfg, Run(cfg, trace[..b - 1]), trace[b - 1], tg);
      QuietKeeps(cfg, trace, a, b - 1, tg);
    }
  }

  /**
   * With no RF for the timeout and no BrandMeister traffic for three seconds, two ticks remove a route:
   * the first marks it at the latest, the second finds it marked and silent.
   */
  lemma SilentRouteIsRemoved(cfg: Config, trace: Trace, a: nat, i: nat, j: nat, tg: Talkgroup)
    requires Clocked(trace) && a <= i < j < |trace| && Quiet(cfg, trace, a, j + 1, tg)
    requires trace[i].Tick? && trace[j].Tick?
    requires tg in Run(cfg, trace[..a]).routes ==>
             var r := Run(cfg, trace[..a]).routes[tg]; trace[i].now - r.lastSeen > cfg.timeout && trace[j].now - r.lastBm > RELEASE_GRACE
    ensures tg !in Run(cfg, trace[..j + 1]).routes
  {
    hide Step, Run;
    if tg in Run(cfg, trace[..j + 1]).routes {
      QuietKeeps(cfg, trace, i + 1, j + 1, tg);
      QuietKeeps(cfg, trace, i + 1, j, tg) by { StillThere(cfg, trace, j, tg); }
      StillThere(cfg, trace, i, tg);
      QuietKeeps(cfg, trace, a, i, tg);
      RunNext(cfg, trace, i);
      RunNext(cfg, trace, j);
      QuietStep(cfg, Run(cfg, trace[..i]), trace[i], tg);
      QuietStep(cfg, Run(cfg, trace[..j]), trace[j], tg);
    }
  }

  lemma StillThere(cfg: Config, trace: Trace, k: nat, tg: Talkgroup)
    requires k < |trace| && trace[k].Tick? && tg in Run(cfg, trace[..k + 1]).routes
    ensures tg in Run(cfg, trace[..k]).routes
  {
    hide Step;
    RunNext(cfg, trace, k);
    QuietStep(cfg, Run(cfg, trace[..k]), trace[k], tg);
  }

  /**
   * After a disconnect no talkgroup that is neither mapped nor static gets through until RF traffic
   * opens its route again.
   */
  lemma DisconnectCutsOff(cfg: Config, trace: Trace, d: nat, i: nat, tg: Talkgroup)
    requires tg !in cfg.bmToP25 && tg !in cfg.statics && d < i && DisconnectAt(cfg, trace, d)
    requires forall k :: d < k < i ==> !RefreshAt(cfg, trace, k, tg)
    ensures !PassedAt(cfg, trace, i, tg)
  {
    hide Run, Disconnects, Refreshes;
    if PassedAt(cfg, trace, i, tg) {
      var u := LastSeenIsLastUplink(cfg, trace, i, tg);
      if u == d { RefreshSets(cfg, Run(cfg, trace[..d]), trace[d], tg); }
    }
  }

  /** A release is requested once per expiry: never again until RF traffic has refreshed the route. */
  lemma ReleaseRequestedOnce(cfg: Config, trace: Trace, i: nat, j: nat, tg: Talkgroup)
    requires i < j < |trace| && trace[i].Tick? && trace[j].Tick?
    requires tg in Released(cfg, Run(cfg, trace[..i]), trace[i].now)
    requires forall k :: i < k < j ==> !RefreshAt(cfg, trace, k, tg)
    ensures tg !in Released(cfg, Run(cfg, trace[..j]), trace[j].now)
  {
    hide Step, Run;
    if tg in Run(cfg, trace[..j]).routes { MarkStays(cfg, trace, i, j, tg); }
  }

  /**
   * When a release is requested, exactly: by the first tick that finds the latest RF frame of the
   * talkgroup out of time, unless a disconnect came first.
   */
  lemma ReleaseIff(cfg: Config, trace: Trace, i: nat, tg: Talkgroup)
    requires i < |trace| && trace[i].Tick?
    ensures tg in Released(cfg, Run(cfg, trace[..i]), trace[i].now) <==>
            exists u: nat :: LatestUplink(cfg, trace, u, i, tg) && MarkingTick(cfg, trace, u, i) && forall m: nat :: m < i ==> !MarkingTick(cfg, trace, u, m)
  {
    hide Step, Run, Disconnects, Refreshes;
    var routes := Run(cfg, trace[..i]).routes;
    if tg in routes {
      var u := LastSeenIsLastUplink(cfg, trace, i, tg);
      assert LatestUplink(cfg, trace, u, i, tg);
      RequestedIsMarked(cfg, trace, i, tg);
      if m: nat :| m < i && MarkingTick(cfg, trace, u, m) {
        StaysMarked(cfg, trace, u, m, i, tg);
      } else {
        StaysFresh(cfg, trace, u, i, tg);
      }
    }
    if u: nat :| LatestUplink(cfg, trace, u, i, tg) && MarkingTick(cfg, trace, u, i) && forall m: nat :: m < i ==> !MarkingTick(cfg, trace, u, m) {
      StaysFresh(cfg, trace, u, i, tg);
    }
  }

  /** A release is only on record for a marked route. */
  lemma {:induction false} RequestedIsMarked(cfg: Config, trace: Trace, n: nat, tg: Talkgroup)
    requires n <= |trace| && tg in Run(cfg, trace[..n]).routes
    ensures var r := Run(cfg, trace[..n]).routes[tg]; r.releaseRequested ==> r.expiredPending
  {
    hide Run;
    if n == 0 {
      NothingRouted(cfg, trace);
    } else {
      RunNext(cfg, trace, n - 1);
      if tg in Run(cfg, trace[..n - 1]).routes { RequestedIsMarked(cfg, trace, n - 1, tg); }
    }
  }

  lemma NothingRouted(cfg: Config, trace: Trace)
    ensures Run(cfg, trace[..0]) == EMPTY
  {
  }

  /** Only RF traffic takes the mark off a route. */
  lemma StepKeepsMark(cfg: Config, st: State, e: Event, tg: Talkgroup)
    requires tg in Step(cfg, st, e).routes && !(e.Uplink? && Refreshes(cfg, e.dst, tg))
    ensures tg in st.routes && (st.routes[tg].expiredPending ==> Step(cfg, st, e).routes[tg].expiredPending)
  {
  }

  lemma {:induction false} MarkStays(cfg: Config, trace: Trace, i: nat, j: nat, tg: Talkgroup)
    requires i < j <= |trace| && trace[i].Tick? && tg in Released(cfg, Run(cfg, trace[..i]), trace[i].now)
    requires forall k :: i < k < j ==> !RefreshAt(cfg, trace, k, tg)
    requires tg in Run(cfg, trace[..j]).routes
    ensures Run(cfg, trace[..j]).routes[tg].expiredPending
    decreases j
  {
    hide Run, Refreshes;
    RunNext(cfg, trace, j - 1);
    if i < j - 1 {
      assert !RefreshAt(cfg, trace, j - 1, tg);
      StepKeepsMark(cfg, Run(cfg, trace[..j - 1]), trace[j - 1], tg);
      MarkStays(cfg, trace, i, j - 1, tg);
    }
  }
}
