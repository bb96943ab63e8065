/**
 * Talkgroup routing and subscriber affiliation of deploy/scripts/tetrapack_brew_audio.py. The
 * server keeps a set of groups per registered radio and learns of changes only through deltas.
 */
module BrewRouting {
  import opened Common

  type Talkgroup = int
  type Issi = int

  /** time.monotonic(), in seconds. */
  type Seconds = real

  // ------------------------------------------------------------------ configuration

  datatype Config = Config(
    p25ToBrew: map<Talkgroup, Talkgroup>, brewToP25: map<Talkgroup, Talkgroup>,
    statics: set<Talkgroup>, dynamicTimeout: Seconds, disconnect: Talkgroup)

  predicate In24Bits(v: int) { 1 <= v <= 0xFF_FFFF }

  /** The two mapping tables are each other's inverse. */
  predicate InverseMaps(f: map<int, int>, g: map<int, int>) {
    && (forall p :: p in f ==> f[p] in g && g[f[p]] == p)
    && (forall b :: b in g ==> g[b] in f && f[g[b]] == b)
  }

  predicate ValidConfig(c: Config) { InverseMaps(c.p25ToBrew, c.brewToP25) }

  /** The routing section as parsed from YAML. */
  datatype RoutingSection = RoutingSection(mappings: seq<(int, int)>, statics: seq<int>, timeout: int, disconnect: int)

  /** A mapping list is usable when it is in range and unique in both directions. */
  predicate ValidMappings(m: seq<(int, int)>) {
    && (forall i :: 0 <= i < |m| ==> In24Bits(m[i].0) && In24Bits(m[i].1))
    && (forall i, j :: 0 <= i < j < |m| ==> m[i].0 != m[j].0 && m[i].1 != m[j].1)
  }

  /** The table from P25 to BREW groups, and the one back, of a mapping list. */
  function Forward(m: seq<(int, int)>): map<int, int> {
    if m == [] then map[] else Forward(m[..|m| - 1])[m[|m| - 1].0 := m[|m| - 1].1]
  }

  function Backward(m: seq<(int, int)>): map<int, int> {
    if m == [] then map[] else Backward(m[..|m| - 1])[m[|m| - 1].1 := m[|m| - 1].0]
  }

  lemma {:induction false} TablesHave(m: seq<(int, int)>, x: int)
    ensures x in Forward(m) <==> exists j :: 0 <= j < |m| && m[j].0 == x
    ensures x in Backward(m) <==> exists j :: 0 <= j < |m| && m[j].1 == x
  {
    if m != [] {
      var front := m[..|m| - 1];
      TablesHave(front, x);
      assert forall j :: 0 <= j < |front| ==> front[j] == m[j];
      if m[|m| - 1].0 != x && x in Forward(m) { var j :| 0 <= j < |front| && front[j].0 == x; assert m[j].0 == x; }
      if m[|m| - 1].1 != x && x in Backward(m) { var j :| 0 <= j < |front| && front[j].1 == x; assert m[j].1 == x; }
    }
  }

  lemma ValidFront(m: seq<(int, int)>)
    requires ValidMappings(m) && m != []
    ensures ValidMappings(m[..|m| - 1])
    ensures m[|m| - 1].0 !in Forward(m[..|m| - 1]) && m[|m| - 1].1 !in Backward(m[..|m| - 1])
  {
    var front, last := m[..|m| - 1], m[|m| - 1];
    TablesHave(front, last.0);
    TablesHave(front, last.1);
    hide Forward, Backward;
    assert forall j :: 0 <= j < |front| ==> front[j] == m[j];
  }

  /** The tables of a usable list are inverse, and hold exactly its pairs. */
  lemma {:induction false} TablesOfValid(m: seq<(int, int)>)
    requires ValidMappings(m)
    ensures InverseMaps(Forward(m), Backward(m))
    ensures forall p, b :: (p in Forward(m) && Forward(m)[p] == b) <==> (p, b) in m
  {
    if m != [] {
      hide ValidMappings;
      var front, last := m[..|m| - 1], m[|m| - 1];
      ValidFront(m);
      TablesOfValid(front);
      assert m == front + [last];
      ExtendInverse(Forward(front), Backward(front), last.0, last.1);
    }
  }

  lemma ExtendInverse(f: map<int, int>, g: map<int, int>, p: int, b: int)
    requires InverseMaps(f, g) && p !in f && b !in g
    ensures InverseMaps(f[p := b], g[b := p])
  {
  }

  /** The mapping loop of the two configuration readers; None stands for the ValueError. */
  method ParseMappings(m: seq<(int, int)>) returns (r: Option<(map<int, int>, map<int, int>)>)
    ensures r == if ValidMappings(m) then Some((Forward(m), Backward(m))) else None
  {
    hide Forward, Backward, ValidMappings;
    var p25ToBrew: map<int, int>, brewToP25: map<int, int> := map[], map[];
    NothingMapped();
    var i := 0;
    while i < |m|
      invariant 0 <= i <= |m| && ValidMappings(m[..i])
      invariant p25ToBrew == Forward(m[..i]) && brewToP25 == Backward(m[..i])
    {
      var (p25, brew) := m[i];
      OneMoreMapping(m, i);
      if !In24Bits(p25) || !In24Bits(brew) { return None; }
      if p25 in p25ToBrew || brew in brewToP25 { return None; }
      p25ToBrew := p25ToBrew[p25 := brew];
      brewToP25 := brewToP25[brew := p25];
      i := i + 1;
    }
    assert m[..i] == m;
    return Some((p25ToBrew, brewToP25));
  }

  lemma NothingMapped()
    ensures ValidMappings([]) && Forward([]) == map[] == Backward([])
  {
  }

  /** Where the list stops being usable, and the tables one pair further on. */
  lemma OneMoreMapping(m: seq<(int, int)>, i: nat)
    requires i < |m| && ValidMappings(m[..i])
    ensures ValidMappings(m[..i + 1]) <==>
            In24Bits(m[i].0) && In24Bits(m[i].1) && m[i].0 !in Forward(m[..i]) && m[i].1 !in Backward(m[..i])
    ensures !ValidMappings(m[..i + 1]) ==> !ValidMappings(m)
    ensures Forward(m[..i + 1]) == Forward(m[..i])[m[i].0 := m[i].1] && Backward(m[..i + 1]) == Backward(m[..i])[m[i].1 := m[i].0]
  {
    assert m[..i + 1][..i] == m[..i];
    TablesHave(m[..i], m[i].0);
    TablesHave(m[..i], m[i].1);
    TablesStep(m, i);
    hide Forward, Backward;
    assert forall j :: 0 <= j < i ==> m[..i][j] == m[j];
    assert forall j :: 0 <= j < i + 1 ==> m[..i + 1][j] == m[j];
  }

  lemma TablesStep(m: seq<(int, int)>, i: nat)
    requires i < |m|
    ensures Forward(m[..i + 1]) == Forward(m[..i])[m[i].0 := m[i].1] && Backward(m[..i + 1]) == Backward(m[..i])[m[i].1 := m[i].0]
  {
    assert m[..i + 1][..i] == m[..i];
  }

  predicate ValidSection(s: RoutingSection) {
    && ValidMappings(s.mappings)
    && (forall i :: 0 <= i < |s.statics| ==> In24Bits(s.statics[i]))
    && In24Bits(s.disconnect)
  }

  // ------------------------------------------------------------------ the router on its own

  function BrewForP25(c: Config, p25: Talkgroup): Option<Talkgroup> {
    if p25 == c.disconnect then None
    else if p25 in c.p25ToBrew then Some(c.p25ToBrew[p25])
    else Some(p25)
  }

  function P25ForBrew(c: Config, dynamic: map<Talkgroup, Seconds>, brew: Talkgroup): Option<Talkgroup> {
    if brew !in c.statics && brew !in dynamic then None
    else if brew in c.brewToP25 then Some(c.brewToP25[brew])
    else Some(brew)
  }

  /** Groups idle for longer than the timeout. */
  function Idle(dynamic: map<Talkgroup, Seconds>, timeout: Seconds, now: Seconds): set<Talkgroup> {
    set t | t in dynamic && now - dynamic[t] > timeout
  }

  function Activated(c: Config, dynamic: map<Talkgroup, Seconds>, brew: Talkgroup, now: Seconds): map<Talkgroup, Seconds> {
    if brew in c.statics then dynamic else dynamic[brew := now]
  }

  /**
   * After RF activity on `p25` its BREW group is active, and traffic on that group comes back
   * to `p25`, exactly when `p25` is mapped or is not itself the BREW side of another mapping.
   */
  lemma ReplyReturnsToCaller(c: Config, dynamic: map<Talkgroup, Seconds>, p25: Talkgroup, now: Seconds)
    requires ValidConfig(c) && p25 != c.disconnect
    ensures var brew := BrewForP25(c, p25);
            brew.Some? &&
            (P25ForBrew(c, Activated(c, dynamic, brew.value, now), brew.value) == Some(p25)
             <==> p25 in c.p25ToBrew || p25 !in c.brewToP25)
  {
  }

  /** The exception, concretely: 91 is mapped to 92, and a call on the unmapped 92 is answered on 91. */
  lemma ReplyGoesElsewhere()
    ensures var c := Config(map[91 := 92], map[92 := 91], {}, 600.0, 4000);
            && ValidConfig(c) && BrewForP25(c, 92) == Some(92)
            && P25ForBrew(c, Activated(c, map[], 92, 0.0), 92) == Some(91)
  {
  }

  // ------------------------------------------------------------------ restored routes

  /** A line of the saved state that parses, and the monotonic clock when it is read. */
  datatype SavedRoute = SavedRoute(talkgroup: int, lastActiveEpoch: Seconds, readAt: Seconds)

  function Age(saved: SavedRoute, nowEpoch: Seconds): Seconds {
    if nowEpoch - saved.lastActiveEpoch > 0.0 then nowEpoch - saved.lastActiveEpoch else 0.0
  }

  /** A route that is restored: in range, young enough, and not static. */
  predicate Restorable(c: Config, saved: SavedRoute, nowEpoch: Seconds) {
    In24Bits(saved.talkgroup) && Age(saved, nowEpoch) < c.dynamicTimeout && saved.talkgroup !in c.statics
  }

  /** load_dynamic_routes: line by line, a later line replacing an earlier one of its group. */
  function LoadedRoutes(c: Config, saved: seq<SavedRoute>, nowEpoch: Seconds): map<Talkgroup, Seconds> {
    if saved == [] then map[]
    else
      var before, last := LoadedRoutes(c, saved[..|saved| - 1], nowEpoch), saved[|saved| - 1];
      if Restorable(c, last, nowEpoch) then before[last.talkgroup := last.readAt - Age(last, nowEpoch)] else before
  }

  /** Line `i` gives the group back: it is in range, not static, and younger than the timeout. */
  predicate GivesBack(c: Config, saved: seq<SavedRoute>, nowEpoch: Seconds, i: nat, t: Talkgroup) {
    && i < |saved| && saved[i].talkgroup == t && 1 <= t <= 0xFFFFFF && t !in c.statics
    && c.dynamicTimeout > 0.0 && nowEpoch - saved[i].lastActiveEpoch < c.dynamicTimeout
  }

  /** No line from `from` on gives the group back. */
  ghost predicate NoneGivesBack(c: Config, saved: seq<SavedRoute>, nowEpoch: Seconds, from: nat, t: Talkgroup) {
    forall j: nat :: from <= j ==> !GivesBack(c, saved, nowEpoch, j, t)
  }

  /** Exactly the groups with such a line come back, each as old as the last of its lines says, or new if that lies in the future. */
  lemma {:induction false} RestoredIff(c: Config, saved: seq<SavedRoute>, nowEpoch: Seconds, t: Talkgroup) returns (line: Option<nat>)
    ensures line.None? ==> t !in LoadedRoutes(c, saved, nowEpoch) && NoneGivesBack(c, saved, nowEpoch, 0, t)
    ensures line.Some? ==>
              var i := line.value;
              && GivesBack(c, saved, nowEpoch, i, t) && NoneGivesBack(c, saved, nowEpoch, i + 1, t)
              && Get(LoadedRoutes(c, saved, nowEpoch), t) ==
                 Some(saved[i].readAt - if saved[i].lastActiveEpoch < nowEpoch then nowEpoch - saved[i].lastActiveEpoch else 0.0)
  {
    if saved == [] { return None; }
    var before, last := saved[..|saved| - 1], |saved| - 1;
    line := RestoredIff(c, before, nowEpoch, t);
    RestorableMeans(c, saved, nowEpoch, t);
    var from := if line.Some? then line.value + 1 else 0;
    OneMoreLine(c, saved, nowEpoch, from, t);
    hide Restorable, Age, NoneGivesBack;
    if GivesBack(c, saved, nowEpoch, last, t) { line := Some(last); }
  }

  lemma OneMoreLine(c: Config, saved: seq<SavedRoute>, nowEpoch: Seconds, from: nat, t: Talkgroup)
    requires saved != [] && NoneGivesBack(c, saved[..|saved| - 1], nowEpoch, from, t)
    ensures !GivesBack(c, saved, nowEpoch, |saved| - 1, t) ==> NoneGivesBack(c, saved, nowEpoch, from, t)
    ensures NoneGivesBack(c, saved, nowEpoch, |saved|, t)
  {
    var before := saved[..|saved| - 1];
    forall j: nat | from <= j < |before| ensures !GivesBack(c, saved, nowEpoch, j, t) {
      assert !GivesBack(c, before, nowEpoch, j, t) && before[j] == saved[j];
    }
  }

  lemma RestorableMeans(c: Config, saved: seq<SavedRoute>, nowEpoch: Seconds, t: Talkgroup)
    requires saved != []
    ensures var last := saved[|saved| - 1];
            && (GivesBack(c, saved, nowEpoch, |saved| - 1, t) <==> last.talkgroup == t && Restorable(c, last, nowEpoch))
            && Age(last, nowEpoch) == if last.lastActiveEpoch < nowEpoch then nowEpoch - last.lastActiveEpoch else 0.0
  {
  }

  // ------------------------------------------------------------------ bridge and server

  /** Down: not connected. Broken: connected as far as the bridge knows, but nothing arrives. */
  datatype Link = Down | Broken | Up

  type Server = map<Issi, set<Talkgroup>>

  datatype Message =
    | Register(issi: Issi)
    | Reregister(issi: Issi)
    | Affiliate(issi: Issi, groups: set<Talkgroup>)
    | Deaffiliate(issi: Issi, groups: set<Talkgroup>)
    | Deregister(issi: Issi)

  /** The server's reading of one message. Affiliations of unregistered radios are ignored. */
  function Receive(s: Server, m: Message): Server {
    match m
    case Register(i) => if i in s then s else s[i := {}]
    case Reregister(i) => if i in s then s else s[i := {}]
    case Affiliate(i, g) => if i in s then s[i := s[i] + g] else s
    case Deaffiliate(i, g) => if i in s then s[i := s[i] - g] else s
    case Deregister(i) => s - {i}
  }

  datatype Bridge = Bridge(
    config: Config, dynamic: map<Talkgroup, Seconds>, issis: set<Issi>, anchors: set<Issi>, link: Link, server: Server)

  function Groups(b: Bridge): set<Talkgroup> { b.config.statics + b.dynamic.Keys }

  function Added(s: Server, who: set<Issi>, g: set<Talkgroup>): Server {
    map i | i in s :: if i in who then s[i] + g else s[i]
  }

  function Removed(s: Server, who: set<Issi>, g: set<Talkgroup>): Server {
    map i | i in s :: if i in who then s[i] - g else s[i]
  }

  function Registered(s: Server, who: set<Issi>): Server {
    map i | i in s.Keys + who :: if i in s then s[i] else {}
  }

  /** Sending one more message extends each of the three bulk updates by one radio. */
  lemma OneMore(s: Server, who: set<Issi>, i: Issi, g: set<Talkgroup>)
    requires i !in who
    ensures Receive(Added(s, who, g), Affiliate(i, g)) == Added(s, who + {i}, g)
    ensures Receive(Removed(s, who, g), Deaffiliate(i, g)) == Removed(s, who + {i}, g)
    ensures Receive(Registered(s, who), Register(i)) == Registered(s, who + {i})
    ensures Receive(Registered(s, who), Reregister(i)) == Registered(s, who + {i})
  {
  }

  lemma NoneYet(s: Server, who: set<Issi>, g: set<Talkgroup>)
    ensures Added(s, {}, g) == s && Removed(s, {}, g) == s && Registered(s, {}) == s
    ensures Added(s, who, {}) == s && Removed(s, who, {}) == s
  {
    assert s.Keys + {} == s.Keys;
    assert forall i :: i in s ==> s[i] + {} == s[i] && s[i] - {} == s[i];
  }

  /** What the server ends up with when `f` is its state after messages that only arrive on a working link. */
  function Arrives(b: Bridge, s: Server): Bridge {
    if b.link.Up? then b.(server := s) else b
  }

  datatype Event =
    | Connect
    | Break
    | Disconnect
    | Refresh(requested: Option<set<Issi>>)
    | Learn(issi: Issi, refreshExisting: bool)
    | Forget(issi: Issi)
    | ResetLearned
    | Uplink(p25: Talkgroup, now: Seconds)
    | Expire(now: Seconds)
    | DisconnectTalkgroup
    | Reload(section: RoutingSection)

  function Connected(b: Bridge): Bridge {
    b.(link := Up, server := Added(Registered(map[], b.issis), b.issis, Groups(b)))
  }

  function Refreshed(b: Bridge, who: set<Issi>): Bridge {
    Arrives(b, Added(Registered(b.server, who), who, Groups(b)))
  }

  function Learned(b: Bridge, issi: Issi, refreshExisting: bool): Bridge {
    if !In24Bits(issi) then b
    else if issi in b.issis then (if refreshExisting then Refreshed(b, {issi}) else b)
    else
      Arrives(b.(issis := b.issis + {issi}), Added(Registered(b.server, {issi}), {issi}, Groups(b)))
  }

  function Forgotten(b: Bridge, who: set<Issi>): Bridge {
    var gone := (b.issis * who) - b.anchors;
    Arrives(b.(issis := b.issis - gone), b.server - gone)
  }

  function UplinkStarted(b: Bridge, p25: Talkgroup, now: Seconds): Bridge {
    match BrewForP25(b.config, p25)
    case None => b
    case Some(brew) =>
      var dynamic := Activated(b.config, b.dynamic, brew, now);
      var b' := b.(dynamic := dynamic);
      if brew in dynamic && brew !in b.dynamic then Arrives(b', Added(b.server, b.issis, {brew})) else b'
  }

  function Dropped(b: Bridge, gone: set<Talkgroup>): Bridge {
    Arrives(b.(dynamic := b.dynamic - gone), Removed(b.server, b.issis, gone))
  }

  /** A reload keeps a dynamic group unless it has become static; the server is told the differences. */
  function Reloaded(b: Bridge, c: Config): Bridge {
    var b' := b.(config := c, dynamic := b.dynamic - c.statics);
    var before, after := Groups(b), Groups(b');
    Arrives(b', Added(Removed(b.server, b.issis, before - after), b.issis, after - before))
  }

  /** The bridge as it is constructed: restored routes, no connection yet. */
  function Started(c: Config, saved: seq<SavedRoute>, nowEpoch: Seconds, issis: set<Issi>, anchors: set<Issi>): Bridge {
    Bridge(c, LoadedRoutes(c, saved, nowEpoch), issis, anchors, Down, map[])
  }

  function SectionConfig(s: RoutingSection): Config {
    Config(Forward(s.mappings), Backward(s.mappings), set i | 0 <= i < |s.statics| :: s.statics[i],
           if s.timeout < 10 then 10.0 else s.timeout as real, s.disconnect)
  }

  // ------------------------------------------------------------------ the mirror

  /** While the link works, every local radio is registered with exactly the router's groups. */
  predicate Mirrored(b: Bridge) {
    b.link.Up? ==> b.server.Keys == b.issis && forall i :: i in b.issis ==> b.server[i] == Groups(b)
  }

  /** No group is static and dynamic at once. */
  predicate Disjoint(b: Bridge) { b.config.statics !! b.dynamic.Keys }

  predicate Consistent(b: Bridge) { Mirrored(b) && Disjoint(b) && ValidConfig(b.config) }

  lemma ConnectedConsistent(b: Bridge)
    requires Consistent(b)
    ensures Consistent(Connected(b))
  {
  }

  lemma RefreshedConsistent(b: Bridge, who: set<Issi>)
    requires Consistent(b) && who <= b.issis
    ensures Refreshed(b, who) == b
  {
    if b.link.Up? {
      var s := Registered(b.server, who);
      assert s.Keys == b.server.Keys;
      assert forall i :: i in who ==> b.server[i] + Groups(b) == b.server[i];
      assert Added(s, who, Groups(b)) == b.server;
    }
  }

  lemma LearnedConsistent(b: Bridge, issi: Issi, refreshExisting: bool)
    requires Consistent(b)
    ensures Consistent(Learned(b, issi, refreshExisting))
    ensures In24Bits(issi) ==> issi in Learned(b, issi, refreshExisting).issis
  {
    if issi in b.issis {
      RefreshedConsistent(b, {issi});
    }
  }

  lemma ForgottenConsistent(b: Bridge, who: set<Issi>)
    requires Consistent(b)
    ensures Consistent(Forgotten(b, who))
  {
  }

  lemma UplinkConsistent(b: Bridge, p25: Talkgroup, now: Seconds)
    requires Consistent(b)
    ensures Consistent(UplinkStarted(b, p25, now))
  {
    hide ValidConfig;
    match BrewForP25(b.config, p25) {
      case None =>
      case Some(brew) =>
        var b' := UplinkStarted(b, p25, now);
        if brew !in b.config.statics {
          assert b'.dynamic.Keys == b.dynamic.Keys + {brew};
          assert Groups(b') == Groups(b) + {brew};
        }
    }
  }

  /** Dropping dynamic groups never deaffiliates a static one: this is where disjointness is needed. */
  lemma DroppedConsistent(b: Bridge, gone: set<Talkgroup>)
    requires Consistent(b) && gone <= b.dynamic.Keys
    ensures Consistent(Dropped(b, gone))
    ensures Groups(Dropped(b, gone)) == Groups(b) - gone
  {
    hide ValidConfig;
    var b' := Dropped(b, gone);
    assert b'.dynamic.Keys == b.dynamic.Keys - gone;
    assert Groups(b') == Groups(b) - gone;
  }

  lemma ReloadedConsistent(b: Bridge, c: Config)
    requires Consistent(b) && ValidConfig(c)
    ensures Consistent(Reloaded(b, c))
    ensures Reloaded(b, c).dynamic.Keys == b.dynamic.Keys - c.statics
  {
    hide ValidConfig;
    var b' := Reloaded(b, c);
    var before, after := Groups(b), Groups(b');
    assert b'.dynamic.Keys == b.dynamic.Keys - c.statics;
    assert before - (before - after) + (after - before) == after;
  }

  /** One atomic step of the bridge. */
  ghost predicate Step(b: Bridge, e: Event, b': Bridge) {
    match e
    case Connect => b' == Connected(b)
    case Break => b' == if b.link.Up? then b.(link := Broken, server := map[]) else b
    case Disconnect => b' == b.(link := Down, server := map[])
    case Refresh(requested) => b' == Refreshed(b, if requested.Some? then b.issis * requested.value else b.issis)
    case Learn(issi, refreshExisting) => b' == Learned(b, issi, refreshExisting)
    case Forget(issi) => b' == Forgotten(b, {issi})
    case ResetLearned => b' == Forgotten(b, b.issis)
    case Uplink(p25, now) => b' == UplinkStarted(b, p25, now)
    case Expire(now) => b' == Dropped(b, Idle(b.dynamic, b.config.dynamicTimeout, now))
    case DisconnectTalkgroup => b' == Dropped(b, b.dynamic.Keys)
    case Reload(section) =>
      b' == if ValidSection(section) then Reloaded(b, SectionConfig(section)) else b
  }

  lemma StepConsistent(b: Bridge, e: Event, b': Bridge)
    requires Consistent(b) && Step(b, e, b')
    ensures Consistent(b')
  {
    hide Consistent, Connected, Refreshed, Learned, Forgotten, UplinkStarted, Dropped, Reloaded;
    match e {
      case Connect => ConnectedConsistent(b);
      case Break => LinkLost(b, b');
      case Disconnect => LinkLost(b, b');
      case Refresh(requested) => RefreshedConsistent(b, if requested.Some? then b.issis * requested.value else b.issis);
      case Learn(issi, refreshExisting) => LearnedConsistent(b, issi, refreshExisting);
      case Forget(issi) => ForgottenConsistent(b, {issi});
      case ResetLearned => ForgottenConsistent(b, b.issis);
      case Uplink(p25, now) => UplinkConsistent(b, p25, now);
      case Expire(now) => DroppedConsistent(b, Idle(b.dynamic, b.config.dynamicTimeout, now));
      case DisconnectTalkgroup => DroppedConsistent(b, b.dynamic.Keys);
      case Reload(section) =>
        if ValidSection(section) {
          TablesOfValid(section.mappings);
          ReloadedConsistent(b, SectionConfig(section));
        }
    }
  }

  lemma LinkLost(b: Bridge, b': Bridge)
    requires Consistent(b) && (b' == b || (!b'.link.Up? && b' == b.(link := b'.link, server := b'.server)))
    ensures Consistent(b')
  {
  }

  /** A run: successive states related by the events. */
  ghost predicate IsRun(states: seq<Bridge>, events: seq<Event>) {
    |states| == |events| + 1 && forall i :: 0 <= i < |events| ==> Step(states[i], events[i], states[i + 1])
  }

  /** Whatever was saved, the bridge starts consistent: a group that is static now is not restored. */
  lemma StartConsistent(c: Config, saved: seq<SavedRoute>, nowEpoch: Seconds, issis: set<Issi>, anchors: set<Issi>)
    requires ValidConfig(c)
    ensures Consistent(Started(c, saved, nowEpoch, issis, anchors))
  {
    hide LoadedRoutes, ValidConfig;
    forall t | t in LoadedRoutes(c, saved, nowEpoch)
      ensures t !in c.statics
    {
      var line := RestoredIff(c, saved, nowEpoch, t);
    }
  }

  /**
   * In every run from the start, after every step: static and dynamic groups are
   * disjoint, and while the link works the server has exactly the local radios, each
   * affiliated with exactly the router's groups.
   */
  lemma MirrorHoldsThroughout(
    c: Config, saved: seq<SavedRoute>, nowEpoch: Seconds, issis: set<Issi>, anchors: set<Issi>,
    states: seq<Bridge>, events: seq<Event>, k: nat)
    requires ValidConfig(c) && IsRun(states, events) && k < |states|
    requires states[0] == Started(c, saved, nowEpoch, issis, anchors)
    ensures Disjoint(states[k]) && ValidConfig(states[k].config)
    ensures states[k].link.Up? ==>
              states[k].server.Keys == states[k].issis &&
              forall i :: i in states[k].issis ==> states[k].server[i] == states[k].config.statics + states[k].dynamic.Keys
  {
    hide Step, ValidConfig;
    StartConsistent(c, saved, nowEpoch, issis, anchors);
    ConsistentThroughout(states, events, k);
  }

  lemma {:induction false} ConsistentThroughout(states: seq<Bridge>, events: seq<Event>, k: nat)
    requires IsRun(states, events) && Consistent(states[0]) && k < |states|
    ensures Consistent(states[k])
  {
    hide Consistent, Step;
    if k > 0 {
      ConsistentThroughout(states, events, k - 1);
      StepConsistent(states[k - 1], events[k - 1], states[k]);
    }
  }

  // ------------------------------------------------------------------ which groups are active, over a run

  /** The uplink `e` opens or refreshes the dynamic group `t`. */
  predicate Activates(c: Config, e: Event, t: Talkgroup) {
    && e.Uplink? && e.p25 != c.disconnect && t !in c.statics
    && t == if e.p25 in c.p25ToBrew then c.p25ToBrew[e.p25] else e.p25
  }

  /** The event takes away a dynamic group last active at `since`. */
  predicate Ends(c: Config, e: Event, t: Talkgroup, since: Seconds) {
    match e
    case Expire(now) => now - since > c.dynamicTimeout
    case DisconnectTalkgroup => true
    case Reload(section) => ValidSection(section) && exists i :: 0 <= i < |section.statics| && section.statics[i] == t
    case _ => false
  }

  function UplinkTime(e: Event): Seconds { if e.Uplink? then e.now else 0.0 }

  lemma StepDynamic(b: Bridge, e: Event, b': Bridge, t: Talkgroup)
    requires Step(b, e, b')
    ensures Get(b'.dynamic, t) ==
            if Activates(b.config, e, t) then Some(UplinkTime(e))
            else if t in b.dynamic && Ends(b.config, e, t, b.dynamic[t]) then None
            else Get(b.dynamic, t)
  {
    hide Connected, Refreshed, Learned, Forgotten, ValidSection, ValidConfig, Forward, Backward;
    match e {
      case Connect => SameRoutes(b, e, b');
      case Refresh(_) => SameRoutes(b, e, b');
      case Learn(_, _) => SameRoutes(b, e, b');
      case Forget(_) => SameRoutes(b, e, b');
      case ResetLearned => SameRoutes(b, e, b');
      case _ =>
    }
  }

  lemma SameRoutes(b: Bridge, e: Event, b': Bridge)
    requires Step(b, e, b') && (e.Connect? || e.Refresh? || e.Learn? || e.Forget? || e.ResetLearned?)
    ensures b'.dynamic == b.dynamic && b'.config == b.config && b'.anchors == b.anchors
  {
  }

  /** What a step does to the radios and the link. */
  lemma StepRadios(b: Bridge, e: Event, b': Bridge)
    requires Step(b, e, b')
    ensures b'.anchors == b.anchors
    ensures b'.issis == match e
                        case Learn(issi, _) => if 1 <= issi <= 0xFFFFFF then b.issis + {issi} else b.issis
                        case Forget(issi) => if issi in b.anchors then b.issis else b.issis - {issi}
                        case ResetLearned => b.issis * b.anchors
                        case _ => b.issis
    ensures b'.link == match e
                       case Connect => Up
                       case Disconnect => Down
                       case Break => if b.link.Up? then Broken else b.link
                       case _ => b.link
  {
  }

  /** Event `u` is the latest that opened or refreshed the group before `k`, and nothing since has ended it. */
  ghost predicate ActiveSince(states: seq<Bridge>, events: seq<Event>, u: nat, k: nat, t: Talkgroup)
    requires IsRun(states, events)
  {
    && u < k <= |events| && Activates(states[u].config, events[u], t)
    && forall j :: u < j < k ==> !Activates(states[j].config, events[j], t) && !Ends(states[j].config, events[j], t, UplinkTime(events[u]))
  }

  /** The group was there from the start, and nothing has refreshed or ended it. */
  ghost predicate ActiveFromStart(states: seq<Bridge>, events: seq<Event>, k: nat, t: Talkgroup)
    requires IsRun(states, events)
  {
    && k <= |events| && t in states[0].dynamic
    && forall j :: 0 <= j < k ==> !Activates(states[j].config, events[j], t) && !Ends(states[j].config, events[j], t, states[0].dynamic[t])
  }

  /**
   * In every run, a group is dynamic if and only if RF activity opened it, or it was restored at the start, and since
   * its latest activity no expiry has found that out of time, no disconnect and no reload that makes it static has come.
   * Its time is that of its latest activity.
   */
  lemma {:induction false} DynamicIff(states: seq<Bridge>, events: seq<Event>, k: nat, t: Talkgroup)
    requires IsRun(states, events) && k <= |events|
    ensures t in states[k].dynamic <==>
            ActiveFromStart(states, events, k, t) || exists u: nat :: ActiveSince(states, events, u, k, t)
    ensures ActiveFromStart(states, events, k, t) ==> Get(states[k].dynamic, t) == Some(states[0].dynamic[t])
    ensures forall u: nat :: ActiveSince(states, events, u, k, t) ==> Get(states[k].dynamic, t) == Some(UplinkTime(events[u]))
  {
    hide Step, Activates, Ends;
    if k > 0 {
      DynamicIff(states, events, k - 1, t);
      StepDynamic(states[k - 1], events[k - 1], states[k], t);
      forall u: nat | ActiveSince(states, events, u, k, t) ensures Get(states[k].dynamic, t) == Some(UplinkTime(events[u])) {
        if u < k - 1 { assert ActiveSince(states, events, u, k - 1, t); }
      }
      if ActiveFromStart(states, events, k, t) { assert ActiveFromStart(states, events, k - 1, t); }
      if t in states[k].dynamic { StillActive(states, events, k, t); }
    }
  }

  lemma StillActive(states: seq<Bridge>, events: seq<Event>, k: nat, t: Talkgroup)
    requires IsRun(states, events) && 0 < k <= |events| && t in states[k].dynamic
    requires t in states[k - 1].dynamic ==>
               || (ActiveFromStart(states, events, k - 1, t) && states[k - 1].dynamic[t] == states[0].dynamic[t])
               || exists u: nat :: ActiveSince(states, events, u, k - 1, t) && states[k - 1].dynamic[t] == UplinkTime(events[u])
    ensures ActiveFromStart(states, events, k, t) || exists u: nat :: ActiveSince(states, events, u, k, t)
  {
    hide Step, Activates, Ends;
    StepDynamic(states[k - 1], events[k - 1], states[k], t);
    if Activates(states[k - 1].config, events[k - 1], t) {
      assert ActiveSince(states, events, k - 1, k, t);
    } else if !ActiveFromStart(states, events, k - 1, t) {
      var u: nat :| ActiveSince(states, events, u, k - 1, t) && states[k - 1].dynamic[t] == UplinkTime(events[u]);
      assert ActiveSince(states, events, u, k, t);
    }
  }

  /** All numbers of the section are groups of 24 bits, and no group is listed twice on either side. */
  predicate Usable(s: RoutingSection) {
    && 1 <= s.disconnect <= 0xFFFFFF && (forall t :: t in s.statics ==> 1 <= t <= 0xFFFFFF)
    && (forall i :: 0 <= i < |s.mappings| ==> 1 <= s.mappings[i].0 <= 0xFFFFFF && 1 <= s.mappings[i].1 <= 0xFFFFFF)
    && forall i, j :: 0 <= i < |s.mappings| && 0 <= j < |s.mappings| && i != j ==>
         s.mappings[i].0 != s.mappings[j].0 && s.mappings[i].1 != s.mappings[j].1
  }

  lemma UsableIsValid(s: RoutingSection)
    ensures Usable(s) <==> ValidSection(s)
  {
    if Usable(s) { assert forall i :: 0 <= i < |s.statics| ==> s.statics[i] in s.statics; }
  }

  /**
   * After a valid reload calls are routed as the section lists them, both ways, and its static groups, timeout and
   * disconnect group are in effect; an invalid one leaves all of it as it was.
   */
  lemma ReloadRoutesAsListed(b: Bridge, s: RoutingSection, b': Bridge)
    requires Step(b, Reload(s), b')
    ensures !Usable(s) ==> b' == b
    ensures Usable(s) ==>
              var c := b'.config;
              && (forall i :: 0 <= i < |s.mappings| ==>
                    && (s.mappings[i].0 != s.disconnect ==> BrewForP25(c, s.mappings[i].0) == Some(s.mappings[i].1))
                    && (s.mappings[i].1 in Groups(b') ==> P25ForBrew(c, b'.dynamic, s.mappings[i].1) == Some(s.mappings[i].0)))
              && (forall p :: p != s.disconnect && (forall i :: 0 <= i < |s.mappings| ==> s.mappings[i].0 != p) ==> BrewForP25(c, p) == Some(p))
              && BrewForP25(c, s.disconnect) == None
              && (forall t :: t in c.statics <==> t in s.statics)
              && c.disconnect == s.disconnect && c.dynamicTimeout == if s.timeout < 10 then 10.0 else s.timeout as real
  {
    UsableIsValid(s);
    hide Forward, Backward, Usable;
    if ValidSection(s) {
      TablesOfValid(s.mappings);
      forall p | p in Forward(s.mappings) ensures exists i :: 0 <= i < |s.mappings| && s.mappings[i].0 == p {
        TablesHave(s.mappings, p);
      }
      forall i | 0 <= i < |s.mappings|
        ensures Get(Forward(s.mappings), s.mappings[i].0) == Some(s.mappings[i].1) && Get(Backward(s.mappings), s.mappings[i].1) == Some(s.mappings[i].0)
      {
        assert (s.mappings[i].0, s.mappings[i].1) in s.mappings;
      }
    }
  }

  /** Without disjointness a drop would break the mirror: the server loses a group that is still static. */
  lemma OverlapWouldBreakMirror()
    ensures exists b: Bridge :: Mirrored(b) && !Disjoint(b) && !Mirrored(Dropped(b, b.dynamic.Keys))
  {
    var c := Config(map[], map[], {91}, 600.0, 4000);
    var b := Bridge(c, map[91 := 0.0], {1}, {}, Up, map[1 := {91}]);
    var b' := Dropped(b, b.dynamic.Keys);
    assert 91 in b.dynamic.Keys;
    assert b'.server[1] == {} && 91 in Groups(b');
  }

  // ------------------------------------------------------------------ the bridge as an object

  class BrewAudioBridge {
    var config: Config
    var dynamic: map<Talkgroup, Seconds>
    var localIssis: set<Issi>
    var anchors: set<Issi>
    var link: Link
    ghost var server: Server

    ghost function View(): Bridge
      reads this
    {
      Bridge(config, dynamic, localIssis, anchors, link, server)
    }

    constructor (config: Config, saved: seq<SavedRoute>, nowEpoch: Seconds, localIssis: set<Issi>, anchors: set<Issi>)
      ensures View() == Started(config, saved, nowEpoch, localIssis, anchors)
    {
      this.config, this.dynamic, this.localIssis, this.anchors := config, map[], localIssis, anchors;
      this.link, this.server := Down, map[];
      new;
      LoadDynamicRoutes(saved, nowEpoch);
    }

    /** load_dynamic_routes, over the lines that parse. */
    method LoadDynamicRoutes(saved: seq<SavedRoute>, nowEpoch: Seconds)
      requires dynamic == map[]
      modifies this`dynamic
      ensures dynamic == LoadedRoutes(config, saved, nowEpoch)
    {
      hide Restorable, Age;
      var i := 0;
      while i < |saved|
        invariant 0 <= i <= |saved| && dynamic == LoadedRoutes(config, saved[..i], nowEpoch)
      {
        assert saved[..i + 1][..i] == saved[..i];
        Restore(saved[i], nowEpoch);
        i := i + 1;
      }
      assert saved[..i] == saved;
    }

    /** restore, with the range test of its caller. */
    method Restore(saved: SavedRoute, nowEpoch: Seconds)
      modifies this`dynamic
      ensures dynamic == if Restorable(config, saved, nowEpoch) then old(dynamic)[saved.talkgroup := saved.readAt - Age(saved, nowEpoch)]
                         else old(dynamic)
    {
      if !In24Bits(saved.talkgroup) { return; }
      var age := Age(saved, nowEpoch);
      if age >= config.dynamicTimeout || saved.talkgroup in config.statics { return; }
      dynamic := dynamic[saved.talkgroup := saved.readAt - age];
    }

    /** BrewTransport.send: the server reads the message when the link works. */
    method Send(message: Message) returns (ok: bool)
      modifies this`server
      ensures ok == link.Up?
      ensures server == if link.Up? then Receive(old(server), message) else old(server)
    {
      if link.Up? {
        server := Receive(server, message);
      }
      return link.Up?;
    }

    method SendRegister(who: set<Issi>, again: bool)
      modifies this`server
      ensures View() == Arrives(old(View()), Registered(old(server), who))
    {
      hide Receive, Added, Removed, Registered;
      ghost var before := server;
      var todo, done := who, {};
      NoneYet(server, who, {});
      while todo != {}
        invariant who == done + todo && done !! todo
        invariant View() == Arrives(old(View()), Registered(before, done))
        decreases |todo|
      {
        ghost var _ := SomeMember(todo);
        var i: Issi :| i in todo;
        OneMore(before, done, i, {});
        var _ := Send(if again then Reregister(i) else Register(i));
        todo, done := todo - {i}, done + {i};
      }
      assert done == who;
    }

    method SendAffiliate(who: set<Issi>, groups: set<Talkgroup>)
      modifies this`server
      ensures View() == Arrives(old(View()), Added(old(server), who, groups))
    {
      hide Receive, Added, Removed, Registered;
      ghost var before := server;
      var todo, done := who, {};
      NoneYet(server, who, groups);
      while todo != {}
        invariant who == done + todo && done !! todo
        invariant View() == Arrives(old(View()), Added(before, done, groups))
        decreases |todo|
      {
        ghost var _ := SomeMember(todo);
        var i: Issi :| i in todo;
        OneMore(before, done, i, groups);
        var _ := Send(Affiliate(i, groups));
        todo, done := todo - {i}, done + {i};
      }
      assert done == who;
    }

    method SendDeaffiliate(who: set<Issi>, groups: set<Talkgroup>)
      modifies this`server
      ensures View() == Arrives(old(View()), Removed(old(server), who, groups))
    {
      hide Receive, Added, Removed, Registered;
      ghost var before := server;
      var todo, done := who, {};
      NoneYet(server, who, groups);
      while todo != {}
        invariant who == done + todo && done !! todo
        invariant View() == Arrives(old(View()), Removed(before, done, groups))
        decreases |todo|
      {
        ghost var _ := SomeMember(todo);
        var i: Issi :| i in todo;
        OneMore(before, done, i, groups);
        var _ := Send(Deaffiliate(i, groups));
        todo, done := todo - {i}, done + {i};
      }
      assert done == who;
    }

    /** _on_brew_connected: all registrations first, then all affiliations. */
    method OnConnected()
      requires link.Down?
      modifies this
      ensures View() == Connected(old(View()))
    {
      link := Up;
      server := map[];
      var groups := config.statics + dynamic.Keys;
      SendRegister(localIssis, false);
      SendAffiliate(localIssis, groups);
    }

    /** _refresh_brew_subscribers */
    method RefreshSubscribers(requested: Option<set<Issi>>)
      requires Consistent(View())
      modifies this
      ensures View() == Refreshed(old(View()), if requested.Some? then localIssis * requested.value else localIssis)
    {
      hide Consistent;
      if link.Down? { return; }
      var who := if requested.Some? then localIssis * requested.value else localIssis;
      if who == {} {
        RefreshedConsistent(View(), who);
        return;
      }
      var groups := config.statics + dynamic.Keys;
      SendRegister(who, true);
      if groups != {} {
        SendAffiliate(who, groups);
      } else {
        NoneYet(server, who, {});
      }
    }

    /** _ensure_local_issi */
    method EnsureLocalIssi(issi: Issi, refreshExisting: bool)
      requires Consistent(View())
      modifies this
      ensures View() == Learned(old(View()), issi, refreshExisting)
    {
      if !In24Bits(issi) { return; }
      if issi in localIssis {
        if refreshExisting {
          assert localIssis * {issi} == {issi};
          RefreshSubscribers(Some({issi}));
        }
        return;
      }
      localIssis := localIssis + {issi};
      if !link.Down? {
        var groups := config.statics + dynamic.Keys;
        SendRegister({issi}, false);
        SendAffiliate({issi}, groups);
      }
    }

    /** _remove_local_issi; anchors stay. */
    method RemoveLocalIssi(issi: Issi)
      requires Consistent(View())
      modifies this
      ensures View() == Forgotten(old(View()), {issi})
    {
      ghost var before := View();
      if issi in anchors || issi !in localIssis {
        assert localIssis * {issi} - anchors == {};
        ForgetNone(View());
        return;
      }
      assert localIssis * {issi} - anchors == {issi};
      localIssis := localIssis - {issi};
      if !link.Down? {
        var groups := config.statics + dynamic.Keys;
        var _ := Send(Deaffiliate(issi, groups));
        var _ := Send(Deregister(issi));
        assert link.Up? ==> server == before.server - {issi};
      }
    }

    /** _reset_local_ars_issis */
    method ResetLocalIssis()
      requires Consistent(View())
      modifies this
      ensures View() == Forgotten(old(View()), old(localIssis))
      ensures Consistent(View())
    {
      hide Forgotten;
      ghost var before := View();
      var removable := localIssis - anchors;
      var todo, done := removable, {};
      ForgetNone(before);
      while todo != {}
        invariant removable == done + todo && done !! todo
        invariant View() == Forgotten(before, done) && Consistent(View())
        decreases |todo|
      {
        ghost var _ := SomeMember(todo);
        var i: Issi :| i in todo;
        ForgottenOneMore(before, done, i);
        ForgottenConsistent(View(), {i});
        RemoveLocalIssi(i);
        todo, done := todo - {i}, done + {i};
      }
      assert done == removable;
      ForgetAnchors(before);
    }

    /** The routing part of _begin_uplink. */
    method BeginUplink(p25: Talkgroup, now: Seconds)
      modifies this
      ensures View() == UplinkStarted(old(View()), p25, now)
    {
      if p25 == config.disconnect { return; }
      var brew := if p25 in config.p25ToBrew then config.p25ToBrew[p25] else p25;
      var created := false;
      if brew !in config.statics {
        created := brew !in dynamic;
        dynamic := dynamic[brew := now];
      }
      if brew in dynamic && created {
        SendAffiliation(true, {brew});
      }
    }

    /** _send_affiliation */
    method SendAffiliation(add: bool, groups: set<Talkgroup>)
      modifies this`server
      ensures View() == Arrives(old(View()), if add then Added(old(server), localIssis, groups) else Removed(old(server), localIssis, groups))
    {
      if groups == {} || link.Down? {
        NoneYet(server, localIssis, groups);
        return;
      }
      if add { SendAffiliate(localIssis, groups); } else { SendDeaffiliate(localIssis, groups); }
    }

    /** The expiry half of _routing_loop: collect, pop one by one, then tell the server. */
    method ExpireRoutes(now: Seconds)
      modifies this
      ensures View() == Dropped(old(View()), Idle(old(dynamic), old(config.dynamicTimeout), now))
    {
      var expired := set t | t in dynamic && now - dynamic[t] > config.dynamicTimeout;
      var todo := expired;
      while todo != {}
        invariant todo <= expired
        invariant dynamic == old(dynamic) - (expired - todo)
        invariant View() == old(View()).(dynamic := dynamic)
        decreases |todo|
      {
        ghost var _ := SomeMember(todo);
        var t: Talkgroup :| t in todo;
        dynamic := dynamic - {t};
        todo := todo - {t};
      }
      assert expired - todo == expired;
      SendAffiliation(false, expired);
    }

    /** _clear_dynamic_routes, on the disconnect talkgroup. */
    method ClearDynamicRoutes()
      modifies this
      ensures View() == Dropped(old(View()), old(dynamic.Keys))
    {
      var cleared := dynamic.Keys;
      dynamic := map[];
      assert old(dynamic) - cleared == map[];
      SendAffiliation(false, cleared);
    }

    /** The groups of the new configuration that were dynamic so far go, one by one. */
    method DropStaticRoutes()
      modifies this`dynamic
      ensures dynamic == old(dynamic) - config.statics
    {
      var todo := dynamic.Keys;
      while todo != {}
        invariant todo <= old(dynamic).Keys
        invariant dynamic == map t | t in old(dynamic) && (t in todo || t !in config.statics) :: old(dynamic)[t]
        decreases |todo|
      {
        ghost var _ := SomeMember(todo);
        var t: Talkgroup :| t in todo;
        todo := todo - {t};
        if t in config.statics {
          dynamic := dynamic - {t};
        }
      }
    }

    /** _reload_routing_if_changed; an invalid section changes nothing. */
    method ReloadRouting(section: RoutingSection) returns (ok: bool)
      modifies this
      ensures ok <==> ValidSection(section)
      ensures View() == if ok then Reloaded(old(View()), SectionConfig(section)) else old(View())
    {
      hide Added, Removed, Reloaded, Forward, Backward, ValidMappings, Arrives;
      var tables := ParseMappings(section.mappings);
      if tables.None? { return false; }
      if (exists i :: 0 <= i < |section.statics| && !In24Bits(section.statics[i])) || !In24Bits(section.disconnect) {
        return false;
      }
      ghost var b := View();
      var oldGroups := config.statics + dynamic.Keys;
      config := SectionConfig(section);
      DropStaticRoutes();
      ghost var b1 := View();
      var newGroups := config.statics + dynamic.Keys;
      SendAffiliation(false, oldGroups - newGroups);
      ghost var b2 := View();
      SendAffiliation(true, newGroups - oldGroups);
      ReloadedIs(b, config, b1, b2, View());
      return true;
    }
  }

  lemma ReloadedIs(b: Bridge, c: Config, b1: Bridge, b2: Bridge, b3: Bridge)
    requires b1 == b.(config := c, dynamic := b.dynamic - c.statics)
    requires b2 == Arrives(b1, Removed(b1.server, b1.issis, Groups(b) - Groups(b1)))
    requires b3 == Arrives(b2, Added(b2.server, b2.issis, Groups(b1) - Groups(b)))
    ensures b3 == Reloaded(b, c)
  {
    hide Added, Removed;
  }

  lemma ForgetNone(b: Bridge)
    ensures Forgotten(b, {}) == b
  {
    assert (b.issis * {}) - b.anchors == {};
    assert b.issis - {} == b.issis && b.server - {} == b.server;
  }

  lemma ForgetAnchors(b: Bridge)
    ensures Forgotten(b, b.issis - b.anchors) == Forgotten(b, b.issis)
  {
    assert (b.issis * (b.issis - b.anchors)) - b.anchors == (b.issis * b.issis) - b.anchors;
  }

  lemma ForgottenOneMore(b: Bridge, who: set<Issi>, i: Issi)
    requires Consistent(b) && i !in who
    ensures Forgotten(Forgotten(b, who), {i}) == Forgotten(b, who + {i})
  {
    var b1 := Forgotten(b, who);
    var b2 := Forgotten(b1, {i});
    var b3 := Forgotten(b, who + {i});
    assert b2.issis == b3.issis;
    assert b2.server == b3.server;
  }
}
