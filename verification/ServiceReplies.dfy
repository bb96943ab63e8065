/**
 * Replies from service numbers: deploy/scripts/tetrapack_brew_bridge.py leaves a route file per
 * request, and src/SmsSubsystem.cpp sends each reply to the requester of the first live route,
 * consuming it, while dropping repeated replies within a minute.
 */
module ServiceReplies {
  import opened Common
  import opened Decimal
  import Ipv4Udp
  import TmsText

  type uint64 = x: int | 0 <= x < 0x1_0000_0000_0000_0000

  const ROUTE_MAX_AGE_MS := 900_000
  const DUPLICATE_WINDOW_MS := 60_000

  // ------------------------------------------------------------------ names

  /** Order of file names, byte by byte. */
  predicate Less(a: string, b: string) {
    if b == [] then false
    else if a == [] then true
    else a[0] < b[0] || (a[0] == b[0] && Less(a[1..], b[1..]))
  }

  lemma {:induction false} LessTotal(a: string, b: string)
    ensures (if a == b then 1 else 0) + (if Less(a, b) then 1 else 0) + (if Less(b, a) then 1 else 0) == 1
  {
    if a != [] && b != [] && a[0] == b[0] {
      LessTotal(a[1..], b[1..]);
      assert a == b <==> a[1..] == b[1..] by { assert a == [a[0]] + a[1..] && b == [b[0]] + b[1..]; }
    }
  }

  lemma {:induction false} LessTransitive(a: string, b: string, c: string)
    requires Less(a, b) && Less(b, c)
    ensures Less(a, c)
  {
    if a != [] && a[0] == b[0] == c[0] { LessTransitive(a[1..], b[1..], c[1..]); }
  }

  lemma {:induction false} LessBehind(p: string, a: string, b: string)
    ensures Less(p + a, p + b) <==> Less(a, b)
  {
    if p == [] {
      assert p + a == a && p + b == b;
    } else {
      LessBehind(p[1..], a, b);
      assert (p + a)[1..] == p[1..] + a && (p + b)[1..] == p[1..] + b;
    }
  }

  function Zeroes(n: nat): (s: string)
    ensures |s| == n
  {
    seq(n, _ => '0')
  }

  /** A number in at least `width` digits, as the format "013d" gives it for 13. */
  function PaddedNumeral(n: nat, width: nat): string {
    if |Numeral(n)| >= width then Numeral(n) else Zeroes(width - |Numeral(n)|) + Numeral(n)
  }

  /** The last `width` digits of `n`. */
  function Digits(n: nat, width: nat): (s: string)
    ensures |s| == width
  {
    if width == 0 then "" else Digits(n / 10, width - 1) + [DigitChar(n % 10)]
  }

  lemma {:induction false} DigitsOfZero(width: nat)
    ensures Digits(0, width) == Zeroes(width)
  {
    if width > 0 { DigitsOfZero(width - 1); }
  }

  lemma {:induction false} PaddedIsDigits(n: nat, width: nat)
    requires width > 0 && n < Pow10(width)
    ensures PaddedNumeral(n, width) == Digits(n, width)
  {
    if n < 10 {
      DigitsOfZero(width - 1);
      assert Numeral(n) == [DigitChar(n)];
    } else {
      PaddedIsDigits(n / 10, width - 1);
      assert Numeral(n) == Numeral(n / 10) + [DigitChar(n % 10)];
      PaddedAppend(Numeral(n / 10), DigitChar(n % 10), width - 1);
    }
  }

  lemma PaddedAppend(x: string, c: char, width: nat)
    ensures |x| < width ==> Zeroes(width - |x|) + x + [c] == Zeroes(width - |x|) + (x + [c])
  {
  }

  /** Digit strings of one width sort like the numbers, whatever follows them. */
  lemma {:induction false} DigitsSort(n: nat, m: nat, width: nat, x: string, y: string)
    requires n < m < Pow10(width)
    ensures Less(Digits(n, width) + x, Digits(m, width) + y)
  {
    var a, b := [DigitChar(n % 10)] + x, [DigitChar(m % 10)] + y;
    assert Digits(n, width) + x == Digits(n / 10, width - 1) + a;
    assert Digits(m, width) + y == Digits(m / 10, width - 1) + b;
    if n / 10 < m / 10 {
      DigitsSort(n / 10, m / 10, width - 1, a, b);
    } else {
      LessBehind(Digits(n / 10, width - 1), a, b);
    }
  }

  /** The file name of a route: creation time first, in 13 digits. */
  function RouteName(createdMs: nat, service: uint32, requester: uint32, unique: string): string {
    PaddedNumeral(createdMs, 13) + "-" + Numeral(service) + "-" + Numeral(requester) + "-" + unique + ".json"
  }

  /** Route names sort by creation time, for any time of at most 13 digits (until the year 2286). */
  lemma NamesSortByCreation(c1: nat, s1: uint32, r1: uint32, u1: string, c2: nat, s2: uint32, r2: uint32, u2: string)
    requires c1 < c2 < Pow10(13)
    ensures Less(RouteName(c1, s1, r1, u1), RouteName(c2, s2, r2, u2))
  {
    hide PaddedNumeral, Pow10, Digits, Less;
    PaddedIsDigits(c1, 13);
    PaddedIsDigits(c2, 13);
    var x := "-" + Numeral(s1) + "-" + Numeral(r1) + "-" + u1 + ".json";
    var y := "-" + Numeral(s2) + "-" + Numeral(r2) + "-" + u2 + ".json";
    assert RouteName(c1, s1, r1, u1) == Digits(c1, 13) + x;
    assert RouteName(c2, s2, r2, u2) == Digits(c2, 13) + y;
    DigitsSort(c1, c2, 13, x, y);
  }

  // ------------------------------------------------------------------ routes

  datatype Rids = Rids(service: uint32, requester: uint32)

  /** A route file's fields; one that does not load, or whose times do not convert, is unreadable. */
  datatype RouteFile =
    | RouteFile(createdAt: Option<uint64>, expiresAt: Option<uint64>, rids: Option<Rids>)
    | Unreadable

  /** The route directory: its regular .json files by name. */
  type Directory = map<string, RouteFile>

  function Expiry(f: RouteFile): uint64
    requires f.RouteFile?
  {
    var created := if f.createdAt.Some? then f.createdAt.value else 0;
    match f.expiresAt
    case Some(t) => t
    case None => if created > 0 then (created + ROUTE_MAX_AGE_MS) % 0x1_0000_0000_0000_0000 else 0
  }

  predicate Expired(f: RouteFile, nowMs: uint64) { f.RouteFile? && (Expiry(f) == 0 || Expiry(f) <= nowMs) }

  /** A live route for the service. */
  predicate Matches(f: RouteFile, service: uint32, nowMs: uint64) {
    f.RouteFile? && !Expired(f, nowMs) && f.rids.Some? && f.rids.value.service == service && f.rids.value.requester != 0
  }

  /**
   * How long a route file with usable radios is live: up to the time it names, or without one for fifteen minutes from its
   * creation, or not at all if it names neither or a zero.
   */
  lemma RouteLifetime(created: uint64, expires: uint64, rids: Rids, nowMs: uint64)
    requires rids.requester != 0
    ensures Matches(RouteFile(Some(created), Some(expires), Some(rids)), rids.service, nowMs) <==> nowMs < expires
    ensures 0 < created < 0x1_0000_0000_0000_0000 - 900_000 ==>
              (Matches(RouteFile(Some(created), None, Some(rids)), rids.service, nowMs) <==> nowMs < created + 900_000)
    ensures !Matches(RouteFile(None, None, Some(rids)), rids.service, nowMs) && !Matches(RouteFile(Some(0), None, Some(rids)), rids.service, nowMs)
    ensures !Matches(RouteFile(Some(created), Some(expires), None), rids.service, nowMs)
    ensures forall other :: Matches(RouteFile(Some(created), Some(expires), Some(rids)), other, nowMs) ==> other == rids.service
  {
  }

  ghost predicate IsFirstMatch(files: Directory, service: uint32, nowMs: uint64, name: string) {
    && name in files && Matches(files[name], service, nowMs)
    && forall other :: other in files && other != name && Matches(files[other], service, nowMs) ==> Less(name, other)
  }

  /** The first live route for the service, in file-name order. */
  ghost function FirstMatch(files: Directory, service: uint32, nowMs: uint64): (r: Option<string>)
    ensures r.Some? ==> IsFirstMatch(files, service, nowMs, r.value)
    ensures r.None? <==> forall name :: name !in files || !Matches(files[name], service, nowMs)
  {
    if exists name :: name in files && Matches(files[name], service, nowMs) then
      SomeFirstMatch(files, service, nowMs);
      var name :| IsFirstMatch(files, service, nowMs, name);
      Some(name)
    else None
  }

  /** The least match among some of the names. */
  ghost predicate LeastIn(names: set<string>, files: Directory, service: uint32, nowMs: uint64, name: string) {
    && name in names && name in files && Matches(files[name], service, nowMs)
    && forall other :: other in names && other in files && other != name && Matches(files[other], service, nowMs) ==> Less(name, other)
  }

  lemma {:induction false} LeastMatch(names: set<string>, files: Directory, service: uint32, nowMs: uint64) returns (r: Option<string>)
    ensures match r
            case Some(name) => LeastIn(names, files, service, nowMs, name)
            case None => forall n :: n in names && n in files ==> !Matches(files[n], service, nowMs)
    decreases |names|
  {
    hide Matches, Less;
    if names == {} { return None; }
    var n := SomeMember(names);
    var s := LeastMatch(names - {n}, files, service, nowMs);
    if n !in files || !Matches(files[n], service, nowMs) {
      r := s;
    } else if s.None? {
      r := Some(n);
    } else {
      LessTotal(n, s.value);
      r := if Less(n, s.value) then Some(n) else s;
      if Less(n, s.value) { BelowLeast(names - {n}, files, service, nowMs, n, s.value); }
    }
  }

  lemma BelowLeast(names: set<string>, files: Directory, service: uint32, nowMs: uint64, n: string, least: string)
    requires LeastIn(names, files, service, nowMs, least) && Less(n, least)
    ensures forall other :: other in names && other in files && Matches(files[other], service, nowMs) ==> Less(n, other)
  {
    hide Matches, Less;
    forall other | other in names && other in files && Matches(files[other], service, nowMs)
      ensures Less(n, other)
    {
      if other != least { LessTransitive(n, least, other); }
    }
  }

  lemma SomeFirstMatch(files: Directory, service: uint32, nowMs: uint64)
    requires exists name :: name in files && Matches(files[name], service, nowMs)
    ensures exists name :: IsFirstMatch(files, service, nowMs, name)
  {
    hide Matches, Less;
    var r := LeastMatch(files.Keys, files, service, nowMs);
    assert r.Some? && IsFirstMatch(files, service, nowMs, r.value);
  }

  lemma FirstMatchUnique(files: Directory, service: uint32, nowMs: uint64, name: string)
    requires IsFirstMatch(files, service, nowMs, name)
    ensures FirstMatch(files, service, nowMs) == Some(name)
  {
    hide Matches, Less;
    var first := FirstMatch(files, service, nowMs).value;
    LessTotal(first, name);
  }

  /** The directory after a scan: expired routes in front of the first match are removed, as far as they can be. */
  ghost function Swept(files: Directory, service: uint32, nowMs: uint64, stuck: set<string>): (swept: Directory)
    ensures forall n :: n in swept ==> n in files && swept[n] == files[n]
    ensures forall n :: n in files && !Expired(files[n], nowMs) ==> n in swept
  {
    var first := FirstMatch(files, service, nowMs);
    map n | n in files && !(Expired(files[n], nowMs) && n !in stuck && (first.Some? ==> Less(n, first.value))) :: files[n]
  }

  // ------------------------------------------------------------------ replies

  datatype Reply = Reply(source: uint32, target: uint32, text: string)

  /** What a reply meets: both clocks, whether publishing succeeds, and the files that cannot be removed. */
  datatype Env = Env(nowMs: uint64, steadyMs: nat, published: bool, stuck: set<string>)

  datatype State = State(files: Directory, recent: map<string, nat>)

  /** What became of a reply: where it was queued to, and by which route. */
  datatype Outcome = Failed | Duplicate | Queued(target: uint32, route: Option<string>)

  function ReplyKey(r: Reply): string { Numeral(r.source) + ">" + Numeral(r.target) + ":" + r.text }

  /** The key under which replies are told apart tells them all apart. */
  lemma ReplyKeyInjective(r: Reply, s: Reply)
    requires ReplyKey(r) == ReplyKey(s)
    ensures r == s
  {
    var a, b := Numeral(r.target) + (":" + r.text), Numeral(s.target) + (":" + s.text);
    assert ReplyKey(r) == Numeral(r.source) + (">" + a) && ReplyKey(s) == Numeral(s.source) + (">" + b);
    NumeralPrefixUnique(r.source, s.source, ">" + a, ">" + b);
    assert a == (">" + a)[1..] == (">" + b)[1..] == b;
    NumeralPrefixUnique(r.target, s.target, ":" + r.text, ":" + s.text);
    assert r.text == (":" + r.text)[1..] == (":" + s.text)[1..] == s.text;
  }

  /** findServiceReplyRoute looks for routes only for a real source. */
  ghost function RouteFor(files: Directory, source: uint32, nowMs: uint64): (r: Option<string>)
    ensures r.Some? ==> IsFirstMatch(files, source, nowMs, r.value)
  {
    if source == 0 then None else FirstMatch(files, source, nowMs)
  }

  ghost function Scanned(files: Directory, source: uint32, nowMs: uint64, stuck: set<string>): (r: Directory)
    ensures forall n :: n in r ==> n in files && r[n] == files[n]
    ensures forall n :: n in files && !Expired(files[n], nowMs) ==> n in r
  {
    if source == 0 then files else Swept(files, source, nowMs, stuck)
  }

  function Remembered(recent: map<string, nat>, steadyMs: nat): map<string, nat> {
    map k | k in recent && steadyMs < recent[k] :: recent[k]
  }

  /** queueBrandmeisterText */
  ghost function Handled(st: State, r: Reply, env: Env): (State, Outcome) {
    var recent := Remembered(st.recent, env.steadyMs);
    if ReplyKey(r) in recent then (State(st.files, recent), Duplicate)
    else
      var route := RouteFor(st.files, r.source, env.nowMs);
      var files := Scanned(st.files, r.source, env.nowMs, env.stuck);
      var target := if route.Some? then st.files[route.value].rids.value.requester else r.target;
      if !env.published then (State(files, recent), Failed)
      else
        (State(if route.Some? && route.value !in env.stuck then files - {route.value} else files, recent[ReplyKey(r) := env.steadyMs + DUPLICATE_WINDOW_MS]),
         Queued(target, route))
  }

  // ------------------------------------------------------------------ the objects

  /** The directory both processes share. */
  class RouteDirectory {
    var files: Directory

    constructor ()
      ensures files == map[]
    {
      files := map[];
    }
  }

  ghost predicate SortedNames(paths: seq<string>) {
    forall i, j :: 0 <= i < j < |paths| ==> Less(paths[i], paths[j])
  }

  method Least(names: set<string>) returns (least: string)
    requires names != {}
    ensures least in names && forall n :: n in names && n != least ==> Less(least, n)
  {
    hide Less;
    ghost var _ := SomeMember(names);
    least :| least in names;
    var todo := names - {least};
    while todo != {}
      invariant todo <= names && least in names
      invariant forall n :: n in names && n !in todo && n != least ==> Less(least, n)
      decreases |todo|
    {
      ghost var _ := SomeMember(todo);
      var n :| n in todo;
      todo := todo - {n};
      LessTotal(n, least);
      if n != least && Less(n, least) {
        forall other | other in names && other !in todo && other != n
          ensures Less(n, other)
        {
          if other != least { LessTransitive(n, least, other); }
        }
        least := n;
      }
    }
  }

  /** std::sort over the names of the directory. */
  method Sorted(names: set<string>) returns (paths: seq<string>)
    ensures SortedNames(paths) && forall n :: n in names <==> n in paths
  {
    hide Less;
    paths := [];
    var todo := names;
    while todo != {}
      invariant todo <= names && SortedNames(paths)
      invariant forall n :: n in names <==> n in paths || n in todo
      invariant forall i, n :: 0 <= i < |paths| && n in todo ==> Less(paths[i], n)
      decreases |todo|
    {
      var n := Least(todo);
      todo := todo - {n};
      paths := paths + [n];
    }
  }

  /** What the scan has removed once it has passed over `passed`. */
  ghost function WithoutExpired(files: Directory, passed: seq<string>, nowMs: uint64, stuck: set<string>): Directory {
    map n | n in files && !(n in passed && Expired(files[n], nowMs) && n !in stuck) :: files[n]
  }

  lemma PassOver(files: Directory, passed: seq<string>, name: string, nowMs: uint64, stuck: set<string>)
    requires name in files && name !in passed
    ensures WithoutExpired(files, passed + [name], nowMs, stuck) ==
            if Expired(files[name], nowMs) && name !in stuck then WithoutExpired(files, passed, nowMs, stuck) - {name}
            else WithoutExpired(files, passed, nowMs, stuck)
  {
    hide Expired;
  }

  /** A match with no match before it in the sorted names is the first match, and the scan stopped there. */
  lemma StopAt(files: Directory, paths: seq<string>, i: nat, service: uint32, nowMs: uint64, stuck: set<string>)
    requires SortedNames(paths) && (forall n :: n in files <==> n in paths) && i < |paths|
    requires Matches(files[paths[i]], service, nowMs)
    requires forall j :: 0 <= j < i ==> !Matches(files[paths[j]], service, nowMs)
    ensures FirstMatch(files, service, nowMs) == Some(paths[i])
    ensures WithoutExpired(files, paths[..i], nowMs, stuck) == Swept(files, service, nowMs, stuck)
  {
    hide Matches, Expired, Less;
    forall other | other in files && other != paths[i] && Matches(files[other], service, nowMs)
      ensures Less(paths[i], other)
    {
      var k :| 0 <= k < |paths| && paths[k] == other;
    }
    FirstMatchUnique(files, service, nowMs, paths[i]);
    forall n | n in files
      ensures n in paths[..i] <==> Less(n, paths[i])
    {
      var k :| 0 <= k < |paths| && paths[k] == n;
      LessTotal(n, paths[i]);
      if k < i { assert paths[..i][k] == n; }
      if n in paths[..i] { var m :| 0 <= m < i && paths[..i][m] == n; assert paths[m] == n; }
    }
  }

  lemma NoStop(files: Directory, paths: seq<string>, service: uint32, nowMs: uint64, stuck: set<string>)
    requires forall n :: n in files <==> n in paths
    requires forall j :: 0 <= j < |paths| ==> !Matches(files[paths[j]], service, nowMs)
    ensures FirstMatch(files, service, nowMs) == None
    ensures WithoutExpired(files, paths, nowMs, stuck) == Swept(files, service, nowMs, stuck)
  {
    hide Matches, Expired, Less;
    forall n | n in files
      ensures !Matches(files[n], service, nowMs)
    {
      var k :| 0 <= k < |paths| && paths[k] == n;
    }
  }

  class SmsSubsystem {
    const routes: RouteDirectory
    var recentReplies: map<string, nat>

    ghost function View(): State
      reads this, routes
    {
      State(routes.files, recentReplies)
    }

    constructor (routes: RouteDirectory)
      ensures this.routes == routes && recentReplies == map[]
    {
      this.routes, recentReplies := routes, map[];
    }

    /** findServiceReplyRoute: removes the expired routes it passes on its way to the first match. */
    method FindServiceReplyRoute(service: uint32, nowMs: uint64, stuck: set<string>) returns (found: Option<string>)
      modifies routes
      ensures routes.files == Scanned(old(routes.files), service, nowMs, stuck)
      ensures found == RouteFor(old(routes.files), service, nowMs)
    {
      hide Less, Matches, Expired, FirstMatch, Swept, WithoutExpired;
      if service == 0 { return None; }
      var files := routes.files;
      var paths := Sorted(files.Keys);
      NothingPassed(files, nowMs, stuck);
      var i := 0;
      while i < |paths|
        invariant 0 <= i <= |paths|
        invariant routes.files == WithoutExpired(files, paths[..i], nowMs, stuck)
        invariant forall j :: 0 <= j < i ==> !Matches(files[paths[j]], service, nowMs)
      {
        var path := paths[i];
        assert path in files;
        SortedIsFresh(paths, i);
        PassOver(files, paths[..i], path, nowMs, stuck);
        assert paths[..i + 1] == paths[..i] + [path];
        ExpiredDoesNotMatch(files[path], service, nowMs);
        if Expired(files[path], nowMs) {
          if path !in stuck { routes.files := routes.files - {path}; }
        } else if Matches(files[path], service, nowMs) {
          StopAt(files, paths, i, service, nowMs, stuck);
          return Some(path);
        }
        i := i + 1;
      }
      assert paths[..i] == paths;
      NoStop(files, paths, service, nowMs, stuck);
      return None;
    }

    method ForgetOld(steadyMs: nat)
      modifies this
      ensures recentReplies == Remembered(old(recentReplies), steadyMs)
    {
      ghost var before := recentReplies;
      var todo := recentReplies.Keys;
      while todo != {}
        invariant todo <= recentReplies.Keys <= before.Keys
        invariant forall k :: k in recentReplies ==> recentReplies[k] == before[k] && (k in todo || steadyMs < before[k])
        invariant forall k :: k in before && steadyMs < before[k] ==> k in recentReplies
        decreases |todo|
      {
        ghost var _ := SomeMember(todo);
        var k :| k in todo;
        todo := todo - {k};
        if steadyMs >= recentReplies[k] { recentReplies := recentReplies - {k}; }
      }
    }

    /** queueBrandmeisterText */
    method QueueBrandmeisterText(r: Reply, env: Env) returns (outcome: Outcome)
      modifies this, routes
      ensures (View(), outcome) == Handled(old(View()), r, env)
    {
      hide FirstMatch, Swept, ReplyKey;
      ForgetOld(env.steadyMs);
      var key := ReplyKey(r);
      if key in recentReplies && env.steadyMs < recentReplies[key] { return Duplicate; }
      var files := routes.files;
      var route := FindServiceReplyRoute(r.source, env.nowMs, env.stuck);
      var target := if route.Some? then files[route.value].rids.value.requester else r.target;
      if !env.published { return Failed; }
      if route.Some? && route.value !in env.stuck { routes.files := routes.files - {route.value}; }
      recentReplies := recentReplies[key := env.steadyMs + DUPLICATE_WINDOW_MS];
      return Queued(target, route);
    }

    /**
     * handleBrandmeisterPacketData: a message is queued and, unless that failed, acknowledged if its
     * header was understood - a duplicate too; a control response is consumed; anything else is refused.
     */
    method HandleBrandmeisterPacketData(source: uint32, target: uint32, packet: seq<byte>, env: Env, utf8: TmsText.Text -> string)
      returns (ok: bool, acknowledgement: Option<seq<byte>>)
      modifies this, routes
      ensures match TmsText.Handle(packet)
              case Message(text, parsed, sourcePort, targetPort) =>
                var (st, outcome) := Handled(old(View()), Reply(source, target, utf8(text)), env);
                && View() == st && ok == !outcome.Failed?
                && acknowledgement == if outcome.Failed? || parsed.None? then None
                                      else Some(TmsText.AckPacket(packet, sourcePort, targetPort, parsed.value.operation, parsed.value.messageId))
              case h => View() == old(View()) && acknowledgement == None && ok == h.Control?
    {
      hide Handled, Ipv4Udp.ParsePacket, TmsText.ParseTms, TmsText.ExtractedText, TmsText.Trim, TmsText.AckPacket;
      ok, acknowledgement := false, None;
      var parsedPacket := Ipv4Udp.ParsePacket(packet);
      if parsedPacket.None? { return; }
      var view := parsedPacket.value;
      var payload := view.payload;
      if |payload| >= 3 && payload[2] % 0x20 == 0x1F { return true, None; }
      var parsed := TmsText.ParseMotorolaTms(payload);
      var text: TmsText.Text := [];
      if parsed.Some? { text := if parsed.value.text != [] then parsed.value.text else parsed.value.fragment; }
      if text == [] { text := TmsText.ExtractText(payload); }
      text := TmsText.Trim(text);
      if text == [] { return; }
      var outcome := QueueBrandmeisterText(Reply(source, target, utf8(text)), env);
      if outcome.Failed? { return; }
      ok := true;
      if parsed.Some? {
        acknowledgement := Some(TmsText.AckPacket(packet, view.sourcePort, view.targetPort, parsed.value.operation, parsed.value.messageId));
      }
    }
  }

  lemma NothingPassed(files: Directory, nowMs: uint64, stuck: set<string>)
    ensures WithoutExpired(files, [], nowMs, stuck) == files
  {
  }

  lemma SortedIsFresh(paths: seq<string>, i: nat)
    requires SortedNames(paths) && i < |paths|
    ensures paths[i] !in paths[..i]
  {
    if paths[i] in paths[..i] {
      var j :| 0 <= j < i && paths[..i][j] == paths[i];
      LessTotal(paths[j], paths[i]);
    }
  }

  lemma ExpiredDoesNotMatch(f: RouteFile, service: uint32, nowMs: uint64)
    ensures Expired(f, nowMs) ==> !Matches(f, service, nowMs)
  {
  }
}
