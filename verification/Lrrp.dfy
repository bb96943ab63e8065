/**
 * The two readers of Motorola location reports: extractMotorolaLrrpPayload of src/SmsSubsystem.cpp,
 * which decides what is forwarded, and decode_motorola_lrrp_position of dashboard/app.py, which
 * decides what is shown on the map. Both walk the same tokens, with different tolerance.
 */
module Lrrp {
  import opened Common
  import opened Ipv4Udp

  const TIMESTAMP: byte := 0x34
  const ELAPSED: byte := 0x37
  const DIRECTION: byte := 0x56
  const VELOCITY: byte := 0x6C

  predicate IsPositionToken(t: byte) { t == 0x51 || t == 0x55 || t == 0x66 || t == 0x69 }

  // ------------------------------------------------------------------ what the walks compute

  /** skipMotorolaVlq: how many bytes it takes at the head of `s`, given at most `left` of them. */
  function VlqLength(s: seq<byte>, left: nat): (r: Option<nat>)
    ensures r.Some? ==> 1 <= r.value <= |s| && r.value <= left
  {
    if left == 0 || s == [] then None
    else if s[0] < 0x80 then Some(1)
    else
      match VlqLength(s[1..], left - 1)
      case None => None
      case Some(n) => Some(n + 1)
  }

  /** The C++ token walk over the rest of a report: rejected, or accepted with or without a position. */
  function ForwardWalk(s: seq<byte>): Option<bool>
    decreases |s|
  {
    if s == [] then Some(false)
    else if s[0] == TIMESTAMP then if |s| < 6 then None else ForwardWalk(s[6..])
    else if s[0] == ELAPSED then
      match VlqLength(s[1..], 5)
      case None => None
      case Some(n) => ForwardWalk(s[1 + n..])
    else if IsPositionToken(s[0]) then if |s| < 9 then None else Some(true)
    else if s[0] == DIRECTION then if |s| < 2 then None else ForwardWalk(s[2..])
    else if s[0] == VELOCITY then
      match VlqLength(s[1..], 5)
      case None => None
      case Some(n) =>
        match VlqLength(s[1 + n..], 5)
        case None => None
        case Some(m) => ForwardWalk(s[1 + n + m..])
    else Some(false)
  }

  /** The dashboard's skip: as far as the first byte below 0x80, however long. */
  function SkipLength(s: seq<byte>): (n: nat)
    ensures n <= |s|
  {
    if s == [] then 0 else if s[0] < 0x80 then 1 else 1 + SkipLength(s[1..])
  }

  /** The dashboard's token walk: the eight coordinate bytes it decodes, if any. */
  function MapWalk(s: seq<byte>): Option<seq<byte>>
    decreases |s|
  {
    if s == [] then None
    else if s[0] == TIMESTAMP then if |s| < 6 then None else MapWalk(s[6..])
    else if s[0] == ELAPSED then MapWalk(s[1 + SkipLength(s[1..])..])
    else if IsPositionToken(s[0]) && |s| >= 9 then Some(s[1..9])
    else None
  }

  /** A big-endian signed 32-bit integer. */
  function Signed32(d: seq<byte>): int
    requires |d| == 4
  {
    var u := Word(d[0], d[1]) as int * 0x1_0000 + Word(d[2], d[3]);
    if u < 0x8000_0000 then u else u - 0x1_0000_0000
  }

  function Latitude(d: seq<byte>): real
    requires |d| == 8
  {
    Signed32(d[..4]) as real * 180.0 / 4294967296.0
  }

  function Longitude(d: seq<byte>): real
    requires |d| == 8
  {
    Signed32(d[4..]) as real * 360.0 / 4294967296.0
  }

  /** The dashboard's range test never fails: every eight bytes are a place on the globe. */
  lemma AlwaysInRange(d: seq<byte>)
    requires |d| == 8
    ensures -90.0 <= Latitude(d) <= 90.0 && -180.0 <= Longitude(d) <= 180.0
  {
    var a, b := Signed32(d[..4]), Signed32(d[4..]);
    assert -0x8000_0000 <= a < 0x8000_0000 && -0x8000_0000 <= b < 0x8000_0000;
  }

  /** A signed 32-bit integer as four bytes, most significant first. */
  function SignedBytes(v: int): (d: seq<byte>)
    ensures |d| == 4
  {
    var u := v % 0x1_0000_0000;
    [u / 0x100_0000, u / 0x1_0000 % 0x100, u / 0x100 % 0x100, u % 0x100]
  }

  lemma SignedRoundTrip(v: int)
    requires -0x8000_0000 <= v < 0x8000_0000
    ensures Signed32(SignedBytes(v)) == v
  {
    var u := v % 0x1_0000_0000;
    assert u == if v < 0 then v + 0x1_0000_0000 else v;
    var q := u / 0x100;
    assert q / 0x100 == u / 0x1_0000 && u / 0x1_0000 / 0x100 == u / 0x100_0000;
    assert u == q * 0x100 + u % 0x100 && q == q / 0x100 * 0x100 + q % 0x100;
  }

  /** Every place, given in 2^32nds of a half turn and of a turn, is decoded from its latitude's bytes and then its longitude's. */
  lemma PlaceRoundTrip(latitude: int, longitude: int)
    requires -0x8000_0000 <= latitude < 0x8000_0000 && -0x8000_0000 <= longitude < 0x8000_0000
    ensures var d := SignedBytes(latitude) + SignedBytes(longitude);
            && Latitude(d) == latitude as real * 180.0 / 4294967296.0
            && Longitude(d) == longitude as real * 360.0 / 4294967296.0
  {
    hide SignedBytes, Signed32;
    SignedRoundTrip(latitude);
    SignedRoundTrip(longitude);
    var d := SignedBytes(latitude) + SignedBytes(longitude);
    assert d[..4] == SignedBytes(latitude) && d[4..] == SignedBytes(longitude);
  }

  // ------------------------------------------------------------------ the loops

  lemma VlqFrom(l: seq<byte>, offset: nat, left: nat)
    requires offset < |l| && left > 0
    ensures VlqLength(l[offset..], left) ==
            if l[offset] < 0x80 then Some(1)
            else match VlqLength(l[offset + 1..], left - 1) case None => None case Some(n) => Some(n + 1)
  {
    assert l[offset..][1..] == l[offset + 1..];
  }

  method SkipMotorolaVlq(data: seq<byte>, start: nat) returns (ok: bool, offset: nat)
    requires start <= |data|
    ensures ok <==> VlqLength(data[start..], 5).Some?
    ensures start <= offset <= |data|
    ensures ok ==> offset == start + VlqLength(data[start..], 5).value
  {
    hide VlqLength;
    offset := start;
    var i := 0;
    while i < 5 && offset < |data|
      invariant 0 <= i <= 5 && offset == start + i <= |data|
      invariant var all, rest := VlqLength(data[start..], 5), VlqLength(data[offset..], 5 - i);
                (all.Some? <==> rest.Some?) && (all.Some? ==> all.value == i + rest.value)
    {
      VlqFrom(data, offset, 5 - i);
      if data[offset] < 0x80 { return true, offset + 1; }
      i := i + 1;
      offset := offset + 1;
    }
    VlqEnds(data[offset..], 5 - i);
    ok := false;
  }

  lemma VlqEnds(s: seq<byte>, left: nat)
    requires left == 0 || s == []
    ensures VlqLength(s, left) == None
  {
  }

  /** One step of the walk, by the token at the head. */
  lemma ForwardStep(s: seq<byte>)
    requires s != []
    ensures s[0] == TIMESTAMP ==> ForwardWalk(s) == if |s| < 6 then None else ForwardWalk(s[6..])
    ensures IsPositionToken(s[0]) ==> ForwardWalk(s) == if |s| < 9 then None else Some(true)
    ensures s[0] == DIRECTION ==> ForwardWalk(s) == if |s| < 2 then None else ForwardWalk(s[2..])
    ensures s[0] !in {TIMESTAMP, ELAPSED, DIRECTION, VELOCITY} && !IsPositionToken(s[0]) ==> ForwardWalk(s) == Some(false)
  {
    hide VlqLength;
  }

  lemma ForwardElapsed(s: seq<byte>)
    requires s != [] && s[0] == ELAPSED
    ensures ForwardWalk(s) == match VlqLength(s[1..], 5) case None => None case Some(n) => ForwardWalk(s[1 + n..])
  {
    hide VlqLength;
  }

  lemma ForwardVelocity(s: seq<byte>)
    requires s != [] && s[0] == VELOCITY
    ensures ForwardWalk(s) ==
            match VlqLength(s[1..], 5)
            case None => None
            case Some(n) => match VlqLength(s[1 + n..], 5) case None => None case Some(m) => ForwardWalk(s[1 + n + m..])
  {
    hide VlqLength;
  }

  lemma ForwardFrom(l: seq<byte>, offset: nat)
    requires offset <= |l|
    ensures offset == |l| ==> ForwardWalk(l[offset..]) == Some(false)
    ensures offset < |l| && l[offset] == TIMESTAMP ==>
            ForwardWalk(l[offset..]) == if offset + 6 > |l| then None else ForwardWalk(l[offset + 6..])
    ensures offset < |l| && l[offset] == ELAPSED ==>
            ForwardWalk(l[offset..]) == match VlqLength(l[offset + 1..], 5) case None => None case Some(n) => ForwardWalk(l[offset + 1 + n..])
    ensures offset < |l| && IsPositionToken(l[offset]) ==> ForwardWalk(l[offset..]) == if offset + 9 > |l| then None else Some(true)
    ensures offset < |l| && l[offset] == DIRECTION ==>
            ForwardWalk(l[offset..]) == if offset + 2 > |l| then None else ForwardWalk(l[offset + 2..])
  {
    NothingWalked();
    hide VlqLength, ForwardWalk;
    if offset < |l| {
      ForwardStep(l[offset..]);
      DropDrop(l, offset, 1);
      if offset + 6 <= |l| { DropDrop(l, offset, 6); }
      if offset + 2 <= |l| { DropDrop(l, offset, 2); }
      if l[offset] == ELAPSED {
        ForwardElapsed(l[offset..]);
        var v := VlqLength(l[offset + 1..], 5);
        if v.Some? { DropDrop(l, offset, 1 + v.value); }
      }
    } else {
      assert l[offset..] == [];
    }
  }

  lemma NothingWalked()
    ensures ForwardWalk([]) == Some(false)
  {
  }

  lemma ForwardFromVelocity(l: seq<byte>, offset: nat)
    requires offset < |l|
    ensures l[offset] == VELOCITY ==>
            ForwardWalk(l[offset..]) ==
            match VlqLength(l[offset + 1..], 5)
            case None => None
            case Some(n) =>
              match VlqLength(l[offset + 1 + n..], 5)
              case None => None
              case Some(m) => ForwardWalk(l[offset + 1 + n + m..])
    ensures l[offset] !in {TIMESTAMP, ELAPSED, DIRECTION, VELOCITY} && !IsPositionToken(l[offset]) ==> ForwardWalk(l[offset..]) == Some(false)
  {
    hide VlqLength, ForwardWalk;
    ForwardStep(l[offset..]);
    if l[offset] == VELOCITY {
      ForwardVelocity(l[offset..]);
      DropDrop(l, offset, 1);
      var v := VlqLength(l[offset + 1..], 5);
      if v.Some? {
        DropDrop(l, offset, 1 + v.value);
        var w := VlqLength(l[offset + 1 + v.value..], 5);
        if w.Some? { DropDrop(l, offset, 1 + v.value + w.value); }
      }
    }
  }

  lemma DropDrop(l: seq<byte>, i: nat, j: nat)
    requires i + j <= |l|
    ensures l[i..][j..] == l[i + j..]
  {
  }

  /** The while loop of extractMotorolaLrrpPayload over a report. */
  method WalkReport(report: seq<byte>, start: nat) returns (ok: bool, hasPosition: bool)
    requires start <= |report|
    ensures ForwardWalk(report[start..]) == if ok then Some(hasPosition) else None
  {
    hide ForwardWalk, VlqLength;
    hasPosition := false;
    var offset := start;
    ForwardFrom(report, offset);
    while offset < |report|
      invariant start <= offset <= |report|
      invariant if hasPosition then offset == |report| && ForwardWalk(report[start..]) == Some(true)
                else if offset == |report| then ForwardWalk(report[start..]) == Some(false)
                else ForwardWalk(report[start..]) == ForwardWalk(report[offset..])
      decreases |report| - offset
    {
      ForwardFrom(report, offset);
      ForwardFromVelocity(report, offset);
      var token := report[offset];
      if token == TIMESTAMP {
        if offset + 6 > |report| { return false, hasPosition; }
        offset := offset + 6;
        ForwardFrom(report, offset);
      } else if token == ELAPSED {
        var found;
        found, offset := SkipMotorolaVlq(report, offset + 1);
        if !found { return false, hasPosition; }
        ForwardFrom(report, offset);
      } else if IsPositionToken(token) {
        if offset + 9 > |report| { return false, hasPosition; }
        hasPosition := true;
        offset := |report|;
      } else if token == DIRECTION {
        if offset + 2 > |report| { return false, hasPosition; }
        offset := offset + 2;
        ForwardFrom(report, offset);
      } else if token == VELOCITY {
        var first, second;
        first, offset := SkipMotorolaVlq(report, offset + 1);
        if !first { return false, hasPosition; }
        second, offset := SkipMotorolaVlq(report, offset);
        if !second { return false, hasPosition; }
        ForwardFrom(report, offset);
      } else {
        offset := |report|;
      }
    }
    ok := true;
  }

  /** The dashboard's skip loop. */
  method SkipVlq(payload: seq<byte>, start: nat) returns (offset: nat)
    requires start <= |payload|
    ensures offset == start + SkipLength(payload[start..])
  {
    offset := start;
    while offset < |payload|
      invariant start <= offset <= |payload|
      invariant start + SkipLength(payload[start..]) == offset + SkipLength(payload[offset..])
    {
      var b := payload[offset];
      assert payload[offset..][1..] == payload[offset + 1..];
      offset := offset + 1;
      if b < 0x80 { return; }
    }
  }

  lemma MapFrom(l: seq<byte>, offset: nat)
    requires offset <= |l|
    ensures offset == |l| ==> MapWalk(l[offset..]) == None
    ensures offset < |l| && l[offset] == TIMESTAMP ==> MapWalk(l[offset..]) == if offset + 6 > |l| then None else MapWalk(l[offset + 6..])
    ensures offset < |l| && l[offset] == ELAPSED ==> MapWalk(l[offset..]) == MapWalk(l[offset + 1 + SkipLength(l[offset + 1..])..])
    ensures offset < |l| && l[offset] !in {TIMESTAMP, ELAPSED} ==>
            MapWalk(l[offset..]) == if IsPositionToken(l[offset]) && offset + 9 <= |l| then Some(l[offset + 1..offset + 9]) else None
  {
    if offset < |l| {
      assert l[offset..][1..] == l[offset + 1..];
      var n := 1 + SkipLength(l[offset + 1..]);
      assert l[offset..][n..] == l[offset + n..];
      if offset + 6 <= |l| { assert l[offset..][6..] == l[offset + 6..]; }
      if offset + 9 <= |l| { assert l[offset..][1..9] == l[offset + 1..offset + 9]; }
    }
  }

  /** The dashboard's while loop over a report; a request id may already have led beyond its end. */
  method DecodeReport(report: seq<byte>, start: nat) returns (coordinates: Option<seq<byte>>)
    ensures coordinates == if start <= |report| then MapWalk(report[start..]) else None
    ensures coordinates.Some? ==> |coordinates.value| == 8
  {
    hide MapWalk, SkipLength;
    var offset := start;
    while offset < |report|
      invariant start <= |report| ==>
                MapWalk(report[start..]) == if offset <= |report| then MapWalk(report[offset..]) else None
      invariant start <= offset && (start > |report| ==> offset == start)
      decreases |report| - offset
    {
      MapFrom(report, offset);
      var token := report[offset];
      if token == TIMESTAMP {
        offset := offset + 6;
      } else if token == ELAPSED {
        offset := SkipVlq(report, offset + 1);
      } else {
        if IsPositionToken(token) && offset + 9 <= |report| { return Some(report[offset + 1..offset + 9]); }
        return None;
      }
    }
    if offset == |report| { MapFrom(report, offset); }
    return None;
  }

  // ------------------------------------------------------------------ the grammar of accepted reports

  /** One to five bytes, all but the last with the high bit set. */
  predicate IsVlq(v: seq<byte>) {
    1 <= |v| <= 5 && v[|v| - 1] < 0x80 && forall i :: 0 <= i < |v| - 1 ==> v[i] >= 0x80
  }

  type Vlq = v: seq<byte> | IsVlq(v) witness [0]
  type Stamp = d: seq<byte> | |d| == 5 witness [0, 0, 0, 0, 0]

  /** A token the C++ walk passes over, with its operands. */
  datatype Token = Timestamp(stamp: Stamp) | Elapsed(value: Vlq) | Direction(angle: byte) | Velocity(speed: Vlq, uncertainty: Vlq)

  function Bytes(t: Token): (s: seq<byte>)
    ensures s != []
  {
    match t
    case Timestamp(d) => [0x34] + d
    case Elapsed(v) => [0x37] + v
    case Direction(b) => [0x56, b]
    case Velocity(v, w) => [0x6C] + v + w
  }

  function AllBytes(tokens: seq<Token>): seq<byte> {
    if tokens == [] then [] else Bytes(tokens[0]) + AllBytes(tokens[1..])
  }

  /** Skipped tokens, then a position token with its eight coordinate bytes, then anything. */
  ghost predicate PositionReport(s: seq<byte>, skipped: seq<Token>, rest: seq<byte>) {
    s == AllBytes(skipped) + rest && |rest| >= 9 && rest[0] in {0x51, 0x55, 0x66, 0x69}
  }

  lemma {:induction false} VlqMeans(s: seq<byte>, left: nat)
    requires left <= 5 && VlqLength(s, left).Some?
    ensures var v := s[..VlqLength(s, left).value];
            1 <= |v| <= left && v[|v| - 1] < 0x80 && forall i :: 0 <= i < |v| - 1 ==> v[i] >= 0x80
  {
    if s[0] >= 0x80 {
      VlqMeans(s[1..], left - 1);
      var n := VlqLength(s, left).value;
      assert s[..n] == [s[0]] + s[1..][..n - 1];
    }
  }

  lemma {:induction false} VlqRead(v: seq<byte>, rest: seq<byte>, left: nat)
    requires 1 <= |v| <= left && v[|v| - 1] < 0x80 && forall i :: 0 <= i < |v| - 1 ==> v[i] >= 0x80
    ensures VlqLength(v + rest, left) == Some(|v|) && SkipLength(v + rest) == |v|
  {
    if |v| > 1 {
      VlqRead(v[1..], rest, left - 1);
      assert (v + rest)[1..] == v[1..] + rest;
    }
  }

  lemma FixedStep(t: Token, s: seq<byte>)
    requires t.Timestamp? || t.Direction?
    ensures ForwardWalk(Bytes(t) + s) == ForwardWalk(s)
    ensures MapWalk(Bytes(t) + s) == if t.Direction? then None else MapWalk(s)
  {
    hide ForwardWalk, MapWalk, VlqLength, SkipLength, IsVlq;
    var u := Bytes(t) + s;
    assert u == u[0..] && u[|Bytes(t)|..] == s;
    MapFrom(u, 0);
    ForwardFrom(u, 0);
  }

  lemma ElapsedStep(v: Vlq, s: seq<byte>)
    ensures ForwardWalk([ELAPSED] + v + s) == ForwardWalk(s) && MapWalk([ELAPSED] + v + s) == MapWalk(s)
  {
    hide ForwardWalk, MapWalk, VlqLength, SkipLength, IsVlq;
    var u := [ELAPSED] + v + s;
    ElapsedParts(v, s);
    VlqIsRead(v, s);
    MapFrom(u, 0);
    ForwardFrom(u, 0);
  }

  lemma ElapsedParts(v: seq<byte>, s: seq<byte>)
    ensures var u := [ELAPSED] + v + s;
            u == u[0..] && u[1..] == v + s && u[1 + |v|..] == s
  {
  }

  lemma VelocityStep(v: Vlq, w: Vlq, s: seq<byte>)
    ensures ForwardWalk([VELOCITY] + v + w + s) == ForwardWalk(s) && MapWalk([VELOCITY] + v + w + s) == None
  {
    hide ForwardWalk, MapWalk, VlqLength, SkipLength, IsVlq;
    var u := [VELOCITY] + v + w + s;
    assert u == u[0..] && u[1..] == v + (w + s) && u[1 + |v|..] == w + s && u[1 + |v| + |w|..] == s;
    VlqIsRead(v, w + s);
    VlqIsRead(w, s);
    MapFrom(u, 0);
    ForwardFromVelocity(u, 0);
  }

  /** The C++ walk passes over a skipped token to what follows; the dashboard's does too, or gives up. */
  lemma SkippedStep(t: Token, s: seq<byte>)
    ensures ForwardWalk(Bytes(t) + s) == ForwardWalk(s)
    ensures MapWalk(Bytes(t) + s) == if t.Direction? || t.Velocity? then None else MapWalk(s)
  {
    hide ForwardWalk, MapWalk;
    match t {
      case Elapsed(v) => ElapsedStep(v, s);
      case Velocity(v, w) => VelocityStep(v, w, s);
      case _ => FixedStep(t, s);
    }
  }

  lemma VlqIsRead(v: Vlq, rest: seq<byte>)
    ensures VlqLength(v + rest, 5) == Some(|v|) && SkipLength(v + rest) == |v|
  {
    VlqRead(v, rest, 5);
  }

  lemma VlqPrefix(s: seq<byte>, at: nat) returns (v: Vlq)
    requires at <= |s| && VlqLength(s[at..], 5).Some?
    ensures |v| == VlqLength(s[at..], 5).value && at + |v| <= |s| && v == s[at..at + |v|]
  {
    VlqMeans(s[at..], 5);
    var n := VlqLength(s[at..], 5).value;
    assert s[at..at + n] == s[at..][..n];
    v := s[at..at + n];
  }

  /** The skipped token at the head of a report the C++ walk goes on behind. */
  lemma HeadToken(s: seq<byte>) returns (t: Token)
    requires ForwardWalk(s) == Some(true) && !IsPositionToken(s[0])
    ensures |Bytes(t)| <= |s| && s[..|Bytes(t)|] == Bytes(t) && ForwardWalk(s[|Bytes(t)|..]) == Some(true)
  {
    hide ForwardWalk, MapWalk, VlqLength, SkipLength, IsVlq;
    assert s == s[0..];
    ForwardEmpty();
    ForwardFrom(s, 0);
    ForwardFromVelocity(s, 0);
    if s[0] == TIMESTAMP {
      t := Timestamp(s[1..6]);
    } else if s[0] == DIRECTION {
      t := Direction(s[1]);
    } else if s[0] == ELAPSED {
      var v := VlqPrefix(s, 1);
      t := Elapsed(v);
    } else {
      t := HeadVelocity(s);
    }
  }

  lemma ForwardEmpty()
    ensures ForwardWalk([]) == Some(false)
  {
  }

  lemma HeadVelocity(s: seq<byte>) returns (t: Token)
    requires s != [] && s[0] == VELOCITY && ForwardWalk(s) == Some(true)
    ensures |Bytes(t)| <= |s| && s[..|Bytes(t)|] == Bytes(t) && ForwardWalk(s[|Bytes(t)|..]) == Some(true)
  {
    hide ForwardWalk, MapWalk, VlqLength, SkipLength, IsVlq;
    assert s == s[0..];
    ForwardFromVelocity(s, 0);
    var v := VlqPrefix(s, 1);
    var w := VlqPrefix(s, 1 + |v|);
    t := Velocity(v, w);
    assert s[..1 + |v| + |w|] == [VELOCITY] + v + w;
  }

  /** A report is accepted with a position exactly when it is skipped tokens and then a position. */
  lemma AcceptedIffGrammar(s: seq<byte>)
    ensures ForwardWalk(s) == Some(true) <==> exists skipped, rest :: PositionReport(s, skipped, rest)
  {
    hide ForwardWalk, MapWalk, PositionReport;
    if ForwardWalk(s) == Some(true) {
      var skipped, rest := Decomposed(s);
    }
    forall skipped, rest | PositionReport(s, skipped, rest)
      ensures ForwardWalk(s) == Some(true)
    {
      GrammarWalks(s, skipped, rest);
    }
  }

  lemma PositionWalks(s: seq<byte>)
    requires s != [] && IsPositionToken(s[0])
    ensures ForwardWalk(s) == if |s| < 9 then None else Some(true)
    ensures |s| >= 9 ==> MapWalk(s) == Some(s[1..9])
  {
  }

  lemma {:induction false} Decomposed(s: seq<byte>) returns (skipped: seq<Token>, rest: seq<byte>)
    requires ForwardWalk(s) == Some(true)
    ensures PositionReport(s, skipped, rest)
    decreases |s|
  {
    hide ForwardWalk, MapWalk;
    ForwardEmpty();
    if IsPositionToken(s[0]) {
      PositionWalks(s);
      skipped, rest := [], s;
      assert s == [] + rest;
    } else {
      var t := HeadToken(s);
      var more;
      more, rest := Decomposed(s[|Bytes(t)|..]);
      skipped := [t] + more;
      assert skipped[1..] == more;
      assert s == Bytes(t) + (AllBytes(more) + rest) == AllBytes(skipped) + rest;
    }
  }

  predicate NoVelocity(skipped: seq<Token>) {
    forall i :: 0 <= i < |skipped| ==> !skipped[i].Direction? && !skipped[i].Velocity?
  }

  /** What both walks make of a report of that form. */
  lemma {:induction false} GrammarWalks(s: seq<byte>, skipped: seq<Token>, rest: seq<byte>)
    requires PositionReport(s, skipped, rest)
    ensures ForwardWalk(s) == Some(true)
    ensures MapWalk(s) == if NoVelocity(skipped) then Some(rest[1..9]) else None
    decreases |skipped|
  {
    hide ForwardWalk, MapWalk, Bytes;
    if skipped == [] {
      assert s == rest;
      PositionWalks(s);
    } else {
      var t := skipped[0];
      var after := AllBytes(skipped[1..]) + rest;
      assert s == Bytes(t) + after;
      GrammarWalks(after, skipped[1..], rest);
      SkippedStep(t, after);
      assert NoVelocity(skipped) <==> !t.Direction? && !t.Velocity? && NoVelocity(skipped[1..]);
    }
  }

  /** Where the C++ accepts without a position, the dashboard shows none. */
  lemma {:induction false} NoPositionNoMap(s: seq<byte>)
    requires ForwardWalk(s) == Some(false)
    ensures MapWalk(s) == None
    decreases |s|
  {
    if s != [] {
      if s[0] == TIMESTAMP {
        NoPositionNoMap(s[6..]);
      } else if s[0] == ELAPSED {
        var n := VlqLength(s[1..], 5).value;
        VlqMeans(s[1..], 5);
        assert s[1..] == s[1..][..n] + s[1 + n..];
        VlqRead(s[1..][..n], s[1 + n..], 5);
        NoPositionNoMap(s[1 + n..]);
      }
    }
  }

  // ------------------------------------------------------------------ whole packets

  datatype Report = Report(payload: seq<byte>, hasPosition: bool)

  /** Where the tokens start: behind the header and the optional request id. */
  function TokenStart(payload: seq<byte>, reportLength: nat): nat
    requires 2 <= reportLength <= |payload|
  {
    if reportLength >= 4 && payload[2] == 0x22 then 4 + payload[3] as int else 2
  }

  predicate IsReportType(t: byte) { t % 0x80 == 0x07 || t % 0x80 == 0x0D }

  /** A UDP payload as the C++ parser judges it. */
  function ForwardReport(l: seq<byte>): Option<Report>
    requires |l| >= 2
  {
    var reportLength := l[1] as int + 2;
    if !IsReportType(l[0]) || reportLength > |l| || TokenStart(l, reportLength) > reportLength then None
    else
      match ForwardWalk(l[TokenStart(l, reportLength)..reportLength])
      case None => None
      case Some(hasPosition) => Some(Report(l, hasPosition))
  }

  function UdpPayload(p: seq<byte>, header: nat): seq<byte>
    requires header + 6 <= |p| && header + 8 <= header + ReadU16(p, header + 4) <= |p|
  {
    p[header + 8..header + ReadU16(p, header + 4)]
  }

  predicate IsLocationPort(source: uint16, target: uint16) {
    (source == 49198 && target == 49198) || (source == 4001 && target == 4001)
  }

  /** extractMotorolaLrrpPayload as a whole. */
  function Extracted(p: seq<byte>): Option<Report> {
    if |p| < 30 || p[0] / 16 != 4 || p[9] != 0x11 then None
    else
      var header := p[0] % 16 * 4;
      var total := ReadU16(p, 2);
      if header < 20 || total > |p| || total < header + 10 then None
      else if !IsLocationPort(ReadU16(p, header), ReadU16(p, header + 2)) then None
      else
        var udpLength := ReadU16(p, header + 4);
        if udpLength < 10 || header + udpLength > total then None else ForwardReport(UdpPayload(p, header))
  }

  /** A UDP payload as the dashboard judges it. */
  function MapReport(l: seq<byte>): Option<seq<byte>> {
    if |l| < 2 || !IsReportType(l[0]) || l[1] as int + 2 > |l| then None
    else
      var start := TokenStart(l, l[1] as int + 2);
      if start > l[1] as int + 2 then None else MapWalk(l[start..l[1] as int + 2])
  }

  /** decode_motorola_lrrp_position as a whole, up to the coordinate bytes. */
  function Decoded(p: seq<byte>): Option<seq<byte>> {
    if |p| < 39 || p[0] / 16 != 4 || p[9] != 0x11 then None
    else
      var header := p[0] % 16 * 4;
      if header < 20 || |p| < header + 10 then None
      else
        var udpLength := ReadU16(p, header + 4);
        if udpLength < 10 || header + udpLength > |p| then None else MapReport(UdpPayload(p, header))
  }

  method ExtractMotorolaLrrpPayload(packet: seq<byte>) returns (report: Option<Report>)
    ensures report == Extracted(packet)
  {
    hide ForwardWalk;
    if |packet| < 30 || packet[0] / 16 != 4 || packet[9] != 0x11 { return None; }
    var ipHeaderLength := packet[0] % 16 * 4;
    var packetLength := ReadU16(packet, 2);
    if ipHeaderLength < 20 || packetLength > |packet| || packetLength < ipHeaderLength + 10 { return None; }
    var sourcePort := ReadU16(packet, ipHeaderLength);
    var targetPort := ReadU16(packet, ipHeaderLength + 2);
    var udpLength := ReadU16(packet, ipHeaderLength + 4);
    if !IsLocationPort(sourcePort, targetPort) || udpLength < 10 || ipHeaderLength + udpLength > packetLength { return None; }
    var lrrp := packet[ipHeaderLength + 8..ipHeaderLength + udpLength];
    if !IsReportType(lrrp[0]) || lrrp[1] as int + 2 > |lrrp| { return None; }
    var reportLength := lrrp[1] as int + 2;
    var offset := 2;
    if offset + 2 <= reportLength && lrrp[offset] == 0x22 {
      var requestIdLength := lrrp[offset + 1];
      if offset + 2 + requestIdLength > reportLength { return None; }
      offset := offset + 2 + requestIdLength;
    }
    var ok, hasPosition := WalkReport(lrrp[..reportLength], offset);
    assert lrrp[..reportLength][offset..] == lrrp[offset..reportLength];
    return if ok then Some(Report(lrrp, hasPosition)) else None;
  }

  method DecodeMotorolaLrrpPosition(packet: seq<byte>) returns (position: Option<(real, real)>)
    ensures position == match Decoded(packet) case None => None case Some(c) => if |c| == 8 then Some((Latitude(c), Longitude(c))) else None
    ensures Decoded(packet).Some? ==> position.Some?
  {
    hide MapWalk;
    if |packet| < 39 || packet[0] / 16 != 4 || packet[9] != 0x11 { return None; }
    var ipHeaderLength := packet[0] % 16 * 4;
    if ipHeaderLength < 20 || |packet| < ipHeaderLength + 10 { return None; }
    var udpLength := ReadU16(packet, ipHeaderLength + 4);
    if udpLength < 10 || ipHeaderLength + udpLength > |packet| { return None; }
    var payload := packet[ipHeaderLength + 8..ipHeaderLength + udpLength];
    if |payload| < 2 || !IsReportType(payload[0]) { return None; }
    var reportLength := payload[1] as int + 2;
    if reportLength > |payload| { return None; }
    var offset: nat := 2;
    if offset + 2 <= reportLength && payload[offset] == 0x22 {
      offset := offset + 2 + payload[offset + 1];
    }
    var coordinates := DecodeReport(payload[..reportLength], offset);
    if offset <= reportLength { assert payload[..reportLength][offset..] == payload[offset..reportLength]; }
    match coordinates {
      case None => return None;
      case Some(c) =>
        AlwaysInRange(c);
        return Some((Latitude(c), Longitude(c)));
    }
  }

  /** The frame of a report: its type, the length, an optional request id, and the tokens. */
  ghost predicate Framed(l: seq<byte>, id: seq<byte>, tokens: seq<byte>) {
    && |l| >= 2 && l[0] in {0x07, 0x0D, 0x87, 0x8D} && l[1] as int + 2 <= |l| && l[2..l[1] as int + 2] == id + tokens
    && if l[1] >= 2 && l[2] == 0x22 then |id| == 2 + l[3] as int else id == []
  }

  /** What is extracted, exactly: a UDP payload between location ports that is framed as a report whose tokens the walk accepts. */
  lemma ExtractedIff(p: seq<byte>)
    ensures match Extracted(p)
            case Some(report) =>
              && ParsePacket(p).Some? && ParsePacket(p).value.payload == report.payload
              && ParsePacket(p).value.sourcePort == ParsePacket(p).value.targetPort && ParsePacket(p).value.sourcePort in {4001, 49198}
              && exists id, tokens :: Framed(report.payload, id, tokens) && ForwardWalk(tokens) == Some(report.hasPosition)
            case None =>
              || ParsePacket(p).None? || ParsePacket(p).value.sourcePort != ParsePacket(p).value.targetPort
              || ParsePacket(p).value.sourcePort !in {4001, 49198}
              || forall id, tokens :: Framed(ParsePacket(p).value.payload, id, tokens) ==> ForwardWalk(tokens) == None
  {
    hide ForwardWalk, ForwardReport, UdpPayload;
    SameParse(p);
    if ParsePacket(p).Some? && |ParsePacket(p).value.payload| >= 2 { ReportIsFramed(ParsePacket(p).value.payload); }
  }

  /** Both parsers of the source find the same payload. */
  lemma SameParse(p: seq<byte>)
    ensures Extracted(p) ==
            match ParsePacket(p)
            case None => None
            case Some(view) =>
              if view.sourcePort == view.targetPort && view.sourcePort in {4001, 49198} && |view.payload| >= 2 then ForwardReport(view.payload)
              else None
  {
    hide ForwardReport;
  }

  lemma ReportIsFramed(l: seq<byte>)
    requires |l| >= 2
    ensures match ForwardReport(l)
            case Some(report) => report.payload == l && exists id, tokens :: Framed(l, id, tokens) && ForwardWalk(tokens) == Some(report.hasPosition)
            case None => forall id, tokens :: Framed(l, id, tokens) ==> ForwardWalk(tokens) == None
  {
    hide ForwardWalk;
    var n := l[1] as int + 2;
    if ForwardReport(l).Some? {
      var start := TokenStart(l, n);
      assert l[2..n] == l[2..start] + l[start..n];
      assert Framed(l, l[2..start], l[start..n]);
    }
    forall id, tokens | Framed(l, id, tokens) ensures ForwardReport(l).None? ==> ForwardWalk(tokens) == None {
      FramedTokens(l, id, tokens);
    }
  }

  lemma FramedTokens(l: seq<byte>, id: seq<byte>, tokens: seq<byte>)
    requires Framed(l, id, tokens)
    ensures var n := l[1] as int + 2;
            2 + |id| == TokenStart(l, n) <= n && tokens == l[2 + |id|..n]
  {
    var n := l[1] as int + 2;
    var body := l[2..n];
    assert body == id + tokens && |body| == |id| + |tokens|;
    assert tokens == body[|id|..];
  }

  /** Whatever the dashboard shows stood behind a position token in a report of an IPv4 UDP packet. */
  lemma ShownOnlyIf(p: seq<byte>) returns (at: nat)
    requires Decoded(p).Some?
    ensures |p| >= 39 && 0x45 <= p[0] < 0x50 && p[9] == 0x11
    ensures var report := p[0] % 16 * 4 + 8;
            report < at && at + 9 <= |p| && p[report] in {0x07, 0x0D, 0x87, 0x8D} && p[at] in {0x51, 0x55, 0x66, 0x69} && Decoded(p).value == p[at + 1..at + 9]
  {
    hide MapWalk;
    var header := p[0] % 16 * 4;
    var l := UdpPayload(p, header);
    var n := l[1] as int + 2;
    var start := TokenStart(l, n);
    var i := WalkShows(l[start..n]);
    at := header + 8 + start + i;
    SliceOfPart(p, header + 8, header + ReadU16(p, header + 4), start, n, i);
  }

  /** Nine bytes of a part of a part. */
  lemma SliceOfPart(p: seq<byte>, from: nat, to: nat, start: nat, end: nat, i: nat)
    requires from <= to <= |p| && start <= end <= to - from && i + 9 <= end - start
    ensures var s := p[from..to][start..end];
            s[i] == p[from + start + i] && s[i + 1..i + 9] == p[from + start + i + 1..from + start + i + 9]
  {
    var l := p[from..to];
    var s := l[start..end];
    assert forall k :: 0 <= k < |l| ==> l[k] == p[from + k];
    assert forall k :: 0 <= k < |s| ==> s[k] == l[start + k];
    var part, whole := s[i + 1..i + 9], p[from + start + i + 1..from + start + i + 9];
    forall k | 0 <= k < 8 ensures part[k] == whole[k] {
      assert s[i + 1 + k] == l[start + (i + 1 + k)] == p[from + (start + (i + 1 + k))];
    }
  }

  lemma {:induction false} WalkShows(s: seq<byte>) returns (i: nat)
    requires MapWalk(s).Some?
    ensures i + 9 <= |s| && s[i] in {0x51, 0x55, 0x66, 0x69} && MapWalk(s).value == s[i + 1..i + 9]
    decreases |s|
  {
    hide SkipLength;
    var skip := if s[0] == TIMESTAMP then 6 else 1 + SkipLength(s[1..]);
    if s[0] == TIMESTAMP || s[0] == ELAPSED {
      var rest := s[skip..];
      var j := WalkShows(rest);
      i := skip + j;
      assert rest[j] == s[i] && rest[j + 1..j + 9] == s[i + 1..i + 9];
    } else {
      i := 0;
    }
  }

  /** The token bytes of an extracted report. */
  function Tokens(l: seq<byte>): seq<byte>
    requires |l| >= 2 && ForwardReport(l).Some?
  {
    l[TokenStart(l, l[1] as int + 2)..l[1] as int + 2]
  }

  lemma ExtractedSharesPayload(p: seq<byte>)
    requires Extracted(p).Some?
    ensures var l := Extracted(p).value.payload;
            && |l| >= 2 && ForwardReport(l) == Extracted(p) && |l| <= 0xFFFF - 28
            && Decoded(p) == (if |p| < 39 then None else MapReport(l))
            && |p| >= 28 + |l|
  {
    hide ForwardWalk, MapWalk;
  }

  /**
   * On every packet the C++ parser accepts the two readers agree: the dashboard shows a position if
   * and only if the report has one and neither a direction nor a velocity stands before it, and then
   * it shows the coordinates of the very token the C++ parser stopped at.
   */
  lemma ReadersAgree(p: seq<byte>)
    requires Extracted(p).Some?
    ensures var r := Extracted(p).value;
            && (!r.hasPosition ==> Decoded(p) == None)
            && (r.hasPosition ==>
                  |r.payload| >= 2 && ForwardReport(r.payload).Some? &&
                  exists skipped, rest :: PositionReport(Tokens(r.payload), skipped, rest)
                    && Decoded(p) == if NoVelocity(skipped) then Some(rest[1..9]) else None)
  {
    hide ForwardWalk, MapWalk, PositionReport;
    ExtractedSharesPayload(p);
    var r := Extracted(p).value;
    var tokens := Tokens(r.payload);
    if r.hasPosition {
      var skipped, rest := Decomposed(tokens);
      GrammarWalks(tokens, skipped, rest);
      AtLeastNine(tokens, skipped, rest);
    } else {
      NoPositionNoMap(tokens);
    }
  }

  lemma AtLeastNine(s: seq<byte>, skipped: seq<Token>, rest: seq<byte>)
    requires PositionReport(s, skipped, rest)
    ensures |s| >= 9
  {
  }

  /** The report a radio sends is forwarded whole: the rebuilt packet is read just like the original. */
  lemma ForwardedReadsAlike(p: seq<byte>, source: Address, target: Address)
    requires Extracted(p).Some? && Extracted(p).value.hasPosition
    ensures var l := Extracted(p).value.payload;
            && |l| <= 0xFFFF - 28
            && var forwarded := Packet(source, target, 4001, 4001, l);
               Extracted(forwarded) == Extracted(p) && Decoded(forwarded) == Decoded(p)
  {
    hide ForwardWalk, MapWalk, ForwardReport, MapReport, SealedHeader, SealedDatagram;
    ExtractedSharesPayload(p);
    var l := Extracted(p).value.payload;
    PositionNeedsNine(l);
    var forwarded := Packet(source, target, 4001, 4001, l);
    PacketRoundTrip(source, target, 4001, 4001, l);
    PacketFields(source, target, l);
  }

  lemma PositionNeedsNine(l: seq<byte>)
    requires |l| >= 2 && ForwardReport(l).Some? && ForwardReport(l).value.hasPosition
    ensures |l| >= 11
  {
    hide ForwardWalk;
    var skipped, rest := Decomposed(Tokens(l));
  }

  lemma PacketFields(source: Address, target: Address, l: seq<byte>)
    requires |l| <= 0xFFFF - 28
    ensures var p := Packet(source, target, 4001, 4001, l);
            && p[0] == 0x45 && p[9] == 0x11 && ReadU16(p, 2) == 28 + |l| && ReadU16(p, 20) == 4001 && ReadU16(p, 22) == 4001
            && ReadU16(p, 24) == 8 + |l| && p[28..28 + |l|] == l
  {
    hide ForwardWalk;
    PacketLayout(source, target, 4001, 4001, l);
    PacketParts(source, target, 4001, 4001, l);
  }
}
