/**
 * The BREW downlink of deploy/scripts/tetrapack_brew_audio.py: the call table, the per-call
 * frame queues and the locked part of the playout loop, as atomic steps.
 */
module JitterBuffer {
  import opened Common

  type Uuid = nat
  type Seconds = real
  type Block = seq<byte>

  const MAX_QUEUED := 24
  const STE_BYTES := 36
  const UNDERRUN_AFTER: Seconds := 0.14

  datatype Call = Call(uuid: Uuid, createdAt: Seconds, lastFrameAt: Seconds, frames: seq<Block>,
                       ended: bool, started: bool, underruns: nat)

  /** `calls` is the call table in insertion order. */
  datatype Downlink = Downlink(calls: seq<Call>, active: Option<Uuid>, ignored: set<Uuid>, owned: map<Uuid, Seconds>,
                               jitterFrames: nat, rebufferFrames: nat)

  // ------------------------------------------------------------------ the call table

  /** Position of the call `u`, or the table's length. */
  function Find(calls: seq<Call>, u: Uuid): (i: nat)
    ensures i <= |calls| && (i < |calls| ==> calls[i].uuid == u)
    ensures forall j :: 0 <= j < i ==> calls[j].uuid != u
  {
    if calls == [] || calls[0].uuid == u then 0 else 1 + Find(calls[1..], u)
  }

  predicate UniqueCalls(calls: seq<Call>) {
    forall i, j :: 0 <= i < j < |calls| ==> calls[i].uuid != calls[j].uuid
  }

  /** The table's entry for `u`. */
  function Entry(calls: seq<Call>, u: Uuid): (c: Option<Call>)
    ensures c.Some? ==> c.value.uuid == u && c.value in calls
    ensures c.None? ==> forall i :: 0 <= i < |calls| ==> calls[i].uuid != u
  {
    var i := Find(calls, u);
    if i < |calls| then Some(calls[i]) else None
  }

  function Queue(d: Downlink, u: Uuid): seq<Block> {
    var c := Entry(d.calls, u);
    if c.Some? then c.value.frames else []
  }

  function Without(calls: seq<Call>, i: nat): seq<Call>
    requires i < |calls|
  {
    calls[..i] + calls[i + 1..]
  }

  // ------------------------------------------------------------------ picking the next call

  function Required(d: Downlink, c: Call): nat {
    if c.started then d.rebufferFrames else d.jitterFrames
  }

  predicate Eligible(d: Downlink, c: Call) {
    |c.frames| >= Required(d, c) || (c.ended && c.frames != [])
  }

  /** The first eligible call in order of creation; insertion order breaks ties, as a stable sort does. */
  ghost predicate IsFirstEligible(d: Downlink, i: nat) {
    && i < |d.calls| && Eligible(d, d.calls[i])
    && forall j :: 0 <= j < |d.calls| && Eligible(d, d.calls[j]) ==>
         d.calls[i].createdAt < d.calls[j].createdAt || (d.calls[i].createdAt == d.calls[j].createdAt && i <= j)
  }

  function PickFrom(d: Downlink, k: nat, best: Option<nat>): Option<nat>
    requires k <= |d.calls| && (best.Some? ==> best.value < |d.calls|)
    decreases |d.calls| - k
  {
    if k == |d.calls| then best
    else if Eligible(d, d.calls[k]) && (best.None? || d.calls[k].createdAt < d.calls[best.value].createdAt) then
      PickFrom(d, k + 1, Some(k))
    else PickFrom(d, k + 1, best)
  }

  function Pick(d: Downlink): Option<nat> { PickFrom(d, 0, None) }

  lemma {:induction false} PickFromCorrect(d: Downlink, k: nat, best: Option<nat>)
    requires k <= |d.calls| && (best.Some? ==> best.value < k && Eligible(d, d.calls[best.value]))
    requires forall j :: 0 <= j < k && Eligible(d, d.calls[j]) ==>
               best.Some? && (d.calls[best.value].createdAt < d.calls[j].createdAt
                              || (d.calls[best.value].createdAt == d.calls[j].createdAt && best.value <= j))
    ensures match PickFrom(d, k, best)
            case Some(i) => IsFirstEligible(d, i)
            case None => forall j :: 0 <= j < |d.calls| ==> !Eligible(d, d.calls[j])
    decreases |d.calls| - k
  {
    if k < |d.calls| {
      if Eligible(d, d.calls[k]) && (best.None? || d.calls[k].createdAt < d.calls[best.value].createdAt) {
        PickFromCorrect(d, k + 1, Some(k));
      } else {
        PickFromCorrect(d, k + 1, best);
      }
    }
  }

  /** The pick is the stable-sorted first eligible call, and fails only when no call is eligible. */
  lemma PickIsFirstEligible(d: Downlink)
    ensures match Pick(d)
            case Some(i) => IsFirstEligible(d, i)
            case None => forall j :: 0 <= j < |d.calls| ==> !Eligible(d, d.calls[j])
  {
    PickFromCorrect(d, 0, None);
  }

  // ------------------------------------------------------------------ steps

  datatype Event =
    | GroupTx(uuid: Uuid, routed: bool, echo: bool, at: Seconds)
    | GroupIdle(uuid: Uuid)
    | Voice(uuid: Uuid, payload: Block, at: Seconds)
    | Tick(at: Seconds)
    | Own(uuid: Uuid, until: Seconds)
    | ExpireOwned(at: Seconds)

  datatype Output =
    | Received(uuid: Uuid, frame: Block)
    | Dropped(uuid: Uuid, frame: Block)
    | Played(uuid: Uuid, frame: Block)
    | Removed(uuid: Uuid)

  /** _start_or_update_downlink; `echo` is the test for a local source during an uplink. */
  function Start(d: Downlink, u: Uuid, routed: bool, echo: bool, at: Seconds): Downlink {
    var i := Find(d.calls, u);
    if !routed || u in d.owned || echo then d.(ignored := d.ignored + {u})
    else if i < |d.calls| then d.(calls := d.calls[i := d.calls[i].(ended := false)])
    else if exists c :: c in d.calls && !c.ended then d.(ignored := d.ignored + {u})
    else d.(calls := d.calls + [Call(u, at, at, [], false, false, 0)])
  }

  function End(d: Downlink, u: Uuid): Downlink {
    var i := Find(d.calls, u);
    if u in d.ignored then d.(ignored := d.ignored - {u})
    else if i < |d.calls| then d.(calls := d.calls[i := d.calls[i].(ended := true)])
    else d
  }

  function Queued(frames: seq<Block>, frame: Block): seq<Block> {
    (if |frames| >= MAX_QUEUED then frames[1..] else frames) + [frame]
  }

  /** _queue_downlink_voice */
  function Receive(d: Downlink, u: Uuid, payload: Block, at: Seconds): (Downlink, seq<Output>) {
    var i := Find(d.calls, u);
    if u in d.owned || u in d.ignored || |payload| < STE_BYTES || i == |d.calls| then (d, [])
    else
      var c := d.calls[i];
      var frame := payload[..STE_BYTES];
      (d.(calls := d.calls[i := c.(frames := Queued(c.frames, frame), lastFrameAt := at)]),
       (if |c.frames| >= MAX_QUEUED then [Dropped(u, c.frames[0])] else []) + [Received(u, frame)])
  }

  function Activate(d: Downlink): Downlink {
    if d.active.Some? then d
    else
      match Pick(d)
      case None => d
      case Some(i) =>
        PickIsFirstEligible(d);
        d.(active := Some(d.calls[i].uuid), calls := d.calls[i := d.calls[i].(started := true)])
  }

  /** What the loop does with the active call at `i`: play, remove, give up on an underrun, or wait. */
  function PlayedAt(d: Downlink, i: nat, at: Seconds): (Downlink, seq<Output>)
    requires i < |d.calls|
  {
    var c := d.calls[i];
    if c.frames != [] then (d.(calls := d.calls[i := c.(frames := c.frames[1..])]), [Played(c.uuid, c.frames[0])])
    else if c.ended then (d.(calls := Without(d.calls, i), active := None), [Removed(c.uuid)])
    else if at - c.lastFrameAt > UNDERRUN_AFTER then
      (d.(calls := d.calls[i := c.(underruns := c.underruns + 1, started := false)], active := None), [])
    else (d, [])
  }

  function PlayActive(d: Downlink, at: Seconds): (Downlink, seq<Output>) {
    if d.active.None? then (d, [])
    else
      var i := Find(d.calls, d.active.value);
      if i == |d.calls| then (d.(active := None), []) else PlayedAt(d, i, at)
  }

  function Step(d: Downlink, e: Event): (Downlink, seq<Output>) {
    match e
    case GroupTx(u, routed, echo, at) => (Start(d, u, routed, echo, at), [])
    case GroupIdle(u) => (End(d, u), [])
    case Voice(u, payload, at) => Receive(d, u, payload, at)
    case Tick(at) => PlayActive(Activate(d), at)
    case Own(u, until) => (d.(owned := d.owned[u := until]), [])
    case ExpireOwned(at) => (ExpiredOwned(d, at), [])
  }

  function ExpiredOwned(d: Downlink, at: Seconds): Downlink {
    var gone := set u | u in d.owned && d.owned[u] <= at;
    d.(owned := d.owned - gone, ignored := d.ignored - gone)
  }

  // ------------------------------------------------------------------ invariants

  /**
   * Calls are unique, no queue exceeds 24, only the active call is started, and the active
   * call is in the table.
   */
  ghost predicate Sound(d: Downlink) {
    && UniqueCalls(d.calls)
    && (forall i :: 0 <= i < |d.calls| ==> |d.calls[i].frames| <= MAX_QUEUED)
    && (forall i :: 0 <= i < |d.calls| && d.calls[i].started ==> d.active == Some(d.calls[i].uuid))
    && (d.active.Some? ==> Entry(d.calls, d.active.value).Some?)
  }

  /** What soundness says of one entry. */
  lemma SoundAt(d: Downlink, i: nat)
    requires Sound(d) && i < |d.calls|
    ensures UniqueCalls(d.calls) && |d.calls[i].frames| <= MAX_QUEUED
    ensures d.calls[i].started ==> d.active == Some(d.calls[i].uuid)
    ensures Find(d.calls, d.calls[i].uuid) == i && Entry(d.calls, d.calls[i].uuid) == Some(d.calls[i])
  {
  }

  lemma SoundActive(d: Downlink)
    requires Sound(d) && d.active.Some?
    ensures Find(d.calls, d.active.value) < |d.calls| && d.calls[Find(d.calls, d.active.value)].uuid == d.active.value
  {
  }

  lemma EntryAt(calls: seq<Call>, i: nat)
    requires UniqueCalls(calls) && i < |calls|
    ensures Entry(calls, calls[i].uuid) == Some(calls[i])
  {
  }

  /** Rewriting one entry under its own id leaves every other as it was. */
  lemma EntryUpdate(calls: seq<Call>, i: nat, c: Call, u: Uuid)
    requires UniqueCalls(calls) && i < |calls| && c.uuid == calls[i].uuid
    ensures UniqueCalls(calls[i := c])
    ensures Entry(calls[i := c], u) == if u == c.uuid then Some(c) else Entry(calls, u)
  {
    var k := Find(calls, u);
    var after := calls[i := c];
    assert forall j :: 0 <= j < |calls| ==> after[j].uuid == calls[j].uuid;
    if k < |calls| { EntryAt(after, k); }
  }

  lemma WithoutUnique(calls: seq<Call>, i: nat)
    requires UniqueCalls(calls) && i < |calls|
    ensures UniqueCalls(Without(calls, i))
  {
    WithoutAt(calls, i);
    hide Without;
  }

  lemma EntryWithout(calls: seq<Call>, i: nat, u: Uuid)
    requires UniqueCalls(calls) && i < |calls|
    ensures Entry(Without(calls, i), u) == if u == calls[i].uuid then None else Entry(calls, u)
  {
    WithoutAt(calls, i);
    WithoutUnique(calls, i);
    var k := Find(calls, u);
    hide Find, Without;
    if k < |calls| && k != i {
      hide UniqueCalls;
      EntryAt(Without(calls, i), if k < i then k else k - 1);
    }
  }

  lemma WithoutAt(calls: seq<Call>, i: nat)
    requires i < |calls|
    ensures |Without(calls, i)| == |calls| - 1
    ensures forall j :: 0 <= j < |calls| - 1 ==> Without(calls, i)[j] == calls[if j < i then j else j + 1]
  {
  }

  lemma EntryAppend(calls: seq<Call>, c: Call, u: Uuid)
    ensures Entry(calls + [c], u) == if Entry(calls, u).Some? then Entry(calls, u) else if c.uuid == u then Some(c) else None
  {
    var k, after := Find(calls, u), Find(calls + [c], u);
    assert forall j :: 0 <= j < |calls| ==> (calls + [c])[j] == calls[j];
    assert (calls + [c])[|calls|] == c;
  }

  // ------------------------------------------------------------------ what a step does to the table

  /** Rewriting one entry keeps the table sound and touches no other. */
  lemma UpdateSound(d: Downlink, i: nat, c: Call, active: Option<Uuid>, u: Uuid)
    requires Sound(d) && i < |d.calls| && c.uuid == d.calls[i].uuid && |c.frames| <= MAX_QUEUED
    requires active == d.active || (d.active.None? && active == Some(c.uuid)) || (d.active == Some(c.uuid) && active.None?)
    requires c.started ==> active == Some(c.uuid)
    ensures var d' := d.(calls := d.calls[i := c], active := active);
            Sound(d') && Entry(d'.calls, u) == if u == c.uuid then Some(c) else Entry(d.calls, u)
  {
    EntryUpdate(d.calls, i, c, u);
    if active.Some? { EntryUpdate(d.calls, i, c, active.value); }
    hide Entry, Find;
  }

  /** The active entry at `i` leaves the table. */
  lemma RemoveSound(d: Downlink, i: nat, u: Uuid)
    requires Sound(d) && i < |d.calls| && d.active == Some(d.calls[i].uuid)
    ensures var d' := d.(calls := Without(d.calls, i), active := None);
            Sound(d') && Entry(d'.calls, u) == if u == d.calls[i].uuid then None else Entry(d.calls, u)
  {
    EntryWithout(d.calls, i, u);
    WithoutUnique(d.calls, i);
    WithoutAt(d.calls, i);
    hide Entry, Find, Without;
  }

  /** Choosing a call to play marks it started, and it was eligible. */
  lemma ActivateSound(d: Downlink, u: Uuid)
    requires Sound(d)
    ensures var a := Activate(d);
            && Sound(a) && |a.calls| == |d.calls|
            && (a.active == d.active || (d.active.None? && a.active.Some? && Entry(d.calls, a.active.value).Some?
                                         && Eligible(d, Entry(d.calls, a.active.value).value)))
            && (a.active.None? ==> a == d && forall i :: 0 <= i < |d.calls| ==> !Eligible(d, d.calls[i]))
            && Entry(a.calls, u) == if d.active.None? && a.active == Some(u) then Some(Entry(d.calls, u).value.(started := true))
                                    else Entry(d.calls, u)
  {
    hide Pick, Sound, Entry, Eligible;
    PickIsFirstEligible(d);
    if d.active.None? && Pick(d).Some? {
      var i := Pick(d).value;
      SoundAt(d, i);
      UpdateSound(d, i, d.calls[i].(started := true), Some(d.calls[i].uuid), u);
    }
  }

  /** One round with an active call: it plays a frame, leaves ended and empty, gives up, or waits. */
  ghost predicate RoundDoes(d: Downlink, at: Seconds, d': Downlink, out: seq<Output>, u: Uuid)
    requires d.active.Some? && Entry(d.calls, d.active.value).Some?
  {
    var v := d.active.value;
    var c := Entry(d.calls, v).value;
    if c.frames != [] then
      && out == [Played(v, c.frames[0])] && d'.active == Some(v)
      && Entry(d'.calls, u) == if u == v then Some(c.(frames := c.frames[1..])) else Entry(d.calls, u)
    else if c.ended then
      && out == [Removed(v)] && d'.active == None
      && Entry(d'.calls, u) == if u == v then None else Entry(d.calls, u)
    else if at - c.lastFrameAt > UNDERRUN_AFTER then
      && out == [] && d'.active == None
      && Entry(d'.calls, u) == if u == v then Some(c.(underruns := c.underruns + 1, started := false)) else Entry(d.calls, u)
    else out == [] && d' == d
  }

  lemma PlaySound(d: Downlink, at: Seconds, u: Uuid)
    requires Sound(d) && d.active.Some?
    ensures Entry(d.calls, d.active.value).Some?
    ensures Sound(PlayActive(d, at).0) && RoundDoes(d, at, PlayActive(d, at).0, PlayActive(d, at).1, u)
  {
    SoundActive(d);
    var i := Find(d.calls, d.active.value);
    SoundAt(d, i);
    hide Sound, Find, Entry, PlayedAt, RoundDoes;
    PlayedSound(d, i, at, u);
  }

  lemma PlayedSound(d: Downlink, i: nat, at: Seconds, u: Uuid)
    requires Sound(d) && i < |d.calls| && d.active == Some(d.calls[i].uuid)
    ensures Entry(d.calls, d.calls[i].uuid) == Some(d.calls[i])
    ensures Sound(PlayedAt(d, i, at).0) && RoundDoes(d, at, PlayedAt(d, i, at).0, PlayedAt(d, i, at).1, u)
  {
    var c := d.calls[i];
    SoundAt(d, i);
    hide Sound, Find, Entry, Without;
    if c.frames != [] {
      PlayedFrame(d, i, at, u);
    } else if c.ended {
      RemoveSound(d, i, u);
    } else {
      PlayedNothing(d, i, at, u);
    }
  }

  lemma PlayedFrame(d: Downlink, i: nat, at: Seconds, u: Uuid)
    requires Sound(d) && i < |d.calls| && d.active == Some(d.calls[i].uuid) && d.calls[i].frames != []
    requires |d.calls[i].frames| <= MAX_QUEUED && Entry(d.calls, d.calls[i].uuid) == Some(d.calls[i])
    ensures Sound(PlayedAt(d, i, at).0) && RoundDoes(d, at, PlayedAt(d, i, at).0, PlayedAt(d, i, at).1, u)
  {
    hide Sound, Find, Entry;
    var c := d.calls[i];
    UpdateSound(d, i, c.(frames := c.frames[1..]), d.active, u);
  }

  lemma PlayedNothing(d: Downlink, i: nat, at: Seconds, u: Uuid)
    requires Sound(d) && i < |d.calls| && d.active == Some(d.calls[i].uuid) && d.calls[i].frames == [] && !d.calls[i].ended
    requires Entry(d.calls, d.calls[i].uuid) == Some(d.calls[i])
    ensures Sound(PlayedAt(d, i, at).0) && RoundDoes(d, at, PlayedAt(d, i, at).0, PlayedAt(d, i, at).1, u)
  {
    hide Sound, Find, Entry;
    var c := d.calls[i];
    if at - c.lastFrameAt > UNDERRUN_AFTER {
      UpdateSound(d, i, c.(underruns := c.underruns + 1, started := false), None, u);
    }
  }

  lemma StartSound(d: Downlink, v: Uuid, routed: bool, echo: bool, at: Seconds, u: Uuid)
    requires Sound(d)
    ensures var d' := Start(d, v, routed, echo, at);
            && Sound(d') && d'.active == d.active && Queue(d', u) == Queue(d, u)
            && (Entry(d.calls, u).Some? ==> Entry(d'.calls, u).Some?)
            && (u != v ==> Entry(d'.calls, u) == Entry(d.calls, u))
  {
    var d' := Start(d, v, routed, echo, at);
    var i := Find(d.calls, v);
    if d'.calls == d.calls {
      SameCalls(d, d');
    } else if i < |d.calls| {
      SoundAt(d, i);
      hide Find, Entry, Sound;
      UpdateSound(d, i, d.calls[i].(ended := false), d.active, u);
    } else {
      AppendSound(d, Call(v, at, at, [], false, false, 0), u);
    }
  }

  lemma AppendSound(d: Downlink, c: Call, u: Uuid)
    requires Sound(d) && Entry(d.calls, c.uuid).None? && !c.started && c.frames == []
    ensures var d' := d.(calls := d.calls + [c]);
            && Sound(d') && Queue(d', u) == Queue(d, u)
            && Entry(d'.calls, u) == if Entry(d.calls, u).Some? then Entry(d.calls, u) else if c.uuid == u then Some(c) else None
  {
    EntryAppend(d.calls, c, u);
    if d.active.Some? { EntryAppend(d.calls, c, d.active.value); }
    hide Entry, Find;
  }

  lemma SameCalls(d: Downlink, d': Downlink)
    requires Sound(d) && d'.calls == d.calls && d'.active == d.active
    ensures Sound(d')
  {
  }

  lemma EndSound(d: Downlink, v: Uuid, u: Uuid)
    requires Sound(d)
    ensures var d' := End(d, v);
            && Sound(d') && d'.active == d.active && Queue(d', u) == Queue(d, u)
            && (Entry(d.calls, u).Some? <==> Entry(d'.calls, u).Some?)
            && (u != v || (Entry(d.calls, u).Some? && Entry(d.calls, u).value.ended) ==> Entry(d'.calls, u) == Entry(d.calls, u))
  {
    var d' := End(d, v);
    var i := Find(d.calls, v);
    if d'.calls == d.calls {
      SameCalls(d, d');
    } else {
      SoundAt(d, i);
      hide Find, Entry, Sound;
      UpdateSound(d, i, d.calls[i].(ended := true), d.active, u);
    }
  }

  /** A voice frame that is kept goes to the back of its call's queue and may push out the oldest. */
  lemma ReceiveSound(d: Downlink, v: Uuid, payload: Block, at: Seconds, u: Uuid)
    requires Sound(d)
    ensures var (d', out) := Receive(d, v, payload, at);
            && Sound(d') && d'.active == d.active
            && (u != v || out == [] ==> Entry(d'.calls, u) == Entry(d.calls, u))
            && (out != [] ==>
                  && |payload| >= STE_BYTES && Entry(d.calls, v).Some? && Entry(d'.calls, v).Some?
                  && Queue(d', v) == Queued(Queue(d, v), payload[..STE_BYTES])
                  && out == KeptOutputs(Queue(d, v), v, payload[..STE_BYTES]))
  {
    var (d', out) := Receive(d, v, payload, at);
    var i := Find(d.calls, v);
    if out != [] {
      SoundAt(d, i);
      var c := d.calls[i];
      var c' := c.(frames := Queued(c.frames, payload[..STE_BYTES]), lastFrameAt := at);
      hide Find, Entry, Sound;
      UpdateSound(d, i, c', d.active, u);
      UpdateSound(d, i, c', d.active, v);
    }
  }

  // ------------------------------------------------------------------ conservation

  /** The frames accepted for `u`, in order. */
  function Arrived(outs: seq<Output>, u: Uuid): seq<Block> {
    if outs == [] then []
    else (if outs[0].Received? && outs[0].uuid == u then [outs[0].frame] else []) + Arrived(outs[1..], u)
  }

  /** The frames of `u` that left its queue, played or dropped, in order. */
  function Left(outs: seq<Output>, u: Uuid): seq<Block> {
    if outs == [] then []
    else (if (outs[0].Played? || outs[0].Dropped?) && outs[0].uuid == u then [outs[0].frame] else []) + Left(outs[1..], u)
  }

  lemma ArrivedFirst(o: Output, rest: seq<Output>, u: Uuid)
    ensures Arrived([o] + rest, u) == Arrived([o], u) + Arrived(rest, u)
    ensures Arrived([o] + rest, u) == (if o.Received? && o.uuid == u then [o.frame] else []) + Arrived(rest, u)
  {
    assert ([o] + rest)[1..] == rest;
  }

  lemma LeftFirst(o: Output, rest: seq<Output>, u: Uuid)
    ensures Left([o] + rest, u) == Left([o], u) + Left(rest, u)
    ensures Left([o] + rest, u) == (if (o.Played? || o.Dropped?) && o.uuid == u then [o.frame] else []) + Left(rest, u)
  {
    assert ([o] + rest)[1..] == rest;
  }

  lemma SingleOutput(o: Output, u: Uuid)
    ensures Arrived([o], u) == if o.Received? && o.uuid == u then [o.frame] else []
    ensures Left([o], u) == if (o.Played? || o.Dropped?) && o.uuid == u then [o.frame] else []
  {
    assert [o][1..] == [];
  }

  lemma Associative<T>(a: seq<T>, b: seq<T>, c: seq<T>)
    ensures (a + b) + c == a + (b + c)
  {
  }

  lemma {:induction false} ArrivedConcat(a: seq<Output>, b: seq<Output>, u: Uuid)
    ensures Arrived(a + b, u) == Arrived(a, u) + Arrived(b, u)
  {
    if a == [] {
      assert a + b == b;
    } else {
      hide Arrived;
      var o, rest := a[0], a[1..];
      assert a == [o] + rest && a + b == [o] + (rest + b);
      ArrivedConcat(rest, b, u);
      ArrivedFirst(o, rest, u);
      ArrivedFirst(o, rest + b, u);
      Associative(Arrived([o], u), Arrived(rest, u), Arrived(b, u));
    }
  }

  lemma {:induction false} LeftConcat(a: seq<Output>, b: seq<Output>, u: Uuid)
    ensures Left(a + b, u) == Left(a, u) + Left(b, u)
  {
    if a == [] {
      assert a + b == b;
    } else {
      hide Left;
      var o, rest := a[0], a[1..];
      assert a == [o] + rest && a + b == [o] + (rest + b);
      LeftConcat(rest, b, u);
      LeftFirst(o, rest, u);
      LeftFirst(o, rest + b, u);
      Associative(Left([o], u), Left(rest, u), Left(b, u));
    }
  }

  /** What a step must account for, for the call `u`. */
  ghost predicate Accounted(d: Downlink, d': Downlink, out: seq<Output>, u: Uuid) {
    && Queue(d, u) + Arrived(out, u) == Left(out, u) + Queue(d', u)
    && (forall f :: Dropped(u, f) in out ==> |Queue(d, u)| == MAX_QUEUED && f == Queue(d, u)[0])
    && (Removed(u) in out ==> Entry(d.calls, u).Some? && Entry(d.calls, u).value.ended && Queue(d, u) == [] && Entry(d'.calls, u).None?)
    && (Entry(d.calls, u).Some? && Entry(d'.calls, u).None? ==> Removed(u) in out)
  }

  lemma NothingAccounted(d: Downlink, d': Downlink, u: Uuid)
    requires Queue(d', u) == Queue(d, u) && (Entry(d.calls, u).Some? ==> Entry(d'.calls, u).Some?)
    ensures Accounted(d, d', [], u)
  {
    hide Entry;
  }

  lemma RoundAccounted(d: Downlink, at: Seconds, d': Downlink, out: seq<Output>, u: Uuid)
    requires d.active.Some? && Entry(d.calls, d.active.value).Some? && RoundDoes(d, at, d', out, u)
    ensures Accounted(d, d', out, u)
  {
    hide Entry, Arrived, Left;
    if out == [] {
      NothingAccounted(d, d', u);
    } else {
      SingleOutput(out[0], u);
      var c := Entry(d.calls, d.active.value).value;
      if c.frames != [] { assert c.frames == [c.frames[0]] + c.frames[1..]; }
    }
  }

  lemma ReceiveAccounted(d: Downlink, v: Uuid, payload: Block, at: Seconds, u: Uuid)
    requires Sound(d)
    ensures var (d', out) := Receive(d, v, payload, at); Accounted(d, d', out, u)
  {
    var (d', out) := Receive(d, v, payload, at);
    ReceiveSound(d, v, payload, at, u);
    hide Sound, Receive, Entry, Arrived, Left, Queued, Accounted;
    if out == [] {
      NothingAccounted(d, d', u);
    } else {
      QueueBound(d, v);
      KeptAccounted(d, d', v, payload[..STE_BYTES], u);
    }
  }

  lemma QueueBound(d: Downlink, u: Uuid)
    requires Sound(d)
    ensures |Queue(d, u)| <= MAX_QUEUED
  {
  }

  /** The outputs of a frame that is kept. */
  function KeptOutputs(q: seq<Block>, v: Uuid, frame: Block): seq<Output> {
    (if |q| >= MAX_QUEUED then [Dropped(v, q[0])] else []) + [Received(v, frame)]
  }

  lemma KeptArrives(q: seq<Block>, v: Uuid, frame: Block, u: Uuid)
    ensures var out := KeptOutputs(q, v, frame);
            if u == v then q + Arrived(out, u) == Left(out, u) + Queued(q, frame) else Arrived(out, u) == [] == Left(out, u)
  {
    hide Arrived, Left;
    SingleOutput(Received(v, frame), u);
    if |q| >= MAX_QUEUED {
      ArrivedFirst(Dropped(v, q[0]), [Received(v, frame)], u);
      LeftFirst(Dropped(v, q[0]), [Received(v, frame)], u);
      assert q + [frame] == [q[0]] + (q[1..] + [frame]);
    } else {
      assert KeptOutputs(q, v, frame) == [Received(v, frame)];
    }
  }

  lemma KeptAccounted(d: Downlink, d': Downlink, v: Uuid, frame: Block, u: Uuid)
    requires |Queue(d, v)| <= MAX_QUEUED && Entry(d.calls, v).Some? && Entry(d'.calls, v).Some?
    requires Queue(d', v) == Queued(Queue(d, v), frame) && (u != v ==> Entry(d'.calls, u) == Entry(d.calls, u))
    ensures Accounted(d, d', KeptOutputs(Queue(d, v), v, frame), u)
  {
    if u != v { SameQueue(d, d', u); }
    hide Entry, Arrived, Left, Queued, Queue, KeptOutputs;
    KeptArrives(Queue(d, v), v, frame, u);
    KeptDrops(Queue(d, v), v, frame, u);
    assert [] + Queue(d, u) == Queue(d, u) == Queue(d, u) + [];
  }

  lemma SameQueue(d: Downlink, d': Downlink, u: Uuid)
    requires Entry(d'.calls, u) == Entry(d.calls, u)
    ensures Queue(d', u) == Queue(d, u)
  {
    hide Entry;
  }

  lemma KeptDrops(q: seq<Block>, v: Uuid, frame: Block, u: Uuid)
    requires |q| <= MAX_QUEUED
    ensures var out := KeptOutputs(q, v, frame);
            && Removed(u) !in out
            && forall f :: Dropped(u, f) in out ==> u == v && |q| == MAX_QUEUED && f == q[0]
  {
  }

  /** One step accounts for every frame of every call, and keeps the table sound. */
  lemma StepConserves(d: Downlink, e: Event, u: Uuid)
    requires Sound(d)
    ensures Sound(Step(d, e).0)
    ensures Queue(d, u) + Arrived(Step(d, e).1, u) == Left(Step(d, e).1, u) + Queue(Step(d, e).0, u)
    ensures forall f :: Dropped(u, f) in Step(d, e).1 ==> |Queue(d, u)| == MAX_QUEUED && f == Queue(d, u)[0]
    ensures Removed(u) in Step(d, e).1 ==>
              Entry(d.calls, u).Some? && Entry(d.calls, u).value.ended && Queue(d, u) == [] && Entry(Step(d, e).0.calls, u).None?
    ensures Entry(d.calls, u).Some? && Entry(Step(d, e).0.calls, u).None? ==> Removed(u) in Step(d, e).1
  {
    hide Start, End, Receive, Activate, PlayActive, Entry, Sound, Queue, Arrived, Left, RoundDoes;
    match e {
      case GroupTx(v, routed, echo, at) =>
        StartSound(d, v, routed, echo, at, u);
        NothingAccounted(d, Step(d, e).0, u);
      case GroupIdle(v) =>
        EndSound(d, v, u);
        NothingAccounted(d, Step(d, e).0, u);
      case Voice(v, payload, at) =>
        ReceiveSound(d, v, payload, at, u);
        ReceiveAccounted(d, v, payload, at, u);
      case Tick(at) => TickConserves(d, at, u);
      case Own(v, until) => UnchangedConserves(d, Step(d, e).0, u);
      case ExpireOwned(at) => UnchangedConserves(d, Step(d, e).0, u);
    }
  }

  lemma UnchangedConserves(d: Downlink, d': Downlink, u: Uuid)
    requires Sound(d) && d'.calls == d.calls && d'.active == d.active
    ensures Sound(d') && Accounted(d, d', [], u)
  {
    SameCalls(d, d');
    NothingAccounted(d, d', u);
  }

  lemma TickConserves(d: Downlink, at: Seconds, u: Uuid)
    requires Sound(d)
    ensures Sound(Step(d, Tick(at)).0) && Accounted(d, Step(d, Tick(at)).0, Step(d, Tick(at)).1, u)
  {
    hide Activate, PlayActive, Entry, Sound, Arrived, Left, RoundDoes;
    ActivateSound(d, u);
    var a := Activate(d);
    if a.active.Some? {
      PlaySound(a, at, u);
      RoundAccounted(a, at, PlayActive(a, at).0, PlayActive(a, at).1, u);
    } else {
      IdleRound(a, at);
      NothingAccounted(d, a, u);
    }
  }

  lemma IdleRound(d: Downlink, at: Seconds)
    requires d.active.None?
    ensures PlayActive(d, at) == (d, [])
  {
  }

  /** The state and the whole history after a run. */
  function Run(d: Downlink, events: seq<Event>): (Downlink, seq<Output>)
    decreases |events|
  {
    if events == [] then (d, [])
    else
      var (d1, out) := Step(d, events[0]);
      var (d2, more) := Run(d1, events[1..]);
      (d2, out + more)
  }

  lemma RunNext(d: Downlink, e: Event, events: seq<Event>)
    ensures Run(d, [e] + events) == (Run(Step(d, e).0, events).0, Step(d, e).1 + Run(Step(d, e).0, events).1)
  {
    hide Step;
    assert ([e] + events)[1..] == events;
  }

  predicate Idle(d: Downlink) { d.calls == [] && d.active == None }

  lemma {:induction false} RunAccounts(d: Downlink, events: seq<Event>, u: Uuid)
    requires Sound(d)
    ensures var (d', out) := Run(d, events);
            Sound(d') && Queue(d, u) + Arrived(out, u) == Left(out, u) + Queue(d', u)
    decreases |events|
  {
    hide Step, Sound, Queue;
    if events != [] {
      var (d1, out) := Step(d, events[0]);
      StepConserves(d, events[0], u);
      RunAccounts(d1, events[1..], u);
      var (d2, more) := Run(d1, events[1..]);
      ArrivedConcat(out, more, u);
      LeftConcat(out, more, u);
      Rearranged(Queue(d, u), Arrived(out, u), Left(out, u), Queue(d1, u), Arrived(more, u), Left(more, u), Queue(d2, u));
    }
  }

  lemma Rearranged(q0: seq<Block>, a: seq<Block>, l: seq<Block>, q1: seq<Block>, a': seq<Block>, l': seq<Block>, q2: seq<Block>)
    requires q0 + a == l + q1 && q1 + a' == l' + q2
    ensures q0 + (a + a') == (l + l') + q2
  {
    assert q0 + (a + a') == (q0 + a) + a' == (l + q1) + a' == l + (q1 + a') == l + (l' + q2);
  }

  // ------------------------------------------------------------------ voice

  /** A voice event the network means for an open slot of the table: its call is there, neither our own nor ignored, and it holds a whole block. */
  predicate Taken(d: Downlink, e: Event, u: Uuid) {
    && e.Voice? && e.uuid == u && |e.payload| >= 36
    && Entry(d.calls, u).Some? && u !in d.owned && u !in d.ignored
  }

  /**
   * What a voice event does, exactly: if it is taken, its first 36 bytes go behind every frame queued
   * before, of which only the oldest of 24 gives way, and the call has heard from the network just now; no
   * other call changes. Any other voice event changes nothing.
   */
  lemma VoiceIsQueued(d: Downlink, e: Event, other: Uuid)
    requires Sound(d) && e.Voice?
    ensures var (d', out) := Step(d, e);
            if Taken(d, e, e.uuid) then
              var c := Entry(d.calls, e.uuid).value;
              && Entry(d'.calls, e.uuid) ==
                 Some(c.(frames := (if |c.frames| == 24 then c.frames[1..] else c.frames) + [e.payload[..36]], lastFrameAt := e.at))
              && (other != e.uuid ==> Entry(d'.calls, other) == Entry(d.calls, other))
              && d' == d.(calls := d'.calls) && |d'.calls| == |d.calls|
            else d' == d && out == []
  {
    var i := Find(d.calls, e.uuid);
    if Taken(d, e, e.uuid) {
      SoundAt(d, i);
      var c := d.calls[i];
      var c' := c.(frames := Queued(c.frames, e.payload[..STE_BYTES]), lastFrameAt := e.at);
      hide Find, Entry, Sound;
      UpdateSound(d, i, c', d.active, e.uuid);
      UpdateSound(d, i, c', d.active, other);
    }
  }

  /** The blocks of the voice events of a run that are taken for `u`, in order. */
  function TakenBlocks(d: Downlink, events: seq<Event>, u: Uuid): seq<Block>
    decreases |events|
  {
    if events == [] then []
    else (if Taken(d, events[0], u) then [events[0].payload[..36]] else []) + TakenBlocks(Step(d, events[0]).0, events[1..], u)
  }

  lemma StepArrives(d: Downlink, e: Event, u: Uuid)
    ensures Arrived(Step(d, e).1, u) == if Taken(d, e, u) then [e.payload[..36]] else []
  {
    hide Start, End, Activate, Find, PlayActive, Entry, Arrived;
    EntryFound(d, u);
    if e.Tick? { TickArrives(d, e.at, u); }
    if e.Voice? {
      EntryFound(d, e.uuid);
      ReceiveArrives(d, e.uuid, e.payload, e.at, u);
    } else if !e.Tick? {
      NoOutput(u);
    }
  }

  lemma NoOutput(u: Uuid)
    ensures Arrived([], u) == []
  {
  }

  lemma EntryFound(d: Downlink, u: Uuid)
    ensures Entry(d.calls, u).Some? <==> Find(d.calls, u) < |d.calls|
  {
  }

  lemma ReceiveArrives(d: Downlink, v: Uuid, payload: Block, at: Seconds, u: Uuid)
    ensures Arrived(Receive(d, v, payload, at).1, u) ==
            if u == v && v !in d.owned && v !in d.ignored && |payload| >= 36 && Find(d.calls, v) < |d.calls| then [payload[..36]] else []
  {
    hide Arrived, Find;
    NoOutput(u);
    if |payload| >= STE_BYTES {
      var kept := Received(v, payload[..STE_BYTES]);
      SingleOutput(kept, u);
      var i := Find(d.calls, v);
      if i < |d.calls| && |d.calls[i].frames| >= MAX_QUEUED { ArrivedFirst(Dropped(v, d.calls[i].frames[0]), [kept], u); }
      assert [] + [kept] == [kept];
    }
  }

  lemma TickArrives(d: Downlink, at: Seconds, u: Uuid)
    ensures Arrived(Step(d, Tick(at)).1, u) == []
  {
    hide Activate, Find, Arrived;
    NoOutput(u);
    var out := PlayActive(Activate(d), at).1;
    if out != [] { SingleOutput(out[0], u); }
  }

  lemma {:induction false} RunArrives(d: Downlink, events: seq<Event>, u: Uuid)
    ensures Arrived(Run(d, events).1, u) == TakenBlocks(d, events, u)
    decreases |events|
  {
    hide Step, Taken;
    if events != [] {
      var (d1, out) := Step(d, events[0]);
      StepArrives(d, events[0], u);
      RunArrives(d1, events[1..], u);
      ArrivedConcat(out, Run(d1, events[1..]).1, u);
    }
  }

  /**
   * Conservation: after every run, for every call id ever used, the blocks of the voice events taken
   * are exactly the frames that left (played or dropped, in that order) followed by those still
   * queued. The table stays sound throughout.
   */
  lemma RunConserves(d: Downlink, events: seq<Event>, u: Uuid)
    requires Idle(d)
    ensures var (d', out) := Run(d, events);
            Sound(d') && TakenBlocks(d, events, u) == Left(out, u) + Queue(d', u)
  {
    hide Run;
    RunAccounts(d, events, u);
    RunArrives(d, events, u);
    assert [] + Arrived(Run(d, events).1, u) == Arrived(Run(d, events).1, u);
  }

  // ------------------------------------------------------------------ transmissions

  /** A transmission opens or reopens its call: it is routed, not our own or its echo, and no other call is open unless this one is known. */
  predicate Opens(d: Downlink, u: Uuid, routed: bool, echo: bool) {
    routed && u !in d.owned && !echo && (Entry(d.calls, u).Some? || forall i :: 0 <= i < |d.calls| ==> d.calls[i].ended)
  }

  /** What a transmission does: it opens its call, keeping what a known one has queued, or has it ignored. */
  lemma TransmissionOutcome(d: Downlink, u: Uuid, routed: bool, echo: bool, at: Seconds, other: Uuid)
    requires Sound(d)
    ensures var d' := Step(d, GroupTx(u, routed, echo, at)).0;
            if Opens(d, u, routed, echo) then
              && Entry(d'.calls, u) == Some(if Entry(d.calls, u).Some? then Entry(d.calls, u).value.(ended := false)
                                            else Call(u, at, at, [], false, false, 0))
              && (other != u ==> Entry(d'.calls, other) == Entry(d.calls, other)) && d'.ignored == d.ignored
            else d' == d.(ignored := d.ignored + {u})
  {
    hide Entry, Sound;
    StartSound(d, u, routed, echo, at, other);
    EntryFound(d, u);
    var i := Find(d.calls, u);
    if Opens(d, u, routed, echo) {
      if i < |d.calls| {
        SoundAt(d, i);
        UpdateSound(d, i, d.calls[i].(ended := false), d.active, u);
      } else {
        AppendSound(d, Call(u, at, at, [], false, false, 0), u);
        NoneOpen(d);
      }
    }
  }

  lemma NoneOpen(d: Downlink)
    requires forall i :: 0 <= i < |d.calls| ==> d.calls[i].ended
    ensures !exists c :: c in d.calls && !c.ended
  {
  }

  /** What the network's idle does: it releases an ignored call, or else ends the call, its queue kept. */
  lemma IdleOutcome(d: Downlink, u: Uuid, other: Uuid)
    requires Sound(d)
    ensures var d' := Step(d, GroupIdle(u)).0;
            if u in d.ignored then d' == d.(ignored := d.ignored - {u})
            else
              && d' == d.(calls := d'.calls)
              && Entry(d'.calls, other) ==
                 if other == u && Entry(d.calls, u).Some? then Some(Entry(d.calls, u).value.(ended := true)) else Entry(d.calls, other)
  {
    hide Entry, Sound;
    EntryFound(d, u);
    EntryFound(d, other);
    var i := Find(d.calls, u);
    if u !in d.ignored && i < |d.calls| {
      SoundAt(d, i);
      UpdateSound(d, i, d.calls[i].(ended := true), d.active, other);
    }
  }

  /** What the loop forgets of our own calls, exactly: those whose time has come, and that they were ignored. */
  lemma OwnedExpire(d: Downlink, at: Seconds, u: Uuid)
    ensures var d' := Step(d, ExpireOwned(at)).0;
            && (u in d'.owned <==> u in d.owned && at < d.owned[u])
            && (u in d'.ignored <==> u in d.ignored && (u in d.owned ==> at < d.owned[u]))
            && d'.calls == d.calls && d'.active == d.active
  {
  }

  /** The events that end an ignored state: the network idles the call, or an uplink of our own takes its id. */
  predicate Releases(e: Event, u: Uuid) { (e.GroupIdle? || e.Own?) && e.uuid == u }

  /**
   * An ignored call stays unheard until the network idles it - even if a later transmission, once the
   * channel is free, puts it in the table.
   */
  lemma {:induction false} IgnoredStaysUnheard(d: Downlink, events: seq<Event>, u: Uuid)
    requires Sound(d) && u in d.ignored && u !in d.owned && Queue(d, u) == []
    requires forall i :: 0 <= i < |events| ==> !Releases(events[i], u)
    ensures TakenBlocks(d, events, u) == [] && Queue(Run(d, events).0, u) == [] && Left(Run(d, events).1, u) == []
    decreases |events|
  {
    hide Step, Sound, Queue;
    if events != [] {
      var (d1, out) := Step(d, events[0]);
      IgnoredStep(d, events[0], u);
      StepArrives(d, events[0], u);
      StepConserves(d, events[0], u);
      IgnoredStaysUnheard(d1, events[1..], u);
      LeftConcat(out, Run(d1, events[1..]).1, u);
      assert [] + [] == Left(out, u) + Queue(d1, u);
    }
  }

  lemma IgnoredStep(d: Downlink, e: Event, u: Uuid)
    requires u in d.ignored && u !in d.owned && !Releases(e, u)
    ensures u in Step(d, e).0.ignored && u !in Step(d, e).0.owned && !Taken(d, e, u)
  {
    hide Find, Entry, Pick;
  }

  /** The echo of an uplink of our own is not heard: none of its voice is taken until its time has come. */
  lemma OwnCallIsUnheard(d: Downlink, u: Uuid, until: Seconds, events: seq<Event>)
    requires forall i :: 0 <= i < |events| ==> !(events[i].Own? && events[i].uuid == u) && (events[i].ExpireOwned? ==> events[i].at < until)
    ensures TakenBlocks(Step(d, Own(u, until)).0, events, u) == []
  {
    hide TakenBlocks;
    OwnedIsUnheard(Step(d, Own(u, until)).0, events, u);
  }

  lemma {:induction false} OwnedIsUnheard(d: Downlink, events: seq<Event>, u: Uuid)
    requires u in d.owned
    requires forall i :: 0 <= i < |events| ==> !(events[i].Own? && events[i].uuid == u) && (events[i].ExpireOwned? ==> events[i].at < d.owned[u])
    ensures TakenBlocks(d, events, u) == []
    decreases |events|
  {
    hide Step;
    if events != [] {
      OwnedStep(d, events[0], u);
      OwnedIsUnheard(Step(d, events[0]).0, events[1..], u);
    }
  }

  lemma OwnedStep(d: Downlink, e: Event, u: Uuid)
    requires u in d.owned && !(e.Own? && e.uuid == u) && (e.ExpireOwned? ==> e.at < d.owned[u])
    ensures Get(Step(d, e).0.owned, u) == Some(d.owned[u]) && !Taken(d, e, u)
  {
    hide Find, Entry, Pick;
  }

  /**
   * Playout of a call that was not yet playing starts only once its jitter buffer is filled or
   * it has ended: no call is started while none is active, so the smaller rebuffering threshold
   * is never the one that applies.
   */
  lemma PlayoutStartsBuffered(d: Downlink)
    requires Sound(d) && d.active.None? && Activate(d).active.Some?
    ensures var c := Entry(d.calls, Activate(d).active.value);
            c.Some? && (|c.value.frames| >= d.jitterFrames || (c.value.ended && c.value.frames != []))
  {
    PickIsFirstEligible(d);
    SoundAt(d, Pick(d).value);
  }

  /** A call is ready when its jitter buffer is filled, or it has ended with a frame left. */
  predicate Ready(d: Downlink, c: Call) { |c.frames| >= d.jitterFrames || (c.ended && c.frames != []) }

  /** The ready call created first; of two created together, the one that came first to the table. */
  ghost predicate FirstReady(d: Downlink, i: nat) {
    && i < |d.calls| && Ready(d, d.calls[i])
    && forall j :: 0 <= j < |d.calls| && Ready(d, d.calls[j]) ==>
         d.calls[i].createdAt < d.calls[j].createdAt || (d.calls[i].createdAt == d.calls[j].createdAt && i <= j)
  }

  /** With no call playing, a round plays the first frame of the first ready call, and rests only if none is ready. */
  lemma RoundStartsFirstReady(d: Downlink, at: Seconds)
    requires Sound(d) && d.jitterFrames >= 1 && d.active.None?
    ensures var (d', out) := Step(d, Tick(at));
            if exists i :: 0 <= i < |d.calls| && Ready(d, d.calls[i]) then
              exists i: nat :: FirstReady(d, i) && d'.active == Some(d.calls[i].uuid)
                          && d.calls[i].frames != [] && out == [Played(d.calls[i].uuid, d.calls[i].frames[0])]
            else d' == d && out == []
  {
    EligibleIsReady(d);
    PickIsFirstEligible(d);
    hide Pick, Find, Entry, Ready, Eligible;
    if Pick(d).Some? {
      var i := Pick(d).value;
      SoundAt(d, i);
      ReadyHasFrame(d, i);
      assert FirstReady(d, i);
      ActivateSound(d, d.calls[i].uuid);
      PlaySound(Activate(d), at, d.calls[i].uuid);
    }
  }

  lemma EligibleIsReady(d: Downlink)
    requires Sound(d) && d.active.None?
    ensures forall i :: 0 <= i < |d.calls| ==> (Eligible(d, d.calls[i]) <==> Ready(d, d.calls[i]))
  {
    forall i | 0 <= i < |d.calls| ensures !d.calls[i].started { SoundAt(d, i); }
  }

  lemma ReadyHasFrame(d: Downlink, i: nat)
    requires d.jitterFrames >= 1 && i < |d.calls| && Ready(d, d.calls[i])
    ensures d.calls[i].frames != []
  {
  }

  // ------------------------------------------------------------------ how ended calls leave

  /** The two event kinds that bring an ended call back to life: its transmission and its voice. */
  predicate Revives(e: Event, u: Uuid) { (e.GroupTx? || e.Voice?) && e.uuid == u }

  predicate NoneRevives(events: seq<Event>, u: Uuid) { forall i :: 0 <= i < |events| ==> !Revives(events[i], u) }

  predicate EndedCall(d: Downlink, u: Uuid) { Entry(d.calls, u).Some? && Entry(d.calls, u).value.ended }

  /** An ended call the loop has still to deal with. */
  predicate Due(d: Downlink, u: Uuid) { EndedCall(d, u) && (d.active == Some(u) || Queue(d, u) != []) }

  /** An ended call the loop never looks at again. */
  predicate Stranded(d: Downlink, u: Uuid) { EndedCall(d, u) && d.active != Some(u) && Queue(d, u) == [] }

  /** The outputs about the call `u`. */
  function Of(outs: seq<Output>, u: Uuid): seq<Output> {
    if outs == [] then [] else (if outs[0].uuid == u then [outs[0]] else []) + Of(outs[1..], u)
  }

  lemma OfFirst(o: Output, rest: seq<Output>, u: Uuid)
    ensures Of([o] + rest, u) == (if o.uuid == u then [o] else []) + Of(rest, u)
  {
    assert ([o] + rest)[1..] == rest;
  }

  lemma {:induction false} OfConcat(a: seq<Output>, b: seq<Output>, u: Uuid)
    ensures Of(a + b, u) == Of(a, u) + Of(b, u)
  {
    if a == [] {
      assert a + b == b;
    } else {
      var o, rest := a[0], a[1..];
      assert a == [o] + rest && a + b == [o] + (rest + b);
      hide Of;
      OfConcat(rest, b, u);
      OfFirst(o, rest, u);
      OfFirst(o, rest + b, u);
    }
  }

  lemma OfSingle(o: Output, u: Uuid)
    ensures Of([o], u) == if o.uuid == u then [o] else []
  {
    assert [o][1..] == [];
  }

  lemma OfOthers(outs: seq<Output>, u: Uuid)
    requires |outs| <= 2 && forall i :: 0 <= i < |outs| ==> outs[i].uuid != u
    ensures Of(outs, u) == []
  {
    if outs != [] { assert outs[1..] == [] || outs[1..][1..] == []; }
  }

  function PlayedAll(u: Uuid, frames: seq<Block>): seq<Output> {
    if frames == [] then [] else [Played(u, frames[0])] + PlayedAll(u, frames[1..])
  }

  /** Without configured buffering of at least one frame, an empty call is never eligible. */
  lemma StrandedNotEligible(d: Downlink, u: Uuid)
    requires Sound(d) && d.jitterFrames >= 1 && Stranded(d, u)
    ensures !Eligible(d, Entry(d.calls, u).value)
  {
    SoundAt(d, Find(d.calls, u));
  }

  /** What a step without news for `u` does to an ended call. */
  ghost predicate EndedStep(d: Downlink, d': Downlink, out: seq<Output>, u: Uuid) {
    if Stranded(d, u) then Entry(d'.calls, u) == Entry(d.calls, u) && d'.active != Some(u) && Of(out, u) == []
    else if Due(d', u) then
      || (Queue(d', u) == Queue(d, u) && Of(out, u) == [])
      || (Queue(d, u) != [] && Queue(d', u) == Queue(d, u)[1..] && Of(out, u) == [Played(u, Queue(d, u)[0])])
    else Entry(d'.calls, u) == None && Queue(d, u) == [] && Of(out, u) == [Removed(u)]
  }

  lemma UntouchedStep(d: Downlink, d': Downlink, out: seq<Output>, u: Uuid)
    requires EndedCall(d, u) && Entry(d'.calls, u) == Entry(d.calls, u) && d'.active == d.active && Of(out, u) == []
    ensures EndedStep(d, d', out, u)
  {
    hide Entry;
  }

  lemma TickOnEnded(d: Downlink, at: Seconds, u: Uuid)
    requires Sound(d) && d.jitterFrames >= 1 && EndedCall(d, u)
    ensures EndedStep(d, Step(d, Tick(at)).0, Step(d, Tick(at)).1, u)
  {
    hide Activate, PlayActive, Entry, Sound, Of, Eligible;
    ActivateSound(d, u);
    if Stranded(d, u) { StrandedNotEligible(d, u); }
    var a := Activate(d);
    if a.active.Some? {
      PlaySound(a, at, u);
      var out := PlayActive(a, at).1;
      if out != [] { OfSingle(out[0], u); } else { OfOthers(out, u); }
    } else {
      IdleRound(a, at);
      OfOthers([], u);
      UntouchedStep(d, a, [], u);
    }
  }

  lemma StepOnEnded(d: Downlink, e: Event, u: Uuid)
    requires Sound(d) && d.jitterFrames >= 1 && EndedCall(d, u) && !Revives(e, u)
    ensures EndedStep(d, Step(d, e).0, Step(d, e).1, u)
  {
    hide Start, End, Receive, Activate, PlayActive, Entry, Sound, Queue, EndedStep, Of;
    OfOthers([], u);
    match e {
      case GroupTx(v, routed, echo, at) => StartSound(d, v, routed, echo, at, u); UntouchedStep(d, Step(d, e).0, [], u);
      case GroupIdle(v) => EndSound(d, v, u); UntouchedStep(d, Step(d, e).0, [], u);
      case Voice(v, payload, at) =>
        ReceiveSound(d, v, payload, at, u);
        OfOthers(Step(d, e).1, u);
        UntouchedStep(d, Step(d, e).0, Step(d, e).1, u);
      case Tick(at) => TickOnEnded(d, at, u);
      case Own(v, until) => UntouchedStep(d, Step(d, e).0, [], u);
      case ExpireOwned(at) => UntouchedStep(d, Step(d, e).0, [], u);
    }
  }

  lemma StepKeepsSettings(d: Downlink, e: Event)
    ensures Step(d, e).0.jitterFrames == d.jitterFrames
  {
    hide Find, Pick;
  }

  /**
   * An ended call with no frame queued that is not the one playing stays in the table, unchanged
   * and unheard, through any run that brings neither a transmission nor voice for it.
   */
  lemma {:induction false} StrandedCallStays(d: Downlink, events: seq<Event>, u: Uuid)
    requires Sound(d) && d.jitterFrames >= 1 && Stranded(d, u) && NoneRevives(events, u)
    ensures var (d', out) := Run(d, events);
            Entry(d'.calls, u) == Entry(d.calls, u) && d'.active != Some(u) && Of(out, u) == []
    decreases |events|
  {
    hide Step, Sound, Entry;
    if events != [] {
      StepOnEnded(d, events[0], u);
      StepConserves(d, events[0], u);
      StepKeepsSettings(d, events[0]);
      var (d1, out) := Step(d, events[0]);
      StrandedCallStays(d1, events[1..], u);
      OfConcat(out, Run(d1, events[1..]).1, u);
    }
  }

  /**
   * Any other ended call never gets stranded: through any such run it plays its queued frames in
   * order, and if it leaves the table it has played them all.
   */
  lemma {:induction false} DueCallPlaysOut(d: Downlink, events: seq<Event>, u: Uuid)
    requires Sound(d) && d.jitterFrames >= 1 && Due(d, u) && NoneRevives(events, u)
    ensures var (d', out) := Run(d, events);
            || (Due(d', u) && Of(out, u) + PlayedAll(u, Queue(d', u)) == PlayedAll(u, Queue(d, u)))
            || (Entry(d'.calls, u) == None && Of(out, u) == PlayedAll(u, Queue(d, u)) + [Removed(u)])
    decreases |events|
  {
    hide Step, Sound, Entry, Queue, PlayedAll;
    if events != [] {
      var (d1, out) := Step(d, events[0]);
      var rest := events[1..];
      StepOnEnded(d, events[0], u);
      StepConserves(d, events[0], u);
      StepKeepsSettings(d, events[0]);
      OfConcat(out, Run(d1, rest).1, u);
      if Due(d1, u) {
        DueCallPlaysOut(d1, rest, u);
        PlayedOn(u, Queue(d, u), Queue(d1, u), Of(out, u), Of(Run(d1, rest).1, u), Queue(Run(d1, rest).0, u));
      } else {
        GoneStays(d1, rest, u);
        NothingPlayed(u);
      }
    }
  }

  lemma NothingPlayed(u: Uuid)
    ensures PlayedAll(u, []) + [Removed(u)] == [Removed(u)] + []
  {
  }

  /** Frames played in one step and then the rest are the frames played. */
  lemma PlayedOn(u: Uuid, q: seq<Block>, q1: seq<Block>, out: seq<Output>, more: seq<Output>, q2: seq<Block>)
    requires (q1 == q && out == []) || (q != [] && q1 == q[1..] && out == [Played(u, q[0])])
    ensures more + PlayedAll(u, q2) == PlayedAll(u, q1) ==> (out + more) + PlayedAll(u, q2) == PlayedAll(u, q)
    ensures more == PlayedAll(u, q1) + [Removed(u)] ==> out + more == PlayedAll(u, q) + [Removed(u)]
  {
    assert out + PlayedAll(u, q1) == PlayedAll(u, q);
    assert (out + more) + PlayedAll(u, q2) == out + (more + PlayedAll(u, q2));
    assert out + (PlayedAll(u, q1) + [Removed(u)]) == (out + PlayedAll(u, q1)) + [Removed(u)];
  }

  lemma {:induction false} GoneStays(d: Downlink, events: seq<Event>, u: Uuid)
    requires Sound(d) && Entry(d.calls, u).None? && NoneRevives(events, u)
    ensures Entry(Run(d, events).0.calls, u).None? && Of(Run(d, events).1, u) == []
    decreases |events|
  {
    hide Step, Sound, Entry;
    if events != [] {
      GoneStep(d, events[0], u);
      StepConserves(d, events[0], u);
      GoneStays(Step(d, events[0]).0, events[1..], u);
      OfConcat(Step(d, events[0]).1, Run(Step(d, events[0]).0, events[1..]).1, u);
    }
  }

  lemma GoneStep(d: Downlink, e: Event, u: Uuid)
    requires Sound(d) && Entry(d.calls, u).None? && !Revives(e, u)
    ensures Entry(Step(d, e).0.calls, u).None? && Of(Step(d, e).1, u) == []
  {
    hide Start, End, Receive, Activate, PlayActive, Entry, Sound, Of;
    OfOthers([], u);
    match e {
      case GroupTx(v, routed, echo, at) => StartSound(d, v, routed, echo, at, u);
      case GroupIdle(v) => EndSound(d, v, u);
      case Voice(v, payload, at) => ReceiveSound(d, v, payload, at, u); OfOthers(Step(d, e).1, u);
      case Tick(at) =>
        ActivateSound(d, u);
        var a := Activate(d);
        if a.active.Some? {
          PlaySound(a, at, u);
          OfOthers(PlayActive(a, at).1, u);
        } else {
          IdleRound(a, at);
        }
      case Own(v, until) =>
      case ExpireOwned(at) =>
    }
  }

  // ------------------------------------------------------------------ draining

  /** Rounds of the loop, each later than an underrun of any call in the table takes. */
  ghost predicate LateRounds(d: Downlink, events: seq<Event>) {
    forall i :: 0 <= i < |events| ==> events[i].Tick? && LateFor(d, events[i].at)
  }

  /** When the calls had their last frames. */
  function FrameTimes(calls: seq<Call>): set<Seconds> {
    set c | c in calls :: c.lastFrameAt
  }

  ghost predicate LateFor(d: Downlink, at: Seconds) {
    forall t :: t in FrameTimes(d.calls) ==> at - t > UNDERRUN_AFTER
  }

  lemma TimesUpdate(calls: seq<Call>, i: nat, c: Call)
    requires i < |calls| && c.lastFrameAt == calls[i].lastFrameAt
    ensures FrameTimes(calls[i := c]) <= FrameTimes(calls)
  {
    var after := calls[i := c];
    forall other | other in after ensures other.lastFrameAt in FrameTimes(calls) {
      var k :| 0 <= k < |after| && after[k] == other;
      assert calls[k].lastFrameAt == other.lastFrameAt;
    }
  }

  lemma TimesWithout(calls: seq<Call>, i: nat)
    requires i < |calls|
    ensures FrameTimes(Without(calls, i)) <= FrameTimes(calls)
  {
    WithoutAt(calls, i);
  }

  function Total(calls: seq<Call>): nat {
    if calls == [] then 0 else |calls[0].frames| + Total(calls[1..])
  }

  lemma {:induction false} TotalSplit(a: seq<Call>, c: Call, b: seq<Call>)
    ensures Total(a + [c] + b) == Total(a + b) + |c.frames|
  {
    if a == [] {
      assert (a + [c] + b)[1..] == b && a + b == b;
    } else {
      TotalSplit(a[1..], c, b);
      assert (a + [c] + b)[1..] == a[1..] + [c] + b && (a + b)[1..] == a[1..] + b;
    }
  }

  lemma TotalUpdate(calls: seq<Call>, i: nat, c: Call)
    requires i < |calls|
    ensures Total(calls[i := c]) == Total(calls) - |calls[i].frames| + |c.frames|
    ensures Total(Without(calls, i)) == Total(calls) - |calls[i].frames|
  {
    TotalSplit(calls[..i], calls[i], calls[i + 1..]);
    TotalSplit(calls[..i], c, calls[i + 1..]);
    assert calls == calls[..i] + [calls[i]] + calls[i + 1..];
    assert calls[i := c] == calls[..i] + [c] + calls[i + 1..];
  }

  /** Rounds still needed, at most, until there is nothing left to play or to remove. */
  function Work(d: Downlink): nat {
    2 * Total(d.calls) + 2 * |d.calls| + (if d.active.Some? then 1 else 0)
  }

  ghost predicate NothingToDo(d: Downlink) {
    d.active.None? && forall i :: 0 <= i < |d.calls| ==> !Eligible(d, d.calls[i])
  }

  lemma ActivateWork(d: Downlink)
    requires Sound(d) && d.jitterFrames >= 1
    ensures var a := Activate(d);
            && Total(a.calls) == Total(d.calls) && |a.calls| == |d.calls|
            && FrameTimes(a.calls) <= FrameTimes(d.calls)
            && (d.active.None? && a.active.Some? ==> Queue(a, a.active.value) != [])
  {
    PickIsFirstEligible(d);
    if d.active.None? && Pick(d).Some? {
      var i := Pick(d).value;
      SoundAt(d, i);
      hide Find;
      var c := d.calls[i].(started := true);
      TotalUpdate(d.calls, i, c);
      EntryUpdate(d.calls, i, c, c.uuid);
      TimesUpdate(d.calls, i, c);
    }
  }

  lemma PlayWork(d: Downlink, at: Seconds)
    requires Sound(d) && d.active.Some? && LateFor(d, at)
    ensures var d' := PlayActive(d, at).0;
            && Work(d') < Work(d) && (Queue(d, d.active.value) != [] ==> Work(d') + 1 < Work(d))
            && FrameTimes(d'.calls) <= FrameTimes(d.calls)
  {
    SoundActive(d);
    var i := Find(d.calls, d.active.value);
    hide Find, Sound, Without, FrameTimes, Total;
    var c := d.calls[i];
    assert c.lastFrameAt in FrameTimes(d.calls) by { LastTimeIn(d.calls, i); }
    if c.frames != [] {
      TotalUpdate(d.calls, i, c.(frames := c.frames[1..]));
      TimesUpdate(d.calls, i, c.(frames := c.frames[1..]));
    } else if c.ended {
      TotalUpdate(d.calls, i, c);
      TimesWithout(d.calls, i);
      WithoutAt(d.calls, i);
    } else {
      TotalUpdate(d.calls, i, c.(underruns := c.underruns + 1, started := false));
      TimesUpdate(d.calls, i, c.(underruns := c.underruns + 1, started := false));
    }
  }

  lemma LastTimeIn(calls: seq<Call>, i: nat)
    requires i < |calls|
    ensures calls[i].lastFrameAt in FrameTimes(calls)
  {
  }

  /** A late round either finds nothing to do and changes nothing, or leaves less to do. */
  lemma RoundWorks(d: Downlink, at: Seconds)
    requires Sound(d) && d.jitterFrames >= 1 && LateFor(d, at)
    ensures var d' := Step(d, Tick(at)).0;
            && (if NothingToDo(d) then Step(d, Tick(at)) == (d, []) else Work(d') < Work(d))
            && FrameTimes(d'.calls) <= FrameTimes(d.calls)
  {
    hide PlayActive, Activate, Sound, Entry, Eligible;
    ActivateWork(d);
    ActivateSound(d, 0);
    var a := Activate(d);
    if a.active.Some? {
      if d.active.None? { EligibleIsWork(d, a.active.value); }
      PlayWork(a, at);
    } else {
      IdleRound(a, at);
    }
  }

  lemma EligibleIsWork(d: Downlink, u: Uuid)
    requires Entry(d.calls, u).Some? && Eligible(d, Entry(d.calls, u).value)
    ensures !NothingToDo(d)
  {
  }

  lemma DueIsWork(d: Downlink, u: Uuid)
    requires Due(d, u)
    ensures !NothingToDo(d)
  {
    hide Find;
    if d.active.None? { EligibleIsWork(d, u); }
  }

  lemma LateAfter(d: Downlink, d': Downlink, events: seq<Event>)
    requires LateRounds(d, events)
    requires FrameTimes(d'.calls) <= FrameTimes(d.calls)
    ensures LateRounds(d', events)
  {
  }

  /** After as many late rounds as there is work, there is nothing left to do. */
  lemma {:induction false} WorkRunsOut(d: Downlink, events: seq<Event>)
    requires Sound(d) && d.jitterFrames >= 1 && LateRounds(d, events) && |events| >= Work(d)
    ensures NothingToDo(Run(d, events).0)
    decreases |events|
  {
    hide Step, Sound, Work, NothingToDo;
    if events == [] {
      NoWork(d);
    } else {
      RoundWorks(d, events[0].at);
      StepConserves(d, events[0], 0);
      StepKeepsSettings(d, events[0]);
      var d1 := Step(d, events[0]).0;
      LateAfter(d, d1, events[1..]);
      if NothingToDo(d) {
        StaysIdle(d, events);
      } else {
        WorkRunsOut(d1, events[1..]);
      }
    }
  }

  lemma NoWork(d: Downlink)
    requires Work(d) == 0
    ensures NothingToDo(d)
  {
  }

  lemma {:induction false} StaysIdle(d: Downlink, events: seq<Event>)
    requires Sound(d) && d.jitterFrames >= 1 && LateRounds(d, events) && NothingToDo(d)
    ensures Run(d, events) == (d, [])
    decreases |events|
  {
    hide Step, Sound, NothingToDo;
    if events != [] {
      RoundWorks(d, events[0].at);
      StaysIdle(d, events[1..]);
      var none: seq<Output> := [];
      assert Run(d, events) == (d, none + none) && none + none == none;
    }
  }

  /**
   * With no further event for it, an ended call leaves the table if and only if it is the active one
   * or has a frame queued; it then plays exactly its queued frames, in order, and is removed.
   */
  lemma EndedCallLeavesIff(d: Downlink, events: seq<Event>, u: Uuid)
    requires Sound(d) && d.jitterFrames >= 1 && EndedCall(d, u)
    requires LateRounds(d, events) && |events| >= Work(d)
    ensures Entry(Run(d, events).0.calls, u).None? <==> d.active == Some(u) || Queue(d, u) != []
    ensures var (d', out) := Run(d, events);
            Of(out, u) == if d.active == Some(u) || Queue(d, u) != [] then PlayedAll(u, Queue(d, u)) + [Removed(u)] else []
  {
    hide Run, Sound, NothingToDo, Work, Entry;
    WorkRunsOut(d, events);
    var d' := Run(d, events).0;
    if Due(d, u) {
      DueCallPlaysOut(d, events, u);
      if Due(d', u) { DueIsWork(d', u); }
    } else {
      StrandedCallStays(d, events, u);
    }
  }

  /** A call that ends before its first voice frame is never removed: it stays for good unless the network revives it. */
  lemma CallWithoutVoiceStays(d: Downlink, u: Uuid, at: Seconds, events: seq<Event>)
    requires Idle(d) && d.jitterFrames >= 1 && u !in d.owned && u !in d.ignored && NoneRevives(events, u)
    ensures Entry(Run(d, [GroupTx(u, true, false, at), GroupIdle(u)] + events).0.calls, u) == Some(Call(u, at, at, [], true, false, 0))
  {
    var tx, idle := GroupTx(u, true, false, at), GroupIdle(u);
    var d1 := Step(d, tx).0;
    var d2 := Step(d1, idle).0;
    assert d2.calls == [Call(u, at, at, [], true, false, 0)];
    assert [tx, idle] + events == [tx] + ([idle] + events);
    RunNext(d, tx, [idle] + events);
    RunNext(d1, idle, events);
    StrandedCallStays(d2, events, u);
  }

  /**
   * An ended active call with n queued frames plays exactly those, in order, on the next n
   * rounds of the loop, and is removed on the one after.
   */
  lemma {:induction false} ActiveCallDrains(d: Downlink, events: seq<Event>, u: Uuid)
    requires Sound(d) && d.active == Some(u) && EndedCall(d, u)
    requires (forall i :: 0 <= i < |events| ==> events[i].Tick?) && |events| == |Queue(d, u)| + 1
    ensures Run(d, events).1 == PlayedAll(u, Queue(d, u)) + [Removed(u)]
    ensures Run(d, events).0.active == None && Entry(Run(d, events).0.calls, u).None?
    decreases |events|
  {
    hide Sound, Entry, PlayActive;
    assert Activate(d) == d;
    var (d1, out) := Step(d, events[0]);
    PlaySound(d, events[0].at, u);
    var q := Queue(d, u);
    if q == [] {
      assert events[1..] == [];
      assert out + [] == out && PlayedAll(u, []) + [Removed(u)] == [Removed(u)];
    } else {
      ActiveCallDrains(d1, events[1..], u);
      assert [Played(u, q[0])] + (PlayedAll(u, q[1..]) + [Removed(u)]) == ([Played(u, q[0])] + PlayedAll(u, q[1..])) + [Removed(u)];
    }
  }

  // ------------------------------------------------------------------ the whole life of a call

  predicate VoiceOf(events: seq<Event>, u: Uuid) {
    forall i :: 0 <= i < |events| ==> events[i].Voice? && events[i].uuid == u && |events[i].payload| >= 36
  }

  /** The first 36 bytes of each voice event. */
  function Blocks(events: seq<Event>): seq<Block>
    requires forall i :: 0 <= i < |events| ==> events[i].Voice? && |events[i].payload| >= 36
  {
    seq(|events|, i requires 0 <= i < |events| => events[i].payload[..36])
  }

  function ReceivedAll(u: Uuid, frames: seq<Block>): seq<Output> {
    if frames == [] then [] else [Received(u, frames[0])] + ReceivedAll(u, frames[1..])
  }

  /** The one call of the table, open and not playing, with these frames. */
  predicate Filling(d: Downlink, u: Uuid, frames: seq<Block>) {
    && |d.calls| == 1 && d.active.None? && u !in d.owned && u !in d.ignored
    && d.calls[0].uuid == u && d.calls[0].frames == frames && !d.calls[0].started
  }

  lemma FillStep(d: Downlink, u: Uuid, frames: seq<Block>, e: Event)
    requires Filling(d, u, frames) && |frames| < 24 && e.Voice? && e.uuid == u && |e.payload| >= 36
    ensures Filling(Step(d, e).0, u, frames + [e.payload[..36]]) && Step(d, e).1 == [Received(u, e.payload[..36])]
  {
  }

  lemma {:induction false} Fills(d: Downlink, u: Uuid, frames: seq<Block>, events: seq<Event>)
    requires Filling(d, u, frames) && VoiceOf(events, u) && |frames| + |events| <= 24
    ensures Filling(Run(d, events).0, u, frames + Blocks(events)) && Run(d, events).1 == ReceivedAll(u, Blocks(events))
    decreases |events|
  {
    hide Step, Filling;
    if events == [] {
      assert frames + Blocks(events) == frames;
    } else {
      FillStep(d, u, frames, events[0]);
      var block := events[0].payload[..36];
      Fills(Step(d, events[0]).0, u, frames + [block], events[1..]);
      assert Blocks(events) == [block] + Blocks(events[1..]);
      assert (frames + [block]) + Blocks(events[1..]) == frames + Blocks(events);
    }
  }

  lemma {:induction false} RunConcat(d: Downlink, a: seq<Event>, b: seq<Event>)
    ensures Run(d, a + b) == (Run(Run(d, a).0, b).0, Run(d, a).1 + Run(Run(d, a).0, b).1)
    decreases |a|
  {
    hide Run, Step;
    if a == [] {
      NothingRun(d);
      assert a + b == b;
      assert [] + Run(d, b).1 == Run(d, b).1;
    } else {
      var d1, rest := Step(d, a[0]).0, a[1..];
      assert a == [a[0]] + rest && a + b == [a[0]] + (rest + b);
      RunNext(d, a[0], rest);
      RunNext(d, a[0], rest + b);
      RunConcat(d1, rest, b);
      Associative(Step(d, a[0]).1, Run(d1, rest).1, Run(Run(d1, rest).0, b).1);
    }
  }

  lemma NothingRun(d: Downlink)
    ensures Run(d, []) == (d, [])
  {
  }

  /**
   * A call from end to end: announced while the table is empty, given up to 24 voice blocks, and idled, it is
   * played whole and in order, one block a round, and then leaves the table.
   */
  lemma CallPlaysThrough(d: Downlink, u: Uuid, at: Seconds, voice: seq<Event>, rounds: seq<Event>)
    requires Idle(d) && d.jitterFrames >= 1 && u !in d.owned && u !in d.ignored
    requires VoiceOf(voice, u) && 1 <= |voice| <= 24
    requires |rounds| == |voice| + 1 && forall i :: 0 <= i < |rounds| ==> rounds[i].Tick?
    ensures var (d', out) := Run(d, [GroupTx(u, true, false, at)] + (voice + ([GroupIdle(u)] + rounds)));
            out == ReceivedAll(u, Blocks(voice)) + (PlayedAll(u, Blocks(voice)) + [Removed(u)]) && Idle(d')
  {
    var start, idle := GroupTx(u, true, false, at), [GroupIdle(u)] + rounds;
    StartFills(d, u, at);
    hide Run, Step, Filling, Blocks, ReceivedAll, PlayedAll, Idle;
    var d1 := Step(d, start).0;
    Fills(d1, u, [], voice);
    assert [] + Blocks(voice) == Blocks(voice);
    SettingsStay(d1, voice);
    var d2 := Run(d1, voice).0;
    EndedPlaysThrough(d2, u, Blocks(voice), rounds);
    ThreeParts(d, start, voice, GroupIdle(u), rounds);
  }

  /** A run in parts, two of which are steps that put nothing out. */
  lemma ThreeParts(d: Downlink, start: Event, voice: seq<Event>, idle: Event, rounds: seq<Event>)
    requires Step(d, start).1 == [] && Step(Run(Step(d, start).0, voice).0, idle).1 == []
    ensures var d1 := Step(d, start).0;
            var d2 := Run(d1, voice).0;
            var d3 := Step(d2, idle).0;
            Run(d, [start] + (voice + ([idle] + rounds))) == (Run(d3, rounds).0, Run(d1, voice).1 + Run(d3, rounds).1)
  {
    hide Run, Step;
    var d1 := Step(d, start).0;
    var d2 := Run(d1, voice).0;
    RunNext(d, start, voice + ([idle] + rounds));
    RunConcat(d1, voice, [idle] + rounds);
    RunNext(d2, idle, rounds);
    assert forall outs: seq<Output> :: [] + outs == outs;
  }

  lemma StartFills(d: Downlink, u: Uuid, at: Seconds)
    requires Idle(d) && u !in d.owned && u !in d.ignored
    ensures var (d1, out) := Step(d, GroupTx(u, true, false, at)); Filling(d1, u, []) && out == [] && d1.jitterFrames == d.jitterFrames
  {
  }

  lemma {:induction false} SettingsStay(d: Downlink, events: seq<Event>)
    ensures Run(d, events).0.jitterFrames == d.jitterFrames
    decreases |events|
  {
    hide Step;
    if events != [] {
      StepKeepsSettings(d, events[0]);
      SettingsStay(Step(d, events[0]).0, events[1..]);
    }
  }

  lemma EndedPlaysThrough(d: Downlink, u: Uuid, frames: seq<Block>, rounds: seq<Event>)
    requires d.jitterFrames >= 1 && Filling(d, u, frames) && 1 <= |frames| <= 24
    requires |rounds| == |frames| + 1 && forall i :: 0 <= i < |rounds| ==> rounds[i].Tick?
    ensures var (d1, out) := Step(d, GroupIdle(u));
            out == [] && Run(d1, rounds).1 == PlayedAll(u, frames) + [Removed(u)] && Idle(Run(d1, rounds).0)
  {
    var d1 := Step(d, GroupIdle(u)).0;
    IdleEnds(d, u, frames);
    OnlyReadyStarts(d1);
    hide Step, Activate, Filling, PlayedAll;
    var a := Activate(d1);
    SameRound(d1, rounds[0].at);
    assert Run(d1, rounds) == Run(a, rounds);
    ActiveCallDrains(a, rounds, u);
    OnlyItsOwn(a, rounds, u);
    Emptied(Run(a, rounds).0, u);
  }

  lemma IdleEnds(d: Downlink, u: Uuid, frames: seq<Block>)
    requires Filling(d, u, frames)
    ensures var (d1, out) := Step(d, GroupIdle(u));
            out == [] && d1 == d.(calls := [d.calls[0].(ended := true)])
  {
  }

  /** An only call that has ended with frames is the one a round chooses. */
  lemma OnlyReadyStarts(d: Downlink)
    requires |d.calls| == 1 && d.active.None? && d.calls[0].ended && d.calls[0].frames != [] && |d.calls[0].frames| <= 24
    ensures var a := Activate(d); var u := d.calls[0].uuid;
            && Sound(a) && a.active == Some(u) && EndedCall(a, u) && Queue(a, u) == d.calls[0].frames
            && forall i :: 0 <= i < |a.calls| ==> a.calls[i].uuid == u
  {
    PickIsFirstEligible(d);
    assert Eligible(d, d.calls[0]);
    assert Pick(d) == Some(0);
    var a := Activate(d);
    assert a.calls == [d.calls[0].(started := true)];
    EntryAt(a.calls, 0);
  }

  lemma Emptied(d: Downlink, u: Uuid)
    requires Entry(d.calls, u).None? && d.active.None? && forall i :: 0 <= i < |d.calls| ==> d.calls[i].uuid == u
    ensures Idle(d)
  {
  }

  /** A round finds the same call to play whether or not it was chosen before. */
  lemma SameRound(d: Downlink, at: Seconds)
    ensures Step(d, Tick(at)) == Step(Activate(d), Tick(at))
  {
    hide Pick, PlayActive;
    assert Activate(Activate(d)) == Activate(d);
  }

  /** Rounds bring no call into the table. */
  lemma {:induction false} OnlyItsOwn(d: Downlink, rounds: seq<Event>, u: Uuid)
    requires Sound(d) && (forall i :: 0 <= i < |rounds| ==> rounds[i].Tick?) && forall i :: 0 <= i < |d.calls| ==> d.calls[i].uuid == u
    ensures forall i :: 0 <= i < |Run(d, rounds).0.calls| ==> Run(d, rounds).0.calls[i].uuid == u
    ensures Sound(Run(d, rounds).0)
    decreases |rounds|
  {
    hide Step, Sound;
    if rounds != [] {
      StepConserves(d, rounds[0], u);
      RoundBringsNone(d, rounds[0].at, u);
      OnlyItsOwn(Step(d, rounds[0]).0, rounds[1..], u);
    }
  }

  lemma RoundBringsNone(d: Downlink, at: Seconds, u: Uuid)
    requires forall i :: 0 <= i < |d.calls| ==> d.calls[i].uuid == u
    ensures forall i :: 0 <= i < |Step(d, Tick(at)).0.calls| ==> Step(d, Tick(at)).0.calls[i].uuid == u
  {
    hide Pick, Find;
    PickIsFirstEligible(d);
  }

  // ------------------------------------------------------------------ the downlink as an object

  class BrewDownlink {
    var calls: seq<Call>
    var active: Option<Uuid>
    var ignored: set<Uuid>
    var owned: map<Uuid, Seconds>
    const jitterFrames: nat
    const rebufferFrames: nat

    function View(): Downlink
      reads this
    {
      Downlink(calls, active, ignored, owned, jitterFrames, rebufferFrames)
    }

    constructor (jitterFrames: nat, rebufferFrames: nat)
      ensures Idle(View()) && this.jitterFrames == jitterFrames && this.rebufferFrames == rebufferFrames
    {
      calls, active, ignored, owned := [], None, {}, map[];
      this.jitterFrames, this.rebufferFrames := jitterFrames, rebufferFrames;
    }

    method StartOrUpdate(u: Uuid, routed: bool, echo: bool, at: Seconds)
      modifies this
      ensures View() == Start(old(View()), u, routed, echo, at)
    {
      if !routed { ignored := ignored + {u}; return; }
      if u in owned || echo { ignored := ignored + {u}; return; }
      var i := Find(calls, u);
      if i < |calls| {
        calls := calls[i := calls[i].(ended := false)];
        return;
      }
      var competing := false;
      var k := 0;
      while k < |calls|
        invariant 0 <= k <= |calls| && unchanged(this)
        invariant competing <==> exists j :: 0 <= j < k && !calls[j].ended
      {
        if !calls[k].ended { competing := true; }
        k := k + 1;
      }
      if competing {
        ignored := ignored + {u};
      } else {
        calls := calls + [Call(u, at, at, [], false, false, 0)];
      }
    }

    method EndCall(u: Uuid)
      modifies this
      ensures View() == End(old(View()), u)
    {
      if u in ignored { ignored := ignored - {u}; return; }
      var i := Find(calls, u);
      if i < |calls| {
        calls := calls[i := calls[i].(ended := true)];
      }
    }

    method QueueVoice(u: Uuid, payload: Block, at: Seconds) returns (ghost out: seq<Output>)
      modifies this
      ensures (View(), out) == Receive(old(View()), u, payload, at)
    {
      out := [];
      if u in owned || u in ignored || |payload| < STE_BYTES { return; }
      var i := Find(calls, u);
      if i == |calls| { return; }
      var call := calls[i];
      if |call.frames| >= MAX_QUEUED {
        out := [Dropped(u, call.frames[0])];
        call := call.(frames := call.frames[1..]);
      }
      call := call.(frames := call.frames + [payload[..STE_BYTES]], lastFrameAt := at);
      out := out + [Received(u, payload[..STE_BYTES])];
      calls := calls[i := call];
    }

    /** The candidate search, as one pass keeping the earliest eligible call. */
    method PickCandidate() returns (best: Option<nat>)
      ensures best == Pick(View()) && (best.Some? ==> best.value < |calls|)
    {
      best := None;
      var k := 0;
      while k < |calls|
        invariant 0 <= k <= |calls| && (best.Some? ==> best.value < k)
        invariant Pick(View()) == PickFrom(View(), k, best)
      {
        var required := if calls[k].started then rebufferFrames else jitterFrames;
        if (|calls[k].frames| >= required || (calls[k].ended && calls[k].frames != []))
           && (best.None? || calls[k].createdAt < calls[best.value].createdAt) {
          best := Some(k);
        }
        k := k + 1;
      }
    }

    /** The locked section of one round of _downlink_loop. */
    method Round(at: Seconds) returns (ste: Option<Block>, ghost out: seq<Output>)
      modifies this
      ensures (View(), out) == Step(old(View()), Tick(at))
      ensures ste == if out != [] && out[0].Played? then Some(out[0].frame) else None
    {
      ste, out := None, [];
      if active.None? {
        var i := PickCandidate();
        if i.Some? {
          active := Some(calls[i.value].uuid);
          calls := calls[i.value := calls[i.value].(started := true)];
        }
      }
      if active.None? { return; }
      var u := active.value;
      var i := Find(calls, u);
      if i == |calls| { active := None; return; }
      var call := calls[i];
      if call.frames != [] {
        ste, out := Some(call.frames[0]), [Played(u, call.frames[0])];
        calls := calls[i := call.(frames := call.frames[1..])];
      } else if call.ended {
        calls := calls[..i] + calls[i + 1..];
        active := None;
        out := [Removed(u)];
      } else if at - call.lastFrameAt > UNDERRUN_AFTER {
        calls := calls[i := call.(underruns := call.underruns + 1, started := false)];
        active := None;
      }
    }
  }
}
