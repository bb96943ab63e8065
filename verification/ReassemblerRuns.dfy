/**
 * Properties of the reassembler over whole streams of frames: sessions do not interfere,
 * confirmed packets complete exactly once all serials are in, and duplicates are suppressed
 * for exactly the duplicate window.
 */
module ReassemblerRuns {
  import opened Common
  import opened Dmr
  import opened Reassembler

  datatype Event = Event(frame: DataFrame, now: Time)

  type Trace = seq<Event>

  const EMPTY := State(map[], map[])

  /** The reassembler after every event of the trace. */
  function Run(trace: Trace): State {
    if trace == [] then EMPTY
    else
      var e := trace[|trace| - 1];
      Pushed(Run(trace[..|trace| - 1]), e.frame, e.now).0
  }

  /** What the last push of the trace returned. */
  function LastResult(trace: Trace): Result
    requires trace != []
  {
    var e := trace[|trace| - 1];
    Pushed(Run(trace[..|trace| - 1]), e.frame, e.now).1
  }

  ghost predicate Monotone(trace: Trace) {
    forall i, j :: 0 <= i <= j < |trace| ==> trace[i].now <= trace[j].now
  }

  // ------------------------------------------------------------------ one key at a time

  /** The events of one session key, in order. */
  function Own(trace: Trace, k: nat): Trace {
    if trace == [] then []
    else
      var e := trace[|trace| - 1];
      var before := Own(trace[..|trace| - 1], k);
      if Key(e.frame) == k then before + [e] else before
  }

  /** What each push of key `k` did to its session, before the duplicate window. */
  function OwnOutcomes(trace: Trace, k: nat): seq<Outcome> {
    if trace == [] then []
    else
      var e := trace[|trace| - 1];
      var before := trace[..|trace| - 1];
      if Key(e.frame) != k then OwnOutcomes(before, k)
      else OwnOutcomes(before, k) + [StepSession(Live(Get(Run(before).sessions, k), e.now), e.frame, e.now).1]
  }

  /** A session automaton that sees one key's events only, starting from `s`. */
  function Alone(s: Option<Session>, evs: Trace): Option<Session> {
    if evs == [] then s
    else
      var e := evs[|evs| - 1];
      StepSession(Live(Alone(s, evs[..|evs| - 1]), e.now), e.frame, e.now).0
  }

  function AloneOutcomes(s: Option<Session>, evs: Trace): (r: seq<Outcome>)
    ensures |r| == |evs|
  {
    if evs == [] then []
    else
      var e := evs[|evs| - 1];
      var before := evs[..|evs| - 1];
      AloneOutcomes(s, before) + [StepSession(Live(Alone(s, before), e.now), e.frame, e.now).1]
  }

  lemma ExpiredGet(st: State, now: Time, k: nat)
    ensures Get(Expired(st, now).sessions, k) == Live(Get(st.sessions, k), now)
  {
  }

  /** A push changes its own key's session and at most times out another key's. */
  lemma PushedAt(st: State, e: Event, k: nat)
    ensures Get(Pushed(st, e.frame, e.now).0.sessions, k) ==
            if Key(e.frame) == k then StepSession(Live(Get(st.sessions, k), e.now), e.frame, e.now).0
            else Live(Get(st.sessions, k), e.now)
  {
    hide StepSession, Expired, Deliver, SessionKey;
    ExpiredGet(st, e.now, k);
    ExpiredGet(st, e.now, Key(e.frame));
  }

  /** Looking later only times out more. */
  lemma LiveLater(a: Option<Session>, b: Option<Session>, t: Time, u: Time)
    requires t <= u && Live(a, t) == Live(b, t)
    ensures Live(a, u) == Live(b, u) && Live(Live(a, t), u) == Live(a, u)
  {
  }

  lemma {:induction false} FollowsAlone(trace: Trace, k: nat)
    requires Monotone(trace)
    ensures OwnOutcomes(trace, k) == AloneOutcomes(None, Own(trace, k))
    ensures var multi, alone := Get(Run(trace).sessions, k), Alone(None, Own(trace, k));
            if trace == [] || Key(trace[|trace| - 1].frame) == k then multi == alone
            else Live(multi, trace[|trace| - 1].now) == Live(alone, trace[|trace| - 1].now)
  {
    hide StepSession, Pushed, SessionKey, Live;
    if trace != [] {
      var before, e := trace[..|trace| - 1], trace[|trace| - 1];
      FollowsAlone(before, k);
      PushedAt(Run(before), e, k);
      var multi, alone := Get(Run(before).sessions, k), Alone(None, Own(before, k));
      if before != [] {
        var t := before[|before| - 1].now;
        assert t <= e.now;
        assert Live(multi, t) == Live(alone, t);
        LiveLater(multi, alone, t, e.now);
      }
      assert Live(multi, e.now) == Live(alone, e.now);
      if Key(e.frame) == k {
        assert Own(trace, k)[..|Own(trace, k)| - 1] == Own(before, k);
      } else {
        LiveLater(multi, multi, e.now, e.now);
      }
    }
  }

  lemma {:induction false} OwnOfOwn(trace: Trace, k: nat)
    requires Monotone(trace)
    ensures Own(Own(trace, k), k) == Own(trace, k) && Monotone(Own(trace, k))
    ensures Own(trace, k) != [] ==> Own(trace, k)[|Own(trace, k)| - 1].now <= trace[|trace| - 1].now
    ensures Own(trace, k) != [] ==> Key(Own(trace, k)[|Own(trace, k)| - 1].frame) == k
  {
    hide Key, Monotone;
    if trace != [] {
      var before, e := trace[..|trace| - 1], trace[|trace| - 1];
      MonotoneFront(trace);
      OwnOfOwn(before, k);
      var own := Own(before, k);
      if Key(e.frame) == k {
        assert (own + [e])[..|own|] == own;
        MonotoneAppend(own, e);
      }
    }
  }

  lemma MonotoneFront(trace: Trace)
    requires Monotone(trace) && trace != []
    ensures Monotone(trace[..|trace| - 1])
    ensures |trace| > 1 ==> trace[|trace| - 2].now <= trace[|trace| - 1].now
  {
  }

  lemma MonotoneAppend(trace: Trace, e: Event)
    requires Monotone(trace) && (trace != [] ==> trace[|trace| - 1].now <= e.now)
    ensures Monotone(trace + [e])
  {
  }

  lemma {:induction false} AllOwn(trace: Trace, k: nat)
    requires forall i :: 0 <= i < |trace| ==> Key(trace[i].frame) == k
    ensures Own(trace, k) == trace
  {
    hide Key;
    if trace != [] {
      AllOwn(trace[..|trace| - 1], k);
    }
  }

  /** Running on is running the rest from where the first part left off. */
  lemma {:induction false} AloneSplit(s: Option<Session>, a: Trace, b: Trace)
    ensures Alone(s, a + b) == Alone(Alone(s, a), b)
    ensures AloneOutcomes(s, a + b) == AloneOutcomes(s, a) + AloneOutcomes(Alone(s, a), b)
    decreases |b|
  {
    hide StepSession;
    if b == [] {
      assert a + b == a;
    } else {
      AloneSplit(s, a, b[..|b| - 1]);
      assert (a + b)[..|a + b| - 1] == a + b[..|b| - 1];
    }
  }

  /**
   * Non-interference: in any interleaving under a monotone clock, the outcomes of one key's
   * pushes, and its session after each of its own pushes, are those of its events run alone,
   * even though every push expires sessions of every key.
   */
  lemma NonInterference(trace: Trace, k: nat)
    requires Monotone(trace)
    ensures OwnOutcomes(trace, k) == OwnOutcomes(Own(trace, k), k)
    ensures trace != [] && Key(trace[|trace| - 1].frame) == k ==>
              Get(Run(trace).sessions, k) == Get(Run(Own(trace, k)).sessions, k)
  {
    OwnOfOwn(trace, k);
    FollowsAlone(trace, k);
    FollowsAlone(Own(trace, k), k);
  }

  // ------------------------------------------------------------------ confirmed packets

  /** Successive gaps, the first one from `start`, stay within the session timeout. */
  predicate Prompt(start: Time, evs: Trace) {
    evs == [] ||
    (Prompt(start, evs[..|evs| - 1]) && 0 <= evs[|evs| - 1].now - LastTime(start, evs[..|evs| - 1]) <= SESSION_TIMEOUT)
  }

  function LastTime(start: Time, evs: Trace): Time {
    if evs == [] then start else evs[|evs| - 1].now
  }

  /** Payload frames whose valid blocks carry the bytes `data` has under their serial. */
  ghost predicate BlocksOf(evs: Trace, data: seq<seq<byte>>) {
    forall i :: 0 <= i < |evs| ==>
      && IsPayloadDataType(evs[i].frame.dataType)
      && (evs[i].frame.payload.numbered.Some? && evs[i].frame.payload.numbered.value.serial < |data| ==>
          evs[i].frame.payload.numbered.value.bytes == data[evs[i].frame.payload.numbered.value.serial])
  }

  /** The serials below `n` carried by an event. */
  predicate Carries(e: Event, x: nat) {
    e.frame.payload.numbered.Some? && e.frame.payload.numbered.value.serial == x
  }

  lemma AloneStep(s: Option<Session>, evs: Trace)
    requires evs != []
    ensures var before, e := evs[..|evs| - 1], evs[|evs| - 1];
            var step := StepSession(Live(Alone(s, before), e.now), e.frame, e.now);
            Alone(s, evs) == step.0 && AloneOutcomes(s, evs) == AloneOutcomes(s, before) + [step.1]
  {
    hide StepSession;
  }

  // ------------------------------------------------------------------ how long a session lives

  /** The frame keeps a session alive: an accepted header, or a block. */
  predicate Touches(e: Event) {
    if e.frame.dataType == DATA_HEADER then e.frame.payload.header.Some? && AcceptsHeader(e.frame.payload.header.value)
    else IsPayloadDataType(e.frame.dataType)
  }

  /**
   * Which headers open a session, exactly, and what kind: packet data, confirmed or not, and short data,
   * confirmed if it asks to be acknowledged, of 1 to 64 blocks. It replaces any session there was.
   */
  lemma HeaderOpensIff(s: Option<Session>, e: Event, h: DataHeader)
    requires e.frame.dataType == DATA_HEADER && e.frame.payload.header == Some(h)
    ensures var (s', outcome) := StepSession(s, e.frame, e.now);
            if 1 <= h.blocksToFollow <= 64 &&
               (if h.dpf == DefinedShort then h.sap == ShortData else h.dpf in {ConfirmedData, UnconfirmedData} && h.sap == PacketData) then
              && outcome == Consumed && s'.Some? && s'.value.header == h && s'.value.updatedAt == e.now
              && s'.value.expected == h.blocksToFollow && (forall i :: 0 <= i < |s'.value.got| ==> !s'.value.got[i])
              && s'.value.shortData == (h.dpf == DefinedShort)
              && s'.value.confirmed == (h.dpf == ConfirmedData || (h.dpf == DefinedShort && h.acknowledge))
            else s' == s && outcome == Ignored
  {
    hide CountTrue;
  }

  /**
   * What is passed on of the joined blocks: the payload without its padding - counted in bits for short data,
   * in bytes for packet data - and CRC; or, where they begin like an IPv4 packet, as much as its length field says,
   * all if that cannot be.
   */
  lemma TrimmedExactly(payload: seq<byte>, padding: seq<byte>, crc: seq<byte>, shortData: bool, padLength: nat)
    requires |crc| == 4
    requires if shortData then 8 * |padding| - 8 < padLength <= 8 * |padding| else padLength == |padding|
    ensures var joined := payload + padding + crc;
            TrimmedBytes(joined, shortData, padLength) ==
            if |joined| < 20 || !(0x40 <= joined[0] < 0x50) then payload
            else
              var claimed := joined[2] as int * 0x100 + joined[3];
              if 4 * (joined[0] - 0x40) <= claimed <= |joined| then joined[..claimed] else joined
  {
    var joined := payload + padding + crc;
    assert joined[..|payload|] == payload;
  }

  /** An open session bears the time of the latest frame that touched it; no other frame refreshes it. */
  lemma {:induction false} UpdatedByLatest(evs: Trace) returns (i: nat)
    requires Alone(None, evs).Some?
    ensures i < |evs| && Touches(evs[i]) && Alone(None, evs).value.updatedAt == evs[i].now
    ensures forall j :: i < j < |evs| ==> !Touches(evs[j])
  {
    hide StepSession, Touches;
    AloneStep(None, evs);
    var before, e := evs[..|evs| - 1], evs[|evs| - 1];
    TouchStep(Live(Alone(None, before), e.now), e);
    if Touches(e) { i := |evs| - 1; } else { i := UpdatedByLatest(before); }
  }

  lemma TouchStep(s: Option<Session>, e: Event)
    requires StepSession(s, e.frame, e.now).0.Some?
    ensures if Touches(e) then StepSession(s, e.frame, e.now).0.value.updatedAt == e.now else StepSession(s, e.frame, e.now) == (s, Ignored)
  {
    hide CountTrue;
  }

  /** And it is open to a frame exactly if that touch is five seconds old or less: a later block finds no session. */
  lemma SessionLivesIff(s: Session, e: Event)
    requires e.frame.dataType != DATA_HEADER && IsPayloadDataType(e.frame.dataType)
    ensures StepSession(Live(Some(s), e.now), e.frame, e.now) == (None, Ignored) <==> e.now - s.updatedAt > 5_000_000_000
  {
    hide CountTrue, StoreBlock, FinishedPacket;
  }

  /** Which of the serials below `n` have arrived. */
  function Arrived(evs: Trace, n: nat): (flags: seq<bool>)
    ensures |flags| == n
    ensures forall x :: 0 <= x < n ==> (flags[x] <==> exists i :: 0 <= i < |evs| && Carries(evs[i], x))
  {
    if evs == [] then seq(n, _ => false)
    else
      var e := evs[|evs| - 1];
      var before := Arrived(evs[..|evs| - 1], n);
      assert forall x :: 0 <= x < n && Carries(e, x) ==> exists i :: 0 <= i < |evs| && Carries(evs[i], x);
      assert forall x, i :: 0 <= x < n && 0 <= i < |evs| - 1 && Carries(evs[..|evs| - 1][i], x) ==> Carries(evs[i], x);
      assert forall x, i :: 0 <= x < n && 0 <= i < |evs| && Carries(evs[i], x) ==>
          (i == |evs| - 1 && Carries(e, x)) || Carries(evs[..|evs| - 1][i], x);
      if e.frame.payload.numbered.Some? && e.frame.payload.numbered.value.serial < n then
        before[e.frame.payload.numbered.value.serial := true]
      else before
  }

  predicate AllTrue(flags: seq<bool>) { forall i :: 0 <= i < |flags| ==> flags[i] }

  /** An open confirmed session that holds exactly the blocks flagged in `flags`. */
  ghost predicate Holds(s: Option<Session>, h: DataHeader, flags: seq<bool>, data: seq<seq<byte>>, updatedAt: Time) {
    && s.Some? && s.value.confirmed && s.value.header == h
    && s.value.shortData == (h.dpf == DefinedShort && h.sap == ShortData)
    && s.value.expected == |data| == |flags|
    && s.value.got == flags && s.value.updatedAt == updatedAt
    && forall x :: 0 <= x < |data| && flags[x] ==> s.value.blocks[x] == data[x]
  }

  function ConfirmedPacket(f: DataFrame, h: DataHeader, data: seq<seq<byte>>): Packet {
    var shortData := h.dpf == DefinedShort && h.sap == ShortData;
    Packet(f.src, f.dst, f.slot % 0x100, h.ns, shortData, TrimmedBytes(Flatten(data), shortData, h.padLength))
  }

  /** One block frame either leaves the session holding one block more, or completes it. */
  lemma ConfirmedStep(s: Session, e: Event, h: DataHeader, flags: seq<bool>, data: seq<seq<byte>>, next: seq<bool>, at: Time)
    requires Holds(Some(s), h, flags, data, at)
    requires 0 <= e.now - at <= SESSION_TIMEOUT && BlocksOf([e], data)
    requires next == if e.frame.payload.numbered.Some? && e.frame.payload.numbered.value.serial < |data|
                     then flags[e.frame.payload.numbered.value.serial := true] else flags
    ensures var (s', outcome) := StepSession(Live(Some(s), e.now), e.frame, e.now);
            if AllTrue(next) then s' == None && outcome == Completed(ConfirmedPacket(e.frame, h, data))
            else Holds(s', h, next, data, e.now) && outcome == Consumed
  {
    hide StoreBlock, CountTrue, FinishedPacket;
    assert [e][0] == e;
    CountTrueFull(next);
    CountTrueFull(flags);
    var block := e.frame.payload.numbered;
    if block.Some? && block.value.serial < |data| {
      var s1: SessionData := s.(updatedAt := e.now);
      StoredConfirmed(s1, block.value, data);
      FinishedIs(e.frame, StoreBlock(s1, block.value), h, data);
    }
  }

  /** A confirmed session takes a block under its serial, and keeps everything else. */
  lemma StoredConfirmed(s: SessionData, block: NumberedBlock, data: seq<seq<byte>>)
    requires WellFormed(s) && s.confirmed && block.serial < s.expected == |data| && block.bytes == data[block.serial]
    requires forall x :: 0 <= x < |data| && s.got[x] ==> s.blocks[x] == data[x]
    ensures var t := StoreBlock(s, block);
            && t.header == s.header && t.shortData == s.shortData && t.updatedAt == s.updatedAt
            && t.got == s.got[block.serial := true]
            && forall x :: 0 <= x < |data| && t.got[x] ==> t.blocks[x] == data[x]
  {
    hide CountTrue;
  }

  lemma FinishedIs(f: DataFrame, s: SessionData, h: DataHeader, data: seq<seq<byte>>)
    requires WellFormed(s) && s.header == h && s.shortData == (h.dpf == DefinedShort && h.sap == ShortData)
    requires |data| == s.expected && forall x :: 0 <= x < |data| && s.got[x] ==> s.blocks[x] == data[x]
    ensures AllTrue(s.got) ==> FinishedPacket(f, s) == ConfirmedPacket(f, h, data)
  {
    hide Flatten, TrimmedBytes, CountTrue;
    if AllTrue(s.got) { assert s.blocks == data; }
  }

  lemma ArrivedStep(evs: Trace, n: nat)
    requires evs != []
    ensures var e := evs[|evs| - 1]; var before := Arrived(evs[..|evs| - 1], n);
            Arrived(evs, n) == if e.frame.payload.numbered.Some? && e.frame.payload.numbered.value.serial < n
                               then before[e.frame.payload.numbered.value.serial := true] else before
  {
  }

  /** While a serial is missing, the session stays open with exactly the arrived blocks. */
  lemma {:induction false} ConfirmedProgress(h: DataHeader, start: Time, evs: Trace, data: seq<seq<byte>>)
    requires AcceptsHeader(h) && NewSession(h, start).confirmed && |data| == h.blocksToFollow
    requires Prompt(start, evs) && BlocksOf(evs, data) && !AllTrue(Arrived(evs, |data|))
    ensures Holds(Alone(Some(NewSession(h, start)), evs), h, Arrived(evs, |data|), data, LastTime(start, evs))
    ensures forall i :: 0 <= i < |evs| ==> AloneOutcomes(Some(NewSession(h, start)), evs)[i] == Consumed
  {
    hide StepSession, StoreBlock, Arrived, ConfirmedPacket;
    if evs == [] {
      ArrivedNone(|data|);
    } else {
      var before, e := evs[..|evs| - 1], evs[|evs| - 1];
      ArrivedStep(evs, |data|);
      assert !AllTrue(Arrived(before, |data|)) by {
        var x :| 0 <= x < |data| && !Arrived(evs, |data|)[x];
        assert !Arrived(before, |data|)[x];
      }
      BlocksOfLast(evs, data);
      ConfirmedProgress(h, start, before, data);
      var s := Alone(Some(NewSession(h, start)), before);
      var at := LastTime(start, before);
      ConfirmedStep(s.value, e, h, Arrived(before, |data|), data, Arrived(evs, |data|), at);
    }
  }

  lemma ArrivedNone(n: nat)
    ensures Arrived([], n) == seq(n, _ => false)
  {
  }

  lemma BlocksOfLast(evs: Trace, data: seq<seq<byte>>)
    requires evs != [] && BlocksOf(evs, data)
    ensures BlocksOf(evs[..|evs| - 1], data) && BlocksOf([evs[|evs| - 1]], data)
  {
  }

  /**
   * Confirmed data, for any order and repetition of its blocks within the timeout: nothing
   * completes while a serial is missing; the frame that brings the last one completes the
   * packet with the blocks joined in serial order, and closes the session.
   */
  lemma ConfirmedCompletesExactly(h: DataHeader, start: Time, evs: Trace, data: seq<seq<byte>>)
    requires AcceptsHeader(h) && NewSession(h, start).confirmed && |data| == h.blocksToFollow
    requires evs != [] && Prompt(start, evs) && BlocksOf(evs, data)
    requires !AllTrue(Arrived(evs[..|evs| - 1], |data|))
    ensures var s := Some(NewSession(h, start));
            var last := AloneOutcomes(s, evs)[|evs| - 1];
            && (forall i :: 0 <= i < |evs| - 1 ==> AloneOutcomes(s, evs)[i] == Consumed)
            && (AllTrue(Arrived(evs, |data|)) ==>
                last == Completed(ConfirmedPacket(evs[|evs| - 1].frame, h, data)) && Alone(s, evs) == None)
            && (!AllTrue(Arrived(evs, |data|)) ==> last == Consumed && Alone(s, evs).Some?)
  {
    hide StepSession, StoreBlock, Arrived, ConfirmedPacket, BlocksOf, NewSession, AcceptsHeader, Alone, AloneOutcomes;
    AloneStep(Some(NewSession(h, start)), evs);
    var before, e := evs[..|evs| - 1], evs[|evs| - 1];
    BlocksOfLast(evs, data);
    ConfirmedProgress(h, start, before, data);
    ArrivedStep(evs, |data|);
    var s := Alone(Some(NewSession(h, start)), before);
    var at := LastTime(start, before);
    ConfirmedStep(s.value, e, h, Arrived(before, |data|), data, Arrived(evs, |data|), at);
  }

  /**
   * The same in any interleaving: when one key's frames end in an accepted confirmed header and blocks
   * of it, each consumed, the packet completes with the frame that brings the last missing serial, whatever
   * other keys' frames come between, and its session is then gone from the table.
   */
  lemma ConfirmedCompletesInterleaved(
    trace: Trace, k: nat, earlier: Trace, head: Event, h: DataHeader, evs: Trace, data: seq<seq<byte>>)
    requires Monotone(trace) && Own(trace, k) == earlier + ([head] + evs)
    requires head.frame.dataType == DATA_HEADER && head.frame.payload.header == Some(h)
    requires AcceptsHeader(h) && NewSession(h, head.now).confirmed && |data| == h.blocksToFollow
    requires evs != [] && Prompt(head.now, evs) && BlocksOf(evs, data)
    requires !AllTrue(Arrived(evs[..|evs| - 1], |data|))
    ensures var outcomes := OwnOutcomes(trace, k);
            && |outcomes| == |earlier| + 1 + |evs|
            && (forall i :: |earlier| <= i < |outcomes| - 1 ==> outcomes[i] == Consumed)
            && outcomes[|outcomes| - 1] == if AllTrue(Arrived(evs, |data|)) then Completed(ConfirmedPacket(evs[|evs| - 1].frame, h, data)) else Consumed
    ensures Key(trace[|trace| - 1].frame) == k ==>
              (k in Run(trace).sessions <==> !AllTrue(Arrived(evs, |data|)))
    ensures Key(trace[|trace| - 1].frame) == k && AllTrue(Arrived(evs, |data|)) ==>
              var e := trace[|trace| - 1];
              LastResult(trace) == Deliver(Expired(Run(trace[..|trace| - 1]), e.now).recent, Completed(ConfirmedPacket(e.frame, h, data)), e.now).1
  {
    hide Monotone, Own, Alone, AloneOutcomes, StepSession, Arrived, ConfirmedPacket, BlocksOf, NewSession, AcceptsHeader, Prompt, OwnOutcomes, Key, Run, LastResult;
    FollowsAlone(trace, k);
    AloneSplit(None, earlier, [head] + evs);
    AloneSplit(Alone(None, earlier), [head], evs);
    HeaderReplaces(Alone(None, earlier), head, h);
    ConfirmedCompletesExactly(h, head.now, evs, data);
    if trace == [] { OwnOfNothing(k); }
    if Key(trace[|trace| - 1].frame) == k {
      LastOwn(trace, k);
      LastOutcome(trace, k);
    }
  }

  lemma OwnOfNothing(k: nat)
    ensures Own([], k) == []
  {
  }

  lemma LastOwn(trace: Trace, k: nat)
    requires trace != [] && Key(trace[|trace| - 1].frame) == k
    ensures Own(trace, k) != [] && Own(trace, k)[|Own(trace, k)| - 1] == trace[|trace| - 1]
  {
    hide Key;
  }

  /** The result of a push follows from its outcome and the duplicate window. */
  lemma LastOutcome(trace: Trace, k: nat)
    requires trace != [] && Key(trace[|trace| - 1].frame) == k
    ensures OwnOutcomes(trace, k) != []
    ensures var e := trace[|trace| - 1];
            LastResult(trace) == Deliver(Expired(Run(trace[..|trace| - 1]), e.now).recent, OwnOutcomes(trace, k)[|OwnOutcomes(trace, k)| - 1], e.now).1
  {
    hide Key, StepSession, Expired, Deliver;
    ExpiredGet(Run(trace[..|trace| - 1]), trace[|trace| - 1].now, k);
  }

  /** An accepted header opens a new session in place of any other. */
  lemma HeaderReplaces(s: Option<Session>, e: Event, h: DataHeader)
    requires AcceptsHeader(h) && e.frame.dataType == DATA_HEADER && e.frame.payload.header == Some(h)
    ensures Alone(s, [e]) == Some(NewSession(h, e.now)) && AloneOutcomes(s, [e]) == [Consumed]
  {
    assert [e][..0] == [];
  }

  /** Every session ever stored misses a block, counts its flags exactly and has at most 64 blocks. */
  lemma StoredSessionsAreIncomplete(trace: Trace, k: nat)
    requires k in Run(trace).sessions
    ensures var s := Run(trace).sessions[k];
            && 1 <= s.expected <= 64 && |s.got| == |s.blocks| == s.expected
            && s.received == CountTrue(s.got) < s.expected
            && exists i :: 0 <= i < s.expected && !s.got[i]
  {
    hide Run;
    var s := Run(trace).sessions[k];
    CountTrueFull(s.got);
  }

  // ------------------------------------------------------------------ the duplicate window

  ghost predicate DeliversAt(trace: Trace, i: nat, p: Packet) {
    i < |trace| && LastResult(trace[..i + 1]).packet == Some(p)
  }

  /** The push of event `i` passes no packet on. */
  ghost predicate SilentAt(trace: Trace, i: nat) {
    i < |trace| && LastResult(trace[..i + 1]).packet == None
  }

  lemma {:induction false} RememberedAfterDelivery(trace: Trace, i: nat, p: Packet)
    requires Monotone(trace) && DeliversAt(trace, i, p)
    ensures var recent := Run(trace).recent; var until := trace[i].now + DUPLICATE_WINDOW;
            (Signature(p) in recent && recent[Signature(p)] >= until) || trace[|trace| - 1].now >= until
    decreases |trace|
  {
    hide Pushed, Signature;
    var before, e := trace[..|trace| - 1], trace[|trace| - 1];
    if i == |trace| - 1 {
      assert trace[..i + 1] == trace;
      DeliveryIsRemembered(Run(before), e, p);
    } else {
      assert before[..i + 1] == trace[..i + 1];
      RememberedAfterDelivery(before, i, p);
      assert before[|before| - 1].now <= e.now;
      if Signature(p) in Run(before).recent { MemoryStays(Run(before), e, Signature(p)); }
    }
  }

  lemma DeliveryIsRemembered(st: State, e: Event, p: Packet)
    requires Pushed(st, e.frame, e.now).1.packet == Some(p)
    ensures var recent := Pushed(st, e.frame, e.now).0.recent; Signature(p) in recent && recent[Signature(p)] == e.now + DUPLICATE_WINDOW
  {
    hide StepSession, Signature, SessionKey;
  }

  /** A signature is forgotten only when its time has come, and is never remembered for a shorter time. */
  lemma MemoryStays(st: State, e: Event, sig: nat)
    requires sig in st.recent
    ensures var recent := Pushed(st, e.frame, e.now).0.recent;
            if e.now < st.recent[sig] then sig in recent && recent[sig] >= st.recent[sig] else true
  {
    hide StepSession, Signature, SessionKey;
  }

  lemma DeliveredMeansForgotten(st: State, e: Event, p: Packet)
    requires Pushed(st, e.frame, e.now).1.packet == Some(p)
    ensures !(Signature(p) in st.recent && e.now < st.recent[Signature(p)])
  {
    hide StepSession, Signature, SessionKey;
  }

  /** Two deliveries with equal ids, slot and bytes are never less than 30 seconds apart. */
  lemma DuplicatesAreApart(trace: Trace, i: nat, j: nat, p: Packet, q: Packet)
    requires Monotone(trace) && i < j < |trace|
    requires DeliversAt(trace, i, p) && DeliversAt(trace, j, q) && SameContent(p, q)
    ensures trace[j].now - trace[i].now >= 30_000_000_000
  {
    hide Pushed, Fnv, Run;
    var upTo := trace[..j];
    assert upTo[..i + 1] == trace[..i + 1];
    RememberedAfterDelivery(upTo, i, p);
    assert upTo[|upTo| - 1].now <= trace[j].now;
    assert trace[..j + 1][..j] == upTo;
    assert Signature(p) == Signature(q);
    DeliveredMeansForgotten(Run(upTo), trace[j], q);
  }

  /** What a push leaves remembered is what it just delivered or what was remembered before. */
  lemma RememberedStep(st: State, e: Event, sig: nat)
    requires sig in Pushed(st, e.frame, e.now).0.recent
    ensures var (st', result) := Pushed(st, e.frame, e.now);
            if result.packet.Some? && Signature(result.packet.value) == sig then st'.recent[sig] == e.now + DUPLICATE_WINDOW
            else sig in st.recent && st'.recent[sig] == st.recent[sig]
  {
    hide StepSession, Signature, SessionKey;
  }

  /** A remembered signature always stems from a delivery whose window is still open. */
  lemma {:induction false} RememberedStemsFromDelivery(trace: Trace, sig: nat) returns (i: nat, p: Packet)
    requires sig in Run(trace).recent
    ensures DeliversAt(trace, i, p) && Signature(p) == sig
    ensures Run(trace).recent[sig] == trace[i].now + DUPLICATE_WINDOW
  {
    hide Pushed, Signature;
    var before, e := trace[..|trace| - 1], trace[|trace| - 1];
    var result := LastResult(trace);
    RememberedStep(Run(before), e, sig);
    if result.packet.Some? && Signature(result.packet.value) == sig {
      i, p := |trace| - 1, result.packet.value;
      assert trace[..i + 1] == trace;
    } else {
      i, p := RememberedStemsFromDelivery(before, sig);
      assert before[..i + 1] == trace[..i + 1];
    }
  }

  /**
   * A completed packet is passed on if and only if no packet of the same signature was passed
   * on within the last 30 seconds.
   */
  lemma SuppressedIffRecent(trace: Trace, p: Packet)
    requires trace != [] && Monotone(trace)
    requires var e := trace[|trace| - 1]; var before := Run(trace[..|trace| - 1]);
             StepSession(Live(Get(before.sessions, Key(e.frame)), e.now), e.frame, e.now).1 == Completed(p)
    ensures LastResult(trace).packet == None <==>
            exists i, q :: 0 <= i < |trace| - 1 && DeliversAt(trace, i, q) && Signature(q) == Signature(p)
              && trace[|trace| - 1].now < trace[i].now + 30_000_000_000
  {
    hide StepSession, Signature, SessionKey, Run;
    var before, e := trace[..|trace| - 1], trace[|trace| - 1];
    ExpiredGet(Run(before), e.now, Key(e.frame));
    if LastResult(trace).packet == None {
      var i, q := RememberedStemsFromDelivery(before, Signature(p));
      assert before[..i + 1] == trace[..i + 1];
      assert DeliversAt(trace, i, q);
    }
    forall i, q | 0 <= i < |trace| - 1 && DeliversAt(trace, i, q) && Signature(q) == Signature(p)
                  && e.now < trace[i].now + DUPLICATE_WINDOW
      ensures LastResult(trace).packet == None
    {
      assert before[..i + 1] == trace[..i + 1];
      RememberedAfterDelivery(before, i, q);
      assert before[|before| - 1].now <= e.now;
    }
  }

  // ------------------------------------------------------------------ unconfirmed packets

  /** Unconfirmed block frames in order: event `i` decodes to `data[i]`. */
  ghost predicate InOrder(evs: Trace, data: seq<seq<byte>>) {
    |evs| <= |data| && forall i :: 0 <= i < |evs| ==>
      IsPayloadDataType(evs[i].frame.dataType) && evs[i].frame.payload.plain == Some(data[i])
  }

  lemma PlainIsUnconfirmed(h: DataHeader, start: Time)
    requires AcceptsHeader(h) && h.dpf == UnconfirmedData
    ensures !NewSession(h, start).confirmed
  {
  }

  lemma {:induction false} UnconfirmedProgress(h: DataHeader, start: Time, evs: Trace, data: seq<seq<byte>>)
    requires AcceptsHeader(h) && !NewSession(h, start).confirmed && |data| == h.blocksToFollow
    requires Prompt(start, evs) && InOrder(evs, data) && |evs| < |data|
    ensures var s := Alone(Some(NewSession(h, start)), evs);
            && s.Some? && s.value.header == h && !s.value.confirmed && s.value.shortData == (h.dpf == DefinedShort) && s.value.expected == |data|
            && s.value.nextUnconfirmed == |evs| && s.value.blocks[..|evs|] == data[..|evs|]
            && s.value.updatedAt == LastTime(start, evs)
  {
    hide StepSession, StoreBlock, Flatten, TrimmedBytes;
    if evs == [] {
      assert NewSession(h, start).blocks[..0] == data[..0];
    } else {
      var before, e := evs[..|evs| - 1], evs[|evs| - 1];
      UnconfirmedProgress(h, start, before, data);
      UnconfirmedStep(Alone(Some(NewSession(h, start)), before).value, e, data);
    }
  }

  lemma UnconfirmedStep(s: Session, e: Event, data: seq<seq<byte>>)
    requires !s.confirmed && s.expected == |data| && s.nextUnconfirmed < |data|
    requires s.blocks[..s.nextUnconfirmed] == data[..s.nextUnconfirmed]
    requires 0 <= e.now - s.updatedAt <= SESSION_TIMEOUT
    requires IsPayloadDataType(e.frame.dataType) && e.frame.payload.plain == Some(data[s.nextUnconfirmed])
    ensures var (s', outcome) := StepSession(Live(Some(s), e.now), e.frame, e.now);
            var n := s.nextUnconfirmed + 1;
            if n == |data| then
              s' == None && outcome == Completed(Packet(e.frame.src, e.frame.dst, e.frame.slot % 0x100, s.header.ns, s.shortData,
                                                        TrimmedBytes(Flatten(data), s.shortData, s.header.padLength)))
            else
              && outcome == Consumed && s'.Some? && s'.value.header == s.header && !s'.value.confirmed && s'.value.shortData == s.shortData
              && s'.value.expected == s.expected && s'.value.nextUnconfirmed == n
              && s'.value.blocks[..n] == data[..n] && s'.value.updatedAt == e.now
  {
    hide Flatten, TrimmedBytes;
    var i := s.nextUnconfirmed;
    var s2 := StoreBlock(s.(updatedAt := e.now), NumberedBlock(i, data[i]));
    assert s2.blocks[..i + 1] == data[..i] + [data[i]] == data[..i + 1];
    CountTrueFull(s2.got);
    if i + 1 == |data| {
      assert s2.blocks == s2.blocks[..i + 1] && data == data[..i + 1];
    }
  }

  /** The last in-order block completes an unconfirmed packet, or short data nobody acknowledges, with all blocks joined. */
  lemma UnconfirmedCompletes(h: DataHeader, start: Time, evs: Trace, data: seq<seq<byte>>)
    requires AcceptsHeader(h) && !NewSession(h, start).confirmed && |data| == h.blocksToFollow
    requires Prompt(start, evs) && InOrder(evs, data) && |evs| == |data|
    ensures var e := evs[|evs| - 1];
            AloneOutcomes(Some(NewSession(h, start)), evs)[|evs| - 1] ==
            Completed(Packet(e.frame.src, e.frame.dst, e.frame.slot % 0x100, h.ns, h.dpf == DefinedShort,
                             TrimmedBytes(Flatten(data), h.dpf == DefinedShort, h.padLength)))
    ensures Alone(Some(NewSession(h, start)), evs) == None
  {
    hide StepSession, StoreBlock, Flatten, TrimmedBytes;
    var before, e := evs[..|evs| - 1], evs[|evs| - 1];
    UnconfirmedProgress(h, start, before, data);
    UnconfirmedStep(Alone(Some(NewSession(h, start)), before).value, e, data);
  }
}
