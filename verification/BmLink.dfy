/**
 * The BMNetwork object of src/BMNetwork.cpp: its fields, updated in place, follow the session
 * and transmitter of module BmNetwork; and a queued burst reads back as the burst encoded.
 */
module BmLink {
  import opened Common
  import opened Dmr
  import opened Homebrew
  import opened BmNetwork
  import PacketEncoder

  const PREAMBLE_COUNT: byte := 16

  /** Forward error correction: the 33 burst bytes for what a frame means. DVMHost's, not modelled. */
  type Modulation = Burst -> Payload

  function OnAir(f: Frame<Burst>, modulate: Modulation): Frame<Payload> {
    Frame(f.src, f.dst, f.slot, f.isPrivate, f.n, f.seqNo, f.dataType, f.ber, f.rssi, modulate(f.payload))
  }

  /** The packets of a burst, one per frame, under one stream id. */
  function WirePackets(frames: seq<Frame<Burst>>, modulate: Modulation, repeater: RepeaterId, streamId: uint32): (packets: seq<WirePacket>)
    ensures |packets| == |frames|
    ensures forall i :: 0 <= i < |frames| ==> packets[i] == Build(OnAir(frames[i], modulate), repeater, streamId)
  {
    seq(|frames|, i requires 0 <= i < |frames| => Build(OnAir(frames[i], modulate), repeater, streamId))
  }

  /** The send sequence number of a source after one more packet. */
  function NextNs(ns: map<uint32, byte>, source: uint32): byte {
    ((if source in ns then ns[source] else 0) as int + 1) % 8
  }

  /** What one writePacketData call asks the transmitter to queue. */
  function BurstOf(source: uint32, target: uint32, slot: byte, sequenceNo: byte, ipPacket: seq<byte>, asm: PacketEncoder.Assembler): seq<Frame<Burst>> {
    PacketEncoder.Encoded(PacketEncoder.Route(source, target, slot), sequenceNo, ipPacket, asm, PREAMBLE_COUNT)
  }

  class BMNetwork {
    const repeaterId: RepeaterId
    const timeslot: byte
    const hasOptions: bool
    var status: Status
    var socketActive: bool
    var retryTimer: Timer
    var timeoutTimer: Timer
    var packetDataTxQueue: seq<WirePacket>
    var packetDataTxElapsedMs: uint32
    var packetDataNs: map<uint32, byte>

    function View(): Net
      reads this
    {
      Net(status, socketActive, retryTimer, timeoutTimer, packetDataTxQueue, packetDataTxElapsedMs, hasOptions)
    }

    constructor (repeaterId: RepeaterId, timeslot: byte, hasOptions: bool)
      ensures View() == Net(WaitingConnect, false, STOPPED, STOPPED, [], 0, hasOptions)
      ensures this.repeaterId == repeaterId && this.timeslot == timeslot && packetDataNs == map[]
    {
      this.repeaterId, this.timeslot, this.hasOptions := repeaterId, timeslot, hasOptions;
      status, socketActive, retryTimer, timeoutTimer := WaitingConnect, false, STOPPED, STOPPED;
      packetDataTxQueue, packetDataTxElapsedMs, packetDataNs := [], 0, map[];
    }

    method Open(env: Env) returns (ok: bool, ghost outs: seq<Output>)
      modifies this
      ensures (View(), outs) == Opened(old(View()), env) && packetDataNs == old(packetDataNs)
      ensures ok == env.openOk == socketActive
    {
      outs := [OpenAttempt];
      if !env.openOk {
        socketActive := false;
        status := WaitingConnect;
        retryTimer := STARTED;
        timeoutTimer := STOPPED;
        return false, outs;
      }
      socketActive := true;
      status := WaitingConnect;
      timeoutTimer := STOPPED;
      outs := [OpenAttempt, Login];
      if env.loginOk {
        status := WaitingLogin;
        timeoutTimer := STARTED;
      }
      retryTimer := STARTED;
      return true, outs;
    }

    method Close() returns (ghost outs: seq<Output>)
      modifies this
      ensures (View(), outs) == Closed(old(View())) && packetDataNs == old(packetDataNs)
    {
      outs := (if status.Running? then [CloseMessage] else []) + AllDiscarded(packetDataTxQueue);
      socketActive := false;
      retryTimer := STOPPED;
      timeoutTimer := STOPPED;
      packetDataTxQueue := [];
      packetDataTxElapsedMs := 0;
      status := WaitingConnect;
    }

    method DeferReconnect() returns (ghost outs: seq<Output>)
      modifies this
      ensures (View(), outs) == Deferred(old(View())) && packetDataNs == old(packetDataNs)
    {
      outs := Close();
      status := WaitingConnect;
      retryTimer := STARTED;
    }

    method Restart(next: Status)
      modifies this
      ensures View() == Restarted(old(View()), next) && packetDataNs == old(packetDataNs)
    {
      status := next;
      timeoutTimer := STARTED;
      retryTimer := STARTED;
    }

    /** The reaction of clock to a packet that neither fails to be read nor closes the session. */
    method Receive(r: Received) returns (ghost outs: seq<Output>)
      modifies this
      ensures (View(), outs) == OnPacket(old(View()), r) && packetDataNs == old(packetDataNs)
    {
      outs := [];
      if r == Dmrd {
        if !status.Running? { Restart(Running); }
      } else if r == Nak {
        Restart(WaitingLogin);
      } else if r == Ack {
        match status {
          case WaitingLogin => outs := [Authorisation]; Restart(WaitingAuthorisation);
          case WaitingAuthorisation => outs := [Configuration]; Restart(WaitingConfig);
          case WaitingConfig =>
            if hasOptions {
              outs := [Options];
              Restart(WaitingOptions);
            } else {
              Restart(Running);
            }
          case WaitingOptions => Restart(Running);
          case _ =>
        }
      } else if r == Pong {
        timeoutTimer := STARTED;
      }
    }

    method ClockQueue(ms: uint32, sendOk: bool) returns (ghost outs: seq<Output>)
      modifies this
      ensures (View(), outs) == ClockPacketData(old(View()), ms, sendOk) && packetDataNs == old(packetDataNs)
    {
      outs := [];
      if !status.Running? || packetDataTxQueue == [] { return; }
      var sum := (packetDataTxElapsedMs + ms) % 0x1_0000_0000;
      packetDataTxElapsedMs := if sum < 2 * FRAME_INTERVAL_MS then sum else 2 * FRAME_INTERVAL_MS;
      if packetDataTxElapsedMs < FRAME_INTERVAL_MS { return; }
      if !sendOk {
        packetDataTxElapsedMs := FRAME_INTERVAL_MS;
        return;
      }
      outs := [Sent(packetDataTxQueue[0])];
      packetDataTxQueue := packetDataTxQueue[1..];
      packetDataTxElapsedMs := packetDataTxElapsedMs - FRAME_INTERVAL_MS;
      if packetDataTxQueue == [] { packetDataTxElapsedMs := 0; }
    }

    method ClockTimers(ms: nat) returns (ghost outs: seq<Output>)
      modifies this
      ensures packetDataNs == old(packetDataNs)
      ensures var (n1, o1) := ClockRetry(old(View()), ms); var (n2, o2) := ClockTimeout(n1, ms);
              View() == n2 && outs == o1 + o2
    {
      outs := [];
      retryTimer := Clocked(retryTimer, ms);
      if HasExpired(retryTimer, RETRY_MS) {
        outs := Retransmission(status);
        retryTimer := STARTED;
      }
      timeoutTimer := Clocked(timeoutTimer, ms);
      if HasExpired(timeoutTimer, TIMEOUT_MS) {
        ghost var more := DeferReconnect();
        outs := outs + more;
      }
    }

    method ClockConnecting(env: Env) returns (ghost outs: seq<Output>)
      modifies this
      ensures (View(), outs) == ClockWaiting(old(View()), env) && packetDataNs == old(packetDataNs)
    {
      outs := [];
      retryTimer := Clocked(retryTimer, env.ms);
      if HasExpired(retryTimer, RETRY_MS) {
        if !socketActive {
          var ok;
          ok, outs := Open(env);
          return;
        }
        outs := [Login];
        if !env.loginOk { return; }
        status := WaitingLogin;
        timeoutTimer := STARTED;
        retryTimer := STARTED;
      }
    }

    /** clock */
    method Tick(env: Env) returns (ghost outs: seq<Output>)
      modifies this
      ensures (View(), outs) == Clock(old(View()), env) && packetDataNs == old(packetDataNs)
    {
      hide OnPacket, ClockPacketData, ClockRetry, ClockTimeout, ClockWaiting, Deferred;
      if status.WaitingConnect? {
        outs := ClockConnecting(env);
        return;
      }
      if env.received == ReadError || env.received == MasterClose {
        outs := DeferReconnect();
        return;
      }
      ghost var o1 := Receive(env.received);
      ghost var o2 := ClockQueue(env.ms, env.sendOk);
      ghost var o3 := ClockTimers(env.ms);
      outs := o1 + o2 + o3;
      ghost var n2 := ClockPacketData(OnPacket(old(View()), env.received).0, env.ms, env.sendOk).0;
      ghost var retry := ClockRetry(n2, env.ms);
      assert outs == o1 + o2 + retry.1 + ClockTimeout(retry.0, env.ms).1;
    }

    /**
     * writePacketData: the whole burst is queued, or nothing of it. The send sequence number of
     * the source moves on whenever the link runs and there is a packet, even if the burst is refused.
     */
    method WritePacketData(source: uint32, target: uint32, ipPacket: seq<byte>, streamId: uint32, asm: PacketEncoder.Assembler,
                           modulate: Modulation) returns (ok: bool)
      modifies this
      ensures var ns := NextNs(old(packetDataNs), source);
              var packets := WirePackets(BurstOf(source, target, timeslot, ns, ipPacket, asm), modulate, repeaterId, streamId);
              && View() == Written(old(View()), packets).0
              && (ok <==> old(status).Running? && ipPacket != [] && source != 0 && target != 0 && timeslot in {1, 2}
                          && |old(packetDataTxQueue)| + |packets| <= MAX_QUEUED)
              && packetDataNs == if ipPacket != [] && old(status).Running? then old(packetDataNs)[source := ns] else old(packetDataNs)
    {
      hide PacketEncoder.Encoded, Build;
      ghost var ns := NextNs(packetDataNs, source);
      ghost var was := packetDataTxQueue;
      BurstIsUniform(source, target, timeslot, ns, ipPacket, asm);
      if ipPacket == [] || !status.Running? { return false; }
      packetDataNs := packetDataNs[source := NextNs(packetDataNs, source)];
      var frames := PacketEncoder.Encode(PacketEncoder.Route(source, target, timeslot), packetDataNs[source], ipPacket, asm, PREAMBLE_COUNT);
      if frames == [] { return false; }
      if |packetDataTxQueue| + |frames| > MAX_QUEUED { return false; }
      ghost var packets := WirePackets(frames, modulate, repeaterId, streamId);
      var startImmediately := packetDataTxQueue == [];
      var i := 0;
      while i < |frames|
        invariant 0 <= i <= |frames| && packetDataTxQueue == was + packets[..i]
        invariant i > 0 ==> packets[0] != []
        invariant status == old(status) && socketActive == old(socketActive) && retryTimer == old(retryTimer)
        invariant timeoutTimer == old(timeoutTimer) && packetDataTxElapsedMs == old(packetDataTxElapsedMs)
        invariant packetDataNs == old(packetDataNs)[source := ns]
      {
        var packet := Build(OnAir(frames[i], modulate), repeaterId, streamId);
        EmptyIffBadSlot(OnAir(frames[i], modulate), repeaterId, streamId);
        EmptyIffBadSlot(OnAir(frames[0], modulate), repeaterId, streamId);
        if packet == [] { return false; }
        packetDataTxQueue := packetDataTxQueue + [packet];
        assert packets[..i + 1] == packets[..i] + [packet];
        i := i + 1;
      }
      assert packets[..i] == packets;
      EmptyIffBadSlot(OnAir(frames[0], modulate), repeaterId, streamId);
      if startImmediately { packetDataTxElapsedMs := FRAME_INTERVAL_MS; }
      return true;
    }
  }

  /** The sequence numbers after packets from these sources. */
  function AllNs(ns: map<uint32, byte>, sources: seq<uint32>): map<uint32, byte> {
    if sources == [] then ns
    else
      var before, last := AllNs(ns, sources[..|sources| - 1]), sources[|sources| - 1];
      before[last := NextNs(before, last)]
  }

  function CountOf(sources: seq<uint32>, source: uint32): nat {
    if sources == [] then 0 else CountOf(sources[..|sources| - 1], source) + (if sources[|sources| - 1] == source then 1 else 0)
  }

  /** Each source has its own sequence numbers: its packets, whatever comes between, are numbered on from 1, modulo 8. */
  lemma {:induction false} NsCountsOwnPackets(sources: seq<uint32>, source: uint32)
    ensures Get(AllNs(map[], sources), source) ==
            if CountOf(sources, source) == 0 then None else Some(CountOf(sources, source) % 8)
  {
    if sources != [] { NsCountsOwnPackets(sources[..|sources| - 1], source); }
  }

  lemma EmptyIffBadSlot(f: Frame<Payload>, repeater: RepeaterId, streamId: uint32)
    ensures Build(f, repeater, streamId) == [] <==> f.slot !in {1, 2}
  {
  }

  /** A burst is empty exactly when an id or the packet is missing, and it keeps to one slot. */
  lemma BurstIsUniform(source: uint32, target: uint32, slot: byte, sequenceNo: byte, ipPacket: seq<byte>, asm: PacketEncoder.Assembler)
    ensures var frames := BurstOf(source, target, slot, sequenceNo, ipPacket, asm);
            && (frames == [] <==> source == 0 || target == 0 || ipPacket == [])
            && forall i :: 0 <= i < |frames| ==> frames[i].slot == slot
  {
    hide PacketEncoder.Encoded;
    var r := PacketEncoder.Route(source, target, slot);
    PacketEncoder.FramesAreNumbered(r, sequenceNo, ipPacket, asm, PREAMBLE_COUNT);
    PacketEncoder.EncodedOrNot(r, sequenceNo, ipPacket, asm, PREAMBLE_COUNT);
    if source != 0 && target != 0 && ipPacket != [] {
      PacketEncoder.EncodedLayout(r, sequenceNo, ipPacket, asm, PREAMBLE_COUNT);
    }
  }

  /**
   * Every queued packet of a burst reads back as the frame it was built from, on each slot the
   * configuration allows, if and only if both radio ids fit the 24 bits the packet has for them.
   */
  lemma BurstReadsBack(source: uint32, target: uint32, slot: byte, sequenceNo: byte, ipPacket: seq<byte>, asm: PacketEncoder.Assembler,
                       modulate: Modulation, repeater: RepeaterId, streamId: uint32)
    requires source != 0 && target != 0 && ipPacket != [] && slot in {1, 2}
    ensures var frames := BurstOf(source, target, slot, sequenceNo, ipPacket, asm);
            var packets := WirePackets(frames, modulate, repeater, streamId);
            (forall i :: 0 <= i < |frames| ==> Read(packets[i]) == Some(OnAir(frames[i], modulate)))
            <==> source < 0x100_0000 && target < 0x100_0000
  {
    hide PacketEncoder.Encoded, Build, Read;
    var frames := BurstOf(source, target, slot, sequenceNo, ipPacket, asm);
    BurstIsUniform(source, target, slot, sequenceNo, ipPacket, asm);
    forall i | 0 <= i < |frames|
      ensures Read(Build(OnAir(frames[i], modulate), repeater, streamId)) == Some(OnAir(frames[i], modulate))
              <==> source < 0x100_0000 && target < 0x100_0000
    {
      FrameIsData(source, target, slot, sequenceNo, ipPacket, asm, i);
      HomebrewRoundTrip(OnAir(frames[i], modulate), repeater, streamId);
    }
    var packets := WirePackets(frames, modulate, repeater, streamId);
    assert packets[0] == Build(OnAir(frames[0], modulate), repeater, streamId);
  }

  lemma FrameIsData(source: uint32, target: uint32, slot: byte, sequenceNo: byte, ipPacket: seq<byte>, asm: PacketEncoder.Assembler, i: nat)
    requires i < |BurstOf(source, target, slot, sequenceNo, ipPacket, asm)|
    ensures var f := BurstOf(source, target, slot, sequenceNo, ipPacket, asm)[i];
            f.src == source && f.dst == target && f.slot == slot && f.n == 0 && f.dataType.Data?
  {
  }
}
