/**
 * What the host gets back, byte for byte: channels, fragments, errors, keepalives and cancellations, with the numbers
 * that section 11.2 of the CTAP 2.1 standard gives them.
 */
module CtapHidAnswers {
  import opened Words
  import opened CtapHidEngine
  import opened CtapHidTheorems

  /** A packet that is a whole message. */
  function Wire(channel: u32, command: byte, payload: Bytes): (p: Packet)
    requires |payload| <= 57
  {
    ToBe32(channel) + [command, 0, |payload|] + payload + Fill(57 - |payload|, 0)
  }

  // ---- Channels ----

  /** A channel that some host has been given. */
  predicate InUse(e: Engine, channel: u32) {
    0 < channel < 0xffff_ffff && channel <= e.lastChannel
  }

  /** An INIT on this channel that the engine takes: it is idle, or busy with that very channel. */
  predicate Takes(e: Engine, op: Op, channel: u32) {
    && op.Report? && |op.bytes| == 64 && FromBe32(op.bytes[..4]) == channel && op.bytes[4..7] == [0x86, 0, 8]
    && (e.work.Idle? || e.work.channel == channel)
  }

  predicate Allocates(e: Engine, op: Op) {
    Takes(e, op, 0xffff_ffff)
  }

  /** The answer to an INIT: the nonce that came in, the channel, and who the device is. */
  predicate Introduces(e: Engine, op: Op, v: Engine, channel: u32)
    requires op.Report? && |op.bytes| == 64
  {
    && v.work.Sending? && v.work.command.Init? && v.work.offset == 0 && v.work.channel == FromBe32(op.bytes[..4])
    && |v.work.payload| == 17 && v.work.payload[..8] == op.bytes[7..15] && FromBe32(v.work.payload[8..12]) == channel
    && v.work.payload[12..] == [2, e.version.major, e.version.minor, e.version.build, e.capabilities]
  }

  /** The channel that the answer to such an INIT carries, behind the nonce. */
  function GrantedIn(v: Engine): Option<u32> {
    if v.work.Sending? && |v.work.payload| == 17 then Some(FromBe32(v.work.payload[8..12])) else None
  }

  /** Whatever was going on with a channel is over when an INIT comes in on it. */
  function Interrupted(e: Engine): Engine {
    if e.work.Idle? then e else e.(work := Idle, keepalive := None)
  }

  /** A channel nobody had before is granted, and the answer says which one. */
  lemma BroadcastGrants(e: Engine, op: Op)
    requires Wf(e) && Allocates(e, op) && e.lastChannel < 0xffff_fffe
    ensures var v := Do(e, op);
            && Introduces(e, op, v, v.lastChannel) && GrantedIn(v) == Some(v.lastChannel)
            && !InUse(e, v.lastChannel) && InUse(v, v.lastChannel)
            && v == Interrupted(e).(work := v.work, lastChannel := e.lastChannel + 1)
  {
    hide OneErrorPerChannel, FromBe32;
    InitAnswer(e, op, 0xffff_ffff, NextChannel(e.lastChannel));
  }

  /** An INIT on a channel in use starts that channel afresh and leaves it to its host. */
  lemma InitKeepsChannel(e: Engine, op: Op, channel: u32)
    requires Wf(e) && Takes(e, op, channel) && InUse(e, channel)
    ensures var v := Do(e, op);
            Introduces(e, op, v, channel) && v == Interrupted(e).(work := v.work)
  {
    hide OneErrorPerChannel, FromBe32;
    InitAnswer(e, op, channel, channel);
  }

  lemma InitAnswer(e: Engine, op: Op, channel: u32, granted: u32)
    requires Wf(e) && Takes(e, op, channel)
    requires if channel == BROADCAST_CHANNEL then granted == NextChannel(e.lastChannel)
             else granted == channel && IsAllocated(e.lastChannel, channel)
    ensures var v := Do(e, op);
            && Introduces(e, op, v, granted)
            && v == Interrupted(e).(work := v.work,
                                    lastChannel := if channel == BROADCAST_CHANNEL then granted else e.lastChannel)
  {
    hide OneErrorPerChannel, Enqueue, FromBe32, IngestContinuation, NextChannel, ToBe32;
    var p: Packet := op.bytes;
    assert p[4] == op.bytes[4..7][0] && p[5] == op.bytes[4..7][1] && p[6] == op.bytes[4..7][2];
    var idle := Interrupted(e);
    AcceptsInit(idle, channel, p, op.now);
    assert Do(e, op) == DispatchInit(idle, channel, p[7..15]);
    var reply := InitReply(idle, granted, p[7..15]);
    assert reply[8..12] == ToBe32(granted) && reply[..8] == p[7..15];
    Be32RoundTrip(granted);
  }

  lemma AcceptsInit(e: Engine, channel: u32, p: Packet, now: u32)
    requires Wf(e) && e.work.Idle? && p[4] == 0x86 && p[5] == 0 && p[6] == 8
    ensures Accept(e, channel, 6, LengthOf(p), p, now) == (DispatchInit(e, channel, p[7..15]), NoEvent)
  {
    hide OneErrorPerChannel, DispatchInit;
  }

  /** Nothing else moves the channel counter. */
  lemma OthersKeepChannels(e: Engine, op: Op)
    requires Wf(e) && !Allocates(e, op)
    ensures Do(e, op).lastChannel == e.lastChannel
  {
    hide OneErrorPerChannel, Enqueue, Accept, IngestContinuation, FromBe32;
    if op.Report? && |op.bytes| == PACKET_SIZE {
      var p, channel := op.bytes, ChannelOf(op.bytes);
      if p[4] < 0x80 {
        ContinuationKeepsChannels(e, channel, p, op.now);
      } else {
        if p[4] == 0x86 && LengthOf(p) == 8 && channel == BROADCAST_CHANNEL {
          assert p[4..7] == [0x86, 0, 8];
        } else {
          AcceptKeepsChannels(e, channel, p[4] - 0x80, LengthOf(p), p, op.now);
          AcceptKeepsChannels(AbortTransaction(e), channel, p[4] - 0x80, LengthOf(p), p, op.now);
        }
      }
    }
  }

  lemma AcceptKeepsChannels(e: Engine, channel: u32, number: byte, length: nat, p: Packet, now: u32)
    requires number != 6 || length != 8 || channel != BROADCAST_CHANNEL
    ensures Accept(e, channel, number, length, p, now).0.lastChannel == e.lastChannel
  {
    hide Enqueue, InitReply;
  }

  lemma ContinuationKeepsChannels(e: Engine, channel: u32, p: Packet, now: u32)
    requires Wf(e)
    ensures IngestContinuation(e, channel, p, now).0.lastChannel == e.lastChannel
  {
    hide Enqueue, OneErrorPerChannel, InitReply;
    if e.work.Receiving? { SequenceFits(e.work.length, |e.work.got|); }
  }

  /** The channels granted in a run, in order. */
  function Grants(e: Engine, ops: seq<Op>): seq<u32>
    requires Wf(e)
    decreases |ops|
  {
    if ops == [] then []
    else
      DoKeepsWf(e, ops[0]);
      var next := Do(e, ops[0]);
      (if Allocates(e, ops[0]) && GrantedIn(next).Some? then [GrantedIn(next).value] else []) + Grants(next, ops[1..])
  }

  lemma {:induction false} GrantsCount(e: Engine, ops: seq<Op>)
    requires Wf(e) && e.lastChannel + |Grants(e, ops)| < 0xffff_ffff
    ensures Run(e, ops).lastChannel == e.lastChannel + |Grants(e, ops)|
    ensures forall i :: 0 <= i < |Grants(e, ops)| ==> Grants(e, ops)[i] == e.lastChannel + 1 + i
    decreases |ops|
  {
    hide Wf, Do, Allocates, GrantedIn;
    if ops != [] {
      var next := Do(e, ops[0]);
      DoKeepsWf(e, ops[0]);
      if Allocates(e, ops[0]) {
        if e.lastChannel < 0xffff_fffe { BroadcastGrants(e, ops[0]); } else { LastGrant(e, ops[0]); }
      } else {
        OthersKeepChannels(e, ops[0]);
      }
      GrantsCount(next, ops[1..]);
    }
  }

  lemma LastGrant(e: Engine, op: Op)
    requires Wf(e) && Allocates(e, op)
    ensures GrantedIn(Do(e, op)).Some?
  {
    hide OneErrorPerChannel, FromBe32;
    InitAnswer(e, op, 0xffff_ffff, NextChannel(e.lastChannel));
  }

  /**
   * Over a whole run with fewer than 0xFFFF_FFFF channels in use, no channel is granted twice, none of them was in use
   * before, and all of them, with those from before, stay allocated.
   */
  lemma GrantsAreDistinct(e: Engine, ops: seq<Op>)
    requires Wf(e) && e.lastChannel + |Grants(e, ops)| < 0xffff_ffff
    ensures var g := Grants(e, ops);
            && (forall i, j :: 0 <= i < j < |g| ==> g[i] != g[j])
            && (forall i :: 0 <= i < |g| ==> !InUse(e, g[i]) && InUse(Run(e, ops), g[i]))
            && (forall c :: InUse(e, c) ==> InUse(Run(e, ops), c))
  {
    hide Run, Grants;
    GrantsCount(e, ops);
  }

  // ---- Fragments ----

  /** Packet `i` of a message, from its bytes alone. */
  function FragmentBytes(channel: u32, command: Command, payload: Bytes, i: nat): (p: Bytes)
    requires |payload| < 0x1_0000
  {
    var n := |payload|;
    if i == 0 then
      var data := payload[..Min(n, 57)];
      ToBe32(channel) + [0x80 + command.Number(), n / 0x100, n % 0x100] + data + Fill(57 - |data|, 0)
    else
      LaterBytes(channel, payload, Min(n, 57 + 59 * (i - 1)), (i - 1) % 0x80)
  }

  /** A packet that carries on with a message from `offset`. */
  function LaterBytes(channel: u32, payload: Bytes, offset: nat, sequence: byte): (p: Bytes)
    requires offset <= |payload|
  {
    var data := payload[offset..Min(|payload|, offset + 59)];
    ToBe32(channel) + [sequence] + data + Fill(59 - |data|, 0)
  }

  lemma FrameOffset(length: nat, q: nat)
    requires 57 + 59 * q < length <= MAX_MESSAGE_SIZE
    ensures OnFrame(length, 57 + 59 * q) && SequenceAt(57 + 59 * q) == q < 0x80
  {
    ByFrame(q);
  }

  lemma ByFrame(q: nat)
    ensures (59 * q) / 59 == q && (59 * q) % 59 == 0
  {
  }

  lemma FirstChunk(channel: u32, command: Command, payload: Bytes)
    requires |payload| <= MAX_MESSAGE_SIZE
    ensures Padded(FrameAt(channel, command, payload, 0)) == FragmentBytes(channel, command, payload, 0)
    ensures |ChunkAt(payload, 0)| == Min(|payload|, 57)
  {
    hide ToBe32, SequenceAt;
  }

  lemma LaterChunk(channel: u32, command: Command, payload: Bytes, offset: nat)
    requires 57 <= offset < |payload| <= MAX_MESSAGE_SIZE && OnFrame(|payload|, offset)
    ensures Padded(FrameAt(channel, command, payload, offset)) ==
            LaterBytes(channel, payload, offset, SequenceAt(offset))
    ensures offset + |ChunkAt(payload, offset)| == Min(|payload|, offset + 59)
  {
    hide ToBe32, SequenceAt, OnFrame;
  }

  lemma ChunkBytes(channel: u32, command: Command, payload: Bytes, i: nat)
    requires |payload| <= MAX_MESSAGE_SIZE && (i == 0 || 57 + 59 * (i - 1) < |payload|)
    ensures var offset := if i == 0 then 0 else 57 + 59 * (i - 1);
            && OnFrame(|payload|, offset)
            && Padded(FrameAt(channel, command, payload, offset)) == FragmentBytes(channel, command, payload, i)
            && offset + |ChunkAt(payload, offset)| == Min(|payload|, 57 + 59 * i)
  {
    hide FrameAt, ChunkAt, Padded, LaterBytes, ToBe32, Fill;
    if i == 0 {
      hide FragmentBytes;
      FirstChunk(channel, command, payload);
    } else {
      var offset := 57 + 59 * (i - 1);
      FrameOffset(|payload|, i - 1);
      hide OnFrame, SequenceAt;
      LaterChunk(channel, command, payload, offset);
      assert FragmentBytes(channel, command, payload, i) == LaterBytes(channel, payload, offset, i - 1);
    }
  }

  lemma {:induction false} FragmentsFrom(channel: u32, command: Command, payload: Bytes, i: nat)
    requires |payload| <= MAX_MESSAGE_SIZE && (i == 0 || 57 + 59 * (i - 1) < |payload|)
    ensures var offset := if i == 0 then 0 else 57 + 59 * (i - 1);
            && OnFrame(|payload|, offset)
            && var f := Fragments(channel, command, payload, offset);
            && (forall k :: 0 <= k < |f| ==> f[k] == FragmentBytes(channel, command, payload, i + k))
            && |payload| <= 57 + 59 * (i + |f| - 1) && (|f| > 1 ==> 57 + 59 * (i + |f| - 2) < |payload|)
    decreases |payload| - 59 * i
  {
    hide FragmentBytes, FrameAt, ChunkAt, Padded, Fragments;
    ChunkBytes(channel, command, payload, i);
    var offset := if i == 0 then 0 else 57 + 59 * (i - 1);
    FragmentsStep(channel, command, payload, offset);
    if 57 + 59 * i < |payload| { FragmentsFrom(channel, command, payload, i + 1); }
  }

  /** The packets of a message are these bytes, and as many as it takes to carry it. */
  lemma FragmentsAreBytes(channel: u32, command: Command, payload: Bytes)
    requires |payload| <= MAX_MESSAGE_SIZE
    ensures var f := Fragments(channel, command, payload, 0);
            && (forall k :: 0 <= k < |f| ==> f[k] == FragmentBytes(channel, command, payload, k))
            && |f| > 0 && |payload| <= 57 + 59 * (|f| - 1) && (|f| > 1 ==> 57 + 59 * (|f| - 2) < |payload|)
  {
    hide FragmentBytes, Fragments;
    FragmentsFrom(channel, command, payload, 0);
  }

  // ---- Errors, keepalives, cancellations ----

  /** The error is queued behind the others, unless its channel has one already or there are eight; no more happens. */
  predicate Reports(e: Engine, after: Engine, channel: u32, code: byte) {
    && SameCore(e, after)
    && if |e.errors| >= 8 || exists i :: 0 <= i < |e.errors| && e.errors[i].channel == channel then after.errors == e.errors
       else
         && |after.errors| == |e.errors| + 1 && after.errors[..|e.errors|] == e.errors
         && after.errors[|e.errors|].channel == channel && after.errors[|e.errors|].error.Code() == code
  }

  lemma QueuedReports(e: Engine, channel: u32, error: TransportError)
    ensures Reports(e, QueueError(e, channel, error), channel, error.Code())
  {
  }

  /** Pending errors leave first, in order, each as one packet; then a keepalive. */
  lemma NoticeBytes(e: Engine)
    requires Wf(e)
    ensures e.errors != [] ==>
              && NextPacket(e) == Some(Wire(e.errors[0].channel, 0xbf, [e.errors[0].error.Code()]))
              && PacketSent(e) == e.(errors := e.errors[1..])
    ensures e.errors == [] && e.keepalive.Some? ==>
              && NextPacket(e) == Some(Wire(e.keepalive.value.channel, 0xbb,
                                            [if e.keepalive.value.status.Processing? then 1 else 2]))
              && PacketSent(e) == e.(keepalive := None)
  {
    hide OneErrorPerChannel, WorkWf, ToBe32;
  }

  /** What an idle engine refuses, and with which code. */
  lemma IdleRefuses(e: Engine, p: Packet, now: u32)
    requires Wf(e) && e.work.Idle? && p[4] >= 0x80
    ensures var (v, event) := Ingest(e, p, now);
            var channel, number, length := FromBe32(p[..4]), p[4] - 0x80, 0x100 * (p[5] as int) + p[6];
            && (number !in {0x01, 0x03, 0x04, 0x06, 0x08, 0x10, 0x11, 0x3b, 0x3f, 0x51} ==> Reports(e, v, channel, 0x01))
            && (number in {0x01, 0x03, 0x04, 0x06, 0x08, 0x10, 0x11, 0x3b, 0x3f, 0x51} ==>
                  (length > e.capacity || (number == 0x06 && length != 8) || (number == 0x11 && length != 0) ==>
                     Reports(e, v, channel, 0x03)))
            && (number == 0x06 && length == 8 && channel != 0xffff_ffff && !InUse(e, channel) ==>
                  Reports(e, v, channel, 0x0b))
            && (number in {0x01, 0x03, 0x04, 0x08, 0x10, 0x3b, 0x3f, 0x51} && length <= Min(57, e.capacity) ==>
                  && (!InUse(e, channel) ==> Reports(e, v, channel, 0x0b))
                  && (InUse(e, channel) && (number !in {0x01, 0x10, 0x51} || (number == 0x51 && !e.signedUpdate)) ==>
                        Reports(e, v, channel, 0x01)))
  {
    hide Enqueue, OneErrorPerChannel, FromBe32, InitReply, Reports, QueueError;
    var channel := ChannelOf(p);
    QueuedReports(e, channel, InvalidCommand);
    QueuedReports(e, channel, InvalidLength);
    QueuedReports(e, channel, InvalidChannel);
  }

  /** What an idle engine takes on a channel in use: the packet's own bytes, whole or as the start of a longer message. */
  lemma IdleAccepts(e: Engine, p: Packet, now: u32)
    requires Wf(e) && e.work.Idle? && p[4] in {0x81, 0x90, 0xd1} && InUse(e, FromBe32(p[..4]))
    requires 0x100 * (p[5] as int) + p[6] <= e.capacity && (p[4] == 0xd1 ==> e.signedUpdate)
    ensures var (v, event) := Ingest(e, p, now);
            var channel, length := FromBe32(p[..4]), 0x100 * (p[5] as int) + p[6];
            var command := if p[4] == 0x81 then Ping else if p[4] == 0x90 then Cbor else Update;
            && v == e.(work := v.work)
            && (length > 57 ==> v.work == Receiving(channel, command, length, p[7..], now) && event == NoEvent)
            && (length <= 57 && p[4] == 0x81 ==> v.work == Sending(channel, Ping, p[7..7 + length], 0) && event == NoEvent)
            && (length <= 57 && p[4] != 0x81 ==>
                  && v.work == Serving(channel, command, p[7..7 + length])
                  && event == if p[4] == 0x90 then CborRequest(channel, length) else UpdateRequest(channel, length))
  {
    hide Enqueue, OneErrorPerChannel, FromBe32, InitReply;
  }

  /** A CANCEL that finds nothing to cancel does nothing. */
  lemma IdleCancel(e: Engine, p: Packet, now: u32)
    requires Wf(e) && e.work.Idle? && p[4..7] == [0x91, 0, 0]
    ensures var (v, event) := Ingest(e, p, now);
            && event == NoEvent && (InUse(e, FromBe32(p[..4])) ==> v == e)
            && (!InUse(e, FromBe32(p[..4])) ==> Reports(e, v, FromBe32(p[..4]), 0x0b))
  {
    hide Enqueue, OneErrorPerChannel, FromBe32, Reports, QueueError;
    assert p[4] == p[4..7][0] && p[5] == p[4..7][1] && p[6] == p[4..7][2];
    QueuedReports(e, ChannelOf(p), InvalidChannel);
  }

  /** What an engine in the middle of a transaction does with an initial packet, on its channel or another. */
  lemma BusyAnswers(e: Engine, p: Packet, now: u32)
    requires Wf(e) && !e.work.Idle? && p[4] >= 0x80
    ensures var (v, event) := Ingest(e, p, now);
            var channel, length := FromBe32(p[..4]), 0x100 * (p[5] as int) + p[6];
            && (channel != e.work.channel && p[4] != 0x91 ==> Reports(e, v, channel, 0x06) && event == NoEvent)
            && (channel != e.work.channel && p[4] == 0x91 ==> v == e && event == NoEvent)
            && (channel == e.work.channel && p[4] !in {0x86, 0x91} ==>
                  Reports(e.(work := Idle, keepalive := None), v, channel, 0x04) && event == NoEvent)
            && (channel == e.work.channel && p[4] == 0x91 && length != 0 ==>
                  Reports(e, v, channel, 0x03) && event == NoEvent)
            && (channel == e.work.channel && p[4] == 0x91 && length == 0 ==>
                  if e.work.Serving? then v == e.(keepalive := None) && event == Cancelled(channel)
                  else v == e && event == NoEvent)
  {
    hide Enqueue, OneErrorPerChannel, FromBe32, Reports, QueueError, Accept;
    var channel := ChannelOf(p);
    QueuedReports(e, channel, ChannelBusy);
    QueuedReports(e, channel, InvalidLength);
    QueuedReports(AbortTransaction(e), channel, InvalidSequence);
  }

  /** A continuation packet out of order ends the message; one that nobody waits for is ignored. */
  lemma ContinuationRefused(e: Engine, p: Packet, now: u32)
    requires Wf(e) && p[4] < 0x80
    ensures var (v, event) := Ingest(e, p, now);
            var channel := FromBe32(p[..4]);
            && (!e.work.Receiving? || channel != e.work.channel ==> v == e && event == NoEvent)
            && (e.work.Receiving? && channel == e.work.channel && 57 + 59 * (p[4] as int) != |e.work.got| ==>
                  Reports(e.(work := Idle), v, channel, 0x04) && event == NoEvent)
  {
    hide Enqueue, OneErrorPerChannel, FromBe32, Reports, QueueError, Dispatch;
    QueuedReports(e.(work := Idle), ChannelOf(p), InvalidSequence);
    if e.work.Receiving? { SequenceFits(e.work.length, |e.work.got|); }
  }

  /** A message times out exactly when more than 550 ms, on the wrapping clock, have passed since its last packet. */
  lemma TimesOutExactly(e: Engine, now: u32)
    requires Wf(e)
    ensures var late := e.work.Receiving? && (now - e.work.lastActivityMs) % 0x1_0000_0000 > 550;
            && (late ==> Reports(e.(work := Idle), Expire(e, now), e.work.channel, 0x05))
            && (!late ==> Expire(e, now) == e)
  {
    hide Enqueue, OneErrorPerChannel, Reports, QueueError;
    if e.work.Receiving? { QueuedReports(e.(work := Idle), e.work.channel, Timeout); }
  }

  /** A report of the wrong length discards everything; the flag says that a request being served was given up. */
  lemma ReportsInterrupt(e: Engine, report: Bytes, now: u32)
    requires Wf(e)
    ensures var (v, event, interrupted) := IngestReport(e, report, now);
            && (|report| != 64 ==>
                  v == e.(work := Idle, keepalive := None, errors := []) && event == NoEvent && interrupted)
            && (|report| == 64 ==>
                  (v, event) == Ingest(e, report, now) &&
                  (interrupted <==> event.Cancelled? || (e.work.Serving? && !v.work.Serving?)))
  {
    hide Ingest, Wf;
  }

  /** An answer in time is sent as its fragments; one that is too long costs the request; without a request, nothing. */
  lemma ReplyIsSent(e: Engine, payload: Bytes)
    requires Wf(e)
    ensures var (v, result) := Reply(e, payload);
            && (!e.work.Serving? ==> v == e && result == Err(NoPendingRequest))
            && (e.work.Serving? && |payload| > e.capacity ==>
                  result == Err(ResponseTooLong) && Reports(e.(work := Idle), v, e.work.channel, 0x03))
            && (e.work.Serving? && |payload| <= e.capacity ==>
                  && result == Ok(()) && Wf(v) && |payload| <= MAX_MESSAGE_SIZE
                  && WithoutNotices(Drain(v)) == Fragments(e.work.channel, e.work.command, payload, 0))
  {
    hide Enqueue, OneErrorPerChannel, Reports, QueueError, Drain, WithoutNotices, Fragments;
    if e.work.Serving? {
      QueuedReports(e.(work := Idle), e.work.channel, InvalidLength);
      if |payload| <= e.capacity { DrainIsFragments(Reply(e, payload).0); }
    }
  }

  /** A keepalive is accepted while a request is being served, and is for it. */
  lemma KeepaliveIsForRequest(e: Engine, status: KeepaliveStatus)
    requires Wf(e)
    ensures var (v, accepted) := KeepAlive(e, status);
            && accepted == e.work.Serving? && (!accepted ==> v == e)
            && (accepted && e.errors == [] ==>
                  && Wf(v) && PacketSent(v) == e.(keepalive := None)
                  && NextPacket(v) == Some(Wire(e.work.channel, 0xbb, [if status.Processing? then 1 else 2])))
  {
    hide OneErrorPerChannel, ToBe32;
  }
}
