/**
 * The CTAPHID transport engine (src/ctaphid.rs) as a state machine on values.
 *
 * The program keeps two byte buffers, three optional records and an array of pending errors; module `CtapHid` has
 * them as a class. Here the same engine does one thing at a time (`Work`), holds payloads as sequences, and keeps
 * its pending errors as a queue.
 */
module CtapHidEngine {
  import opened Words

  const PACKET_SIZE := 64
  const INIT_PAYLOAD_SIZE := 57
  const CONT_PAYLOAD_SIZE := 59
  const MAX_MESSAGE_SIZE := INIT_PAYLOAD_SIZE + 128 * CONT_PAYLOAD_SIZE
  const BROADCAST_CHANNEL: u32 := 0xffff_ffff
  const RESERVED_CHANNEL: u32 := 0
  const RECEIVE_TIMEOUT_MS := 550
  const ERROR_CAPACITY := 8

  type Packet = p: Bytes | |p| == PACKET_SIZE witness Fill(PACKET_SIZE, 0)

  datatype Command = Ping | Msg | Lock | Init | Wink | Cbor | Cancel | Keepalive | Error | Update {
    function Number(): (n: byte)
      ensures n < 0x80
    {
      match this
      case Ping => 0x01 case Msg => 0x03 case Lock => 0x04 case Init => 0x06 case Wink => 0x08
      case Cbor => 0x10 case Cancel => 0x11 case Keepalive => 0x3b case Error => 0x3f case Update => 0x51
    }
  }

  function FromNumber(n: byte): (c: Option<Command>)
    ensures c.Some? ==> c.value.Number() == n
  {
    if n == 0x01 then Some(Ping) else if n == 0x03 then Some(Msg) else if n == 0x04 then Some(Lock)
    else if n == 0x06 then Some(Init) else if n == 0x08 then Some(Wink) else if n == 0x10 then Some(Cbor)
    else if n == 0x11 then Some(Cancel) else if n == 0x3b then Some(Keepalive) else if n == 0x3f then Some(Error)
    else if n == 0x51 then Some(Update) else None
  }

  lemma NumberRoundTrip(c: Command)
    ensures FromNumber(c.Number()) == Some(c)
  {
  }

  datatype TransportError =
    InvalidCommand | InvalidLength | InvalidSequence | Timeout | ChannelBusy | InvalidChannel
  {
    function Code(): byte {
      match this
      case InvalidCommand => 0x01 case InvalidLength => 0x03 case InvalidSequence => 0x04
      case Timeout => 0x05 case ChannelBusy => 0x06 case InvalidChannel => 0x0b
    }
  }

  datatype KeepaliveStatus = Processing | UserPresenceNeeded {
    function Code(): byte {
      if Processing? then 0x01 else 0x02
    }
  }

  datatype Event =
    | NoEvent
    | CborRequest(channel: u32, length: nat)
    | UpdateRequest(channel: u32, length: nat)
    | Cancelled(channel: u32)

  datatype ReplyError = NoPendingRequest | ResponseTooLong

  datatype PendingError = PendingError(channel: u32, error: TransportError)

  datatype Hint = Hint(channel: u32, status: KeepaliveStatus)

  datatype DeviceVersion = DeviceVersion(major: byte, minor: byte, build: byte)

  /** The one transaction in progress. */
  datatype Work =
    | Idle
    | Receiving(channel: u32, command: Command, length: nat, got: Bytes, lastActivityMs: u32)
    | Serving(channel: u32, command: Command, payload: Bytes)
    | Sending(channel: u32, command: Command, payload: Bytes, offset: nat)

  datatype Engine = Engine(
    capacity: nat, version: DeviceVersion, capabilities: byte, signedUpdate: bool,
    work: Work, keepalive: Option<Hint>, errors: seq<PendingError>, lastChannel: u32)

  // ---- Small steps ----

  function ActiveChannel(w: Work): Option<u32> {
    if w.Idle? then None else Some(w.channel)
  }

  predicate HasError(errors: seq<PendingError>, channel: u32) {
    exists i :: 0 <= i < |errors| && errors[i].channel == channel
  }

  function Enqueue(errors: seq<PendingError>, channel: u32, error: TransportError): seq<PendingError> {
    if HasError(errors, channel) || |errors| >= ERROR_CAPACITY then errors
    else errors + [PendingError(channel, error)]
  }

  function QueueError(e: Engine, channel: u32, error: TransportError): Engine {
    e.(errors := Enqueue(e.errors, channel, error))
  }

  function AbortTransaction(e: Engine): Engine {
    e.(work := Idle, keepalive := None)
  }

  function NextChannel(last: u32): u32 {
    if last >= 0xffff_fffe then 1 else last + 1
  }

  predicate IsAllocated(last: u32, channel: u32) {
    channel != RESERVED_CHANNEL && channel != BROADCAST_CHANNEL && channel <= last
  }

  function ChannelOf(p: Packet): u32 {
    FromBe32(p[..4])
  }

  function InitReply(e: Engine, granted: u32, nonce: Bytes): (r: Bytes)
    requires |nonce| == 8
    ensures |r| == 17
  {
    nonce + ToBe32(granted) + [2, e.version.major, e.version.minor, e.version.build, e.capabilities]
  }

  // ---- A packet arrives ----

  function DispatchInit(e: Engine, channel: u32, payload: Bytes): Engine {
    if channel == RESERVED_CHANNEL then QueueError(e, channel, InvalidChannel)
    else if |payload| != 8 then QueueError(e, channel, InvalidLength)
    else if channel == BROADCAST_CHANNEL then
      var next := NextChannel(e.lastChannel);
      e.(lastChannel := next, work := Sending(channel, Init, InitReply(e, next, payload), 0))
    else if IsAllocated(e.lastChannel, channel) then
      e.(work := Sending(channel, Init, InitReply(e, channel, payload), 0))
    else QueueError(e, channel, InvalidChannel)
  }

  /** A whole message has arrived at an engine that is otherwise idle. */
  function Dispatch(e: Engine, channel: u32, command: Command, payload: Bytes): (Engine, Event) {
    if command == Init then (DispatchInit(e, channel, payload), NoEvent)
    else if !IsAllocated(e.lastChannel, channel) then (QueueError(e, channel, InvalidChannel), NoEvent)
    else match command
      case Ping => (e.(work := Sending(channel, Ping, payload, 0)), NoEvent)
      case Cbor => (e.(work := Serving(channel, Cbor, payload)), CborRequest(channel, |payload|))
      case Update =>
        if e.signedUpdate then
          (e.(work := Serving(channel, Update, payload)), UpdateRequest(channel, |payload|))
        else (QueueError(e, channel, InvalidCommand), NoEvent)
      case Cancel => (e, NoEvent)
      case _ => (QueueError(e, channel, InvalidCommand), NoEvent)
  }

  /** An initial packet arrives at an idle engine. */
  function Accept(e: Engine, channel: u32, number: byte, length: nat, p: Packet, now: u32): (Engine, Event) {
    match FromNumber(number)
    case None => (QueueError(e, channel, InvalidCommand), NoEvent)
    case Some(command) =>
      if length > e.capacity || (command == Init && length != 8) || (command == Cancel && length != 0) then
        (QueueError(e, channel, InvalidLength), NoEvent)
      else if length > INIT_PAYLOAD_SIZE then
        (e.(work := Receiving(channel, command, length, p[7..], now)), NoEvent)
      else
        Dispatch(e, channel, command, p[7..7 + length])
  }

  function IngestContinuation(e: Engine, channel: u32, p: Packet, now: u32): (Engine, Event)
    requires Wf(e)
  {
    if !e.work.Receiving? || channel != e.work.channel then (e, NoEvent)
    else if p[4] != SequenceAt(|e.work.got|) then
      (QueueError(e.(work := Idle), channel, InvalidSequence), NoEvent)
    else
      var w := e.work;
      var got := w.got + p[5..5 + Min(w.length - |w.got|, CONT_PAYLOAD_SIZE)];
      if |got| == w.length then Dispatch(e.(work := Idle), channel, w.command, got)
      else (e.(work := Receiving(channel, w.command, w.length, got, now)), NoEvent)
  }

  /** The sequence number of the continuation packet that carries the bytes from `position` on. */
  function SequenceAt(position: nat): int {
    (position - INIT_PAYLOAD_SIZE) / CONT_PAYLOAD_SIZE
  }

  function LengthOf(p: Packet): nat {
    (p[5] as int) * 0x100 + p[6]
  }

  function Ingest(e: Engine, p: Packet, now: u32): (Engine, Event)
    requires Wf(e)
  {
    var channel := ChannelOf(p);
    if p[4] < 0x80 then IngestContinuation(e, channel, p, now)
    else
      var number := p[4] - 0x80;
      if e.work.Idle? then Accept(e, channel, number, LengthOf(p), p, now)
      else if channel != e.work.channel then
        (if number == Cancel.Number() then e else QueueError(e, channel, ChannelBusy), NoEvent)
      else if number == Init.Number() then Accept(AbortTransaction(e), channel, number, LengthOf(p), p, now)
      else if number != Cancel.Number() then
        (QueueError(AbortTransaction(e), channel, InvalidSequence), NoEvent)
      else if LengthOf(p) != 0 then (QueueError(e, channel, InvalidLength), NoEvent)
      else if e.work.Serving? then (e.(keepalive := None), Cancelled(channel))
      else (e, NoEvent)
  }

  /** A report of any length; one of the wrong length discards everything. */
  function IngestReport(e: Engine, report: Bytes, now: u32): (Engine, Event, bool)
    requires Wf(e)
  {
    if |report| != PACKET_SIZE then (TransportFault(e), NoEvent, true)
    else
      var (after, event) := Ingest(e, report, now);
      (after, event, (e.work.Serving? && !after.work.Serving?) || event.Cancelled?)
  }

  function TransportFault(e: Engine): Engine {
    AbortTransaction(e).(errors := [])
  }

  // ---- The application and the clock ----

  function Reply(e: Engine, payload: Bytes): (Engine, Result<(), ReplyError>) {
    if !e.work.Serving? then (e, Err(NoPendingRequest))
    else if |payload| > e.capacity then
      (QueueError(e.(work := Idle), e.work.channel, InvalidLength), Err(ResponseTooLong))
    else (e.(work := Sending(e.work.channel, e.work.command, payload, 0)), Ok(()))
  }

  function KeepAlive(e: Engine, status: KeepaliveStatus): (Engine, bool) {
    if e.work.Serving? then (e.(keepalive := Some(Hint(e.work.channel, status))), true) else (e, false)
  }

  /** `now.wrapping_sub(then)` on 32-bit words. */
  function WrappingSub(now: u32, before: u32): u32 {
    (now - before) % 0x1_0000_0000
  }

  function Expire(e: Engine, now: u32): Engine {
    if e.work.Receiving? && WrappingSub(now, e.work.lastActivityMs) > RECEIVE_TIMEOUT_MS then
      QueueError(e.(work := Idle), e.work.channel, Timeout)
    else e
  }

  // ---- A packet leaves ----

  /** The meaningful bytes of an initial packet. */
  function InitialFrame(channel: u32, command: Command, length: nat, data: Bytes): (f: Bytes)
    requires length < 0x1_0000 && |data| <= INIT_PAYLOAD_SIZE
    ensures |f| == 7 + |data| <= PACKET_SIZE
  {
    ToBe32(channel) + [command.Number() + 0x80, length / 0x100, length % 0x100] + data
  }

  /** The meaningful bytes of a continuation packet. */
  function ContinuationFrame(channel: u32, sequence: byte, data: Bytes): (f: Bytes)
    requires |data| <= CONT_PAYLOAD_SIZE
    ensures |f| == 5 + |data| <= PACKET_SIZE
  {
    ToBe32(channel) + [sequence] + data
  }

  function Padded(frame: Bytes): (p: Packet)
    requires |frame| <= PACKET_SIZE
    ensures p[..|frame|] == frame
  {
    frame + Fill(PACKET_SIZE - |frame|, 0)
  }

  /** The bytes of `payload` that the packet starting at `offset` carries. */
  function ChunkAt(payload: Bytes, offset: nat): (c: Bytes)
    requires offset <= |payload|
    ensures |c| <= if offset == 0 then INIT_PAYLOAD_SIZE else CONT_PAYLOAD_SIZE
    ensures offset + |c| <= |payload| && (offset < |payload| ==> |c| > 0)
  {
    payload[offset..offset + Min(|payload| - offset, if offset == 0 then INIT_PAYLOAD_SIZE else CONT_PAYLOAD_SIZE)]
  }

  /** The meaningful bytes of the packet that carries `payload` from `offset` on. */
  function FrameAt(channel: u32, command: Command, payload: Bytes, offset: nat): (f: Bytes)
    requires |payload| <= MAX_MESSAGE_SIZE && OnFrame(|payload|, offset)
    ensures |f| <= PACKET_SIZE
  {
    if offset == 0 then InitialFrame(channel, command, |payload|, ChunkAt(payload, 0))
    else ContinuationFrame(channel, SequenceAt(offset), ChunkAt(payload, offset))
  }

  /** `offset` is where a packet of a message of `length` bytes may start. */
  predicate OnFrame(length: nat, offset: nat) {
    offset == 0 || (INIT_PAYLOAD_SIZE <= offset < length && (offset - INIT_PAYLOAD_SIZE) % CONT_PAYLOAD_SIZE == 0)
  }

  function NextPacket(e: Engine): Option<Packet>
    requires Wf(e)
  {
    if e.errors != [] then
      Some(Padded(InitialFrame(e.errors[0].channel, Error, 1, [e.errors[0].error.Code()])))
    else if e.keepalive.Some? then
      Some(Padded(InitialFrame(e.keepalive.value.channel, Keepalive, 1, [e.keepalive.value.status.Code()])))
    else if e.work.Sending? then
      Some(Padded(FrameAt(e.work.channel, e.work.command, e.work.payload, e.work.offset)))
    else None
  }

  function PacketSent(e: Engine): Engine
    requires Wf(e)
  {
    if e.errors != [] then e.(errors := e.errors[1..])
    else if e.keepalive.Some? then e.(keepalive := None)
    else if !e.work.Sending? then e
    else
      var w := e.work;
      var next := w.offset + |ChunkAt(w.payload, w.offset)|;
      e.(work := if next >= |w.payload| then Idle else Sending(w.channel, w.command, w.payload, next))
  }

  // ---- What every reachable state satisfies ----

  predicate OneErrorPerChannel(errors: seq<PendingError>) {
    && |errors| <= ERROR_CAPACITY
    && forall i, j :: 0 <= i < j < |errors| ==> errors[i].channel != errors[j].channel
  }

  /** A message being received is short of its length and stands at a packet boundary; so does one being sent. */
  predicate WorkWf(w: Work, capacity: nat) {
    match w
    case Idle => true
    case Receiving(_, _, length, got, _) =>
      length <= capacity && |got| != 0 && OnFrame(length, |got|)
    case Serving(_, command, payload) => |payload| <= capacity && (command.Cbor? || command.Update?)
    case Sending(_, command, payload, offset) =>
      && |payload| <= capacity && OnFrame(|payload|, offset)
      && (command.Ping? || command.Init? || command.Cbor? || command.Update?)
  }

  predicate Wf(e: Engine) {
    && 17 <= e.capacity <= MAX_MESSAGE_SIZE
    && WorkWf(e.work, e.capacity)
    && OneErrorPerChannel(e.errors)
    && e.lastChannel != BROADCAST_CHANNEL
  }

  function New(capacity: nat, version: DeviceVersion, capabilities: byte, signedUpdate: bool): Engine {
    Engine(capacity, version, capabilities, signedUpdate, Idle, None, [], RESERVED_CHANNEL)
  }

  lemma NewIsWf(capacity: nat, version: DeviceVersion, capabilities: byte, signedUpdate: bool)
    requires 17 <= capacity <= MAX_MESSAGE_SIZE
    ensures Wf(New(capacity, version, capabilities, signedUpdate))
  {
  }

  /** Everything the surrounding firmware may do to the engine. */
  datatype Op =
    | Report(bytes: Bytes, now: u32)
    | Answer(payload: Bytes)
    | Alive(status: KeepaliveStatus)
    | Tick(now: u32)
    | Sent

  function Do(e: Engine, op: Op): Engine
    requires Wf(e)
  {
    match op
    case Report(bytes, now) => IngestReport(e, bytes, now).0
    case Answer(payload) => Reply(e, payload).0
    case Alive(status) => KeepAlive(e, status).0
    case Tick(now) => Expire(e, now)
    case Sent => PacketSent(e)
  }

  lemma QueueKeepsWf(e: Engine, channel: u32, error: TransportError)
    requires Wf(e)
    ensures Wf(QueueError(e, channel, error))
  {
  }

  lemma DispatchKeepsWf(e: Engine, channel: u32, command: Command, payload: Bytes)
    requires Wf(e) && e.work.Idle? && |payload| <= e.capacity
    ensures Wf(Dispatch(e, channel, command, payload).0)
  {
    hide OneErrorPerChannel;
    forall error { QueueKeepsWf(e, channel, error); }
  }

  /** The sequence number stays below 128 at every packet boundary, so it never wraps or looks like a command. */
  lemma SequenceFits(length: nat, offset: nat)
    requires length <= MAX_MESSAGE_SIZE && OnFrame(length, offset) && offset != 0
    ensures 0 <= SequenceAt(offset) < 0x80
    ensures offset == INIT_PAYLOAD_SIZE + CONT_PAYLOAD_SIZE * SequenceAt(offset)
    ensures SequenceAt(offset + CONT_PAYLOAD_SIZE) == SequenceAt(offset) + 1
    ensures offset + CONT_PAYLOAD_SIZE < length ==> OnFrame(length, offset + CONT_PAYLOAD_SIZE)
  {
  }

  lemma AcceptKeepsWf(e: Engine, channel: u32, number: byte, length: nat, p: Packet, now: u32)
    requires Wf(e) && e.work.Idle?
    ensures Wf(Accept(e, channel, number, length, p, now).0)
  {
    hide OneErrorPerChannel, Enqueue, Dispatch;
    QueueKeepsWf(e, channel, InvalidCommand);
    QueueKeepsWf(e, channel, InvalidLength);
    var command := FromNumber(number);
    if command.Some? && length <= INIT_PAYLOAD_SIZE && length <= e.capacity {
      DispatchKeepsWf(e, channel, command.value, p[7..7 + length]);
    }
  }

  lemma ContinuationKeepsWf(e: Engine, channel: u32, p: Packet, now: u32)
    requires Wf(e)
    ensures Wf(IngestContinuation(e, channel, p, now).0)
  {
    hide OneErrorPerChannel, Enqueue, Dispatch;
    if e.work.Receiving? {
      var w, idle := e.work, e.(work := Idle);
      QueueKeepsWf(idle, channel, InvalidSequence);
      SequenceFits(w.length, |w.got|);
      var got := w.got + p[5..5 + Min(w.length - |w.got|, CONT_PAYLOAD_SIZE)];
      if |got| == w.length { DispatchKeepsWf(idle, channel, w.command, got); }
    }
  }

  lemma IngestKeepsWf(e: Engine, p: Packet, now: u32)
    requires Wf(e)
    ensures Wf(Ingest(e, p, now).0)
  {
    hide OneErrorPerChannel, Enqueue, Accept, IngestContinuation, FromBe32;
    var channel := ChannelOf(p);
    if p[4] < 0x80 {
      ContinuationKeepsWf(e, channel, p, now);
    } else {
      var number, aborted := p[4] - 0x80, AbortTransaction(e);
      QueueKeepsWf(e, channel, ChannelBusy);
      QueueKeepsWf(e, channel, InvalidLength);
      QueueKeepsWf(aborted, channel, InvalidSequence);
      AcceptKeepsWf(aborted, channel, number, LengthOf(p), p, now);
      if e.work.Idle? { AcceptKeepsWf(e, channel, number, LengthOf(p), p, now); }
    }
  }

  /** The reachable-state invariant: nothing the firmware or the host can do breaks it. */
  lemma DoKeepsWf(e: Engine, op: Op)
    requires Wf(e)
    ensures Wf(Do(e, op))
  {
    match op
    case Report(bytes, now) =>
      if |bytes| == PACKET_SIZE { IngestKeepsWf(e, bytes, now); }
    case Answer(payload) =>
      if e.work.Serving? { QueueKeepsWf(e.(work := Idle), e.work.channel, InvalidLength); }
    case Alive(status) =>
    case Tick(now) =>
      if e.work.Receiving? { QueueKeepsWf(e.(work := Idle), e.work.channel, Timeout); }
    case Sent =>
      if e.errors == [] && e.work.Sending? && e.work.offset != 0 {
        SequenceFits(|e.work.payload|, e.work.offset);
      }
  }

  function Run(e: Engine, ops: seq<Op>): Engine
    requires Wf(e)
    decreases |ops|
  {
    if ops == [] then e
    else
      var next := Do(e, ops[0]);
      DoKeepsWf(e, ops[0]);
      Run(next, ops[1..])
  }

  /** From power-up, over every run: the invariant holds, and the next packet is never a malformed continuation. */
  lemma {:induction false} ReachableWf(e: Engine, ops: seq<Op>)
    requires Wf(e)
    ensures var r := Run(e, ops);
            && Wf(r)
            && (r.errors == [] && r.keepalive.None? && r.work.Sending? && r.work.offset != 0 ==>
                  NextPacket(r).value[4] == SequenceAt(r.work.offset) < 0x80)
    decreases |ops|
  {
    if ops == [] {
      if e.work.Sending? && e.work.offset != 0 { SequenceFits(|e.work.payload|, e.work.offset); }
    } else {
      DoKeepsWf(e, ops[0]);
      ReachableWf(Do(e, ops[0]), ops[1..]);
    }
  }

  // ---- Keepalives ----

  /** A pending keepalive belongs to the request being served, or to its answer before the first packet of it. */
  predicate KeepaliveTied(e: Engine) {
    e.keepalive.Some? ==>
      && (e.work.Serving? || (e.work.Sending? && e.work.offset == 0))
      && e.keepalive.value.channel == e.work.channel
  }

  predicate OversizeReply(e: Engine, op: Op) {
    op.Answer? && e.work.Serving? && |op.payload| > e.capacity
  }

  /**
   * A keepalive outlives its request in exactly one case: the application's answer is too long. `reply` then drops
   * the request but leaves the keepalive queued.
   */
  lemma KeepaliveOutlivesOnlyOversizeReplies(e: Engine, op: Op)
    requires Wf(e) && KeepaliveTied(e)
    ensures KeepaliveTied(Do(e, op)) <==> !(OversizeReply(e, op) && e.keepalive.Some?)
  {
    hide OneErrorPerChannel, Enqueue, Ingest;
    if op.Report? && |op.bytes| == PACKET_SIZE { IngestKeepsTied(e, op.bytes, op.now); }
  }

  /** Without a keepalive the whole of accepting a message leaves none. */
  lemma AcceptKeepsNone(e: Engine, channel: u32, number: byte, length: nat, p: Packet, now: u32)
    requires e.keepalive.None?
    ensures Accept(e, channel, number, length, p, now).0.keepalive.None?
  {
    hide Enqueue, FromNumber, InitReply;
  }

  lemma ContinuationKeepsNone(e: Engine, channel: u32, p: Packet, now: u32)
    requires Wf(e) && e.keepalive.None?
    ensures IngestContinuation(e, channel, p, now).0.keepalive.None?
  {
    hide Enqueue, OneErrorPerChannel, SequenceAt, InitReply;
  }

  lemma IngestKeepsTied(e: Engine, p: Packet, now: u32)
    requires Wf(e) && KeepaliveTied(e)
    ensures KeepaliveTied(Ingest(e, p, now).0)
  {
    hide OneErrorPerChannel, Enqueue, Accept, IngestContinuation, FromBe32;
    var channel := ChannelOf(p);
    if p[4] < 0x80 {
      if e.work.Receiving? {
        ContinuationKeepsNone(e, channel, p, now);
      } else {
        ContinuationElsewhere(e, channel, p, now);
      }
    } else {
      var number, aborted := p[4] - 0x80, AbortTransaction(e);
      AcceptKeepsNone(aborted, channel, number, LengthOf(p), p, now);
      if e.work.Idle? { AcceptKeepsNone(e, channel, number, LengthOf(p), p, now); }
    }
  }

  lemma ContinuationElsewhere(e: Engine, channel: u32, p: Packet, now: u32)
    requires Wf(e) && !e.work.Receiving?
    ensures IngestContinuation(e, channel, p, now) == (e, NoEvent)
  {
  }

  /** No operation of the run is an oversize answer while a keepalive is pending. */
  predicate NoOversizeWhilePending(e: Engine, ops: seq<Op>)
    requires Wf(e)
    decreases |ops|
  {
    ops == [] ||
    (DoKeepsWf(e, ops[0]);
     !(OversizeReply(e, ops[0]) && e.keepalive.Some?) && NoOversizeWhilePending(Do(e, ops[0]), ops[1..]))
  }

  /** The keepalive is tied to its request in every state of the run. */
  predicate TiedThroughout(e: Engine, ops: seq<Op>)
    requires Wf(e)
    decreases |ops|
  {
    KeepaliveTied(e) && (ops == [] || (DoKeepsWf(e, ops[0]); TiedThroughout(Do(e, ops[0]), ops[1..])))
  }

  /**
   * Over whole runs, from power-up for instance: an orphan keepalive exists in some state of the run if and only if
   * some answer in it was too long while a keepalive was pending.
   */
  lemma {:induction false} OrphansComeFromOversizeReplies(e: Engine, ops: seq<Op>)
    requires Wf(e) && KeepaliveTied(e)
    ensures TiedThroughout(e, ops) <==> NoOversizeWhilePending(e, ops)
    decreases |ops|
  {
    hide KeepaliveTied, OversizeReply, Wf, Do;
    if ops != [] {
      var next := Do(e, ops[0]);
      DoKeepsWf(e, ops[0]);
      KeepaliveOutlivesOnlyOversizeReplies(e, ops[0]);
      if KeepaliveTied(next) { OrphansComeFromOversizeReplies(next, ops[1..]); }
    }
  }
}
