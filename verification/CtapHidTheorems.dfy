/** What a host can rely on: fragmentation and reassembly undo each other, and channels do not disturb each other. */
module CtapHidTheorems {
  import opened Words
  import opened CtapHidEngine

  // ---- Fragmentation ----

  /** The packets that carry a message from `offset` on, without their padding. */
  function Frames(channel: u32, command: Command, payload: Bytes, offset: nat): (f: seq<Bytes>)
    requires |payload| <= MAX_MESSAGE_SIZE && OnFrame(|payload|, offset)
    ensures |f| > 0 && forall i :: 0 <= i < |f| ==> |f[i]| <= PACKET_SIZE
    decreases |payload| - offset
  {
    var next := offset + |ChunkAt(payload, offset)|;
    [FrameAt(channel, command, payload, offset)] +
    if next >= |payload| then [] else Frames(channel, command, payload, next)
  }

  /** The canonical packets of a message: its frames, zero-padded. */
  function Fragments(channel: u32, command: Command, payload: Bytes, offset: nat): (f: seq<Packet>)
    requires |payload| <= MAX_MESSAGE_SIZE && OnFrame(|payload|, offset)
    ensures |f| == |Frames(channel, command, payload, offset)|
  {
    var frames := Frames(channel, command, payload, offset);
    seq(|frames|, i requires 0 <= i < |frames| => Padded(frames[i]))
  }

  /** An error or a keepalive packet, which a host reads past. */
  predicate IsNotice(p: Packet) {
    p[4] == Error.Number() + 0x80 || p[4] == Keepalive.Number() + 0x80
  }

  /** Everything the engine sends if it is only asked to send. */
  function Drain(e: Engine): seq<Packet>
    requires Wf(e)
    decreases |e.errors|, if e.keepalive.Some? then 1 else 0,
              if e.work.Sending? then |e.work.payload| - e.work.offset + 1 else 0
  {
    match NextPacket(e)
    case None => []
    case Some(p) =>
      DoKeepsWf(e, Sent);
      [p] + Drain(PacketSent(e))
  }

  function WithoutNotices(packets: seq<Packet>): seq<Packet> {
    if packets == [] then []
    else (if IsNotice(packets[0]) then [] else [packets[0]]) + WithoutNotices(packets[1..])
  }

  /** Past its error and keepalive packets, an engine sends exactly the fragments of its message. */
  lemma {:induction false} DrainIsFragments(e: Engine)
    requires Wf(e) && e.work.Sending?
    ensures WithoutNotices(Drain(e)) == Fragments(e.work.channel, e.work.command, e.work.payload, e.work.offset)
    decreases |e.errors|, if e.keepalive.Some? then 1 else 0, |e.work.payload| - e.work.offset + 1
  {
    hide FrameAt, InitialFrame, ChunkAt, OneErrorPerChannel, Fragments, IsNotice;
    var w := e.work;
    var p, rest := NextPacket(e).value, PacketSent(e);
    DoKeepsWf(e, Sent);
    assert Drain(e) == [p] + Drain(rest);
    assert Drain(e)[1..] == Drain(rest);
    if e.errors != [] || e.keepalive.Some? {
      NoticeIsNotice(e);
      DrainIsFragments(rest);
    } else {
      FrameIsNoNotice(w.channel, w.command, w.payload, w.offset);
      FragmentsStep(w.channel, w.command, w.payload, w.offset);
      if rest.work.Sending? {
        DrainIsFragments(rest);
      } else {
        assert Drain(rest) == [];
      }
    }
  }

  lemma NoticeIsNotice(e: Engine)
    requires Wf(e) && (e.errors != [] || e.keepalive.Some?)
    ensures IsNotice(NextPacket(e).value)
  {
    hide Wf;
  }

  lemma FragmentsStep(channel: u32, command: Command, payload: Bytes, offset: nat)
    requires |payload| <= MAX_MESSAGE_SIZE && OnFrame(|payload|, offset)
    ensures var next := offset + |ChunkAt(payload, offset)|;
            Fragments(channel, command, payload, offset) == [Padded(FrameAt(channel, command, payload, offset))] +
            if next >= |payload| then [] else Fragments(channel, command, payload, next)
  {
    hide FrameAt, ChunkAt, Padded;
  }

  lemma FrameIsNoNotice(channel: u32, command: Command, payload: Bytes, offset: nat)
    requires |payload| <= MAX_MESSAGE_SIZE && OnFrame(|payload|, offset)
    requires !command.Error? && !command.Keepalive?
    ensures !IsNotice(Padded(FrameAt(channel, command, payload, offset)))
  {
    if offset != 0 { SequenceFits(|payload|, offset); }
    var f := FrameAt(channel, command, payload, offset);
    assert f[4] == Padded(f)[..|f|][4];
  }

  // ---- Reassembly ----

  /** A packet as it arrives, with the time. */
  datatype Arrival = Arrival(packet: Packet, now: u32)

  /** Each packet starts with its frame; what pads it is arbitrary. */
  predicate Carry(arrivals: seq<Arrival>, frames: seq<Bytes>) {
    |arrivals| == |frames| && forall i :: 0 <= i < |frames| ==> frames[i] <= arrivals[i].packet
  }

  function Feed(e: Engine, arrivals: seq<Arrival>): (Engine, seq<Event>)
    requires Wf(e)
    decreases |arrivals|
  {
    if arrivals == [] then (e, [])
    else
      IngestKeepsWf(e, arrivals[0].packet, arrivals[0].now);
      var (next, event) := Ingest(e, arrivals[0].packet, arrivals[0].now);
      var (last, events) := Feed(next, arrivals[1..]);
      (last, [event] + events)
  }

  /** All events but the last are empty. */
  function OnlyLast(count: nat, event: Event): seq<Event>
    requires count > 0
  {
    seq(count, i => if i == count - 1 then event else NoEvent)
  }

  /** An arrival that raises no event, before the rest. */
  lemma FeedMore(e: Engine, arrivals: seq<Arrival>, next: Engine, last: Engine, event: Event)
    requires Wf(e) && Wf(next) && |arrivals| > 1
    requires Ingest(e, arrivals[0].packet, arrivals[0].now) == (next, NoEvent)
    requires Feed(next, arrivals[1..]) == (last, OnlyLast(|arrivals| - 1, event))
    ensures Feed(e, arrivals) == (last, OnlyLast(|arrivals|, event))
  {
    hide Ingest, Wf;
    var rest := OnlyLast(|arrivals| - 1, event);
    assert OnlyLast(|arrivals|, event) == [NoEvent] + rest;
  }

  lemma FeedOne(e: Engine, arrivals: seq<Arrival>)
    requires Wf(e) && |arrivals| == 1
    ensures var (last, event) := Ingest(e, arrivals[0].packet, arrivals[0].now);
            Feed(e, arrivals) == (last, OnlyLast(1, event))
  {
    hide Ingest, Wf;
    var (last, event) := Ingest(e, arrivals[0].packet, arrivals[0].now);
    IngestKeepsWf(e, arrivals[0].packet, arrivals[0].now);
    assert Feed(last, arrivals[1..]) == (last, []);
    assert OnlyLast(1, event) == [event] + [];
  }

  lemma FrameHeader(p: Packet, channel: u32, command: Command, length: nat, data: Bytes)
    requires length < 0x1_0000 && |data| <= INIT_PAYLOAD_SIZE
    requires InitialFrame(channel, command, length, data) <= p
    ensures ChannelOf(p) == channel && p[4] == command.Number() + 0x80 && LengthOf(p) == length
    ensures p[7..7 + |data|] == data
  {
    var f := InitialFrame(channel, command, length, data);
    Be32RoundTrip(channel);
    assert p[..|f|] == f;
    assert p[..4] == f[..4] == ToBe32(channel);
    assert p[5] == f[5] && p[6] == f[6];
    assert f[7..] == data && p[7..7 + |data|] == f[7..];
  }

  lemma ContinuationHeader(p: Packet, channel: u32, sequence: byte, data: Bytes)
    requires |data| <= CONT_PAYLOAD_SIZE && ContinuationFrame(channel, sequence, data) <= p
    ensures ChannelOf(p) == channel && p[4] == sequence && p[5..5 + |data|] == data
  {
    var f := ContinuationFrame(channel, sequence, data);
    Be32RoundTrip(channel);
    assert p[..|f|] == f;
    assert p[..4] == f[..4] == ToBe32(channel);
    assert f[5..] == data && p[5..5 + |data|] == f[5..];
  }

  /** The frames of a message: the first one, then those of the rest. */
  lemma FramesFrom(channel: u32, command: Command, payload: Bytes, offset: nat, arrivals: seq<Arrival>)
    requires |payload| <= MAX_MESSAGE_SIZE && OnFrame(|payload|, offset)
    requires Carry(arrivals, Frames(channel, command, payload, offset))
    ensures arrivals != [] && FrameAt(channel, command, payload, offset) <= arrivals[0].packet
    ensures var next := offset + |ChunkAt(payload, offset)|;
            if next >= |payload| then |arrivals| == 1
            else |arrivals| > 1 && OnFrame(|payload|, next) &&
                 Carry(arrivals[1..], Frames(channel, command, payload, next))
  {
    hide FrameAt;
    var frames := Frames(channel, command, payload, offset);
    assert frames[0] <= arrivals[0].packet;
    var next := offset + |ChunkAt(payload, offset)|;
    if next < |payload| {
      assert Frames(channel, command, payload, next) == frames[1..];
    }
  }

  /** One continuation packet moves the reassembly on by its chunk. */
  lemma NextPiece(e: Engine, payload: Bytes, p: Packet, now: u32)
    requires Wf(e) && e.work.Receiving? && e.work.length == |payload| && e.work.got == payload[..|e.work.got|]
    requires FrameAt(e.work.channel, e.work.command, payload, |e.work.got|) <= p
    ensures var w, k := e.work, |e.work.got|;
            var next := k + |ChunkAt(payload, k)|;
            && next == k + Min(|payload| - k, CONT_PAYLOAD_SIZE)
            && Ingest(e, p, now) ==
               if next == |payload| then Dispatch(e.(work := Idle), w.channel, w.command, payload)
               else (e.(work := Receiving(w.channel, w.command, w.length, payload[..next], now)), NoEvent)
  {
    hide Dispatch, OneErrorPerChannel;
    var w, k := e.work, |e.work.got|;
    SequenceFits(|payload|, k);
    var data := ChunkAt(payload, k);
    ContinuationHeader(p, w.channel, SequenceAt(k), data);
    assert w.got + data == payload[..k + |data|];
    assert payload[..|payload|] == payload;
  }

  /** The continuation packets of a message complete it, whatever their padding and timing. */
  lemma {:induction false} FeedRest(e: Engine, payload: Bytes, arrivals: seq<Arrival>)
    requires Wf(e) && e.work.Receiving? && e.work.length == |payload| && e.work.got == payload[..|e.work.got|]
    requires Carry(arrivals, Frames(e.work.channel, e.work.command, payload, |e.work.got|))
    ensures var (last, event) := Dispatch(e.(work := Idle), e.work.channel, e.work.command, payload);
            Feed(e, arrivals) == (last, OnlyLast(|arrivals|, event))
    decreases |payload| - |e.work.got|
  {
    hide Dispatch, OneErrorPerChannel, Ingest, Frames, FrameAt, OnlyLast, Feed, ChunkAt;
    var w, k := e.work, |e.work.got|;
    var p, now := arrivals[0].packet, arrivals[0].now;
    FramesFrom(w.channel, w.command, payload, k, arrivals);
    NextPiece(e, payload, p, now);
    IngestKeepsWf(e, p, now);
    var (last, event) := Dispatch(e.(work := Idle), w.channel, w.command, payload);
    if |arrivals| > 1 {
      var next := Ingest(e, p, now).0;
      FeedRest(next, payload, arrivals[1..]);
      assert next.(work := Idle) == e.(work := Idle);
      FeedMore(e, arrivals, next, last, event);
    } else {
      FeedOne(e, arrivals);
    }
  }

  /** The initial packet of a message delivers it whole, or starts its reassembly. */
  lemma FirstPiece(e: Engine, channel: u32, command: Command, payload: Bytes, p: Packet, now: u32)
    requires Wf(e) && e.work.Idle? && |payload| <= e.capacity
    requires command == Init ==> |payload| == 8
    requires command == Cancel ==> payload == []
    requires FrameAt(channel, command, payload, 0) <= p
    ensures Ingest(e, p, now) ==
            if |payload| <= INIT_PAYLOAD_SIZE then Dispatch(e, channel, command, payload)
            else (e.(work := Receiving(channel, command, |payload|, payload[..INIT_PAYLOAD_SIZE], now)), NoEvent)
  {
    hide Dispatch, OneErrorPerChannel, FromNumber, InitialFrame, FromBe32;
    var data := ChunkAt(payload, 0);
    FrameHeader(p, channel, command, |payload|, data);
    NumberRoundTrip(command);
    if |payload| <= INIT_PAYLOAD_SIZE {
      assert data == payload;
    } else {
      assert p[7..] == data == payload[..INIT_PAYLOAD_SIZE];
    }
  }

  /**
   * Reassembly inverts fragmentation: packets that carry a message's frames, with any padding and at any times, make
   * an idle engine do exactly what it does with the whole message, and raise no event before the last packet.
   */
  lemma ReassemblyDelivers(e: Engine, channel: u32, command: Command, payload: Bytes, arrivals: seq<Arrival>)
    requires Wf(e) && e.work.Idle? && |payload| <= e.capacity
    requires command == Init ==> |payload| == 8
    requires command == Cancel ==> payload == []
    requires Carry(arrivals, Frames(channel, command, payload, 0))
    ensures var (last, event) := Dispatch(e, channel, command, payload);
            Feed(e, arrivals) == (last, OnlyLast(|arrivals|, event))
  {
    hide Dispatch, OneErrorPerChannel, Ingest, Frames, FrameAt, OnlyLast, Feed;
    var p, now := arrivals[0].packet, arrivals[0].now;
    FramesFrom(channel, command, payload, 0, arrivals);
    FirstPiece(e, channel, command, payload, p, now);
    IngestKeepsWf(e, p, now);
    var (last, event) := Dispatch(e, channel, command, payload);
    if |arrivals| > 1 {
      var next := Ingest(e, p, now).0;
      FeedRest(next, payload, arrivals[1..]);
      assert next.(work := Idle) == e;
      FeedMore(e, arrivals, next, last, event);
    } else {
      FeedOne(e, arrivals);
    }
  }

  /**
   * The round trip. What one engine sends, past its notices, reaches a second engine's application unchanged: same
   * channel, same command, same bytes, for every message up to the receiver's capacity.
   */
  lemma RoundTrip(sender: Engine, receiver: Engine, times: seq<u32>)
    requires Wf(sender) && sender.work.Sending? && sender.work.offset == 0
    requires Wf(receiver) && receiver.work.Idle? && |sender.work.payload| <= receiver.capacity
    requires IsAllocated(receiver.lastChannel, sender.work.channel)
    requires !sender.work.command.Init? && (sender.work.command.Update? ==> receiver.signedUpdate)
    requires |times| == |WithoutNotices(Drain(sender))|
    ensures var w := sender.work;
            var sent := WithoutNotices(Drain(sender));
            var arrivals := seq(|sent|, i requires 0 <= i < |sent| => Arrival(sent[i], times[i]));
            var (last, events) := Feed(receiver, arrivals);
            && |events| > 0
            && (forall i :: 0 <= i < |events| - 1 ==> events[i] == NoEvent)
            && (w.command.Ping? ==>
                  last == receiver.(work := Sending(w.channel, Ping, w.payload, 0)) && events[|events| - 1] == NoEvent)
            && (!w.command.Ping? ==>
                  && last == receiver.(work := Serving(w.channel, w.command, w.payload))
                  && events[|events| - 1] ==
                     if w.command.Cbor? then CborRequest(w.channel, |w.payload|)
                     else UpdateRequest(w.channel, |w.payload|))
  {
    hide FrameAt, Drain, WithoutNotices, Feed, OneErrorPerChannel;
    var w := sender.work;
    DrainIsFragments(sender);
    var sent := WithoutNotices(Drain(sender));
    var frames := Frames(w.channel, w.command, w.payload, 0);
    var arrivals := seq(|sent|, i requires 0 <= i < |sent| => Arrival(sent[i], times[i]));
    forall i | 0 <= i < |frames| ensures frames[i] <= arrivals[i].packet {
      assert sent[i] == Padded(frames[i]);
      assert Padded(frames[i])[..|frames[i]|] == frames[i];
    }
    assert Carry(arrivals, frames);
    ReassemblyDelivers(receiver, w.channel, w.command, w.payload, arrivals);
  }

  /** A PING comes back as the canonical fragments of what arrived, whatever padded the packets that brought it. */
  lemma PingEchoes(e: Engine, channel: u32, payload: Bytes, arrivals: seq<Arrival>)
    requires Wf(e) && e.work.Idle? && |payload| <= e.capacity && IsAllocated(e.lastChannel, channel)
    requires Carry(arrivals, Frames(channel, Ping, payload, 0))
    ensures Wf(Feed(e, arrivals).0)
    ensures WithoutNotices(Drain(Feed(e, arrivals).0)) == Fragments(channel, Ping, payload, 0)
  {
    ReassemblyDelivers(e, channel, Ping, payload, arrivals);
    DrainIsFragments(Feed(e, arrivals).0);
  }

  /** An orphan keepalive is within reach of any host and application: allocate, ask, be told to wait, overflow. */
  lemma OrphanIsReachable(capacity: nat, version: DeviceVersion, capabilities: byte, signedUpdate: bool)
    returns (ops: seq<Op>)
    requires 17 <= capacity <= MAX_MESSAGE_SIZE
    ensures Wf(New(capacity, version, capabilities, signedUpdate))
    ensures !KeepaliveTied(Run(New(capacity, version, capabilities, signedUpdate), ops))
  {
    hide FrameAt, Ingest, OneErrorPerChannel, Enqueue, Run;
    NewIsWf(capacity, version, capabilities, signedUpdate);
    var e0 := New(capacity, version, capabilities, signedUpdate);
    var nonce := Fill(8, 0);
    var init := Report(Padded(FrameAt(BROADCAST_CHANNEL, Init, nonce, 0)), 0);
    FirstPiece(e0, BROADCAST_CHANNEL, Init, nonce, init.bytes, 0);
    var e1 := Do(e0, init);
    var e2 := Do(e1, Sent);
    assert e2 == e0.(lastChannel := 1);
    var ask := Report(Padded(FrameAt(1, Cbor, [], 0)), 0);
    FirstPiece(e2, 1, Cbor, [], ask.bytes, 0);
    var e3 := Do(e2, ask);
    assert e3.work == Serving(1, Cbor, []);
    var e4 := Do(e3, Alive(Processing));
    var answer := Answer(Fill(capacity + 1, 0));
    assert !KeepaliveTied(Do(e4, answer));
    ops := [init, Sent, ask, Alive(Processing), answer];
    FiveSteps(e0, init, Sent, ask, Alive(Processing), answer);
  }

  lemma FiveSteps(e: Engine, a: Op, b: Op, c: Op, d: Op, f: Op)
    requires Wf(e)
    ensures Wf(Do(e, a)) && Wf(Do(Do(e, a), b)) && Wf(Do(Do(Do(e, a), b), c)) && Wf(Do(Do(Do(Do(e, a), b), c), d))
    ensures Run(e, [a, b, c, d, f]) == Do(Do(Do(Do(Do(e, a), b), c), d), f)
  {
    hide Do, Wf;
    DoKeepsWf(e, a);
    var e1 := Do(e, a);
    DoKeepsWf(e1, b);
    var e2 := Do(e1, b);
    DoKeepsWf(e2, c);
    var e3 := Do(e2, c);
    DoKeepsWf(e3, d);
    var e4 := Do(e3, d);
    DoKeepsWf(e4, f);
    assert [a, b, c, d, f][1..] == [b, c, d, f] && [b, c, d, f][1..] == [c, d, f];
    assert [c, d, f][1..] == [d, f] && [d, f][1..] == [f] && [f][1..] == [];
    assert Run(e4, [f]) == Do(e4, f);
    assert Run(e3, [d, f]) == Run(e4, [f]);
    assert Run(e2, [c, d, f]) == Run(e3, [d, f]);
    assert Run(e1, [b, c, d, f]) == Run(e2, [c, d, f]);
  }

  // ---- Non-interference ----

  /** Two engines that differ at most in their pending errors. */
  predicate SameCore(a: Engine, b: Engine) {
    a.(errors := []) == b.(errors := [])
  }

  /** A packet on a channel other than the active one changes nothing but the pending errors, and raises no event. */
  lemma ForeignPacketOnlyQueues(e: Engine, p: Packet, now: u32)
    requires Wf(e) && !e.work.Idle? && ChannelOf(p) != e.work.channel
    ensures SameCore(Ingest(e, p, now).0, e) && Ingest(e, p, now).1 == NoEvent
    ensures e.errors <= Ingest(e, p, now).0.errors
  {
    hide FromBe32, Wf;
  }

  /** What a transaction's own side does, and what somebody else may do in between. */
  datatype Step =
    | Own(op: Op)
    | Pump                               // send queued errors, then one more packet
    | Foreign(packet: Packet, now: u32)  // a packet on another channel

  /** What the transaction's own side can see of a step. */
  datatype Seen =
    | Happened(event: Event, interrupted: bool)
    | Answered(result: Result<(), ReplyError>)
    | Hinted(accepted: bool)
    | Ticked
    | Packed(packet: Option<Packet>)

  function Take(e: Engine, step: Step): (Engine, seq<Seen>)
    requires Wf(e) && !(step.Own? && step.op.Sent?)
  {
    match step
    case Foreign(p, now) => (Ingest(e, p, now).0, [])
    case Pump =>
      var quiet := e.(errors := []);
      (PacketSent(quiet), [Packed(NextPacket(quiet))])
    case Own(op) =>
      (Do(e, op),
       match op
       case Report(bytes, now) => var (_, event, interrupted) := IngestReport(e, bytes, now); [Happened(event, interrupted)]
       case Answer(payload) => [Answered(Reply(e, payload).1)]
       case Alive(status) => [Hinted(KeepAlive(e, status).1)]
       case Tick(_) => [Ticked]
       case Sent => [])
  }

  lemma TakeKeepsWf(e: Engine, step: Step)
    requires Wf(e) && !(step.Own? && step.op.Sent?)
    ensures Wf(Take(e, step).0)
  {
    match step
    case Foreign(p, now) => IngestKeepsWf(e, p, now);
    case Pump => DoKeepsWf(e.(errors := []), Sent);
    case Own(op) => DoKeepsWf(e, op);
  }

  predicate Steps(steps: seq<Step>) {
    forall i :: 0 <= i < |steps| ==> !(steps[i].Own? && steps[i].op.Sent?)
  }

  function Play(e: Engine, steps: seq<Step>): (Engine, seq<Seen>)
    requires Wf(e) && Steps(steps)
    decreases |steps|
  {
    if steps == [] then (e, [])
    else
      TakeKeepsWf(e, steps[0]);
      var (next, seen) := Take(e, steps[0]);
      var (last, rest) := Play(next, steps[1..]);
      (last, seen + rest)
  }

  /** Every foreign packet arrives while a transaction is active on another channel. */
  predicate Interleaved(e: Engine, steps: seq<Step>)
    requires Wf(e) && Steps(steps)
    decreases |steps|
  {
    steps == [] ||
    (TakeKeepsWf(e, steps[0]);
     (steps[0].Foreign? ==> !e.work.Idle? && ChannelOf(steps[0].packet) != e.work.channel) &&
     Interleaved(Take(e, steps[0]).0, steps[1..]))
  }

  function WithoutForeign(steps: seq<Step>): (r: seq<Step>)
    ensures Steps(steps) ==> Steps(r)
  {
    if steps == [] then []
    else (if steps[0].Foreign? then [] else [steps[0]]) + WithoutForeign(steps[1..])
  }

  /** No operation of the transaction's own side can tell which errors are pending. */
  lemma OwnStepIgnoresErrors(a: Engine, b: Engine, step: Step)
    requires Wf(a) && Wf(b) && SameCore(a, b) && !step.Foreign? && !(step.Own? && step.op.Sent?)
    ensures SameCore(Take(a, step).0, Take(b, step).0) && Take(a, step).1 == Take(b, step).1
  {
    hide FromBe32, Enqueue, Wf, OneErrorPerChannel;
    match step
    case Pump => assert a.(errors := []) == b.(errors := []);
    case Own(op) =>
      match op
      case Report(bytes, now) => if |bytes| == PACKET_SIZE { IngestIgnoresErrors(a, b, bytes, now); }
      case _ =>
  }

  lemma AcceptIgnoresErrors(a: Engine, b: Engine, channel: u32, number: byte, length: nat, p: Packet, now: u32)
    requires SameCore(a, b)
    ensures SameCore(Accept(a, channel, number, length, p, now).0, Accept(b, channel, number, length, p, now).0)
    ensures Accept(a, channel, number, length, p, now).1 == Accept(b, channel, number, length, p, now).1
  {
    hide Dispatch, Enqueue, FromNumber;
    forall command, payload: Bytes { DispatchIgnoresErrors(a, b, channel, command, payload); }
  }

  lemma DispatchIgnoresErrors(a: Engine, b: Engine, channel: u32, command: Command, payload: Bytes)
    requires SameCore(a, b)
    ensures SameCore(Dispatch(a, channel, command, payload).0, Dispatch(b, channel, command, payload).0)
    ensures Dispatch(a, channel, command, payload).1 == Dispatch(b, channel, command, payload).1
  {
    hide Enqueue;
    assert b == a.(errors := b.errors);
  }

  lemma ContinuationIgnoresErrors(a: Engine, b: Engine, channel: u32, p: Packet, now: u32)
    requires Wf(a) && Wf(b) && SameCore(a, b)
    ensures SameCore(IngestContinuation(a, channel, p, now).0, IngestContinuation(b, channel, p, now).0)
    ensures IngestContinuation(a, channel, p, now).1 == IngestContinuation(b, channel, p, now).1
  {
    hide Dispatch, Enqueue, OneErrorPerChannel, SequenceAt;
    if a.work.Receiving? {
      forall payload: Bytes {
        DispatchIgnoresErrors(a.(work := Idle), b.(work := Idle), channel, a.work.command, payload);
      }
    }
  }

  lemma IngestIgnoresErrors(a: Engine, b: Engine, p: Packet, now: u32)
    requires Wf(a) && Wf(b) && SameCore(a, b)
    ensures SameCore(Ingest(a, p, now).0, Ingest(b, p, now).0) && Ingest(a, p, now).1 == Ingest(b, p, now).1
  {
    hide FromBe32, Enqueue, Wf, IngestContinuation, Accept;
    var channel := ChannelOf(p);
    if p[4] < 0x80 {
      ContinuationIgnoresErrors(a, b, channel, p, now);
    } else {
      AcceptIgnoresErrors(a, b, channel, p[4] - 0x80, LengthOf(p), p, now);
      AcceptIgnoresErrors(AbortTransaction(a), AbortTransaction(b), channel, p[4] - 0x80, LengthOf(p), p, now);
    }
  }

  lemma ForeignStep(a: Engine, b: Engine, step: Step)
    requires Wf(a) && SameCore(a, b) && step.Foreign? && !a.work.Idle? && ChannelOf(step.packet) != a.work.channel
    ensures SameCore(Take(a, step).0, b) && Take(a, step).1 == []
  {
    hide Ingest, Wf;
    ForeignPacketOnlyQueues(a, step.packet, step.now);
  }

  /**
   * Non-interference over whole runs. However many packets arrive on other channels while a transaction is active,
   * the run shows its own side exactly the events, results and packets it shows without them, and ends with the same
   * work, buffers, keepalive and channel counter.
   */
  lemma {:induction false} NonInterference(a: Engine, b: Engine, steps: seq<Step>)
    requires Wf(a) && Wf(b) && SameCore(a, b) && Steps(steps) && Interleaved(a, steps)
    ensures SameCore(Play(a, steps).0, Play(b, WithoutForeign(steps)).0)
    ensures Play(a, steps).1 == Play(b, WithoutForeign(steps)).1
    decreases |steps|
  {
    if steps != [] {
      hide Take, Wf, SameCore, Ingest;
      var (next, seen) := Take(a, steps[0]);
      TakeKeepsWf(a, steps[0]);
      if steps[0].Foreign? {
        ForeignStep(a, b, steps[0]);
        NonInterference(next, b, steps[1..]);
        assert WithoutForeign(steps) == WithoutForeign(steps[1..]);
      } else {
        OwnStepIgnoresErrors(a, b, steps[0]);
        TakeKeepsWf(b, steps[0]);
        NonInterference(next, Take(b, steps[0]).0, steps[1..]);
        assert WithoutForeign(steps)[1..] == WithoutForeign(steps[1..]);
      }
    }
  }
}
