/**
 * The CTAPHID engine as the program has it: two fixed byte buffers, three optional records and an array of eight
 * error slots, updated in place. `Valid` is what every reachable state satisfies; `State` is the engine of
 * `CtapHidEngine` that it stands for, and every method moves `State` as that module says.
 */
module CtapHid {
  import opened Words
  import E = CtapHidEngine

  datatype ReceiveState = ReceiveState(
    channel: u32, command: E.Command, length: nat, received: nat, nextSequence: byte, lastActivityMs: u32)

  datatype AppRequest = AppRequest(channel: u32, command: E.Command, length: nat)

  datatype TransmitState = TransmitState(
    channel: u32, command: E.Command, length: nat, offset: nat, nextSequence: byte)

  type Slot = Option<E.PendingError>

  // ---- The error slots as a queue ----

  /** The slots of a queue: its entries first, then free slots, with no gap. */
  predicate Holds(slots: seq<Slot>, queue: seq<E.PendingError>) {
    && |queue| <= |slots|
    && (forall i :: 0 <= i < |queue| ==> slots[i] == Some(queue[i]))
    && (forall i :: |queue| <= i < |slots| ==> slots[i] == None)
  }

  function Queue(slots: seq<Slot>): seq<E.PendingError> {
    if slots == [] || slots[0].None? then [] else [slots[0].value] + Queue(slots[1..])
  }

  predicate GapFree(slots: seq<Slot>) {
    Holds(slots, Queue(slots))
  }

  lemma {:induction false} QueueIsUnique(slots: seq<Slot>, queue: seq<E.PendingError>)
    requires Holds(slots, queue)
    ensures Queue(slots) == queue
    decreases |slots|
  {
    if queue == [] {
      assert slots != [] ==> slots[0] == None;
    } else {
      assert slots[0] == Some(queue[0]);
      QueueIsUnique(slots[1..], queue[1..]);
    }
  }

  /** The buffer holds `data` and is zero behind it. */
  predicate Buffered(buffer: Bytes, data: Bytes) {
    |data| <= |buffer| && buffer == data + Fill(|buffer| - |data|, 0)
  }

  /** A packet boundary of a message, with the number of the continuation packet that starts there. */
  predicate AtBoundary(length: nat, position: nat, sequence: byte) {
    position == E.INIT_PAYLOAD_SIZE + E.CONT_PAYLOAD_SIZE * sequence && position < length && sequence < 0x80
  }

  lemma BoundaryIsOnFrame(length: nat, position: nat, sequence: byte)
    requires AtBoundary(length, position, sequence)
    ensures E.OnFrame(length, position) && E.SequenceAt(position) == sequence && position != 0
  {
    var q: int := sequence;
    assert (E.CONT_PAYLOAD_SIZE * q) / E.CONT_PAYLOAD_SIZE == q;
    assert (E.CONT_PAYLOAD_SIZE * q) % E.CONT_PAYLOAD_SIZE == 0;
  }

  /** A packet's worth further on is the next boundary, or the end of the message. */
  lemma NextBoundary(length: nat, position: nat, sequence: byte)
    requires AtBoundary(length, position, sequence) && length <= E.MAX_MESSAGE_SIZE
    ensures E.INIT_PAYLOAD_SIZE <= position < length && sequence < 0x80
    ensures position + E.CONT_PAYLOAD_SIZE < length ==>
              AtBoundary(length, position + E.CONT_PAYLOAD_SIZE, (sequence + 1) % 0x100)
  {
  }

  class CtapHid {
    const version: E.DeviceVersion
    const capabilities: byte
    const signedUpdate: bool
    const request: array<byte>
    const response: array<byte>
    const errors: array<Slot>
    var receive: Option<ReceiveState>
    var appRequest: Option<AppRequest>
    var transmit: Option<TransmitState>
    var keepalive: Option<E.Hint>
    var lastChannel: u32

    /** The bytes of the request buffer that mean something. */
    ghost function RequestLength(): nat
      reads this
    {
      if receive.Some? then receive.value.received
      else if appRequest.Some? then appRequest.value.length else 0
    }

    ghost function ResponseLength(): nat
      reads this
    {
      if transmit.Some? then transmit.value.length else 0
    }

    ghost predicate Shape()
      reads this, errors
    {
      && request != response
      && request.Length == response.Length && 17 <= request.Length <= E.MAX_MESSAGE_SIZE
      && errors.Length == E.ERROR_CAPACITY && GapFree(errors[..])
      && E.OneErrorPerChannel(Queue(errors[..]))
      && lastChannel != E.BROADCAST_CHANNEL
    }

    /** At most one of receive, application request and transmit exists, and each stands where its counters say. */
    ghost predicate OneTransaction()
      reads this
    {
      && (receive.Some? ==> appRequest.None? && transmit.None?)
      && (appRequest.Some? ==> transmit.None?)
      && (receive.Some? ==>
            var r := receive.value;
            r.length <= request.Length && AtBoundary(r.length, r.received, r.nextSequence))
      && (appRequest.Some? ==>
            var a := appRequest.value; a.length <= request.Length && (a.command.Cbor? || a.command.Update?))
      && (transmit.Some? ==>
            var t := transmit.value;
            && t.length <= response.Length
            && ((t.offset == 0 && t.nextSequence == 0) || AtBoundary(t.length, t.offset, t.nextSequence))
            && (t.command.Ping? || t.command.Init? || t.command.Cbor? || t.command.Update?))
    }

    /** Behind the bytes that mean something, both buffers are zero; they are all zero when there are none. */
    ghost predicate Clean()
      reads this, request, response
    {
      && RequestLength() <= request.Length && ResponseLength() <= response.Length
      && Buffered(request[..], request[..RequestLength()])
      && Buffered(response[..], response[..ResponseLength()])
    }

    ghost predicate Valid()
      reads this, request, response, errors
    {
      Shape() && OneTransaction() && Clean()
    }

    ghost function CurrentWork(): E.Work
      requires RequestLength() <= request.Length && ResponseLength() <= response.Length
      reads this, request, response
    {
      if receive.Some? then
        var r := receive.value;
        E.Receiving(r.channel, r.command, r.length, request[..r.received], r.lastActivityMs)
      else if appRequest.Some? then
        var a := appRequest.value; E.Serving(a.channel, a.command, request[..a.length])
      else if transmit.Some? then
        var t := transmit.value; E.Sending(t.channel, t.command, response[..t.length], t.offset)
      else E.Idle
    }

    /** The engine with its error queue, doing `work`. */
    ghost function Engine(work: E.Work): E.Engine
      reads this, errors
    {
      E.Engine(request.Length, version, capabilities, signedUpdate, work, keepalive, Queue(errors[..]), lastChannel)
    }

    /** The reachable-state invariant of the class implies that of the engine it stands for. */
    ghost function State(): (e: E.Engine)
      requires Valid()
      reads this, request, response, errors
      ensures E.Wf(e)
    {
      StateIsWf();
      Engine(CurrentWork())
    }

    lemma StateIsWf()
      requires Valid()
      ensures E.Wf(Engine(CurrentWork()))
    {
      if receive.Some? {
        var r := receive.value;
        BoundaryIsOnFrame(r.length, r.received, r.nextSequence);
      } else if appRequest.None? && transmit.Some? && transmit.value.offset != 0 {
        var t := transmit.value;
        BoundaryIsOnFrame(t.length, t.offset, t.nextSequence);
      }
    }

    constructor (capacity: nat, version: E.DeviceVersion, capabilities: byte, signedUpdate: bool)
      requires 17 <= capacity <= E.MAX_MESSAGE_SIZE
      ensures Valid() && fresh(request) && fresh(response) && fresh(errors)
      ensures State() == E.New(capacity, version, capabilities, signedUpdate)
    {
      this.version, this.capabilities, this.signedUpdate := version, capabilities, signedUpdate;
      request := new byte[capacity](_ => 0);
      response := new byte[capacity](_ => 0);
      errors := new Slot[E.ERROR_CAPACITY](_ => None);
      receive, appRequest, transmit, keepalive := None, None, None, None;
      lastChannel := E.RESERVED_CHANNEL;
      new;
      QueueIsUnique(errors[..], []);
      assert request[..] == request[..0] + Fill(capacity, 0);
      assert response[..] == response[..0] + Fill(capacity, 0);
    }

    // ---- Private steps ----

    method Zeroize(buffer: array<byte>)
      modifies buffer
      ensures buffer[..] == Fill(buffer.Length, 0)
    {
      for i := 0 to buffer.Length
        invariant forall k :: 0 <= k < i ==> buffer[k] == 0
      {
        buffer[i] := 0;
      }
    }

    method CopyInto(buffer: array<byte>, start: nat, data: Bytes)
      requires start + |data| <= buffer.Length
      modifies buffer
      ensures buffer[..] == old(buffer[..start]) + data + old(buffer[start + |data|..])
      ensures forall k :: start + |data| <= k < buffer.Length ==> buffer[k] == old(buffer[k])
    {
      for i := 0 to |data|
        invariant forall k :: 0 <= k < i ==> buffer[start + k] == data[k]
        invariant forall k :: 0 <= k < buffer.Length && !(start <= k < start + i) ==> buffer[k] == old(buffer[k])
      {
        buffer[start + i] := data[i];
      }
    }

    method AppendToRequest(start: nat, chunk: Bytes)
      requires start + |chunk| <= request.Length && Buffered(request[..], request[..start])
      modifies request
      ensures request[..start + |chunk|] == old(request[..start]) + chunk
      ensures Buffered(request[..], request[..start + |chunk|])
    {
      CopyInto(request, start, chunk);
      var end := start + |chunk|;
      assert request[end..] == Fill(request.Length - end, 0);
      assert request[..] == request[..end] + request[end..];
    }

    method AbortTransaction()
      requires Shape()
      modifies this, request, response
      ensures Valid() && lastChannel == old(lastChannel)
      ensures State() == E.AbortTransaction(old(Engine(E.Idle)))
    {
      Zeroize(request);
      Zeroize(response);
      receive, appRequest, transmit, keepalive := None, None, None, None;
    }

    method QueueError(channel: u32, error: E.TransportError)
      requires Shape()
      modifies errors
      ensures Shape()
      ensures Queue(errors[..]) == E.Enqueue(old(Queue(errors[..])), channel, error)
      ensures old(Valid()) ==> Valid() && State() == E.QueueError(old(State()), channel, error)
    {
      hide E.Enqueue, E.OneErrorPerChannel, E.HasError, Queue, Holds, AtBoundary, Buffered;
      FillFreeSlot(channel, error);
    }

    method FillFreeSlot(channel: u32, error: E.TransportError)
      requires Shape()
      modifies errors
      ensures Shape()
      ensures Queue(errors[..]) == E.Enqueue(old(Queue(errors[..])), channel, error)
    {
      ghost var queue := Queue(errors[..]);
      var i := 0;
      while i < errors.Length && errors[i].Some?
        invariant 0 <= i <= |queue|
        invariant forall k :: 0 <= k < i ==> queue[k].channel != channel
      {
        assert errors[i] == Some(queue[i]);
        if errors[i].value.channel == channel {
          assert E.HasError(queue, channel);
          return;
        }
        i := i + 1;
      }
      assert i == |queue|;
      assert !E.HasError(queue, channel);
      if i < errors.Length {
        errors[i] := Some(E.PendingError(channel, error));
        QueueIsUnique(errors[..], queue + [E.PendingError(channel, error)]);
      }
    }

    method StartTransmit(channel: u32, command: E.Command, payload: Bytes)
      requires Shape() && receive.None? && appRequest.None? && |payload| <= response.Length
      requires command.Ping? || command.Init? || command.Cbor? || command.Update?
      requires request[..] == Fill(request.Length, 0)
      modifies this`transmit, response
      ensures Valid() && CurrentWork() == E.Sending(channel, command, payload, 0)
    {
      Zeroize(response);
      CopyInto(response, 0, payload);
      transmit := Some(TransmitState(channel, command, |payload|, 0, 0));
      assert response[..] == payload + Fill(response.Length - |payload|, 0);
      assert response[..|payload|] == payload;
    }

    method AllocateChannel() returns (granted: u32)
      modifies this`lastChannel
      ensures granted == lastChannel == E.NextChannel(old(lastChannel)) != E.BROADCAST_CHANNEL
      ensures old(lastChannel) < 0xffff_fffe ==> granted == old(lastChannel) + 1
    {
      lastChannel := (lastChannel + 1) % 0x1_0000_0000;
      while lastChannel == E.RESERVED_CHANNEL || lastChannel == E.BROADCAST_CHANNEL
        invariant lastChannel == (old(lastChannel) + 1) % 0x1_0000_0000 ||
                  (old(lastChannel) >= 0xffff_fffe && lastChannel in {0, 1})
        decreases if lastChannel == E.BROADCAST_CHANNEL then 2 else if lastChannel == 0 then 1 else 0
      {
        lastChannel := (lastChannel + 1) % 0x1_0000_0000;
      }
      granted := lastChannel;
    }

    /** The engine is between transactions; the request buffer holds the message that just arrived. */
    ghost predicate Arrived(length: nat)
      reads this, request, response, errors
    {
      && Shape() && receive.None? && appRequest.None? && transmit.None?
      && length <= request.Length
      && Buffered(request[..], request[..length])
      && response[..] == Fill(response.Length, 0)
    }

    /** The message is dropped and an error takes its place. */
    method Refuse(channel: u32, error: E.TransportError, ghost length: nat)
      requires Arrived(length)
      modifies request, errors
      ensures Valid() && State() == E.QueueError(old(Engine(E.Idle)), channel, error)
    {
      Zeroize(request);
      QueueError(channel, error);
    }

    method DispatchInit(channel: u32, length: nat)
      requires Arrived(length)
      modifies this, request, response, errors
      ensures Valid()
      ensures State() == E.DispatchInit(old(Engine(E.Idle)), channel, old(request[..length]))
    {
      hide E.Enqueue, E.OneErrorPerChannel, E.Wf, E.QueueError, GapFree, Queue;
      if channel == E.RESERVED_CHANNEL {
        Refuse(channel, E.InvalidChannel, length);
        return;
      }
      if length != 8 {
        Refuse(channel, E.InvalidLength, length);
        return;
      }
      var granted := channel;
      if channel == E.BROADCAST_CHANNEL {
        granted := AllocateChannel();
      } else if !IsAllocated(channel) {
        Refuse(channel, E.InvalidChannel, length);
        return;
      }
      var reply := request[..8] + ToBe32(granted) + [2, version.major, version.minor, version.build, capabilities];
      assert reply == E.InitReply(old(Engine(E.Idle)), granted, old(request[..length]));
      Zeroize(request);
      StartTransmit(channel, E.Init, reply);
    }

    predicate IsAllocated(channel: u32)
      reads this
    {
      channel != E.RESERVED_CHANNEL && channel != E.BROADCAST_CHANNEL && channel <= lastChannel
    }

    method Dispatch(channel: u32, command: E.Command, length: nat) returns (event: E.Event)
      requires Arrived(length)
      modifies this, request, response, errors
      ensures Valid()
      ensures (State(), event) == E.Dispatch(old(Engine(E.Idle)), channel, command, old(request[..length]))
    {
      event := E.NoEvent;
      hide E.Enqueue, E.OneErrorPerChannel, E.Wf, E.DispatchInit, GapFree, Queue;
      if command == E.Init {
        DispatchInit(channel, length);
        return;
      }
      if channel == E.RESERVED_CHANNEL || channel == E.BROADCAST_CHANNEL || !IsAllocated(channel) {
        Refuse(channel, E.InvalidChannel, length);
        return;
      }
      if command == E.Ping {
        var payload := request[..length];
        Zeroize(request);
        StartTransmit(channel, command, payload);
      } else if command == E.Cbor {
        appRequest := Some(AppRequest(channel, command, length));
        event := E.CborRequest(channel, length);
      } else if command == E.Update && signedUpdate {
        appRequest := Some(AppRequest(channel, command, length));
        event := E.UpdateRequest(channel, length);
      } else if command == E.Cancel {
        Zeroize(request);
      } else {
        Refuse(channel, E.InvalidCommand, length);
      }
    }

    // ---- A packet arrives ----

    method IngestContinuation(channel: u32, packet: E.Packet, now: u32) returns (event: E.Event)
      requires Valid()
      modifies this, request, response, errors
      ensures Valid()
      ensures (State(), event) == E.IngestContinuation(old(State()), channel, packet, now)
    {
      hide E.Dispatch, E.Enqueue, E.OneErrorPerChannel, E.Wf, E.OnFrame, GapFree, Queue, AtBoundary, E.SequenceAt;
      event := E.NoEvent;
      if receive.None? || channel != receive.value.channel {
        return;
      }
      var r := receive.value;
      BoundaryIsOnFrame(r.length, r.received, r.nextSequence);
      if packet[4] != r.nextSequence {
        receive := None;
        Refuse(channel, E.InvalidSequence, r.received);
        return;
      }
      var whole := TakeChunk(packet, now);
      if whole {
        receive := None;
        event := Dispatch(r.channel, r.command, r.length);
      }
    }

    /** The next chunk of the message being received goes behind what there is; says whether that was the last one. */
    method TakeChunk(packet: E.Packet, now: u32) returns (whole: bool)
      requires Valid() && receive.Some?
      modifies this`receive, request
      ensures var r, count := old(receive.value), Min(old(receive.value.length) - old(receive.value.received), E.CONT_PAYLOAD_SIZE);
              && whole == (r.received + count == r.length)
              && request[..r.received + count] == old(request[..receive.value.received]) + packet[5..5 + count]
              && Buffered(request[..], request[..r.received + count])
              && (!whole ==>
                    && Valid() && receive.Some?
                    && receive.value.(nextSequence := 0) ==
                       r.(received := r.received + count, lastActivityMs := now, nextSequence := 0))
    {
      hide E.OneErrorPerChannel, GapFree, Queue, Buffered, E.OnFrame;
      var r := receive.value;
      var count := Min(r.length - r.received, E.CONT_PAYLOAD_SIZE);
      NextBoundary(r.length, r.received, r.nextSequence);
      AppendToRequest(r.received, packet[5..5 + count]);
      r := r.(received := r.received + count, nextSequence := (r.nextSequence + 1) % 0x100, lastActivityMs := now);
      whole := r.received == r.length;
      receive := Some(r);
    }

    /** An initial packet at an idle engine; the buffer may still hold what came before. */
    method Accept(channel: u32, number: byte, length: nat, packet: E.Packet, now: u32) returns (event: E.Event)
      requires Valid() && State().work.Idle? && number < 0x80
      modifies this, request, response, errors
      ensures Valid()
      ensures (State(), event) == E.Accept(old(State()), channel, number, length, packet, now)
    {
      hide E.Enqueue, E.Dispatch, E.OneErrorPerChannel, E.Wf, E.FromNumber, Queue, GapFree, FromBe32;
      event := E.NoEvent;
      Zeroize(request);
      assert request[..] == request[..0] + Fill(request.Length, 0);
      var command := E.FromNumber(number);
      if command.None? {
        QueueError(channel, E.InvalidCommand);
        return;
      }
      if length > request.Length || (command.value == E.Init && length != 8) || (command.value == E.Cancel && length != 0) {
        QueueError(channel, E.InvalidLength);
        return;
      }
      event := StartMessage(channel, command.value, length, packet, now);
    }

    /** The first bytes of an admissible message arrive: it starts its reassembly, or is whole already. */
    method StartMessage(channel: u32, command: E.Command, length: nat, packet: E.Packet, now: u32) returns (event: E.Event)
      requires Valid() && State().work.Idle? && length <= request.Length
      modifies this, request, response, errors
      ensures Valid()
      ensures (State(), event) ==
              if length > E.INIT_PAYLOAD_SIZE
              then (old(State()).(work := E.Receiving(channel, command, length, packet[7..], now)), E.NoEvent)
              else E.Dispatch(old(State()), channel, command, packet[7..7 + length])
    {
      hide E.Enqueue, E.Dispatch, E.OneErrorPerChannel, E.Wf, Queue, GapFree;
      event := E.NoEvent;
      var copied := Min(length, E.INIT_PAYLOAD_SIZE);
      assert request[..] == request[..0] + Fill(request.Length, 0);
      AppendToRequest(0, packet[7..7 + copied]);
      assert request[..copied] == packet[7..7 + copied];
      if length > E.INIT_PAYLOAD_SIZE {
        assert packet[7..7 + copied] == packet[7..];
        receive := Some(ReceiveState(channel, command, length, E.INIT_PAYLOAD_SIZE, 0, now));
      } else {
        event := Dispatch(channel, command, length);
      }
    }

    method Ingest(packet: E.Packet, now: u32) returns (event: E.Event)
      requires Valid()
      modifies this, request, response, errors
      ensures Valid()
      ensures (State(), event) == E.Ingest(old(State()), packet, now)
    {
      hide E.Enqueue, E.Accept, E.IngestContinuation, E.OneErrorPerChannel, E.WorkWf, Queue, GapFree, Buffered, FromBe32;
      hide AtBoundary;
      var channel := FromBe32(packet[..4]);
      if packet[4] < 0x80 {
        event := IngestContinuation(channel, packet, now);
        return;
      }
      var number := packet[4] - 0x80;
      var length := (packet[5] as int) * 0x100 + packet[6];
      var active := ActiveChannel();
      event := E.NoEvent;
      if active.Some? {
        if channel != active.value {
          if number != E.Command.Cancel.Number() {
            QueueError(channel, E.ChannelBusy);
          }
          return;
        }
        if number == E.Command.Init.Number() {
          AbortTransaction();
        } else if number == E.Command.Cancel.Number() {
          if length != 0 {
            QueueError(channel, E.InvalidLength);
          } else if appRequest.Some? {
            keepalive := None;
            event := E.Cancelled(channel);
          }
          return;
        } else {
          AbortTransaction();
          QueueError(channel, E.InvalidSequence);
          return;
        }
      }
      event := Accept(channel, number, length, packet, now);
    }

    function ActiveChannel(): Option<u32>
      reads this
    {
      if receive.Some? then Some(receive.value.channel)
      else if appRequest.Some? then Some(appRequest.value.channel)
      else if transmit.Some? then Some(transmit.value.channel)
      else None
    }

    method IngestReport(report: Bytes, now: u32) returns (event: E.Event, interrupted: bool)
      requires Valid()
      modifies this, request, response, errors
      ensures Valid()
      ensures (State(), event, interrupted) == E.IngestReport(old(State()), report, now)
    {
      if |report| != E.PACKET_SIZE {
        TransportFault();
        return E.NoEvent, true;
      }
      var running := appRequest.Some?;
      event := Ingest(report, now);
      interrupted := (running && appRequest.None?) || event.Cancelled?;
    }

    method TransportFault()
      requires Valid()
      modifies this, request, response, errors
      ensures Valid() && State() == E.TransportFault(old(State()))
    {
      AbortTransaction();
      for i := 0 to errors.Length
        modifies errors
        invariant forall k :: 0 <= k < i ==> errors[k] == None
      {
        errors[i] := None;
      }
      QueueIsUnique(errors[..], []);
    }

    // ---- The application and the clock ----

    method Reply(payload: Bytes) returns (result: Result<(), E.ReplyError>)
      requires Valid()
      modifies this, request, response, errors
      ensures Valid()
      ensures (State(), result) == E.Reply(old(State()), payload)
    {
      if appRequest.None? {
        return Err(E.NoPendingRequest);
      }
      var a := appRequest.value;
      appRequest := None;
      Zeroize(request);
      if |payload| > request.Length {
        QueueError(a.channel, E.InvalidLength);
        return Err(E.ResponseTooLong);
      }
      StartTransmit(a.channel, a.command, payload);
      return Ok(());
    }

    method KeepAlive(status: E.KeepaliveStatus) returns (accepted: bool)
      requires Valid()
      modifies this`keepalive
      ensures Valid()
      ensures (State(), accepted) == E.KeepAlive(old(State()), status)
    {
      if appRequest.None? {
        return false;
      }
      keepalive := Some(E.Hint(appRequest.value.channel, status));
      return true;
    }

    method Expire(now: u32)
      requires Valid()
      modifies this, request, errors
      ensures Valid() && State() == E.Expire(old(State()), now)
    {
      if receive.None? {
        return;
      }
      var r := receive.value;
      if E.WrappingSub(now, r.lastActivityMs) > E.RECEIVE_TIMEOUT_MS {
        receive := None;
        Refuse(r.channel, E.Timeout, r.received);
      }
    }

    // ---- A packet leaves ----

    method InitialPacket(channel: u32, command: E.Command, length: nat, data: Bytes) returns (packet: array<byte>)
      requires length < 0x1_0000 && |data| <= E.INIT_PAYLOAD_SIZE
      ensures fresh(packet) && packet[..] == E.Padded(E.InitialFrame(channel, command, length, data))
    {
      hide ToBe32;
      packet := new byte[E.PACKET_SIZE](_ => 0);
      CopyInto(packet, 0, ToBe32(channel));
      packet[4] := command.Number() + 0x80;
      packet[5], packet[6] := length / 0x100, length % 0x100;
      ghost var head := packet[..7];
      assert head == E.InitialFrame(channel, command, length, []);
      ghost var rest := packet[7 + |data|..];
      assert rest == Fill(E.INIT_PAYLOAD_SIZE - |data|, 0);
      CopyInto(packet, 7, data);
      ghost var frame := head + data;
      assert frame == E.InitialFrame(channel, command, length, data);
      assert packet[..] == frame + rest;
    }

    method NextPacket() returns (packet: Option<E.Packet>)
      requires Valid()
      ensures packet == E.NextPacket(State())
    {
      hide E.InitialFrame, E.ContinuationFrame, E.Padded, E.OneErrorPerChannel;
      if errors[0].Some? {
        var error := errors[0].value;
        var p := InitialPacket(error.channel, E.Error, 1, [error.error.Code()]);
        return Some(p[..]);
      }
      if keepalive.Some? {
        var p := InitialPacket(keepalive.value.channel, E.Keepalive, 1, [keepalive.value.status.Code()]);
        return Some(p[..]);
      }
      if transmit.None? {
        return None;
      }
      var t := transmit.value;
      if t.offset == 0 {
        var count := Min(t.length, E.INIT_PAYLOAD_SIZE);
        var p := InitialPacket(t.channel, t.command, t.length, response[..count]);
        assert response[..count] == E.ChunkAt(response[..t.length], 0);
        return Some(p[..]);
      }
      BoundaryIsOnFrame(t.length, t.offset, t.nextSequence);
      var count := Min(t.length - t.offset, E.CONT_PAYLOAD_SIZE);
      var chunk := response[t.offset..t.offset + count];
      assert chunk == E.ChunkAt(response[..t.length], t.offset);
      var p := ContinuationPacket(t.channel, t.nextSequence, chunk);
      return Some(p[..]);
    }

    method ContinuationPacket(channel: u32, sequence: byte, chunk: Bytes) returns (packet: array<byte>)
      requires |chunk| <= E.CONT_PAYLOAD_SIZE
      ensures fresh(packet) && packet[..] == E.Padded(E.ContinuationFrame(channel, sequence, chunk))
    {
      hide ToBe32;
      packet := new byte[E.PACKET_SIZE](_ => 0);
      CopyInto(packet, 0, ToBe32(channel));
      packet[4] := sequence;
      CopyInto(packet, 5, chunk);
      ghost var frame := E.ContinuationFrame(channel, sequence, chunk);
      assert packet[..] == frame + Fill(E.PACKET_SIZE - |frame|, 0);
    }

    method PacketSent()
      requires Valid()
      modifies this, response, errors
      ensures Valid() && State() == E.PacketSent(old(State()))
    {
      hide E.OneErrorPerChannel, Holds, AtBoundary, FromBe32;
      if errors[0].Some? {
        RotateErrors();
        return;
      }
      if keepalive.Some? {
        keepalive := None;
        return;
      }
      if transmit.Some? {
        AdvanceTransmit();
      }
    }

    /** The packet at the offset has gone out; nothing else is queued. */
    method AdvanceTransmit()
      requires Valid() && State().errors == [] && keepalive.None? && transmit.Some?
      modifies this`transmit, response
      ensures Valid() && State() == E.PacketSent(old(State()))
    {
      hide E.OneErrorPerChannel, GapFree, Queue;
      var t := transmit.value;
      if t.offset != 0 { BoundaryIsOnFrame(t.length, t.offset, t.nextSequence); }
      var count := if t.offset == 0 then Min(t.length, E.INIT_PAYLOAD_SIZE)
                   else Min(t.length - t.offset, E.CONT_PAYLOAD_SIZE);
      t := t.(offset := t.offset + count);
      if t.offset >= t.length {
        transmit := None;
        Zeroize(response);
      } else {
        if t.offset > E.INIT_PAYLOAD_SIZE {
          t := t.(nextSequence := (t.nextSequence + 1) % 0x100);
        }
        transmit := Some(t);
        assert AtBoundary(t.length, t.offset, t.nextSequence);
      }
    }

    /** The first error leaves; the others move up one slot. */
    method RotateErrors()
      requires Shape() && errors[0].Some?
      modifies errors
      ensures Shape() && Queue(errors[..]) == old(Queue(errors[..]))[1..]
    {
      ghost var queue := Queue(errors[..]);
      for i := 1 to errors.Length
        modifies errors
        invariant forall k :: 0 <= k < i - 1 ==> errors[k] == old(errors[k + 1])
        invariant forall k :: i <= k < errors.Length ==> errors[k] == old(errors[k])
      {
        errors[i - 1] := errors[i];
      }
      errors[errors.Length - 1] := None;
      QueueIsUnique(errors[..], queue[1..]);
    }
  }
}
