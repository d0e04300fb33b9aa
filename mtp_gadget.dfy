/**
 * The control state of the MTP USB gadget function: the connection state machine driven by the
 * userspace control device and by the host, the event buffer, the single class-specific-request
 * response slot, the request lists of the bulk endpoints, and the exclusive-open counters.
 * Endpoint I/O is not performed: a request handed to an endpoint is appended to inQueued or
 * outQueued, and the results of enabling and queueing are inputs.
 */
module MtpGadget {
  import opened KernelTypes
  import opened MtpEvents

  const MTP_COMMAND_DISCONNECT: u8 := 0
  const MTP_COMMAND_CONNECT: u8 := 1
  const MTP_COMMAND_CSR_REPLY: u8 := 2
  const MTP_COMMAND_RESET: u8 := 3
  const MTP_COMMAND_DISABLE: u8 := 4

  const MTP_CSR_CODE_OK: u16 := 0x2001
  const MTP_CSR_CODE_BUSY: u16 := 0x2019
  const MTP_CSR_CODE_CANCELLED: u16 := 0x201F

  /** USB_DIR_IN, reported as the bulk IN endpoint number in the reset status. */
  const USB_DIR_IN: u8 := 0x80

  /** -ERESTARTSYS, what an interrupted wait_event_interruptible returns. */
  const ERESTARTSYS := 512

  /** MTP_STATE_DISCONNECTED .. MTP_STATE_RESET. */
  datatype ConnState = Disconnected | Connecting | Connected | Reset

  /** A usb_request. */
  type Req = nat

  /** The three request lists of the context. */
  datatype ReqList = TxIdle | RxIdle | RxDone

  /** The eight bytes of a USB control request, as the host sent them. */
  datatype SetupPacket = SetupPacket(bRequestType: u8, bRequest: u8, wValue: u16, wIndex: u16, wLength: u16)

  /** The setup packet as it lies in memory (little-endian words): what add_event copies. */
  function SetupBytes(p: SetupPacket): (r: seq<u8>)
    ensures |r| == 8
  {
    [p.bRequestType, p.bRequest,
     p.wValue % 0x100, p.wValue / 0x100,
     p.wIndex % 0x100, p.wIndex / 0x100,
     p.wLength % 0x100, p.wLength / 0x100]
  }

  /** The userspace engine reads the setup packet back out of the event payload. */
  function ParseSetup(bs: seq<u8>): SetupPacket
    requires |bs| == 8
  {
    SetupPacket(bs[0], bs[1], LittleEndian16(bs[2], bs[3]), LittleEndian16(bs[4], bs[5]), LittleEndian16(bs[6], bs[7]))
  }

  /** Forwarding a setup packet through an event loses nothing. */
  lemma SetupRoundTrip(p: SetupPacket)
    ensures ParseSetup(SetupBytes(p)) == p
  {
  }

  /** The request-type bits of bRequestType (bits 5 and 6: 0 standard, 1 class, 2 vendor). */
  function RequestKind(bRequestType: u8): (r: nat)
    ensures r < 4
  {
    bRequestType / 0x20 % 4
  }

  const USB_TYPE_CLASS_KIND := 1
  const USB_TYPE_VENDOR_KIND := 2

  /** The descriptor header: total length 40, version 1.00, index 4, one function section. */
  function CompatIdHeader(): (r: seq<u8>)
    ensures |r| == 16 && r[0] == 40 && r[1] == 0 && r[2] == 0 && r[3] == 0
    ensures LittleEndian16(r[4], r[5]) == 0x0100 && LittleEndian16(r[6], r[7]) == 4 && r[8] == 1
  {
    [40, 0, 0, 0, 0x00, 0x01, 0x04, 0x00, 0x01, 0, 0, 0, 0, 0, 0, 0]
  }

  /** The function section: the interface number and the compatible ID "MTP". */
  function CompatIdFunction(intfNumber: u8): (r: seq<u8>)
    ensures |r| == 24 && r[0] == intfNumber && r[2] == 'M' as u8 && r[3] == 'T' as u8 && r[4] == 'P' as u8 && r[5] == 0
  {
    [intfNumber, 0x01, 'M' as u8, 'T' as u8, 'P' as u8, 0, 0, 0, 0, 0] + [0, 0, 0, 0, 0, 0, 0, 0] + [0, 0, 0, 0, 0, 0]
  }

  /** The 40-byte extended compat ID descriptor answered to the vendor request 0xFE, index 4. */
  function ExtCompatIdDescriptor(intfNumber: u8): (r: seq<u8>)
    ensures |r| == 40 && r[0] == |r| && r[1] == 0 && r[2] == 0 && r[3] == 0
    ensures LittleEndian16(r[4], r[5]) == 0x0100 && LittleEndian16(r[6], r[7]) == 4 && r[8] == 1
    ensures r[16] == intfNumber && r[18] == 'M' as u8 && r[19] == 'T' as u8 && r[20] == 'P' as u8 && r[21] == 0
  {
    CompatIdHeader() + CompatIdFunction(intfNumber)
  }

  /** The DEVICE_STATUS answer while a reset is being handled: length 12, transaction cancelled,
      the bulk IN endpoint and a zero OUT endpoint. */
  function ResetStatus(): (r: seq<u8>)
    ensures |r| == 12
    ensures LittleEndian16(r[0], r[1]) == |r| && LittleEndian16(r[2], r[3]) == MTP_CSR_CODE_CANCELLED
    ensures r[4..8] == [USB_DIR_IN, 0, 0, 0] && r[8..] == [0, 0, 0, 0]
  {
    [12, 0, 0x1F, 0x20, USB_DIR_IN, 0, 0, 0, 0, 0, 0, 0]
  }

  /** The DEVICE_STATUS answer while userspace has not replied yet: length 4, busy. */
  function BusyStatus(): (r: seq<u8>)
    ensures |r| == 4
    ensures LittleEndian16(r[0], r[1]) == |r| && LittleEndian16(r[2], r[3]) == MTP_CSR_CODE_BUSY
  {
    [4, 0, 0x19, 0x20]
  }

  /** mtp_complete_in's test: a transfer that fills its last packet exactly is followed by a
      zero-length packet. */
  predicate NeedsZlp(length: nat, maxpacket: nat)
    requires maxpacket > 0
  {
    length >= maxpacket && length % maxpacket == 0
  }

  /** A zero-length packet follows exactly the non-empty transfers that end on a packet boundary,
      and the zero-length packet itself needs none, so the requeue happens once. */
  lemma ZlpExactlyOnPacketBoundary(length: nat, maxpacket: nat)
    requires maxpacket > 0
    ensures NeedsZlp(length, maxpacket) <==> length > 0 && length % maxpacket == 0
    ensures !NeedsZlp(0, maxpacket)
  {
    if length > 0 && length % maxpacket == 0 {
      assert length == maxpacket * (length / maxpacket);
      assert length / maxpacket >= 1;
    }
  }

  // -----------------------------------------------------------------------------------------
  // The state machine

  /** The connection state after a control write of cmd (DISCONNECT, CONNECT, RESET change it). */
  function ControlState(s: ConnState, cmd: u8): ConnState
  {
    if cmd == MTP_COMMAND_DISCONNECT then Disconnected
    else if cmd == MTP_COMMAND_CONNECT then Connecting
    else if cmd == MTP_COMMAND_RESET then Reset
    else s
  }

  /** The connection state after the host selects the interface. */
  function SetAltState(s: ConnState): ConnState
  {
    match s
    case Connecting => Connected
    case Connected => Disconnected
    case _ => s
  }

  /** The connection state after a class request: DEVICE_RESET enters RESET; DEVICE_STATUS would
      leave it, but that branch is disabled, so nothing else changes the state. */
  function SetupState(s: ConnState, p: SetupPacket): ConnState
  {
    if RequestKind(p.bRequestType) == USB_TYPE_CLASS_KIND && p.bRequest == MTP_EVENT_CSR_DEVICE_RESET then Reset else s
  }

  /** CONNECTED is entered only when the host configures the interface after userspace asked to
      connect, and only userspace's CONNECT leads to CONNECTING. */
  lemma ConnectedOnlyFromConnecting(s: ConnState, cmd: u8, p: SetupPacket)
    ensures SetAltState(s) == Connected <==> s == Connecting
    ensures ControlState(s, cmd) == Connected ==> s == Connected
    ensures SetupState(s, p) == Connected ==> s == Connected
    ensures ControlState(s, cmd) == Connecting && s != Connecting ==> cmd == MTP_COMMAND_CONNECT
  {
  }

  /** Once in RESET, only userspace leaves it, with CONNECT or DISCONNECT: neither the host's
      configuration nor any class request does. */
  lemma ResetLeftOnlyByUserspace(cmd: u8, p: SetupPacket)
    ensures SetAltState(Reset) == Reset && SetupState(Reset, p) == Reset
    ensures ControlState(Reset, cmd) != Reset <==> cmd == MTP_COMMAND_DISCONNECT || cmd == MTP_COMMAND_CONNECT
  {
  }

  // -----------------------------------------------------------------------------------------
  // Exclusive-open counters

  /** An atomic_t used as a try-lock by _lock and _unlock. */
  class Excl {
    var count: int

    constructor ()
      ensures count == 0
    {
      count := 0;
    }

    /** _lock: taken (0) only when the increment brings the counter from 0 to 1; otherwise the
        increment is undone and -1 returned. */
    method Lock() returns (r: int)
      modifies this
      ensures old(count) == 0 ==> r == 0 && count == 1
      ensures old(count) != 0 ==> r == -1 && count == old(count)
      ensures 0 <= old(count) <= 1 ==> 0 <= count <= 1
    {
      count := count + 1;
      if count == 1 {
        return 0;
      }
      count := count - 1;
      r := -1;
    }

    /** _unlock: the holder's release brings the counter back to 0. */
    method Unlock()
      modifies this
      ensures count == old(count) - 1
      ensures old(count) == 1 ==> count == 0
    {
      count := count - 1;
    }
  }

  /** What a reader holding eventread_excl gets from the queued events: it sleeps while none is
      queued unless a signal ends the sleep; a buffer shorter than the used part of the event
      buffer is refused; otherwise it gets the whole image. */
  function ReadOutcome(events: seq<Event>, count: nat, signalled: bool): (r: EventReadResult)
    requires Used(events) <= EVENTBUF_SIZE
    ensures r != Busy
    ensures r == WouldBlock <==> events == [] && !signalled
    ensures r.Delivered? ==> events != [] && |r.image| == Used(events) <= count
                             && r.image[0] == |events| && r.image[1..] == EncodeAll(events)
  {
    if events == [] then (if signalled then Interrupted else WouldBlock)
    else if count < Used(events) then TooSmall
    else
      EventCountBound(events);
      Delivered(Image(events))
  }

  /** The outcome of mtp_event_read. */
  datatype EventReadResult =
    | Busy                       // -EBUSY: another reader holds the device
    | WouldBlock                 // no event queued: the reader sleeps until one is
    | Interrupted                // -ERESTARTSYS: a signal ended the sleep
    | TooSmall                   // -EFAULT: the user's buffer is shorter than the buffered events
    | Delivered(image: seq<u8>)  // the buffer up to the index is copied out; its length is returned

  // -----------------------------------------------------------------------------------------
  // The context

  /** The byte stores and the memcpy of add_event: the record for (code, payload) at index at,
      every other byte untouched. */
  method WriteRecord(buf: array<u8>, at: nat, code: u8, payload: seq<u8>)
    requires at + |payload| + 2 <= buf.Length
    modifies buf
    ensures buf[..at] == old(buf[..at])
    ensures buf[at..at + |payload| + 2] == Record(Event(code, payload))
    ensures buf[at + |payload| + 2..] == old(buf[at + |payload| + 2..])
  {
    buf[at] := code;
    buf[at + 1] := (|payload| + 2) % 0x100;
    forall k | 0 <= k < |payload| {
      buf[at + 2 + k] := payload[k];
    }
    assert buf[at..at + |payload| + 2] == [code, (|payload| + 2) % 0x100] + payload;
  }

  class MtpContext {
    var state: ConnState
    var readError: bool
    var writeError: bool
    var releasing: bool
    var readCount: nat
    var eventBuf: array<u8>
    var eventBufIndex: int
    var eventsQueued: int
    /** The events the buffer holds, oldest first. */
    ghost var events: seq<Event>
    var csrRespReady: bool
    var csrBuf: array<u8>
    var txIdle: seq<Req>
    var rxIdle: seq<Req>
    var rxDone: seq<Req>
    /** The stale request a userspace read was working on, if any. */
    var readReq: Option<Req>
    /** Requests handed to the bulk IN and OUT endpoints. */
    var inQueued: seq<Req>
    var outQueued: seq<Req>
    var eventreadExcl: Excl

    /** The event buffer holds the count in byte 0 (once an event was queued) and the records of
        the queued events up to the index. */
    ghost predicate Valid()
      reads this`eventBuf, this`csrBuf, this`events, this`eventBufIndex, this`eventsQueued, eventBuf
    {
      eventBuf.Length == EVENTBUF_SIZE && csrBuf.Length == 4 && eventBuf != csrBuf
      && Used(events) <= EVENTBUF_SIZE && eventBufIndex == Used(events)
      && eventsQueued == |events|
      && eventBuf[1..eventBufIndex] == EncodeAll(events)
      && (eventsQueued > 0 ==> eventBuf[0] == eventsQueued)
    }

    /** One of the request lists. */
    function List(l: ReqList): seq<Req>
      reads this
    {
      match l
      case TxIdle => txIdle
      case RxIdle => rxIdle
      case RxDone => rxDone
    }

    /** mtp_bind_config's initialisation. */
    constructor ()
      ensures Valid() && fresh(eventBuf) && fresh(csrBuf) && fresh(eventreadExcl)
      ensures state == Disconnected && !releasing && !csrRespReady && events == [] && eventBufIndex == 1
      ensures eventreadExcl.count == 0
    {
      state := Disconnected;
      readError, writeError, releasing := false, false, false;
      readCount := 0;
      eventBuf := new u8[EVENTBUF_SIZE](_ => 0);
      eventBufIndex := 1;
      eventsQueued := 0;
      events := [];
      csrRespReady := false;
      csrBuf := new u8[4](_ => 0);
      txIdle, rxIdle, rxDone := [], [], [];
      readReq := None;
      inQueued, outQueued := [], [];
      eventreadExcl := new Excl();
    }

    /** add_event: the record goes behind the queued ones when it fits, and the count in byte 0
        goes up; READ_RELEASED marks a connected session as releasing and READ_ERROR records the
        error, but only for an event that fits. */
    method AddEvent(code: u8, payload: seq<u8>) returns (added: bool)
      requires Valid()
      modifies this`eventBufIndex, this`eventsQueued, this`events, this`releasing, this`readError, eventBuf
      ensures Valid()
      ensures added == Fits(old(events), Event(code, payload))
      ensures events == Push(old(events), Event(code, payload))
      ensures releasing == (old(releasing) || (added && code == MTP_EVENT_READ_RELEASED && state == Connected))
      ensures readError == (old(readError) || (added && code == MTP_EVENT_READ_ERROR))
      ensures !added ==> eventBuf[..] == old(eventBuf[..])
    {
      var len := |payload|;
      if eventBufIndex + len + 2 > EVENTBUF_SIZE {
        return false;
      }
      if code == MTP_EVENT_READ_RELEASED {
        if state == Connected {
          releasing := true;
        }
      } else if code == MTP_EVENT_READ_ERROR {
        readError := true;
      }
      AppendRecord(code, payload);
      added := true;
    }

    /** The part of add_event past the overflow test: the record behind the queued ones, the
        count in byte 0. */
    method AppendRecord(code: u8, payload: seq<u8>)
      requires Valid() && Fits(events, Event(code, payload))
      modifies this`eventBufIndex, this`eventsQueued, this`events, eventBuf
      ensures Valid() && events == old(events) + [Event(code, payload)]
    {
      ghost var e := Event(code, payload);
      EncodeAllAppend(events, e);
      var at := eventBufIndex;
      ghost var prefix := eventBuf[..at];
      assert prefix[1..] == EncodeAll(events);
      WriteRecord(eventBuf, at, code, payload);
      eventBufIndex := at + |payload| + 2;
      assert eventBuf[1..eventBufIndex] == eventBuf[..at][1..] + eventBuf[at..eventBufIndex];
      assert eventBuf[1..eventBufIndex] == EncodeAll(events + [e]);
      events := events + [e];
      EventCountBound(events);
      eventsQueued := eventsQueued + 1;
      ghost var records := eventBuf[1..eventBufIndex];
      eventBuf[0] := eventsQueued;
      assert eventBuf[1..eventBufIndex] == records;
    }

    /** mtp_event_read: a reader finding the counter taken gets -EBUSY and changes nothing;
        otherwise it takes the counter and goes on as EventReadAfterLock. A reader left sleeping
        (WouldBlock) keeps the counter, so every other reader meanwhile gets -EBUSY. */
    method EventRead(count: nat, signalled: bool) returns (res: EventReadResult)
      requires Valid()
      modifies this`eventBufIndex, this`eventsQueued, this`events, eventreadExcl
      ensures Valid()
      ensures old(eventreadExcl.count) != 0 ==>
                res == Busy && eventreadExcl.count == old(eventreadExcl.count) && events == old(events)
      ensures old(eventreadExcl.count) == 0 ==>
                res == ReadOutcome(old(events), count, signalled)
                && eventreadExcl.count == (if res == WouldBlock then 1 else 0)
                && events == (if res.Delivered? then [] else old(events))
    {
      var locked := eventreadExcl.Lock();
      if locked != 0 {
        return Busy;
      }
      res := EventReadAfterLock(count, signalled);
    }

    /** The part of mtp_event_read after _lock, also where a sleeping reader resumes once woken:
        with no event queued it sleeps on (keeping the counter) or is interrupted; a buffer too
        short is refused; otherwise the whole buffer up to the index is handed out and the queue
        emptied. Every outcome but sleeping releases the counter. */
    method EventReadAfterLock(count: nat, signalled: bool) returns (res: EventReadResult)
      requires Valid() && eventreadExcl.count == 1
      modifies this`eventBufIndex, this`eventsQueued, this`events, eventreadExcl
      ensures Valid()
      ensures res == ReadOutcome(old(events), count, signalled)
      ensures eventreadExcl.count == (if res == WouldBlock then 1 else 0)
      ensures events == (if res.Delivered? then [] else old(events))
    {
      if eventsQueued == 0 {
        if signalled {
          eventreadExcl.Unlock();
          return Interrupted;
        }
        return WouldBlock;
      }
      if count < eventBufIndex {
        eventreadExcl.Unlock();
        return TooSmall;
      }
      EventCountBound(events);
      assert eventBuf[..eventBufIndex] == [eventBuf[0]] + eventBuf[1..eventBufIndex];
      res := Delivered(eventBuf[..eventBufIndex]);
      eventsQueued := 0;
      eventBufIndex := 1;
      events := [];
      eventreadExcl.Unlock();
    }

    /** mtp_req_put: the request goes to the tail of the list. */
    method ReqPut(l: ReqList, req: Req)
      modifies this`txIdle, this`rxIdle, this`rxDone
      ensures List(l) == old(List(l)) + [req]
      ensures l != TxIdle ==> txIdle == old(txIdle)
      ensures l != RxIdle ==> rxIdle == old(rxIdle)
      ensures l != RxDone ==> rxDone == old(rxDone)
    {
      match l
      case TxIdle => txIdle := txIdle + [req];
      case RxIdle => rxIdle := rxIdle + [req];
      case RxDone => rxDone := rxDone + [req];
    }

    /** mtp_req_get: the head of the list, unlinked; none when the list is empty. */
    method ReqGet(l: ReqList) returns (req: Option<Req>)
      modifies this`txIdle, this`rxIdle, this`rxDone
      ensures old(List(l)) == [] ==> req.None? && List(l) == []
      ensures old(List(l)) != [] ==> req == Some(old(List(l))[0]) && List(l) == old(List(l))[1..]
      ensures l != TxIdle ==> txIdle == old(txIdle)
      ensures l != RxIdle ==> rxIdle == old(rxIdle)
      ensures l != RxDone ==> rxDone == old(rxDone)
    {
      var s := List(l);
      if s == [] {
        return None;
      }
      req := Some(s[0]);
      match l
      case TxIdle => txIdle := txIdle[1..];
      case RxIdle => rxIdle := rxIdle[1..];
      case RxDone => rxDone := rxDone[1..];
    }

    /** while ((req = mtp_req_get(rx_done))) mtp_req_put(rx_idle, req): every completed receive
        request goes back to the idle list, in order. */
    method RetireDone()
      modifies this`txIdle, this`rxIdle, this`rxDone
      ensures rxIdle == old(rxIdle) + old(rxDone) && rxDone == [] && txIdle == old(txIdle)
    {
      while true
        invariant txIdle == old(txIdle)
        invariant old(rxIdle) + old(rxDone) == rxIdle + rxDone
        invariant |rxIdle| >= |old(rxIdle)| && rxIdle[..|old(rxIdle)|] == old(rxIdle)
        decreases |rxDone|
      {
        var req := ReqGet(RxDone);
        if req.None? {
          break;
        }
        ReqPut(RxIdle, req.value);
      }
    }

    /** The DISCONNECT command: READ_RELEASED wakes a userspace read, EJECT ends the event reader's
        loop, and the session is over. */
    method UserDisconnect()
      requires Valid()
      modifies this`state, this`eventBufIndex, this`eventsQueued, this`events, this`releasing, this`readError, eventBuf
      ensures Valid() && state == Disconnected && readError == old(readError)
      ensures events == Push(Push(old(events), Event(MTP_EVENT_READ_RELEASED, [])), Event(MTP_EVENT_EJECT, []))
      ensures releasing == (old(releasing) || (old(state) == Connected && Fits(old(events), Event(MTP_EVENT_READ_RELEASED, []))))
    {
      var _ := AddEvent(MTP_EVENT_READ_RELEASED, []);
      var _ := AddEvent(MTP_EVENT_EJECT, []);
      state := Disconnected;
    }

    /** The CSR_REPLY command: the four reply bytes are kept for the host's next DEVICE_STATUS,
        unless a reply is already waiting, which is kept instead. */
    method StoreCsrReply(reply: seq<u8>)
      requires Valid() && |reply| == 4
      modifies this`csrRespReady, csrBuf
      ensures Valid() && csrRespReady
      ensures csrBuf[..] == (if old(csrRespReady) then old(csrBuf[..]) else reply)
    {
      if !csrRespReady {
        csrRespReady := true;
        csrBuf[0], csrBuf[1], csrBuf[2], csrBuf[3] := reply[0], reply[1], reply[2], reply[3];
        assert csrBuf[..] == reply;
      }
    }

    /** mtp_control_write. Up to five bytes are taken from the user: the command, then a CSR reply
        for CSR_REPLY. Bytes beyond count are whatever the stack held, so command holds all five. */
    method ControlWrite(count: nat, command: seq<u8>, copyFault: bool) returns (ret: int)
      requires Valid() && |command| == 5
      modifies this`state, this`readCount, this`eventBufIndex, this`eventsQueued, this`events, this`releasing,
               this`readError, this`csrRespReady, this`txIdle, this`rxIdle, this`rxDone, eventBuf, csrBuf
      ensures Valid()
      ensures ret == (if count <= 5 && !copyFault then count else -EFAULT)
      ensures readError == old(readError) && txIdle == old(txIdle)
      ensures state == ControlState(old(state), if ret >= 0 then command[0] else 0xff)
      ensures events == (if ret >= 0 && command[0] == MTP_COMMAND_CONNECT then []
                         else if ret >= 0 && command[0] == MTP_COMMAND_DISCONNECT
                         then Push(Push(old(events), Event(MTP_EVENT_READ_RELEASED, [])), Event(MTP_EVENT_EJECT, []))
                         else old(events))
      ensures releasing == (old(releasing) || (ret >= 0 && command[0] == MTP_COMMAND_DISCONNECT && old(state) == Connected
                                               && Fits(old(events), Event(MTP_EVENT_READ_RELEASED, []))))
      ensures csrRespReady == (old(csrRespReady) || (ret >= 0 && command[0] == MTP_COMMAND_CSR_REPLY))
      ensures csrBuf[..] == (if ret >= 0 && command[0] == MTP_COMMAND_CSR_REPLY && !old(csrRespReady) then command[1..]
                             else old(csrBuf[..]))
      ensures readCount == (if ret >= 0 && command[0] == MTP_COMMAND_RESET then 0 else old(readCount))
      ensures rxIdle == (if ret >= 0 && command[0] == MTP_COMMAND_DISABLE then old(rxIdle) + old(rxDone) else old(rxIdle))
      ensures rxDone == (if ret >= 0 && command[0] == MTP_COMMAND_DISABLE then [] else old(rxDone))
    {
      if count > 5 || copyFault {
        return -EFAULT;
      }
      var cmd := command[0];
      if cmd == MTP_COMMAND_DISABLE {
        RetireDone();
      } else if cmd == MTP_COMMAND_DISCONNECT {
        UserDisconnect();
      } else if cmd == MTP_COMMAND_CONNECT {
        eventsQueued := 0;
        eventBufIndex := 1;
        events := [];
        state := Connecting;
      } else if cmd == MTP_COMMAND_CSR_REPLY {
        StoreCsrReply(command[1..]);
      } else if cmd == MTP_COMMAND_RESET {
        state := Reset;
        readCount := 0;
      }
      ret := count;
    }

    /** The receive side of mtp_function_set_alt: the stale read request and every completed
        receive request go back to the idle list, then the head of that list is queued on the OUT
        endpoint, or put back at the tail when queueing fails. */
    method RecycleReceive(queueResult: int)
      modifies this`readCount, this`readReq, this`txIdle, this`rxIdle, this`rxDone, this`outQueued
      ensures var idle := old(rxIdle) + (if old(readReq).Some? then [old(readReq).value] else []) + old(rxDone);
              readCount == 0 && readReq.None? && rxDone == [] && txIdle == old(txIdle)
              && (idle == [] ==> rxIdle == [] && outQueued == old(outQueued))
              && (idle != [] && queueResult < 0 ==> rxIdle == idle[1..] + [idle[0]] && outQueued == old(outQueued))
              && (idle != [] && queueResult >= 0 ==> rxIdle == idle[1..] && outQueued == old(outQueued) + [idle[0]])
    {
      readCount := 0;
      if readReq.Some? {
        ReqPut(RxIdle, readReq.value);
        readReq := None;
      }
      RetireDone();
      var req := ReqGet(RxIdle);
      if req.Some? {
        if queueResult < 0 {
          ReqPut(RxIdle, req.value);
        } else {
          outQueued := outQueued + [req.value];
        }
      }
    }

    /** The connection part of mtp_function_set_alt: a pending connect completes with a CONNECTED
        event; an established session is released and ends with a DISCONNECTED event. */
    method AdvanceOnSetAlt()
      requires Valid()
      modifies this`state, this`eventBufIndex, this`eventsQueued, this`events, this`releasing, this`readError, eventBuf
      ensures Valid() && state == SetAltState(old(state)) && readError == old(readError)
      ensures events == (match old(state)
                         case Connecting => Push(old(events), Event(MTP_EVENT_CONNECTED, []))
                         case Connected => Push(Push(old(events), Event(MTP_EVENT_READ_RELEASED, [])), Event(MTP_EVENT_DISCONNECTED, []))
                         case _ => old(events))
      ensures releasing == (old(releasing) || (old(state) == Connected && Fits(old(events), Event(MTP_EVENT_READ_RELEASED, []))))
    {
      if state == Connecting {
        state := Connected;
        var _ := AddEvent(MTP_EVENT_CONNECTED, []);
      } else if state == Connected {
        var _ := AddEvent(MTP_EVENT_READ_RELEASED, []);
        var _ := AddEvent(MTP_EVENT_DISCONNECTED, []);
        state := Disconnected;
      }
    }

    /** mtp_function_set_alt: both endpoints are enabled (the first failure is returned with
        nothing changed), then the receive requests are recycled and the connection advances. */
    method FunctionSetAlt(enableIn: int, enableOut: int, queueResult: int) returns (ret: int)
      requires Valid()
      modifies this`state, this`readCount, this`eventBufIndex, this`eventsQueued, this`events, this`releasing,
               this`readError, this`txIdle, this`rxIdle, this`rxDone, this`readReq, this`outQueued, eventBuf
      ensures Valid() && readError == old(readError)
      ensures ret == (if enableIn != 0 then enableIn else enableOut)
      ensures ret != 0 ==> state == old(state) && events == old(events) && rxIdle == old(rxIdle)
                           && rxDone == old(rxDone) && outQueued == old(outQueued) && readReq == old(readReq)
      ensures ret == 0 ==>
                var idle := old(rxIdle) + (if old(readReq).Some? then [old(readReq).value] else []) + old(rxDone);
                readCount == 0 && readReq.None? && rxDone == [] && txIdle == old(txIdle)
                && (idle == [] ==> rxIdle == [] && outQueued == old(outQueued))
                && (idle != [] && queueResult < 0 ==> rxIdle == idle[1..] + [idle[0]] && outQueued == old(outQueued))
                && (idle != [] && queueResult >= 0 ==> rxIdle == idle[1..] && outQueued == old(outQueued) + [idle[0]])
                && state == SetAltState(old(state))
                && events == (match old(state)
                              case Connecting => Push(old(events), Event(MTP_EVENT_CONNECTED, []))
                              case Connected => Push(Push(old(events), Event(MTP_EVENT_READ_RELEASED, [])), Event(MTP_EVENT_DISCONNECTED, []))
                              case _ => old(events))
                && releasing == (old(releasing) || (old(state) == Connected && Fits(old(events), Event(MTP_EVENT_READ_RELEASED, []))))
    {
      if enableIn != 0 {
        return enableIn;
      }
      if enableOut != 0 {
        return enableOut;
      }
      RecycleReceive(queueResult);
      AdvanceOnSetAlt();
      ret := 0;
    }

    /** The class-specific-request branches of mtp_function_setup, and the vendor request for the
        extended compat ID descriptor. value is what the function returns; response is what it
        writes into the reply buffer (hasBuf says whether there is one). */
    method FunctionSetup(p: SetupPacket, hasBuf: bool, intfNumber: u8) returns (value: int, response: seq<u8>)
      requires Valid()
      modifies this`state, this`readCount, this`eventBufIndex, this`eventsQueued, this`events, this`releasing,
               this`readError, this`csrRespReady, eventBuf
      ensures Valid()
      ensures state == SetupState(old(state), p) && readError == old(readError) && releasing == old(releasing)
      ensures var kind := RequestKind(p.bRequestType);
              if kind == USB_TYPE_VENDOR_KIND && p.bRequest == 0xFE && p.wIndex == 4 then
                value == 40 && response == ExtCompatIdDescriptor(intfNumber)
                && events == old(events) && csrRespReady == old(csrRespReady)
              else if kind == USB_TYPE_CLASS_KIND && p.bRequest == MTP_EVENT_CSR_CANCEL then
                value == p.wLength && response == []
                && events == Push(old(events), Event(MTP_EVENT_CSR_CANCEL, SetupBytes(p))) && csrRespReady == old(csrRespReady)
              else if kind == USB_TYPE_CLASS_KIND && p.bRequest == MTP_EVENT_CSR_DEVICE_RESET then
                value == 0 && response == [] && readCount == 0
                && events == Push(old(events), Event(MTP_EVENT_CSR_DEVICE_RESET, SetupBytes(p))) && csrRespReady == old(csrRespReady)
              else if kind == USB_TYPE_CLASS_KIND && p.bRequest == MTP_EVENT_CSR_GET_DEVICE_STATUS then
                if old(state) == Reset then
                  value == (if hasBuf then 12 else -EOPNOTSUPP) && response == (if hasBuf then ResetStatus() else [])
                  && events == old(events) && csrRespReady == old(csrRespReady)
                else if old(csrRespReady) then
                  value == (if hasBuf then 4 else -EOPNOTSUPP) && response == (if hasBuf then old(csrBuf[..]) else [])
                  && csrRespReady == !hasBuf && events == old(events)
                else
                  value == (if hasBuf then 4 else -EOPNOTSUPP) && response == (if hasBuf then BusyStatus() else [])
                  && events == Push(old(events), Event(MTP_EVENT_CSR_GET_DEVICE_STATUS, SetupBytes(p)))
                  && !csrRespReady
              else
                value == -EOPNOTSUPP && response == [] && events == old(events) && csrRespReady == old(csrRespReady)
      ensures !(RequestKind(p.bRequestType) == USB_TYPE_CLASS_KIND && p.bRequest == MTP_EVENT_CSR_DEVICE_RESET)
              ==> readCount == old(readCount)
    {
      value, response := -EOPNOTSUPP, [];
      var kind := RequestKind(p.bRequestType);
      if kind == USB_TYPE_VENDOR_KIND {
        if p.bRequest == 0xFE && p.wIndex == 4 {
          response := ExtCompatIdDescriptor(intfNumber);
          value := 40;
        }
      } else if kind == USB_TYPE_CLASS_KIND {
        if p.bRequest == MTP_EVENT_CSR_CANCEL {
          value := p.wLength;
          var _ := AddEvent(MTP_EVENT_CSR_CANCEL, SetupBytes(p));
        } else if p.bRequest == MTP_EVENT_CSR_DEVICE_RESET {
          state := Reset;
          readCount := 0;
          var _ := AddEvent(MTP_EVENT_CSR_DEVICE_RESET, SetupBytes(p));
          value := 0;
        } else if p.bRequest == MTP_EVENT_CSR_GET_DEVICE_STATUS {
          if state == Reset {
            if hasBuf {
              value := 12;
              response := ResetStatus();
            }
          } else if csrRespReady {
            if hasBuf {
              value := 4;
              response := csrBuf[..];
              csrRespReady := false;
            }
          } else {
            var _ := AddEvent(MTP_EVENT_CSR_GET_DEVICE_STATUS, SetupBytes(p));
            if hasBuf {
              value := 4;
              response := BusyStatus();
            }
          }
        }
      }
    }

    /** mtp_complete_in: a write error is noted outside RESET; a request whose transfer filled its
        last packet is requeued as a zero-length packet, any other goes back to the idle list. */
    method CompleteIn(req: Req, length: nat, maxpacket: nat, status: int) returns (zlp: bool)
      requires maxpacket > 0
      modifies this`writeError, this`txIdle, this`rxIdle, this`rxDone, this`inQueued
      ensures zlp == NeedsZlp(length, maxpacket)
      ensures rxIdle == old(rxIdle) && rxDone == old(rxDone)
      ensures writeError == (old(writeError) || (old(state) != Reset && status != 0))
      ensures zlp ==> inQueued == old(inQueued) + [req] && txIdle == old(txIdle)
      ensures !zlp ==> txIdle == old(txIdle) + [req] && inQueued == old(inQueued)
    {
      if state != Reset && status != 0 {
        writeError := true;
      }
      if length >= maxpacket && length % maxpacket == 0 {
        inQueued := inQueued + [req];
        return true;
      }
      ReqPut(TxIdle, req);
      zlp := false;
    }

    /** mtp_complete_out: during a reset the request goes back to the idle list; a failed transfer
        queues a READ_ERROR event and goes back to the idle list; a good one joins the done list. */
    method CompleteOut(req: Req, status: int)
      requires Valid()
      modifies this`eventBufIndex, this`eventsQueued, this`events, this`releasing, this`readError,
               this`txIdle, this`rxIdle, this`rxDone, eventBuf
      ensures Valid() && txIdle == old(txIdle) && releasing == old(releasing)
      ensures state == Reset ==> rxIdle == old(rxIdle) + [req] && rxDone == old(rxDone)
                                 && events == old(events) && readError == old(readError)
      ensures state != Reset && status != 0 ==>
                rxIdle == old(rxIdle) + [req] && rxDone == old(rxDone)
                && events == Push(old(events), Event(MTP_EVENT_READ_ERROR, []))
                && readError == (old(readError) || Fits(old(events), Event(MTP_EVENT_READ_ERROR, [])))
      ensures state != Reset && status == 0 ==>
                rxDone == old(rxDone) + [req] && rxIdle == old(rxIdle)
                && events == old(events) && readError == old(readError)
    {
      if state == Reset {
        ReqPut(RxIdle, req);
      } else if status != 0 {
        var _ := AddEvent(MTP_EVENT_READ_ERROR, []);
        ReqPut(RxIdle, req);
      } else {
        ReqPut(RxDone, req);
      }
    }

    /** mtp_function_disable: completed receive requests go back to the idle list. */
    method FunctionDisable()
      modifies this`txIdle, this`rxIdle, this`rxDone
      ensures rxIdle == old(rxIdle) + old(rxDone) && rxDone == [] && txIdle == old(txIdle)
    {
      RetireDone();
    }
  }
}
