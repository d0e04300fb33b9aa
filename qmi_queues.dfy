/**
 * The values behind the QMI client multiplexer of the gobi network driver: a client with its
 * three FIFO queues (inbound reads, registered notifications, in-flight write URBs), the
 * transaction-id matching rules, and the rule by which an inbound message reaches clients.
 * The device that owns and updates these values is in module QmiDevice.
 */
module QmiQueues {
  import opened KernelTypes

  /** The control client's id. client_alloc gives type 0 the id 0, and registration fails
      unless allocating the control client returns 0. */
  const QMICTL: u16 := 0

  /** The function pointer a notification runs: the semaphore wake-up of read_sync, the WDS
      event callback, or any other hook a caller supplies. */
  datatype Hook = UpSem | WdsCallback | Callback(id: nat)

  /** The opaque data pointer handed to a hook. */
  type Token = nat

  /** An in-flight write URB. */
  type Urb = nat

  /** An inbound message waiting to be read: a private copy of the packet, its tid and size. */
  datatype ReadReq = ReadReq(data: seq<u8>, tid: u16, size: u16)

  /** A registered notification; a NULL function pointer is None. */
  datatype NotifyReq = NotifyReq(hook: Option<Hook>, tid: u16, data: Token)

  /** One client: its id and its three queues, oldest entry first. */
  datatype Client = Client(cid: u16, readList: seq<ReadReq>, notifyList: seq<NotifyReq>, urbList: seq<Urb>)

  /** One invocation of a hook, as func(dev, cid, data). */
  datatype HookCall = HookCall(hook: Hook, cid: u16, data: Token)

  /** A client as client_alloc links it: no reads, no notifications, no URBs. */
  function NewClient(cid: u16): (c: Client)
    ensures c.cid == cid && c.readList == [] && c.notifyList == [] && c.urbList == []
  {
    Client(cid, [], [], [])
  }

  /** The index of the first element satisfying p: what a list_for_each that stops at the first match finds. */
  function FirstWhere<T>(s: seq<T>, p: T -> bool): (r: Option<nat>)
    ensures r.Some? ==> r.value < |s| && p(s[r.value])
    ensures r.Some? ==> forall j :: 0 <= j < r.value ==> !p(s[j])
    ensures r.None? <==> forall j :: 0 <= j < |s| ==> !p(s[j])
  {
    if |s| == 0 then None
    else if p(s[0]) then Some(0)
    else match FirstWhere(s[1..], p)
      case None => None
      case Some(k) => Some(k + 1)
  }

  /** s with the element at i unlinked, the others kept in order: list_del. */
  function RemoveAt<T>(s: seq<T>, i: nat): (r: seq<T>)
    requires i < |s|
    ensures |r| == |s| - 1
    ensures forall j :: 0 <= j < i ==> r[j] == s[j]
    ensures forall j :: i <= j < |r| ==> r[j] == s[j + 1]
  {
    s[..i] + s[i + 1..]
  }

  /** client_bycid's test. */
  function HasCid(cid: u16): Client -> bool
  {
    (c: Client) => c.cid == cid
  }

  /** client_delread's and read_async's test: tid 0 takes any read. */
  function ReadFor(tid: u16): ReadReq -> bool
  {
    (r: ReadReq) => tid == 0 || r.tid == tid
  }

  /** client_notify's test: tid 0 on either side is a wildcard. */
  function NotifyFor(tid: u16): NotifyReq -> bool
  {
    (n: NotifyReq) => tid == 0 || n.tid == 0 || n.tid == tid
  }

  /** read_sync's test when it withdraws its own notification: the data pointer is its semaphore. */
  function WaitsOn(sem: Token): NotifyReq -> bool
  {
    (n: NotifyReq) => n.data == sem
  }

  /** Client ids are unique in the registry. */
  predicate UniqueCids(cs: seq<Client>)
  {
    forall i, j :: 0 <= i < j < |cs| ==> cs[i].cid != cs[j].cid
  }

  /** The registry index client_bycid returns, when the device is valid. */
  function IndexOfCid(cs: seq<Client>, cid: u16): (r: Option<nat>)
    ensures r.Some? ==> r.value < |cs| && cs[r.value].cid == cid
    ensures r.Some? ==> forall j :: 0 <= j < r.value ==> cs[j].cid != cid
    ensures r.None? <==> forall j :: 0 <= j < |cs| ==> cs[j].cid != cid
  {
    FirstWhere(cs, HasCid(cid))
  }

  // ---------------------------------------------------------------------------------------
  // Firing notifications

  /** What running one dequeued notification does: its hook is called once unless it is NULL. */
  function Fire(n: NotifyReq, cid: u16): seq<HookCall>
  {
    if n.hook.Some? then [HookCall(n.hook.value, cid, n.data)] else []
  }

  /** The calls made by firing every notification of ns in queue order. */
  function FireAll(ns: seq<NotifyReq>, cid: u16): seq<HookCall>
  {
    if ns == [] then [] else FireAll(ns[..|ns| - 1], cid) + Fire(ns[|ns| - 1], cid)
  }

  /** The number of notifications of ns that carry a hook. */
  function HookCount(ns: seq<NotifyReq>): nat
  {
    if ns == [] then 0 else HookCount(ns[..|ns| - 1]) + (if ns[|ns| - 1].hook.Some? then 1 else 0)
  }

  /** Firing a whole queue calls one hook per non-NULL notification and nothing else, each exactly
      once, in queue order: notification k is the call at position HookCount(ns[..k]). */
  lemma {:induction false} FireAllExactlyOnce(ns: seq<NotifyReq>, cid: u16, k: nat)
    requires k < |ns| && ns[k].hook.Some?
    ensures |FireAll(ns, cid)| == HookCount(ns)
    ensures HookCount(ns[..k]) < |FireAll(ns, cid)|
    ensures FireAll(ns, cid)[HookCount(ns[..k])] == HookCall(ns[k].hook.value, cid, ns[k].data)
  {
    var n := |ns|;
    var init := ns[..n - 1];
    FireAllLength(init, cid);
    if k == n - 1 {
      assert ns[..k] == init;
    } else {
      FireAllExactlyOnce(init, cid, k);
      assert init[..k] == ns[..k];
    }
  }

  /** Firing a queue makes one call per notification that carries a hook. */
  lemma {:induction false} FireAllLength(ns: seq<NotifyReq>, cid: u16)
    ensures |FireAll(ns, cid)| == HookCount(ns)
  {
    if ns != [] {
      FireAllLength(ns[..|ns| - 1], cid);
    }
  }

  // ---------------------------------------------------------------------------------------
  // Demultiplexing an inbound message

  /** c | 0xff00, written arithmetically: the high byte set to 0xff, the low byte kept. It is the
      broadcast id a client with id c answers to. */
  function BroadcastId(c: u16): (r: u16)
    ensures r / 0x100 == 0xff && r % 0x100 == c % 0x100
  {
    0xff00 + c % 0x100
  }

  /** cid >> 8 == 0xff: a message for every client whose id has the same low byte. */
  predicate IsBroadcast(target: u16)
  {
    target / 0x100 == 0xff
  }

  /** read_callback's test for client c and a message addressed to target. */
  predicate Addressed(c: Client, target: u16)
  {
    c.cid == target || BroadcastId(c.cid) == target
  }

  /** Whether the demux loop queues the message on client i: it is addressed, and no earlier client
      was addressed by a message that is not a broadcast (the loop breaks after the first match). */
  predicate Receives(cs: seq<Client>, target: u16, i: nat)
    requires i < |cs|
  {
    Addressed(cs[i], target) && (IsBroadcast(target) || forall j :: 0 <= j < i ==> !Addressed(cs[j], target))
  }

  /** One client_notify(cid, tid): the first matching notification is unlinked and fired. */
  function NotifyStep(c: Client, tid: u16): (Client, seq<HookCall>)
  {
    match FirstWhere(c.notifyList, NotifyFor(tid))
    case None => (c, [])
    case Some(k) => (c.(notifyList := RemoveAt(c.notifyList, k)), Fire(c.notifyList[k], c.cid))
  }

  /** What the demux loop does to a recipient: client_addread at the tail, then client_notify. */
  function Deliver(c: Client, msg: ReadReq): (Client, seq<HookCall>)
  {
    NotifyStep(c.(readList := c.readList + [msg]), msg.tid)
  }

  /** Client i after the demux loop. */
  function DemuxedClient(cs: seq<Client>, target: u16, msg: ReadReq, i: nat): Client
    requires i < |cs|
  {
    if Receives(cs, target, i) then Deliver(cs[i], msg).0 else cs[i]
  }

  /** The hook calls of the demux loop, recipient by recipient in registry order. */
  function DemuxCalls(cs: seq<Client>, target: u16, msg: ReadReq): seq<HookCall>
  {
    if cs == [] then []
    else
      var last := |cs| - 1;
      DemuxCalls(cs[..last], target, msg) + (if Receives(cs, target, last) then Deliver(cs[last], msg).1 else [])
  }

  /** A message that is not a broadcast reaches exactly the client that owns its id. */
  lemma UnicastReachesOwnerOnly(cs: seq<Client>, target: u16, i: nat)
    requires UniqueCids(cs) && !IsBroadcast(target) && i < |cs|
    ensures Receives(cs, target, i) <==> cs[i].cid == target
  {
    if cs[i].cid == target {
      forall j | 0 <= j < i ensures !Addressed(cs[j], target) {
        assert cs[j].cid != target;
      }
    }
  }

  /** Even with duplicate ids, a message that is not a broadcast reaches at most one client. */
  lemma UnicastAtMostOne(cs: seq<Client>, target: u16, i: nat, j: nat)
    requires !IsBroadcast(target) && i < |cs| && j < |cs|
    requires Receives(cs, target, i) && Receives(cs, target, j)
    ensures i == j
  {
  }

  /** A broadcast 0xffXX reaches every client whose id has the low byte XX, and no other. */
  lemma BroadcastReachesLowByteMatches(cs: seq<Client>, target: u16, i: nat)
    requires IsBroadcast(target) && i < |cs|
    ensures Receives(cs, target, i) <==> cs[i].cid % 0x100 == target % 0x100
  {
  }

  /** A recipient gets the message at the tail of its reads, and its first matching notification,
      if any, is unlinked and fired; every other notification stays, in order. */
  lemma DeliverQueuesThenNotifies(c: Client, msg: ReadReq)
    ensures Deliver(c, msg).0.cid == c.cid && Deliver(c, msg).0.urbList == c.urbList
    ensures Deliver(c, msg).0.readList == c.readList + [msg]
    ensures match FirstWhere(c.notifyList, NotifyFor(msg.tid))
            case None => Deliver(c, msg).0.notifyList == c.notifyList && Deliver(c, msg).1 == []
            case Some(k) => Deliver(c, msg).0.notifyList == RemoveAt(c.notifyList, k)
                            && Deliver(c, msg).1 == Fire(c.notifyList[k], c.cid)
  {
  }

  /** First-registered wins: a wildcard notification queued before one with the message's own tid
      is the one fired, and the specific one stays queued. */
  lemma {:induction false} EarlierWildcardWins(c: Client, msg: ReadReq, w: nat, s: nat)
    requires w < s < |c.notifyList|
    requires msg.tid != 0 && c.notifyList[w].tid == 0 && c.notifyList[s].tid == msg.tid
    requires forall j :: 0 <= j < w ==> c.notifyList[j].tid != 0 && c.notifyList[j].tid != msg.tid
    ensures Deliver(c, msg).0.notifyList == RemoveAt(c.notifyList, w)
    ensures Deliver(c, msg).1 == Fire(c.notifyList[w], c.cid)
    ensures c.notifyList[s] in Deliver(c, msg).0.notifyList
  {
    var k := FirstWhere(c.notifyList, NotifyFor(msg.tid));
    assert NotifyFor(msg.tid)(c.notifyList[w]);
    assert k == Some(w);
    assert RemoveAt(c.notifyList, w)[s - 1] == c.notifyList[s];
  }

  /** The synchronous request and its reply put together: a client whose read_sync found nothing
      for tid and registered its up-semaphore notification last, with no older notification
      matching the tid, is woken by the reply: the demux queues the reply, takes exactly that
      notification off the queue and calls UpSem on the waiter's semaphore. Once awake, read_sync's
      second look finds the reply itself. (When an older notification does match, it is taken
      instead: EarlierWildcardWins.) */
  lemma WaiterWokenByReply(c: Client, tid: u16, sem: Token, msg: ReadReq)
    requires tid != 0 && msg.tid == tid
    requires FirstWhere(c.readList, ReadFor(tid)).None?
    requires FirstWhere(c.notifyList, NotifyFor(tid)).None?
    ensures var waiting := c.(notifyList := c.notifyList + [NotifyReq(Some(UpSem), tid, sem)]);
            Deliver(waiting, msg) == (c.(readList := c.readList + [msg]), [HookCall(UpSem, c.cid, sem)])
    ensures FirstWhere(c.readList + [msg], ReadFor(tid)) == Some(|c.readList|)
  {
    var ns := c.notifyList + [NotifyReq(Some(UpSem), tid, sem)];
    assert NotifyFor(tid)(ns[|c.notifyList|]);
    var k := FirstWhere(ns, NotifyFor(tid));
    assert forall j :: 0 <= j < |c.notifyList| ==> ns[j] == c.notifyList[j];
    assert k == Some(|c.notifyList|);
    assert RemoveAt(ns, |c.notifyList|) == c.notifyList;
    var rs := c.readList + [msg];
    assert ReadFor(tid)(rs[|c.readList|]);
    assert forall j :: 0 <= j < |c.readList| ==> rs[j] == c.readList[j];
  }

  /** Reads with the same tid are consumed oldest first: after the first pop, the next pop takes an
      entry that was queued after it. */
  lemma DelReadFifo(queue: seq<ReadReq>, tid: u16)
    requires FirstWhere(queue, ReadFor(tid)).Some?
    ensures var k := FirstWhere(queue, ReadFor(tid)).value;
            var rest := RemoveAt(queue, k);
            FirstWhere(rest, ReadFor(tid)).Some? ==>
              FirstWhere(rest, ReadFor(tid)).value >= k
              && rest[FirstWhere(rest, ReadFor(tid)).value] == queue[FirstWhere(rest, ReadFor(tid)).value + 1]
  {
  }

  /** The demux loop one client further: client i is added to the calls exactly when it receives. */
  lemma DemuxCallsStep(cs: seq<Client>, target: u16, msg: ReadReq, i: nat)
    requires i < |cs|
    ensures DemuxCalls(cs[..i + 1], target, msg)
            == DemuxCalls(cs[..i], target, msg) + (if Receives(cs, target, i) then Deliver(cs[i], msg).1 else [])
  {
    var pre := cs[..i + 1];
    assert pre[..i] == cs[..i];
    assert Receives(pre, target, i) == Receives(cs, target, i);
  }

  /** After a message that is not a broadcast has found its client at i, no later client adds a call:
      this is the loop's break. */
  lemma {:induction false} DemuxCallsStopAfterUnicast(cs: seq<Client>, target: u16, msg: ReadReq, i: nat, n: nat)
    requires !IsBroadcast(target) && i < n <= |cs| && Addressed(cs[i], target)
    ensures DemuxCalls(cs[..n], target, msg) == DemuxCalls(cs[..i + 1], target, msg)
  {
    if n > i + 1 {
      DemuxCallsStopAfterUnicast(cs, target, msg, i, n - 1);
      DemuxCallsStep(cs, target, msg, n - 1);
      assert !Receives(cs, target, n - 1);
    }
  }

  /** The message buffers of a queue of reads, oldest first: what draining it hands to kfree. */
  function Payloads(rs: seq<ReadReq>): (r: seq<seq<u8>>)
    ensures |r| == |rs|
    ensures forall j :: 0 <= j < |rs| ==> r[j] == rs[j].data
  {
    if rs == [] then [] else Payloads(rs[..|rs| - 1]) + [rs[|rs| - 1].data]
  }

  // ---------------------------------------------------------------------------------------
  // The inbound packet

  /** What qmux_parse reports on success: the client id the packet is for and the length of the
      QMUX header, at whose end the QMI header starts. */
  datatype QmuxHeader = QmuxHeader(cid: u16, offset: nat)

  /** The packet length as read_callback stores it in a u16. */
  function PacketSize(data: seq<u8>): (r: u16)
    ensures |data| < 0x1_0000 ==> r == |data|
    ensures r <= |data|
  {
    TruncU16(|data|)
  }

  /** read_callback drops packets too short to hold the QMI transaction id after the QMUX header. */
  predicate LongEnough(data: seq<u8>, h: QmuxHeader)
  {
    PacketSize(data) >= h.offset + 3
  }

  /** The transaction id: one byte after the header's first byte for the control service, a
      little-endian u16 there for any other service. */
  function PacketTid(data: seq<u8>, h: QmuxHeader): (r: u16)
    requires LongEnough(data, h)
    ensures h.cid == QMICTL ==> r == data[h.offset + 1] && r < 0x100
    ensures h.cid != QMICTL ==> r % 0x100 == data[h.offset + 1] && r / 0x100 == data[h.offset + 2]
  {
    if h.cid == QMICTL then data[h.offset + 1] else LittleEndian16(data[h.offset + 1], data[h.offset + 2])
  }

  /** The read each recipient receives: its own copy of the first size bytes, with the tid. */
  function InboundRead(data: seq<u8>, h: QmuxHeader): (r: ReadReq)
    requires LongEnough(data, h)
    ensures r.size == PacketSize(data) && |r.data| == r.size && r.data == data[..r.size]
    ensures r.tid == PacketTid(data, h)
  {
    var size := PacketSize(data);
    ReadReq(data[..size], PacketTid(data, h), size)
  }

  // ---------------------------------------------------------------------------------------
  // Withdrawing a waiter

  /** read_sync's clean-up after an interrupted wait: the first notification whose data is the
      waiter's semaphore is unlinked; none is unlinked if there is none. */
  function Withdraw(ns: seq<NotifyReq>, sem: Token): (r: seq<NotifyReq>)
    ensures FirstWhere(ns, WaitsOn(sem)).None? ==> r == ns
    ensures FirstWhere(ns, WaitsOn(sem)).Some? ==> r == RemoveAt(ns, FirstWhere(ns, WaitsOn(sem)).value)
  {
    match FirstWhere(ns, WaitsOn(sem))
    case None => ns
    case Some(k) => RemoveAt(ns, k)
  }

  /** A waiter that registered on a semaphore nobody else uses and was then interrupted leaves the
      queue exactly as it found it. */
  lemma WithdrawUndoesRegistration(ns: seq<NotifyReq>, req: NotifyReq)
    requires forall j :: 0 <= j < |ns| ==> ns[j].data != req.data
    ensures Withdraw(ns + [req], req.data) == ns
  {
    var q := ns + [req];
    assert forall j :: 0 <= j < |ns| ==> !WaitsOn(req.data)(q[j]);
    assert WaitsOn(req.data)(q[|ns|]);
    assert FirstWhere(q, WaitsOn(req.data)) == Some(|ns|);
    assert RemoveAt(q, |ns|) == ns;
  }

  /** Two sequences whose elements pass and fail p alike have the same first match. */
  lemma FirstWhereSameTests<T>(s: seq<T>, t: seq<T>, p: T -> bool)
    requires |s| == |t| && forall j :: 0 <= j < |s| ==> p(s[j]) == p(t[j])
    ensures FirstWhere(s, p) == FirstWhere(t, p)
  {
    var a, b := FirstWhere(s, p), FirstWhere(t, p);
    if a.Some? && b.Some? {
      assert !(a.value < b.value) && !(b.value < a.value);
    }
  }

  /** Replacing a client by one with the same id leaves every lookup by id as it was. */
  lemma IndexOfCidKeptBySameId(cs: seq<Client>, i: nat, c: Client, cid: u16)
    requires i < |cs| && c.cid == cs[i].cid
    ensures IndexOfCid(cs[i := c], cid) == IndexOfCid(cs, cid)
  {
    FirstWhereSameTests(cs[i := c], cs, HasCid(cid));
  }

  /** Once a message that is not a broadcast has been delivered to client i, the loop's break
      leaves every later client untouched and adds no further call. */
  lemma UnicastStopsAt(cs: seq<Client>, target: u16, msg: ReadReq, i: nat)
    requires !IsBroadcast(target) && i < |cs| && Addressed(cs[i], target)
    ensures forall j :: i < j < |cs| ==> DemuxedClient(cs, target, msg, j) == cs[j]
    ensures DemuxCalls(cs, target, msg) == DemuxCalls(cs[..i + 1], target, msg)
  {
    forall j | i < j < |cs|
      ensures DemuxedClient(cs, target, msg, j) == cs[j]
    {
      assert !Receives(cs, target, j);
    }
    DemuxCallsStopAfterUnicast(cs, target, msg, i, |cs|);
    assert cs[..|cs|] == cs;
  }
}
