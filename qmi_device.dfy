/**
 * The QMI device of the gobi network driver as the client multiplexer updates it: the registry of
 * clients, the queue primitives that run under the clients lock, the inbound demultiplexer, the
 * asynchronous and synchronous reads, and the "down" reason bitmask that drives the carrier.
 * Hooks are not run: each call is appended to a trace, hookCalls, in the order the driver makes it.
 */
module QmiDevice {
  import opened KernelTypes
  import opened QmiQueues

  /** The outcome of read_sync. */
  datatype SyncOutcome =
    | NoDevice                        // -ENXIO: the device is invalid or the client unknown
    | Got(data: seq<u8>, size: u16)   // a queued read was popped; size is returned
    | Waiting                         // nothing queued: an upsem notification is registered and the caller sleeps
    | Interrupted                     // the sleep was interrupted: the notification is withdrawn, -EINTR

  class Device {
    /** device_valid(dev). */
    var valid: bool
    /** dev->qmi.clients, in list order. */
    var clients: seq<Client>
    /** dev->down: the reasons the link is down, as the set of bits set in the word. */
    var down: set<nat>
    /** The carrier state of the network interface. */
    var carrierOn: bool
    /** Every hook call made so far, oldest first. */
    var hookCalls: seq<HookCall>

    /** client_alloc never links a second client with an id already present. */
    ghost predicate Valid()
      reads this
    {
      UniqueCids(clients)
    }

    /** The carrier is only on while no down reason is set. */
    ghost predicate CarrierConsistent()
      reads this
    {
      carrierOn ==> down == {}
    }

    /** The device as qc_register finds it once it has set the valid flag, before the control
        client is allocated: no clients yet. */
    constructor (initialDown: set<nat>)
      ensures Valid() && CarrierConsistent()
      ensures valid && clients == [] && hookCalls == [] && down == initialDown && carrierOn == (initialDown == {})
    {
      valid := true;
      clients := [];
      down := initialDown;
      carrierOn := initialDown == {};
      hookCalls := [];
    }

    /** The registration step of qc_register: the device is marked valid and the control client
        (id 0) is allocated; if that allocation fails the device is marked invalid again and the
        error returned. On a device fresh from the constructor it always succeeds. */
    method Register() returns (r: int)
      requires Valid()
      modifies this`valid, this`clients
      ensures Valid()
      ensures IndexOfCid(old(clients), QMICTL).None? ==> r == 0 && valid && clients == old(clients) + [NewClient(QMICTL)]
      ensures IndexOfCid(old(clients), QMICTL).Some? ==> r == -ETOOMANYREFS && !valid && clients == old(clients)
      ensures old(clients) == [] ==> r == 0 && valid && clients == [NewClient(QMICTL)]
    {
      valid := true;
      r := ClientAlloc(QMICTL);
      if r != 0 {
        valid := false;
      }
    }

    // -------------------------------------------------------------------------------------
    // The down bitmask

    /** qc_setdown: the reason is set and the carrier goes off. */
    method SetDown(reason: nat)
      requires reason < 32
      modifies this`down, this`carrierOn
      ensures down == old(down) + {reason} && !carrierOn
      ensures CarrierConsistent()
    {
      down := down + {reason};
      carrierOn := false;
    }

    /** qc_cleardown: the reason is cleared; the carrier comes on once no reason remains. */
    method ClearDown(reason: nat)
      requires reason < 32
      modifies this`down, this`carrierOn
      ensures down == old(down) - {reason}
      ensures carrierOn == (down == {} || old(carrierOn))
      ensures old(CarrierConsistent()) ==> CarrierConsistent()
    {
      down := down - {reason};
      if down == {} {
        carrierOn := true;
      }
    }

    /** qc_isdown: whether this reason is among those set. */
    method IsDown(reason: nat) returns (r: bool)
      requires reason < 32
      ensures r <==> reason in down
      ensures down == {} ==> !r
    {
      r := reason in down;
    }

    // -------------------------------------------------------------------------------------
    // The registry

    /** client_bycid: the first client with the id, or none when the device is invalid. */
    method ClientByCid(cid: u16) returns (idx: Option<nat>)
      ensures idx == (if valid then IndexOfCid(clients, cid) else None)
      ensures idx.Some? ==> idx.value < |clients| && clients[idx.value].cid == cid
    {
      if !valid {
        return None;
      }
      var i := 0;
      while i < |clients|
        invariant 0 <= i <= |clients|
        invariant forall j :: 0 <= j < i ==> clients[j].cid != cid
      {
        if clients[i].cid == cid {
          return Some(i);
        }
        i := i + 1;
      }
      return None;
    }

    /** The lock-held half of client_alloc, once the id is known (0 for the control service, the
        modem's answer otherwise): an id already present is refused, any other is linked at the tail
        with empty queues and returned. */
    method ClientAlloc(cid: u16) returns (r: int)
      requires Valid()
      modifies this`clients
      ensures Valid()
      ensures !old(valid) ==> r == -ENXIO && clients == old(clients)
      ensures old(valid) && IndexOfCid(old(clients), cid).Some? ==> r == -ETOOMANYREFS && clients == old(clients)
      ensures old(valid) && IndexOfCid(old(clients), cid).None? ==> r == cid && clients == old(clients) + [NewClient(cid)]
    {
      if !valid {
        return -ENXIO;
      }
      var idx := ClientByCid(cid);
      if idx.Some? {
        return -ETOOMANYREFS;
      }
      clients := clients + [NewClient(cid)];
      r := cid;
    }

    /** client_addread: the read goes to the tail of the client's queue. */
    method ClientAddRead(cid: u16, tid: u16, data: seq<u8>, size: u16) returns (ok: bool)
      requires Valid()
      modifies this`clients
      ensures Valid()
      ensures ok <==> old(valid) && IndexOfCid(old(clients), cid).Some?
      ensures !ok ==> clients == old(clients)
      ensures ok ==> var i := IndexOfCid(old(clients), cid).value;
                     clients == old(clients)[i := old(clients)[i].(readList := old(clients)[i].readList + [ReadReq(data, tid, size)])]
    {
      var idx := ClientByCid(cid);
      if idx.None? {
        return false;
      }
      var i := idx.value;
      clients := clients[i := clients[i].(readList := clients[i].readList + [ReadReq(data, tid, size)])];
      ok := true;
    }

    /** client_delread: the oldest read whose tid matches (any, for tid 0) is unlinked and handed back. */
    method ClientDelRead(cid: u16, tid: u16) returns (ok: bool, data: seq<u8>, size: u16)
      requires Valid()
      modifies this`clients
      ensures Valid()
      ensures !(old(valid) && IndexOfCid(old(clients), cid).Some?) ==> !ok && clients == old(clients)
      ensures old(valid) && IndexOfCid(old(clients), cid).Some? ==>
                var i := IndexOfCid(old(clients), cid).value;
                var c := old(clients)[i];
                match FirstWhere(c.readList, ReadFor(tid))
                case None => !ok && clients == old(clients)
                case Some(k) => ok && data == c.readList[k].data && size == c.readList[k].size
                                && clients == old(clients)[i := c.(readList := RemoveAt(c.readList, k))]
    {
      var idx := ClientByCid(cid);
      if idx.None? {
        return false, [], 0;
      }
      var i := idx.value;
      var c := clients[i];
      var k := 0;
      while k < |c.readList|
        invariant 0 <= k <= |c.readList|
        invariant forall j :: 0 <= j < k ==> !ReadFor(tid)(c.readList[j])
      {
        if tid == 0 || tid == c.readList[k].tid {
          assert ReadFor(tid)(c.readList[k]);
          data, size := c.readList[k].data, c.readList[k].size;
          clients := clients[i := c.(readList := RemoveAt(c.readList, k))];
          return true, data, size;
        }
        k := k + 1;
      }
      return false, [], 0;
    }

    /** client_addnotify: the notification goes to the tail of the client's queue. */
    method ClientAddNotify(cid: u16, tid: u16, hook: Option<Hook>, data: Token) returns (ok: bool)
      requires Valid()
      modifies this`clients
      ensures Valid()
      ensures ok <==> old(valid) && IndexOfCid(old(clients), cid).Some?
      ensures !ok ==> clients == old(clients)
      ensures ok ==> var i := IndexOfCid(old(clients), cid).value;
                     clients == old(clients)[i := old(clients)[i].(notifyList := old(clients)[i].notifyList + [NotifyReq(hook, tid, data)])]
    {
      var idx := ClientByCid(cid);
      if idx.None? {
        return false;
      }
      var i := idx.value;
      clients := clients[i := clients[i].(notifyList := clients[i].notifyList + [NotifyReq(hook, tid, data)])];
      ok := true;
    }

    /** client_notify: the oldest matching notification is unlinked and its hook, if any, called. */
    method ClientNotify(cid: u16, tid: u16) returns (ok: bool)
      requires Valid()
      modifies this`clients, this`hookCalls
      ensures Valid()
      ensures !(old(valid) && IndexOfCid(old(clients), cid).Some?) ==> !ok && clients == old(clients) && hookCalls == old(hookCalls)
      ensures old(valid) && IndexOfCid(old(clients), cid).Some? ==>
                var i := IndexOfCid(old(clients), cid).value;
                var c := old(clients)[i];
                ok == FirstWhere(c.notifyList, NotifyFor(tid)).Some?
                && clients == old(clients)[i := NotifyStep(c, tid).0]
                && hookCalls == old(hookCalls) + NotifyStep(c, tid).1
    {
      var idx := ClientByCid(cid);
      if idx.None? {
        return false;
      }
      var i := idx.value;
      var c := clients[i];
      var k := 0;
      while k < |c.notifyList|
        invariant 0 <= k <= |c.notifyList|
        invariant forall j :: 0 <= j < k ==> !NotifyFor(tid)(c.notifyList[j])
      {
        var n := c.notifyList[k];
        if tid == 0 || n.tid == 0 || tid == n.tid {
          assert NotifyFor(tid)(n);
          clients := clients[i := c.(notifyList := RemoveAt(c.notifyList, k))];
          if n.hook.Some? {
            hookCalls := hookCalls + [HookCall(n.hook.value, cid, n.data)];
          }
          return true;
        }
        k := k + 1;
      }
      return false;
    }

    /** client_addurb: the URB goes to the tail of the client's queue. */
    method ClientAddUrb(cid: u16, urb: Urb) returns (ok: bool)
      requires Valid()
      modifies this`clients
      ensures Valid()
      ensures ok <==> old(valid) && IndexOfCid(old(clients), cid).Some?
      ensures !ok ==> clients == old(clients)
      ensures ok ==> var i := IndexOfCid(old(clients), cid).value;
                     clients == old(clients)[i := old(clients)[i].(urbList := old(clients)[i].urbList + [urb])]
    {
      var idx := ClientByCid(cid);
      if idx.None? {
        return false;
      }
      var i := idx.value;
      clients := clients[i := clients[i].(urbList := clients[i].urbList + [urb])];
      ok := true;
    }

    /** client_delurb: the oldest URB is unlinked and returned; none when the queue is empty. */
    method ClientDelUrb(cid: u16) returns (urb: Option<Urb>)
      requires Valid()
      modifies this`clients
      ensures Valid()
      ensures !(old(valid) && IndexOfCid(old(clients), cid).Some?) ==> urb.None? && clients == old(clients)
      ensures old(valid) && IndexOfCid(old(clients), cid).Some? ==>
                var i := IndexOfCid(old(clients), cid).value;
                var c := old(clients)[i];
                if c.urbList == [] then urb.None? && clients == old(clients)
                else urb == Some(c.urbList[0]) && clients == old(clients)[i := c.(urbList := c.urbList[1..])]
    {
      var idx := ClientByCid(cid);
      if idx.None? {
        return None;
      }
      var i := idx.value;
      var c := clients[i];
      if c.urbList == [] {
        return None;
      }
      clients := clients[i := c.(urbList := c.urbList[1..])];
      urb := Some(c.urbList[0]);
    }

    /** while (client_notify(dev, cid, 0)); of client_free: tid 0 matches every notification, so
        the whole queue is fired, oldest first. */
    method DrainNotifies(cid: u16, i: nat)
      requires Valid() && valid && i < |clients| && clients[i].cid == cid && IndexOfCid(clients, cid) == Some(i)
      modifies this`clients, this`hookCalls
      ensures Valid()
      ensures clients == old(clients)[i := old(clients)[i].(notifyList := [])]
      ensures hookCalls == old(hookCalls) + FireAll(old(clients)[i].notifyList, cid)
    {
      ghost var c0 := clients[i];
      ghost var cs0 := clients;
      ghost var fired := 0;
      while true
        invariant Valid() && valid && 0 <= fired <= |c0.notifyList|
        invariant clients == cs0[i := c0.(notifyList := c0.notifyList[fired..])]
        invariant hookCalls == old(hookCalls) + FireAll(c0.notifyList[..fired], cid)
        decreases |c0.notifyList| - fired
      {
        IndexOfCidKeptBySameId(cs0, i, clients[i], cid);
        assert fired < |c0.notifyList| ==> NotifyFor(0)(c0.notifyList[fired..][0]);
        var more := ClientNotify(cid, 0);
        if !more {
          break;
        }
        ghost var rest := c0.notifyList[fired..];
        assert RemoveAt(rest, 0) == c0.notifyList[fired + 1..];
        assert c0.notifyList[..fired + 1][..fired] == c0.notifyList[..fired];
        fired := fired + 1;
      }
      assert c0.notifyList[..fired] == c0.notifyList;
    }

    /** The URB loop of client_free: every URB is popped, killed and freed, oldest first. */
    method DrainUrbs(cid: u16, i: nat) returns (killed: seq<Urb>)
      requires Valid() && valid && i < |clients| && clients[i].cid == cid && IndexOfCid(clients, cid) == Some(i)
      modifies this`clients
      ensures Valid()
      ensures clients == old(clients)[i := old(clients)[i].(urbList := [])]
      ensures killed == old(clients)[i].urbList
    {
      ghost var c0 := clients[i];
      ghost var cs0 := clients;
      killed := [];
      while true
        invariant Valid() && valid && |killed| <= |c0.urbList|
        invariant clients == cs0[i := c0.(urbList := c0.urbList[|killed|..])]
        invariant killed == c0.urbList[..|killed|]
        decreases |c0.urbList| - |killed|
      {
        IndexOfCidKeptBySameId(cs0, i, clients[i], cid);
        var urb := ClientDelUrb(cid);
        if urb.None? {
          break;
        }
        assert c0.urbList[|killed|..][1..] == c0.urbList[|killed| + 1..];
        killed := killed + [urb.value];
      }
      assert killed == c0.urbList;
    }

    /** while (client_delread(dev, cid, 0, &data, &size)) kfree(data); of client_free: tid 0 matches
        every read, so every buffer is freed, oldest first. */
    method DrainReads(cid: u16, i: nat) returns (freed: seq<seq<u8>>)
      requires Valid() && valid && i < |clients| && clients[i].cid == cid && IndexOfCid(clients, cid) == Some(i)
      modifies this`clients
      ensures Valid()
      ensures clients == old(clients)[i := old(clients)[i].(readList := [])]
      ensures freed == Payloads(old(clients)[i].readList)
    {
      ghost var c0 := clients[i];
      ghost var cs0 := clients;
      freed := [];
      while true
        invariant Valid() && valid && |freed| <= |c0.readList|
        invariant clients == cs0[i := c0.(readList := c0.readList[|freed|..])]
        invariant freed == Payloads(c0.readList[..|freed|])
        decreases |c0.readList| - |freed|
      {
        IndexOfCidKeptBySameId(cs0, i, clients[i], cid);
        assert |freed| < |c0.readList| ==> ReadFor(0)(c0.readList[|freed|..][0]);
        var ok, data, size := ClientDelRead(cid, 0);
        if !ok {
          break;
        }
        ghost var rest := c0.readList[|freed|..];
        assert RemoveAt(rest, 0) == c0.readList[|freed| + 1..];
        assert c0.readList[..|freed| + 1][..|freed|] == c0.readList[..|freed|];
        freed := freed + [data];
      }
      assert c0.readList[..|freed|] == c0.readList;
    }

    /** The lock-held half of client_free: every notification is fired in queue order, every URB is
        killed oldest first, every queued read is freed, and the client is unlinked. */
    method ClientFree(cid: u16) returns (killed: seq<Urb>, freed: seq<seq<u8>>)
      requires Valid()
      modifies this`clients, this`hookCalls
      ensures Valid()
      ensures !(old(valid) && IndexOfCid(old(clients), cid).Some?) ==>
                clients == old(clients) && hookCalls == old(hookCalls) && killed == [] && freed == []
      ensures old(valid) && IndexOfCid(old(clients), cid).Some? ==>
                var i := IndexOfCid(old(clients), cid).value;
                var c := old(clients)[i];
                clients == RemoveAt(old(clients), i)
                && hookCalls == old(hookCalls) + FireAll(c.notifyList, cid)
                && killed == c.urbList && freed == Payloads(c.readList)
      ensures old(valid) ==> forall j :: 0 <= j < |clients| ==> clients[j].cid != cid
    {
      killed, freed := [], [];
      var idx := ClientByCid(cid);
      if idx.None? {
        return;
      }
      // list_for_each_safe goes on past the match, but no other client carries the id.
      var i := idx.value;
      ghost var cs0 := clients;
      DrainNotifies(cid, i);
      IndexOfCidKeptBySameId(cs0, i, clients[i], cid);
      ghost var cs1 := clients;
      killed := DrainUrbs(cid, i);
      IndexOfCidKeptBySameId(cs1, i, clients[i], cid);
      freed := DrainReads(cid, i);
      clients := RemoveAt(clients, i);
      assert clients == RemoveAt(cs0, i);
    }

    // -------------------------------------------------------------------------------------
    // Inbound messages

    /** read_callback after a packet has arrived and qmux_parse has looked at it (None when it
        failed): the packet is dropped unless the transfer succeeded, it parsed, and it holds the
        transaction id; otherwise each addressed client in registry order gets its own copy at the
        tail of its reads and one client_notify, and a message that is not a broadcast stops at the
        first addressed client. */
    method ReadCallback(urbStatus: int, data: seq<u8>, header: Option<QmuxHeader>)
      requires Valid()
      modifies this`clients, this`hookCalls
      ensures Valid()
      ensures !(old(valid) && urbStatus == 0 && header.Some? && LongEnough(data, header.value)) ==>
                clients == old(clients) && hookCalls == old(hookCalls)
      ensures old(valid) && urbStatus == 0 && header.Some? && LongEnough(data, header.value) ==>
                var msg := InboundRead(data, header.value);
                |clients| == |old(clients)|
                && (forall j :: 0 <= j < |clients| ==> clients[j] == DemuxedClient(old(clients), header.value.cid, msg, j))
                && hookCalls == old(hookCalls) + DemuxCalls(old(clients), header.value.cid, msg)
    {
      if !valid || urbStatus != 0 || header.None? {
        return;
      }
      var h := header.value;
      var size := PacketSize(data);
      if size < h.offset + 3 {
        return;
      }
      var cid := h.cid;
      var tid: u16;
      if cid == QMICTL {
        tid := data[h.offset + 1];
      } else {
        tid := LittleEndian16(data[h.offset + 1], data[h.offset + 2]);
      }
      // The copy each recipient gets is the first size bytes of the packet.
      assert InboundRead(data, h) == ReadReq(data[..size], tid, size);
      Demux(cid, ReadReq(data[..size], tid, size));
    }

    /** The demux loop of read_callback, for a message addressed to target. */
    method Demux(target: u16, msg: ReadReq)
      requires Valid() && valid
      modifies this`clients, this`hookCalls
      ensures Valid() && |clients| == |old(clients)|
      ensures forall j :: 0 <= j < |clients| ==> clients[j] == DemuxedClient(old(clients), target, msg, j)
      ensures hookCalls == old(hookCalls) + DemuxCalls(old(clients), target, msg)
    {
      ghost var cs0 := clients;
      var i := 0;
      while i < |clients|
        invariant Valid() && valid && 0 <= i <= |clients| == |cs0|
        invariant forall j :: 0 <= j < i ==> clients[j] == DemuxedClient(cs0, target, msg, j)
        invariant forall j :: i <= j < |clients| ==> clients[j] == cs0[j]
        invariant forall j :: 0 <= j < i ==> IsBroadcast(target) || !Addressed(cs0[j], target)
        invariant hookCalls == old(hookCalls) + DemuxCalls(cs0[..i], target, msg)
      {
        DemuxCallsStep(cs0, target, msg, i);
        if clients[i].cid == target || BroadcastId(clients[i].cid) == target {
          DeliverTo(i, msg);
          if target / 0x100 != 0xff {
            UnicastStopsAt(cs0, target, msg, i);
            return;
          }
        }
        i := i + 1;
      }
      assert cs0[..|cs0|] == cs0;
    }

    /** The body of the demux loop for a recipient: client_addread, then client_notify with the
        message's tid. */
    method DeliverTo(i: nat, msg: ReadReq)
      requires Valid() && valid && i < |clients|
      modifies this`clients, this`hookCalls
      ensures Valid() && |clients| == |old(clients)|
      ensures clients == old(clients)[i := Deliver(old(clients)[i], msg).0]
      ensures hookCalls == old(hookCalls) + Deliver(old(clients)[i], msg).1
    {
      ghost var cs0 := clients;
      var cid := clients[i].cid;
      assert IndexOfCid(clients, cid) == Some(i);
      var queued := ClientAddRead(cid, msg.tid, msg.data, msg.size);
      assert queued;
      IndexOfCidKeptBySameId(cs0, i, clients[i], cid);
      var _ := ClientNotify(cid, msg.tid);
    }

    /** read_async: when a read with a matching tid is already queued the hook is called at once;
        otherwise it is registered as a notification. The read itself stays queued either way. */
    method ReadAsync(cid: u16, tid: u16, hook: Hook, data: Token) returns (r: int)
      requires Valid()
      modifies this`clients, this`hookCalls
      ensures Valid()
      ensures !(old(valid) && IndexOfCid(old(clients), cid).Some?) ==>
                r == -ENXIO && clients == old(clients) && hookCalls == old(hookCalls)
      ensures old(valid) && IndexOfCid(old(clients), cid).Some? ==>
                var i := IndexOfCid(old(clients), cid).value;
                var c := old(clients)[i];
                r == 0
                && (FirstWhere(c.readList, ReadFor(tid)).Some? ==>
                      clients == old(clients) && hookCalls == old(hookCalls) + [HookCall(hook, cid, data)])
                && (FirstWhere(c.readList, ReadFor(tid)).None? ==>
                      hookCalls == old(hookCalls)
                      && clients == old(clients)[i := c.(notifyList := c.notifyList + [NotifyReq(Some(hook), tid, data)])])
    {
      if !valid {
        return -ENXIO;
      }
      var idx := ClientByCid(cid);
      if idx.None? {
        return -ENXIO;
      }
      var c := clients[idx.value];
      var k := 0;
      while k < |c.readList|
        invariant 0 <= k <= |c.readList|
        invariant forall j :: 0 <= j < k ==> !ReadFor(tid)(c.readList[j])
      {
        if tid == 0 || tid == c.readList[k].tid {
          assert ReadFor(tid)(c.readList[k]);
          hookCalls := hookCalls + [HookCall(hook, cid, data)];
          return 0;
        }
        k := k + 1;
      }
      var _ := ClientAddNotify(cid, tid, Some(hook), data);
      r := 0;
    }

    /** One pass of read_sync. A matching queued read is popped and returned. Otherwise an upsem
        notification on the caller's semaphore is registered; if the sleep that follows is
        interrupted, the first notification on that semaphore is withdrawn again. */
    method ReadSync(cid: u16, tid: u16, sem: Token, interrupted: bool) returns (res: SyncOutcome)
      requires Valid()
      modifies this`clients
      ensures Valid()
      ensures !(old(valid) && IndexOfCid(old(clients), cid).Some?) ==> res == NoDevice && clients == old(clients)
      ensures old(valid) && IndexOfCid(old(clients), cid).Some? ==>
                var i := IndexOfCid(old(clients), cid).value;
                var c := old(clients)[i];
                var waiting := c.notifyList + [NotifyReq(Some(UpSem), tid, sem)];
                match FirstWhere(c.readList, ReadFor(tid))
                case Some(k) => res == Got(c.readList[k].data, c.readList[k].size)
                                && clients == old(clients)[i := c.(readList := RemoveAt(c.readList, k))]
                case None => if interrupted
                             then res == Interrupted && clients == old(clients)[i := c.(notifyList := Withdraw(waiting, sem))]
                             else res == Waiting && clients == old(clients)[i := c.(notifyList := waiting)]
    {
      if !valid {
        return NoDevice;
      }
      var idx := ClientByCid(cid);
      if idx.None? {
        return NoDevice;
      }
      var i := idx.value;
      var ok, data, size := ClientDelRead(cid, tid);
      if ok {
        return Got(data, size);
      }
      assert IndexOfCid(clients, cid) == Some(i);
      var added := ClientAddNotify(cid, tid, Some(UpSem), sem);
      assert added;
      if !interrupted {
        return Waiting;
      }
      var ns := clients[i].notifyList;
      var k := 0;
      while k < |ns|
        invariant 0 <= k <= |ns|
        invariant forall j :: 0 <= j < k ==> !WaitsOn(sem)(ns[j])
      {
        if ns[k].data == sem {
          assert WaitsOn(sem)(ns[k]);
          clients := clients[i := clients[i].(notifyList := RemoveAt(ns, k))];
          return Interrupted;
        }
        k := k + 1;
      }
      return Interrupted;
    }
  }
}
