# QMI multiplexer, MTP gadget control, modem peers and pin-mux queries

A Dafny model of four pieces of a Tegra phone kernel:

- **The QMI client multiplexer** of the Qualcomm USB network driver
  (`drivers/net/usb/qcusbnet/qmidevice.c`). A device keeps a list of clients, one per QMI
  service id. Each client has three FIFO queues: inbound messages (reads), registered wake-ups
  (notifications) and in-flight write URBs. `QmiQueues` holds the pure definitions: first-match
  lookup, the demux rule for inbound packets, and firing notifications as hook calls.
  `QmiDevice.Device` is a class whose methods update the client list, the down-reason set and a
  trace of hook calls, as the C functions do. `QmiCharDev` holds the argument checks of the
  character device. `QmiTid` holds the transaction-id counter.
- **The MTP USB gadget function** (`drivers/usb/gadget/mtp.c`). `MtpEvents` defines the
  event records of the 50-byte event buffer, their decoding and the round trip.
  `MtpGadget.MtpContext` is a class over the buffer (an `array`) with the connection state
  machine, the CSR reply slot, the request lists and the exclusion counters.
- **The legacy modem control glue** (`arch/arm/mach-tegra/board-mot-modem.c`): an 8-slot
  peer table, the baseband on/off state and the agent callback, as the class
  `ModemControl.ModemCtrl`.
- **The pin-mux and clock-limit queries** of the board
  (`arch/arm/mach-tegra/odm_kit/query/daytona/nvodm_query_pinmux.c`), as pure functions in
  `PinMuxQuery`.

Inputs stand in for what the model does not compute:

- **Hooks and function pointers** are values. Calling a hook appends a record to a trace.
- **Results of code outside the model** are parameters: the parsed QMUX header, user-copy
  faults, `usb_ep_queue` and `usb_ep_enable` results, the personality field of the customer
  option, and whether a wait was interrupted.
- **Shared kernel types** (`u8`/`u16`/`u32`, `Option`, the errno values) are in `KernelTypes`.

Where the source uses bit operations (`cid | 0xff00`, `cid >> 8`, `bRequestType & 0x60`), the
model writes the same value arithmetically: `0xff00 + cid % 0x100`, `cid / 0x100`,
`bRequestType / 0x20 % 4`.

## Model

| member | source | states |
|---|---|---|
| `QmiQueues.NewClient` | drivers/net/usb/qcusbnet/qmidevice.c:726-730 | a new client has the given id and three empty queues |
| `QmiQueues.IndexOfCid` | drivers/net/usb/qcusbnet/qmidevice.c:814-834 | the index found holds the id and no earlier client does; none exactly when no client has the id |
| `QmiQueues.FireAllExactlyOnce` | drivers/net/usb/qcusbnet/qmidevice.c:794 | draining a notification queue calls one hook per non-NULL notification; the k-th such notification's hook is the k-th call, with its own data and the client's id |
| `QmiQueues.FireAllLength` | drivers/net/usb/qcusbnet/qmidevice.c:926-965 | firing a queue makes exactly as many calls as it has non-NULL hooks |
| `QmiQueues.BroadcastId` | drivers/net/usb/qcusbnet/qmidevice.c:224 | `c \| 0xff00` has high byte 0xff and keeps c's low byte |
| `QmiQueues.UnicastReachesOwnerOnly` | drivers/net/usb/qcusbnet/qmidevice.c:222-247 | with unique ids, a message whose id is not 0xffXX is queued on client i exactly when client i owns that id |
| `QmiQueues.UnicastAtMostOne` | drivers/net/usb/qcusbnet/qmidevice.c:245-246 | even with duplicate ids, a message that is not a broadcast reaches at most one client |
| `QmiQueues.BroadcastReachesLowByteMatches` | drivers/net/usb/qcusbnet/qmidevice.c:224-246 | a broadcast 0xffXX reaches exactly the clients whose id has low byte XX |
| `QmiQueues.DeliverQueuesThenNotifies` | drivers/net/usb/qcusbnet/qmidevice.c:232-243 | a recipient gets the message at the tail of its reads; its first matching notification (tid 0 on either side matches) is removed and fired, or nothing happens when none matches |
| `QmiQueues.EarlierWildcardWins` | drivers/net/usb/qcusbnet/qmidevice.c:926-965 | an older wildcard notification is taken before a younger one with the exact tid, which stays queued |
| `QmiQueues.WaiterWokenByReply` | drivers/net/usb/qcusbnet/qmidevice.c:232-243 | a read_sync waiter whose notification is the first to match its tid is woken by the reply: the reply is queued, that notification is removed and UpSem is called on its semaphore, and read_sync's next look finds the reply |
| `QmiQueues.DelReadFifo` | drivers/net/usb/qcusbnet/qmidevice.c:865-895 | reads matching a tid are taken oldest first: after one is removed, the next match is the next older one and the rest keep their order |
| `QmiQueues.DemuxCallsStep` | drivers/net/usb/qcusbnet/qmidevice.c:222-248 | the demux loop's hook calls grow, client by client, by a recipient's notify calls and by nothing for other clients |
| `QmiQueues.DemuxCallsStopAfterUnicast` | drivers/net/usb/qcusbnet/qmidevice.c:245-246 | after a message that is not a broadcast reaches a client, no later client adds a hook call |
| `QmiQueues.UnicastStopsAt` | drivers/net/usb/qcusbnet/qmidevice.c:245-246 | after the break, every later client keeps its queues and the loop's calls are those up to the recipient |
| `QmiQueues.Payloads` | drivers/net/usb/qcusbnet/qmidevice.c:803-804 | draining a read queue hands back the message buffers one for one, in queue order |
| `QmiQueues.PacketSize` | drivers/net/usb/qcusbnet/qmidevice.c:196 | the u16 size equals the packet length below 64 KiB and never exceeds it |
| `QmiQueues.PacketTid` | drivers/net/usb/qcusbnet/qmidevice.c:212-215 | the control service's tid is the one byte after the header's first byte; other services use the little-endian 16 bits there |
| `QmiQueues.InboundRead` | drivers/net/usb/qcusbnet/qmidevice.c:225-232 | the queued read is a copy of the first size bytes of the packet, with the packet's tid and size |
| `QmiQueues.Withdraw` | drivers/net/usb/qcusbnet/qmidevice.c:510-517 | the first notification whose data is the semaphore is removed and the rest keep their order; without one the queue is unchanged |
| `QmiQueues.WithdrawUndoesRegistration` | drivers/net/usb/qcusbnet/qmidevice.c:496-521 | an interrupted waiter whose semaphore nobody else uses leaves the notification queue exactly as it found it |
| `QmiDevice.Device.constructor` | drivers/net/usb/qcusbnet/qmidevice.c:1310 | the state once qc_register has set the valid flag and before the control client is allocated: valid, no clients, no hook calls |
| `QmiDevice.Device.Register` | drivers/net/usb/qcusbnet/qmidevice.c:1310-1316 | the control client (id 0) is allocated and the device stays valid; if the allocation fails, the device is marked invalid and the error is returned; from the constructor's state the client list becomes exactly the control client |
| `QmiDevice.Device.SetDown` | drivers/net/usb/qcusbnet/qmidevice.c:144-148 | the reason is added to the down set and the carrier goes off |
| `QmiDevice.Device.ClearDown` | drivers/net/usb/qcusbnet/qmidevice.c:150-155 | the reason is removed; the carrier comes on when no reason remains and is otherwise unchanged; "carrier on implies nothing down" is preserved |
| `QmiDevice.Device.IsDown` | drivers/net/usb/qcusbnet/qmidevice.c:157-160 | true exactly when the reason is in the down set |
| `QmiDevice.Device.ClientByCid` | drivers/net/usb/qcusbnet/qmidevice.c:814-834 | the result is the first client with the id on a valid device, and none on an invalid one |
| `QmiDevice.Device.ClientAlloc` | drivers/net/usb/qcusbnet/qmidevice.c:674-732 | -ENXIO on an invalid device; -ETOOMANYREFS with nothing changed when the id exists; otherwise one empty client is appended and its id returned; ids stay unique |
| `QmiDevice.Device.ClientAddRead` | drivers/net/usb/qcusbnet/qmidevice.c:836-863 | true exactly for a known id on a valid device; then the read is appended to that client's reads and nothing else changes |
| `QmiDevice.Device.ClientDelRead` | drivers/net/usb/qcusbnet/qmidevice.c:865-895 | the oldest read matching the tid (any, for tid 0) is removed and its data and size returned; false with no change otherwise |
| `QmiDevice.Device.ClientAddNotify` | drivers/net/usb/qcusbnet/qmidevice.c:897-924 | true exactly for a known id on a valid device; then the notification is appended and nothing else changes |
| `QmiDevice.Device.ClientNotify` | drivers/net/usb/qcusbnet/qmidevice.c:926-965 | true exactly when a notification matches; the first match is removed and its hook, if not NULL, is called once |
| `QmiDevice.Device.ClientAddUrb` | drivers/net/usb/qcusbnet/qmidevice.c:967-990 | true exactly for a known id on a valid device; then the URB is appended and nothing else changes |
| `QmiDevice.Device.ClientDelUrb` | drivers/net/usb/qcusbnet/qmidevice.c:992-1016 | the head URB is removed and returned; none for an empty queue or an unknown client |
| `QmiDevice.Device.DrainNotifies` | drivers/net/usb/qcusbnet/qmidevice.c:794 | every notification of the client fires once, in queue order, and its queue ends empty |
| `QmiDevice.Device.DrainUrbs` | drivers/net/usb/qcusbnet/qmidevice.c:796-801 | every URB is killed and freed in queue order, and the queue ends empty |
| `QmiDevice.Device.DrainReads` | drivers/net/usb/qcusbnet/qmidevice.c:803-804 | every read's buffer is freed in queue order, and the queue ends empty |
| `QmiDevice.Device.ClientFree` | drivers/net/usb/qcusbnet/qmidevice.c:752-811 | the client's notifications fire once each, its URBs and reads are drained, it is unlinked with the others kept in order, and no client with the id remains |
| `QmiDevice.Device.ReadCallback` | drivers/net/usb/qcusbnet/qmidevice.c:183-219 | invalid devices, failed URBs, unparsable and short packets change nothing; otherwise every client the demux rule selects gets the message and its notify calls |
| `QmiDevice.Device.Demux` | drivers/net/usb/qcusbnet/qmidevice.c:220-250 | each client ends as the demux specification says, and the hook calls are the recipients' notify calls in list order |
| `QmiDevice.Device.DeliverTo` | drivers/net/usb/qcusbnet/qmidevice.c:232-243 | one recipient: read appended, then the first matching notification fired |
| `QmiDevice.Device.ReadAsync` | drivers/net/usb/qcusbnet/qmidevice.c:434-461 | -ENXIO for an invalid device or unknown id; with a matching queued read the hook is called at once and nothing is registered; otherwise exactly one notification is appended |
| `QmiDevice.Device.ReadSync` | drivers/net/usb/qcusbnet/qmidevice.c:482-533 | -ENXIO cases; a matching read is popped and returned; otherwise an up-semaphore notification is registered, and an interrupted wait withdraws it again |
| `QmiCharDev.FileCheck` | drivers/net/usb/qcusbnet/qmidevice.c:1054-1063 | -EBADF without a handle, -ENXIO on an invalid device, no error otherwise |
| `QmiCharDev.Ioctl` | drivers/net/usb/qcusbnet/qmidevice.c:1065-1128 | the file checks come first; a bind passes the argument's low byte as service type; the vid/pid word is what userspace gets |
| `QmiCharDev.BindThenRebindRefused` | drivers/net/usb/qcusbnet/qmidevice.c:1075-1084 | after a bind that client_alloc answered with an id below 0xffff, the ioctl returned 0 and a second bind on the handle gets -EBADR; after a failed allocation the error is returned and the next bind reaches client_alloc again |
| `QmiCharDev.BindOfAllOnesLooksUnbound` | drivers/net/usb/qcusbnet/qmidevice.c:1075-1082 | an allocation answered with 0xffff is stored as the id, so the handle still reads as unbound and a second bind reaches client_alloc |
| `QmiCharDev.BindOnlyFromUnboundHandle` | drivers/net/usb/qcusbnet/qmidevice.c:1066-1079 | client_alloc is reached exactly for an unbound handle on a valid device with a non-zero service byte; a bound handle gets -EBADR |
| `QmiCharDev.ControlServiceUnreachable` | drivers/net/usb/qcusbnet/qmidevice.c:1069-1071 | userspace can never bind the control service: service byte 0 gives -EINVAL |
| `QmiCharDev.UnknownCommandRefused` | drivers/net/usb/qcusbnet/qmidevice.c:1126-1127 | any command other than the three gives -EBADRQC |
| `QmiCharDev.CopyOutResult` | drivers/net/usb/qcusbnet/qmidevice.c:1107-1111 | as written, the VIDPID and MEID ioctls return the count of bytes not copied: never negative, and 0 exactly when the copy succeeded |
| `QmiCharDev.CopyOutResultCorrected` | drivers/net/usb/qcusbnet/qmidevice.c:1107-1111 | corrected: 0 when the copy succeeded, -EFAULT otherwise |
| `QmiCharDev.CopyOutFaultIsNotAnError` | drivers/net/usb/qcusbnet/qmidevice.c:1120-1124 | as written, 3 bytes not copied come back as 3, which is no error code; corrected, exactly the failed copies give a negative result |
| `QmiCharDev.VidPidSplits` | drivers/net/usb/qcusbnet/qmidevice.c:1104-1105 | the vendor id is the high half and the product id the low half of the word |
| `QmiCharDev.DevRead` | drivers/net/usb/qcusbnet/qmidevice.c:1194-1243 | the file checks come first; -EBADR on an unbound handle; a non-positive read_sync result is returned as it is; a message whose length after the QMUX header exceeds the user's buffer (compared as size_t) gets -EOVERFLOW; a failed copy gets -EFAULT; a positive result is the length after the header, fits the buffer, and comes only from a bound handle and a copy that succeeded |
| `QmiCharDev.ShortReadIsOverflow` | drivers/net/usb/qcusbnet/qmidevice.c:1224-1233 | a message shorter than the header is refused with -EOVERFLOW, because the negative length compares as a huge size_t |
| `QmiCharDev.FittingReadSucceeds` | drivers/net/usb/qcusbnet/qmidevice.c:1219-1242 | a message that fits is returned whole |
| `QmiCharDev.DevWrite` | drivers/net/usb/qcusbnet/qmidevice.c:1245-1301 | the file checks come first; -EBADR on an unbound handle; a failed copy returns the number of bytes not copied; a send of every byte returns the user's size; any other write_sync result is returned as it is |
| `QmiCharDev.DevWriteReportsFaultAsCount` | drivers/net/usb/qcusbnet/qmidevice.c:1277-1286 | as written, 4 uncopied bytes out of 10 come back as the result 4 |
| `QmiCharDev.DevWriteAsWrittenBreaksSuccessMeansSent` | drivers/net/usb/qcusbnet/qmidevice.c:1282-1285 | as written, a non-negative result does not imply the copy succeeded |
| `QmiCharDev.DevWriteCorrected` | drivers/net/usb/qcusbnet/qmidevice.c:1245-1301 | the same checks and -EBADR; a failed copy is reported as -EFAULT; with the copy done it answers as the as-written write |
| `QmiCharDev.DevWriteCorrectedSuccessMeansSent` | drivers/net/usb/qcusbnet/qmidevice.c:1282-1299 | corrected: a non-negative result happens exactly when the handle is bound, the copy succeeded and every byte went out, and it is then the user's size |
| `QmiTid.Draw` | drivers/net/usb/qcusbnet/qmidevice.c:681 | one atomic increment: the counter goes up by one and the tid is its low byte |
| `QmiTid.NextTid` | drivers/net/usb/qcusbnet/qmidevice.c:762-764 | the tid is never 0 and is the low byte of the counter, which goes up by one or two |
| `QmiTid.AllocTidAsWritten` | drivers/net/usb/qcusbnet/qmidevice.c:681-683 | the tid is the first draw's low byte even when that is 0; the counter still advances twice then |
| `QmiTid.AllocAgreesUnlessWrap` | drivers/net/usb/qcusbnet/qmidevice.c:681-683 | client_alloc's draw equals the corrected one exactly when the low byte does not wrap |
| `QmiTid.AllocTidAsWrittenSendsWildcard` | drivers/net/usb/qcusbnet/qmidevice.c:681-693 | from the initial counter, the 255th draw sends tid 0, which read_sync treats as "any reply" |
| `QmiTid.NextTidMatchesOnlyItsReply` | drivers/net/usb/qcusbnet/qmidevice.c:762-775 | with the corrected draw, a waiter takes only a reply carrying its own tid |
| `QmiTid.TidsFrom` | drivers/net/usb/qcusbnet/qmidevice.c:762-764 | n successive draws give n tids, none of them 0 |
| `QmiTid.Succ` | drivers/net/usb/qcusbnet/qmidevice.c:762-764 | the next non-zero byte, cyclically |
| `QmiTid.NextTidIsSucc` | drivers/net/usb/qcusbnet/qmidevice.c:762-764 | each draw yields the successor of the previous tid |
| `QmiTid.TidsCycle` | drivers/net/usb/qcusbnet/qmidevice.c:762-764 | draw m is the first tid moved m places round the 255 non-zero values |
| `QmiTid.TidsDistinctWithinWindow` | drivers/net/usb/qcusbnet/qmidevice.c:762-764 | any 255 successive draws give pairwise different tids |
| `MtpEvents.Record` | drivers/usb/gadget/mtp.c:310-317 | a record is the code, the length byte (payload + 2) and the payload |
| `MtpEvents.Push` | drivers/usb/gadget/mtp.c:283-284 | an event that fits is appended to the queue; one that does not is dropped with the queue unchanged |
| `MtpEvents.Image` | drivers/usb/gadget/mtp.c:876-881 | the buffer handed out is the event count followed by every record, oldest first |
| `MtpEvents.EncodeAllAppend` | drivers/usb/gadget/mtp.c:310-317 | appending an event appends its record to the buffer contents |
| `MtpEvents.EncodeAllLength` | drivers/usb/gadget/mtp.c:310-311 | every record takes at least two bytes |
| `MtpEvents.EventCountBound` | drivers/usb/gadget/mtp.c:321 | a queue that fits the 50-byte buffer holds at most 24 events, so its count fits byte 0 |
| `MtpEvents.PushKeepsCapacity` | drivers/usb/gadget/mtp.c:283-284 | pushing never overflows the buffer, and an accepted event grows the index by its record's length |
| `MtpEvents.DecodeEncode` | drivers/usb/gadget/mtp.c:310-317 | records whose length fits the length byte decode back to the events, in order |
| `MtpEvents.FittingQueueRepresentable` | drivers/usb/gadget/mtp.c:283-284 | every event that fitted the buffer has a length the length byte can hold |
| `MtpEvents.ImageRoundTrip` | drivers/usb/gadget/mtp.c:876-883 | the reader's buffer gives back the event count and every event, in order |
| `MtpGadget.SetupBytes` | drivers/usb/gadget/mtp.c:1154-1156 | the setup packet forwarded in an event is its 8 bytes |
| `MtpGadget.SetupRoundTrip` | drivers/usb/gadget/mtp.c:1171-1173 | userspace parses the forwarded setup packet back to the host's request |
| `MtpGadget.RequestKind` | drivers/usb/gadget/mtp.c:1128 | the request type is one of four kinds |
| `MtpGadget.CompatIdHeader` | drivers/usb/gadget/mtp.c:158-163 | header: length 40, version 1.00, index 4, one function section |
| `MtpGadget.CompatIdFunction` | drivers/usb/gadget/mtp.c:165-171 | function section: the interface number, then compatible ID "MTP" |
| `MtpGadget.ExtCompatIdDescriptor` | drivers/usb/gadget/mtp.c:1130-1139 | the 40-byte descriptor carries its own length, index 4, one function, the interface number and "MTP" |
| `MtpGadget.ResetStatus` | drivers/usb/gadget/mtp.c:1196-1203 | 12 bytes: length 12, code 0x201F (cancelled), the IN endpoint 0x80, the OUT endpoint 0 |
| `MtpGadget.BusyStatus` | drivers/usb/gadget/mtp.c:1236-1241 | 4 bytes: length 4, code 0x2019 (busy) |
| `MtpGadget.ZlpExactlyOnPacketBoundary` | drivers/usb/gadget/mtp.c:402-408 | a zero-length packet follows exactly the non-empty transfers that fill their last packet, and the zero-length packet itself needs none |
| `MtpGadget.ConnectedOnlyFromConnecting` | drivers/usb/gadget/mtp.c:1078-1092 | configuration moves to CONNECTED exactly from CONNECTING; no command or class request enters CONNECTED, and only CONNECT enters CONNECTING |
| `MtpGadget.ResetLeftOnlyByUserspace` | drivers/usb/gadget/mtp.c:803-809 | RESET is left only by userspace CONNECT or DISCONNECT; configuration and class requests keep it |
| `MtpGadget.Excl.Lock` | drivers/usb/gadget/mtp.c:327-335 | taken (0) exactly when the counter was 0, leaving it 1; otherwise -1 with the counter restored; a counter in {0,1} stays there |
| `MtpGadget.Excl.Unlock` | drivers/usb/gadget/mtp.c:337-340 | the counter goes down by one, back to 0 for the holder |
| `MtpGadget.WriteRecord` | drivers/usb/gadget/mtp.c:310-317 | the record is written at the index and every other byte is untouched |
| `MtpGadget.MtpContext.constructor` | drivers/usb/gadget/mtp.c:1291-1298 | DISCONNECTED, not releasing, no CSR reply, an empty event queue at index 1 |
| `MtpGadget.MtpContext.AddEvent` | drivers/usb/gadget/mtp.c:277-325 | returns whether the event fits; the queue becomes Push(queue, event) and the buffer keeps its layout; READ_RELEASED sets releasing only when connected, READ_ERROR sets the error, both only for an event that fits |
| `MtpGadget.MtpContext.AppendRecord` | drivers/usb/gadget/mtp.c:310-321 | the record follows the queued ones and byte 0 holds the new count |
| `MtpGadget.MtpContext.EventRead` | drivers/usb/gadget/mtp.c:855-888 | -EBUSY with nothing changed when another reader holds the device, including one asleep in the wait; otherwise the counter is taken and the read goes on as `EventReadAfterLock` |
| `MtpGadget.MtpContext.EventReadAfterLock` | drivers/usb/gadget/mtp.c:864-887 | with no event the reader sleeps on, still holding the counter, or a signal ends the sleep; -EFAULT when the buffer is shorter than the used part; otherwise the whole buffer image is delivered and the queue emptied; every outcome but sleeping releases the counter |
| `MtpGadget.ReadOutcome` | drivers/usb/gadget/mtp.c:864-887 | the reader sleeps exactly when no event is queued and no signal came; a delivered image is the event count followed by every record, and fits the user's buffer |
| `MtpGadget.MtpContext.ReqPut` | drivers/usb/gadget/mtp.c:367-377 | the request joins the tail of its list; the other lists are unchanged |
| `MtpGadget.MtpContext.ReqGet` | drivers/usb/gadget/mtp.c:379-394 | the head of the list is unlinked and returned, or none for an empty list |
| `MtpGadget.MtpContext.RetireDone` | drivers/usb/gadget/mtp.c:1063-1065 | every completed receive request moves to the tail of the idle list, in order |
| `MtpGadget.MtpContext.UserDisconnect` | drivers/usb/gadget/mtp.c:765-776 | READ_RELEASED then EJECT are queued and the state becomes DISCONNECTED |
| `MtpGadget.MtpContext.StoreCsrReply` | drivers/usb/gadget/mtp.c:788-800 | the four bytes are kept only when no reply is pending, and a reply is then pending |
| `MtpGadget.MtpContext.ControlWrite` | drivers/usb/gadget/mtp.c:743-818 | -EFAULT for more than 5 bytes or a failed copy; otherwise each command's effect on state, events, CSR slot, read count and request lists, and the byte count is returned |
| `MtpGadget.MtpContext.RecycleReceive` | drivers/usb/gadget/mtp.c:1055-1075 | the stale and completed requests join the idle list; its head is queued on OUT, or goes back to the tail when queueing fails |
| `MtpGadget.MtpContext.AdvanceOnSetAlt` | drivers/usb/gadget/mtp.c:1078-1092 | CONNECTING becomes CONNECTED with a CONNECTED event; CONNECTED becomes DISCONNECTED after READ_RELEASED and DISCONNECTED events; other states are unchanged |
| `MtpGadget.MtpContext.FunctionSetAlt` | drivers/usb/gadget/mtp.c:1029-1094 | an endpoint enable failure is returned with nothing changed; otherwise requests are recycled and the connection advances |
| `MtpGadget.MtpContext.FunctionSetup` | drivers/usb/gadget/mtp.c:1117-1258 | vendor 0xFE index 4 answers the descriptor; CANCEL forwards the request and returns wLength; DEVICE_RESET enters RESET; DEVICE_STATUS answers cancelled in RESET, else the stored reply (clearing it), else busy with the request forwarded; anything else -EOPNOTSUPP |
| `MtpGadget.MtpContext.CompleteIn` | drivers/usb/gadget/mtp.c:397-414 | a write error outside RESET is recorded; a transfer ending on a packet boundary is requeued as a zero-length packet, any other request returns to the idle list |
| `MtpGadget.MtpContext.CompleteOut` | drivers/usb/gadget/mtp.c:417-433 | in RESET the request returns to idle; a failed transfer queues READ_ERROR and returns to idle; a good one joins the done list |
| `MtpGadget.MtpContext.FunctionDisable` | drivers/usb/gadget/mtp.c:1260-1283 | completed receive requests move to the idle list |
| `ModemControl.Fired` | arch/arm/mach-tegra/board-mot-modem.c:104-105 | a peer contributes one call when its hook is set and none when it is NULL |
| `ModemControl.HookCallsAppend` | arch/arm/mach-tegra/board-mot-modem.c:103-106 | one more peer extends the calls by that peer's call |
| `ModemControl.HookCallsOnePerPeer` | arch/arm/mach-tegra/board-mot-modem.c:103-106 | with every hook set, the calls are the peers' hooks with their contexts, one for one, in index order |
| `ModemControl.HookCallsOnlyRegistered` | arch/arm/mach-tegra/board-mot-modem.c:103-106 | every call made is the hook and context of some registered peer |
| `ModemControl.Switch` | arch/arm/mach-tegra/board-mot-modem.c:98-108 | the state ends at the target, and nothing is called when it already was |
| `ModemControl.SwitchIdempotent` | arch/arm/mach-tegra/board-mot-modem.c:118-128 | a repeated startup or shutdown calls nothing, and a startup from the initial state calls nothing |
| `ModemControl.SwitchOnChangeCallsHooks` | arch/arm/mach-tegra/board-mot-modem.c:123-126 | a real change calls every peer's hook of that kind once, in index order |
| `ModemControl.ModemCtrl.constructor` | arch/arm/mach-tegra/board-mot-modem.c:67-70 | no peers, the state on, no agent |
| `ModemControl.ModemCtrl.PeerRegister` | arch/arm/mach-tegra/board-mot-modem.c:72-91 | -ENOMEM with nothing changed when 8 peers exist; otherwise the entry is stored at the next index, the count grows by one and earlier entries are kept |
| `ModemControl.ModemCtrl.Transition` | arch/arm/mach-tegra/board-mot-modem.c:113-131 | the calls made are those of Switch over the registered peers, and the state becomes the target |
| `ModemControl.ModemCtrl.BpStartup` | arch/arm/mach-tegra/board-mot-modem.c:93-111 | if off, every startup hook is called in index order; the state ends on |
| `ModemControl.ModemCtrl.BpShutdown` | arch/arm/mach-tegra/board-mot-modem.c:113-131 | if on, every shutdown hook is called in index order; the state ends off |
| `ModemControl.ModemCtrl.AgentRegister` | arch/arm/mach-tegra/board-mot-modem.c:31-36 | the callback, possibly NULL, replaces the stored one and 0 is returned; a NULL callback unregisters the agent |
| `ModemControl.ModemCtrl.BpChange` | arch/arm/mach-tegra/board-mot-modem.c:134-144 | the state and status are passed to the agent exactly when one is registered |
| `PinMuxQuery.EffectivePersonality` | arch/arm/mach-tegra/odm_kit/query/daytona/nvodm_query_pinmux.c:216-217 | a zero personality is replaced by the default; any other is kept |
| `PinMuxQuery.QueryPinMux` | arch/arm/mach-tegra/odm_kit/query/daytona/nvodm_query_pinmux.c:192-391 | the pointer is never NULL; an assigned table comes with its own length; an unassigned pointer comes with count 0 |
| `PinMuxQuery.StaticTablesReturnedWhole` | arch/arm/mach-tegra/odm_kit/query/daytona/nvodm_query_pinmux.c:222-352 | each module with a table gets that table and its length, whatever the personality: Uart 5, Spi 5, I2c 3, Sdio 4 |
| `PinMuxQuery.TraceOnlyForTracePersonalities` | arch/arm/mach-tegra/odm_kit/query/daytona/nvodm_query_pinmux.c:354-366 | Trace gives the PTM table, count 1, exactly for personalities 11, 15 and C1; otherwise count 0 and the pointer untouched |
| `PinMuxQuery.NoTableModulesUntouched` | arch/arm/mach-tegra/odm_kit/query/daytona/nvodm_query_pinmux.c:373-389 | the ten listed modules and unknown ones give count 0 with the pointer untouched; every other non-Trace module gets a table |
| `PinMuxQuery.DefaultsSubstituted` | arch/arm/mach-tegra/odm_kit/query/daytona/nvodm_query_pinmux.c:216-220 | a missing personality answers as the default one, and the RIL value never changes the answer |
| `PinMuxQuery.QueryClockLimits` | arch/arm/mach-tegra/odm_kit/query/daytona/nvodm_query_pinmux.c:393-416 | only Sdio has limits, with its own length; Hsmmc alone leaves the pointer untouched; the rest get NULL |
| `PinMuxQuery.SdioLimitPerInstance` | arch/arm/mach-tegra/odm_kit/query/daytona/nvodm_query_pinmux.c:181-186 | one clock limit per SDIO pin-mux instance, and the WLAN instance is limited to 50000 kHz |

## Findings

| source | as written | input that shows it | evidently intended | confidence | as-written member | corrected member |
|---|---|---|---|---|---|---|
| drivers/net/usb/qcusbnet/qmidevice.c:681-683 | client_alloc skips tid 0 by incrementing the counter again but does not assign the result, so the request goes out with tid 0 | counter 255 (the 255th draw after registration sets it to 1) | `tid = atomic_add_return(...)` as client_free does at line 764, so tid 0, which read_sync treats as "any reply", is never waited on | high, not executed | `QmiTid.AllocTidAsWritten` (`QmiTid.AllocTidAsWrittenSendsWildcard`) | `QmiTid.NextTid` (`QmiTid.NextTidMatchesOnlyItsReply`) |
| drivers/net/usb/qcusbnet/qmidevice.c:1282-1285 | devqmi_write returns copy_from_user's count of uncopied bytes, a positive number, when the copy faults | size 10 with 4 bytes not copied: the write returns 4, which reads as a short successful write although nothing was sent | return -EFAULT, as devqmi_read does at line 1238 | high, not executed | `QmiCharDev.DevWrite` (`QmiCharDev.DevWriteReportsFaultAsCount`) | `QmiCharDev.DevWriteCorrected` (`QmiCharDev.DevWriteCorrectedSuccessMeansSent`) |
| drivers/net/usb/qcusbnet/qmidevice.c:1107-1124 | the VIDPID and MEID ioctls return copy_to_user's count of bytes not copied, a positive number, when the copy faults | a VIDPID copy that fails on 3 of its 4 bytes returns 3 | return -EFAULT, so that userspace's test for a negative result sees the fault | medium, not executed | `QmiCharDev.CopyOutResult` (`QmiCharDev.CopyOutFaultIsNotAnError`) | `QmiCharDev.CopyOutResultCorrected` (`QmiCharDev.CopyOutFaultIsNotAnError`) |

## Left out

- QmiDevice.Device.constructor: the initial carrier state is an input. The model takes it as on exactly when no down reason is set. The network interface's initial carrier is set by code outside this model.
- QmiDevice.Device.Register: the transaction-id counter reset to 1 (qmidevice.c:1317) is modelled separately, as the initial counter of `QmiTid`. The start of the read URB and the qmi_ready handshake that follow it are not modelled.
- QmiCharDev.BindOfAllOnesLooksUnbound: whether the modem can ever answer with the id 0xffff depends on `qmictl_alloccid_resp`, which is not part of this model, so this edge is not claimed as a finding.

- Memory allocation failures (`kmalloc`) are not modelled: allocation always succeeds. So the -ENOMEM paths of client_alloc, the client_add* functions and read_callback's copy are absent.
- The USB transport is absent: URB submission, `int_callback`, `qc_startread`/`qc_stopread`, `write_sync` and `write_callback`. A write's result is an input.
- Locking and concurrency are not modelled: spinlocks, and the lock dropped around a hook in client_notify. Every operation is one atomic step.
- Blocking waits are not modelled. read_sync is one pass: it pops a message, or it registers its wake-up and then is either interrupted or left waiting. mtp_event_read's sleep is a WouldBlock outcome that keeps eventread_excl held; a woken reader resumes through `EventReadAfterLock`.
- `qmux_parse`, `qmux_fill`, the `qmictl_*`, `qmiwds_*` and `qmidms_*` message builders and parsers, and `wds_callback` are not part of this model. Their results (the parsed client id and header size, the allocated client id) are inputs.
- `qmi_ready`, `devqmi_open`, `devqmi_close`, the rest of `qc_register`, `qc_deregister` and `printhex` are not modelled. They are polling, file-table walks, character-device registration and debug output.
- Only the `QMUX_IN_DRIVER` configuration of read_callback and client_alloc is modelled.
- QmiDevice.Device.ClientFree: list_for_each_safe would also free later clients with the same id. The model removes the first one only, which is the same because ids are unique (the class invariant).
- QmiDevice.Device.SetDown: the down word is modelled as the set of its bits, for reasons below 32.
- The bit operations of read_callback and mtp_function_setup are stated in their arithmetic form.
- QmiCharDev.Ioctl: the copy of the VID/PID and MEID to userspace is an action the caller performs. The MEID bytes come from `qmidms_getmeid`, which is outside this model.
- MtpGadget.MtpContext.ControlWrite: bytes of the command beyond `count` are uninitialised stack bytes in the source; the model takes all five bytes as input.
- MtpGadget.MtpContext.EventRead: copy_to_user's result is tested with `< 0`, which an unsigned count of uncopied bytes never is, so a faulting copy is treated as success. The model has no copy-fault input.
- The blocking `mtp_read` and `mtp_write`, `usb_ep_queue` of data, endpoint descriptors and enabling, `mtp_function_bind`/`unbind`, `misc_register`, the control and event open/release handlers, and `mtp_ep0_complete_out`'s logging are not modelled.
- MtpGadget.MtpContext.FunctionSetup: the DEVICE_STATUS branch that would leave RESET sits under `if (1)`'s else and can never run, so it is not modelled. Setting `ctl_tx_req->complete` is not modelled either.
- The board file's GPIO wiring, `platform_device_register`, the machine and hardware-revision branches of `mot_modem_init`, and the wakelock interrupt handler are not modelled.
- The key-list service and the customer-option bitfield extraction come from headers outside this model. The personality and RIL fields are inputs, and the header's constants are a `DevkitConsts` record. The pin-map configuration constants are named values.
- The `NV_ASSERT` on an unknown module is a debug-build check. The model follows the release behaviour: count 0.
