/**
 * The argument checks of the QMI character device: which ioctl binds a handle to a service, how
 * a read's length is checked against the user's buffer, and what a write returns. The client
 * allocation, read_sync, write_sync and the user copies they lead to are inputs here: their
 * outcomes are passed in.
 */
module QmiCharDev {
  import opened KernelTypes

  const IOCTL_QMI_GET_SERVICE_FILE := 0x8BE0 + 1
  const IOCTL_QMI_GET_DEVICE_VIDPID := 0x8BE0 + 2
  const IOCTL_QMI_GET_DEVICE_MEID := 0x8BE0 + 3

  /** (u16)-1: the id of a handle not yet bound to a service. */
  const NO_CID: u16 := 0xffff

  /** The open file as the checks see it: its handle (None for NULL private data), which carries
      the client id, and whether the device is still valid. */
  datatype OpenFile = OpenFile(handle: Option<u16>, devValid: bool)

  /** The USB device behind the handle: whether usbnet and udev are set, and the descriptor ids. */
  datatype UsbIds = UsbIds(usbnet: bool, udev: bool, vendor: u16, product: u16)

  /** What devqmi_ioctl goes on to do once its checks are passed. */
  datatype IoctlAction =
    | Fail(err: int)              // return err with nothing else done
    | AllocClient(serviceType: u8) // client_alloc(type); a negative result is returned, otherwise the handle takes it and 0 is returned
    | CopyVidPid(vidpid: u32)     // copy the four bytes out; the number not copied is returned
    | CopyMeid                    // copy the fourteen MEID bytes out; the number not copied is returned

  /** The handle and device checks every file operation starts with: -EBADF without a handle,
      -ENXIO once the device is gone. */
  function FileCheck(f: OpenFile): (r: Option<int>)
    ensures r.Some? <==> f.handle.None? || !f.devValid
    ensures f.handle.None? ==> r == Some(-EBADF)
    ensures f.handle.Some? && !f.devValid ==> r == Some(-ENXIO)
  {
    if f.handle.None? then Some(-EBADF)
    else if !f.devValid then Some(-ENXIO)
    else None
  }

  /** The vendor id in the high half and the product id in the low half. */
  function VidPid(ids: UsbIds): (r: u32)
  {
    ids.vendor * 0x1_0000 + ids.product
  }

  /** devqmi_ioctl's decision. */
  function Ioctl(f: OpenFile, cmd: nat, arg: nat, ids: UsbIds): (r: IoctlAction)
    ensures FileCheck(f).Some? ==> r == Fail(FileCheck(f).value)
    ensures r.AllocClient? ==> r.serviceType == arg % 0x100
    ensures r.CopyVidPid? ==> r.vidpid == VidPid(ids)
  {
    if FileCheck(f).Some? then Fail(FileCheck(f).value)
    else if cmd == IOCTL_QMI_GET_SERVICE_FILE then
      if arg % 0x100 == 0 then Fail(-EINVAL)
      else if f.handle.value != NO_CID then Fail(-EBADR)
      else AllocClient(arg % 0x100)
    else if cmd == IOCTL_QMI_GET_DEVICE_VIDPID then
      if arg == 0 then Fail(-EINVAL)
      else if !ids.usbnet || !ids.udev then Fail(-ENOMEM)
      else CopyVidPid(VidPid(ids))
    else if cmd == IOCTL_QMI_GET_DEVICE_MEID then
      if arg == 0 then Fail(-EINVAL)
      else CopyMeid
    else Fail(-EBADRQC)
  }

  /** The handle's id and the return value once client_alloc has answered a bind. */
  function BindOutcome(handleCid: u16, allocResult: int): (r: (u16, int))
    requires allocResult < 0x1_0000
    ensures allocResult < 0 ==> r == (handleCid, allocResult)
    ensures allocResult >= 0 ==> r == (allocResult, 0)
  {
    if allocResult < 0 then (handleCid, allocResult) else (allocResult, 0)
  }

  /** A successful bind closes the door behind it: once client_alloc has answered with an id
      other than 0xffff, the handle carries that id, the ioctl returned 0, and a second bind on the
      same handle is refused with -EBADR; a failed allocation leaves the handle unbound, so the
      bind may be retried. */
  lemma BindThenRebindRefused(allocResult: int, arg: nat, ids: UsbIds)
    requires allocResult < 0xffff && arg % 0x100 != 0
    ensures allocResult >= 0 ==>
              BindOutcome(NO_CID, allocResult) == (allocResult as u16, 0)
              && Ioctl(OpenFile(Some(BindOutcome(NO_CID, allocResult).0), true), IOCTL_QMI_GET_SERVICE_FILE, arg, ids)
                 == Fail(-EBADR)
    ensures allocResult < 0 ==>
              BindOutcome(NO_CID, allocResult).1 == allocResult
              && Ioctl(OpenFile(Some(BindOutcome(NO_CID, allocResult).0), true), IOCTL_QMI_GET_SERVICE_FILE, arg, ids)
                 == AllocClient(arg % 0x100)
  {
    var cid := BindOutcome(NO_CID, allocResult).0;
    assert allocResult >= 0 ==> cid != NO_CID;
  }

  /** The one id that does not close the door: an allocation answered with 0xffff is stored as it
      is, so the bound handle still reads as unbound and a second bind reaches client_alloc. */
  lemma BindOfAllOnesLooksUnbound(arg: nat, ids: UsbIds)
    requires arg % 0x100 != 0
    ensures BindOutcome(NO_CID, 0xffff) == (NO_CID, 0)
    ensures Ioctl(OpenFile(Some(BindOutcome(NO_CID, 0xffff).0), true), IOCTL_QMI_GET_SERVICE_FILE, arg, ids).AllocClient?
  {
  }

  /** A bind is the only way to reach client_alloc, and it happens exactly when the handle is
      unbound, the device valid and the low byte of the argument names a service other than the
      control service; a bound handle is refused with -EBADR whatever the argument. */
  lemma BindOnlyFromUnboundHandle(f: OpenFile, cmd: nat, arg: nat, ids: UsbIds)
    ensures Ioctl(f, cmd, arg, ids).AllocClient?
            <==> f.handle == Some(NO_CID) && f.devValid && cmd == IOCTL_QMI_GET_SERVICE_FILE && arg % 0x100 != 0
    ensures f.handle.Some? && f.handle.value != NO_CID && f.devValid && cmd == IOCTL_QMI_GET_SERVICE_FILE && arg % 0x100 != 0
            ==> Ioctl(f, cmd, arg, ids) == Fail(-EBADR)
  {
  }

  /** Userspace can never allocate the control client: the service type handed to client_alloc is
      never 0 (QMICTL), whatever the high bits of the argument. */
  lemma ControlServiceUnreachable(f: OpenFile, cmd: nat, arg: nat, ids: UsbIds)
    ensures Ioctl(f, cmd, arg, ids).AllocClient? ==> Ioctl(f, cmd, arg, ids).serviceType != 0
    ensures f.devValid && f.handle.Some? && cmd == IOCTL_QMI_GET_SERVICE_FILE && arg % 0x100 == 0
            ==> Ioctl(f, cmd, arg, ids) == Fail(-EINVAL)
  {
  }

  /** Only the three commands do anything; every other command is -EBADRQC on a valid handle. */
  lemma UnknownCommandRefused(f: OpenFile, cmd: nat, arg: nat, ids: UsbIds)
    requires FileCheck(f).None?
    requires cmd !in {IOCTL_QMI_GET_SERVICE_FILE, IOCTL_QMI_GET_DEVICE_VIDPID, IOCTL_QMI_GET_DEVICE_MEID}
    ensures Ioctl(f, cmd, arg, ids) == Fail(-EBADRQC)
  {
  }

  /** The result of the VIDPID and MEID ioctls as written: the count of bytes copy_to_user could
      not copy, so a fault is never reported as an error. */
  function CopyOutResult(uncopied: nat): (r: int)
    ensures r >= 0
    ensures r == 0 <==> uncopied == 0
  {
    uncopied
  }

  /** The same result with a fault reported as -EFAULT, the kernel's convention. */
  function CopyOutResultCorrected(uncopied: nat): (r: int)
    ensures r == 0 <==> uncopied == 0
    ensures r != 0 ==> r == -EFAULT
  {
    if uncopied == 0 then 0 else -EFAULT
  }

  /** As written, a copy-out that fails on 3 of the 4 VIDPID bytes returns 3: not an error code,
      yet not the 0 of success either. Corrected, exactly the failed copies are negative. */
  lemma CopyOutFaultIsNotAnError(uncopied: nat)
    ensures CopyOutResult(3) == 3
    ensures CopyOutResultCorrected(uncopied) < 0 <==> uncopied != 0
  {
  }

  /** The vendor and product ids are recovered from the word handed to userspace. */
  lemma VidPidSplits(ids: UsbIds)
    ensures VidPid(ids) / 0x1_0000 == ids.vendor && VidPid(ids) % 0x1_0000 == ids.product
  {
  }

  /** devqmi_read: the file checks, -EBADR on an unbound handle, then read_sync's result. A result
      that is not positive is returned as it is; otherwise the QMUX header is stripped and the rest
      is refused with -EOVERFLOW when it does not fit the user's buffer. The comparison is between
      an int and a size_t, so a negative remainder is compared as the huge unsigned value it
      converts to. */
  function DevRead(f: OpenFile, syncResult: int, qmuxSize: nat, userSize: u32, copyFault: bool): (r: int)
    requires syncResult < 0x1_0000
    ensures FileCheck(f).Some? ==> r == FileCheck(f).value
    ensures f.handle == Some(NO_CID) && f.devValid ==> r == -EBADR
    ensures FileCheck(f).None? && f.handle.value != NO_CID && syncResult <= 0 ==> r == syncResult
    ensures (FileCheck(f).None? && f.handle.value != NO_CID && syncResult > 0
             && (syncResult - qmuxSize) % 0x1_0000_0000 > userSize)
            ==> r == -EOVERFLOW
    ensures (FileCheck(f).None? && f.handle.value != NO_CID && syncResult > 0
             && (syncResult - qmuxSize) % 0x1_0000_0000 <= userSize && copyFault)
            ==> r == -EFAULT
    ensures r > 0 ==> FileCheck(f).None? && f.handle.value != NO_CID
                      && r == syncResult - qmuxSize && r <= userSize && !copyFault
  {
    if FileCheck(f).Some? then FileCheck(f).value
    else if f.handle.value == NO_CID then -EBADR
    else if syncResult <= 0 then syncResult
    else
      var result := syncResult - qmuxSize;
      if result % 0x1_0000_0000 > userSize then -EOVERFLOW
      else if copyFault then -EFAULT
      else result
  }

  /** A message shorter than the QMUX header (which read_callback never queues) would be refused as
      an overflow rather than read as a negative length. */
  lemma ShortReadIsOverflow(f: OpenFile, syncResult: int, qmuxSize: nat, userSize: u32, copyFault: bool)
    requires FileCheck(f).None? && f.handle.value != NO_CID
    requires 0 < syncResult < qmuxSize && syncResult < 0x1_0000 && qmuxSize - syncResult < 0x1_0000_0000 - userSize
    ensures DevRead(f, syncResult, qmuxSize, userSize, copyFault) == -EOVERFLOW
  {
  }

  /** A message that fits is read whole: its length after the header comes back. */
  lemma FittingReadSucceeds(f: OpenFile, syncResult: int, qmuxSize: nat, userSize: u32)
    requires FileCheck(f).None? && f.handle.value != NO_CID
    requires qmuxSize <= syncResult < 0x1_0000 && syncResult - qmuxSize <= userSize && syncResult > 0
    ensures DevRead(f, syncResult, qmuxSize, userSize, false) == syncResult - qmuxSize
  {
  }

  /** devqmi_write as written: the file checks, -EBADR on an unbound handle, then the count of bytes
      copy_from_user could not copy is returned as it is when it is not zero; otherwise write_sync
      runs on size + qmuxSize bytes, and the user's size is returned when all of them went out,
      write_sync's own result otherwise. */
  function DevWrite(f: OpenFile, size: nat, qmuxSize: nat, uncopied: nat, writeStatus: int): (r: int)
    ensures FileCheck(f).Some? ==> r == FileCheck(f).value
    ensures f.handle == Some(NO_CID) && f.devValid ==> r == -EBADR
    ensures FileCheck(f).None? && f.handle.value != NO_CID && uncopied != 0 ==> r == uncopied
    ensures FileCheck(f).None? && f.handle.value != NO_CID && uncopied == 0 && writeStatus == size + qmuxSize
            ==> r == size
    ensures FileCheck(f).None? && f.handle.value != NO_CID && uncopied == 0 && writeStatus != size + qmuxSize
            ==> r == writeStatus
  {
    if FileCheck(f).Some? then FileCheck(f).value
    else if f.handle.value == NO_CID then -EBADR
    else if uncopied != 0 then uncopied
    else if writeStatus == size + qmuxSize then size
    else writeStatus
  }

  /** The as-written write reports a failed user copy as a positive count: with 10 bytes asked and
      4 not copied it returns 4, which reads as a short successful write though nothing was sent. */
  lemma DevWriteReportsFaultAsCount()
    ensures DevWrite(OpenFile(Some(1), true), 10, 6, 4, 16) == 4
  {
  }

  /** devqmi_write with a failed user copy reported as -EFAULT, the kernel's convention. */
  function DevWriteCorrected(f: OpenFile, size: nat, qmuxSize: nat, uncopied: nat, writeStatus: int): (r: int)
    ensures FileCheck(f).Some? ==> r == FileCheck(f).value
    ensures f.handle == Some(NO_CID) && f.devValid ==> r == -EBADR
    ensures FileCheck(f).None? && f.handle.value != NO_CID && uncopied != 0 ==> r == -EFAULT
    ensures FileCheck(f).None? && f.handle.value != NO_CID && uncopied == 0
            ==> r == DevWrite(f, size, qmuxSize, uncopied, writeStatus)
  {
    if FileCheck(f).Some? then FileCheck(f).value
    else if f.handle.value == NO_CID then -EBADR
    else if uncopied != 0 then -EFAULT
    else if writeStatus == size + qmuxSize then size
    else writeStatus
  }

  /** With the correction a write never reports success it did not have: whenever write_sync sends
      only whole messages or fails with a negative errno, a non-negative return is exactly the
      user's size and means the copy succeeded and every byte went out. */
  lemma DevWriteCorrectedSuccessMeansSent(f: OpenFile, size: nat, qmuxSize: nat, uncopied: nat, writeStatus: int)
    requires writeStatus < 0 || writeStatus == size + qmuxSize
    ensures DevWriteCorrected(f, size, qmuxSize, uncopied, writeStatus) >= 0
            <==> FileCheck(f).None? && f.handle.value != NO_CID && uncopied == 0 && writeStatus == size + qmuxSize
    ensures DevWriteCorrected(f, size, qmuxSize, uncopied, writeStatus) >= 0
            ==> DevWriteCorrected(f, size, qmuxSize, uncopied, writeStatus) == size
  {
  }

  /** The as-written write breaks that promise: a non-negative return does not imply the copy
      succeeded. */
  lemma DevWriteAsWrittenBreaksSuccessMeansSent()
    ensures DevWrite(OpenFile(Some(1), true), 10, 6, 4, -EINVAL) >= 0
  {
  }
}
