/**
 * The event records the MTP gadget queues for its userspace engine, and the 50-byte buffer that
 * carries them: byte 0 holds the number of events, then each event follows as its code, its total
 * length (payload + 2) and its payload. A record that would not fit is refused.
 */
module MtpEvents {
  import opened KernelTypes

  const EVENTBUF_SIZE := 50

  const MTP_EVENT_DISCONNECTED: u8 := 0x01
  const MTP_EVENT_CONNECTED: u8 := 0x02
  const MTP_EVENT_EJECT: u8 := 0x03
  const MTP_EVENT_READ_ERROR: u8 := 0x04
  const MTP_EVENT_READ_RELEASED: u8 := 0x05
  const MTP_EVENT_CSR_CANCEL: u8 := 0x64
  const MTP_EVENT_CSR_GET_EVENT: u8 := 0x65
  const MTP_EVENT_CSR_DEVICE_RESET: u8 := 0x66
  const MTP_EVENT_CSR_GET_DEVICE_STATUS: u8 := 0x67

  /** One queued event: its code and the bytes copied after the length byte. */
  datatype Event = Event(code: u8, payload: seq<u8>)

  /** The bytes add_event writes for e; the length byte is an unsigned char. */
  function Record(e: Event): (r: seq<u8>)
    ensures |r| == |e.payload| + 2 && r[0] == e.code && r[2..] == e.payload
    ensures |e.payload| + 2 < 0x100 ==> r[1] == |r|
  {
    [e.code, (|e.payload| + 2) % 0x100] + e.payload
  }

  /** The records of es, oldest first, as they lie in the buffer after byte 0. */
  function EncodeAll(es: seq<Event>): seq<u8>
  {
    if es == [] then [] else Record(es[0]) + EncodeAll(es[1..])
  }

  /** The buffer index after es: the next free byte. */
  function Used(es: seq<Event>): nat
  {
    1 + |EncodeAll(es)|
  }

  /** add_event's overflow test: the record for e fits behind es. */
  predicate Fits(es: seq<Event>, e: Event)
  {
    Used(es) + |e.payload| + 2 <= EVENTBUF_SIZE
  }

  /** The queue after add_event(e): e at the tail when it fits, otherwise unchanged. */
  function Push(es: seq<Event>, e: Event): (r: seq<Event>)
    ensures Fits(es, e) ==> r == es + [e]
    ensures !Fits(es, e) ==> r == es
  {
    if Fits(es, e) then es + [e] else es
  }

  /** The whole buffer mtp_event_read hands out: the count, then the records. */
  function Image(es: seq<Event>): (r: seq<u8>)
    requires |es| < 0x100
    ensures |r| == Used(es) && r[0] == |es| && r[1..] == EncodeAll(es)
  {
    [|es|] + EncodeAll(es)
  }

  /** The records of a longer queue extend those of a shorter one by the new record. */
  lemma {:induction false} EncodeAllAppend(es: seq<Event>, e: Event)
    ensures EncodeAll(es + [e]) == EncodeAll(es) + Record(e)
  {
    if es == [] {
      assert [e][1..] == [];
    } else {
      assert (es + [e])[1..] == es[1..] + [e];
      EncodeAllAppend(es[1..], e);
    }
  }

  /** Every record takes at least two bytes. */
  lemma {:induction false} EncodeAllLength(es: seq<Event>)
    ensures |EncodeAll(es)| >= 2 * |es|
  {
    if es != [] {
      EncodeAllLength(es[1..]);
    }
  }

  /** A queue that fits the buffer holds at most 24 events, so its count fits byte 0. */
  lemma EventCountBound(es: seq<Event>)
    requires Used(es) <= EVENTBUF_SIZE
    ensures |es| <= 24
  {
    EncodeAllLength(es);
  }

  /** Pushing never overflows the buffer, and a refused event leaves the queue as it was. */
  lemma PushKeepsCapacity(es: seq<Event>, e: Event)
    requires Used(es) <= EVENTBUF_SIZE
    ensures Used(Push(es, e)) <= EVENTBUF_SIZE
    ensures Push(es, e) != es ==> Used(Push(es, e)) == Used(es) + |e.payload| + 2
  {
    if Fits(es, e) {
      EncodeAllAppend(es, e);
    }
  }

  /** What the userspace engine reads back: records parsed by their length bytes. */
  function DecodeAll(bs: seq<u8>): Option<seq<Event>>
    decreases |bs|
  {
    if bs == [] then Some([])
    else if |bs| < 2 || bs[1] < 2 || |bs| < bs[1] then None
    else match DecodeAll(bs[bs[1]..])
      case None => None
      case Some(rest) => Some([Event(bs[0], bs[2..bs[1]])] + rest)
  }

  /** Records short enough for their length byte are read back exactly. */
  predicate Representable(es: seq<Event>)
  {
    forall i :: 0 <= i < |es| ==> |es[i].payload| + 2 < 0x100
  }

  /** Decoding the records recovers the events, in order. */
  lemma {:induction false} DecodeEncode(es: seq<Event>)
    requires Representable(es)
    ensures DecodeAll(EncodeAll(es)) == Some(es)
  {
    if es != [] {
      var bs := EncodeAll(es);
      var r := Record(es[0]);
      assert bs == r + EncodeAll(es[1..]);
      assert bs[1] == |r|;
      assert bs[|r|..] == EncodeAll(es[1..]);
      assert bs[2..bs[1]] == es[0].payload;
      assert Representable(es[1..]) by {
        forall i | 0 <= i < |es[1..]| ensures |es[1..][i].payload| + 2 < 0x100 {
          assert es[1..][i] == es[i + 1];
        }
      }
      DecodeEncode(es[1..]);
      assert [es[0]] + es[1..] == es;
    }
  }

  /** Every event that ever fitted the 50-byte buffer is representable. */
  lemma {:induction false} FittingQueueRepresentable(es: seq<Event>)
    requires Used(es) <= EVENTBUF_SIZE
    ensures Representable(es)
  {
    if es != [] {
      assert EncodeAll(es) == Record(es[0]) + EncodeAll(es[1..]);
      FittingQueueRepresentable(es[1..]);
      forall i | 0 <= i < |es| ensures |es[i].payload| + 2 < 0x100 {
        if i > 0 {
          assert es[i] == es[1..][i - 1];
        }
      }
    }
  }

  /** The buffer the reader gets tells it how many events there are and what they were. */
  lemma ImageRoundTrip(es: seq<Event>)
    requires Used(es) <= EVENTBUF_SIZE
    ensures |es| < 0x100 && Image(es)[0] == |es| && DecodeAll(Image(es)[1..]) == Some(es)
  {
    EventCountBound(es);
    FittingQueueRepresentable(es);
    DecodeEncode(es);
  }
}
