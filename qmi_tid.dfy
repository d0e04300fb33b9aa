/**
 * The transaction ids the driver draws for its own control requests (get a client id, release a
 * client id). They come from one atomic counter, set to 1 at registration, truncated to the u8 a
 * control message carries. Tid 0 is reserved: read_sync treats it as "any reply", so a draw that
 * lands on 0 is skipped.
 */
module QmiTid {
  import opened KernelTypes
  import opened QmiQueues

  /** qc_register's initial counter value. */
  const INITIAL_COUNTER := 1

  /** One draw: atomic_add_return(1, ...) returns the incremented counter, which the u8 truncates. */
  function Draw(counter: int): (r: (u8, int))
    ensures r.1 == counter + 1 && r.0 == (counter + 1) % 0x100
  {
    ((counter + 1) % 0x100, counter + 1)
  }

  /** The draw with the 0-skip assigned back, as client_free writes it, and as client_alloc
      evidently intends: the tid and the new counter. */
  function NextTid(counter: int): (r: (u8, int))
    ensures r.0 != 0
    ensures r.1 == counter + 1 || r.1 == counter + 2
    ensures r.0 == r.1 % 0x100
  {
    var (tid, c1) := Draw(counter);
    if tid == 0 then Draw(c1) else (tid, c1)
  }

  /** client_alloc's draw as written: the second increment's result is dropped, so tid stays 0. */
  function AllocTidAsWritten(counter: int): (r: (u8, int))
    ensures r.0 == (counter + 1) % 0x100
    ensures r.1 == (if (counter + 1) % 0x100 == 0 then counter + 2 else counter + 1)
  {
    var (tid, c1) := Draw(counter);
    if tid == 0 then (tid, Draw(c1).1) else (tid, c1)
  }

  /** The two draws differ only when the low byte wraps; otherwise they agree exactly. */
  lemma AllocAgreesUnlessWrap(counter: int)
    ensures (counter + 1) % 0x100 != 0 <==> AllocTidAsWritten(counter) == NextTid(counter)
  {
  }

  /** After registration, the 255th draw is the one that wraps: counter 255 makes client_alloc send
      its request with tid 0, and read_sync(QMICTL, 0) then takes whatever control message is
      queued first, not necessarily the reply to this request. */
  lemma AllocTidAsWrittenSendsWildcard(reply: ReadReq)
    ensures AllocTidAsWritten(INITIAL_COUNTER + 254).0 == 0
    ensures ReadFor(AllocTidAsWritten(INITIAL_COUNTER + 254).0)(reply)
  {
  }

  /** With the skip assigned back, a waiter's tid is never the wildcard: read_sync only takes a
      reply carrying its own tid. */
  lemma NextTidMatchesOnlyItsReply(counter: int, reply: ReadReq)
    ensures ReadFor(NextTid(counter).0)(reply) <==> reply.tid == NextTid(counter).0
  {
  }

  /** The counter as a sequence of corrected draws from registration: the tids of n successive
      draws as client_free and qmi_ready make them (client_alloc's draw differs at the wrap). */
  function TidsFrom(counter: int, n: nat): (r: seq<u8>)
    ensures |r| == n
    ensures forall j :: 0 <= j < n ==> r[j] != 0
    decreases n
  {
    if n == 0 then [] else [NextTid(counter).0] + TidsFrom(NextTid(counter).1, n - 1)
  }

  /** The non-zero u8 after t, cyclically: the order in which the tids come out. */
  function Succ(t: u8): (r: u8)
    requires t != 0
    ensures r != 0
    ensures r - 1 == t % 255
  {
    if t == 255 then 1 else t + 1
  }

  /** Each draw yields the tid after the previous one, skipping 0. */
  lemma NextTidIsSucc(counter: int)
    ensures NextTid(NextTid(counter).1).0 == Succ(NextTid(counter).0)
  {
  }

  /** Draw m of a sequence is the first tid moved m places round the 255 non-zero values. */
  lemma {:induction false} TidsCycle(counter: int, n: nat, m: nat)
    requires m < n
    ensures TidsFrom(counter, n)[m] - 1 == (TidsFrom(counter, n)[0] - 1 + m) % 255
    decreases m
  {
    if m > 0 {
      var c1 := NextTid(counter).1;
      TidsCycle(c1, n - 1, m - 1);
      NextTidIsSucc(counter);
      assert TidsFrom(counter, n)[m] == TidsFrom(c1, n - 1)[m - 1];
      assert TidsFrom(c1, n - 1)[0] - 1 == TidsFrom(counter, n)[0] % 255;
      ModShift(TidsFrom(counter, n)[0], m);
    }
  }

  /** (t % 255 + m - 1) % 255 == (t - 1 + m) % 255, for t >= 1 and m >= 1. */
  lemma ModShift(t: int, m: nat)
    requires 1 <= t <= 255 && m >= 1
    ensures (t % 255 + m - 1) % 255 == (t - 1 + m) % 255
  {
    if t == 255 {
      assert t % 255 + m - 1 == (t - 1 + m) - 255;
    }
  }

  /** 255 successive draws of client_free and qmi_ready carry 255 different tids: a reply can
      only be mistaken for the reply to a request at least 255 draws older. */
  lemma TidsDistinctWithinWindow(counter: int, n: nat, i: nat, j: nat)
    requires n <= 255 && i < j < n
    ensures TidsFrom(counter, n)[i] != TidsFrom(counter, n)[j]
  {
    TidsCycle(counter, n, i);
    TidsCycle(counter, n, j);
    var t := TidsFrom(counter, n)[0] - 1;
    assert 0 < j - i < 255;
    assert (t + i) % 255 != (t + j) % 255;
  }
}
