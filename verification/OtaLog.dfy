/** The record of what the device and the system answered during a firmware upgrade, and when an upgrade
    has to give up because of it (app/ota_upgrade/ota_upgrade.c). */
module OtaLog {
  import opened FlashSpec

  const WRITE_RETRY_TIMES: nat := 10

  /** A write exchange for the chunk at an address, the opening of a device handle for the write threads, the
      creation of a thread, and the request for the stored checksum. */
  datatype Outcome =
    | Exchanged(at: nat, ok: bool)
    | Opened(ok: bool)
    | Created(ok: bool)
    | Answered(ok: bool)

  /** How often the chunk at that address has failed since it last went well. */
  function Failures(log: seq<Outcome>, at: nat): nat
    decreases |log|
  {
    if log == [] then 0
    else
      var last, before := log[|log| - 1], log[..|log| - 1];
      if !last.Exchanged? || last.at != at then Failures(before, at)
      else if last.ok then 0
      else Failures(before, at) + 1
  }

  /** A chunk has failed eleven times in a row, or something that is not tried again has failed. */
  predicate GaveUp(log: seq<Outcome>)
    decreases |log|
  {
    log != [] &&
    (GaveUp(log[..|log| - 1]) ||
     match log[|log| - 1]
     case Exchanged(at, _) => Failures(log, at) > WRITE_RETRY_TIMES
     case o => !o.ok)
  }

  /** No reason to give up, and no chunk left in failure. */
  ghost predicate Clean(log: seq<Outcome>) {
    !GaveUp(log) && forall at :: Failures(log, at) == 0
  }

  /** Everything since then went well. */
  predicate AllWell(was: seq<Outcome>, log: seq<Outcome>) {
    was <= log && forall k :: |was| <= k < |log| ==> log[k].ok
  }

  lemma NothingLogged()
    ensures Clean([])
  {
  }

  lemma OneMore(log: seq<Outcome>, o: Outcome)
    ensures forall at :: (Failures(log + [o], at) ==
      if !o.Exchanged? || o.at != at then Failures(log, at) else if o.ok then 0 else Failures(log, at) + 1)
    ensures GaveUp(log + [o]) <==>
      GaveUp(log) || if o.Exchanged? then Failures(log + [o], o.at) > WRITE_RETRY_TIMES else !o.ok
  {
    assert (log + [o])[..|log|] == log;
  }

  lemma GoodStaysClean(log: seq<Outcome>, o: Outcome)
    requires Clean(log) && o.ok
    ensures Clean(log + [o])
  {
    OneMore(log, o);
  }

  lemma BadOtherGivesUp(log: seq<Outcome>, o: Outcome)
    requires !o.Exchanged? && !o.ok
    ensures GaveUp(log + [o])
  {
    OneMore(log, o);
  }

  /** Only what went wrong since makes an upgrade give up. */
  lemma {:induction false} WellStaysClean(was: seq<Outcome>, log: seq<Outcome>)
    requires Clean(was) && AllWell(was, log)
    ensures Clean(log)
    decreases |log|
  {
    if log != was {
      var n := |log| - 1;
      hide Clean;
      WellStaysClean(was, log[..n]);
      GoodStaysClean(log[..n], log[n]);
      assert log == log[..n] + [log[n]];
    }
  }

  // One chunk, tried again and again.

  /** Only the chunk at that address is in failure, so many times. */
  ghost predicate Trying(log: seq<Outcome>, at: nat, failures: nat) {
    !GaveUp(log) && Failures(log, at) == failures && forall a :: a != at ==> Failures(log, a) == 0
  }

  lemma TryingAtFirst(log: seq<Outcome>, at: nat)
    requires Clean(log)
    ensures Trying(log, at, 0)
  {
  }

  lemma TriedAgain(log: seq<Outcome>, at: nat, failures: nat, ok: bool)
    requires Trying(log, at, failures)
    ensures var log' := log + [Exchanged(at, ok)];
      if ok then Clean(log')
      else if failures < WRITE_RETRY_TIMES then Trying(log', at, failures + 1)
      else GaveUp(log')
  {
    OneMore(log, Exchanged(at, ok));
    hide Failures, GaveUp;
  }

  // Several threads at once.

  /** A write thread: about to test for its i-th chunk, writing it after so many failures, or done with
      so many bytes written. */
  datatype Worker = Test(i: nat) | Write(i: nat, failures: nat) | Finished(bytes: nat)

  function ChunkAt(addr: nat, len: nat, t: nat, i: nat): nat {
    addr + t * len + i * WRITE_MAX_SIZE
  }

  predicate Writes(ws: seq<Worker>, t: nat, addr: nat, len: nat, at: nat)
    requires t < |ws|
  {
    ws[t].Write? && at == ChunkAt(addr, len, t, ws[t].i)
  }

  ghost predicate SomeoneWrites(ws: seq<Worker>, addr: nat, len: nat, at: nat) {
    exists t :: 0 <= t < |ws| && Writes(ws, t, addr, len, at)
  }

  predicate CountRight(log: seq<Outcome>, w: Worker, t: nat, addr: nat, len: nat) {
    w.Write? ==>
      w.i < Chunks(len) && w.failures <= WRITE_RETRY_TIMES && Failures(log, ChunkAt(addr, len, t, w.i)) == w.failures
  }

  /** Every thread counts its own failures right, and nothing else is in failure. */
  ghost predicate Tracked(log: seq<Outcome>, ws: seq<Worker>, addr: nat, len: nat) {
    && !GaveUp(log)
    && (forall t :: 0 <= t < |ws| ==> CountRight(log, ws[t], t, addr, len))
    && (forall at :: Failures(log, at) > 0 ==> SomeoneWrites(ws, addr, len, at))
  }

  /** Different chunks stand at different addresses. */
  lemma ChunksDiffer(addr: nat, len: nat, t: nat, i: nat, t': nat, i': nat)
    requires i < Chunks(len) && i' < Chunks(len) && ChunkAt(addr, len, t, i) == ChunkAt(addr, len, t', i')
    ensures t == t' && i == i'
  {
    var r, r' := i * WRITE_MAX_SIZE, i' * WRITE_MAX_SIZE;
    assert r < len && r' < len;
    InBlock(t * len + r, t, len, r);
    InBlock(t' * len + r', t', len, r');
  }

  lemma TrackedAtFirst(log: seq<Outcome>, addr: nat, len: nat)
    requires Clean(log)
    ensures Tracked(log, [], addr, len)
  {
  }

  lemma TrackedAtLast(log: seq<Outcome>, ws: seq<Worker>, addr: nat, len: nat)
    requires Tracked(log, ws, addr, len) && forall t :: 0 <= t < |ws| ==> ws[t].Finished?
    ensures Clean(log)
  {
  }

  lemma TrackedNew(log: seq<Outcome>, ws: seq<Worker>, addr: nat, len: nat)
    requires Tracked(log, ws, addr, len)
    ensures Tracked(log + [Created(true)], ws + [Test(0)], addr, len)
  {
    OneMore(log, Created(true));
    hide Failures, GaveUp, ChunkAt;
    var ws', log' := ws + [Test(0)], log + [Created(true)];
    forall at | Failures(log', at) > 0
      ensures SomeoneWrites(ws', addr, len, at)
    {
      var t :| 0 <= t < |ws| && Writes(ws, t, addr, len, at);
      assert Writes(ws', t, addr, len, at);
    }
  }

  /** A step without an exchange. */
  lemma TrackedQuietly(log: seq<Outcome>, ws: seq<Worker>, t: nat, w: Worker, addr: nat, len: nat)
    requires t < |ws| && Tracked(log, ws, addr, len) && ws[t].Test?
    requires w.Finished? || (w == Write(ws[t].i, 0) && w.i < Chunks(len))
    ensures Tracked(log, ws[t := w], addr, len)
  {
    hide Failures, GaveUp, ChunkAt, Chunks;
    var ws' := ws[t := w];
    if w.Write? && Failures(log, ChunkAt(addr, len, t, w.i)) > 0 {
      var u :| 0 <= u < |ws| && Writes(ws, u, addr, len, ChunkAt(addr, len, t, w.i));
      assert CountRight(log, ws[u], u, addr, len);
      ChunksDiffer(addr, len, u, ws[u].i, t, w.i);
    }
    forall at | Failures(log, at) > 0
      ensures SomeoneWrites(ws', addr, len, at)
    {
      var u :| 0 <= u < |ws| && Writes(ws, u, addr, len, at);
      assert Writes(ws', u, addr, len, at);
    }
  }

  /** One exchange for the chunk that thread t is writing. */
  lemma TrackedExchange(log: seq<Outcome>, ws: seq<Worker>, t: nat, w: Worker, addr: nat, len: nat, ok: bool)
    requires t < |ws| && Tracked(log, ws, addr, len) && ws[t].Write?
    requires w == if ok then Test(ws[t].i + 1) else Write(ws[t].i, ws[t].failures + 1)
    ensures var log' := log + [Exchanged(ChunkAt(addr, len, t, ws[t].i), ok)];
      if ok || ws[t].failures < WRITE_RETRY_TIMES then Tracked(log', ws[t := w], addr, len) else GaveUp(log')
  {
    var at := ChunkAt(addr, len, t, ws[t].i);
    OneMore(log, Exchanged(at, ok));
    hide Failures, GaveUp, ChunkAt, Chunks;
    assert CountRight(log, ws[t], t, addr, len);
    if ok || ws[t].failures < WRITE_RETRY_TIMES {
      var log', ws' := log + [Exchanged(at, ok)], ws[t := w];
      forall u | 0 <= u < |ws|
        ensures CountRight(log', ws'[u], u, addr, len)
      {
        assert CountRight(log, ws[u], u, addr, len);
        if u != t && ws[u].Write? && ChunkAt(addr, len, u, ws[u].i) == at {
          ChunksDiffer(addr, len, u, ws[u].i, t, ws[t].i);
        }
      }
      forall a | Failures(log', a) > 0
        ensures SomeoneWrites(ws', addr, len, a)
      {
        if a == at {
          assert Writes(ws', t, addr, len, a);
        } else {
          var u :| 0 <= u < |ws| && Writes(ws, u, addr, len, a);
          assert Writes(ws', u, addr, len, a);
        }
      }
    }
  }
}
