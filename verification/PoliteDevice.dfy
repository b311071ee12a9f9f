/** When a socket can be left parked although nothing was lost: runs without loss in which the device
    refuses every pack that it does not take whole. */
module PoliteDevice {
  import opened RingBuffers
  import opened SocketSpec
  import opened WindowInvariant
  import opened GoBackN

  /** The device does not take all of the next pack. */
  predicate FallsShort(s: System, e: Event) {
    && e.DevTake? && s.fwd != []
    && (s.fwd[0].pos != |s.dev| || e.room < |s.fwd[0].data|)
  }

  /** Nothing is lost, and a refusal follows at once whenever the device falls short. */
  predicate Polite(s: System, events: seq<Event>)
    requires Inv(s)
    decreases |events|
  {
    if events == [] then true
    else
      StepKeeps(s, events[0]);
      var t := Apply(s, events[0]);
      && !events[0].Lose?
      && if FallsShort(s, events[0]) then
           && |events| > 1 && events[1].DevRefuse?
           && (StepKeeps(t, events[1]); Polite(Apply(t, events[1]), events[2..]))
         else Polite(t, events[1..])
  }

  /** The packs continue each other from position at on. */
  predicate Straight(fwd: seq<Packet>, at: nat) {
    if fwd == [] then true else fwd[0].pos == at && Straight(fwd[1..], at + |fwd[0].data|)
  }

  function LineEnd(fwd: seq<Packet>, at: nat): nat {
    if fwd == [] then at else LineEnd(fwd[1..], at + |fwd[0].data|)
  }

  lemma {:induction false} StraightAppend(fwd: seq<Packet>, at: nat, p: Packet)
    ensures Straight(fwd + [p], at) <==> Straight(fwd, at) && p.pos == LineEnd(fwd, at)
    ensures LineEnd(fwd + [p], at) == LineEnd(fwd, at) + |p.data|
    decreases |fwd|
  {
    if fwd == [] {
      assert [p][1..] == [];
    } else {
      assert (fwd + [p])[1..] == fwd[1..] + [p];
      StraightAppend(fwd[1..], at + |fwd[0].data|, p);
    }
  }

  lemma {:induction false} LineGrows(fwd: seq<Packet>, at: nat)
    ensures at <= LineEnd(fwd, at)
    decreases |fwd|
  {
    if fwd != [] {
      LineGrows(fwd[1..], at + |fwd[0].data|);
    }
  }

  predicate RewindUnderWay(s: System) {
    exists p :: p in s.back && IsRewind(p)
  }

  /** With no rewind to come, and no pack to come that must be refused, the send position is not beyond
      what the device will then have. */
  predicate Reaching(s: System) {
    IsOpen(s.w) && !RewindUnderWay(s) && Straight(s.fwd, |s.dev|) ==> s.w.wr <= LineEnd(s.fwd, |s.dev|)
  }

  /** Only a socket that is being closed has lost its application. */
  predicate AttachedWhileOpen(w: Window) {
    !w.attached ==> w.sta == NeedSendClose || w.sta == WaitUsbClose
  }

  lemma AttachedStays(s: System, e: Event)
    requires Inv(s) && AttachedWhileOpen(s.w)
    ensures AttachedWhileOpen(Apply(s, e).w)
  {
    hide WindowInv, ForwardOk, BackOk, Peek, Complete;
  }

  /** In no run of whole steps does the pack handler find an open or opening socket whose application is
      gone: both of its branches for that case need another thread between its two looks. */
  lemma {:induction false} GoneMeansClosing(s: System, events: seq<Event>)
    requires Inv(s) && AttachedWhileOpen(s.w)
    ensures AttachedWhileOpen(Run(s, events).w)
    decreases |events|
  {
    if events != [] {
      StepKeeps(s, events[0]);
      AttachedStays(s, events[0]);
      GoneMeansClosing(Apply(s, events[0]), events[1..]);
    }
  }

  // The steps.

  lemma RewindStays(s: System, t: System)
    requires RewindUnderWay(s) && s.back <= t.back
    ensures RewindUnderWay(t)
  {
    var p :| p in s.back && IsRewind(p);
    assert p in t.back;
  }

  /** What a step other than receiving, taking, losing and the sender's turn leaves as it is. */
  lemma OthersLeave(s: System, e: Event)
    requires Inv(s) && !e.DaemonReceive? && !e.DevTake? && !e.SendTurn? && !e.Lose?
    ensures var t := Apply(s, e);
      && t.fwd == s.fwd && t.dev == s.dev && s.back <= t.back
      && t.w.wr == s.w.wr && t.w.head == s.w.head && (IsOpen(t.w) ==> IsOpen(s.w))
      && (t.acked == s.acked || (e.DevAck? && t.back == s.back + [DevPack(SoWrite, e.len, e.pos)]
            && t.acked == e.pos + e.len))
  {
    hide WindowInv, ForwardOk, BackOk, Taken;
  }

  /** A step other than the daemon's receiving, the device's taking and the sender's turn. */
  lemma OthersReach(s: System, e: Event)
    requires Inv(s) && Reaching(s)
    requires !e.DaemonReceive? && !e.DevTake? && !e.SendTurn? && !e.Lose?
    ensures Reaching(Apply(s, e))
  {
    var t := Apply(s, e);
    OthersLeave(s, e);
    hide Inv, Apply, RewindUnderWay, Straight, LineEnd;
    if RewindUnderWay(s) {
      RewindStays(s, t);
    }
  }

  /** What the sender's turn changes. */
  lemma TurnMakes(s: System)
    requires Inv(s)
    ensures var t, made := Apply(s, SendTurn), MakePack(s.w).1;
      && t.back == s.back && t.dev == s.dev && t.w.head == s.w.head && t.acked == s.acked
      && (IsOpen(t.w) ==> IsOpen(s.w))
      && if made.None? then t.fwd == s.fwd && t.w.wr == s.w.wr
         else t.fwd == s.fwd + [made.value] && made.value.pos == s.w.wr && t.w.wr == s.w.wr + |made.value.data|
  {
    hide WindowInv, ForwardOk, BackOk, Peek;
  }

  lemma TurnReaches(s: System)
    requires Inv(s) && Reaching(s)
    ensures Reaching(Apply(s, SendTurn))
  {
    var made := MakePack(s.w).1;
    TurnMakes(s);
    hide Inv, Apply, MakePack, RewindUnderWay, Straight, LineEnd;
    if made.Some? {
      StraightAppend(s.fwd, |s.dev|, made.value);
    }
    if RewindUnderWay(s) {
      RewindStays(s, Apply(s, SendTurn));
    }
  }

  lemma TakeReaches(s: System, room: nat)
    requires Inv(s) && Reaching(s) && !FallsShort(s, DevTake(room))
    ensures Reaching(Apply(s, DevTake(room)))
  {
    hide WindowInv, BackOk, ForwardOk;
    if s.fwd != [] {
      assert s.fwd[0].data[..|s.fwd[0].data|] == s.fwd[0].data;
    }
  }

  lemma RefusalReaches(s: System)
    requires Inv(s)
    ensures Reaching(Apply(s, DevRefuse))
  {
    var p := DevPack(SoWrite, WRONG_POSITION, |s.dev|);
    assert p in Apply(s, DevRefuse).back && IsRewind(p);
    hide Inv;
  }

  lemma ReceiveReaches(s: System)
    requires Inv(s) && AttachedWhileOpen(s.w) && Reaching(s)
    ensures Reaching(Apply(s, DaemonReceive))
  {
    if s.back != [] {
      var p, w := s.back[0], Receive(s.w, s.back[0]);
      if !IsOpen(w) {
        return;
      }
      ReceiveMoves(s.w, p);
      BackDelivers(s.back, s.w.head, |s.dev|, s.w.head);
      LineGrows(s.fwd, |s.dev|);
      assert RewindUnderWay(s) ==> IsRewind(p) || RewindUnderWay(Apply(s, DaemonReceive)) by {
        if RewindUnderWay(s) && !IsRewind(p) {
          var q :| q in s.back && IsRewind(q);
          assert q in s.back[1..];
        }
      }
      hide Inv, Receive, Straight, RewindUnderWay;
    }
  }

  lemma ReceiveMoves(w: Window, p: DevPack)
    requires WindowInv(w) && AttachedWhileOpen(w) && IsOpen(Receive(w, p))
    ensures if IsOpen(w) then Receive(w, p).wr == (if IsRewind(p) then p.pos else w.wr)
      else Receive(w, p).wr == 0
  {
    hide Peek, Complete;
  }

  lemma StepReaches(s: System, e: Event)
    requires Inv(s) && AttachedWhileOpen(s.w) && Reaching(s) && !e.Lose? && !FallsShort(s, e)
    ensures Reaching(Apply(s, e))
  {
    hide Inv, Apply, Reaching, AttachedWhileOpen;
    match e
    case SendTurn => TurnReaches(s);
    case DevTake(room) => TakeReaches(s, room);
    case DaemonReceive => ReceiveReaches(s);
    case _ => OthersReach(s, e);
  }

  /** A polite run without loss keeps the send position within reach. */
  lemma {:induction false} PoliteReaches(s: System, events: seq<Event>)
    requires Inv(s) && AttachedWhileOpen(s.w) && Reaching(s) && Polite(s, events)
    ensures Reaching(Run(s, events)) && AttachedWhileOpen(Run(s, events).w)
    decreases |events|
  {
    hide Inv, Apply, Reaching, AttachedWhileOpen;
    RingFits(s);
    if events != [] {
      var t := Apply(s, events[0]);
      StepKeeps(s, events[0]);
      RingFits(t);
      AttachedStays(s, events[0]);
      if FallsShort(s, events[0]) {
        assert events[1..][1..] == events[2..] && events[1..][0] == events[1];
        StepKeeps(t, events[1]);
        AttachedStays(t, events[1]);
        RefusalReaches(t);
        PoliteReaches(Apply(t, events[1]), events[2..]);
      } else {
        StepReaches(s, events[0]);
        PoliteReaches(t, events[1..]);
      }
    }
  }

  /** Parked for the device, nothing under way, and all that the device took acknowledged. */
  predicate Parked(s: System) {
    s.w.sta == WaitUsbData && s.fwd == [] && s.back == [] && s.acked == |s.dev|
  }

  /** Exactly when a polite run without loss strands a socket: parked, with everything the device took
      acknowledged, some bytes are not released if and only if the device has acknowledged beyond the
      head, that is, an acknowledgement was discarded. Unsent bytes are left only then. */
  lemma StrandedIff(size: nat, chunk: nat, events: seq<Event>)
    requires size < U32 && 0 < chunk
    requires Polite(Start(size, chunk), events) && Parked(Run(Start(size, chunk), events))
    ensures var s := Run(Start(size, chunk), events);
      && (s.w.head < |s.w.stream| <==> s.w.head < s.acked)
      && (s.w.wr < |s.w.stream| ==> s.w.head < s.acked)
  {
    PoliteReaches(Start(size, chunk), events);
    RoomNeverStalls(size, chunk, events);
    ParkedIff(Run(Start(size, chunk), events));
  }

  lemma ParkedIff(s: System)
    requires Inv(s) && Reaching(s) && Parked(s) && NotStalled(s.w)
    ensures s.w.head < |s.w.stream| <==> s.w.head < s.acked
    ensures s.w.wr < |s.w.stream| ==> s.w.head < s.acked
  {
    assert !RewindUnderWay(s);
    assert s.w.wr <= |s.dev|;
  }

  // Acknowledgements that count.

  /** The next pack acknowledges beyond the send position and is ignored. */
  predicate Discards(s: System, e: Event) {
    && e.DaemonReceive? && s.back != []
    && IsOpen(s.w) && IsAck(s.back[0]) && s.w.wr < s.back[0].pos + s.back[0].sta
  }

  predicate NoneDiscarded(s: System, events: seq<Event>)
    requires Inv(s)
    decreases |events|
  {
    if events == [] then true
    else
      StepKeeps(s, events[0]);
      !Discards(s, events[0]) && NoneDiscarded(Apply(s, events[0]), events[1..])
  }

  predicate AckToCome(s: System) {
    exists p :: p in s.back && IsAck(p) && s.acked <= p.pos + p.sta
  }

  /** The highest acknowledgement has reached the head or is still under way. */
  predicate Credited(s: System) {
    IsOpen(s.w) ==> s.acked <= s.w.head || AckToCome(s)
  }

  lemma TakeLeaves(s: System, e: Event)
    requires Inv(s) && (e.DevTake? || e.Lose?)
    ensures Apply(s, e).w == s.w && Apply(s, e).back == s.back && Apply(s, e).acked == s.acked
  {
    hide Inv, Take;
  }

  lemma CreditStays(s: System, t: System)
    requires Credited(s) && t.acked == s.acked && t.w.head == s.w.head && s.back <= t.back
    requires IsOpen(t.w) ==> IsOpen(s.w)
    ensures Credited(t)
  {
    if AckToCome(s) {
      var p :| p in s.back && IsAck(p) && s.acked <= p.pos + p.sta;
      assert p in t.back;
    }
  }

  lemma OthersCredit(s: System, e: Event)
    requires Inv(s) && Credited(s) && !e.DaemonReceive?
    ensures Credited(Apply(s, e))
  {
    var t := Apply(s, e);
    if e.DevTake? || e.Lose? {
      TakeLeaves(s, e);
    } else if e.SendTurn? {
      TurnMakes(s);
    } else {
      OthersLeave(s, e);
    }
    hide Inv, Apply, MakePack, Credited;
    if t.acked == s.acked {
      CreditStays(s, t);
    } else {
      NewCredit(t, DevPack(SoWrite, e.len, e.pos));
    }
  }

  lemma NewCredit(t: System, p: DevPack)
    requires p in t.back && IsAck(p) && t.acked <= p.pos + p.sta
    ensures Credited(t)
  {
  }

  lemma ReceiveCredits(s: System)
    requires Inv(s) && Credited(s) && AttachedWhileOpen(s.w) && !Discards(s, DaemonReceive)
    ensures Credited(Apply(s, DaemonReceive))
  {
    if s.back != [] && IsOpen(Receive(s.w, s.back[0])) {
      var p, t := s.back[0], Apply(s, DaemonReceive);
      ReceiveHead(s.w, p);
      if IsOpen(s.w) && AckToCome(s) {
        var q :| q in s.back && IsAck(q) && s.acked <= q.pos + q.sta;
        assert q == p || q in t.back;
      }
      assert !IsOpen(s.w) ==> s.acked <= |s.dev| <= |s.w.stream| && s.w.stream == [];
      hide Inv, Receive;
    }
  }

  lemma ReceiveHead(w: Window, p: DevPack)
    requires WindowInv(w) && AttachedWhileOpen(w)
    ensures w.head <= Receive(w, p).head
    ensures IsOpen(w) && IsAck(p) && p.pos + p.sta <= w.wr ==> p.pos + p.sta <= Receive(w, p).head
  {
    hide Peek, Complete;
  }

  lemma {:induction false} RunCredits(s: System, events: seq<Event>)
    requires Inv(s) && AttachedWhileOpen(s.w) && Credited(s) && NoneDiscarded(s, events)
    ensures Credited(Run(s, events))
    decreases |events|
  {
    hide Inv, Apply, Credited, AttachedWhileOpen, Discards;
    RingFits(s);
    if events != [] {
      StepKeeps(s, events[0]);
      AttachedStays(s, events[0]);
      if events[0].DaemonReceive? {
        ReceiveCredits(s);
      } else {
        OthersCredit(s, events[0]);
      }
      RunCredits(Apply(s, events[0]), events[1..]);
    }
  }

  /** As long as every acknowledgement arrives at a send position not below its end, a polite run without
      loss never parks with anything left: what is parked has been sent, taken and released whole. */
  lemma NeverStrandedUndiscarded(size: nat, chunk: nat, events: seq<Event>)
    requires size < U32 && 0 < chunk && Polite(Start(size, chunk), events)
    requires NoneDiscarded(Start(size, chunk), events) && Parked(Run(Start(size, chunk), events))
    ensures var s := Run(Start(size, chunk), events);
      s.w.head == s.w.wr == |s.w.stream| && s.dev == s.w.stream
  {
    StrandedIff(size, chunk, events);
    RunCredits(Start(size, chunk), events);
  }
}
