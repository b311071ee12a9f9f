/** What the send turns of one socket come to: everything unsent goes out in full packs, and what opens,
    closes and resumes the sending (daemon/sock_node.c). */
module Sending {
  import opened Bytes
  import opened SocketSpec
  import opened WindowInvariant
  import opened GoBackN

  /** A socket that may send makes no pack if and only if nothing is unsent; a pack it makes holds as much
      as is unsent and fits, whatever is outstanding, and the socket goes on sending. */
  lemma SendsIff(w: Window)
    requires WindowInv(w) && w.sta == CanSendData && w.chunk > 0
    ensures MakePack(w).1.None? <==> w.wr == |w.stream|
    ensures var n := Min(w.chunk, |w.stream| - w.wr);
      MakePack(w) ==
        if w.wr == |w.stream| then (w.(sta := WaitUsbData), None)
        else (w.(wr := w.wr + n), Some(Packet(w.wr, w.stream[w.wr..w.wr + n])))
  {
    assert Unsent(w) == w.wr - w.head;
    var n := Min(w.chunk, |w.stream| - w.wr);
    assert w.ring == w.stream[w.head..];
    assert Peek(w.ring, Unsent(w), w.chunk) == w.stream[w.wr..w.wr + n];
  }

  /** The scan takes an open socket for one that wants the sender if and only if a turn would make a pack, which
      is if and only if something is unsent; it leaves the socket as it is. */
  lemma NeedWriteIff(w: Window)
    requires WindowInv(w) && w.sta == CanSendData && w.attached && w.chunk > 0
    ensures NeedWrite(w).0 == w
    ensures NeedWrite(w).1 <==> w.wr < |w.stream|
    ensures NeedWrite(w).1 <==> MakePack(w).1.Some?
  {
    SendsIff(w);
    assert Unsent(w) == w.wr - w.head;
  }

  // Runs of send turns.

  function Turns(n: nat): seq<Event> {
    seq(n, _ => SendTurn)
  }

  /** The bytes that packs carry, one pack after the other. */
  function Carried(packs: seq<Packet>): seq<byte> {
    if packs == [] then [] else packs[0].data + Carried(packs[1..])
  }

  /** Each pack starts where the one before ended, none is empty, and all but the last are full. */
  predicate InARow(packs: seq<Packet>, from: nat, chunk: nat)
    decreases |packs|
  {
    packs == [] ||
    (packs[0].pos == from && 0 < |packs[0].data| <= chunk && (|packs| > 1 ==> |packs[0].data| == chunk)
      && InARow(packs[1..], from + |packs[0].data|, chunk))
  }

  /** Turn after turn: these packs have been sent, and nothing is left to send. */
  predicate AllSent(s: System, t: System, packs: seq<Packet>) {
    && t == s.(w := s.w.(wr := |s.w.stream|, sta := WaitUsbData), fwd := s.fwd + packs)
    && s.w.wr <= |s.w.stream| && Carried(packs) == s.w.stream[s.w.wr..]
    && InARow(packs, s.w.wr, s.w.chunk)
  }

  lemma TurnsNext(n: nat)
    requires n > 0
    ensures Turns(n) == [SendTurn] + Turns(n - 1)
  {
  }

  lemma {:induction false} ParkedStays(s: System, n: nat)
    requires Inv(s) && s.w.sta == WaitUsbData
    ensures Run(s, Turns(n)) == s
  {
    hide Inv;
    if n > 0 {
      TurnsNext(n);
      RingFits(s);
      assert Apply(s, SendTurn) == s;
      ParkedStays(s, n - 1);
    }
  }

  lemma OneTurn(s: System, n: nat)
    requires Inv(s) && n > 0
    ensures |s.w.ring| <= s.w.size && Inv(Apply(s, SendTurn))
    ensures Run(s, Turns(n)) == Run(Apply(s, SendTurn), Turns(n - 1))
  {
    RingFits(s);
    StepKeeps(s, SendTurn);
    hide Inv, Apply;
    TurnsNext(n);
    assert Turns(n)[1..] == Turns(n - 1);
  }

  function NextPack(w: Window): Packet
    requires w.wr <= |w.stream|
  {
    Packet(w.wr, w.stream[w.wr..w.wr + Min(w.chunk, |w.stream| - w.wr)])
  }

  /** What the turn of a socket comes to that may send and has unsent bytes. */
  function WithPack(s: System): System
    requires s.w.wr <= |s.w.stream|
  {
    s.(w := s.w.(wr := s.w.wr + |NextPack(s.w).data|), fwd := s.fwd + [NextPack(s.w)])
  }

  function Parked(s: System): System {
    s.(w := s.w.(sta := WaitUsbData))
  }

  lemma ParkedIs(s: System)
    ensures Parked(s).w.sta == WaitUsbData
  {
  }

  lemma TurnMakes(s: System)
    requires Inv(s) && s.w.sta == CanSendData && s.w.chunk > 0
    ensures |s.w.ring| <= s.w.size && s.w.wr <= |s.w.stream|
    ensures Apply(s, SendTurn) == if s.w.wr == |s.w.stream| then Parked(s) else WithPack(s)
  {
    RingFits(s);
    SendsIff(s.w);
    hide WindowInv, ForwardOk, BackOk, MakePack;
  }

  lemma OnePackFirst(s: System, t: System, packs: seq<Packet>)
    requires s.w.wr < |s.w.stream| && s.w.chunk > 0 && AllSent(WithPack(s), t, packs)
    ensures AllSent(s, t, [NextPack(s.w)] + packs)
  {
    var p := NextPack(s.w);
    var n := |p.data|;
    assert s.fwd + [p] + packs == s.fwd + ([p] + packs);
    assert ([p] + packs)[1..] == packs;
    assert s.w.stream[s.w.wr..] == p.data + s.w.stream[s.w.wr + n..];
    assert packs != [] ==> |Carried(packs)| > 0;
  }

  lemma WithPackGoesOn(s: System)
    requires s.w.sta == CanSendData && s.w.wr < |s.w.stream| && s.w.chunk > 0
    ensures var m := WithPack(s);
      && m.w.sta == CanSendData && m.w.chunk == s.w.chunk
      && s.w.wr < m.w.wr <= |m.w.stream| == |s.w.stream|
  {
  }

  /** As many turns as there are bytes unsent, and one more, put exactly the unsent bytes on the channel, in
      order and in full packs, without any reply in between, and park the socket. */
  lemma {:induction false} TurnsSendAll(s: System, n: nat) returns (packs: seq<Packet>)
    requires Inv(s) && s.w.sta == CanSendData && s.w.chunk > 0 && n > |s.w.stream| - s.w.wr
    ensures AllSent(s, Run(s, Turns(n)), packs)
    decreases n
  {
    TurnMakes(s);
    OneTurn(s, n);
    hide Inv, Run, Apply, Turns, AllSent, WithPack, NextPack, Parked;
    if s.w.wr == |s.w.stream| {
      packs := [];
      assert Parked(s).w.sta == WaitUsbData by { ParkedIs(s); }
      ParkedStays(Parked(s), n - 1);
      NothingToSend(s);
    } else {
      WithPackGoesOn(s);
      var more := TurnsSendAll(WithPack(s), n - 1);
      OnePackFirst(s, Run(WithPack(s), Turns(n - 1)), more);
      packs := [NextPack(s.w)] + more;
    }
  }

  lemma NothingToSend(s: System)
    requires s.w.wr == |s.w.stream|
    ensures AllSent(s, Parked(s), [])
  {
    assert s.fwd + [] == s.fwd;
  }

  // What resumes the sending.

  /** A write, or an acknowledgement that the handler looks at. */
  predicate Resumes(s: System, e: Event) {
    && IsOpen(s.w)
    && (e.AppWrite? || (e.DaemonReceive? && s.w.attached && s.back != [] && IsAck(s.back[0])))
  }

  lemma ResumesSending(s: System, e: Event)
    requires Inv(s) && Resumes(s, e)
    ensures |s.w.ring| <= s.w.size && Apply(s, e).w.sta == CanSendData && Apply(s, e).w.chunk == s.w.chunk
  {
    RingFits(s);
    hide Inv, Complete;
  }

  /** After any write and any acknowledgement, wherever it points, the turns that follow put every unsent
      byte on the channel: no open socket stays parked over unsent bytes once either comes. */
  lemma NewsIsSent(s: System, e: Event, n: nat) returns (packs: seq<Packet>)
    requires Inv(s) && Resumes(s, e) && s.w.chunk > 0
    requires |s.w.ring| <= s.w.size && n > |Apply(s, e).w.stream| - Apply(s, e).w.wr
    ensures Inv(Apply(s, e)) && AllSent(Apply(s, e), Run(Apply(s, e), Turns(n)), packs)
  {
    StepKeeps(s, e);
    ResumesSending(s, e);
    hide Inv, Apply, Run, Turns, AllSent, Resumes;
    packs := TurnsSendAll(Apply(s, e), n);
  }

  /** A rewind resumes the sending only if it names the very head and bytes are there; otherwise it parks
      the socket, although everything from that position on is unsent. */
  lemma RewindResumesIff(w: Window, pos: nat)
    requires WindowInv(w) && IsOpen(w) && w.head <= pos <= |w.stream|
    ensures OnRewind(w, pos).wr == pos && IsOpen(OnRewind(w, pos))
    ensures OnRewind(w, pos).sta == CanSendData <==> pos == w.head < |w.stream|
  {
  }

  // Opening and closing.

  lemma RunStep(s: System, e: Event, later: seq<Event>)
    requires Inv(s)
    ensures |s.w.ring| <= s.w.size && Inv(Apply(s, e)) && Run(s, [e] + later) == Run(Apply(s, e), later)
  {
    RingFits(s);
    StepKeeps(s, e);
    hide Inv, Apply;
    assert ([e] + later)[1..] == later;
  }

  function Opened(w: Window): Window {
    w.(sta := CanSendData, hasOpened := true)
  }

  /** The open command is answered: the socket opens if and only if the answer is zero, and otherwise is
      as it was, so that the application may try again. */
  lemma OpensIff(s: System, sta: int)
    requires Inv(s) && s.w.sta == NotInit && s.w.attached && s.back == []
    ensures Run(s, [AppOpen, SendTurn, DevOther(DevPack(SoOpen, sta, 0)), DaemonReceive]).w ==
      if sta == 0 then Opened(s.w) else s.w
  {
    var p := DevPack(SoOpen, sta, 0);
    var s2 := s.(w := s.w.(sta := WaitUsbCmd));
    OpenAnswered(s.w, sta);
    OpenSent(s);
    hide Inv, Apply, Run, Receive;
    TwoSteps(s, AppOpen, SendTurn, [DevOther(p), DaemonReceive]);
    assert [AppOpen, SendTurn] + [DevOther(p), DaemonReceive] == [AppOpen, SendTurn, DevOther(p), DaemonReceive];
    Answered(s2, p);
  }

  lemma OpenSent(s: System)
    requires Inv(s) && s.w.sta == NotInit
    ensures |s.w.ring| <= s.w.size && |Apply(s, AppOpen).w.ring| <= Apply(s, AppOpen).w.size
    ensures Apply(Apply(s, AppOpen), SendTurn) == s.(w := s.w.(sta := WaitUsbCmd))
  {
    RingFits(s);
    hide Inv;
    assert Apply(s, AppOpen) == s.(w := s.w.(sta := NeedSendCmd));
  }

  lemma OpenAnswered(w: Window, sta: int)
    requires WindowInv(w) && w.sta == NotInit && w.attached
    ensures Receive(w.(sta := WaitUsbCmd), DevPack(SoOpen, sta, 0)) == if sta == 0 then Opened(w) else w
  {
    assert w.ring == [] && !w.hasOpened;
  }

  lemma TwoSteps(s: System, a: Event, b: Event, later: seq<Event>)
    requires Inv(s)
    ensures |s.w.ring| <= s.w.size && |Apply(s, a).w.ring| <= Apply(s, a).w.size
    ensures Inv(Apply(Apply(s, a), b)) && Run(s, [a, b] + later) == Run(Apply(Apply(s, a), b), later)
  {
    RunStep(s, a, [b] + later);
    RunStep(Apply(s, a), b, later);
    assert [a, b] + later == [a] + ([b] + later);
  }

  /** The device's answer, to a socket to which nothing else is under way. */
  lemma Answered(s: System, p: DevPack)
    requires Inv(s) && s.back == [] && !IsAck(p) && !IsRewind(p)
    ensures Run(s, [DevOther(p), DaemonReceive]).w == Receive(s.w, p)
  {
    var m := s.(back := [p]);
    Answers(s, p);
    hide Inv, Receive, Run, Apply;
    RunStep(s, DevOther(p), [DaemonReceive]);
    assert [DevOther(p)] + [DaemonReceive] == [DevOther(p), DaemonReceive];
    RunStep(m, DaemonReceive, []);
    assert [DaemonReceive] + [] == [DaemonReceive];
    Hears(m, p);
    RunNothing(Apply(m, DaemonReceive));
  }

  lemma Answers(s: System, p: DevPack)
    requires Inv(s) && s.back == [] && !IsAck(p) && !IsRewind(p)
    ensures |s.w.ring| <= s.w.size && Apply(s, DevOther(p)) == s.(back := [p])
  {
  }

  lemma Hears(s: System, p: DevPack)
    requires |s.w.ring| <= s.w.size && s.back == [p]
    ensures Apply(s, DaemonReceive).w == Receive(s.w, p)
  {
    hide Receive;
  }

  lemma RunNothing(s: System)
    requires Inv(s)
    ensures Run(s, []) == s
  {
  }

  /** An open socket that is to be closed is closed by one command and freed by its answer. */
  lemma ClosesWhenAnswered(s: System, e: Event, sta: int)
    requires Inv(s) && IsOpen(s.w) && s.back == [] && (e.AppClose? || e.AppGone?)
    ensures Run(s, [e, SendTurn, DevOther(DevPack(SoClose, sta, 0)), DaemonReceive]).w.freed
  {
    var p := DevPack(SoClose, sta, 0);
    CloseSent(s, e);
    hide Inv, Apply, Run, Receive;
    TwoSteps(s, e, SendTurn, [DevOther(p), DaemonReceive]);
    assert [e, SendTurn] + [DevOther(p), DaemonReceive] == [e, SendTurn, DevOther(p), DaemonReceive];
    var t := Apply(Apply(s, e), SendTurn);
    CloseFrees(t.w, sta);
    Answered(t, p);
  }

  lemma CloseSent(s: System, e: Event)
    requires Inv(s) && IsOpen(s.w) && (e.AppClose? || e.AppGone?)
    ensures |s.w.ring| <= s.w.size && |Apply(s, e).w.ring| <= Apply(s, e).w.size
    ensures Apply(Apply(s, e), SendTurn).w.sta == WaitUsbClose && Apply(Apply(s, e), SendTurn).back == s.back
  {
    RingFits(s);
    assert s.w.hasOpened;
    hide Inv;
    assert Apply(s, e).w == if e.AppClose? then Close(s.w) else Detach(s.w);
  }

  lemma CloseFrees(w: Window, sta: int)
    requires w.sta == WaitUsbClose
    ensures Receive(w, DevPack(SoClose, sta, 0)).freed
  {
  }

  /** One whose application ends before it was ever opened is freed without a command. */
  lemma NeverOpenedIsFreed(s: System)
    requires Inv(s) && !s.w.hasOpened
    ensures Run(s, [AppGone, SendTurn]).w.freed && Run(s, [AppGone, SendTurn]).fwd == s.fwd
  {
    TwoSteps(s, AppGone, SendTurn, []);
    assert [AppGone, SendTurn] + [] == [AppGone, SendTurn];
    var t := Apply(Apply(s, AppGone), SendTurn);
    assert t.w.freed && t.fwd == s.fwd;
    hide Inv, Apply;
    RunNothing(t);
  }

  predicate Closing(w: Window) {
    w.sta == NeedSendClose || w.sta == WaitUsbClose
  }

  /** The stream, its account and its head are as they were, and no pack has been added to the channel. */
  predicate Still(s: System, t: System) {
    && Closing(t.w)
    && t.w.stream == s.w.stream && t.w.book == s.w.book && t.w.head == s.w.head
    && forall p :: p in t.fwd ==> p in s.fwd
  }

  lemma StepStill(s: System, e: Event)
    requires Inv(s) && Closing(s.w)
    ensures |s.w.ring| <= s.w.size && Still(s, Apply(s, e))
  {
    RingFits(s);
    hide WindowInv, ForwardOk, BackOk;
  }

  /** Once closing, a socket accepts, sends, releases and reports nothing any more, whatever comes. */
  lemma {:induction false} ClosedForGood(s: System, events: seq<Event>)
    requires Inv(s) && Closing(s.w)
    ensures Still(s, Run(s, events))
    decreases |events|
  {
    if events != [] {
      StepKeeps(s, events[0]);
      StepStill(s, events[0]);
      hide Inv, Apply;
      ClosedForGood(Apply(s, events[0]), events[1..]);
    }
  }
}
