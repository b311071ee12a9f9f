/** What GoBackN.NeverStallsIff does not promise: a run in which PoliteDevice.StrandedIff finds a socket
    stranded. A device that refuses two packs, answers each refusal, and acknowledges what it takes only
    once, leaves the socket parked with unsent bytes: the repeated rewind moves the send position back
    below the one acknowledgement, which is ignored. */
module StrandedRun {
  import opened Bytes
  import opened SocketSpec
  import opened WindowInvariant
  import opened GoBackN
  import opened PoliteDevice

  const REWIND0 := DevPack(SoWrite, WRONG_POSITION, 0)
  const REWIND2 := DevPack(SoWrite, WRONG_POSITION, 2)
  const ACK2 := DevPack(SoWrite, 2, 0)

  /** Three bytes accepted in one write, none released; packs carry one byte each. */
  function Midway(sta: SockSta, wr: nat, fwd: seq<Packet>, dev: seq<byte>, back: seq<DevPack>, acked: nat): System {
    System(MidwayWindow(sta, wr), fwd, dev, back, acked)
  }

  function MidwayWindow(sta: SockSta, wr: nat): Window {
    Window(sta, true, true, false, [1, 2, 3], 16, 0, 1, 0, wr, [1, 2, 3], Book([WrNode(0, 3)], 3, [3], []))
  }

  const P0 := Packet(0, [1])
  const P1 := Packet(1, [2])

  /** Some polite run without loss leads from one state to the other. */
  ghost predicate Leads(from: System, to: System) {
    Inv(from) && exists events :: Polite(from, events) && Run(from, events) == to
  }

  lemma {:induction false} RunOn(s: System, a: seq<Event>, b: seq<Event>)
    requires Inv(s) && Polite(s, a) && Polite(Run(s, a), b)
    ensures Polite(s, a + b) && Run(s, a + b) == Run(Run(s, a), b)
    decreases |a|
  {
    hide Inv, Apply, FallsShort;
    RingFits(s);
    if a == [] {
      assert a + b == b;
    } else {
      var t := Apply(s, a[0]);
      StepKeeps(s, a[0]);
      RingFits(t);
      assert (a + b)[1..] == a[1..] + b;
      if FallsShort(s, a[0]) {
        StepKeeps(t, a[1]);
        assert (a + b)[2..] == a[2..] + b && a[1..][0] == a[1] && a[1..][1..] == a[2..];
        assert (a[1..] + b)[0] == a[1] && (a[1..] + b)[1..] == a[2..] + b;
        RunOn(Apply(t, a[1]), a[2..], b);
      } else {
        RunOn(t, a[1..], b);
      }
    }
  }

  /** The run goes on with one event, or with a take that falls short and its refusal. */
  lemma GoOn(from: System, mid: System, e: Event)
    requires Leads(from, mid) && !e.Lose? && !FallsShort(mid, e)
    ensures Inv(mid) && Leads(from, Apply(mid, e))
  {
    hide Inv, Apply, FallsShort;
    var events :| Polite(from, events) && Run(from, events) == mid;
    RingFits(mid);
    assert [e][1..] == [];
    StepKeeps(mid, e);
    assert Polite(mid, [e]) && Run(mid, [e]) == Apply(mid, e);
    RunOn(from, events, [e]);
  }

  lemma GoOnRefused(from: System, mid: System, e: Event)
    requires Leads(from, mid) && FallsShort(mid, e)
    ensures Inv(mid) && Inv(Apply(mid, e)) && Leads(from, Apply(Apply(mid, e), DevRefuse))
  {
    hide Inv, Apply;
    var events :| Polite(from, events) && Run(from, events) == mid;
    var two := [e, DevRefuse];
    RingFits(mid);
    StepKeeps(mid, e);
    RingFits(Apply(mid, e));
    StepKeeps(Apply(mid, e), DevRefuse);
    assert two[1..] == [DevRefuse] && two[2..] == [] && [DevRefuse][1..] == [];
    assert Polite(mid, two);
    assert Run(Apply(mid, e), [DevRefuse]) == Apply(Apply(mid, e), DevRefuse);
    assert Run(mid, two) == Run(Apply(mid, e), two[1..]);
    RunOn(from, events, two);
  }

  lemma Opened()
    ensures Leads(Start(16, 1), Ready(16, 1))
  {
    hide Leads;
    var s0 := Start(16, 1);
    var w0 := Init(16, 1);
    var reply := DevPack(SoOpen, 0, 0);
    Begun();
    assert Apply(s0, AppOpen) == s0.(w := w0.(sta := NeedSendCmd));
    assert Apply(s0.(w := w0.(sta := NeedSendCmd)), SendTurn) == s0.(w := w0.(sta := WaitUsbCmd));
    OpeningReply();
    hide Apply, Start, Init, Inv;
    GoOn(s0, s0, AppOpen);
    GoOn(s0, s0.(w := w0.(sta := NeedSendCmd)), SendTurn);
    GoOn(s0, s0.(w := w0.(sta := WaitUsbCmd)), DevOther(reply));
    GoOn(s0, s0.(w := w0.(sta := WaitUsbCmd), back := [reply]), DaemonReceive);
  }

  lemma OpeningReply()
    ensures var s0, w0, reply := Start(16, 1), Init(16, 1), DevPack(SoOpen, 0, 0);
      && Apply(s0.(w := w0.(sta := WaitUsbCmd)), DevOther(reply)) == s0.(w := w0.(sta := WaitUsbCmd), back := [reply])
      && Apply(s0.(w := w0.(sta := WaitUsbCmd), back := [reply]), DaemonReceive) == Ready(16, 1)
  {
    assert [DevPack(SoOpen, 0, 0)][1..] == [];
  }

  lemma Begun()
    ensures Leads(Start(16, 1), Start(16, 1))
  {
    assert Run(Start(16, 1), []) == Start(16, 1);
  }

  /** The events of the example, each taking one state of this shape to another. */
  lemma TurnMakes(wr: nat, fwd: seq<Packet>, dev: seq<byte>, back: seq<DevPack>, acked: nat)
    requires wr < 2
    ensures Apply(Midway(CanSendData, wr, fwd, dev, back, acked), SendTurn)
         == Midway(CanSendData, wr + 1, fwd + [if wr == 0 then P0 else P1], dev, back, acked)
    ensures !FallsShort(Midway(CanSendData, wr, fwd, dev, back, acked), SendTurn)
  {
    var w := Midway(CanSendData, wr, fwd, dev, back, acked).w;
    assert Unsent(w) == wr;
    assert Peek(w.ring, wr, 1) == if wr == 0 then [1] else [2];
  }

  lemma Turn(wr: nat, fwd: seq<Packet>, fwd': seq<Packet>, dev: seq<byte>, back: seq<DevPack>, acked: nat)
    requires wr < 2 && Leads(Start(16, 1), Midway(CanSendData, wr, fwd, dev, back, acked))
    requires fwd' == fwd + [if wr == 0 then P0 else P1]
    ensures Leads(Start(16, 1), Midway(CanSendData, wr + 1, fwd', dev, back, acked))
  {
    hide Leads;
    var s := Midway(CanSendData, wr, fwd, dev, back, acked);
    TurnMakes(wr, fwd, dev, back, acked);
    hide Apply, Inv, Midway, FallsShort;
    GoOn(Start(16, 1), s, SendTurn);
  }

  lemma Taken(wr: nat, fwd: seq<Packet>, p: Packet, rest: seq<Packet>, dev: seq<byte>, dev': seq<byte>,
              back: seq<DevPack>, acked: nat)
    requires Leads(Start(16, 1), Midway(CanSendData, wr, fwd, dev, back, acked))
    requires fwd == [p] + rest && p.pos == |dev| && dev' == dev + p.data
    ensures Leads(Start(16, 1), Midway(CanSendData, wr, rest, dev', back, acked))
  {
    hide Leads;
    GoOn(Start(16, 1), Midway(CanSendData, wr, fwd, dev, back, acked), DevTake(|p.data|));
    assert fwd[1..] == rest && p.data[..|p.data|] == p.data;
  }

  /** A pack of which the device takes nothing. */
  lemma Refused(wr: nat, fwd: seq<Packet>, p: Packet, rest: seq<Packet>, dev: seq<byte>, back: seq<DevPack>,
                back': seq<DevPack>, acked: nat)
    requires Leads(Start(16, 1), Midway(CanSendData, wr, fwd, dev, back, acked))
    requires fwd == [p] + rest && p.data != [] && back' == back + [DevPack(SoWrite, WRONG_POSITION, |dev|)]
    ensures Leads(Start(16, 1), Midway(CanSendData, wr, rest, dev, back', acked))
  {
    hide Leads;
    GoOnRefused(Start(16, 1), Midway(CanSendData, wr, fwd, dev, back, acked), DevTake(0));
    assert fwd[1..] == rest && p.data[..0] == [] && dev + [] == dev;
  }

  lemma Replied(wr: nat, sta: SockSta, wr': nat, dev: seq<byte>, back: seq<DevPack>, p: DevPack, rest: seq<DevPack>,
                acked: nat)
    requires Leads(Start(16, 1), Midway(CanSendData, wr, [], dev, back, acked))
    requires back == [p] + rest && Receive(MidwayWindow(CanSendData, wr), p) == MidwayWindow(sta, wr')
    ensures Leads(Start(16, 1), Midway(sta, wr', [], dev, rest, acked))
  {
    hide Leads, Receive;
    GoOn(Start(16, 1), Midway(CanSendData, wr, [], dev, back, acked), DaemonReceive);
    assert back[1..] == rest;
  }

  /** What the three packs do to the window. */
  lemma Replies()
    ensures forall wr: nat :: wr <= 2 ==>
      Receive(MidwayWindow(CanSendData, wr), REWIND0) == MidwayWindow(CanSendData, 0)
    ensures Receive(MidwayWindow(CanSendData, 0), ACK2) == MidwayWindow(CanSendData, 0)
    ensures Receive(MidwayWindow(CanSendData, 1), REWIND2) == MidwayWindow(WaitUsbData, 2)
  {
  }

  lemma RefusedTwice()
    ensures Leads(Start(16, 1), Midway(CanSendData, 2, [], [], [REWIND0, REWIND0], 0))
  {
    hide Leads;
    Opened();
    GoOn(Start(16, 1), Ready(16, 1), AppWrite([1, 2, 3]));
    assert Apply(Ready(16, 1), AppWrite([1, 2, 3])) == Midway(CanSendData, 0, [], [], [], 0);
    Turn(0, [], [P0], [], [], 0);
    Turn(1, [P0], [P0, P1], [], [], 0);
    Refused(2, [P0, P1], P0, [P1], [], [], [REWIND0], 0);
    Refused(2, [P1], P1, [], [], [REWIND0], [REWIND0, REWIND0], 0);
  }

  lemma TakenAndAcknowledged()
    ensures Leads(Start(16, 1), Midway(CanSendData, 2, [], [1, 2], [REWIND0, ACK2], 2))
  {
    hide Leads, Midway, Receive, Start;
    RefusedTwice();
    Replies();
    Replied(2, CanSendData, 0, [], [REWIND0, REWIND0], REWIND0, [REWIND0], 0);
    Turn(0, [], [P0], [], [REWIND0], 0);
    Turn(1, [P0], [P0, P1], [], [REWIND0], 0);
    Taken(2, [P0, P1], P0, [P1], [], [1], [REWIND0], 0);
    Taken(2, [P1], P1, [], [1], [1, 2], [REWIND0], 0);
    Acknowledged();
  }

  lemma Acknowledged()
    requires Leads(Start(16, 1), Midway(CanSendData, 2, [], [1, 2], [REWIND0], 0))
    ensures Leads(Start(16, 1), Midway(CanSendData, 2, [], [1, 2], [REWIND0, ACK2], 2))
  {
    hide Leads;
    GoOn(Start(16, 1), Midway(CanSendData, 2, [], [1, 2], [REWIND0], 0), DevAck(0, 2));
    assert [REWIND0] + [ACK2] == [REWIND0, ACK2];
  }

  /** In a polite run without any loss the socket can park with unsent bytes while nothing is under way in
      either direction and the device has acknowledged everything it accepted. */
  lemma AcknowledgedYetParked()
    ensures exists events ::
      && Polite(Start(16, 1), events)
      && var s := Run(Start(16, 1), events);
      Parked(s) && s.w.wr < |s.w.stream| && s.w.head < s.acked
  {
    hide Leads, Apply, Start, Inv, Run, Polite, Receive;
    TakenAndAcknowledged();
    Replies();
    Replied(2, CanSendData, 0, [1, 2], [REWIND0, ACK2], REWIND0, [ACK2], 2);
    Replied(0, CanSendData, 0, [1, 2], [ACK2], ACK2, [], 2);
    Turn(0, [], [P0], [1, 2], [], 2);
    Refused(1, [P0], P0, [], [1, 2], [], [REWIND2], 2);
    Replied(1, WaitUsbData, 2, [1, 2], [REWIND2], REWIND2, [], 2);
    Witness(Midway(WaitUsbData, 2, [], [1, 2], [], 2));
  }

  lemma Witness(s: System)
    requires Leads(Start(16, 1), s)
    ensures exists events :: Polite(Start(16, 1), events) && Run(Start(16, 1), events) == s
  {
  }
}
