/** The whole transmit path as a step machine: application, daemon socket, a channel to the device
    that keeps order but may lose packs, the device, and a channel back that loses nothing.
    A run is any list of events; an event that is not possible in a state leaves it as it is. */
module GoBackN {
  import opened Bytes
  import opened SocketSpec
  import opened WindowInvariant

  /** dev is what the device has accepted; acked is the highest position it has acknowledged. */
  datatype System = System(
    w: Window,
    fwd: seq<Packet>,
    dev: seq<byte>,
    back: seq<DevPack>,
    acked: nat)

  datatype Event =
    | AppOpen
    | AppWrite(data: seq<byte>)
    | AppLimit(limit: u32)
    | AppClose
    | AppGone
    | SendTurn
    | Lose(index: nat)
    | DevTake(room: nat)
    | DevAck(pos: nat, len: nat)
    | DevRefuse
    | DevOther(pack: DevPack)
    | DaemonReceive

  /** The device takes a pack only at the position it expects, and only as much as it has room for. */
  function Take(dev: seq<byte>, p: Packet, room: nat): seq<byte> {
    if p.pos == |dev| then dev + p.data[..Min(room, |p.data|)] else dev
  }

  function Apply(s: System, e: Event): System
    requires |s.w.ring| <= s.w.size
  {
    match e
    case AppOpen => s.(w := Open(s.w))
    case AppWrite(data) => s.(w := Write(s.w, data))
    case AppLimit(limit) => s.(w := s.w.(limit := limit))
    case AppClose => s.(w := Close(s.w))
    case AppGone => s.(w := Detach(s.w))
    case SendTurn =>
      var (w, made) := MakePack(s.w);
      s.(w := w, fwd := if made.Some? then s.fwd + [made.value] else s.fwd)
    case Lose(index) =>
      if index < |s.fwd| then s.(fwd := s.fwd[..index] + s.fwd[index + 1..]) else s
    case DevTake(room) =>
      if s.fwd == [] then s else s.(dev := Take(s.dev, s.fwd[0], room), fwd := s.fwd[1..])
    case DevAck(pos, len) =>
      if pos + len > |s.dev| then s
      else s.(back := s.back + [DevPack(SoWrite, len, pos)],
              acked := if pos + len > s.acked then pos + len else s.acked)
    case DevRefuse => s.(back := s.back + [DevPack(SoWrite, WRONG_POSITION, |s.dev|)])
    case DevOther(pack) =>
      if IsAck(pack) || IsRewind(pack) then s else s.(back := s.back + [pack])
    case DaemonReceive =>
      if s.back == [] then s else s.(w := Receive(s.w, s.back[0]), back := s.back[1..])
  }

  /** Packs under way carry the stream's own bytes. */
  predicate ForwardOk(fwd: seq<Packet>, stream: seq<byte>) {
    forall p :: p in fwd ==> Carries(stream, p)
  }

  /** Every position under way back is one the device reached, rewinds are not below the head, and
      no acknowledgement goes beyond a rewind queued after it. */
  predicate BackOk(back: seq<DevPack>, head: nat, reached: nat) {
    && (forall p :: p in back && IsAck(p) ==> p.pos + p.sta <= reached)
    && (forall p :: p in back && IsRewind(p) ==> head <= p.pos <= reached)
    && (forall i, j :: 0 <= i < j < |back| && IsAck(back[i]) && IsRewind(back[j])
          ==> back[i].pos + back[i].sta <= back[j].pos)
  }

  predicate Inv(s: System) {
    && WindowInv(s.w)
    && s.dev <= s.w.stream
    && s.w.head <= |s.dev|
    && s.acked <= |s.dev|
    && ForwardOk(s.fwd, s.w.stream)
    && BackOk(s.back, s.w.head, |s.dev|)
  }

  function Start(size: nat, chunk: nat): (s: System)
    ensures size < U32 ==> Inv(s)
  {
    assert size < U32 ==> WindowInv(Init(size, chunk)) by {
      if size < U32 {
        InitInv(size, chunk);
      }
    }
    System(Init(size, chunk), [], [], [], 0)
  }

  // The two channels.

  lemma ForwardGrows(fwd: seq<Packet>, stream: seq<byte>, stream': seq<byte>)
    requires ForwardOk(fwd, stream) && stream <= stream'
    ensures ForwardOk(fwd, stream')
  {
    forall p | p in fwd
      ensures Carries(stream', p)
    {
      assert Carries(stream, p);
      assert stream'[p.pos..p.pos + |p.data|] == stream[p.pos..p.pos + |p.data|];
    }
  }

  lemma BackGrows(back: seq<DevPack>, head: nat, reached: nat, reached': nat)
    requires BackOk(back, head, reached) && reached <= reached'
    ensures BackOk(back, head, reached')
  {
  }

  /** A pack from the device goes to the end of the queue: an acknowledgement of what it reached, or
      a rewind to exactly there. */
  lemma BackQueues(back: seq<DevPack>, head: nat, reached: nat, p: DevPack)
    requires BackOk(back, head, reached) && head <= reached
    requires IsAck(p) ==> p.pos + p.sta <= reached
    requires IsRewind(p) ==> p.pos == reached
    ensures BackOk(back + [p], head, reached)
  {
    var back' := back + [p];
    forall i, j | 0 <= i < j < |back'| && IsAck(back'[i]) && IsRewind(back'[j])
      ensures back'[i].pos + back'[i].sta <= back'[j].pos
    {
      if j == |back| {
        assert back[i] in back;
      }
    }
  }

  /** Taking the oldest pack: the head may move up to it if it is an acknowledgement. */
  lemma BackDelivers(back: seq<DevPack>, head: nat, reached: nat, head': nat)
    requires back != [] && BackOk(back, head, reached)
    requires head' == head || (IsAck(back[0]) && head' == back[0].pos + back[0].sta)
    ensures BackOk(back[1..], head', reached) && (head' == head || head' <= reached)
    ensures IsRewind(back[0]) ==> head <= back[0].pos <= reached
  {
    var back' := back[1..];
    forall p | p in back' && IsRewind(p)
      ensures head' <= p.pos
    {
      var j :| 0 <= j < |back'| && back'[j] == p;
      assert back[j + 1] == p;
    }
    forall i, j | 0 <= i < j < |back'| && IsAck(back'[i]) && IsRewind(back'[j])
      ensures back'[i].pos + back'[i].sta <= back'[j].pos
    {
      assert back[i + 1] == back'[i] && back[j + 1] == back'[j];
    }
  }

  // The steps.

  lemma WriteKeeps(s: System, data: seq<byte>)
    requires Inv(s)
    ensures Inv(Apply(s, AppWrite(data)))
  {
    if IsOpen(s.w) {
      PushKeeps(s.w, data);
      hide WindowInv, BackOk, ForwardOk;
      ForwardGrows(s.fwd, s.w.stream, Push(s.w, data).stream);
    }
  }

  lemma TurnKeeps(s: System)
    requires Inv(s)
    ensures Inv(Apply(s, SendTurn))
  {
    MakePackKeeps(s.w);
    hide WindowInv, BackOk, MakePack;
  }

  lemma LoseKeeps(s: System, index: nat)
    requires Inv(s)
    ensures Inv(Apply(s, Lose(index)))
  {
    hide WindowInv, BackOk;
  }

  lemma TakeKeeps(s: System, room: nat)
    requires Inv(s)
    ensures Inv(Apply(s, DevTake(room)))
  {
    hide WindowInv, BackOk;
    if s.fwd != [] {
      var p := s.fwd[0];
      assert Carries(s.w.stream, p);
      var n := Min(room, |p.data|);
      if p.pos == |s.dev| {
        assert s.w.stream[..p.pos + n] == s.w.stream[..p.pos] + p.data[..n];
      }
      BackGrows(s.back, s.w.head, |s.dev|, |Take(s.dev, p, room)|);
    }
  }

  lemma DeviceSendsKeeps(s: System, e: Event)
    requires Inv(s) && (e.DevAck? || e.DevRefuse? || e.DevOther?)
    ensures Inv(Apply(s, e))
  {
    hide WindowInv, BackOk, ForwardOk;
    match e
    case DevAck(pos, len) =>
      if pos + len <= |s.dev| {
        BackQueues(s.back, s.w.head, |s.dev|, DevPack(SoWrite, len, pos));
      }
    case DevRefuse => BackQueues(s.back, s.w.head, |s.dev|, DevPack(SoWrite, WRONG_POSITION, |s.dev|));
    case DevOther(pack) =>
      if !IsAck(pack) && !IsRewind(pack) {
        BackQueues(s.back, s.w.head, |s.dev|, pack);
      }
  }

  lemma ReceiveStepKeeps(s: System)
    requires Inv(s)
    ensures Inv(Apply(s, DaemonReceive))
  {
    hide WindowInv, BackOk, ForwardOk, Receive;
    if s.back != [] {
      BackDelivers(s.back, s.w.head, |s.dev|, s.w.head);
      ReceiveKeeps(s.w, s.back[0]);
      BackDelivers(s.back, s.w.head, |s.dev|, Receive(s.w, s.back[0]).head);
    }
  }

  lemma RequestKeeps(s: System, e: Event)
    requires Inv(s) && (e.AppOpen? || e.AppLimit? || e.AppClose? || e.AppGone?)
    ensures Inv(Apply(s, e))
  {
    hide WindowInv, BackOk, ForwardOk;
    RequestsKeep(s.w, if e.AppLimit? then e.limit else 0);
  }

  /** One step of any kind keeps the invariant. */
  lemma StepKeeps(s: System, e: Event)
    requires Inv(s)
    ensures Inv(Apply(s, e))
  {
    assert |s.w.ring| <= s.w.size;
    hide Inv, Apply;
    match e
    case AppWrite(data) => WriteKeeps(s, data);
    case SendTurn => TurnKeeps(s);
    case Lose(index) => LoseKeeps(s, index);
    case DevTake(room) => TakeKeeps(s, room);
    case DevAck(_, _) => DeviceSendsKeeps(s, e);
    case DevRefuse => DeviceSendsKeeps(s, e);
    case DevOther(_) => DeviceSendsKeeps(s, e);
    case DaemonReceive => ReceiveStepKeeps(s);
    case _ => RequestKeeps(s, e);
  }

  /** Nothing accepted, delivered or reported is ever taken back. */
  predicate Grows(s: System, s': System) {
    HistoryGrows(s.w, s'.w) && s.dev <= s'.dev
  }

  lemma StepGrows(s: System, e: Event)
    requires Inv(s)
    ensures Grows(s, Apply(s, e))
  {
    assert |s.w.ring| <= s.w.size;
    hide WindowInv, ForwardOk, BackOk, MakePack, Receive, Write;
    match e
    case AppWrite(data) => WriteGrows(s.w, data);
    case SendTurn => MakePackGrows(s.w);
    case DaemonReceive => if s.back != [] { ReceiveGrows(s.w, s.back[0]); }
    case _ =>
  }

  /** The state after a run. Whatever the run, the device holds a prefix of the accepted stream,
      every pack carries the stream's own bytes, and every rewind points into the window. */
  function Run(s: System, events: seq<Event>): (r: System)
    requires Inv(s)
    ensures Inv(r)
    ensures Grows(s, r)
    decreases |events|
  {
    if events == [] then s
    else
      StepKeeps(s, events[0]);
      StepGrows(s, events[0]);
      Run(Apply(s, events[0]), events[1..])
  }

  lemma {:induction false} RunAppend(s: System, events: seq<Event>, e: Event)
    requires Inv(s)
    ensures Run(s, events + [e]) == Apply(Run(s, events), e)
    decreases |events|
  {
    if events == [] {
      assert [e][1..] == [];
      StepKeeps(s, e);
    } else {
      StepKeeps(s, events[0]);
      assert (events + [e])[1..] == events[1..] + [e];
      RunAppend(Apply(s, events[0]), events[1..], e);
    }
  }

  /** From a fresh socket: what the device accepted is a prefix of what the application was told
      was accepted, and every reported write had reached the device in full. */
  lemma RunIsFaithful(size: nat, chunk: nat, events: seq<Event>)
    requires size < U32
    ensures var s := Run(Start(size, chunk), events);
      && s.dev <= s.w.stream
      && Sum(s.w.book.lens) == |s.w.stream|
      && s.w.book.reported <= s.w.book.lens
      && 0 <= Sum(s.w.book.reported) <= |s.dev|
      && s.dev[..Sum(s.w.book.reported)] == s.w.stream[..Sum(s.w.book.reported)]
  {
    var b := Run(Start(size, chunk), events).w.book;
    SumAppend(b.reported, Lengths(b.nodes));
    TilesDrop(b.nodes, Sum(b.reported), b.cur, |b.nodes|);
    assert b.nodes[..|b.nodes|] == b.nodes;
  }

  /** Some run in which no pack is lost leads from one state to the other. */
  ghost predicate Reaches(from: System, to: System) {
    Inv(from) && exists events: seq<Event> :: (forall e :: e in events ==> !e.Lose?) && Run(from, events) == to
  }

  lemma RingFits(s: System)
    ensures Inv(s) ==> |s.w.ring| <= s.w.size
  {
  }

  lemma Extend(from: System, mid: System, e: Event)
    requires Reaches(from, mid) && !e.Lose?
    ensures |mid.w.ring| <= mid.w.size && Reaches(from, Apply(mid, e))
  {
    hide Inv, Run, Apply;
    RingFits(mid);
    var events: seq<Event> :| (forall e :: e in events ==> !e.Lose?) && Run(from, events) == mid;
    RunAppend(from, events, e);
    assert forall e' :: e' in events + [e] ==> !e'.Lose?;
  }

  lemma Fresh(size: nat, chunk: nat)
    requires size < U32
    ensures Reaches(Start(size, chunk), Start(size, chunk))
  {
    assert Run(Start(size, chunk), []) == Start(size, chunk);
  }

  /** A fresh socket after the usual opening. */
  function Ready(size: nat, chunk: nat): System {
    Start(size, chunk).(w := Init(size, chunk).(sta := CanSendData, hasOpened := true))
  }

  lemma Opening(size: nat, chunk: nat)
    requires size < U32
    ensures Reaches(Start(size, chunk), Ready(size, chunk))
  {
    hide Reaches;
    var s0 := Start(size, chunk);
    Fresh(size, chunk);
    Extend(s0, s0, AppOpen);
    var s1 := Apply(s0, AppOpen);
    Extend(s0, s1, SendTurn);
    var s2 := Apply(s1, SendTurn);
    Extend(s0, s2, DevOther(DevPack(SoOpen, 0, 0)));
    var s3 := Apply(s2, DevOther(DevPack(SoOpen, 0, 0)));
    Extend(s0, s3, DaemonReceive);
    assert Apply(s3, DaemonReceive) == Ready(size, chunk);
  }

  /** With no room for payload a fresh write parks the socket for good. */
  lemma NoRoomStalls(size: nat)
    requires 0 < size < U32
    ensures exists s :: Reaches(Start(size, 0), s) && !NotStalled(s.w)
  {
    hide Reaches;
    Opening(size, 0);
    var s0, s1 := Start(size, 0), Ready(size, 0);
    Extend(s0, s1, AppWrite([7]));
    var s2 := Apply(s1, AppWrite([7]));
    Extend(s0, s2, SendTurn);
    assert !NotStalled(Apply(s2, SendTurn).w);
  }

  lemma RoomNeverStalls(size: nat, chunk: nat, events: seq<Event>)
    requires size < U32 && 0 < chunk
    ensures NotStalled(Run(Start(size, chunk), events).w)
  {
    hide InWindow, OpenedOnce, Accounted, ForwardOk, BackOk, NotStalled;
    assert Run(Start(size, chunk), events).w.chunk == chunk;
  }

  /** A socket never parks with unsent bytes and nothing outstanding, in any run, exactly when packs
      have room for at least one byte of payload beside the position. */
  lemma NeverStallsIff(size: nat, chunk: nat)
    requires 0 < size < U32
    ensures (forall events: seq<Event> :: NotStalled(Run(Start(size, chunk), events).w)) <==> chunk > 0
  {
    hide Inv, Start, Run, NotStalled;
    if chunk == 0 {
      NoRoomStalls(size);
      var s :| Reaches(Start(size, 0), s) && !NotStalled(s.w);
      var events: seq<Event> :| Run(Start(size, 0), events) == s;
      assert !NotStalled(Run(Start(size, chunk), events).w);
    } else {
      forall events: seq<Event>
        ensures NotStalled(Run(Start(size, chunk), events).w)
      {
        RoomNeverStalls(size, chunk, events);
      }
    }
  }
}
