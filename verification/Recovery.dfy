/** The other side of StrandedRun: however far a run has gone, an open socket is never beyond repair.
    From every state that keeps the invariant some continuation, in which no pack is lost, brings all
    accepted bytes to the device and reports every write. */
module Recovery {
  import opened Bytes
  import opened SocketSpec
  import opened WindowInvariant
  import opened GoBackN

  /** The socket is open at both ends, packs have room, and no close reply has come or is under way. */
  predicate Live(s: System) {
    && Inv(s)
    && IsOpen(s.w) && s.w.attached && !s.w.freed && s.w.chunk > 0
    && forall p :: p in s.back ==> p.opt != SoClose
  }

  /** What the application does, or a loss. */
  predicate OfApplication(e: Event) {
    e.Lose? || e.AppOpen? || e.AppWrite? || e.AppLimit? || e.AppClose? || e.AppGone?
  }

  /** Some run of daemon, channels and device alone, in which no pack is lost, leads from one state to the other. */
  ghost predicate Serves(from: System, to: System) {
    Inv(from) && exists events: seq<Event> :: (forall e :: e in events ==> !OfApplication(e)) && Run(from, events) == to
  }

  lemma Serve(from: System, mid: System, e: Event)
    requires Serves(from, mid) && !OfApplication(e)
    ensures |mid.w.ring| <= mid.w.size && Serves(from, Apply(mid, e))
  {
    hide Inv, Run, Apply;
    RingFits(mid);
    var events: seq<Event> :| (forall e :: e in events ==> !OfApplication(e)) && Run(from, events) == mid;
    RunAppend(from, events, e);
    assert forall e' :: e' in events + [e] ==> !OfApplication(e');
  }

  /** The same writes as in s. */
  predicate SameWrites(s: System, t: System) {
    t.w.stream == s.w.stream && t.w.book.lens == s.w.book.lens
  }

  predicate Quiet(s: System) {
    s.fwd == [] && s.back == []
  }

  /** Sender and device agree, everything the device took is released, and no finished write is pending. */
  predicate Synced(s: System) {
    && Live(s) && Quiet(s)
    && s.w.sta == CanSendData && s.w.head == s.w.wr == |s.dev|
    && forall n :: n in s.w.book.nodes ==> s.w.head < n.wrMax
  }

  /** Packs to the device drain away: it takes nothing of them. */
  lemma {:induction false} DrainForward(from: System, s: System)
    requires Serves(from, s) && Live(s)
    ensures Serves(from, s.(fwd := [])) && Live(s.(fwd := []))
    decreases |s.fwd|
  {
    hide Serves;
    if s.fwd != [] {
      Serve(from, s, DevTake(0));
      StepKeeps(s, DevTake(0));
      var t := s.(fwd := s.fwd[1..]);
      assert Apply(s, DevTake(0)) == t;
      DrainForward(from, t);
    } else {
      assert s.(fwd := []) == s;
    }
  }

  lemma ReceiveLives(s: System)
    requires Live(s) && s.back != []
    ensures Live(Apply(s, DaemonReceive)) && SameWrites(s, Apply(s, DaemonReceive))
    ensures Apply(s, DaemonReceive).back == s.back[1..] && Apply(s, DaemonReceive).fwd == s.fwd
  {
    var p := s.back[0];
    assert p.opt != SoClose;
    StepKeeps(s, DaemonReceive);
    ReceiveGrows(s.w, p);
    hide Inv, Release, Complete, Peek;
  }

  lemma {:induction false} DrainBack(from: System, s: System) returns (t: System)
    requires Serves(from, s) && Live(s) && s.fwd == []
    ensures Serves(from, t) && Live(t) && Quiet(t) && SameWrites(s, t)
    decreases |s.back|
  {
    hide Serves, Live, Apply;
    if s.back == [] {
      t := s;
    } else {
      Serve(from, s, DaemonReceive);
      ReceiveLives(s);
      t := DrainBack(from, Apply(s, DaemonReceive));
    }
  }

  /** A pack of the device for a quiet socket is sent and received. */
  lemma Arrives(from: System, m: System, p: DevPack)
    requires Serves(from, m) && Live(m) && m.fwd == [] && m.back == [p]
    ensures var t := Apply(m, DaemonReceive);
      && Serves(from, t) && Live(t) && Quiet(t) && SameWrites(m, t)
      && t == m.(w := Receive(m.w, p), back := [])
  {
    assert m.back[1..] == [];
    hide Serves, Inv, Receive;
    Serve(from, m, DaemonReceive);
    ReceiveLives(m);
  }

  lemma HeardAsRewind(w: Window, pos: nat)
    requires IsOpen(w) && w.attached
    ensures Receive(w, DevPack(SoWrite, -0x107, pos)) == OnRewind(w, pos)
  {
    hide OnRewind;
  }

  lemma HeardAsAck(w: Window, pos: nat)
    requires IsOpen(w) && w.attached
    ensures Receive(w, DevPack(SoWrite, 0, pos)) == OnAck(w, pos)
  {
    hide OnAck;
  }

  /** The device may always refuse at its own position. */
  lemma Refuses(from: System, s: System) returns (t: System)
    requires Serves(from, s) && Live(s) && Quiet(s)
    ensures Serves(from, t) && Live(t) && Quiet(t) && SameWrites(s, t) && t.dev == s.dev
    ensures t.w == OnRewind(s.w, |s.dev|)
  {
    var p := DevPack(SoWrite, WRONG_POSITION, |s.dev|);
    var m := s.(back := [p]);
    assert m == Apply(s, DevRefuse);
    StepKeeps(s, DevRefuse);
    HeardAsRewind(m.w, |s.dev|);
    hide Serves, Inv, OnRewind, Receive;
    Serve(from, s, DevRefuse);
    Arrives(from, m, p);
    t := Apply(m, DaemonReceive);
  }

  /** It may always acknowledge all it took. */
  lemma Acknowledges(from: System, s: System) returns (t: System)
    requires Serves(from, s) && Live(s) && Quiet(s)
    ensures Serves(from, t) && Live(t) && Quiet(t) && SameWrites(s, t) && t.dev == s.dev
    ensures t.w == OnAck(s.w, |s.dev|)
  {
    var p := DevPack(SoWrite, 0, |s.dev|);
    var m := s.(back := [p], acked := |s.dev|);
    assert m == Apply(s, DevAck(|s.dev|, 0));
    StepKeeps(s, DevAck(|s.dev|, 0));
    HeardAsAck(m.w, |s.dev|);
    hide Serves, Inv, OnAck, Receive;
    Serve(from, s, DevAck(|s.dev|, 0));
    Arrives(from, m, p);
    t := Apply(m, DaemonReceive);
  }

  lemma RewindToDevice(s: System)
    requires Live(s)
    ensures s.w.head <= |s.dev| <= |s.w.stream| && OnRewind(s.w, |s.dev|).wr == |s.dev|
  {
  }

  /** An acknowledgement of all the device took, when nothing else was sent, synchronises. */
  lemma AckSyncs(from: System, s: System) returns (t: System)
    requires Serves(from, s) && Live(s) && Quiet(s) && s.w.wr == |s.dev|
    ensures Serves(from, t) && Synced(t) && SameWrites(s, t) && t.dev == s.dev
  {
    AckKeeps(s.w, |s.dev|);
    RewindToDevice(s);
    t := Acknowledges(from, s);
    hide Serves, Inv;
  }

  /** A refusal and an acknowledgement of nothing new bring daemon and device together. */
  lemma Sync(from: System, s: System) returns (t: System)
    requires Serves(from, s) && Live(s) && Quiet(s)
    ensures Serves(from, t) && Synced(t) && SameWrites(s, t) && t.dev == s.dev
  {
    RewindToDevice(s);
    hide Serves, Live, Synced, OnRewind;
    var m := Refuses(from, s);
    t := AckSyncs(from, m);
  }

  /** The pack that a synchronised socket makes. */
  function NextPack(s: System): Packet {
    Packet(s.w.wr, Peek(s.w.ring, 0, s.w.chunk))
  }

  /** The state after one more pack has been made and taken whole. */
  function WithNextPack(s: System): System {
    var p := NextPack(s);
    s.(w := s.w.(wr := s.w.wr + |p.data|), dev := s.dev + p.data)
  }

  lemma PackTaken(from: System, s: System)
    requires Serves(from, s) && Synced(s) && |s.dev| < |s.w.stream|
    ensures Serves(from, WithNextPack(s)) && Live(WithNextPack(s)) && 0 < |NextPack(s).data|
  {
    var p := NextPack(s);
    var m, t := s.(w := s.w.(wr := s.w.wr + |p.data|), fwd := [p]), WithNextPack(s);
    assert Unsent(s.w) == 0 && |s.w.ring| > 0;
    assert Apply(s, SendTurn) == m;
    assert Apply(m, DevTake(|p.data|)) == t by {
      assert p.data[..|p.data|] == p.data && m.fwd[1..] == [];
    }
    hide Serves, Inv, Apply, Peek;
    Serve(from, s, SendTurn);
    StepKeeps(s, SendTurn);
    Serve(from, m, DevTake(|p.data|));
    StepKeeps(m, DevTake(|p.data|));
  }

  /** From there one more pack is made, taken and acknowledged. */
  lemma OneMore(from: System, s: System) returns (t: System)
    requires Serves(from, s) && Synced(s) && |s.dev| < |s.w.stream|
    ensures Serves(from, t) && Synced(t) && SameWrites(s, t) && |s.dev| < |t.dev|
  {
    PackTaken(from, s);
    hide Serves, Live;
    t := AckSyncs(from, WithNextPack(s));
  }

  lemma {:induction false} Deliver(from: System, s: System) returns (t: System)
    requires Serves(from, s) && Synced(s)
    ensures Serves(from, t) && Synced(t) && SameWrites(s, t) && t.dev == t.w.stream
    decreases |s.w.stream| - |s.dev|
  {
    DeviceHoldsPrefix(s);
    hide Serves, Synced;
    if |s.dev| < |s.w.stream| {
      var m := OneMore(from, s);
      DeviceHoldsPrefix(m);
      t := Deliver(from, m);
    } else {
      t := s;
    }
  }

  lemma DeviceHoldsPrefix(s: System)
    requires Synced(s)
    ensures s.dev <= s.w.stream
  {
  }

  lemma {:induction false} TilesBelow(nodes: seq<WrNode>, first: int, to: int, n: WrNode)
    requires Tiles(nodes, first, to) && n in nodes
    ensures n.wrMax <= to
  {
    if n == nodes[0] {
      TilesOrdered(nodes[1..], nodes[0].wrMax, to);
    } else {
      TilesBelow(nodes[1..], nodes[0].wrMax, to, n);
    }
  }

  lemma AllReported(s: System)
    requires Synced(s) && s.dev == s.w.stream
    ensures s.w.book.reported == s.w.book.lens
  {
    var b := s.w.book;
    if b.nodes != [] {
      TilesBelow(b.nodes, Sum(b.reported), b.cur, b.nodes[0]);
    }
    assert Lengths([]) == [];
  }

  /** From every state a run can reach with the socket open at both ends, some continuation that loses no
      pack, and in which the application does nothing, delivers everything accepted so far and reports
      every write. The socket stays open. */
  lemma NeverBeyondRepair(s: System)
    requires Live(s)
    ensures exists t ::
      && Serves(s, t)
      && Live(t) && t.w.stream == s.w.stream && t.dev == s.w.stream
      && t.w.book.reported == t.w.book.lens == s.w.book.lens
  {
    assert Run(s, []) == s;
    assert Serves(s, s);
    hide Serves, Live, Synced, Inv;
    DrainForward(s, s);
    var s1 := DrainBack(s, s.(fwd := []));
    var s2 := Sync(s, s1);
    var s3 := Deliver(s, s2);
    AllReported(s3);
  }
}
