/** bb_socket_write in stream mode without a timeout, by a single writer, run against the whole
    transmit path of GoBackN: the call cuts its buffer into packs, waits for each to be reported, and
    returns how many bytes were reported in all. */
module SocketWrite {
  import opened Bytes
  import opened RingBuffers
  import opened SocketSpec
  import opened WindowInvariant
  import opened GoBackN

  /** Where the call is; done counts the bytes reported so far. */
  datatype Call =
    | Idle
    | Ready(buff: seq<byte>, done: nat)
    | Waiting(buff: seq<byte>, done: nat, sdlen: nat)
    | Returned(buff: seq<byte>, done: nat)
    | Aborted(buff: seq<byte>, done: nat, sdlen: nat)

  /** A write pack that reached an open socket: its length, and the room a ring of this size with this
      limit has when it is empty. */
  datatype Offer = Offer(len: nat, room: nat)

  /** base is the accepted stream when the call began, toDaemon the write pack still on its way, seen
      how many reports the application has taken from its socket, and offers the call's packs so far. */
  datatype Session = Session(
    sys: System,
    maxsnd: nat,
    call: Call,
    base: seq<byte>,
    toDaemon: Option<seq<byte>>,
    seen: nat,
    offers: seq<Offer>)

  datatype Action =
    | Net(e: Event)
    | Begin(buff: seq<byte>)
    | Proceed
    | Arrive
    | Wake
    | Exit

  function Proceeded(s: Session): Session
    requires s.call.Ready? && s.call.done <= |s.call.buff|
  {
    var Ready(buff, done) := s.call;
    if done < |buff| then
      var sdlen := if |buff| - done > s.maxsnd then s.maxsnd else |buff| - done;
      s.(call := Waiting(buff, done, sdlen), toDaemon := Some(buff[done..done + sdlen]))
    else s.(call := Returned(buff, done))
  }

  /** The report ends the wait unless it is zero; a short one ends the call. */
  function Woken(s: Session, ret: int): Session
    requires s.call.Waiting?
  {
    var Waiting(buff, done, sdlen) := s.call;
    var s' := s.(seen := s.seen + 1);
    if ret <= 0 then s'
    else if ret < sdlen then s'.(call := Returned(buff, done + ret))
    else s'.(call := Ready(buff, done + ret))
  }

  /** The smaller of the ring and its limit. */
  function Room(w: Window): nat {
    if w.limit == 0 then w.size
    else if w.limit >= 0x8000_0000 then 0
    else Min(w.limit as int, w.size)
  }

  function OffersAfter(s: Session, data: seq<byte>): seq<Offer> {
    if IsOpen(s.sys.w) then s.offers + [Offer(|data|, Room(s.sys.w))] else s.offers
  }

  function Act(s: Session, a: Action): Session
    requires Ok(s)
  {
    match a
    case Net(e) => if e.AppWrite? then s else s.(sys := Apply(s.sys, e))
    case Begin(buff) =>
      if s.call.Idle? || s.call.Returned? then s.(call := Ready(buff, 0), base := s.sys.w.stream, offers := [])
      else s
    case Proceed => if s.call.Ready? then Proceeded(s) else s
    case Arrive =>
      if s.toDaemon.None? then s
      else s.(sys := Apply(s.sys, AppWrite(s.toDaemon.value)), toDaemon := None, offers := OffersAfter(s, s.toDaemon.value))
    case Wake =>
      if s.call.Waiting? && s.seen < |s.sys.w.book.reported| then Woken(s, s.sys.w.book.reported[s.seen]) else s
    case Exit =>
      if s.call.Waiting? then s.(call := Aborted(s.call.buff, s.call.done, s.call.sdlen)) else s
  }

  /** The first n bytes of the call's buffer are what the call has added to the stream. */
  predicate Added(s: Session, buff: seq<byte>, n: nat) {
    n <= |buff| && s.sys.w.stream == s.base + buff[..n]
  }

  /** No report is outstanding and none is unread. */
  predicate Settled(s: Session) {
    s.toDaemon.None? && s.seen == |s.sys.w.book.reported| == |s.sys.w.book.lens|
  }

  /** What holds while one pack is with the daemon: not yet there, refused, or accepted in part. */
  predicate OnePending(s: Session, buff: seq<byte>, done: nat, sdlen: nat) {
    var lens := s.sys.w.book.lens;
    && 0 < sdlen <= s.maxsnd && done + sdlen <= |buff|
    && |s.base| + done <= s.sys.w.head
    && if s.toDaemon.Some? then
         s.toDaemon.value == buff[done..done + sdlen] && s.seen == |lens| && Added(s, buff, done)
       else if s.seen == |lens| then
         Added(s, buff, done)
       else
         s.seen + 1 == |lens| && 0 <= lens[s.seen] <= sdlen && Added(s, buff, done + lens[s.seen])
  }

  predicate CallOk(s: Session) {
    match s.call
    case Idle => Settled(s) && s.sys.w.stream == s.base
    case Ready(buff, done) => Settled(s) && Added(s, buff, done)
    case Returned(buff, done) => Settled(s) && Added(s, buff, done)
    case Waiting(buff, done, sdlen) => OnePending(s, buff, done, sdlen)
    case Aborted(buff, done, sdlen) => OnePending(s, buff, done, sdlen)
  }

  predicate Ok(s: Session) {
    Inv(s.sys) && 0 < s.maxsnd && CallOk(s)
  }

  /** When every write is reported, the whole stream is acknowledged. */
  lemma SettledIsAcknowledged(s: Session)
    requires Inv(s.sys) && Settled(s)
    ensures |s.sys.w.stream| == s.sys.w.head && s.sys.dev == s.sys.w.stream
  {
    var b := s.sys.w.book;
    assert b.reported == b.lens;
    assert Lengths(b.nodes) == [];
    assert b.nodes == [];
  }

  /** Only an application write touches the stream or the accepted lengths. */
  lemma NetLeavesStream(s: System, e: Event)
    requires Inv(s) && !e.AppWrite?
    ensures Apply(s, e).w.stream == s.w.stream && Apply(s, e).w.book.lens == s.w.book.lens
    ensures |s.w.book.reported| <= |Apply(s, e).w.book.reported| <= |s.w.book.lens|
  {
    RingFits(s);
    StepKeeps(s, e);
    ReportedWithinLens(Apply(s, e));
    hide Inv, MakePack, Receive;
    match e
    case SendTurn => MakePackGrows(s.w);
    case DaemonReceive => if s.back != [] { ReceiveGrows(s.w, s.back[0]); }
    case _ =>
  }

  lemma ReportedWithinLens(s: System)
    requires Inv(s)
    ensures |s.w.book.reported| <= |s.w.book.lens|
  {
  }

  lemma NetKeeps(s: Session, e: Event)
    requires Ok(s)
    ensures Ok(Act(s, Net(e)))
  {
    if !e.AppWrite? {
      StepKeeps(s.sys, e);
      StepGrows(s.sys, e);
      NetLeavesStream(s.sys, e);
    }
  }

  lemma ProceedKeeps(s: Session)
    requires Ok(s) && s.call.Ready?
    ensures Ok(Act(s, Proceed))
  {
    SettledIsAcknowledged(s);
  }

  /** A write pack is refused by a socket that is not open; otherwise some prefix of it is taken. */
  lemma WriteAdds(s: System, data: seq<byte>) returns (n: nat)
    requires Inv(s)
    ensures n <= |data|
    ensures var s' := Apply(s, AppWrite(data));
      && s'.w.stream == s.w.stream + data[..n]
      && s'.w.book.lens == s.w.book.lens + (if IsOpen(s.w) then [n as int] else [])
      && (IsOpen(s.w) || n == 0)
  {
    n := if IsOpen(s.w) then |Push(s.w, data).stream| - |s.w.stream| else 0;
  }

  lemma AddedMore(s: Session, s': Session, buff: seq<byte>, done: nat, sdlen: nat, n: nat)
    requires Added(s, buff, done) && n <= sdlen && done + sdlen <= |buff|
    requires s'.base == s.base && s'.sys.w.stream == s.sys.w.stream + buff[done..done + sdlen][..n]
    ensures Added(s', buff, done + n)
  {
    assert buff[done..done + sdlen][..n] == buff[done..done + n];
    assert buff[..done] + buff[done..done + n] == buff[..done + n];
  }

  lemma ArriveKeeps(s: Session)
    requires Ok(s) && s.toDaemon.Some?
    ensures Ok(Act(s, Arrive))
  {
    hide Inv;
    var data := s.toDaemon.value;
    StepKeeps(s.sys, AppWrite(data));
    StepGrows(s.sys, AppWrite(data));
    var n := WriteAdds(s.sys, data);
    AddedMore(s, Act(s, Arrive), s.call.buff, s.call.done, s.call.sdlen, n);
  }

  lemma WakeKeeps(s: Session)
    requires Ok(s) && s.call.Waiting? && s.seen < |s.sys.w.book.reported|
    ensures Ok(Act(s, Wake))
  {
    ReportedAreLens(s.sys);
    var b := s.sys.w.book;
    var Waiting(buff, done, sdlen) := s.call;
    assert b.reported[s.seen] == b.lens[s.seen] && s.seen + 1 == |b.lens| == |b.reported|;
    hide Inv, Added;
  }

  lemma ReportedAreLens(s: System)
    requires Inv(s)
    ensures s.w.book.reported <= s.w.book.lens
  {
  }

  lemma ActKeeps(s: Session, a: Action)
    requires Ok(s)
    ensures Ok(Act(s, a)) && Act(s, a).maxsnd == s.maxsnd
  {
    hide Inv, Apply;
    match a
    case Net(e) => NetKeeps(s, e);
    case Begin(buff) =>
      assert s.sys.w.stream + buff[..0] == s.sys.w.stream;
    case Proceed => if s.call.Ready? { ProceedKeeps(s); }
    case Arrive => if s.toDaemon.Some? { ArriveKeeps(s); }
    case Wake => if s.call.Waiting? && s.seen < |s.sys.w.book.reported| { WakeKeeps(s); }
    case Exit =>
  }

  /** How much of the buffer a waiting or aborted call has in the stream. */
  function InStream(s: Session, done: nat): int {
    if s.toDaemon.Some? || s.seen >= |s.sys.w.book.lens| then done else done + s.sys.w.book.lens[s.seen]
  }

  lemma PendingAdded(s: Session, buff: seq<byte>, done: nat, sdlen: nat)
    requires OnePending(s, buff, done, sdlen)
    ensures done <= InStream(s, done) <= done + s.maxsnd && Added(s, buff, InStream(s, done))
  {
  }

  lemma PendingAcknowledged(s: Session, buff: seq<byte>, done: nat, n: nat)
    requires Inv(s.sys) && Added(s, buff, n) && done <= n && |s.base| + done <= s.sys.w.head
    ensures s.base + buff[..done] <= s.sys.dev
  {
    hide ForwardOk, BackOk, OpenedOnce, Accounted, NotStalled;
    assert s.sys.w.stream[..|s.base| + done] == s.base + buff[..done];
  }

  /** A call cut short has k bytes acknowledged and at most one more pack's worth accepted. */
  lemma AbortedInsideOnePack(s: Session)
    requires Ok(s) && s.call.Aborted?
    ensures var Aborted(buff, k, _) := s.call;
      && k <= |buff|
      && s.base + buff[..k] <= s.sys.dev
      && exists n: nat :: k <= n <= k + s.maxsnd && Added(s, buff, n)
  {
    var Aborted(buff, k, sdlen) := s.call;
    hide Inv, Added;
    PendingAdded(s, buff, k, sdlen);
    PendingAcknowledged(s, buff, k, InStream(s, k));
  }

  function Perform(s: Session, actions: seq<Action>): (r: Session)
    requires Ok(s)
    ensures Ok(r) && r.maxsnd == s.maxsnd
    decreases |actions|
  {
    if actions == [] then s
    else
      ActKeeps(s, actions[0]);
      Perform(Act(s, actions[0]), actions[1..])
  }

  function NewSession(size: nat, chunk: nat, maxsnd: nat): (s: Session)
    requires size < U32 && 0 < maxsnd
    ensures Ok(s) && s.maxsnd == maxsnd
  {
    Session(Start(size, chunk), maxsnd, Idle, [], None, 0, [])
  }

  /** Whatever the network does and however many calls were made before: a call that returns k added
      exactly the first k bytes of its buffer to the stream, and the device has accepted them all. A
      call cut short by the end of the session never overstates, but up to one pack more may have
      been added. */
  lemma WriteReturnsWhatWasDelivered(size: nat, chunk: nat, maxsnd: nat, actions: seq<Action>)
    requires size < U32 && 0 < maxsnd
    ensures var s := Perform(NewSession(size, chunk, maxsnd), actions);
      match s.call
      case Returned(buff, k) =>
        Added(s, buff, k) && s.sys.dev == s.sys.w.stream
      case Aborted(buff, k, _) =>
        && k <= |buff|
        && s.base + buff[..k] <= s.sys.dev
        && exists n: nat :: k <= n <= k + maxsnd && Added(s, buff, n)
      case _ => true
  {
    var s := Perform(NewSession(size, chunk, maxsnd), actions);
    match s.call
    case Returned(_, _) => SettledIsAcknowledged(s);
    case Aborted(buff, k, sdlen) => AbortedInsideOnePack(s);
    case _ =>
  }

  // Short writes.

  predicate Fits(o: Offer) {
    0 < o.room && o.len <= o.room
  }

  predicate AllFit(offers: seq<Offer>) {
    forall o :: o in offers ==> Fits(o)
  }

  /** While one pack is with the daemon the earlier ones were taken whole, and it as far as there is room. */
  predicate LastOffered(s: Session, sdlen: nat) {
    var lens := s.sys.w.book.lens;
    if s.toDaemon.Some? then
      |s.toDaemon.value| == sdlen && AllFit(s.offers) && s.seen == |s.sys.w.book.reported|
    else s.seen < |lens| ==>
      && s.offers != []
      && var last := s.offers[|s.offers| - 1];
      && last.len == sdlen && lens[s.seen] == Min(sdlen, last.room)
      && AllFit(s.offers[..|s.offers| - 1])
  }

  predicate OffersOk(s: Session) {
    match s.call
    case Idle => true
    case Ready(_, _) => AllFit(s.offers)
    case Waiting(_, _, sdlen) => LastOffered(s, sdlen)
    case Aborted(_, _, sdlen) => LastOffered(s, sdlen)
    case Returned(buff, done) =>
      (done < |buff| <==> !AllFit(s.offers)) && forall o :: o in s.offers ==> 0 < o.room
  }

  /** A pack of a call finds the ring empty: everything before it has been reported. */
  lemma PackFindsEmptyRing(s: Session)
    requires Ok(s) && OffersOk(s) && s.toDaemon.Some?
    ensures s.sys.w.ring == []
  {
    assert Settled(s.(toDaemon := None));
    SettledIsAcknowledged(s.(toDaemon := None));
  }

  /** So the limited append takes as much of it as there is room. */
  lemma PackTaken(s: System, data: seq<byte>)
    requires Inv(s) && s.w.ring == []
    ensures Apply(s, AppWrite(data)).w.book.lens
         == s.w.book.lens + (if IsOpen(s.w) then [Min(|data|, Room(s.w))] else [])
    ensures Apply(s, AppWrite(data)).w.book.reported == s.w.book.reported
  {
  }

  lemma AllFitMore(offers: seq<Offer>)
    requires offers != [] && AllFit(offers[..|offers| - 1])
    ensures AllFit(offers) <==> Fits(offers[|offers| - 1])
    ensures 0 < offers[|offers| - 1].room ==> forall o :: o in offers ==> 0 < o.room
  {
    assert offers == offers[..|offers| - 1] + [offers[|offers| - 1]];
  }

  lemma ArriveOffers(s: Session)
    requires Ok(s) && OffersOk(s) && s.toDaemon.Some?
    ensures OffersOk(Act(s, Arrive))
  {
    var t, data := Act(s, Arrive), s.toDaemon.value;
    PackFindsEmptyRing(s);
    PackTaken(s.sys, data);
    assert t.sys == Apply(s.sys, AppWrite(data)) && t.call == s.call && t.seen == s.seen && t.toDaemon == None;
    assert t.offers == OffersAfter(s, data);
    assert s.seen == |s.sys.w.book.lens|;
    hide Inv, Apply, Room, Act, Added;
    if IsOpen(s.sys.w) {
      assert t.offers[..|t.offers| - 1] == s.offers;
    }
  }

  lemma WakeOffers(s: Session)
    requires Ok(s) && OffersOk(s) && s.call.Waiting? && s.seen < |s.sys.w.book.reported|
    ensures OffersOk(Act(s, Wake))
  {
    ReportedAreLens(s.sys);
    AllFitMore(s.offers);
    var last := s.offers[|s.offers| - 1];
    assert s.call.sdlen == last.len && s.sys.w.book.reported[s.seen] == Min(last.len, last.room) && 0 < last.len;
    hide Inv, Apply, Added, AllFit, Ok;
  }

  lemma ActOffers(s: Session, a: Action)
    requires Ok(s) && OffersOk(s)
    ensures OffersOk(Act(s, a))
  {
    match a
    case Net(e) =>
      if !e.AppWrite? {
        NetLeavesStream(s.sys, e);
        hide Inv, Apply, Added, AllFit;
      }
    case Begin(_) =>
    case Proceed =>
      hide Inv, Apply, Added, AllFit;
    case Arrive => if s.toDaemon.Some? { ArriveOffers(s); }
    case Wake => if s.call.Waiting? && s.seen < |s.sys.w.book.reported| { WakeOffers(s); }
    case Exit =>
  }

  lemma {:induction false} PerformOffers(s: Session, actions: seq<Action>)
    requires Ok(s) && OffersOk(s)
    ensures OffersOk(Perform(s, actions))
    decreases |actions|
  {
    if actions != [] {
      hide Act, Ok, OffersOk;
      ActKeeps(s, actions[0]);
      ActOffers(s, actions[0]);
      PerformOffers(Act(s, actions[0]), actions[1..]);
    }
  }

  /** Whatever the network does: a call returns less than it was given just when one of its packs was
      longer than the ring, or than the limit the ring then had; and a call does not return at all once
      nothing of a pack has been accepted. */
  lemma ShortIffAPackHadNoRoom(size: nat, chunk: nat, maxsnd: nat, actions: seq<Action>)
    requires size < U32 && 0 < maxsnd
    ensures var s := Perform(NewSession(size, chunk, maxsnd), actions);
      s.call.Returned? ==>
        && (s.call.done < |s.call.buff| <==> exists o :: o in s.offers && o.room < o.len)
        && forall o :: o in s.offers ==> 0 < o.room
  {
    PerformOffers(NewSession(size, chunk, maxsnd), actions);
  }

  /** Every pack found the same room; the first is the longest of its call. */
  predicate Offered(s: Session, room: nat, buff: seq<byte>) {
    && (forall o :: o in s.offers ==> o.room == room && o.len <= Min(s.maxsnd, |buff|))
    && (s.offers != [] ==> s.offers[0].len == Min(s.maxsnd, |buff|))
  }

  predicate RoomStays(s: Session, room: nat) {
    && Room(s.sys.w) == room
    && match s.call
       case Idle => true
       case Ready(buff, done) => Offered(s, room, buff) && (s.offers == [] ==> done == 0)
       case Waiting(buff, done, sdlen) => Offered(s, room, buff) && (s.offers == [] ==> sdlen == Min(s.maxsnd, |buff|))
       case Aborted(buff, done, sdlen) => Offered(s, room, buff) && (s.offers == [] ==> sdlen == Min(s.maxsnd, |buff|))
       case Returned(buff, done) => Offered(s, room, buff) && (s.offers == [] ==> buff == [])
  }

  predicate SetsLimit(a: Action) {
    a.Net? && a.e.AppLimit?
  }

  lemma NetLeavesRoom(s: System, e: Event)
    requires Inv(s) && !e.AppLimit?
    ensures Room(Apply(s, e).w) == Room(s.w)
  {
    RingFits(s);
    assert Apply(s, e).w.limit == s.w.limit && Apply(s, e).w.size == s.w.size;
  }

  lemma ArriveRoom(s: Session, room: nat)
    requires Ok(s) && OffersOk(s) && RoomStays(s, room) && s.toDaemon.Some?
    ensures RoomStays(Act(s, Arrive), room)
  {
    var t, data := Act(s, Arrive), s.toDaemon.value;
    NetLeavesRoom(s.sys, AppWrite(data));
    assert Room(t.sys.w) == room && t.call == s.call && t.maxsnd == s.maxsnd;
    assert t.offers == OffersAfter(s, data);
    PackIsPending(s);
    hide Ok, Act, Room, OffersOk;
  }

  lemma PackIsPending(s: Session)
    requires Ok(s) && s.toDaemon.Some?
    ensures s.call.Waiting? || s.call.Aborted?
    ensures |s.toDaemon.value| == s.call.sdlen <= Min(s.maxsnd, |s.call.buff|)
  {
    hide Inv, Added;
  }

  lemma WakeRoom(s: Session, room: nat)
    requires Ok(s) && OffersOk(s) && RoomStays(s, room) && s.call.Waiting? && s.seen < |s.sys.w.book.reported|
    ensures RoomStays(Act(s, Wake), room)
  {
    ReportedWithinLens(s.sys);
    assert s.offers != [];
    var t := Act(s, Wake);
    assert t == Woken(s, s.sys.w.book.reported[s.seen]);
    hide Ok, Act, Room, OffersOk;
  }

  lemma ProceedRoom(s: Session, room: nat)
    requires Ok(s) && RoomStays(s, room) && s.call.Ready?
    ensures RoomStays(Act(s, Proceed), room)
  {
    var t := Act(s, Proceed);
    assert t == Proceeded(s) && t.sys == s.sys && s.call.done <= |s.call.buff| && 0 < s.maxsnd;
    OfferedStays(s, t, room, s.call.buff);
    hide Ok, Act, Room, Offered;
    if s.call.done < |s.call.buff| {
      assert t.call == Waiting(s.call.buff, s.call.done, Min(s.maxsnd, |s.call.buff| - s.call.done));
    } else {
      assert t.call == Returned(s.call.buff, s.call.done);
    }
  }

  lemma OfferedStays(s: Session, t: Session, room: nat, buff: seq<byte>)
    requires Offered(s, room, buff) && t.offers == s.offers && t.maxsnd == s.maxsnd
    ensures Offered(t, room, buff)
  {
  }

  lemma NetRoom(s: Session, e: Event, room: nat)
    requires Ok(s) && RoomStays(s, room) && !e.AppLimit?
    ensures RoomStays(Act(s, Net(e)), room)
  {
    NetLeavesRoom(s.sys, e);
    var t := Act(s, Net(e));
    assert t.call == s.call && t.offers == s.offers && t.maxsnd == s.maxsnd && Room(t.sys.w) == room;
    hide Ok, Act, Room;
  }

  lemma ActRoom(s: Session, a: Action, room: nat)
    requires Ok(s) && OffersOk(s) && RoomStays(s, room) && !SetsLimit(a)
    ensures RoomStays(Act(s, a), room)
  {
    hide Ok, OffersOk;
    match a
    case Net(e) => NetRoom(s, e, room);
    case Begin(_) => hide Apply, Room;
    case Proceed => if s.call.Ready? { ProceedRoom(s, room); }
    case Arrive => if s.toDaemon.Some? { ArriveRoom(s, room); }
    case Wake => if s.call.Waiting? && s.seen < |s.sys.w.book.reported| { WakeRoom(s, room); }
    case Exit => hide Apply, Room;
  }

  lemma {:induction false} PerformRoom(s: Session, actions: seq<Action>, room: nat)
    requires Ok(s) && OffersOk(s) && RoomStays(s, room) && forall a :: a in actions ==> !SetsLimit(a)
    ensures OffersOk(Perform(s, actions)) && RoomStays(Perform(s, actions), room)
    decreases |actions|
  {
    if actions != [] {
      assert !SetsLimit(actions[0]);
      hide Act, Ok, OffersOk, RoomStays, SetsLimit;
      ActKeeps(s, actions[0]);
      ActOffers(s, actions[0]);
      ActRoom(s, actions[0], room);
      PerformRoom(Act(s, actions[0]), actions[1..], room);
    }
  }

  /** While the limit stays as it is, a caller can tell before: a call, or any after it, is cut short
      just when its first pack is longer than the ring and its limit allow. */
  lemma ShortIffFirstPackHasNoRoom(s: Session, buff: seq<byte>, actions: seq<Action>)
    requires Ok(s) && (s.call.Idle? || s.call.Returned?) && forall a :: a in actions ==> !SetsLimit(a)
    ensures var t := Perform(Act(s, Begin(buff)), actions);
      t.call.Returned? ==> (t.call.done < |t.call.buff| <==> Room(s.sys.w) < Min(s.maxsnd, |t.call.buff|))
  {
    ActKeeps(s, Begin(buff));
    var s1 := Act(s, Begin(buff));
    assert OffersOk(s1) && RoomStays(s1, Room(s.sys.w));
    PerformRoom(s1, actions, Room(s.sys.w));
    hide Act, Ok, Room, AllFit, Offered;
    var t := Perform(s1, actions);
    if t.call.Returned? {
      FirstDecides(t, Room(s.sys.w), t.call.buff);
    }
  }

  lemma FirstDecides(s: Session, room: nat, buff: seq<byte>)
    requires Offered(s, room, buff) && (s.offers == [] ==> buff == []) && forall o :: o in s.offers ==> 0 < o.room
    ensures AllFit(s.offers) <==> Min(s.maxsnd, |buff|) <= room
  {
    if s.offers != [] {
      assert s.offers[0] in s.offers;
    }
  }
}
