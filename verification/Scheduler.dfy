/** The send scheduler of daemon/usb_event_list.c: one sender that scans the node list and waits, any
    number of producers that change a node's state and then notify, and the receiver, which looks at a
    socket without a lock and may change its state without notifying (daemon/sock_node.c). Every step
    below is one that the threads can take between each other's; a step that is not possible leaves
    the state as it is. */
module Scheduler {

  /** What a node wants: nothing, to send, to be closed although it was never opened, to be removed. */
  datatype NodeSta = Quiet | Ready | Unopened | Freed

  type NodeId = nat
  type ThreadId = nat

  /** Where the sender is. It holds the mutex while scanning and when it has found a node. Woken is
      out of the condition wait but not yet holding the mutex again. */
  datatype Sender =
    | Outside
    | Scan(next: nat)
    | Found(node: NodeId)
    | Blocked
    | Woken(timedOut: bool)

  /** Where a producer is with its notification for a node whose state it has set. */
  datatype Producer =
    | Idle
    | Wants(node: NodeId)
    | Locked(node: NodeId)
    | Flagged(node: NodeId)
    | Done

  /** What a socket's own state is: not open, its open command sent, open, or to be closed. */
  datatype Phase = Fresh | Command | Open | Closing

  /** Where the receiver is with a pack for a socket: it has seen that the open command was sent, or that
      the socket is open; it has then seen that the application is there and is about to enter the
      reply to the command, or that it is gone and is about to have the socket closed. */
  datatype Receiver =
    | AtRest
    | SawCommand(node: NodeId)
    | SawOpen(node: NodeId)
    | MayOpen(node: NodeId)
    | MustClose(node: NodeId)

  datatype Owner = Nobody | TheSender | Thread(id: ThreadId)

  /** hasOpened holds the sockets that were ever opened, gone those whose application has ended, silent the
      nodes whose state was last changed without a notification to follow; rescans counts how often
      the sender started the scan over since it took the mutex. */
  datatype State = State(
    list: seq<NodeId>,
    sta: map<NodeId, NodeSta>,
    sender: Sender,
    owner: Owner,
    scanflg: bool,
    producers: map<ThreadId, Producer>,
    phase: map<NodeId, Phase>,
    hasOpened: set<NodeId>,
    gone: set<NodeId>,
    receiver: Receiver,
    silent: set<NodeId>,
    rescans: nat)

  function Sta(s: State, n: NodeId): NodeSta {
    if n in s.sta then s.sta[n] else Quiet
  }

  function PhaseOf(s: State, n: NodeId): Phase {
    if n in s.phase then s.phase[n] else Fresh
  }

  function At(s: State, p: ThreadId): Producer {
    if p in s.producers then s.producers[p] else Idle
  }

  datatype Step =
    | Enter
    | Test
    | EndOfPass
    | Release
    | Timeout
    | Reacquire(keepAlive: set<NodeId>)
    | Set(p: ThreadId, n: NodeId, to: NodeSta)
    | SendCommand(n: NodeId)
    | Gone(p: ThreadId, n: NodeId)
    | LookSta(n: NodeId)
    | LookRpc
    | Finish(ok: bool, more: bool)
    | Satisfied(n: NodeId)
    | Lock(p: ThreadId)
    | Flag(p: ThreadId)
    | Broadcast(p: ThreadId)
    | Unlock(p: ThreadId)
    | Insert(n: NodeId, at: nat)

  /** A freed node stays freed. */
  function Marked(s: State, n: NodeId, to: NodeSta): map<NodeId, NodeSta> {
    if Sta(s, n) == Freed then s.sta else s.sta[n := to]
  }

  /** The scan's look at one node; a node to be closed that was never opened frees itself, which
      notifies from within the scan. */
  function Tested(s: State, i: nat): State
    requires i < |s.list|
  {
    var n := s.list[i];
    match Sta(s, n)
    case Quiet => s.(sender := Scan(i + 1))
    case Unopened => s.(sta := s.sta[n := Freed], scanflg := true, sender := Scan(i + 1), silent := s.silent - {n})
    case _ => s.(sender := Found(n), silent := s.silent - {n})
  }

  /** What a socket wants that is to be closed. */
  function ToClose(s: State, n: NodeId): NodeSta {
    if n in s.hasOpened then Ready else Unopened
  }

  /** The receiver has the socket closed, and tells nobody. */
  function Closed(s: State, n: NodeId): State {
    if Sta(s, n) == Freed then s.(receiver := AtRest)
    else s.(sta := s.sta[n := ToClose(s, n)], phase := s.phase[n := Closing], silent := s.silent + {n},
            receiver := AtRest)
  }

  /** The receiver enters the reply to the open command, whatever the state has become meanwhile. An ioctl
      request keeps the node wanting more. */
  function Entered(s: State, n: NodeId, ok: bool, more: bool): State {
    var t := s.(phase := s.phase[n := if ok then Open else Fresh],
                hasOpened := if ok then s.hasOpened + {n} else s.hasOpened, receiver := AtRest);
    if more || Sta(s, n) == Freed then t else t.(sta := s.sta[n := Quiet], silent := s.silent - {n})
  }

  function Apply(s: State, e: Step): State {
    match e
    case Enter =>
      if s.sender == Outside && s.owner == Nobody then s.(sender := Scan(0), owner := TheSender, rescans := 0) else s
    case Test =>
      if s.sender.Scan? && s.sender.next < |s.list| then Tested(s, s.sender.next) else s
    case EndOfPass =>
      if s.sender.Scan? && s.sender.next == |s.list| then
        if s.scanflg then s.(scanflg := false, sender := Scan(0), rescans := s.rescans + 1)
        else s.(sender := Blocked, owner := Nobody)
      else s
    case Release =>
      if s.sender.Found? then
        var n := s.sender.node;
        s.(list := if Sta(s, n) == Freed then Without(s.list, n) else s.list, sender := Outside, owner := Nobody)
      else s
    case Timeout => if s.sender == Blocked then s.(sender := Woken(true)) else s
    case Reacquire(keepAlive) =>
      if s.sender.Woken? && s.owner == Nobody then
        s.(sender := Scan(0), owner := TheSender, rescans := 0,
           sta := if s.sender.timedOut then KeptAlive(s.sta, keepAlive) else s.sta)
      else s
    case Set(p, n, to) =>
      if At(s, p) == Idle && to != Quiet then
        s.(sta := Marked(s, n, to), producers := s.producers[p := Wants(n)], silent := s.silent - {n})
      else s
    case SendCommand(n) =>
      if PhaseOf(s, n) == Fresh && n !in s.gone then s.(phase := s.phase[n := Command]) else s
    case Gone(p, n) =>
      if At(s, p) == Idle && n !in s.gone then
        s.(sta := Marked(s, n, ToClose(s, n)), producers := s.producers[p := Wants(n)], silent := s.silent - {n},
           phase := s.phase[n := Closing], gone := s.gone + {n})
      else s
    case LookSta(n) =>
      if s.receiver == AtRest && n in s.list then
        s.(receiver := match PhaseOf(s, n)
                       case Command => SawCommand(n)
                       case Open => SawOpen(n)
                       case _ => AtRest)
      else s
    case LookRpc =>
      if s.receiver.SawCommand? || s.receiver.SawOpen? then
        var n := s.receiver.node;
        s.(receiver := if n in s.gone then MustClose(n) else if s.receiver.SawCommand? then MayOpen(n) else AtRest)
      else s
    case Finish(ok, more) =>
      match s.receiver {
        case MayOpen(n) => Entered(s, n, ok, more)
        case MustClose(n) => Closed(s, n)
        case _ => s
      }
    case Satisfied(n) =>
      if Sta(s, n) == Ready then s.(sta := s.sta[n := Quiet], silent := s.silent - {n}) else s
    case Lock(p) =>
      if At(s, p).Wants? && s.owner == Nobody then
        s.(owner := Thread(p), producers := s.producers[p := Locked(At(s, p).node)])
      else s
    case Flag(p) =>
      if At(s, p).Locked? then s.(scanflg := true, producers := s.producers[p := Flagged(At(s, p).node)]) else s
    case Broadcast(p) =>
      if At(s, p).Flagged? then
        s.(sender := if s.sender == Blocked then Woken(false) else s.sender, producers := s.producers[p := Done])
      else s
    case Unlock(p) =>
      if At(s, p) == Done then s.(owner := Nobody, producers := s.producers[p := Idle]) else s
    case Insert(n, at) =>
      if s.owner == Nobody && n !in s.list && at <= |s.list| && Sta(s, n) == Quiet then
        s.(list := s.list[..at] + [n] + s.list[at..])
      else s
  }

  function Without(list: seq<NodeId>, n: NodeId): seq<NodeId> {
    if list == [] then []
    else if list[0] == n then list[1..]
    else [list[0]] + Without(list[1..], n)
  }

  /** The keep-alive request made of the hardware nodes after a timeout. */
  function KeptAlive(sta: map<NodeId, NodeSta>, hard: set<NodeId>): map<NodeId, NodeSta> {
    sta + map n | n in hard && (n !in sta || sta[n] == Quiet) :: Ready
  }

  const START := State([], map[], Outside, Nobody, false, map[], map[], {}, {}, AtRest, {}, 0)

  function Run(s: State, steps: seq<Step>): State
    decreases |steps|
  {
    if steps == [] then s else Run(Apply(s, steps[0]), steps[1..])
  }

  /** Some producer that set the state of n has its notification still to give. */
  ghost predicate Pending(s: State, n: NodeId) {
    exists p :: NotifyOwed(s, p, n)
  }

  predicate NotifyOwed(s: State, p: ThreadId, n: NodeId) {
    var a := At(s, p);
    a == Wants(n) || a == Locked(n) || a == Flagged(n)
  }

  /** The node wants something, and whoever made it so has notified or need not. */
  ghost predicate Overlooked(s: State, n: NodeId) {
    Sta(s, n) != Quiet && n !in s.silent && !Pending(s, n)
  }

  /** The mutex is held by whoever is in a critical section, and by one thread at a time. */
  predicate InSection(a: Producer) {
    a.Locked? || a.Flagged? || a == Done
  }

  ghost predicate Exclusive(s: State) {
    && (s.sender.Scan? || s.sender.Found? <==> s.owner == TheSender)
    && (forall p :: InSection(At(s, p)) <==> s.owner == Thread(p))
  }

  /** Nothing behind the scan is overlooked unless the flag forces a rescan; nothing at all is
      overlooked while the sender is blocked. */
  ghost predicate Watched(s: State) {
    match s.sender
    case Scan(i) => i <= |s.list| && (s.scanflg || forall j :: 0 <= j < i ==> !Overlooked(s, s.list[j]))
    case Blocked => forall n :: n in s.list ==> !Overlooked(s, n)
    case _ => true
  }

  /** Why the scan starts over at most twice: the second time a freed node lies ahead. */
  ghost predicate Bounded(s: State) {
    s.sender.Scan? ==>
      && s.rescans <= 2
      && (s.rescans == 1 && s.scanflg ==> exists j :: 0 <= j < |s.list| && Sta(s, s.list[j]) == Freed)
      && (s.rescans == 2 ==> exists j :: s.sender.next <= j < |s.list| && Sta(s, s.list[j]) == Freed)
  }

  /** A node changed silently wants something. */
  ghost predicate Silenced(s: State) {
    forall n :: n in s.silent ==> Sta(s, n) != Quiet
  }

  ghost predicate Inv(s: State) {
    Exclusive(s) && Watched(s) && Bounded(s) && Silenced(s)
  }

  lemma ProducersStay(s: State, e: Step)
    requires !e.Set? && !e.Gone? && !e.Lock? && !e.Flag? && !e.Broadcast? && !e.Unlock?
    ensures Apply(s, e).producers == s.producers
  {
    hide Sta, PhaseOf, Without, KeptAlive, ToClose, Marked;
  }

  lemma StillOwed(s: State, e: Step, p: ThreadId, n: NodeId)
    requires NotifyOwed(s, p, n) && !(e.Broadcast? && At(s, e.p) == Flagged(n))
    requires e.Set? || e.Gone? || e.Lock? || e.Flag? || e.Broadcast? || e.Unlock?
    ensures NotifyOwed(Apply(s, e), p, n)
  {
    hide Sta, PhaseOf, Without, KeptAlive, ToClose, Marked;
  }

  /** Only the broadcast itself settles an owed notification. */
  lemma PendingStays(s: State, e: Step, n: NodeId)
    requires Pending(s, n) && !(e.Broadcast? && At(s, e.p) == Flagged(n))
    ensures Pending(Apply(s, e), n)
  {
    hide Apply;
    var p :| NotifyOwed(s, p, n);
    if e.Set? || e.Gone? || e.Lock? || e.Flag? || e.Broadcast? || e.Unlock? {
      StillOwed(s, e, p, n);
    } else {
      ProducersStay(s, e);
    }
    assert NotifyOwed(Apply(s, e), p, n);
  }

  /** A producer that sets a node's state owes its notification. */
  lemma SetIsPending(s: State, p: ThreadId, n: NodeId, to: NodeSta)
    requires At(s, p) == Idle && to != Quiet
    ensures Pending(Apply(s, Set(p, n, to)), n)
  {
    assert NotifyOwed(Apply(s, Set(p, n, to)), p, n);
  }

  /** While the sender scans or is blocked, a node becomes overlooked only by the scan freeing it, or
      by a broadcast. */
  lemma NotOverlooked(s: State, e: Step, n: NodeId)
    requires !Overlooked(s, n) && !e.Broadcast? && !e.Test? && !e.Reacquire?
    ensures !Overlooked(Apply(s, e), n)
  {
    if e.Set? && e.n == n && At(s, e.p) == Idle && e.to != Quiet {
      SetIsPending(s, e.p, n, e.to);
    } else if e.Gone? && Apply(s, e) != s && e.n == n {
      assert NotifyOwed(Apply(s, e), e.p, n);
    } else if Pending(s, n) {
      PendingStays(s, e, n);
    }
  }

  lemma TestKeeps(s: State)
    requires Inv(s)
    ensures Inv(Apply(s, Test))
  {
    if s.sender.Scan? && s.sender.next < |s.list| {
      var i := s.sender.next;
      var n, s' := s.list[i], Apply(s, Test);
      if Sta(s, n) == Unopened {
        assert Sta(s', s'.list[i]) == Freed;
      }
      if Sta(s, n) == Quiet || Sta(s, n) == Unopened {
        forall m | !Overlooked(s, m) && m != n
          ensures !Overlooked(s', m)
        {
          if Pending(s, m) {
            PendingStays(s, Test, m);
          }
        }
      }
    }
  }

  lemma EndOfPassKeeps(s: State)
    requires Inv(s)
    ensures Inv(Apply(s, EndOfPass))
  {
    forall n | !Overlooked(s, n)
      ensures !Overlooked(Apply(s, EndOfPass), n)
    {
      NotOverlooked(s, EndOfPass, n);
    }
  }

  // Every other step is taken outside the mutex, or by a producer inside it.

  /** They neither move the scan nor start one anywhere but at the front, and nobody but a broadcast ends
      the wait early. */
  lemma OthersShape(s: State, e: Step)
    requires Exclusive(s) && !e.Test? && !e.EndOfPass?
    ensures var s' := Apply(s, e);
      s.sender.Scan? ==> s'.sender == s.sender && s'.list == s.list && s'.rescans == s.rescans
    ensures s.sender.Scan? && s.scanflg ==> Apply(s, e).scanflg
    ensures !s.sender.Scan? && Apply(s, e).sender.Scan? ==> Apply(s, e).sender == Scan(0) && Apply(s, e).rescans == 0
    ensures Apply(s, e).sender == Blocked ==> s.sender == Blocked
    ensures forall n :: n in Apply(s, e).list && s.sender == Blocked ==> n in s.list || Sta(Apply(s, e), n) == Quiet
    ensures (e.Broadcast? || e.Reacquire?) && (s.sender.Scan? || Apply(s, e).sender == Blocked) ==> Apply(s, e) == s
  {
    hide KeptAlive, Marked;
  }

  lemma OthersWatched(s: State, e: Step)
    requires Inv(s) && !e.Test? && !e.EndOfPass?
    ensures Watched(Apply(s, e))
  {
    var s' := Apply(s, e);
    OthersShape(s, e);
    if !e.Broadcast? && !e.Reacquire? {
      forall n | !Overlooked(s, n)
        ensures !Overlooked(s', n)
      {
        NotOverlooked(s, e, n);
      }
    }
    assert forall n :: Overlooked(s', n) ==> Sta(s', n) != Quiet;
    hide Overlooked, Exclusive, Bounded, Silenced, Apply;
  }

  lemma FreedStays(s: State, e: Step, n: NodeId)
    requires Sta(s, n) == Freed
    ensures Sta(Apply(s, e), n) == Freed
  {
    hide Without;
  }

  lemma FlagNeedsMutex(s: State, e: Step)
    requires Exclusive(s) && s.sender.Scan? && !e.Test?
    ensures Apply(s, e).scanflg ==> s.scanflg
  {
    hide KeptAlive, Without, Marked;
  }

  lemma OthersBounded(s: State, e: Step)
    requires Inv(s) && !e.Test? && !e.EndOfPass?
    ensures Bounded(Apply(s, e))
  {
    var s' := Apply(s, e);
    OthersShape(s, e);
    if s.sender.Scan? {
      FlagNeedsMutex(s, e);
      forall n | Sta(s, n) == Freed
        ensures Sta(s', n) == Freed
      {
        FreedStays(s, e, n);
      }
    }
    hide Apply, Sta, Exclusive, Watched, Silenced;
  }

  lemma OthersExclusive(s: State, e: Step)
    requires Inv(s) && !e.Test? && !e.EndOfPass?
    ensures Exclusive(Apply(s, e))
  {
    hide Watched, Bounded, Silenced, Sta, PhaseOf, Marked, KeptAlive, Without, ToClose;
  }

  lemma ChangeSilenced(s: State, e: Step)
    requires Silenced(s) && (e.Set? || e.Gone? || e.Satisfied? || e.Finish? || e.Reacquire?)
    ensures Silenced(Apply(s, e))
  {
    hide PhaseOf, Without;
  }

  lemma OthersSilenced(s: State, e: Step)
    requires Inv(s) && !e.Test? && !e.EndOfPass?
    ensures Silenced(Apply(s, e))
  {
    if e.Set? || e.Gone? || e.Satisfied? || e.Finish? || e.Reacquire? {
      ChangeSilenced(s, e);
    } else {
      assert Apply(s, e).sta == s.sta && Apply(s, e).silent == s.silent;
    }
    hide Watched, Bounded, Exclusive, Without, Apply;
  }

  lemma OthersKeep(s: State, e: Step)
    requires Inv(s) && !e.Test? && !e.EndOfPass?
    ensures Inv(Apply(s, e))
  {
    OthersWatched(s, e);
    OthersBounded(s, e);
    OthersExclusive(s, e);
    OthersSilenced(s, e);
    hide Apply, Exclusive, Watched, Bounded, Silenced;
  }

  lemma StepKeeps(s: State, e: Step)
    requires Inv(s)
    ensures Inv(Apply(s, e))
  {
    hide Inv, Apply;
    match e
    case Test => TestKeeps(s);
    case EndOfPass => EndOfPassKeeps(s);
    case _ => OthersKeep(s, e);
  }

  lemma {:induction false} RunKeeps(s: State, steps: seq<Step>)
    requires Inv(s)
    ensures Inv(Run(s, steps))
    decreases |steps|
  {
    if steps != [] {
      StepKeeps(s, steps[0]);
      RunKeeps(Apply(s, steps[0]), steps[1..]);
    }
  }

  /** In every run: while the sender is blocked and not woken, whoever made a listed node want
      something and notifies for it has still to do so; the scan starts over at most twice; and at
      most one thread is inside the mutex. */
  lemma NoLostWakeUp(steps: seq<Step>)
    ensures var s := Run(START, steps);
      && (s.sender == Blocked ==>
            forall n :: n in s.list && Sta(s, n) != Quiet ==> n in s.silent || Pending(s, n))
      && (s.sender.Scan? ==> s.rescans <= 2)
      && Exclusive(s)
  {
    RunKeeps(START, steps);
    var s := Run(START, steps);
    forall n | s.sender == Blocked && n in s.list && Sta(s, n) != Quiet
      ensures n in s.silent || Pending(s, n)
    {
      assert !Overlooked(s, n);
    }
  }

  /** How many more steps of its own the sender can take before it leaves the scan. */
  function StepsLeft(s: State): int
    requires s.sender.Scan?
  {
    var pass := |s.list| + 1;
    (if s.rescans == 0 then 2 * pass else if s.rescans == 1 then pass else 0) + |s.list| - s.sender.next
  }

  lemma ScanGoesOn(s: State)
    requires s.sender.Scan? && Watched(s) && Bounded(s)
    ensures 0 <= StepsLeft(s) && s.sender.next <= |s.list|
    ensures s.rescans <= 2 && (s.rescans == 2 ==> s.sender.next < |s.list|)
    ensures Apply(s, Test) != s || Apply(s, EndOfPass) != s
  {
  }

  lemma TestEnds(s: State)
    requires Inv(s) && s.sender.Scan?
    ensures var s' := Apply(s, Test); s'.sender.Scan? ==> StepsLeft(s') < StepsLeft(s) || s' == s
  {
    hide Inv;
  }

  lemma PassEnds(s: State)
    requires Inv(s) && s.sender.Scan?
    ensures var s' := Apply(s, EndOfPass); s'.sender.Scan? ==> StepsLeft(s') < StepsLeft(s) || s' == s
  {
    ScanGoesOn(s);
    hide Inv;
  }

  lemma OthersLeaveScan(s: State, e: Step)
    requires Inv(s) && s.sender.Scan? && !e.Test? && !e.EndOfPass?
    ensures var s' := Apply(s, e); s'.sender == s.sender && s'.list == s.list && s'.rescans == s.rescans
  {
    assert s.owner == TheSender;
    hide Inv, Exclusive, Watched, Bounded, Silenced, Marked, KeptAlive, Without;
  }

  /** Scanning ends: each of the sender's own steps brings the end nearer, and no step of any other
      thread, taken in between, moves it away again. */
  lemma ScanEnds(s: State, e: Step)
    requires Inv(s) && s.sender.Scan?
    ensures 0 <= StepsLeft(s)
    ensures var s' := Apply(s, e);
      if e.Test? || e.EndOfPass? then
        s'.sender.Scan? ==> StepsLeft(s') < StepsLeft(s) || s' == s
      else s'.sender == s.sender && StepsLeft(s') == StepsLeft(s)
    ensures Apply(s, Test) != s || Apply(s, EndOfPass) != s
  {
    ScanGoesOn(s);
    hide Inv, Apply;
    if e.Test? {
      TestEnds(s);
    } else if e.EndOfPass? {
      PassEnds(s);
    } else {
      OthersLeaveScan(s, e);
    }
  }

  /** A node that freed itself during the pass is not left behind: the pass is followed by another,
      and not for the third time. */
  lemma FreedForcesRescan(s: State, n: NodeId)
    requires Inv(s) && s.sender == Scan(|s.list|)
    requires n in s.list && Sta(s, n) == Freed && n !in s.silent && !Pending(s, n)
    ensures Apply(s, EndOfPass).sender == Scan(0) && Apply(s, EndOfPass).rescans <= 2
  {
    var j :| 0 <= j < |s.list| && s.list[j] == n;
    assert Overlooked(s, s.list[j]);
  }
}
