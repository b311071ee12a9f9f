/** When the send scheduler overlooks a node: the changes that the receiver makes to a socket without a
    lock and without a notification (daemon/sock_node.c). */
module SchedulerRaces {
  import opened Scheduler

  // Changes without a notification.

  /** The receiver has n closed, and tells nobody. */
  predicate ClosesAgain(s: State, e: Step, n: NodeId) {
    e.Finish? && s.receiver == MustClose(n) && Sta(s, n) != Freed
  }

  /** A producer that will notify changes n, or the sender finds it, or what it wants is done, or the
      receiver enters a reply over it. */
  predicate Settles(s: State, e: Step, n: NodeId) {
    match e
    case Test => s.sender.Scan? && s.sender.next < |s.list| && s.list[s.sender.next] == n && Sta(s, n) != Quiet
    case Set(p, m, to) => m == n && At(s, p) == Idle && to != Quiet
    case Gone(p, m) => m == n && At(s, p) == Idle && n !in s.gone
    case Finish(_, more) => s.receiver == MayOpen(n) && !more && Sta(s, n) != Freed
    case Satisfied(m) => m == n && Sta(s, n) == Ready
    case _ => false
  }

  /** Somewhere in the run the receiver closed n again, and nothing settled n from there on. */
  ghost predicate ClosedAgainLast(steps: seq<Step>, n: NodeId) {
    exists i :: 0 <= i < |steps| && LastAt(steps, n, i)
  }

  ghost predicate LastAt(steps: seq<Step>, n: NodeId, i: nat)
    requires i < |steps|
  {
    && ClosesAgain(Run(START, steps[..i]), steps[i], n)
    && forall k :: i < k < |steps| ==> !Settles(Run(START, steps[..k]), steps[k], n)
  }

  lemma {:induction false} RunAppend(s: State, steps: seq<Step>, e: Step)
    ensures Run(s, steps + [e]) == Apply(Run(s, steps), e)
    decreases |steps|
  {
    hide Apply;
    if steps == [] {
      assert [e][1..] == [];
    } else {
      assert (steps + [e])[1..] == steps[1..] + [e];
      RunAppend(Apply(s, steps[0]), steps[1..], e);
    }
  }

  lemma SilentAfterTest(s: State, n: NodeId)
    ensures n in Apply(s, Test).silent <==> n in s.silent && !Settles(s, Test, n)
  {
  }

  lemma SilentAfterChange(s: State, e: Step, n: NodeId)
    requires e.Set? || e.Gone? || e.Satisfied? || e.Finish?
    ensures n in Apply(s, e).silent <==> ClosesAgain(s, e, n) || (n in s.silent && !Settles(s, e, n))
  {
    hide Marked;
  }

  lemma SilentAfterOther(s: State, e: Step)
    requires !e.Test? && !e.Set? && !e.Gone? && !e.Satisfied? && !e.Finish?
    ensures Apply(s, e).silent == s.silent
  {
    hide KeptAlive, Without;
  }

  lemma SilentAfter(s: State, e: Step, n: NodeId)
    ensures n in Apply(s, e).silent <==> ClosesAgain(s, e, n) || (n in s.silent && !Settles(s, e, n))
  {
    hide Apply;
    if e.Test? {
      SilentAfterTest(s, n);
    } else if e.Set? || e.Gone? || e.Satisfied? || e.Finish? {
      SilentAfterChange(s, e, n);
    } else {
      SilentAfterOther(s, e);
    }
  }

  lemma {:induction false} SilentIsClosedAgain(steps: seq<Step>, n: NodeId)
    ensures n in Run(START, steps).silent <==> ClosedAgainLast(steps, n)
    decreases |steps|
  {
    hide Apply, ClosesAgain, Settles, Run;
    if steps == [] {
      assert Run(START, []).silent == {} by { Nothing(); }
    } else {
      var m := |steps| - 1;
      var before, e := steps[..m], steps[m];
      assert steps == before + [e];
      RunAppend(START, before, e);
      SilentAfter(Run(START, before), e, n);
      SilentIsClosedAgain(before, n);
      forall i | 0 <= i < m
        ensures LastAt(steps, n, i) <==> LastAt(before, n, i) && !Settles(Run(START, before), e, n)
      {
        assert forall k :: 0 <= k <= m ==> steps[..k] == before[..k];
        assert before[..m] == before;
      }
      assert LastAt(steps, n, m) <==> ClosesAgain(Run(START, before), e, n);
    }
  }

  lemma Nothing()
    ensures Run(START, []) == START
  {
  }

  /** Exactly when the sender waits in vain: blocked, with a listed node that wants something and nobody
      left to say so. The receiver has closed that node again, and nothing has settled it since. */
  lemma WaitsInVainIff(steps: seq<Step>, n: NodeId)
    requires var s := Run(START, steps); s.sender == Blocked && n in s.list && !Pending(s, n)
    ensures Sta(Run(START, steps), n) != Quiet <==> ClosedAgainLast(steps, n)
  {
    NoLostWakeUp(steps);
    RunKeeps(START, steps);
    hide Run, Apply, ClosedAgainLast, Exclusive, Bounded;
    SilentIsClosedAgain(steps, n);
  }

  /** Every pack is handled in one go: the two looks and what follows from them are not separated. */
  predicate HandledWhole(steps: seq<Step>)
    decreases |steps|
  {
    if steps == [] then true
    else if steps[0].LookSta? then
      |steps| > 2 && steps[1].LookRpc? && steps[2].Finish? && HandledWhole(steps[3..])
    else HandledWhole(steps[1..])
  }

  /** A socket without application is to be closed, and is known to be. */
  predicate GoneIsClosing(s: State) {
    forall n :: n in s.gone ==> PhaseOf(s, n) == Closing
  }

  lemma GoneStaysClosing(s: State, e: Step)
    requires GoneIsClosing(s) && s.receiver == AtRest && s.silent == {} && !e.LookSta?
    ensures GoneIsClosing(Apply(s, e)) && Apply(s, e).receiver == AtRest && Apply(s, e).silent == {}
  {
    hide KeptAlive, Without, Marked, Sta, At;
  }

  /** What the three steps come to when nothing separates them. */
  lemma HandledIs(s: State, n: NodeId, ok: bool, more: bool)
    requires GoneIsClosing(s) && s.receiver == AtRest
    ensures Apply(Apply(Apply(s, LookSta(n)), LookRpc), Finish(ok, more))
         == if n in s.list && PhaseOf(s, n) == Command then Entered(s, n, ok, more) else s
    ensures n in s.list && PhaseOf(s, n) == Command ==> n !in s.gone
  {
    var t := Apply(s, LookSta(n));
    var u := Apply(t, LookRpc);
    if n in s.list && PhaseOf(s, n) == Command {
      assert t == s.(receiver := SawCommand(n)) && u == s.(receiver := MayOpen(n));
    } else if n in s.list && PhaseOf(s, n) == Open {
      assert t == s.(receiver := SawOpen(n)) && u == s;
    } else {
      assert t == s && u == s;
    }
    hide Sta, GoneIsClosing;
  }

  lemma HandledKeepsClosing(s: State, n: NodeId, ok: bool, more: bool)
    requires GoneIsClosing(s) && s.receiver == AtRest && s.silent == {}
    ensures var t := Apply(Apply(Apply(s, LookSta(n)), LookRpc), Finish(ok, more));
      GoneIsClosing(t) && t.receiver == AtRest && t.silent == {}
  {
    HandledIs(s, n, ok, more);
    hide Sta, Apply;
  }

  lemma {:induction false} WholeNeverSilent(s: State, steps: seq<Step>)
    requires HandledWhole(steps) && GoneIsClosing(s) && s.receiver == AtRest && s.silent == {}
    ensures Run(s, steps).silent == {}
    decreases |steps|
  {
    hide Apply, GoneIsClosing;
    if steps != [] {
      if steps[0].LookSta? {
        var t := Apply(s, steps[0]);
        var u := Apply(t, steps[1]);
        assert steps[1..][0] == steps[1] && steps[1..][1..] == steps[2..];
        assert steps[2..][0] == steps[2] && steps[2..][1..] == steps[3..];
        assert steps[1] == LookRpc && steps[2] == Finish(steps[2].ok, steps[2].more);
        HandledKeepsClosing(s, steps[0].n, steps[2].ok, steps[2].more);
        assert Run(s, steps) == Run(t, steps[1..]) == Run(u, steps[2..]) == Run(Apply(u, steps[2]), steps[3..]);
        WholeNeverSilent(Apply(u, steps[2]), steps[3..]);
      } else {
        GoneStaysClosing(s, steps[0]);
        WholeNeverSilent(Apply(s, steps[0]), steps[1..]);
      }
    }
  }

  /** Were each pack handled in one go, as under the socket's own mutex, every listed node that wants
      something would have its notification still to come whenever the sender is blocked. */
  lemma HandledWholeLosesNothing(steps: seq<Step>)
    requires HandledWhole(steps)
    ensures var s := Run(START, steps);
      s.sender == Blocked ==> forall n :: n in s.list && Sta(s, n) != Quiet ==> Pending(s, n)
  {
    NoLostWakeUp(steps);
    WholeNeverSilent(START, steps);
  }

  // Runs in which a change is missed.

  /** Only the two looks are not separated. */
  predicate LooksTogether(steps: seq<Step>)
    decreases |steps|
  {
    if steps == [] then true
    else if steps[0].LookSta? then |steps| > 1 && steps[1].LookRpc? && LooksTogether(steps[2..])
    else LooksTogether(steps[1..])
  }

  lemma {:induction false} TogetherAppend(a: seq<Step>, b: seq<Step>)
    requires LooksTogether(a) && LooksTogether(b)
    ensures LooksTogether(a + b)
    decreases |a|
  {
    if a == [] {
      assert a + b == b;
    } else if a[0].LookSta? {
      assert (a + b)[2..] == a[2..] + b;
      TogetherAppend(a[2..], b);
    } else {
      assert (a + b)[1..] == a[1..] + b;
      TogetherAppend(a[1..], b);
    }
  }

  ghost predicate Reached(s: State, together: bool) {
    exists steps :: Run(START, steps) == s && (together ==> LooksTogether(steps))
  }

  lemma Reach(s: State, e: Step, together: bool)
    requires Reached(s, together) && !(together && e.LookSta?)
    ensures Reached(Apply(s, e), together)
  {
    hide Run, Apply;
    var steps :| Run(START, steps) == s && (together ==> LooksTogether(steps));
    RunAppend(START, steps, e);
    if together {
      assert [e][1..] == [];
      TogetherAppend(steps, [e]);
    }
  }

  lemma ReachLooks(s: State, n: NodeId)
    requires Reached(s, true)
    ensures Reached(Apply(Apply(s, LookSta(n)), LookRpc), true)
  {
    hide Run, Apply;
    var steps :| Run(START, steps) == s && LooksTogether(steps);
    var two := [LookSta(n), LookRpc];
    RunAppend(START, steps, LookSta(n));
    RunAppend(START, steps + [LookSta(n)], LookRpc);
    assert steps + [LookSta(n)] + [LookRpc] == steps + two && two[2..] == [];
    TogetherAppend(steps, two);
  }

  lemma Begin(together: bool)
    ensures Reached(START, together)
  {
    assert Run(START, []) == START;
  }

  lemma SameKey<V>(k: nat, a: V, b: V)
    ensures map[k := a][k := b] == map[k := b]
  {
  }

  function Only(b: bool): set<NodeId> {
    if b then {7} else {}
  }

  lemma OnlySets()
    ensures Only(false) - {7} == Only(false) && Only(false) + {7} == Only(true) == Only(true) + {7}
  {
  }

  /** One listed socket and one producer. */
  function One(phase: Phase, sta: NodeSta, sender: Sender, owner: Owner, scanflg: bool, producer: Producer,
               wasOpen: bool, receiver: Receiver, silent: bool, rescans: nat): State {
    State([7], map[7 := sta], sender, owner, scanflg, map[3 := producer], map[7 := phase], Only(wasOpen), {7},
          receiver, Only(silent), rescans)
  }

  lemma Flagging(together: bool, phase: Phase, sta: NodeSta, wasOpen: bool, r: Receiver)
    requires Reached(One(phase, sta, Blocked, Nobody, false, Wants(7), wasOpen, r, false, 0), together)
    ensures Reached(One(phase, sta, Blocked, Thread(3), true, Flagged(7), wasOpen, r, false, 0), together)
  {
    hide Reached, Only;
    SameKey(3, Wants(7), Locked(7));
    Reach(One(phase, sta, Blocked, Nobody, false, Wants(7), wasOpen, r, false, 0), Lock(3), together);
    SameKey(3, Locked(7), Flagged(7));
    Reach(One(phase, sta, Blocked, Thread(3), false, Locked(7), wasOpen, r, false, 0), Flag(3), together);
  }

  /** The end of the application notifies, and the sender looks again. */
  lemma Notified(together: bool, phase: Phase, sta: NodeSta, wasOpen: bool, r: Receiver)
    requires Reached(One(phase, sta, Blocked, Nobody, false, Wants(7), wasOpen, r, false, 0), together)
    ensures Reached(One(phase, sta, Scan(0), TheSender, true, Idle, wasOpen, r, false, 0), together)
  {
    hide Reached, Only;
    Flagging(together, phase, sta, wasOpen, r);
    SameKey(3, Flagged(7), Done);
    Reach(One(phase, sta, Blocked, Thread(3), true, Flagged(7), wasOpen, r, false, 0), Broadcast(3), together);
    SameKey(3, Done, Idle);
    Reach(One(phase, sta, Woken(false), Thread(3), true, Done, wasOpen, r, false, 0), Unlock(3), together);
    Reach(One(phase, sta, Woken(false), Nobody, true, Idle, wasOpen, r, false, 0), Reacquire({}), together);
  }

  /** With nothing to do, the sender scans twice and blocks. */
  lemma BlocksAgain(together: bool, phase: Phase, wasOpen: bool, r: Receiver)
    requires Reached(One(phase, Quiet, Scan(0), TheSender, true, Idle, wasOpen, r, false, 0), together)
    ensures Reached(One(phase, Quiet, Blocked, Nobody, false, Idle, wasOpen, r, false, 1), together)
  {
    hide Reached, Only;
    Reach(One(phase, Quiet, Scan(0), TheSender, true, Idle, wasOpen, r, false, 0), Test, together);
    Reach(One(phase, Quiet, Scan(1), TheSender, true, Idle, wasOpen, r, false, 0), EndOfPass, together);
    Reach(One(phase, Quiet, Scan(0), TheSender, false, Idle, wasOpen, r, false, 1), Test, together);
    Reach(One(phase, Quiet, Scan(1), TheSender, false, Idle, wasOpen, r, false, 1), EndOfPass, together);
  }

  /** A blocked sender overlooks the socket. */
  ghost predicate Overlooks(s: State) {
    s.sender == Blocked && 7 in s.list && Sta(s, 7) == Ready && !Pending(s, 7)
  }

  /** The receiver finds the application gone and has the socket closed, while the sender is blocked. */
  lemma ClosedWhileBlocked(together: bool, phase: Phase)
    requires Reached(One(phase, Quiet, Blocked, Nobody, false, Idle, true, MustClose(7), false, 1), together)
    ensures exists steps :: Overlooks(Run(START, steps)) && (together ==> LooksTogether(steps))
  {
    var t := One(Closing, Ready, Blocked, Nobody, false, Idle, true, AtRest, true, 1);
    SameKey(7, Quiet, Ready);
    SameKey(7, phase, Closing);
    OnlySets();
    Reach(One(phase, Quiet, Blocked, Nobody, false, Idle, true, MustClose(7), false, 1), Finish(true, false), together);
    assert Overlooks(t);
    hide Run, Only, Overlooks;
    var steps :| Run(START, steps) == t && (together ==> LooksTogether(steps));
  }

  /** The open command has been sent, and the sender is blocked. */
  lemma Commanded()
    ensures Reached(START.(list := [7], phase := map[7 := Command], sender := Blocked), true)
  {
    hide Reached;
    Begin(true);
    Reach(START, Insert(7, 0), true);
    assert Apply(START, Insert(7, 0)).list == [7];
    Reach(START.(list := [7]), SendCommand(7), true);
    var s := START.(list := [7], phase := map[7 := Command]);
    Reach(s, Enter, true);
    Reach(s.(sender := Scan(0), owner := TheSender), Test, true);
    Reach(s.(sender := Scan(1), owner := TheSender), EndOfPass, true);
  }

  /** The receiver has seen the command sent and the application there; then the application ends, and
      only after that the receiver enters the reply: the close is overwritten, and the sender, notified
      of it, finds nothing to do. */
  lemma CloseOverwritten(ok: bool)
    ensures Reached(One(if ok then Open else Fresh, Quiet, Blocked, Nobody, false, Idle, ok, AtRest, false, 1), true)
  {
    hide Reached;
    Commanded();
    var s := START.(list := [7], phase := map[7 := Command], sender := Blocked);
    ReachLooks(s, 7);
    Reach(s.(receiver := MayOpen(7)), Gone(3, 7), true);
    SameKey(7, Command, Closing);
    OnlySets();
    assert Apply(s.(receiver := MayOpen(7)), Gone(3, 7))
        == One(Closing, Unopened, Blocked, Nobody, false, Wants(7), false, MayOpen(7), false, 0);
    Reply(ok);
    Notified(true, if ok then Open else Fresh, Quiet, ok, AtRest);
    BlocksAgain(true, if ok then Open else Fresh, ok, AtRest);
  }

  lemma Reply(ok: bool)
    requires Reached(One(Closing, Unopened, Blocked, Nobody, false, Wants(7), false, MayOpen(7), false, 0), true)
    ensures Reached(One(if ok then Open else Fresh, Quiet, Blocked, Nobody, false, Wants(7), ok, AtRest, false, 0), true)
  {
    hide Reached;
    Reach(One(Closing, Unopened, Blocked, Nobody, false, Wants(7), false, MayOpen(7), false, 0), Finish(ok, false), true);
    SameKey(7, Closing, if ok then Open else Fresh);
    SameKey(7, Unopened, Quiet);
    OnlySets();
  }

  /** After an overwritten close the next pack has the socket closed silently: a missed change although
      the two looks are never separated. */
  lemma OverwrittenCloseIsMissed()
    ensures exists steps :: Overlooks(Run(START, steps)) && LooksTogether(steps)
  {
    hide Reached, Run, Overlooks, Only;
    CloseOverwritten(true);
    ReachLooks(One(Open, Quiet, Blocked, Nobody, false, Idle, true, AtRest, false, 1), 7);
    ClosedWhileBlocked(true, Open);
  }

  /** The socket is open and the sender blocked. */
  lemma Opened()
    ensures Reached(START.(list := [7], phase := map[7 := Open], sta := map[7 := Quiet], hasOpened := {7},
                           sender := Blocked), false)
  {
    hide Reached;
    Commanded();
    var s := START.(list := [7], phase := map[7 := Command], sender := Blocked);
    assert Reached(s, false) by { Loosen(s); }
    Reach(s, LookSta(7), false);
    Reach(s.(receiver := SawCommand(7)), LookRpc, false);
    Reach(s.(receiver := MayOpen(7)), Finish(true, false), false);
    SameKey(7, Command, Open);
    assert s.hasOpened + {7} == {7} && s.silent - {7} == {};
  }

  lemma Loosen(s: State)
    requires Reached(s, true)
    ensures Reached(s, false)
  {
  }

  /** The receiver sees the socket open; then the application ends, and the socket's close is sent. */
  lemma CloseSent()
    ensures Reached(One(Closing, Quiet, Blocked, Nobody, false, Idle, true, SawOpen(7), false, 1), false)
  {
    hide Reached;
    Opened();
    var s := START.(list := [7], phase := map[7 := Open], sta := map[7 := Quiet], hasOpened := {7}, sender := Blocked);
    Reach(s, LookSta(7), false);
    Reach(s.(receiver := SawOpen(7)), Gone(3, 7), false);
    SameKey(7, Open, Closing);
    SameKey(7, Quiet, Ready);
    OnlySets();
    assert Apply(s.(receiver := SawOpen(7)), Gone(3, 7))
        == One(Closing, Ready, Blocked, Nobody, false, Wants(7), true, SawOpen(7), false, 0);
    Notified(false, Closing, Ready, true, SawOpen(7));
    Sent();
  }

  lemma Sent()
    requires Reached(One(Closing, Ready, Scan(0), TheSender, true, Idle, true, SawOpen(7), false, 0), false)
    ensures Reached(One(Closing, Quiet, Blocked, Nobody, false, Idle, true, SawOpen(7), false, 1), false)
  {
    hide Reached;
    var r := SawOpen(7);
    OnlySets();
    Reach(One(Closing, Ready, Scan(0), TheSender, true, Idle, true, r, false, 0), Test, false);
    Reach(One(Closing, Ready, Found(7), TheSender, true, Idle, true, r, false, 0), Release, false);
    SameKey(7, Ready, Quiet);
    Reach(One(Closing, Ready, Outside, Nobody, true, Idle, true, r, false, 0), Satisfied(7), false);
    Reach(One(Closing, Quiet, Outside, Nobody, true, Idle, true, r, false, 0), Enter, false);
    BlocksAgain(false, Closing, true, r);
  }

  /** The other way: only after the close has been sent the receiver finds the application gone and has
      the socket closed once more. */
  lemma ClosedAgainIsMissed()
    ensures exists steps :: Overlooks(Run(START, steps))
  {
    hide Reached, Run, Overlooks, Only;
    CloseSent();
    Reach(One(Closing, Quiet, Blocked, Nobody, false, Idle, true, SawOpen(7), false, 1), LookRpc, false);
    ClosedWhileBlocked(false, Closing);
  }

  // A close that is lost for good.

  /** The socket is listed, has no application and is not open, wants nothing, and no pack for it is being
      handled. */
  predicate Lost(s: State, n: NodeId) {
    && n in s.list && n in s.gone && PhaseOf(s, n) == Fresh && Sta(s, n) == Quiet
    && (s.receiver.AtRest? || s.receiver.node != n)
  }

  /** The step makes a request of its own of n: a producer, or the keep-alive of a hardware node. */
  predicate Requests(e: Step, n: NodeId) {
    (e.Set? && e.n == n) || (e.Reacquire? && n in e.keepAlive)
  }

  lemma {:induction false} WithoutOther(list: seq<NodeId>, m: NodeId, n: NodeId)
    requires n in list && n != m
    ensures n in Without(list, m)
    decreases |list|
  {
    if list[0] != m && list[0] != n {
      WithoutOther(list[1..], m, n);
    }
  }

  lemma LostToReceiver(s: State, e: Step, n: NodeId)
    requires Lost(s, n) && (e.LookSta? || e.LookRpc? || e.Finish? || e.SendCommand?)
    ensures Lost(Apply(s, e), n)
  {
    hide At;
  }

  lemma LostToSender(s: State, e: Step, n: NodeId)
    requires Lost(s, n) && !Requests(e, n)
    requires e.Enter? || e.Test? || e.EndOfPass? || e.Release? || e.Timeout? || e.Reacquire? || e.Satisfied?
    ensures Lost(Apply(s, e), n)
  {
    if e.Release? && s.sender.Found? && Sta(s, s.sender.node) == Freed {
      WithoutOther(s.list, s.sender.node, n);
    }
    hide At, ToClose, Without;
  }

  lemma LostStays(s: State, e: Step, n: NodeId)
    requires Lost(s, n) && !Requests(e, n)
    ensures Lost(Apply(s, e), n)
  {
    if e.LookSta? || e.LookRpc? || e.Finish? || e.SendCommand? {
      LostToReceiver(s, e, n);
    } else if e.Enter? || e.Test? || e.EndOfPass? || e.Release? || e.Timeout? || e.Reacquire? || e.Satisfied? {
      LostToSender(s, e, n);
    } else {
      LostToProducer(s, e, n);
    }
    hide Apply;
  }

  lemma LostToProducer(s: State, e: Step, n: NodeId)
    requires Lost(s, n) && !Requests(e, n)
    requires e.Set? || e.Gone? || e.Lock? || e.Flag? || e.Broadcast? || e.Unlock? || e.Insert?
    ensures Lost(Apply(s, e), n)
  {
    hide At;
  }

  lemma {:induction false} LostForGood(s: State, steps: seq<Step>, n: NodeId)
    requires Lost(s, n) && forall e :: e in steps ==> !Requests(e, n)
    ensures Lost(Run(s, steps), n)
    decreases |steps|
  {
    hide Lost, Apply, Requests;
    if steps != [] {
      LostStays(s, steps[0], n);
      LostForGood(Apply(s, steps[0]), steps[1..], n);
    }
  }

  ghost predicate LostAlways(s: State, n: NodeId) {
    forall steps :: (forall e :: e in steps ==> !Requests(e, n)) ==> Lost(Run(s, steps), n)
  }

  /** When the reply that overwrites the close says that the open failed, the socket is never closed: with
      the sender blocked and no notification to come it stays listed without application, and no pack
      and no timeout makes it want anything again. */
  lemma FailedReplyLosesTheClose()
    ensures exists s :: Reached(s, true) && s.sender == Blocked && !Pending(s, 7) && LostAlways(s, 7)
  {
    CloseOverwritten(false);
    var s := One(Fresh, Quiet, Blocked, Nobody, false, Idle, false, AtRest, false, 1);
    assert Lost(s, 7) && !Pending(s, 7);
    hide Reached, Lost, Run, Requests;
    forall steps | forall e :: e in steps ==> !Requests(e, 7)
      ensures Lost(Run(s, steps), 7)
    {
      LostForGood(s, steps, 7);
    }
  }
}
