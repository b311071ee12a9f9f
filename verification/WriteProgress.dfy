/** The other side of SocketWrite: a blocking write that has room can always be brought to its end. */
module WriteProgress {
  import opened Bytes
  import opened SocketSpec
  import opened WindowInvariant
  import opened GoBackN
  import opened Recovery
  import opened SocketWrite

  function Nets(events: seq<Event>): (actions: seq<Action>)
    ensures |actions| == |events|
  {
    seq(|events|, i requires 0 <= i < |events| => Net(events[i]))
  }

  lemma {:induction false} NetsPerform(s: Session, events: seq<Event>)
    requires Ok(s) && forall e :: e in events ==> !OfApplication(e)
    ensures Perform(s, Nets(events)) == s.(sys := Run(s.sys, events))
    ensures Room(Run(s.sys, events).w) == Room(s.sys.w)
    decreases |events|
  {
    if events != [] {
      var e := events[0];
      assert e in events;
      RingFits(s.sys);
      NetLeavesRoom(s.sys, e);
      StepKeeps(s.sys, e);
      ActKeeps(s, Net(e));
      assert Act(s, Net(e)) == s.(sys := Apply(s.sys, e));
      assert Nets(events)[1..] == Nets(events[1..]);
      hide Ok, Inv, Apply, Act, Room;
      NetsPerform(s.(sys := Apply(s.sys, e)), events[1..]);
    }
  }

  /** Some actions lead from one session to the other, without the limit being set. */
  ghost predicate Leads(s: Session, t: Session) {
    Ok(s) && exists actions :: (forall a :: a in actions ==> !SetsLimit(a)) && Perform(s, actions) == t
  }

  lemma {:induction false} PerformConcat(s: Session, a: seq<Action>, b: seq<Action>)
    requires Ok(s)
    ensures Perform(s, a + b) == Perform(Perform(s, a), b)
    decreases |a|
  {
    hide Ok, Act;
    if a == [] {
      assert a + b == b;
    } else {
      assert (a + b)[1..] == a[1..] + b;
      ActKeeps(s, a[0]);
      PerformConcat(Act(s, a[0]), a[1..], b);
    }
  }

  lemma LeadsOn(s: Session, t: Session, u: Session)
    requires Leads(s, t) && Leads(t, u)
    ensures Leads(s, u)
  {
    hide Ok, Perform, SetsLimit;
    var a :| (forall x :: x in a ==> !SetsLimit(x)) && Perform(s, a) == t;
    var b :| (forall x :: x in b ==> !SetsLimit(x)) && Perform(t, b) == u;
    PerformConcat(s, a, b);
    assert forall x :: x in a + b ==> !SetsLimit(x);
  }

  lemma LeadsBy(s: Session, a: Action)
    requires Ok(s) && !SetsLimit(a)
    ensures Leads(s, Act(s, a))
  {
    hide Ok, Act, SetsLimit;
    ActKeeps(s, a);
    assert Perform(s, [a]) == Perform(Act(s, a), [][..]) by {
      assert [a][1..] == [];
    }
    assert forall x :: x in [a] ==> !SetsLimit(x);
  }

  /** Daemon and device finish what is outstanding. */
  lemma Served(s: Session) returns (t: System)
    requires Ok(s) && Live(s.sys)
    ensures Leads(s, s.(sys := t)) && Live(t) && Room(t.w) == Room(s.sys.w)
    ensures t.w.book.reported == t.w.book.lens == s.sys.w.book.lens
  {
    hide Live, Ok, Serves, Leads, Room;
    NeverBeyondRepair(s.sys);
    t :| Serves(s.sys, t) && Live(t) && t.w.book.reported == t.w.book.lens == s.sys.w.book.lens;
    ServedBy(s, t);
  }

  lemma ServedBy(s: Session, t: System)
    requires Ok(s) && Serves(s.sys, t)
    ensures Leads(s, s.(sys := t)) && Room(t.w) == Room(s.sys.w)
  {
    hide Inv, Ok, Run, Perform, Room;
    var events: seq<Event> :| (forall e :: e in events ==> !OfApplication(e)) && Run(s.sys, events) == t;
    NetsPerform(s, events);
    NetsSetNothing(events);
  }

  lemma NetsSetNothing(events: seq<Event>)
    requires forall e :: e in events ==> !OfApplication(e)
    ensures forall a :: a in Nets(events) ==> !SetsLimit(a)
  {
    forall a | a in Nets(events)
      ensures !SetsLimit(a)
    {
      var i :| 0 <= i < |events| && Nets(events)[i] == a;
      assert events[i] in events;
    }
  }

  /** One more pack of the call can be written, accepted whole, and reported. */
  predicate HasRoom(s: Session) {
    && Ok(s) && Live(s.sys) && s.call.Ready?
    && s.call.done <= |s.call.buff|
    && Min(s.maxsnd, |s.call.buff| - s.call.done) <= Room(s.sys.w)
  }

  lemma LiveWrite(s: System, data: seq<byte>)
    requires Live(s)
    ensures |s.w.ring| <= s.w.size && Live(Apply(s, AppWrite(data))) && IsOpen(s.w)
  {
    RingFits(s);
    StepKeeps(s, AppWrite(data));
    hide Inv;
  }

  lemma WritePack(s: Session) returns (t: Session)
    requires HasRoom(s) && s.call.done < |s.call.buff|
    ensures Leads(s, t) && Ok(t) && Live(t.sys) && Room(t.sys.w) == Room(s.sys.w) && t.maxsnd == s.maxsnd
    ensures var n := Min(s.maxsnd, |s.call.buff| - s.call.done);
      && t.call == Waiting(s.call.buff, s.call.done, n) && t.toDaemon == None
      && t.sys.w.book.lens == s.sys.w.book.lens + [n] && t.seen == s.seen == |s.sys.w.book.lens|
  {
    var n := Min(s.maxsnd, |s.call.buff| - s.call.done);
    var data := s.call.buff[s.call.done..s.call.done + n];
    var m := Act(s, Proceed);
    assert m == s.(call := Waiting(s.call.buff, s.call.done, n), toDaemon := Some(data));
    ActKeeps(s, Proceed);
    ActKeeps(m, Arrive);
    SettledIsAcknowledged(s);
    assert s.sys.w.ring == [];
    SocketWrite.PackTaken(s.sys, data);
    LiveWrite(s.sys, data);
    NetLeavesRoom(s.sys, AppWrite(data));
    t := Act(m, Arrive);
    assert t.sys == Apply(s.sys, AppWrite(data)) && t.seen == s.seen && t.call == m.call;
    hide Ok, Live, Inv, Apply, Act, Room, Perform;
    LeadsBy(s, Proceed);
    LeadsBy(m, Arrive);
    LeadsOn(s, m, t);
  }

  lemma WakesWithAll(s: Session, n: nat)
    requires Ok(s) && s.call.Waiting? && s.call.sdlen == n && s.seen + 1 == |s.sys.w.book.lens|
    requires s.sys.w.book.reported == s.sys.w.book.lens && s.sys.w.book.lens[s.seen] == n
    ensures Act(s, Wake) == s.(seen := s.seen + 1, call := Ready(s.call.buff, s.call.done + n))
    ensures Leads(s, Act(s, Wake)) && Ok(Act(s, Wake))
  {
    ActKeeps(s, Wake);
    assert 0 < n;
    hide Inv, Added, Perform;
    LeadsBy(s, Wake);
  }

  lemma OneMorePack(s: Session) returns (t: Session)
    requires HasRoom(s) && s.call.done < |s.call.buff|
    ensures Leads(s, t) && HasRoom(t) && t.call.buff == s.call.buff
    ensures t.call.done == s.call.done + Min(s.maxsnd, |s.call.buff| - s.call.done) > s.call.done
  {
    var n := Min(s.maxsnd, |s.call.buff| - s.call.done);
    assert 0 < n;
    hide Ok, Live, Act, Room, Leads;
    var m := WritePack(s);
    var sys := Served(m);
    var u := m.(sys := sys);
    LeadsOn(s, m, u);
    LeadsIsOk(m, u);
    WakesWithAll(u, n);
    t := Act(u, Wake);
    LeadsOn(s, u, t);
  }

  lemma LeadsIsOk(s: Session, t: Session)
    requires Leads(s, t)
    ensures Ok(t) && t.maxsnd == s.maxsnd
  {
  }

  lemma {:induction false} RunsToTheEnd(s: Session) returns (t: Session)
    requires HasRoom(s)
    ensures Leads(s, t) && t.call == Returned(s.call.buff, |s.call.buff|)
    decreases |s.call.buff| - s.call.done
  {
    if s.call.done < |s.call.buff| {
      hide Leads, HasRoom;
      var m := OneMorePack(s);
      HasRoomIs(s);
      HasRoomIs(m);
      t := RunsToTheEnd(m);
      LeadsOn(s, m, t);
    } else {
      t := Act(s, Proceed);
      assert t.call == Returned(s.call.buff, |s.call.buff|);
      hide Ok, Act;
      LeadsBy(s, Proceed);
    }
  }

  lemma HasRoomIs(s: Session)
    requires HasRoom(s)
    ensures Ok(s) && s.call.Ready? && s.call.done <= |s.call.buff|
  {
  }

  /** A call on a socket open at both ends can return its full length, without the limit being changed, if and
      only if its first pack fits the ring and the limit. */
  lemma CanWriteAllIff(s: Session, buff: seq<byte>)
    requires Ok(s) && Live(s.sys) && (s.call.Idle? || s.call.Returned?)
    ensures Min(s.maxsnd, |buff|) <= Room(s.sys.w) <==>
      exists t :: Leads(Act(s, Begin(buff)), t) && t.call == Returned(buff, |buff|)
  {
    var s1 := Act(s, Begin(buff));
    ActKeeps(s, Begin(buff));
    assert s1.call == Ready(buff, 0) && s1.sys == s.sys && s1.maxsnd == s.maxsnd;
    if Min(s.maxsnd, |buff|) <= Room(s.sys.w) {
      hide Ok, Live, Act, Room, Leads;
      var t := RunsToTheEnd(s1);
    } else {
      hide Ok, Live, Act, Room, Perform, SetsLimit;
      forall t | Leads(s1, t)
        ensures t.call != Returned(buff, |buff|)
      {
        var actions :| (forall a :: a in actions ==> !SetsLimit(a)) && Perform(s1, actions) == t;
        ShortIffFirstPackHasNoRoom(s, buff, actions);
      }
    }
  }
}
