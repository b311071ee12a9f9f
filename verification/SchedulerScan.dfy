/** What the sender finds, and what becomes of a freed node: the scan of daemon/usb_event_list.c. */
module SchedulerScan {
  import opened Scheduler

  // The list.

  predicate Unique(list: seq<NodeId>) {
    forall i, j :: 0 <= i < j < |list| ==> list[i] != list[j]
  }

  function IndexOf(list: seq<NodeId>, n: NodeId): (k: nat)
    requires n in list
    ensures k < |list| && list[k] == n
  {
    if list[0] == n then 0 else 1 + IndexOf(list[1..], n)
  }

  lemma {:induction false} WithoutIs(list: seq<NodeId>, n: NodeId)
    requires n in list
    ensures Without(list, n) == list[..IndexOf(list, n)] + list[IndexOf(list, n) + 1..]
    decreases |list|
  {
    if list[0] != n {
      var rest := list[1..];
      var k := IndexOf(rest, n);
      WithoutIs(rest, n);
      assert Without(list, n) == [list[0]] + (rest[..k] + rest[k + 1..]);
      hide Without, IndexOf;
      assert rest[k + 1..] == list[k + 2..];
      assert list[..k + 1] == [list[0]] + rest[..k];
    }
  }

  /** Taking a node out leaves all the others, in their order. */
  lemma WithoutKeepsOthers(list: seq<NodeId>, n: NodeId)
    requires Unique(list) && n in list
    ensures Unique(Without(list, n)) && n !in Without(list, n)
    ensures exists k :: 0 <= k < |list| && list[k] == n && Without(list, n) == list[..k] + list[k + 1..]
  {
    hide Without, IndexOf;
    WithoutIs(list, n);
  }

  lemma {:induction false} WithoutUnique(list: seq<NodeId>, n: NodeId)
    requires Unique(list)
    ensures Unique(Without(list, n))
  {
    if n in list {
      WithoutKeepsOthers(list, n);
    } else {
      WithoutNothing(list, n);
    }
  }

  lemma {:induction false} WithoutNothing(list: seq<NodeId>, n: NodeId)
    requires n !in list
    ensures Without(list, n) == list
    decreases |list|
  {
    if list != [] {
      WithoutNothing(list[1..], n);
    }
  }

  lemma StepKeepsUnique(s: State, e: Step)
    requires Unique(s.list)
    ensures Unique(Apply(s, e).list)
  {
    if e.Release? && s.sender.Found? {
      WithoutUnique(s.list, s.sender.node);
    }
    hide Without, Sta, At, PhaseOf, KeptAlive, Marked;
  }

  /** In every run no node is listed twice. */
  lemma {:induction false} NeverListedTwice(s: State, steps: seq<Step>)
    requires Unique(s.list)
    ensures Unique(Run(s, steps).list)
    decreases |steps|
  {
    if steps != [] {
      StepKeepsUnique(s, steps[0]);
      hide Apply;
      NeverListedTwice(Apply(s, steps[0]), steps[1..]);
    }
  }

  /** A freed node that the sender has found leaves the list, and no other does; any other node stays. */
  lemma ReleaseTakesOutFreed(s: State, n: NodeId)
    requires Unique(s.list) && s.sender == Found(n) && n in s.list
    ensures var t := Apply(s, Release);
      && t.sender == Outside && t.owner == Nobody
      && if Sta(s, n) == Freed then
           n !in t.list && exists k :: 0 <= k < |s.list| && s.list[k] == n && t.list == s.list[..k] + s.list[k + 1..]
         else t.list == s.list
  {
    WithoutKeepsOthers(s.list, n);
  }

  predicate OutForGood(s: State, n: NodeId) {
    Sta(s, n) == Freed && n !in s.list
  }

  lemma StepStaysOut(s: State, e: Step, n: NodeId)
    requires OutForGood(s, n)
    ensures OutForGood(Apply(s, e), n)
  {
    FreedStays(s, e, n);
    if e.Release? && s.sender.Found? {
      NothingNew(s.list, s.sender.node, n);
    }
    hide Without, At, PhaseOf, KeptAlive, Marked;
  }

  lemma {:induction false} NothingNew(list: seq<NodeId>, n: NodeId, m: NodeId)
    requires m !in list
    ensures m !in Without(list, n)
  {
    if list != [] && list[0] != n {
      NothingNew(list[1..], n, m);
    }
  }

  lemma {:induction false} StaysOut(s: State, steps: seq<Step>, n: NodeId)
    requires OutForGood(s, n)
    ensures OutForGood(Run(s, steps), n)
    decreases |steps|
  {
    if steps != [] {
      StepStaysOut(s, steps[0], n);
      hide Apply, OutForGood;
      StaysOut(Apply(s, steps[0]), steps[1..], n);
    }
  }

  /** Once taken out, whatever any thread does, a freed node is never listed again. */
  lemma FreedLeavesForGood(s: State, n: NodeId, later: seq<Step>)
    requires Unique(s.list) && s.sender == Found(n) && n in s.list && Sta(s, n) == Freed
    ensures n !in Run(s, [Release] + later).list
  {
    ReleaseTakesOutFreed(s, n);
    assert ([Release] + later)[1..] == later;
    FreedStays(s, Release, n);
    StaysOut(Apply(s, Release), later, n);
  }

  // The scan, undisturbed.

  /** Something to send, or to be taken out. */
  predicate Wanting(s: State, n: NodeId) {
    Sta(s, n) == Ready || Sta(s, n) == Freed
  }

  function Tests(k: nat): seq<Step> {
    seq(k, _ => Test)
  }

  lemma TestsNext(s: State, k: nat)
    requires k > 0
    ensures Run(s, Tests(k)) == Run(Apply(s, Test), Tests(k - 1))
  {
    hide Apply;
    assert Tests(k)[0] == Test && Tests(k)[1..] == Tests(k - 1);
  }

  lemma NoTests(s: State)
    ensures Run(s, Tests(0)) == s
  {
  }

  /** Passed over: nodes that want nothing stay so, and those to be closed unopened have freed themselves. */
  predicate PassedOver(s: State, t: State, from: nat, to: nat)
    requires from <= to <= |s.list|
  {
    && t.list == s.list
    && (forall k :: 0 <= k < from ==> Sta(t, s.list[k]) == Sta(s, s.list[k]))
    && (forall k :: from <= k < to ==> Sta(t, s.list[k]) == if Sta(s, s.list[k]) == Unopened then Freed else Quiet)
    && (forall k :: to <= k < |s.list| ==> Sta(t, s.list[k]) == Sta(s, s.list[k]))
    && (t.scanflg <==> s.scanflg || exists k :: from <= k < to && Sta(s, s.list[k]) == Unopened)
  }

  lemma OneOver(s: State, from: nat)
    requires Unique(s.list) && s.sender == Scan(from) && from < |s.list| && !Wanting(s, s.list[from])
    ensures var t := Apply(s, Test);
      t.sender == Scan(from + 1) && PassedOver(s, t, from, from + 1) && t.rescans == s.rescans
  {
  }

  lemma {:induction false} PassesOver(s: State, from: nat, n: nat)
    requires Unique(s.list) && s.sender == Scan(from) && from + n <= |s.list|
    requires forall k :: from <= k < from + n ==> !Wanting(s, s.list[k])
    ensures var t := Run(s, Tests(n));
      t.sender == Scan(from + n) && PassedOver(s, t, from, from + n) && t.rescans == s.rescans
    decreases n
  {
    if n == 0 {
      NoTests(s);
    } else {
      OneOver(s, from);
      TestsNext(s, n);
      var m := Apply(s, Test);
      hide Run, Apply, Tests, PassedOver;
      StillNotWanting(s, m, from, n);
      PassesOver(m, from + 1, n - 1);
      OverChains(s, m, Run(m, Tests(n - 1)), from, n);
    }
  }

  lemma StillNotWanting(s: State, m: State, from: nat, n: nat)
    requires 0 < n && from + n <= |s.list| && PassedOver(s, m, from, from + 1)
    requires forall k :: from <= k < from + n ==> !Wanting(s, s.list[k])
    ensures m.list == s.list && forall k :: from + 1 <= k < from + n ==> !Wanting(m, m.list[k])
  {
  }

  lemma OverChains(s: State, m: State, t: State, from: nat, n: nat)
    requires 0 < n && from + n <= |s.list| && PassedOver(s, m, from, from + 1)
    requires m.list == s.list && PassedOver(m, t, from + 1, from + n)
    ensures PassedOver(s, t, from, from + n)
  {
  }

  /** The sender finds the first node, in the order of the list, that wants something. */
  lemma FindsTheFirst(s: State, from: nat, j: nat)
    requires Unique(s.list) && s.sender == Scan(from) && from <= j < |s.list|
    requires Wanting(s, s.list[j]) && forall k :: from <= k < j ==> !Wanting(s, s.list[k])
    ensures var t := Run(s, Tests(j - from + 1)); t.sender == Found(s.list[j]) && Wanting(t, s.list[j])
  {
    PassesOver(s, from, j - from);
    var m := Run(s, Tests(j - from));
    assert Wanting(m, m.list[j]);
    TestsConcat(s, j - from);
    hide Run, Tests, Apply, PassedOver, Wanting;
    TestFinds(m, j);
  }

  lemma TestFinds(s: State, j: nat)
    requires s.sender == Scan(j) && j < |s.list| && Wanting(s, s.list[j])
    ensures Apply(s, Test).sender == Found(s.list[j]) && Wanting(Apply(s, Test), s.list[j])
  {
  }

  lemma {:induction false} TestsConcat(s: State, k: nat)
    ensures Run(s, Tests(k + 1)) == Apply(Run(s, Tests(k)), Test)
    decreases k
  {
    hide Apply;
    TestsNext(s, k + 1);
    if k == 0 {
      NoTests(s);
      NoTests(Apply(s, Test));
    } else {
      TestsNext(s, k);
      TestsConcat(Apply(s, Test), k - 1);
    }
  }

  predicate OwnSteps(steps: seq<Step>) {
    forall i :: 0 <= i < |steps| ==> steps[i] == Test || steps[i] == EndOfPass
  }

  ghost predicate EndsWithFound(s: State, steps: seq<Step>) {
    && OwnSteps(steps) && Run(s, steps).sender.Found?
    && Wanting(Run(s, steps), Run(s, steps).sender.node)
  }

  lemma FoundInThisPass(s: State, j: nat) returns (steps: seq<Step>)
    requires Unique(s.list) && s.sender == Scan(0) && j < |s.list| && Wanting(s, s.list[j])
    ensures EndsWithFound(s, steps)
  {
    var f := FirstWanting(s, j);
    FindsTheFirst(s, 0, f);
    steps := Tests(f + 1);
  }

  /** With nothing to find, and an unopened node to be closed, the pass ends, and the next finds that node freed. */
  lemma NextPass(s: State, k: nat) returns (u: State)
    requires Unique(s.list) && s.sender == Scan(0) && k < |s.list| && Sta(s, s.list[k]) == Unopened
    requires forall j :: 0 <= j < |s.list| ==> !Wanting(s, s.list[j])
    ensures u == Apply(Run(s, Tests(|s.list|)), EndOfPass)
    ensures u.sender == Scan(0) && u.list == s.list && Wanting(u, s.list[k])
  {
    var n := |s.list|;
    PassesOver(s, 0, n);
    var m := Run(s, Tests(n));
    u := Apply(m, EndOfPass);
    assert m.scanflg && Sta(m, s.list[k]) == Freed;
    hide Run, Tests;
  }

  lemma TwoPasses(s: State, u: State, more: seq<Step>)
    requires u == Apply(Run(s, Tests(|s.list|)), EndOfPass) && EndsWithFound(u, more)
    ensures EndsWithFound(s, Tests(|s.list|) + ([EndOfPass] + more))
  {
    OwnConcat(|s.list|, more);
    hide Apply, Run, Tests, OwnSteps, Wanting;
    RunConcat(s, Tests(|s.list|), [EndOfPass] + more);
    RunHead(Run(s, Tests(|s.list|)), EndOfPass, more);
  }

  lemma RunHead(s: State, e: Step, more: seq<Step>)
    ensures Run(s, [e] + more) == Run(Apply(s, e), more)
  {
    hide Apply;
    assert ([e] + more)[1..] == more;
  }

  lemma OwnConcat(n: nat, more: seq<Step>)
    requires OwnSteps(more)
    ensures OwnSteps(Tests(n) + ([EndOfPass] + more))
  {
  }

  lemma QuietStays(s: State, e: Step)
    requires (e == Test || e == EndOfPass) && (forall n :: n in s.list ==> Sta(s, n) == Quiet) && !s.sender.Found?
    ensures var t := Apply(s, e); t.list == s.list && t.sta == s.sta && !t.sender.Found?
  {
  }

  lemma {:induction false} NothingToFind(s: State, steps: seq<Step>)
    requires OwnSteps(steps) && (forall n :: n in s.list ==> Sta(s, n) == Quiet) && !s.sender.Found?
    ensures !Run(s, steps).sender.Found?
    decreases |steps|
  {
    if steps != [] {
      QuietStays(s, steps[0]);
      hide Apply;
      NothingToFind(Apply(s, steps[0]), steps[1..]);
    }
  }

  /** A scan from the front that nobody disturbs can end with a node found if and only if some listed node wants
      something: at the latest in the second pass, when one has freed itself in the first. */
  lemma UndisturbedScanFindsIff(s: State)
    requires Unique(s.list) && s.sender == Scan(0)
    ensures (exists steps :: EndsWithFound(s, steps)) <==> exists n :: n in s.list && Sta(s, n) != Quiet
  {
    hide Run, Apply, EndsWithFound, Unique, Tests;
    if n :| n in s.list && Sta(s, n) != Quiet {
      var k :| 0 <= k < |s.list| && s.list[k] == n;
      if j :| 0 <= j < |s.list| && Wanting(s, s.list[j]) {
        var steps := FoundInThisPass(s, j);
      } else {
        var u := NextPass(s, k);
        var more := FoundInThisPass(u, k);
        TwoPasses(s, u, more);
      }
    } else {
      forall steps
        ensures !EndsWithFound(s, steps)
      {
        NeverFound(s, steps);
      }
    }
  }

  lemma NeverFound(s: State, steps: seq<Step>)
    requires (forall n :: n in s.list ==> Sta(s, n) == Quiet) && !s.sender.Found?
    ensures !EndsWithFound(s, steps)
  {
    if OwnSteps(steps) {
      NothingToFind(s, steps);
    }
  }

  lemma {:induction false} FirstWanting(s: State, j: nat) returns (f: nat)
    requires j < |s.list| && Wanting(s, s.list[j])
    ensures f <= j && Wanting(s, s.list[f]) && forall k :: 0 <= k < f ==> !Wanting(s, s.list[k])
  {
    f := 0;
    while !Wanting(s, s.list[f])
      invariant f <= j && forall k :: 0 <= k < f ==> !Wanting(s, s.list[k])
      decreases j - f
    {
      f := f + 1;
    }
  }

  lemma {:induction false} RunConcat(s: State, a: seq<Step>, b: seq<Step>)
    ensures Run(s, a + b) == Run(Run(s, a), b)
    decreases |a|
  {
    hide Apply;
    if a == [] {
      assert a + b == b;
    } else {
      assert (a + b)[1..] == a[1..] + b;
      RunConcat(Apply(s, a[0]), a[1..], b);
    }
  }
}
