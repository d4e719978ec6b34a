/** No wake-up is lost: after a path has been freed, whoever still waits would be refused if it were tried
    again, and whoever has been served is told so. */
module QueueProgress {
  import opened Wrappers
  import opened NodeTree
  import opened TreeLocks
  import opened PathQueue
  import opened PathProtocol

  // ---------------------------------------------------------------- more locks, fewer grants

  /** Nothing has been unlocked, and no mark is gone. */
  ghost predicate Tighter(s: State, s': State) {
    && SameShape(s.tree, s'.tree)
    && (forall tk :: tk in s.holds ==> tk in s'.holds && s'.holds[tk] == s.holds[tk])
    && (forall n :: n in s.tree.nodes && Marked(s.tree.nodes[n].treelock) ==> Marked(s'.tree.nodes[n].treelock))
  }

  lemma StillThere(s: State, s': State, n: Id)
    requires Tighter(s, s') && n in s.tree.nodes
    ensures !Unwritten(s, n) ==> n in s'.tree.nodes && !Unwritten(s', n)
    ensures !Untouched(s, n) ==> !Untouched(s', n)
  {
    assert Writing(s.holds, n) <= Writing(s'.holds, n);
    assert Crossing(s.holds, n) <= Crossing(s'.holds, n);
  }

  lemma SameShapeAskable(t: Tree, t': Tree, want: Want)
    requires SameShape(t, t') && Askable(t, want)
    ensures Askable(t', want) && WriteTarget(t', want) == WriteTarget(t, want)
  {
  }

  /** What is refused for now stays refused while nothing is unlocked. */
  lemma RefusalPersists(s: State, s': State, want: Want)
    requires Core(s) && Core(s') && Tighter(s, s') && Askable(s.tree, want) && TryPath(s.tree, want).1 == Retry
    ensures want.base in s'.tree.nodes && TryPath(s'.tree, want).1 == Retry
  {
    var c := ChainOf(s.tree.nodes, want.base);
    SameShapeAskable(s.tree, s'.tree, want);
    SameShapeChain(s.tree, s'.tree, c);
    GrantedExactly(s, want, c);
    GrantedExactly(s', want, c);
    if c[|c| - 1] != ROOT {
      BrokenIsRefused(s.tree, s.holds, want);
    }
    forall n | n in s.tree.nodes
      ensures !Unwritten(s, n) ==> n in s'.tree.nodes && !Unwritten(s', n)
      ensures !Untouched(s, n) ==> !Untouched(s', n)
    {
      StillThere(s, s', n);
    }
    if TryPath(s'.tree, want).1 == NoEntry {
      RefusedIsBroken(s'.tree, want);
      SameShapeBroken(s'.tree, s.tree, want.base);
      BrokenIsRefused(s.tree, s.holds, want);
    }
  }

  // ---------------------------------------------------------------- what tightens

  lemma TighterTrans(s: State, s': State, s'': State)
    requires Tighter(s, s') && Tighter(s', s'')
    ensures Tighter(s, s'')
  {
  }

  lemma AttemptTightens(s: State, tk: Ticket, want: Option<Want>)
    requires Core(s) && tk.req in s.active && (want.Some? ==> Askable(s.tree, want.value))
    ensures Core(Attempt(s, tk, want).0) && Tighter(s, Attempt(s, tk, want).0)
  {
    AttemptKeeps(s, tk, want);
    if want.Some? && tk !in s.holds {
      forall n | n in s.tree.nodes && Marked(s.tree.nodes[n].treelock)
        ensures Marked(Grab(s, tk, want.value).0.tree.nodes[n].treelock)
      {
        MarkStopsReaders(s, tk, want.value, n);
      }
    }
  }

  lemma MarkedHasReaders(s: State, holds: Holds, n: Id)
    requires Core(s) && n in s.tree.nodes && Marked(s.tree.nodes[n].treelock)
    requires forall tk :: tk in s.holds ==> tk in holds && holds[tk] == s.holds[tk]
    ensures |Crossing(holds, n)| > 0
  {
    assert LockOk(s.tree, s.holds, n);
    SubsetCardinality(Crossing(s.holds, n), Crossing(holds, n));
  }

  /** Giving back what was not there to begin with. */
  lemma DropTightens(s: State, s1: State, tk: Ticket)
    requires Core(s) && Core(s1) && Tighter(s, s1) && tk !in s.holds && (tk.second ==> Ticket(tk.req, false) !in s1.holds)
    ensures Core(Drop(s1, tk)) && Tighter(s, Drop(s1, tk))
  {
    DropKeeps(s1, tk);
    if tk in s1.holds {
      var s' := Drop(s1, tk);
      forall n | n in s.tree.nodes && Marked(s.tree.nodes[n].treelock)
        ensures Marked(s'.tree.nodes[n].treelock)
      {
        MarkOutlastsReaders(s1, tk, n);
        MarkedHasReaders(s, s'.holds, n);
      }
    }
  }

  lemma DropBothTightens(s: State, s1: State, req: nat)
    requires Core(s) && Core(s1) && Tighter(s, s1) && HoldsNone(s, req)
    ensures Core(DropBoth(s1, req)) && Tighter(s, DropBoth(s1, req)) && HoldsNone(DropBoth(s1, req), req)
  {
    DropBothKeeps(s1, req);
    DropTightens(s, s1, Ticket(req, false));
    DropKeeps(s1, Ticket(req, false));
    DropTightens(s, Drop(s1, Ticket(req, false)), Ticket(req, true));
  }

  /** A grant marks nobody. */
  lemma GrantMarksNobody(s: State, tk: Ticket, want: Want, n: Id)
    requires Core(s) && Askable(s.tree, want) && tk !in s.holds && TryPath(s.tree, want).1 == Granted
    requires n in s.tree.nodes && !Marked(s.tree.nodes[n].treelock)
    ensures !Marked(Grab(s, tk, want).0.tree.nodes[n].treelock)
  {
    GrantedHold(s.tree, want);
  }

  lemma SameHold(t: Tree, t': Tree, want: Want)
    requires Shaped(t) && Shaped(t') && SameShape(t, t') && Askable(t, want)
    ensures want.base in t'.nodes && TryPath(t', want).2 == TryPath(t, want).2
  {
    var c := ChainOf(t.nodes, want.base);
    SameShapeChain(t, t', c);
    ChainUnique(t'.nodes, c, ChainOf(t'.nodes, want.base));
  }

  lemma MarksAreOrdered(s: State, s': State, tk: Ticket, want: Want, n: Id)
    requires Core(s) && Core(s') && Tighter(s, s') && Askable(s.tree, want) && Askable(s'.tree, want)
    requires tk !in s.holds && tk !in s'.holds && TryPath(s.tree, want).1 == Granted
    requires n in s.tree.nodes && n in s'.tree.nodes
    ensures Marked(Grab(s, tk, want).0.tree.nodes[n].treelock) ==> Marked(Grab(s', tk, want).0.tree.nodes[n].treelock)
  {
    if Marked(s.tree.nodes[n].treelock) {
      MarkStopsReaders(s', tk, want, n);
    } else {
      GrantMarksNobody(s, tk, want, n);
    }
  }

  /** The same path is granted in the tighter state with the same hold, if at all. */
  lemma GrabsAreOrdered(s: State, s': State, tk: Ticket, want: Want)
    requires Core(s) && Core(s') && Tighter(s, s') && Askable(s.tree, want) && tk.req in s.active && tk.req in s'.active
    requires tk !in s.holds && tk !in s'.holds && TryPath(s.tree, want).1 == Granted
    requires want.base in s'.tree.nodes && TryPath(s'.tree, want).1 == Granted
    ensures Tighter(Grab(s, tk, want).0, Grab(s', tk, want).0)
  {
    SameShapeAskable(s.tree, s'.tree, want);
    SameHold(s.tree, s'.tree, want);
    GrantKeepsShape(s, tk, want);
    GrantKeepsShape(s', tk, want);
    var s1, s1' := Grab(s, tk, want).0, Grab(s', tk, want).0;
    forall n | n in s1.tree.nodes && Marked(s1.tree.nodes[n].treelock)
      ensures Marked(s1'.tree.nodes[n].treelock)
    {
      MarksAreOrdered(s, s', tk, want, n);
    }
  }

  lemma GrantKeepsShape(s: State, tk: Ticket, want: Want)
    requires Core(s) && Askable(s.tree, want) && tk !in s.holds && tk.req in s.active && TryPath(s.tree, want).1 == Granted
    ensures SameShape(s.tree, Grab(s, tk, want).0.tree)
    ensures Grab(s, tk, want).0.holds == s.holds[tk := TryPath(s.tree, want).2]
  {
    GrabKeeps(s, tk, want);
  }

  // ---------------------------------------------------------------- elements that wait

  /** The second path is refused even if the first has just been locked. */
  ghost predicate BothRefused(t: Tree, first: Want, second: Option<Want>)
    requires Shaped(t) && first.base in t.nodes
  {
    var (t1, r1, _) := TryPath(t, first);
    || r1 == Retry
    || (r1 == Granted && second.Some? && Shaped(t1) && second.value.base in t1.nodes && TryPath(t1, second.value).1 == Retry)
  }

  /** The element lacks a path, and would be refused for now if it were tried again. */
  ghost predicate Stuck(t: Tree, holds: Holds, q: Waiter)
    requires q.PathWaiter?
  {
    && Shaped(t) && q.first.base in t.nodes && (q.second.Some? ==> q.second.value.base in t.nodes)
    && if Ticket(q.req, false) in holds then q.second.Some? && TryPath(t, q.second.value).1 == Retry
       else if Ticket(q.req, true) in holds then TryPath(t, q.first).1 == Retry
       else BothRefused(t, q.first, q.second)
  }

  ghost predicate SameHolds(s: State, s': State, req: nat) {
    (HoldsFirst(s, req) <==> HoldsFirst(s', req)) && (HoldsSecond(s, req) <==> HoldsSecond(s', req))
  }

  /** Trying both paths fails for now exactly when one of them is refused. */
  lemma TryBothRefused(s: State, req: nat, first: Want, second: Option<Want>)
    requires Core(s) && req in s.active && HoldsNone(s, req)
    requires Askable(s.tree, first) && (second.Some? ==> Askable(s.tree, second.value))
    ensures TryBoth(s, req, first, second).1 == Retry <==> BothRefused(s.tree, first, second)
  {
    GrabKeeps(s, Ticket(req, false), first);
    if second.Some? {
      SameShapeAskable(s.tree, Grab(s, Ticket(req, false), first).0.tree, second.value);
    }
  }

  lemma BothStayRefused(s: State, s': State, q: Waiter)
    requires q.PathWaiter? && Core(s) && Core(s') && Tighter(s, s') && WaiterLive(s, q) && q.req in s'.active
    requires HoldsNone(s, q.req) && HoldsNone(s', q.req) && BothRefused(s.tree, q.first, q.second)
    ensures q.first.base in s'.tree.nodes && BothRefused(s'.tree, q.first, q.second)
  {
    var tk := Ticket(q.req, false);
    SameShapeAskable(s.tree, s'.tree, q.first);
    if TryPath(s.tree, q.first).1 == Retry {
      RefusalPersists(s, s', q.first);
    } else {
      GrabKeeps(s, tk, q.first);
      GrabKeeps(s', tk, q.first);
      if Broken(s'.tree, q.first.base) {
        SameShapeBroken(s'.tree, s.tree, q.first.base);
      }
      if TryPath(s'.tree, q.first).1 == Granted {
        var s1, s1' := Grab(s, tk, q.first).0, Grab(s', tk, q.first).0;
        GrabsAreOrdered(s, s', tk, q.first);
        SameShapeAskable(s.tree, s1.tree, q.second.value);
        RefusalPersists(s1, s1', q.second.value);
      }
    }
  }

  lemma StuckPersists(s: State, s': State, q: Waiter)
    requires q.PathWaiter? && Core(s) && Core(s') && Tighter(s, s') && WaiterLive(s, q) && q.req in s'.active
    requires SameHolds(s, s', q.req) && Stuck(s.tree, s.holds, q)
    ensures Stuck(s'.tree, s'.holds, q)
  {
    if HoldsFirst(s, q.req) {
      RefusalPersists(s, s', q.second.value);
    } else if HoldsSecond(s, q.req) {
      RefusalPersists(s, s', q.first);
    } else {
      BothStayRefused(s, s', q);
    }
  }

  // ---------------------------------------------------------------- waking up

  /** Waking an element other than the head unlocks nothing that was locked before. */
  lemma WakeupTightens(s: State, i: nat)
    requires Inv(s) && 0 < i < |s.queue|
    ensures Tighter(s, Wakeup(s, i))
  {
    var q := s.queue[i];
    assert WaiterOk(s, i);
    if q.PathWaiter? {
      var (s1, r1) := Attempt(s, Ticket(q.req, false), Some(q.first));
      AttemptTightens(s, Ticket(q.req, false), Some(q.first));
      if HoldsNone(s, q.req) {
        DropBothTightens(s, s1, q.req);
      }
      if r1 != NoEntry {
        SecondTightens(s, s1, i);
      }
    }
  }

  lemma SecondTightens(s: State, s1: State, i: nat)
    requires Inv(s) && 0 < i < |s.queue| && s.queue[i].PathWaiter? && WaiterOk(s, i)
    requires Core(s1) && Tighter(s, s1) && s1.queue == s.queue && s1.active == s.active
    requires HoldsAll(s, s.queue[i]) ==> s1 == s
    ensures Tighter(s, WakeSecond(s1, i))
  {
    var q := s.queue[i];
    if HoldsNone(s, q.req) {
      if q.second.Some? {
        SameShapeAskable(s.tree, s1.tree, q.second.value);
      }
      AttemptTightens(s1, Ticket(q.req, true), q.second);
      ConcludeTightens(s, s1, Attempt(s1, Ticket(q.req, true), q.second).0, i);
    } else {
      assert HoldsAll(s, q);
      assert Attempt(s1, Ticket(q.req, true), q.second) == (s1, Granted);
    }
  }

  lemma ConcludeTightens(s: State, s1: State, s2: State, i: nat)
    requires Core(s) && Core(s2) && Tighter(s, s1) && Tighter(s1, s2) && 0 < i < |s2.queue| && s2.queue[i].PathWaiter?
    requires HoldsNone(s, s2.queue[i].req)
    ensures Tighter(s, Conclude(s2, i)) && Tighter(s, Finish(DropBoth(s2, s2.queue[i].req), i, NoEntry))
  {
    TighterTrans(s, s1, s2);
    DropBothTightens(s, s2, s2.queue[i].req);
  }

  lemma SecondUndone(s1: State, i: nat)
    requires 0 < i < |s1.queue| && s1.queue[i].PathWaiter?
    ensures var q, s' := s1.queue[i], WakeSecond(s1, i);
      var (s2, r2) := Attempt(s1, Ticket(q.req, true), q.second);
      && |s'.queue| == |s1.queue| && s'.queue[i].PathWaiter?
      && (!s'.queue[i].done ==> r2 != NoEntry && !HoldsAll(s2, q) && s'.queue == s1.queue)
  {
  }

  /** Trying both paths from scratch would fail as the wake-up did. */
  lemma BothFail(s: State, q: Waiter)
    requires Core(s) && q.PathWaiter? && WaiterLive(s, q) && HoldsNone(s, q.req)
    ensures
      var (s1, r1) := Attempt(s, Ticket(q.req, false), Some(q.first));
      var (s2, r2) := Attempt(s1, Ticket(q.req, true), q.second);
      r1 != NoEntry && r2 != NoEntry && !HoldsAll(s2, q) ==> BothRefused(s.tree, q.first, q.second)
  {
    AttemptKeeps(s, Ticket(q.req, false), Some(q.first));
    var s1 := Attempt(s, Ticket(q.req, false), Some(q.first)).0;
    if q.second.Some? {
      SameShapeAskable(s.tree, s1.tree, q.second.value);
    }
    AttemptKeeps(s1, Ticket(q.req, true), q.second);
  }

  /** An element that a wake-up leaves waiting has not changed, and was stuck before. */
  lemma LeftWaiting(s: State, i: nat)
    requires Inv(s) && 0 < i < |s.queue| && s.queue[i].PathWaiter?
    requires |Wakeup(s, i).queue| == |s.queue| && Wakeup(s, i).queue[i].PathWaiter? && !Wakeup(s, i).queue[i].done
    ensures !s.queue[i].done && Wakeup(s, i).queue[i] == s.queue[i] && HoldsNone(s, s.queue[i].req) && Stuck(s.tree, s.holds, s.queue[i])
  {
    var q := s.queue[i];
    var (s1, r1) := Attempt(s, Ticket(q.req, false), Some(q.first));
    assert WaiterOk(s, i);
    assert r1 != NoEntry;
    SecondUndone(s1, i);
    BothFail(s, q);
  }

  lemma WakeupLeavesStuck(s: State, i: nat)
    requires Inv(s) && i < |s.queue| && s.queue[i].PathWaiter?
    ensures var s' := Wakeup(s, i);
      |s'.queue| == |s.queue| && s'.queue[i].PathWaiter? && (!s'.queue[i].done ==> Stuck(s'.tree, s'.holds, s'.queue[i]))
  {
    var s' := Wakeup(s, i);
    WakeupKeeps(s, i);
    if !s'.queue[i].done {
      if i == 0 {
        HeadStuck(s);
      } else {
        LeftWaiting(s, i);
        WakeupTightens(s, i);
        OtherStuck(s, s', i);
      }
    }
  }

  lemma OtherStuck(s: State, s': State, i: nat)
    requires Inv(s) && Inv(s') && Tighter(s, s') && 0 < i < |s.queue| && |s'.queue| == |s.queue|
    requires s.queue[i].PathWaiter? && !s.queue[i].done && s'.queue[i] == s.queue[i]
    requires HoldsNone(s, s.queue[i].req) && Stuck(s.tree, s.holds, s.queue[i])
    ensures Stuck(s'.tree, s'.holds, s'.queue[i])
  {
    assert WaiterOk(s, i) && WaiterOk(s', i);
    StuckPersists(s, s', s.queue[i]);
  }

  lemma HeadStuck(s: State)
    requires Inv(s) && s.queue != [] && s.queue[0].PathWaiter? && !Wakeup(s, 0).queue[0].done
    ensures Stuck(Wakeup(s, 0).tree, Wakeup(s, 0).holds, s.queue[0])
  {
    var q := s.queue[0];
    assert WaiterOk(s, 0);
    var (s1, r1) := Attempt(s, Ticket(q.req, false), Some(q.first));
    AttemptKeeps(s, Ticket(q.req, false), Some(q.first));
    AttemptTightens(s, Ticket(q.req, false), Some(q.first));
    SameShapeAskable(s.tree, s1.tree, q.first);
    if q.second.Some? {
      SameShapeAskable(s.tree, s1.tree, q.second.value);
    }
    HeadSecond(s, s1, r1, q);
  }

  lemma HeadSecond(s: State, s1: State, r1: Result, q: Waiter)
    requires Core(s) && Core(s1) && Tighter(s, s1) && q.PathWaiter? && WaiterLive(s, q) && WaiterLive(s1, q)
    requires HoldsFirst(s1, q.req) <==> r1 == Granted
    requires r1 == Retry ==> TryPath(s.tree, q.first).1 == Retry
    requires q.second.None? ==> !HoldsSecond(s1, q.req)
    ensures var (s2, r2) := Attempt(s1, Ticket(q.req, true), q.second);
      r1 != NoEntry && r2 != NoEntry && !HoldsAll(s2, q) ==> Stuck(s2.tree, s2.holds, q)
  {
    var (s2, r2) := Attempt(s1, Ticket(q.req, true), q.second);
    AttemptKeeps(s1, Ticket(q.req, true), q.second);
    AttemptTightens(s1, Ticket(q.req, true), q.second);
    TighterTrans(s, s1, s2);
    SameShapeAskable(s1.tree, s2.tree, q.first);
    if q.second.Some? {
      SameShapeAskable(s1.tree, s2.tree, q.second.value);
    }
    if r1 == Retry {
      RefusalPersists(s, s2, q.first);
    } else if r2 == Retry {
      RefusalPersists(s1, s2, q.second.value);
    }
  }

  // ---------------------------------------------------------------- after a path has been freed

  /** Everyone before position `i` who waits is stuck. */
  ghost predicate AllStuck(s: State, i: nat) {
    forall j :: 0 <= j < i && j < |s.queue| && s.queue[j].PathWaiter? && !s.queue[j].done ==> Stuck(s.tree, s.holds, s.queue[j])
  }

  lemma WakeupStuck(s: State, i: nat)
    requires Inv(s) && i < |s.queue| && AllStuck(s, i)
    ensures AllStuck(Wakeup(s, i), i + 1)
  {
    var s' := Wakeup(s, i);
    WakeupKeeps(s, i);
    forall j | 0 <= j <= i && s'.queue[j].PathWaiter? && !s'.queue[j].done
      ensures Stuck(s'.tree, s'.holds, s'.queue[j])
    {
      assert WaiterOk(s, j);
      if j == i {
        WakeupLeavesStuck(s, i);
      } else {
        WakeupTightens(s, i);
        assert Ticket(s.queue[j].req, false).req == s.queue[j].req && Ticket(s.queue[j].req, true).req == s.queue[j].req;
        StuckPersists(s, s', s.queue[j]);
      }
    }
  }

  lemma WakeAllStuck(s: State)
    requires Inv(s)
    ensures AllStuck(WakeAll(s, 0), |s.queue|)
  {
    var p := (s1: State, i: nat) => Inv(s1) && AllStuck(s1, i);
    forall s1, i: nat | p(s1, i) && i < |s1.queue|
      ensures |Wakeup(s1, i).queue| == |s1.queue| && p(Wakeup(s1, i), i + 1)
    {
      WakeupKeeps(s1, i);
      WakeupStuck(s1, i);
    }
    WakeAllInduction(p, s, 0);
  }

  lemma FreedLeavesStuck(s: State, req: nat)
    requires Inv(s) && Enabled(s, PathFreed(req))
    ensures AllStuck(Next(s, PathFreed(req)), |Next(s, PathFreed(req)).queue|)
  {
    var s1 := DropBoth(s, req).(active := s.active - {req});
    DropBothKeeps(s, req);
    QuietKeeps(s, DropBoth(s, req), req, s.active - {req});
    WakeAllKeeps(s1, 0);
    WakeAllStuck(s1);
    assert Next(s, PathFreed(req)) == WakeAll(s1, 0);
  }

  /** No wake-up is lost: when a request frees its paths, every element that still waits afterwards
      could not be served even if it were tried again. */
  lemma NoWakeupIsLost(states: seq<State>, steps: seq<Step>, i: nat, j: nat)
    requires IsRun(states, steps) && i < |steps| && steps[i].PathFreed?
    requires j < |states[i + 1].queue| && states[i + 1].queue[j].PathWaiter? && !states[i + 1].queue[j].done
    ensures Stuck(states[i + 1].tree, states[i + 1].holds, states[i + 1].queue[j])
  {
    RunKeeps(states, steps, i);
    FreedLeavesStuck(states[i], steps[i].req);
    assert states[i + 1] == Next(states[i], PathFreed(steps[i].req));
  }

  // ---------------------------------------------------------------- who is signalled

  /** Whether `queue_element_wakeup` signals the element: a request that is done, or a forget whose node
      it finds unlocked. */
  ghost predicate Signalled(s: State, i: nat)
    requires i < |s.queue|
  {
    match s.queue[i]
    case ForgetWaiter(_, id, _) => id in s.tree.nodes && s.tree.nodes[id].treelock == 0
    case PathWaiter(_, _, _, _, _) => var s' := Wakeup(s, i); i < |s'.queue| && s'.queue[i].PathWaiter? && s'.queue[i].done
  }

  /** The elements that `wake_up_queued` signals from position `i` on. */
  ghost function Signals(s: State, i: nat): (r: set<nat>)
    ensures forall j :: j in r ==> i <= j
    decreases |s.queue| - i
  {
    if i >= |s.queue| then {}
    else
      var s' := Wakeup(s, i);
      (if Signalled(s, i) then {i} else {}) + (if |s'.queue| == |s.queue| then Signals(s', i + 1) else {})
  }

  /** Nothing has been unlocked, and the elements before `i` are as they were. */
  ghost predicate OnlyLater(s: State, s': State, i: nat) {
    && Tighter(s, s') && |s'.queue| == |s.queue|
    && forall j :: 0 <= j < i && j < |s.queue| ==> s'.queue[j] == s.queue[j]
  }

  lemma OnlyLaterNext(s: State, s1: State, i: nat, j: nat)
    requires Inv(s1) && 0 < i <= j < |s1.queue| && OnlyLater(s, s1, i)
    ensures Inv(Wakeup(s1, j)) && |Wakeup(s1, j).queue| == |s1.queue| && OnlyLater(s, Wakeup(s1, j), i)
  {
    WakeupKeeps(s1, j);
    WakeupTightens(s1, j);
    TighterTrans(s, s1, Wakeup(s1, j));
  }

  lemma LaterTighten(s: State, i: nat)
    requires Inv(s) && 0 < i <= |s.queue|
    ensures Inv(WakeAll(s, i)) && OnlyLater(s, WakeAll(s, i), i)
  {
    var p := (s1: State, j: nat) => Inv(s1) && j >= i && OnlyLater(s, s1, i);
    forall s1, j: nat | p(s1, j) && j < |s1.queue|
      ensures |Wakeup(s1, j).queue| == |s1.queue| && p(Wakeup(s1, j), j + 1)
    {
      OnlyLaterNext(s, s1, i, j);
    }
    assert SameShape(s.tree, s.tree) && OnlyLater(s, s, i);
    WakeAllInduction(p, s, i);
  }

  /** What is unlocked now was unlocked while less was locked. */
  lemma UnlockedBefore(s: State, s': State, n: Id)
    requires Core(s) && Core(s') && Tighter(s, s') && n in s.tree.nodes && n in s'.tree.nodes && s'.tree.nodes[n].treelock == 0
    ensures s.tree.nodes[n].treelock == 0
  {
    LockSays(s', n);
    StillThere(s, s', n);
    LockSays(s, n);
  }

  /** The element has been signalled if it is a forget whose node is unlocked; if it is a request, it
      has been signalled exactly if it is done. */
  ghost predicate ToldSo(q: Waiter, s': State, j: nat, signalled: bool)
    requires j < |s'.queue|
  {
    match q
    case ForgetWaiter(_, id, _) => id in s'.tree.nodes && (s'.tree.nodes[id].treelock == 0 ==> signalled)
    case PathWaiter(_, _, _, _, _) => s'.queue[j].PathWaiter? && (s'.queue[j].done <==> signalled)
  }

  lemma ForgetSignalled(s: State, s': State, i: nat)
    requires Inv(s) && i < |s.queue| && s.queue[i].ForgetWaiter? && Inv(s') && Tighter(s, s') && i < |s'.queue|
    ensures ToldSo(s.queue[i], s', i, Signalled(s, i))
  {
    assert WaiterOk(s, i);
    if s'.tree.nodes[s.queue[i].id].treelock == 0 {
      UnlockedBefore(s, s', s.queue[i].id);
    }
  }

  lemma RequestSignalled(s: State, s1: State, s': State, i: nat)
    requires i < |s.queue| && s.queue[i].PathWaiter? && s1 == Wakeup(s, i) && |s1.queue| == |s.queue|
    requires s1.queue[i].PathWaiter? && OnlyLater(s1, s', i + 1)
    ensures ToldSo(s.queue[i], s', i, Signalled(s, i))
  {
  }

  lemma SignalsGoOn(s: State, i: nat) returns (s1: State)
    requires Inv(s) && i < |s.queue|
    ensures Inv(s1) && |s1.queue| == |s.queue| && WakeAll(s, i) == WakeAll(s1, i + 1)
    ensures forall j :: i < j < |s.queue| ==> s1.queue[j] == s.queue[j] && (j in Signals(s1, i + 1) <==> j in Signals(s, i))
    ensures s1 == Wakeup(s, i) && (i in Signals(s, i) <==> Signalled(s, i))
    ensures if s.queue[i].PathWaiter? then s1.queue[i].PathWaiter? else s1 == s
  {
    WakeupKeeps(s, i);
    s1 := Wakeup(s, i);
  }

  lemma {:induction false} Told(s: State, i: nat, j: nat, s': State, signalled: bool)
    requires Inv(s) && i <= j < |s.queue| && s' == WakeAll(s, i) && signalled == (j in Signals(s, i))
    ensures j < |s'.queue| && ToldSo(s.queue[j], s', j, signalled)
    decreases j - i
  {
    var s1 := SignalsGoOn(s, i);
    if i < j {
      Told(s1, i + 1, j, s', signalled);
    } else if s.queue[i].ForgetWaiter? {
      LaterTighten(s, i + 1);
      ForgetSignalled(s, s', i);
    } else {
      LaterTighten(s1, i + 1);
      RequestSignalled(s, s1, s', i);
    }
  }

  /** When the whole queue has been tried, exactly the requests that are done have been signalled, and
      so has every forget whose node is then unlocked. */
  lemma EveryoneIsSignalled(s: State, j: nat)
    requires Inv(s) && j < |s.queue|
    ensures j < |WakeAll(s, 0).queue| && ToldSo(s.queue[j], WakeAll(s, 0), j, j in Signals(s, 0))
  {
    Told(s, 0, j, WakeAll(s, 0), j in Signals(s, 0));
  }

  lemma TreeChangeKeepsLock(t: Tree, t': Tree, n: Id)
    requires TreeChange(t, t') && n in t.nodes && n in t'.nodes
    ensures t'.nodes[n].treelock == t.nodes[n].treelock
  {
    if t' != t {
      var x, f :| Relinks(t, t', x, f);
      assert NodeEvolves(t, t', x, f, n);
    }
  }

  lemma AskedTree(s: State, req: nat, first: Want, second: Option<Want>)
    ensures var s', s1 := Ask(s, req, first, second), TryBoth(s.(active := s.active + {req}), req, first, second).0;
      s'.tree == s1.tree && s'.holds == s1.holds && (s.queue != [] ==> s'.queue != [] && s'.queue[0] == s.queue[0])
  {
  }

  lemma AskUnlocksNothing(s: State, req: nat, first: Want, second: Option<Want>, n: Id)
    requires Inv(s) && Enabled(s, PathAsked(req, first, second)) && n in s.tree.nodes
    ensures n in Ask(s, req, first, second).tree.nodes
    ensures Ask(s, req, first, second).tree.nodes[n].treelock == 0 ==> s.tree.nodes[n].treelock == 0
  {
    var s0 := s.(active := s.active + {req});
    ActiveKeeps(s, req);
    TryBothTightens(s0, req, first, second);
    AskedTree(s, req, first, second);
    var s1 := TryBoth(s0, req, first, second).0;
    if s1.tree.nodes[n].treelock == 0 {
      UnlockedBefore(s0, s1, n);
    }
  }

  /** A node is unlocked only by a request that frees its paths. */
  lemma OnlyFreeingUnlocks(s: State, step: Step, n: Id)
    requires Inv(s) && Enabled(s, step) && n in s.tree.nodes && n in Next(s, step).tree.nodes && !step.PathFreed?
    ensures Next(s, step).tree.nodes[n].treelock == 0 ==> s.tree.nodes[n].treelock == 0
  {
    if step.PathAsked? {
      AskUnlocksNothing(s, step.req, step.first, step.second, n);
    } else {
      StepKeeps(s, step);
      TreeChangeKeepsLock(s.tree, Next(s, step).tree, n);
    }
  }

  /** And when it is, whoever waits to forget the node is signalled. */
  lemma ForgetIsSignalled(s: State, req: nat, j: nat)
    requires Inv(s) && Enabled(s, PathFreed(req)) && j < |s.queue| && s.queue[j].ForgetWaiter?
    ensures var s', id := Next(s, PathFreed(req)), s.queue[j].id;
      && id in s'.tree.nodes
      && (s'.tree.nodes[id].treelock == 0 ==> j in Signals(DropBoth(s, req).(active := s.active - {req}), 0))
  {
    DropBothKeeps(s, req);
    QuietKeeps(s, DropBoth(s, req), req, s.active - {req});
    EveryoneIsSignalled(DropBoth(s, req).(active := s.active - {req}), j);
  }

  // ---------------------------------------------------------------- while only locks change

  lemma TryBothTightens(s: State, req: nat, first: Want, second: Option<Want>)
    requires Core(s) && req in s.active && HoldsNone(s, req)
    requires Askable(s.tree, first) && (second.Some? ==> Askable(s.tree, second.value))
    ensures Core(TryBoth(s, req, first, second).0) && Tighter(s, TryBoth(s, req, first, second).0)
  {
    var tk1, tk2 := Ticket(req, false), Ticket(req, true);
    var (s1, r1) := Attempt(s, tk1, Some(first));
    AttemptTightens(s, tk1, Some(first));
    if r1 == Granted {
      if second.Some? {
        SameShapeAskable(s.tree, s1.tree, second.value);
      }
      AttemptTightens(s1, tk2, second);
      var s2 := Attempt(s1, tk2, second).0;
      TighterTrans(s, s1, s2);
      DropTightens(s, s2, tk1);
    }
  }

  /** A request that asks for paths keeps everybody stuck, itself included if it has to wait. */
  lemma AskKeepsStuck(s: State, req: nat, first: Want, second: Option<Want>)
    requires Inv(s) && Enabled(s, PathAsked(req, first, second)) && AllStuck(s, |s.queue|)
    ensures AllStuck(Ask(s, req, first, second), |Ask(s, req, first, second).queue|)
  {
    var s0, s' := s.(active := s.active + {req}), Ask(s, req, first, second);
    var (s1, r) := TryBoth(s0, req, first, second);
    ActiveKeeps(s, req);
    TryBothKeeps(s0, req, first, second);
    TryBothTightens(s0, req, first, second);
    var q := PathWaiter(req, first, second, false, Retry);
    if r == Retry {
      TryBothRefused(s0, req, first, second);
      StuckPersists(s0, s1, q);
    }
    forall j | 0 <= j < |s.queue| && s.queue[j].PathWaiter? && !s.queue[j].done
      ensures Stuck(s1.tree, s1.holds, s.queue[j])
    {
      assert WaiterOk(s0, j) && s.queue[j].req != req;
      assert Ticket(s.queue[j].req, false).req == s.queue[j].req && Ticket(s.queue[j].req, true).req == s.queue[j].req;
      StuckPersists(s0, s1, s.queue[j]);
    }
  }

  /** Only a change of the tree can make a way for somebody who waits; and whoever changes it wakes the
      queue when it frees its own paths. */
  lemma LockStepsKeepStuck(s: State, step: Step)
    requires Inv(s) && Enabled(s, step) && (step.PathAsked? || step.WaiterLeft? || step.PathFreed?)
    requires AllStuck(s, |s.queue|)
    ensures AllStuck(Next(s, step), |Next(s, step).queue|)
  {
    match step
    case PathAsked(req, first, second) => AskKeepsStuck(s, req, first, second);
    case PathFreed(req) => FreedLeavesStuck(s, req);
    case WaiterLeft(i) =>
      forall j | 0 <= j < |s.queue| - 1
        ensures Without(s.queue, i)[j] == s.queue[if j < i then j else j + 1]
      {
      }
  }
}
