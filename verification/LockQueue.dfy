/** The operations of fuse.c that run under its mutex, in imperative form, proved to take exactly the
    steps of PathProtocol. The assertions of the code are asserted on the way. */
module LockQueue {
  import opened Wrappers
  import opened NodeTree
  import opened TreeLocks
  import opened PathText
  import opened PathQueue
  import opened PathProtocol
  import opened NodeCache
  import opened PathLocking

  // ---------------------------------------------------------------- what an element remembers

  /** The paths that an element has start where it says. */
  ghost predicate BasesOk(holds: Holds, q: Waiter) {
    q.PathWaiter? ==>
      var tk1, tk2 := Ticket(q.req, false), Ticket(q.req, true);
      && (tk1 in holds ==> holds[tk1].base == q.first.base)
      && (tk2 in holds ==> q.second.Some? && holds[tk2].base == q.second.value.base)
  }

  ghost predicate Based(holds: Holds, queue: seq<Waiter>) {
    forall i {:trigger BasesOk(holds, queue[i])} :: 0 <= i < |queue| ==> BasesOk(holds, queue[i])
  }

  /** The paths that an element wants fit the buffer. */
  ghost predicate WantsFit(t: Tree, q: Waiter) {
    q.PathWaiter? ==> PathFits(t, q.first) && (q.second.Some? ==> PathFits(t, q.second.value))
  }

  ghost predicate AllFit(t: Tree, queue: seq<Waiter>) {
    forall i {:trigger WantsFit(t, queue[i])} :: 0 <= i < |queue| ==> WantsFit(t, queue[i])
  }

  lemma FitsSameShape(t: Tree, t': Tree, want: Want)
    requires PathFits(t, want) && SameShape(t, t') && Shaped(t')
    ensures PathFits(t', want)
  {
    var c := ChainOf(t.nodes, want.base);
    SameShapeChain(t, t', c);
    ChainUnique(t'.nodes, c, ChainOf(t'.nodes, want.base));
    ChainIsLinked(t.nodes, c);
    NamesAside(t.nodes, t'.nodes, c[..|c| - 1]);
  }

  lemma WantsFitSameShape(t: Tree, t': Tree, q: Waiter)
    requires WantsFit(t, q) && SameShape(t, t') && Shaped(t')
    ensures WantsFit(t', q)
  {
    if q.PathWaiter? {
      FitsSameShape(t, t', q.first);
      if q.second.Some? {
        FitsSameShape(t, t', q.second.value);
      }
    }
  }

  lemma BasesFrame(holds: Holds, holds': Holds, req: nat, q: Waiter)
    requires OthersKeep(holds, holds', req) && BasesOk(holds, q) && q.req != req
    ensures BasesOk(holds', q)
  {
    assert Ticket(q.req, false).req == q.req && Ticket(q.req, true).req == q.req;
  }

  // ---------------------------------------------------------------- waking up keeps the bases

  lemma AttemptBases(s: State, q: Waiter, second: bool)
    requires q.PathWaiter? && BasesOk(s.holds, q) && Core(s) && q.req in s.active
    requires var want := if second then q.second else Some(q.first); want.Some? ==> Askable(s.tree, want.value)
    ensures BasesOk(Attempt(s, Ticket(q.req, second), if second then q.second else Some(q.first)).0.holds, q)
  {
    AttemptKeeps(s, Ticket(q.req, second), if second then q.second else Some(q.first));
  }

  lemma DropBothBases(s: State, q: Waiter)
    requires Core(s)
    ensures BasesOk(DropBoth(s, q.req).holds, q)
  {
    DropBothKeeps(s, q.req);
  }

  lemma WakeSecondBases(s: State, i: nat)
    requires Core(s) && i < |s.queue| && s.queue[i].PathWaiter? && BasesOk(s.holds, s.queue[i]) && s.queue[i].req in s.active
    requires s.queue[i].second.Some? ==> Askable(s.tree, s.queue[i].second.value)
    ensures |WakeSecond(s, i).queue| == |s.queue| && BasesOk(WakeSecond(s, i).holds, WakeSecond(s, i).queue[i])
  {
    var q := s.queue[i];
    var s2 := Attempt(s, Ticket(q.req, true), q.second).0;
    AttemptKeeps(s, Ticket(q.req, true), q.second);
    AttemptBases(s, q, true);
    DropBothBases(s2, q);
  }

  /** Waking an element leaves it with paths of its own. */
  lemma WakeupBases(s: State, i: nat)
    requires Inv(s) && i < |s.queue| && BasesOk(s.holds, s.queue[i])
    ensures |Wakeup(s, i).queue| == |s.queue| && BasesOk(Wakeup(s, i).holds, Wakeup(s, i).queue[i])
  {
    var q := s.queue[i];
    assert WaiterOk(s, i);
    if q.PathWaiter? {
      var s1 := Attempt(s, Ticket(q.req, false), Some(q.first)).0;
      AttemptKeeps(s, Ticket(q.req, false), Some(q.first));
      AttemptBases(s, q, false);
      DropBothBases(s1, q);
      WakeSecondBases(s1, i);
    }
  }

  lemma WakeupBased(s: State, i: nat)
    requires Inv(s) && i < |s.queue| && Based(s.holds, s.queue)
    ensures Based(Wakeup(s, i).holds, Wakeup(s, i).queue)
  {
    var s' := Wakeup(s, i);
    WakeupKeeps(s, i);
    forall j | 0 <= j < |s'.queue|
      ensures BasesOk(s'.holds, s'.queue[j])
    {
      assert BasesOk(s.holds, s.queue[j]);
      if j == i {
        WakeupBases(s, i);
      } else {
        BasesFrame(s.holds, s'.holds, s.queue[i].req, s.queue[j]);
      }
    }
  }

  lemma WokenFits(s: State, s': State, i: nat)
    requires i < |s.queue| && AllFit(s.tree, s.queue) && Woken(s, s', i) && Shaped(s'.tree)
    ensures AllFit(s'.tree, s'.queue)
  {
    forall j | 0 <= j < |s'.queue|
      ensures WantsFit(s'.tree, s'.queue[j])
    {
      assert WantsFit(s.tree, s.queue[j]);
      WantsFitSameShape(s.tree, s'.tree, s.queue[j]);
    }
  }

  /** `struct fuse`: the node cache and the queue of those who wait for a path. */
  class Fuse {
    const cache: Cache
    var queue: seq<Waiter>
    /** What requests remember of the paths they have: the node locked for writing. */
    var locked: map<Ticket, Option<Id>>
    ghost var holds: Holds
    ghost var active: set<nat>

    constructor ()
      ensures Valid() && fresh(cache) && Value() == Init()
    {
      cache := new Cache();
      queue, locked, holds, active := [], map[], map[], {};
    }

    ghost predicate Valid()
      reads this, cache
    {
      && cache.Idle() && locked.Keys == holds.Keys
      && forall tk :: tk in holds ==> locked[tk] == holds[tk].wnode
    }

    ghost function Value(): (s: State)
      reads this, cache
    {
      State(cache.View(), holds, queue, active)
    }

    /** One call of `try_get_path` for a ticket. */
    method TryPathFor(tk: Ticket, want: Want) returns (r: Result)
      requires Valid() && Core(Value()) && tk !in holds && PathFits(cache.View(), want)
      modifies this`locked, this`holds, cache`nodes
      ensures Valid() && (Value(), r) == Grab(old(Value()), tk, want)
    {
      ghost var h := TryPath(cache.View(), want).2;
      var path, wnode;
      r, path, wnode := TryGetPath(cache, want);
      if r == Granted {
        locked := locked[tk := wnode];
        holds := holds[tk := h];
      }
    }

    /** `unlock_path` for a ticket. */
    method UnlockTicket(tk: Ticket, base: Id)
      requires Valid() && Core(Value()) && tk in holds && holds[tk].base == base
      modifies this`locked, this`holds, cache`nodes
      ensures Valid() && Value() == Drop(old(Value()), tk)
    {
      ghost var h, t := holds[tk], cache.View();
      cache.IdleView();
      assert HoldOk(t, h);
      UnlockAsserts(t, holds, tk);
      HeldStopsAtRoot(t, holds, tk);
      UnlockNodes(cache, base, locked[tk], None, h.chain, ROOT);
      cache.IdleView();
      locked, holds := locked - {tk}, holds - {tk};
    }

    /** `queue_element_unlock`, and what `free_path` and `free_path2` unlock. */
    method UnlockBoth(req: nat, base1: Id, base2: Id)
      requires Valid() && Core(Value())
      requires Ticket(req, false) in holds ==> holds[Ticket(req, false)].base == base1
      requires Ticket(req, true) in holds ==> holds[Ticket(req, true)].base == base2
      modifies this`locked, this`holds, cache`nodes
      ensures Valid() && Value() == DropBoth(old(Value()), req)
    {
      ghost var s := Value();
      DropKeeps(s, Ticket(req, false));
      if Ticket(req, false) in locked {
        UnlockTicket(Ticket(req, false), base1);
      }
      assert Value() == Drop(s, Ticket(req, false));
      if Ticket(req, true) in locked {
        UnlockTicket(Ticket(req, true), base2);
      }
    }

    /** One of the two attempts of a wake-up. */
    method TryMissing(tk: Ticket, want: Option<Want>) returns (r: Result)
      requires Valid() && Core(Value()) && (want.Some? && tk !in holds ==> PathFits(cache.View(), want.value))
      modifies this`locked, this`holds, cache`nodes
      ensures Valid() && (Value(), r) == Attempt(old(Value()), tk, want)
    {
      r := Granted;
      if want.Some? && tk !in locked {
        r := TryPathFor(tk, want.value);
      }
    }

    /** `queue_element_unlock` */
    method QueueElementUnlock(i: nat)
      requires Valid() && Core(Value()) && i < |queue| && queue[i].PathWaiter? && BasesOk(holds, queue[i])
      modifies this`locked, this`holds, cache`nodes
      ensures Valid() && Value() == DropBoth(old(Value()), queue[i].req)
    {
      var q := queue[i];
      UnlockBoth(q.req, q.first.base, if q.second.Some? then q.second.value.base else 0);
    }

    /** The element has failed for good. */
    method Fail(i: nat)
      requires Valid() && Core(Value()) && i < |queue| && queue[i].PathWaiter? && BasesOk(holds, queue[i])
      modifies this`locked, this`holds, this`queue, cache`nodes
      ensures Valid() && Value() == Finish(DropBoth(old(Value()), old(queue[i].req)), i, NoEntry)
    {
      QueueElementUnlock(i);
      queue := queue[i := queue[i].(done := true, err := NoEntry)];
    }

    /** The end of `queue_element_wakeup`. */
    method Decide(i: nat)
      requires Valid() && Core(Value()) && i < |queue| && queue[i].PathWaiter? && BasesOk(holds, queue[i])
      modifies this`locked, this`holds, this`queue, cache`nodes
      ensures Valid() && Value() == Conclude(old(Value()), i)
    {
      var q := queue[i];
      if Ticket(q.req, false) in locked && (q.second.None? || Ticket(q.req, true) in locked) {
        queue := queue[i := q.(done := true, err := Granted)];
      } else if i != 0 {
        QueueElementUnlock(i);
      }
    }

    /** The second half of `queue_element_wakeup`. */
    method WakeupSecond(i: nat)
      requires Valid() && Core(Value()) && i < |queue| && queue[i].PathWaiter? && BasesOk(holds, queue[i]) && queue[i].req in active
      requires queue[i].second.Some? ==> Askable(cache.View(), queue[i].second.value) && PathFits(cache.View(), queue[i].second.value)
      modifies this`locked, this`holds, this`queue, cache`nodes
      ensures Valid() && Value() == WakeSecond(old(Value()), i)
    {
      var q := queue[i];
      var tk2 := Ticket(q.req, true);
      AttemptKeeps(Value(), tk2, q.second);
      var r := TryMissing(tk2, q.second);
      if r == NoEntry {
        Fail(i);
      } else {
        Decide(i);
      }
    }

    /** `queue_element_wakeup` for an element that waits for paths. */
    method WakePaths(i: nat)
      requires Valid() && Core(Value()) && i < |queue| && queue[i].PathWaiter? && WaiterLive(Value(), queue[i])
      requires BasesOk(holds, queue[i]) && WantsFit(cache.View(), queue[i])
      modifies this`locked, this`holds, this`queue, cache`nodes
      ensures Valid() && Value() == Wakeup(old(Value()), i)
    {
      var q := queue[i];
      ghost var s := Value();
      var tk1 := Ticket(q.req, false);
      AttemptKeeps(s, tk1, Some(q.first));
      AttemptBases(s, q, false);
      var r := TryMissing(tk1, Some(q.first));
      if r == NoEntry {
        Fail(i);
      } else {
        if q.second.Some? {
          FitsSameShape(s.tree, cache.View(), q.second.value);
        }
        WakeupSecond(i);
      }
    }

    /** `queue_element_wakeup` */
    method QueueElementWakeup(i: nat)
      requires Valid() && Inv(Value()) && i < |queue| && BasesOk(holds, queue[i]) && WantsFit(cache.View(), queue[i])
      modifies this`locked, this`holds, this`queue, cache`nodes
      ensures Valid() && Value() == Wakeup(old(Value()), i)
    {
      assert WaiterOk(Value(), i);
      if queue[i].PathWaiter? {
        WakePaths(i);
      }
    }

    // -------------------------------------------------------------- the steps of the protocol

    ghost predicate Ready()
      reads this, cache
    {
      Valid() && Inv(Value()) && Based(holds, queue)
    }

    /** `wake_up_queued` */
    method WakeUpQueued()
      requires Ready() && AllFit(cache.View(), queue)
      modifies this`locked, this`holds, this`queue, cache`nodes
      ensures Ready() && Value() == WakeAll(old(Value()), 0)
    {
      var i := 0;
      while i < |queue|
        invariant Ready() && AllFit(cache.View(), queue)
        invariant WakeAll(old(Value()), 0) == WakeAll(Value(), i)
      {
        ghost var s := Value();
        WakeupKeeps(s, i);
        WakeupBased(s, i);
        assert BasesOk(holds, queue[i]) && WantsFit(cache.View(), queue[i]);
        QueueElementWakeup(i);
        WokenFits(s, Value(), i);
        i := i + 1;
      }
    }

    method UnlockRequest(req: nat, base1: Id, base2: Id)
      requires Ready() && Enabled(Value(), PathFreed(req))
      requires Ticket(req, false) in holds ==> holds[Ticket(req, false)].base == base1
      requires Ticket(req, true) in holds ==> holds[Ticket(req, true)].base == base2
      modifies this`locked, this`holds, this`active, cache`nodes
      ensures Ready() && Value() == DropBoth(old(Value()), req).(active := old(active) - {req})
      ensures old(AllFit(cache.View(), queue)) ==> AllFit(cache.View(), queue)
    {
      ghost var s := Value();
      DropBothKeeps(s, req);
      QuietKeeps(s, DropBoth(s, req), req, s.active - {req});
      OthersFrame(s, DropBoth(s, req), req);
      UnlockBoth(req, base1, base2);
      active := active - {req};
      assert Value() == DropBoth(s, req).(active := s.active - {req});
    }

    /** `free_path`, `free_path_wrlock` and `free_path2` */
    method FreePaths(req: nat, base1: Id, base2: Id)
      requires Ready() && Enabled(Value(), PathFreed(req)) && AllFit(cache.View(), queue)
      requires Ticket(req, false) in holds ==> holds[Ticket(req, false)].base == base1
      requires Ticket(req, true) in holds ==> holds[Ticket(req, true)].base == base2
      modifies this, cache`nodes
      ensures Ready() && Value() == Next(old(Value()), PathFreed(req))
      ensures active == old(active) - {req} && Ticket(req, false) !in holds && Ticket(req, true) !in holds
      ensures |queue| == |old(queue)| && forall j :: 0 <= j < |queue| ==> queue[j].req == old(queue)[j].req
    {
      PathFreedKeeps(Value(), req);
      UnlockRequest(req, base1, base2);
      WakeUpQueued();
    }

    /** `try_get_path2` */
    method TryGetPaths(req: nat, first: Want, second: Option<Want>) returns (r: Result)
      requires Valid() && Core(Value()) && req in active && HoldsNone(Value(), req)
      requires Askable(cache.View(), first) && PathFits(cache.View(), first)
      requires second.Some? ==> Askable(cache.View(), second.value) && PathFits(cache.View(), second.value)
      modifies this`locked, this`holds, cache`nodes
      ensures Valid() && (Value(), r) == TryBoth(old(Value()), req, first, second)
    {
      ghost var s := Value();
      GrabKeeps(s, Ticket(req, false), first);
      r := TryPathFor(Ticket(req, false), first);
      if r == Granted {
        if second.Some? {
          FitsSameShape(s.tree, cache.View(), second.value);
        }
        AttemptKeeps(Value(), Ticket(req, true), second);
        r := TryMissing(Ticket(req, true), second);
        if r != Granted {
          UnlockTicket(Ticket(req, false), first.base);
        }
      }
    }

    method AskPaths(req: nat, first: Want, second: Option<Want>) returns (r: Result)
      requires Valid() && Core(Value().(active := active + {req})) && HoldsNone(Value(), req)
      requires Askable(cache.View(), first) && PathFits(cache.View(), first)
      requires second.Some? ==> Askable(cache.View(), second.value) && PathFits(cache.View(), second.value)
      modifies this, cache`nodes
      ensures Valid() && Value() == Ask(old(Value()), req, first, second)
      ensures r == TryBoth(old(Value()).(active := old(active) + {req}), req, first, second).1
    {
      active := active + {req};
      r := TryGetPaths(req, first, second);
      if r == Retry {
        queue := queue + [PathWaiter(req, first, second, false, Retry)];
      } else if r == NoEntry {
        active := old(active);
      }
    }

    /** `get_path_common` and `get_path2`, up to the point where they wait. */
    method GetPaths(req: nat, first: Want, second: Option<Want>) returns (r: Result)
      requires Ready() && Enabled(Value(), PathAsked(req, first, second))
      requires PathFits(cache.View(), first) && (second.Some? ==> PathFits(cache.View(), second.value))
      modifies this, cache`nodes
      ensures Ready() && Value() == Next(old(Value()), PathAsked(req, first, second))
      ensures r == TryBoth(old(Value()).(active := old(active) + {req}), req, first, second).1
      ensures queue == if r == Retry then old(queue) + [PathWaiter(req, first, second, false, Retry)] else old(queue)
      ensures active == if r == NoEntry then old(active) else old(active) + {req}
      ensures Ticket(req, false) in holds <==> r == Granted
      ensures Ticket(req, true) in holds <==> r == Granted && second.Some?
      ensures forall tk: Ticket :: tk.req != req ==> (tk in holds <==> tk in old(holds)) && (tk in holds ==> holds[tk] == old(holds)[tk])
    {
      ghost var s := Value();
      PathAskedKeeps(s, req, first, second);
      ActiveKeeps(s, req);
      TryBothKeeps(s.(active := s.active + {req}), req, first, second);
      AskBased(s, req, first, second);
      r := AskPaths(req, first, second);
    }

    /** `wait_path` after its element is done. */
    method LeaveQueue(i: nat) returns (r: Result)
      requires Ready() && Enabled(Value(), WaiterLeft(i))
      modifies this`queue, this`active
      ensures Ready() && Value() == Next(old(Value()), WaiterLeft(i)) && r == old(queue[i]).err
      ensures queue == old(queue)[..i] + old(queue)[i + 1..]
      ensures active == if r == Granted then old(active) else old(active) - {old(queue[i]).req}
    {
      WaiterLeftKeeps(Value(), i);
      DequeueBased(holds, queue, i);
      r := queue[i].err;
      if r != Granted {
        active := active - {queue[i].req};
      }
      queue := queue[..i] + queue[i + 1..];
    }

    /** `forget_node`: the last lookups of a locked node wait for the lock. */
    method ForgetNode(req: nat, n: Id, count: nat) returns (waiting: bool)
      requires Ready() && Enabled(Value(), Forgotten(req, n, count))
      modifies this`queue, cache
      ensures Ready() && Value() == Next(old(Value()), Forgotten(req, n, count))
      ensures waiting <==> n != ROOT && old(cache.nodes)[n].nlookup == count && old(cache.nodes)[n].treelock != 0
      ensures queue == if waiting then old(queue) + [ForgetWaiter(req, n, count)] else old(queue)
      ensures var taken := if n != ROOT && !waiting then count else 0;
        forall m :: LookupsIn(cache.nodes, m) == LookupsIn(old(cache.nodes), m) - if m == n then taken else 0
    {
      ghost var s := Value();
      cache.IdleView();
      ForgottenKeeps(s, req, n, count);
      if n != ROOT && cache.nodes[n].nlookup == count && cache.nodes[n].treelock != 0 {
        EnqueueBased(holds, queue, ForgetWaiter(req, n, count));
        queue := queue + [ForgetWaiter(req, n, count)];
        return true;
      }
      DeletedWereUnlocked(s.tree, Next(s, Forgotten(req, n, count)).tree, holds);
      cache.ForgetNode(n, count);
      return false;
    }

    /** `forget_node` after its wait. */
    method ResumeForget(i: nat)
      requires Ready() && Enabled(Value(), ForgetResumed(i))
      modifies this`queue, cache
      ensures Ready() && Value() == Next(old(Value()), ForgetResumed(i))
      ensures queue == old(queue)[..i] + old(queue)[i + 1..]
      ensures var q := old(queue[i]);
        forall m :: LookupsIn(cache.nodes, m) == LookupsIn(old(cache.nodes), m) - if m == q.id then q.count else 0
    {
      ghost var s := Value();
      var q := queue[i];
      cache.IdleView();
      assert WaiterOk(s, i);
      ForgetResumedKeeps(s, i);
      DequeueBased(holds, queue, i);
      DeletedWereUnlocked(s.tree, Next(s, ForgetResumed(i)).tree, holds);
      queue := queue[..i] + queue[i + 1..];
      cache.ForgetNode(q.id, q.count);
    }

    /** `find_node`; a new node gets a number that is free. */
    method FindNode(parent: Id, name: Option<string>) returns (n: Id)
      requires Ready() && parent in cache.nodes && cache.ctr <= ID_MASK && |cache.nodes| < ID_MASK - 1
      modifies cache
      ensures Ready() && Enabled(old(Value()), Lookup(parent, name, cache.ctr))
      ensures Value() == Next(old(Value()), Lookup(parent, name, cache.ctr))
      ensures LooksUp(old(cache.nodes), old(cache.names), parent, name, cache.nodes, cache.names, n)
    {
      cache.IdleView();
      ghost var s := Value();
      n := cache.FindNode(parent, name);
      LookupKeeps(s, parent, name, cache.ctr);
    }

    /** The reference that a lookup of "." has while it runs. */
    method TakeDot(n: Id)
      requires Ready() && n in cache.nodes
      modifies cache
      ensures Ready() && Enabled(old(Value()), DotTaken(n)) && Value() == Next(old(Value()), DotTaken(n))
    {
      cache.IdleView();
      DotKeeps(Value(), n);
      cache.TakeDotRef(n);
    }

    method DropDot(n: Id)
      requires Ready() && cache.dots[n] > 0
      modifies cache
      ensures Ready() && Enabled(old(Value()), DotDropped(n)) && Value() == Next(old(Value()), DotDropped(n))
    {
      ghost var s := Value();
      DotKeeps(s, n);
      DeletedWereUnlocked(s.tree, Next(s, DotDropped(n)).tree, holds);
      cache.DropDotRef(n);
    }

    /** `remove_node` by a request that has locked the name. */
    method RemoveNode(req: nat, key: Key)
      requires Ready() && Enabled(Value(), Removed(req, key))
      modifies cache
      ensures Ready() && Value() == Next(old(Value()), Removed(req, key))
      ensures Removes(old(cache.nodes), old(cache.names), key, cache.nodes, cache.names)
    {
      ghost var s := Value();
      cache.IdleView();
      StepKeeps(s, Removed(req, key));
      DeletedWereUnlocked(s.tree, Next(s, Removed(req, key)).tree, holds);
      cache.RemoveNode(key);
    }

    /** `rename_node` by a request that has locked both names. */
    method RenameNode(req: nat, src: Key, dest: Key, hiding: bool) returns (ok: bool)
      requires Ready() && Enabled(Value(), Renamed(req, src, dest, hiding))
      modifies cache
      ensures Ready() && Value() == Next(old(Value()), Renamed(req, src, dest, hiding))
      ensures Moves(old(cache.nodes), old(cache.names), src, dest, hiding, cache.nodes, cache.names, ok)
    {
      ghost var s := Value();
      cache.IdleView();
      StepKeeps(s, Renamed(req, src, dest, hiding));
      if src in cache.names {
        RenameIsSafe(s, req, src, dest);
      }
      ok := cache.RenameNode(src, dest, hiding);
    }
  }

  lemma AskBased(s: State, req: nat, first: Want, second: Option<Want>)
    requires Inv(s) && Enabled(s, PathAsked(req, first, second)) && Based(s.holds, s.queue)
    ensures Based(Ask(s, req, first, second).holds, Ask(s, req, first, second).queue)
  {
    var s0 := s.(active := s.active + {req});
    ActiveKeeps(s, req);
    TryBothKeeps(s0, req, first, second);
    var (s1, r) := TryBoth(s0, req, first, second);
    OthersFrame(s0, s1, req);
    if r == Retry {
      EnqueueBased(s1.holds, s1.queue, PathWaiter(req, first, second, false, Retry));
    }
  }

  lemma EnqueueBased(holds: Holds, queue: seq<Waiter>, q: Waiter)
    requires Based(holds, queue) && BasesOk(holds, q)
    ensures Based(holds, queue + [q])
  {
    forall i | 0 <= i < |queue + [q]|
      ensures BasesOk(holds, (queue + [q])[i])
    {
      assert i < |queue| ==> BasesOk(holds, queue[i]);
    }
  }

  lemma DequeueBased(holds: Holds, queue: seq<Waiter>, i: nat)
    requires Based(holds, queue) && i < |queue|
    ensures Based(holds, queue[..i] + queue[i + 1..])
  {
    var rest := queue[..i] + queue[i + 1..];
    forall j | 0 <= j < |rest|
      ensures BasesOk(holds, rest[j])
    {
      assert BasesOk(holds, queue[if j < i then j else j + 1]);
    }
  }

  /** What is true of the elements stays true while other requests lock and unlock. */
  lemma OthersFrame(s: State, s': State, req: nat)
    requires Quiet(s, s', req) && Shaped(s'.tree) && !Queued(s, req)
    ensures Based(s.holds, s.queue) ==> Based(s'.holds, s'.queue)
    ensures AllFit(s.tree, s.queue) ==> AllFit(s'.tree, s'.queue)
  {
    forall i | 0 <= i < |s.queue|
      ensures BasesOk(s.holds, s.queue[i]) ==> BasesOk(s'.holds, s'.queue[i])
      ensures WantsFit(s.tree, s.queue[i]) ==> WantsFit(s'.tree, s'.queue[i])
    {
      assert s.queue[i].req != req;
      if BasesOk(s.holds, s.queue[i]) {
        BasesFrame(s.holds, s'.holds, req, s.queue[i]);
      }
      if WantsFit(s.tree, s.queue[i]) {
        WantsFitSameShape(s.tree, s'.tree, s.queue[i]);
      }
    }
  }

  lemma HeldStopsAtRoot(t: Tree, holds: Holds, tk: Ticket)
    requires TreeInv(t) && LockInv(t, holds) && tk in holds
    ensures StopsAt(t.nodes, holds[tk].base, None, holds[tk].chain, ROOT)
    ensures holds[tk].wnode.Some? ==> holds[tk].wnode.value !in holds[tk].chain
  {
    var h := holds[tk];
    assert HoldOk(t, h);
    var c := h.chain + [ROOT];
    ChainClimbs(t.nodes, h.chain);
    ChainIsDistinct(t.nodes, c);
    assert forall i :: 0 <= i < |h.chain| ==> h.chain[i] == c[i] != c[|h.chain|];
    if h.wnode.Some? && h.wnode.value in h.chain {
      UnlockAsserts(t, holds, tk);
    }
  }
}
