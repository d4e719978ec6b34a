/** The path-lock protocol of fuse.c as a state machine.

    Every step runs under the mutex of the filesystem, so a step is atomic.  Requests that find
    their path locked wait in a queue; releasing a path retries the whole queue in order. */
module PathQueue {
  import opened Wrappers
  import opened NodeTree
  import opened TreeLocks

  /** A queue element: a request waiting for its paths, or a forget waiting for its node. */
  datatype Waiter =
    | PathWaiter(req: nat, first: Want, second: Option<Want>, done: bool, err: Result)
    | ForgetWaiter(req: nat, id: Id, count: nat)

  /** `active` are the requests that hold or wait for paths. */
  datatype State = State(tree: Tree, holds: Holds, queue: seq<Waiter>, active: set<nat>)

  // ---------------------------------------------------------------- complete and broken chains

  ghost predicate Complete(t: Tree, n: Id) {
    exists c :: ChainFrom(t.nodes, n, c) && c[|c| - 1] == ROOT
  }

  /** Climbing from `n` ends at a node that has been unlinked. */
  ghost predicate Broken(t: Tree, n: Id) {
    exists c :: ChainFrom(t.nodes, n, c) && c[|c| - 1] != ROOT
  }

  lemma NotBoth(t: Tree, n: Id)
    ensures !(Complete(t, n) && Broken(t, n))
  {
    if Complete(t, n) && Broken(t, n) {
      var c :| ChainFrom(t.nodes, n, c) && c[|c| - 1] == ROOT;
      var d :| ChainFrom(t.nodes, n, d) && d[|d| - 1] != ROOT;
      ChainUnique(t.nodes, c, d);
    }
  }

  lemma CompleteAbove(t: Tree, n: Id)
    requires Shaped(t) && n in t.nodes && t.nodes[n].link.Some? && Complete(t, t.nodes[n].link.value.parent)
    ensures Complete(t, n)
  {
    var c :| ChainFrom(t.nodes, t.nodes[n].link.value.parent, c) && c[|c| - 1] == ROOT;
    var d := [n] + c;
    assert ChainFrom(t.nodes, n, d) && d[|d| - 1] == ROOT;
  }

  lemma HeldIsComplete(t: Tree, h: Hold, n: Id)
    requires HoldOk(t, h) && (n in h.chain || n == h.base)
    ensures Complete(t, n)
  {
    var c := h.chain + [ROOT];
    var i := 0;
    if n != h.base {
      i :| 0 <= i < |h.chain| && h.chain[i] == n;
    }
    ChainTail(t.nodes, c, i);
    assert c[i..][|c[i..]| - 1] == ROOT;
  }

  // ---------------------------------------------------------------- what a writer may have done

  /** The node a request writes still hangs under a directory the request has locked, unless it
      has been unlinked. */
  ghost predicate WriteOk(t: Tree, holds: Holds, tk: Ticket)
    requires tk in holds
  {
    var w := holds[tk].wnode;
    w.Some? ==>
      && w.value in t.nodes
      && (t.nodes[w.value].link.Some? ==>
            var p := t.nodes[w.value].link.value.parent;
            var other := Ticket(tk.req, true);
            p == holds[tk].base || (!tk.second && other in holds && p == holds[other].base))
  }

  ghost predicate WriteInv(t: Tree, holds: Holds) {
    forall tk {:trigger WriteOk(t, holds, tk)} :: tk in holds ==> WriteOk(t, holds, tk)
  }

  /** A locked node that is linked can be reached from the root. */
  lemma LockedIsComplete(t: Tree, holds: Holds, n: Id)
    requires TreeInv(t) && LockInv(t, holds) && WriteInv(t, holds)
    requires n in t.nodes && t.nodes[n].link.Some? && t.nodes[n].treelock != 0
    ensures Complete(t, n)
  {
    var tk := LockedHasHolder(t, holds, n);
    assert HoldOk(t, holds[tk]);
    if n in holds[tk].chain {
      HeldIsComplete(t, holds[tk], n);
    } else {
      assert WriteOk(t, holds, tk);
      var p, other := t.nodes[n].link.value.parent, Ticket(tk.req, true);
      if p == holds[tk].base {
        HeldIsComplete(t, holds[tk], p);
      } else {
        assert HoldOk(t, holds[other]);
        HeldIsComplete(t, holds[other], p);
      }
      CompleteAbove(t, n);
    }
  }

  lemma {:induction false} BrokenWalk(t: Tree, holds: Holds, c: seq<Id>)
    requires TreeInv(t) && LockInv(t, holds) && WriteInv(t, holds)
    requires IsChain(t.nodes, c) && c[|c| - 1] != ROOT
    ensures Walk(t.nodes, c) == NoEntry
  {
    if |c| > 1 {
      assert ChainFrom(t.nodes, c[0], c) && Broken(t, c[0]);
      NotBoth(t, c[0]);
      if t.nodes[c[0]].treelock != 0 {
        LockedIsComplete(t, holds, c[0]);
      }
      ChainTail(t.nodes, c, 1);
      BrokenWalk(t, holds, c[1..]);
    }
  }

  /** Below an unlinked directory nothing is locked, so asking for a path there always fails at
      once and leaves no trace. */
  lemma BrokenIsRefused(t: Tree, holds: Holds, want: Want)
    requires TreeInv(t) && LockInv(t, holds) && WriteInv(t, holds) && want.base in t.nodes && Broken(t, want.base)
    ensures TryPath(t, want).1 == NoEntry && TryPath(t, want).0 == t
  {
    var w, c := WriteTarget(t, want), ChainOf(t.nodes, want.base);
    var d :| ChainFrom(t.nodes, want.base, d) && d[|d| - 1] != ROOT;
    ChainUnique(t.nodes, c, d);
    BrokenWalk(t, holds, c);
    if w.Some? {
      assert NameOk(t, Key(want.base, want.name.value));
      if t.nodes[w.value].treelock != 0 {
        LockedIsComplete(t, holds, w.value);
        var e :| ChainFrom(t.nodes, w.value, e) && e[|e| - 1] == ROOT;
        ChainTail(t.nodes, e, 1);
        ChainUnique(t.nodes, c, e[1..]);
      }
    }
  }

  lemma RefusedIsBroken(t: Tree, want: Want)
    requires TreeInv(t) && want.base in t.nodes && TryPath(t, want).1 == NoEntry
    ensures Broken(t, want.base)
  {
    WalkGranted(t.nodes, ChainOf(t.nodes, want.base));
  }

  // ---------------------------------------------------------------- requests in flight

  ghost function Tickets(active: set<nat>): set<Ticket> {
    set r, b | r in active && b in {false, true} :: Ticket(r, b)
  }

  lemma {:induction false} TicketsBounded(active: set<nat>)
    ensures |Tickets(active)| <= 2 * |active|
  {
    if active != {} {
      var r :| r in active;
      TicketsBounded(active - {r});
      assert Tickets(active) == Tickets(active - {r}) + {Ticket(r, false), Ticket(r, true)};
    } else {
      assert Tickets(active) == {};
    }
  }

  /** All locks are accounted for, and there are too few requests to overflow a counter. */
  ghost predicate Core(s: State) {
    && TreeInv(s.tree) && LockInv(s.tree, s.holds) && WriteInv(s.tree, s.holds)
    && (forall tk :: tk in s.holds ==> tk.req in s.active)
    && 2 * |s.active| < INT_MAX
  }

  lemma RoomForTicket(s: State, tk: Ticket)
    requires Core(s) && tk !in s.holds && tk.req in s.active
    ensures |s.holds| + 1 < INT_MAX
  {
    TicketsBounded(s.active);
    SubsetCardinality(s.holds.Keys + {tk}, Tickets(s.active));
  }

  // ---------------------------------------------------------------- single lock operations

  ghost function Grab(s: State, tk: Ticket, want: Want): (r: (State, Result))
    ensures r.0.queue == s.queue && r.0.active == s.active
  {
    if Shaped(s.tree) && want.base in s.tree.nodes then
      var (t, r, h) := TryPath(s.tree, want);
      (s.(tree := t, holds := if r == Granted then s.holds[tk := h] else s.holds), r)
    else (s, NoEntry)
  }

  ghost function Drop(s: State, tk: Ticket): (s': State)
    ensures s'.queue == s.queue && s'.active == s.active
  {
    if tk in s.holds && (s.holds[tk].wnode.Some? ==> s.holds[tk].wnode.value in s.tree.nodes)
    then s.(tree := UnlockPath(s.tree, s.holds[tk]), holds := s.holds - {tk})
    else s
  }

  /** `queue_element_unlock`, `free_path` and `free_path2`. */
  ghost function DropBoth(s: State, req: nat): (s': State)
    ensures s'.queue == s.queue && s'.active == s.active
  {
    Drop(Drop(s, Ticket(req, false)), Ticket(req, true))
  }

  ghost predicate OthersKeep(holds: Holds, holds': Holds, req: nat) {
    forall tk: Ticket :: tk.req != req ==> (tk in holds <==> tk in holds') && (tk in holds ==> holds'[tk] == holds[tk])
  }

  /** Only locks of request `req` were taken or given back. */
  ghost predicate Quiet(s: State, s': State, req: nat) {
    && SameShape(s.tree, s'.tree) && s'.queue == s.queue && s'.active == s.active
    && OthersKeep(s.holds, s'.holds, req)
  }

  lemma WriteFrame(t: Tree, t': Tree, holds: Holds, holds': Holds)
    requires WriteInv(t, holds) && SameShape(t, t')
    requires forall tk :: tk in holds' ==> WriteOk(t', holds', tk) || (tk in holds && holds'[tk] == holds[tk])
    requires forall tk :: tk in holds' && !tk.second && Ticket(tk.req, true) in holds ==>
      Ticket(tk.req, true) in holds' && holds'[Ticket(tk.req, true)] == holds[Ticket(tk.req, true)]
    ensures WriteInv(t', holds')
  {
    forall tk | tk in holds'
      ensures WriteOk(t', holds', tk)
    {
      assert tk in holds ==> WriteOk(t, holds, tk);
    }
  }

  lemma GrabKeeps(s: State, tk: Ticket, want: Want)
    requires Core(s) && tk !in s.holds && tk.req in s.active && Askable(s.tree, want)
    ensures var (s', r) := Grab(s, tk, want);
      && Core(s') && Quiet(s, s', tk.req)
      && (r == Granted ==> s'.holds.Keys == s.holds.Keys + {tk} && s'.holds[tk].base == want.base)
      && (r != Granted ==> s'.holds == s.holds)
      && (r == NoEntry <==> Broken(s.tree, want.base))
  {
    var (t', r, h) := TryPath(s.tree, want);
    RoomForTicket(s, tk);
    if r == Granted {
      GrantKeeps(s.tree, s.holds, tk, want);
      var holds' := s.holds[tk := h];
      if h.wnode.Some? {
        assert NameOk(s.tree, Key(want.base, want.name.value));
      }
      assert WriteOk(t', holds', tk);
      WriteFrame(s.tree, t', s.holds, holds');
    } else {
      RefusalKeeps(s.tree, s.holds, want);
      WriteFrame(s.tree, t', s.holds, s.holds);
    }
    SameShapeInv(s.tree, t');
    if r == NoEntry {
      RefusedIsBroken(s.tree, want);
    }
    if Broken(s.tree, want.base) {
      BrokenIsRefused(s.tree, s.holds, want);
    }
  }

  lemma {:induction false} FreeWalk(nodes: map<Id, Node>, c: seq<Id>)
    requires IsChain(nodes, c) && c[|c| - 1] == ROOT
    requires forall i :: 0 <= i < |c| - 1 ==> nodes[c[i]].treelock >= 0
    ensures Walk(nodes, c) == Granted
  {
    if |c| > 1 {
      ChainTail(nodes, c, 1);
      assert forall i :: 0 <= i < |c| - 2 ==> c[1..][i] == c[i + 1];
      FreeWalk(nodes, c[1..]);
    }
  }

  /** Nobody writes the node or waits to write it. */
  ghost predicate Unwritten(s: State, n: Id)
    requires n in s.tree.nodes
  {
    Writing(s.holds, n) == {} && !Marked(s.tree.nodes[n].treelock)
  }

  ghost predicate Untouched(s: State, n: Id) {
    Writing(s.holds, n) == {} && Crossing(s.holds, n) == {}
  }

  /** What the integer says about the holders. */
  lemma LockSays(s: State, n: Id)
    requires Core(s) && n in s.tree.nodes
    ensures s.tree.nodes[n].treelock >= 0 <==> Unwritten(s, n)
    ensures s.tree.nodes[n].treelock == 0 <==> Untouched(s, n)
  {
    assert LockOk(s.tree, s.holds, n);
  }

  /** A path is granted exactly when the base is still connected to the root, nobody writes or waits
      to write a node on the way, and nobody has the node that is to be written. */
  lemma GrantedExactly(s: State, want: Want, c: seq<Id>)
    requires Core(s) && Askable(s.tree, want) && ChainFrom(s.tree.nodes, want.base, c)
    ensures TryPath(s.tree, want).1 == Granted <==>
      && c[|c| - 1] == ROOT && (forall i :: 0 <= i < |c| - 1 ==> Unwritten(s, c[i]))
      && (WriteTarget(s.tree, want).Some? ==> Untouched(s, WriteTarget(s.tree, want).value))
  {
    var t, w := s.tree, WriteTarget(s.tree, want);
    ChainUnique(t.nodes, c, ChainOf(t.nodes, want.base));
    WalkGranted(t.nodes, c);
    forall i | 0 <= i < |c|
      ensures t.nodes[c[i]].treelock >= 0 <==> Unwritten(s, c[i])
    {
      LockSays(s, c[i]);
    }
    if w.Some? {
      assert NameOk(t, Key(want.base, want.name.value));
      LockSays(s, w.value);
    }
    if c[|c| - 1] == ROOT && forall i :: 0 <= i < |c| - 1 ==> t.nodes[c[i]].treelock >= 0 {
      FreeWalk(t.nodes, c);
    }
  }

  lemma DropKeeps(s: State, tk: Ticket)
    requires Core(s) && (tk.second ==> Ticket(tk.req, false) !in s.holds)
    ensures Core(Drop(s, tk)) && Quiet(s, Drop(s, tk), tk.req) && Drop(s, tk).holds == s.holds - {tk}
  {
    if tk in s.holds {
      ReleaseKeeps(s.tree, s.holds, tk);
      WriteFrame(s.tree, Drop(s, tk).tree, s.holds, s.holds - {tk});
      SameShapeInv(s.tree, Drop(s, tk).tree);
    } else {
      assert s.holds - {tk} == s.holds;
    }
  }

  /** While a writer's mark is on a node, no attempt adds a reader to it or takes the mark away. */
  lemma MarkStopsReaders(s: State, tk: Ticket, want: Want, n: Id)
    requires Core(s) && n in s.tree.nodes && Marked(s.tree.nodes[n].treelock)
    requires Askable(s.tree, want) && tk !in s.holds
    ensures var s' := Grab(s, tk, want).0;
      n in s'.tree.nodes && Marked(s'.tree.nodes[n].treelock) && |Crossing(s'.holds, n)| == |Crossing(s.holds, n)|
  {
    if TryPath(s.tree, want).1 == Granted {
      GrantedHold(s.tree, want);
      CrossingAdd(s.holds, tk, TryPath(s.tree, want).2, n);
    }
  }

  /** The mark stays until the last reader is gone. */
  lemma MarkOutlastsReaders(s: State, tk: Ticket, n: Id)
    requires Core(s) && n in s.tree.nodes && Marked(s.tree.nodes[n].treelock) && tk in s.holds
    ensures var s' := Drop(s, tk);
      && n in s'.tree.nodes && |Crossing(s'.holds, n)| <= |Crossing(s.holds, n)|
      && (|Crossing(s'.holds, n)| > 0 ==> Marked(s'.tree.nodes[n].treelock))
  {
    assert LockOk(s.tree, s.holds, n) && HoldOk(s.tree, s.holds[tk]);
    HoldsCount(s.holds, tk, n);
    CrossingRemove(s.holds, tk, n);
  }

  lemma QuietTrans(s: State, s': State, s'': State, req: nat)
    requires Quiet(s, s', req) && Quiet(s', s'', req)
    ensures Quiet(s, s'', req)
  {
  }

  lemma DropBothKeeps(s: State, req: nat)
    requires Core(s)
    ensures Core(DropBoth(s, req)) && Quiet(s, DropBoth(s, req), req)
    ensures DropBoth(s, req).holds == s.holds - {Ticket(req, false), Ticket(req, true)}
  {
    var tk1, tk2 := Ticket(req, false), Ticket(req, true);
    DropKeeps(s, tk1);
    DropSecond(s, Drop(s, tk1), req);
  }

  lemma DropSecond(s: State, s1: State, req: nat)
    requires Core(s1) && Quiet(s, s1, req) && s1.holds == s.holds - {Ticket(req, false)}
    ensures var s' := Drop(s1, Ticket(req, true));
      Core(s') && Quiet(s, s', req) && s'.holds == s.holds - {Ticket(req, false), Ticket(req, true)}
  {
    DropKeeps(s1, Ticket(req, true));
    QuietTrans(s, s1, Drop(s1, Ticket(req, true)), req);
    MinusBoth(s.holds, Ticket(req, false), Ticket(req, true));
  }

  lemma MinusBoth(holds: Holds, tk: Ticket, tk': Ticket)
    ensures holds - {tk} - {tk'} == holds - {tk, tk'}
  {
  }

  // ---------------------------------------------------------------- the queue

  ghost predicate HoldsFirst(s: State, req: nat) {
    Ticket(req, false) in s.holds
  }

  ghost predicate HoldsSecond(s: State, req: nat) {
    Ticket(req, true) in s.holds
  }

  /** All paths the element asked for. */
  ghost predicate HoldsAll(s: State, q: Waiter)
    requires q.PathWaiter?
  {
    HoldsFirst(s, q.req) && (q.second.Some? ==> HoldsSecond(s, q.req))
  }

  ghost predicate HoldsNone(s: State, req: nat) {
    !HoldsFirst(s, req) && !HoldsSecond(s, req)
  }

  ghost predicate Hopeless(t: Tree, q: Waiter)
    requires q.PathWaiter?
  {
    Broken(t, q.first.base) || (q.second.Some? && Broken(t, q.second.value.base))
  }

  /** What the environment promises about a waiting element: the kernel keeps referring to the
      nodes a request names, and takes back no more lookups than it has. */
  ghost predicate WaiterLive(s: State, q: Waiter) {
    match q
    case PathWaiter(req, first, second, _, _) =>
      req in s.active && Askable(s.tree, first) && (second.Some? ==> Askable(s.tree, second.value))
    case ForgetWaiter(_, id, count) =>
      id in s.tree.nodes && id != ROOT && 0 < count <= s.tree.nodes[id].nlookup
  }

  /** A finished element holds everything or, if it failed, nothing; an unfinished one holds
      nothing unless it is the head. */
  ghost predicate Settled(s: State, q: Waiter, head: bool) {
    q.PathWaiter? ==>
      && (q.second.None? ==> !HoldsSecond(s, q.req))
      && (q.done ==> q.err != Retry)
      && (q.done && q.err == Granted ==> HoldsAll(s, q))
      && (q.done && q.err == NoEntry ==> HoldsNone(s, q.req) && Hopeless(s.tree, q))
      && (!q.done ==> !HoldsAll(s, q) && (!head ==> HoldsNone(s, q.req)))
  }

  ghost predicate WaiterOk(s: State, i: nat)
    requires i < |s.queue|
  {
    WaiterLive(s, s.queue[i]) && Settled(s, s.queue[i], i == 0)
  }

  /** Path requests wait once, and at most one forget waits for a node. */
  predicate Distinct(queue: seq<Waiter>) {
    forall i, j :: 0 <= i < j < |queue| ==>
      && queue[i].req != queue[j].req
      && (queue[i].ForgetWaiter? && queue[j].ForgetWaiter? ==> queue[i].id != queue[j].id)
  }

  ghost predicate Inv(s: State) {
    && Core(s) && Distinct(s.queue)
    && (forall i {:trigger WaiterOk(s, i)} :: 0 <= i < |s.queue| ==> WaiterOk(s, i))
  }

  lemma SameShapeBroken(t: Tree, t': Tree, n: Id)
    requires SameShape(t, t') && Broken(t, n)
    ensures Broken(t', n)
  {
    var c :| ChainFrom(t.nodes, n, c) && c[|c| - 1] != ROOT;
    SameShapeChain(t, t', c);
    assert ChainFrom(t'.nodes, n, c);
  }

  /** An element is not affected by what other requests lock. */
  lemma WaiterFrame(s: State, s': State, req: nat, i: nat)
    requires Quiet(s, s', req) && i < |s.queue| && WaiterOk(s, i) && s.queue[i].req != req
    ensures WaiterOk(s', i)
  {
    var q := s.queue[i];
    if q.PathWaiter? {
      if Broken(s.tree, q.first.base) {
        SameShapeBroken(s.tree, s'.tree, q.first.base);
      }
      if q.second.Some? && Broken(s.tree, q.second.value.base) {
        SameShapeBroken(s.tree, s'.tree, q.second.value.base);
      }
      assert Ticket(q.req, false).req == q.req && Ticket(q.req, true).req == q.req;
    }
  }

  // ---------------------------------------------------------------- waking up

  ghost function Finish(s: State, i: nat, err: Result): (s': State)
    requires i < |s.queue| && s.queue[i].PathWaiter?
  {
    s.(queue := s.queue[i := s.queue[i].(done := true, err := err)])
  }

  /** Try to lock what is still missing; the state and whether that failed for good. */
  ghost function Attempt(s: State, tk: Ticket, want: Option<Want>): (r: (State, Result))
    ensures r.0.queue == s.queue && r.0.active == s.active
  {
    if want.None? || tk in s.holds then (s, Granted) else Grab(s, tk, want.value)
  }

  /** The end of `queue_element_wakeup`: only the head may keep one of two paths. */
  ghost function Conclude(s: State, i: nat): (s': State)
    requires i < |s.queue| && s.queue[i].PathWaiter?
  {
    var q := s.queue[i];
    if HoldsAll(s, q) then Finish(s, i, Granted) else if i != 0 then DropBoth(s, q.req) else s
  }

  /** The second half of `queue_element_wakeup`. */
  ghost function WakeSecond(s: State, i: nat): (s': State)
    requires i < |s.queue| && s.queue[i].PathWaiter?
  {
    var q := s.queue[i];
    var (s2, r2) := Attempt(s, Ticket(q.req, true), q.second);
    if r2 == NoEntry then Finish(DropBoth(s2, q.req), i, NoEntry) else Conclude(s2, i)
  }

  /** `queue_element_wakeup` */
  ghost function Wakeup(s: State, i: nat): (s': State)
    requires i < |s.queue|
  {
    var q := s.queue[i];
    if q.ForgetWaiter? then s
    else
      var (s1, r1) := Attempt(s, Ticket(q.req, false), Some(q.first));
      if r1 == NoEntry then Finish(DropBoth(s1, q.req), i, NoEntry) else WakeSecond(s1, i)
  }

  /** `wake_up_queued` */
  ghost function WakeAll(s: State, i: nat): (s': State)
    decreases |s.queue| - i
  {
    if i >= |s.queue| then s
    else
      var s' := Wakeup(s, i);
      if |s'.queue| == |s.queue| then WakeAll(s', i + 1) else s'
  }

  lemma AttemptKeeps(s: State, tk: Ticket, want: Option<Want>)
    requires Core(s) && tk.req in s.active && (want.Some? ==> Askable(s.tree, want.value))
    ensures var (s', r) := Attempt(s, tk, want);
      && Core(s') && Quiet(s, s', tk.req)
      && (forall tk' :: tk' != tk ==> (tk' in s'.holds <==> tk' in s.holds))
      && (want.Some? ==> (tk in s'.holds <==> r == Granted))
      && (forall tk' :: tk' != tk && tk' in s.holds ==> s'.holds[tk'] == s.holds[tk'])
      && (want.Some? && tk !in s.holds && r == Granted ==> s'.holds[tk].base == want.value.base)
      && (want.None? ==> s' == s && r == Granted)
      && (want.Some? && tk !in s.holds ==> (r == NoEntry <==> Broken(s.tree, want.value.base)))
      && (tk in s.holds ==> s' == s && r == Granted)
  {
    if want.Some? && tk !in s.holds {
      GrabKeeps(s, tk, want.value);
    }
  }

  /** Everything but element `i` and the locks of its request is as before. */
  ghost predicate Woken(s: State, s': State, i: nat)
    requires i < |s.queue|
  {
    && SameShape(s.tree, s'.tree) && s'.active == s.active && |s'.queue| == |s.queue|
    && (forall j :: 0 <= j < |s.queue| && j != i ==> s'.queue[j] == s.queue[j])
    && (s.queue[i].ForgetWaiter? ==> s'.queue[i] == s.queue[i])
    && (s.queue[i].PathWaiter? ==>
          s'.queue[i].PathWaiter? && s'.queue[i] == s.queue[i].(done := s'.queue[i].done, err := s'.queue[i].err))
    && OthersKeep(s.holds, s'.holds, s.queue[i].req)
  }

  /** Once the locks of its request are settled, marking element `i` completes the wake-up. */
  lemma ElementSettles(s: State, s1: State, i: nat, q: Waiter)
    requires Inv(s) && i < |s.queue| && s.queue[i].PathWaiter?
    requires Core(s1) && Quiet(s, s1, s.queue[i].req)
    requires q.PathWaiter? && q == s.queue[i].(done := q.done, err := q.err)
    requires Settled(s1, q, i == 0)
    ensures Inv(s1.(queue := s1.queue[i := q])) && Woken(s, s1.(queue := s1.queue[i := q]), i)
  {
    var s' := s1.(queue := s1.queue[i := q]);
    forall j | 0 <= j < |s'.queue|
      ensures WaiterOk(s', j)
    {
      assert WaiterOk(s, j);
      if j != i {
        WaiterFrame(s, s1, s.queue[i].req, j);
        assert Settled(s', s'.queue[j], j == 0) == Settled(s1, s1.queue[j], j == 0);
      } else {
        assert Settled(s', q, i == 0) == Settled(s1, q, i == 0);
      }
    }
  }

  /** An element that can never get its path gives up everything. */
  lemma FailSettles(s: State, s1: State, i: nat)
    requires Inv(s) && i < |s.queue| && s.queue[i].PathWaiter? && Hopeless(s.tree, s.queue[i])
    requires Core(s1) && Quiet(s, s1, s.queue[i].req)
    ensures var s' := Finish(DropBoth(s1, s.queue[i].req), i, NoEntry); Inv(s') && Woken(s, s', i)
  {
    var q := s.queue[i];
    var s2 := DropBoth(s1, q.req);
    DropBothKeeps(s1, q.req);
    QuietTrans(s, s1, s2, q.req);
    if Broken(s.tree, q.first.base) {
      SameShapeBroken(s.tree, s2.tree, q.first.base);
    } else {
      SameShapeBroken(s.tree, s2.tree, q.second.value.base);
    }
    ElementSettles(s, s2, i, q.(done := true, err := NoEntry));
  }

  lemma ConcludeSettles(s: State, s1: State, i: nat)
    requires Inv(s) && i < |s.queue| && s.queue[i].PathWaiter?
    requires Core(s1) && Quiet(s, s1, s.queue[i].req)
    requires s.queue[i].second.None? ==> !HoldsSecond(s1, s.queue[i].req)
    requires HoldsAll(s1, s.queue[i]) || !s.queue[i].done
    ensures Inv(Conclude(s1, i)) && Woken(s, Conclude(s1, i), i)
  {
    var q := s.queue[i];
    if HoldsAll(s1, q) {
      ElementSettles(s, s1, i, q.(done := true, err := Granted));
    } else if i != 0 {
      DropBothKeeps(s1, q.req);
      QuietTrans(s, s1, DropBoth(s1, q.req), q.req);
      ElementSettles(s, DropBoth(s1, q.req), i, q);
      assert s1.queue[i := q] == s1.queue;
    } else {
      ElementSettles(s, s1, i, q);
      assert s1.queue[i := q] == s1.queue;
    }
  }

  lemma WakeupSecond(s: State, i: nat, s1: State)
    requires Inv(s) && i < |s.queue| && s.queue[i].PathWaiter? && WaiterOk(s, i)
    requires Core(s1) && Quiet(s, s1, s.queue[i].req)
    requires HoldsSecond(s1, s.queue[i].req) <==> HoldsSecond(s, s.queue[i].req)
    requires HoldsFirst(s, s.queue[i].req) ==> HoldsFirst(s1, s.queue[i].req)
    requires HoldsFirst(s, s.queue[i].req) || !Broken(s.tree, s.queue[i].first.base)
    ensures Inv(WakeSecond(s1, i)) && Woken(s, WakeSecond(s1, i), i)
  {
    var q := s.queue[i];
    var (s2, r2) := Attempt(s1, Ticket(q.req, true), q.second);
    AttemptKeeps(s1, Ticket(q.req, true), q.second);
    QuietTrans(s, s1, s2, q.req);
    if r2 == NoEntry {
      SameShapeBroken(s1.tree, s.tree, q.second.value.base);
      FailSettles(s, s2, i);
    } else {
      if q.done && q.err == NoEntry && q.second.Some? && Broken(s.tree, q.second.value.base) {
        SameShapeBroken(s.tree, s1.tree, q.second.value.base);
      }
      ConcludeSettles(s, s2, i);
    }
  }

  lemma WakeupKeeps(s: State, i: nat)
    requires Inv(s) && i < |s.queue|
    ensures Inv(Wakeup(s, i)) && Woken(s, Wakeup(s, i), i)
  {
    var q := s.queue[i];
    assert WaiterOk(s, i);
    if q.PathWaiter? {
      var (s1, r1) := Attempt(s, Ticket(q.req, false), Some(q.first));
      AttemptKeeps(s, Ticket(q.req, false), Some(q.first));
      if r1 == NoEntry {
        FailSettles(s, s1, i);
      } else {
        WakeupSecond(s, i, s1);
      }
    }
  }

  /** The elements are the same ones, whatever they have got. */
  ghost predicate Rewoken(s: State, s': State) {
    && SameShape(s.tree, s'.tree) && s'.active == s.active && |s'.queue| == |s.queue|
    && forall j :: 0 <= j < |s.queue| ==> s'.queue[j].req == s.queue[j].req
  }

  lemma RewokenNext(s: State, s1: State, s': State, i: nat)
    requires i < |s1.queue| && Rewoken(s, s1) && Woken(s1, s', i)
    ensures Rewoken(s, s')
  {
  }

  /** What every wake-up keeps, waking the whole queue keeps. */
  lemma {:induction false} WakeAllInduction(p: (State, nat) -> bool, s: State, i: nat)
    requires i <= |s.queue| && p(s, i)
    requires forall s, i: nat :: p(s, i) && i < |s.queue| ==> |Wakeup(s, i).queue| == |s.queue| && p(Wakeup(s, i), i + 1)
    ensures |WakeAll(s, i).queue| == |s.queue| && p(WakeAll(s, i), |s.queue|)
    decreases |s.queue| - i
  {
    if i < |s.queue| {
      WakeAllInduction(p, Wakeup(s, i), i + 1);
    }
  }

  /** Waking the whole queue keeps the protocol intact. */
  lemma WakeAllKeeps(s: State, i: nat)
    requires Inv(s) && i <= |s.queue|
    ensures Inv(WakeAll(s, i)) && Rewoken(s, WakeAll(s, i))
  {
    var p := (s1: State, j: nat) => Inv(s1) && Rewoken(s, s1);
    forall s1, j: nat | p(s1, j) && j < |s1.queue|
      ensures |Wakeup(s1, j).queue| == |s1.queue| && p(Wakeup(s1, j), j + 1)
    {
      WakeupKeeps(s1, j);
      RewokenNext(s, s1, Wakeup(s1, j), j);
    }
    WakeAllInduction(p, s, i);
  }
}
