/** Whole runs of the node cache: lookups, forgets, removals and renames interleaved with path
    locking by any number of requests. */
module PathProtocol {
  import opened Wrappers
  import opened NodeTree
  import opened TreeLocks
  import opened PathQueue

  datatype Step =
    | Lookup(parent: Id, name: Option<string>, id: Id)
    | DotTaken(node: Id)
    | DotDropped(node: Id)
    | Forgotten(req: nat, node: Id, count: nat)
    | ForgetResumed(at: nat)
    | PathAsked(req: nat, first: Want, second: Option<Want>)
    | WaiterLeft(at: nat)
    | Removed(req: nat, key: Key)
    | Renamed(req: nat, src: Key, dest: Key, hiding: bool)
    | PathFreed(req: nat)

  // ---------------------------------------------------------------- what the environment promises

  ghost predicate Queued(s: State, req: nat) {
    exists i :: 0 <= i < |s.queue| && s.queue[i].req == req
  }

  /** No waiting request names node `n`: the kernel forgets an inode only when no request that it
      has sent still refers to it. */
  ghost predicate Unnamed(s: State, n: Id) {
    forall i :: 0 <= i < |s.queue| && s.queue[i].PathWaiter? ==>
      && NotAbout(s.tree, s.queue[i].first, n)
      && (s.queue[i].second.Some? ==> NotAbout(s.tree, s.queue[i].second.value, n))
  }

  ghost predicate NotAbout(t: Tree, want: Want, n: Id) {
    want.base != n && WriteTarget(t, want) != Some(n)
  }

  /** The kernel takes back no more lookups than it was given, counting those it has already asked
      to take back. */
  ghost predicate LookupsLeft(s: State, n: Id, count: nat) {
    && n in s.tree.nodes && 0 < count <= s.tree.nodes[n].nlookup
    && forall i :: 0 <= i < |s.queue| && s.queue[i].ForgetWaiter? && s.queue[i].id == n ==>
         count + s.queue[i].count <= s.tree.nodes[n].nlookup
  }

  /** Request `req` has write-locked node `n` by ticket `tk` and locked directory `d`. */
  ghost predicate OwnsUnder(s: State, tk: Ticket, n: Id, d: Id) {
    var other := Ticket(tk.req, true);
    && tk in s.holds && s.holds[tk].wnode == Some(n)
    && (s.holds[tk].base == d || (!tk.second && other in s.holds && s.holds[other].base == d))
  }

  /** The removed name leads to the node that was locked for it. */
  ghost predicate MayRemove(s: State, req: nat, key: Key) {
    key in s.tree.names ==>
      exists second :: Ticket(req, second) in s.holds && s.holds[Ticket(req, second)].wnode == Some(s.tree.names[key])
  }

  ghost predicate MayRename(s: State, req: nat, src: Key, dest: Key) {
    && MayRemove(s, req, src) && MayRemove(s, req, dest)
    && (src in s.tree.names ==>
          exists second :: OwnsUnder(s, Ticket(req, second), s.tree.names[src], dest.parent))
    && (src in s.tree.names && dest in s.tree.names ==> s.tree.names[src] != s.tree.names[dest])
  }

  ghost predicate Enabled(s: State, step: Step) {
    match step
    case Lookup(parent, name, id) =>
      && parent in s.tree.nodes
      && (name.Some? && Key(parent, name.value) !in s.tree.names ==> id !in s.tree.nodes && id != 0 && id != UNKNOWN_INO)
    case DotTaken(n) => n in s.tree.nodes
    case DotDropped(n) => s.tree.dots[n] > 0
    case Forgotten(req, n, count) =>
      n != ROOT ==>
        && LookupsLeft(s, n, count)
        && (count == s.tree.nodes[n].nlookup && s.tree.nodes[n].treelock == 0 ==> Unnamed(s, n))
        && !Queued(s, req) && req !in s.active
    case ForgetResumed(i) =>
      && i < |s.queue| && s.queue[i].ForgetWaiter?
      && s.queue[i].id in s.tree.nodes && s.queue[i].count <= s.tree.nodes[s.queue[i].id].nlookup
      && !(s.tree.nodes[s.queue[i].id].nlookup == s.queue[i].count && s.tree.nodes[s.queue[i].id].treelock != 0)
      && (s.queue[i].count == s.tree.nodes[s.queue[i].id].nlookup ==> Unnamed(s, s.queue[i].id))
    case PathAsked(req, first, second) =>
      && req !in s.active && !Queued(s, req) && 2 * (|s.active| + 1) < INT_MAX
      && Askable(s.tree, first) && (second.Some? ==> Askable(s.tree, second.value))
    case WaiterLeft(i) => i < |s.queue| && s.queue[i].PathWaiter? && s.queue[i].done
    case Removed(req, key) => !Queued(s, req) && MayRemove(s, req, key)
    case Renamed(req, src, dest, _) => !Queued(s, req) && MayRename(s, req, src, dest)
    case PathFreed(req) => req in s.active && !Queued(s, req)
  }

  // ---------------------------------------------------------------- what a step does

  function Without<T>(q: seq<T>, i: nat): (r: seq<T>)
    requires i < |q|
  {
    q[..i] + q[i + 1..]
  }

  /** `try_get_path2`, and `try_get_path` where there is no second path: lock all, or none. */
  ghost function TryBoth(s: State, req: nat, first: Want, second: Option<Want>): (r: (State, Result))
    ensures r.0.queue == s.queue && r.0.active == s.active
  {
    var (s1, r1) := Grab(s, Ticket(req, false), first);
    if r1 != Granted then (s1, r1)
    else
      var (s2, r2) := Attempt(s1, Ticket(req, true), second);
      if r2 == Granted then (s2, r2) else (Drop(s2, Ticket(req, false)), r2)
  }

  /** `get_path_common` and `get_path2`: get all paths, or wait for them, or fail. */
  ghost function Ask(s: State, req: nat, first: Want, second: Option<Want>): (s': State) {
    var (s1, r) := TryBoth(s.(active := s.active + {req}), req, first, second);
    match r
    case Granted => s1
    case Retry => s1.(queue := s1.queue + [PathWaiter(req, first, second, false, Retry)])
    case NoEntry => s1.(active := s.active)
  }

  ghost function Next(s: State, step: Step): (s': State)
    requires Enabled(s, step)
  {
    match step
    case Lookup(parent, name, id) => s.(tree := Find(s.tree, parent, name, id).0)
    case DotTaken(n) => s.(tree := TakeDot(s.tree, n))
    case DotDropped(n) => s.(tree := DropDot(s.tree, n))
    case Forgotten(req, n, count) =>
      if n == ROOT then s
      else if s.tree.nodes[n].nlookup == count && s.tree.nodes[n].treelock != 0
      then s.(queue := s.queue + [ForgetWaiter(req, n, count)])
      else s.(tree := Forget(s.tree, n, count))
    case ForgetResumed(i) =>
      s.(tree := Forget(s.tree, s.queue[i].id, s.queue[i].count), queue := Without(s.queue, i))
    case PathAsked(req, first, second) => Ask(s, req, first, second)
    case WaiterLeft(i) =>
      s.(queue := Without(s.queue, i),
         active := if s.queue[i].err == Granted then s.active else s.active - {s.queue[i].req})
    case Removed(req, key) => if key in s.tree.names then s.(tree := Unhash(s.tree, s.tree.names[key])) else s
    case Renamed(req, src, dest, hiding) => s.(tree := Rename(s.tree, src, dest, hiding).0)
    case PathFreed(req) =>
      var s' := DropBoth(s, req);
      WakeAll(s'.(active := s'.active - {req}), 0)
  }

  /** `fuse_new_common`: only the root, looked up once. */
  function Init(): (s: State) {
    State(Tree(map[ROOT := Node(None, 1, 1, 0)], map[], multiset{}), map[], [], {})
  }

  // ---------------------------------------------------------------- steps that change the tree

  /** Unlinking can only keep a broken chain broken. */
  lemma BrokenPersists(t: Tree, t': Tree, x: set<Id>, f: set<Id>, n: Id)
    requires Shaped(t) && Shaped(t') && Evolves(t, t', x, f) && Broken(t, n) && n in t'.nodes
    requires forall m :: m in x && m in t'.nodes ==> m != ROOT && (t'.nodes[m].link.None? || !Broken(t, m))
    ensures Broken(t', n)
  {
    var c :| ChainFrom(t.nodes, n, c) && c[|c| - 1] != ROOT;
    var i := 0;
    while i < |c| - 1 && c[i] !in x
      invariant 0 <= i < |c|
      invariant forall j :: 0 <= j < i ==> c[j] !in x
    {
      i := i + 1;
    }
    ChainSurvives(t, t', x, f, c, i);
    ChainTail(t.nodes, c, i);
    assert c[i..][|c[i..]| - 1] != ROOT;
    assert Broken(t, c[i]);
    assert NodeEvolves(t, t', x, f, c[i]);
    var d := c[..i + 1];
    assert ChainFrom(t'.nodes, n, d);
    assert i == |c| - 1 || c[i] in x;
  }

  lemma AskableEvolves(t: Tree, t': Tree, x: set<Id>, f: set<Id>, want: Want)
    requires Shaped(t) && Evolves(t, t', x, f) && Askable(t, want)
    requires forall n :: n in f ==> NotAbout(t, want, n) || (n in t'.nodes && t'.nodes[n].nlookup > 0)
    ensures Askable(t', want)
  {
    assert NodeEvolves(t, t', x, f, want.base);
    var w := WriteTarget(t', want);
    if w.Some? {
      var k := Key(want.base, want.name.value);
      assert NameEvolves(t, t', k) && NodeEvolves(t, t', x, f, w.value);
      if k in t.names {
        assert NameOk(t, k);
      }
    }
  }

  /** What a tree step must respect for the protocol to survive it. */
  ghost predicate TreeStepOk(s: State, t': Tree, x: set<Id>, f: set<Id>) {
    && TreeInv(t') && Evolves(s.tree, t', x, f) && WriteInv(t', s.holds)
    && ROOT !in x && ROOT !in f
    && (forall tk, n :: tk in s.holds && n in s.holds[tk].chain ==> n !in x)
    && (forall m :: m in x && m in t'.nodes ==> t'.nodes[m].link.None? || !Broken(s.tree, m))
    && (forall n :: n in f ==> Releasable(s.tree, t', n) && (Unnamed(s, n) || (n in t'.nodes && t'.nodes[n].nlookup > 0)))
    && (forall i :: 0 <= i < |s.queue| && s.queue[i].ForgetWaiter? && s.queue[i].id in f ==>
          s.queue[i].id in t'.nodes && s.queue[i].count <= t'.nodes[s.queue[i].id].nlookup)
  }

  lemma WaiterEvolves(s: State, t': Tree, x: set<Id>, f: set<Id>, i: nat)
    requires Inv(s) && TreeStepOk(s, t', x, f) && i < |s.queue|
    ensures WaiterOk(s.(tree := t'), i)
  {
    var q := s.queue[i];
    assert WaiterOk(s, i);
    if q.PathWaiter? {
      AskableEvolves(s.tree, t', x, f, q.first);
      if Broken(s.tree, q.first.base) {
        BrokenPersists(s.tree, t', x, f, q.first.base);
      }
      if q.second.Some? {
        AskableEvolves(s.tree, t', x, f, q.second.value);
        if Broken(s.tree, q.second.value.base) {
          BrokenPersists(s.tree, t', x, f, q.second.value.base);
        }
      }
    } else {
      assert NodeEvolves(s.tree, t', x, f, q.id);
    }
  }

  /** How a step may change the tree: whatever it links anew was not below an unlinked directory. */
  ghost predicate Relinks(t: Tree, t': Tree, x: set<Id>, f: set<Id>) {
    && Evolves(t, t', x, f) && ROOT !in x
    && forall m :: m in x && m in t'.nodes ==> t'.nodes[m].link.None? || !Broken(t, m)
  }

  ghost predicate TreeChange(t: Tree, t': Tree) {
    t' == t || exists x, f :: Relinks(t, t', x, f)
  }

  lemma TreeStepKeeps(s: State, t': Tree, x: set<Id>, f: set<Id>)
    requires Inv(s) && TreeStepOk(s, t', x, f)
    ensures Inv(s.(tree := t')) && TreeChange(s.tree, t')
  {
    assert Relinks(s.tree, t', x, f);
    EvolveKeepsLocks(s.tree, t', x, f, s.holds);
    forall i | 0 <= i < |s.queue|
      ensures WaiterOk(s.(tree := t'), i)
    {
      WaiterEvolves(s, t', x, f, i);
    }
  }

  /** A step that relinks nothing leaves the writers' nodes where they were. */
  lemma WritersStay(s: State, t': Tree, f: set<Id>)
    requires Inv(s) && TreeInv(t') && Evolves(s.tree, t', {}, f)
    requires forall n :: n in f ==> Releasable(s.tree, t', n)
    ensures WriteInv(t', s.holds)
  {
    forall tk | tk in s.holds
      ensures WriteOk(t', s.holds, tk)
    {
      assert WriteOk(s.tree, s.holds, tk) && HoldOk(s.tree, s.holds[tk]);
      var w := s.holds[tk].wnode;
      if w.Some? {
        assert NodeEvolves(s.tree, t', {}, f, w.value);
        if s.tree.nodes[w.value].treelock == 0 {
          UnlockedHasNoHolder(s.tree, s.holds, w.value, tk);
        }
      }
    }
  }

  lemma LookupKeeps(s: State, parent: Id, name: Option<string>, id: Id)
    requires Inv(s) && Enabled(s, Lookup(parent, name, id))
    ensures Inv(s.(tree := Find(s.tree, parent, name, id).0)) && TreeChange(s.tree, Find(s.tree, parent, name, id).0)
  {
    var t' := Find(s.tree, parent, name, id).0;
    if name.None? {
      IncLookupKeeps(s.tree, parent);
    } else {
      var k := Key(parent, name.value);
      if k in s.tree.names {
        assert NameOk(s.tree, k);
        IncLookupKeeps(s.tree, s.tree.names[k]);
      } else {
        CreateKeeps(s.tree, id, k);
      }
    }
    WritersStay(s, t', {});
    TreeStepKeeps(s, t', {}, {});
  }

  lemma DotKeeps(s: State, n: Id)
    requires Inv(s)
    ensures n in s.tree.nodes ==> Inv(s.(tree := TakeDot(s.tree, n))) && TreeChange(s.tree, TakeDot(s.tree, n))
    ensures s.tree.dots[n] > 0 ==> Inv(s.(tree := DropDot(s.tree, n))) && TreeChange(s.tree, DropDot(s.tree, n))
  {
    if n in s.tree.nodes {
      TakeDotKeeps(s.tree, n);
      WritersStay(s, TakeDot(s.tree, n), {});
      TreeStepKeeps(s, TakeDot(s.tree, n), {}, {});
    }
    if s.tree.dots[n] > 0 {
      DropDotKeeps(s.tree, n);
      WritersStay(s, DropDot(s.tree, n), {});
      TreeStepKeeps(s, DropDot(s.tree, n), {}, {});
    }
  }

  /** Taking lookups back, the last ones only from an unlocked node that nobody waits for. */
  lemma ForgetNow(s: State, n: Id, count: nat)
    requires Inv(s) && n != ROOT && LookupsLeft(s, n, count)
    requires count == s.tree.nodes[n].nlookup ==> s.tree.nodes[n].treelock == 0 && Unnamed(s, n)
    ensures Inv(s.(tree := Forget(s.tree, n, count))) && TreeChange(s.tree, Forget(s.tree, n, count))
  {
    var t' := Forget(s.tree, n, count);
    ForgetKeeps(s.tree, n, count);
    WritersStay(s, t', {n});
    forall i | 0 <= i < |s.queue| && s.queue[i].ForgetWaiter? && s.queue[i].id == n
      ensures n in t'.nodes && s.queue[i].count <= t'.nodes[n].nlookup
    {
      assert WaiterOk(s, i);
    }
    TreeStepKeeps(s, t', {}, {n});
  }

  // ---------------------------------------------------------------- entering and leaving the queue

  lemma EnqueueKeeps(s: State, q: Waiter)
    requires Inv(s) && WaiterLive(s, q) && Settled(s, q, |s.queue| == 0) && Distinct(s.queue + [q])
    ensures Inv(s.(queue := s.queue + [q]))
  {
    var s' := s.(queue := s.queue + [q]);
    forall i | 0 <= i < |s'.queue|
      ensures WaiterOk(s', i)
    {
      if i < |s.queue| {
        assert WaiterOk(s, i) && s'.queue[i] == s.queue[i];
        assert Settled(s', s'.queue[i], i == 0) == Settled(s, s.queue[i], i == 0);
      } else {
        assert Settled(s', q, i == 0) == Settled(s, q, i == 0);
      }
    }
  }

  /** The next element may become the head; it then holds nothing or everything. */
  lemma DequeueKeeps(s: State, i: nat, active: set<nat>)
    requires Inv(s) && i < |s.queue| && s.active - {s.queue[i].req} <= active <= s.active
    requires s.queue[i].req in active || (HoldsNone(s, s.queue[i].req) && s.queue[i].PathWaiter?) || active == s.active
    ensures Inv(s.(queue := Without(s.queue, i), active := active))
  {
    var s' := s.(queue := Without(s.queue, i), active := active);
    SubsetCardinality(active, s.active);
    forall j | 0 <= j < |s'.queue|
      ensures WaiterOk(s', j)
    {
      var k := if j < i then j else j + 1;
      assert WaiterOk(s, k) && s'.queue[j] == s.queue[k] && s.queue[k].req != s.queue[i].req;
      assert Settled(s', s'.queue[j], k == 0) == Settled(s, s.queue[k], k == 0);
    }
    forall tk | tk in s'.holds
      ensures tk.req in active
    {
      assert tk == Ticket(tk.req, tk.second);
    }
  }

  lemma ForgottenKeeps(s: State, req: nat, n: Id, count: nat)
    requires Inv(s) && Enabled(s, Forgotten(req, n, count))
    ensures Inv(Next(s, Forgotten(req, n, count))) && TreeChange(s.tree, Next(s, Forgotten(req, n, count)).tree)
  {
    if n != ROOT {
      if s.tree.nodes[n].nlookup == count && s.tree.nodes[n].treelock != 0 {
        var q := ForgetWaiter(req, n, count);
        forall i | 0 <= i < |s.queue|
          ensures s.queue[i].req != req && (s.queue[i].ForgetWaiter? ==> s.queue[i].id != n)
        {
          assert WaiterOk(s, i);
        }
        EnqueueKeeps(s, q);
      } else {
        ForgetNow(s, n, count);
      }
    }
  }

  lemma ForgetResumedKeeps(s: State, i: nat)
    requires Inv(s) && Enabled(s, ForgetResumed(i))
    ensures Inv(Next(s, ForgetResumed(i))) && TreeChange(s.tree, Next(s, ForgetResumed(i)).tree)
  {
    var q := s.queue[i];
    assert WaiterOk(s, i);
    DequeueKeeps(s, i, s.active);
    var s1 := s.(queue := Without(s.queue, i), active := s.active);
    forall j | 0 <= j < |s1.queue|
      ensures s1.queue[j] in s.queue && (s1.queue[j].ForgetWaiter? ==> s1.queue[j].id != q.id)
    {
      assert s1.queue[j] == s.queue[if j < i then j else j + 1];
    }
    ForgetNow(s1, q.id, q.count);
  }

  lemma WaiterLeftKeeps(s: State, i: nat)
    requires Inv(s) && Enabled(s, WaiterLeft(i))
    ensures Inv(Next(s, WaiterLeft(i)))
  {
    assert WaiterOk(s, i);
    DequeueKeeps(s, i, if s.queue[i].err == Granted then s.active else s.active - {s.queue[i].req});
  }

  // ---------------------------------------------------------------- asking for and freeing paths

  /** What other requests lock matters to no element of the queue. */
  lemma QuietKeeps(s: State, s': State, req: nat, active: set<nat>)
    requires Inv(s) && Core(s') && Quiet(s, s', req) && !Queued(s, req)
    requires s.active - {req} <= active <= s.active
    requires req in active || HoldsNone(s', req)
    ensures Inv(s'.(active := active))
  {
    var s'' := s'.(active := active);
    SubsetCardinality(active, s.active);
    forall i | 0 <= i < |s''.queue|
      ensures WaiterOk(s'', i)
    {
      assert WaiterOk(s, i);
      WaiterFrame(s, s', req, i);
      assert Settled(s'', s''.queue[i], i == 0) == Settled(s', s'.queue[i], i == 0);
    }
    forall tk | tk in s''.holds
      ensures tk.req in active
    {
      assert tk == Ticket(tk.req, tk.second);
    }
  }

  /** A request that has just arrived holds nothing. */
  lemma ActiveKeeps(s: State, req: nat)
    requires Inv(s) && req !in s.active && 2 * (|s.active| + 1) < INT_MAX
    ensures Inv(s.(active := s.active + {req})) && HoldsNone(s, req)
  {
    var s0 := s.(active := s.active + {req});
    assert forall tk :: tk in s.holds ==> tk.req != req;
    forall i | 0 <= i < |s0.queue|
      ensures WaiterOk(s0, i)
    {
      assert WaiterOk(s, i);
      assert Settled(s0, s0.queue[i], i == 0) == Settled(s, s.queue[i], i == 0);
    }
  }

  lemma TryBothKeeps(s: State, req: nat, first: Want, second: Option<Want>)
    requires Core(s) && req in s.active && HoldsNone(s, req)
    requires Askable(s.tree, first) && (second.Some? ==> Askable(s.tree, second.value))
    ensures var (s', r) := TryBoth(s, req, first, second);
      && Core(s') && Quiet(s, s', req) && (r != Granted ==> HoldsNone(s', req))
      && (r == Granted ==> HoldsFirst(s', req) && (HoldsSecond(s', req) <==> second.Some?))
  {
    GrabKeeps(s, Ticket(req, false), first);
    var (s1, r1) := Grab(s, Ticket(req, false), first);
    if r1 == Granted {
      AttemptKeeps(s1, Ticket(req, true), second);
      var (s2, r2) := Attempt(s1, Ticket(req, true), second);
      QuietTrans(s, s1, s2, req);
      if r2 != Granted {
        DropKeeps(s2, Ticket(req, false));
        QuietTrans(s, s2, Drop(s2, Ticket(req, false)), req);
      }
    }
  }

  lemma PathAskedKeeps(s: State, req: nat, first: Want, second: Option<Want>)
    requires Inv(s) && Enabled(s, PathAsked(req, first, second))
    ensures Inv(Ask(s, req, first, second)) && SameShape(s.tree, Ask(s, req, first, second).tree)
  {
    var s0 := s.(active := s.active + {req});
    ActiveKeeps(s, req);
    TryBothKeeps(s0, req, first, second);
    var (s1, r) := TryBoth(s0, req, first, second);
    QuietKeeps(s0, s1, req, s0.active);
    match r
    case Granted =>
    case NoEntry =>
      assert s0.active - {req} <= s.active;
      QuietKeeps(s0, s1, req, s.active);
    case Retry =>
      assert WaiterLive(s0, PathWaiter(req, first, second, false, Retry));
      EnqueueKeeps(s1, PathWaiter(req, first, second, false, Retry));
  }

  lemma PathFreedKeeps(s: State, req: nat)
    requires Inv(s) && Enabled(s, PathFreed(req))
    ensures var s' := Next(s, PathFreed(req));
      && Inv(s') && SameShape(s.tree, s'.tree) && s'.active == s.active - {req} && HoldsNone(s', req)
      && |s'.queue| == |s.queue| && forall j :: 0 <= j < |s.queue| ==> s'.queue[j].req == s.queue[j].req
  {
    DropBothKeeps(s, req);
    var s' := DropBoth(s, req);
    QuietKeeps(s, s', req, s.active - {req});
    WakeAllKeeps(s'.(active := s.active - {req}), 0);
    IdleHoldsNone(Next(s, PathFreed(req)), req);
  }

  lemma IdleHoldsNone(s: State, req: nat)
    requires Inv(s) && req !in s.active
    ensures HoldsNone(s, req)
  {
    assert Ticket(req, false).req == req && Ticket(req, true).req == req;
  }

  // ---------------------------------------------------------------- removing and renaming

  /** A write-locked node is live, on nobody's chain, and written by one ticket only. */
  lemma WriterIsAlone(s: State, tk: Ticket, n: Id)
    requires Core(s) && tk in s.holds && s.holds[tk].wnode == Some(n)
    ensures n in s.tree.nodes && s.tree.nodes[n].treelock == TREELOCK_WRITE && s.tree.nodes[n].nlookup > 0
    ensures forall tk' :: tk' in s.holds ==> n !in s.holds[tk'].chain
    ensures forall tk' :: tk' in s.holds && s.holds[tk'].wnode == Some(n) ==> tk' == tk
  {
    assert HoldOk(s.tree, s.holds[tk]) && LockOk(s.tree, s.holds, n);
    assert tk in Writing(s.holds, n);
    forall tk' | tk' in s.holds
      ensures n !in s.holds[tk'].chain && (s.holds[tk'].wnode == Some(n) ==> tk' == tk)
    {
      assert n in s.holds[tk'].chain ==> tk' in Crossing(s.holds, n);
      if s.holds[tk'].wnode == Some(n) && tk' != tk {
        assert {tk, tk'} <= Writing(s.holds, n);
        SubsetCardinality({tk, tk'}, Writing(s.holds, n));
      }
    }
  }

  /** Writers other than those of the nodes in `x` keep their nodes in place. */
  lemma WritersAside(s: State, t': Tree, x: set<Id>, tk: Ticket)
    requires Core(s) && Evolves(s.tree, t', x, {}) && tk in s.holds
    requires s.holds[tk].wnode.Some? ==> s.holds[tk].wnode.value !in x
    ensures WriteOk(t', s.holds, tk)
  {
    assert WriteOk(s.tree, s.holds, tk) && HoldOk(s.tree, s.holds[tk]);
    if s.holds[tk].wnode.Some? {
      assert NodeEvolves(s.tree, t', x, {}, s.holds[tk].wnode.value);
    }
  }

  lemma RemovedKeeps(s: State, req: nat, key: Key)
    requires Inv(s) && Enabled(s, Removed(req, key)) && key in s.tree.names
    ensures Inv(s.(tree := Unhash(s.tree, s.tree.names[key]))) && TreeChange(s.tree, Unhash(s.tree, s.tree.names[key]))
  {
    var n := s.tree.names[key];
    var t' := Unhash(s.tree, n);
    var second :| Ticket(req, second) in s.holds && s.holds[Ticket(req, second)].wnode == Some(n);
    WriterIsAlone(s, Ticket(req, second), n);
    assert NameOk(s.tree, key);
    UnhashKeeps(s.tree, n);
    forall tk | tk in s.holds
      ensures WriteOk(t', s.holds, tk)
    {
      if s.holds[tk].wnode == Some(n) {
        assert NodeEvolves(s.tree, t', {n}, {}, n);
      } else {
        WritersAside(s, t', {n}, tk);
      }
    }
    TreeStepKeeps(s, t', {n}, {});
  }

  /** The locks of a rename rule out everything that would damage the tree: both directories stay
      looked up, and the new one is not below the moved node. */
  lemma RenameIsSafe(s: State, req: nat, src: Key, dest: Key)
    requires Inv(s) && Enabled(s, Renamed(req, src, dest, false)) && src in s.tree.names
    ensures Renamable(s.tree, src, dest) && s.tree.names[src] !in ChainOf(s.tree.nodes, dest.parent)
    ensures !Broken(s.tree, s.tree.names[src])
  {
    var n := s.tree.names[src];
    assert NameOk(s.tree, src);
    var second :| OwnsUnder(s, Ticket(req, second), n, dest.parent);
    var tk, other := Ticket(req, second), Ticket(req, true);
    WriterIsAlone(s, tk, n);
    LockedIsComplete(s.tree, s.holds, n);
    NotBoth(s.tree, n);
    assert WriteOk(s.tree, s.holds, tk) && HoldOk(s.tree, s.holds[tk]);
    if other in s.holds {
      assert HoldOk(s.tree, s.holds[other]);
    }
    var h := if s.holds[tk].base == dest.parent then s.holds[tk] else s.holds[other];
    ChainUnique(s.tree.nodes, h.chain + [ROOT], ChainOf(s.tree.nodes, dest.parent));
  }

  lemma RenamedKeeps(s: State, req: nat, src: Key, dest: Key)
    requires Inv(s) && Enabled(s, Renamed(req, src, dest, false)) && src in s.tree.names
    ensures Inv(s.(tree := Rename(s.tree, src, dest, false).0)) && TreeChange(s.tree, Rename(s.tree, src, dest, false).0)
  {
    var n, x, t' := s.tree.names[src], RenameTargets(s.tree, src, dest), Rename(s.tree, src, dest, false).0;
    RenameIsSafe(s, req, src, dest);
    RenameKeeps(s.tree, src, dest);
    var second :| OwnsUnder(s, Ticket(req, second), n, dest.parent);
    WriterIsAlone(s, Ticket(req, second), n);
    if dest in s.tree.names {
      var second' :| Ticket(req, second') in s.holds && s.holds[Ticket(req, second')].wnode == Some(s.tree.names[dest]);
      WriterIsAlone(s, Ticket(req, second'), s.tree.names[dest]);
    }
    forall tk | tk in s.holds
      ensures WriteOk(t', s.holds, tk)
    {
      var w := s.holds[tk].wnode;
      if !(w.Some? && w.value in x) {
        WritersAside(s, t', x, tk);
      }
    }
    TreeStepKeeps(s, t', x, {});
  }

  // ---------------------------------------------------------------- whole runs

  lemma InitInv()
    ensures Inv(Init())
  {
    var t := Init().tree;
    assert ChainFrom(t.nodes, ROOT, [ROOT]);
    assert HasChain(t.nodes, ROOT);
    assert Children(t.nodes, ROOT) == {};
    assert Crossing(map[], ROOT) == {} && Writing(map[], ROOT) == {};
  }

  /** Every step of the protocol keeps the invariant. */
  lemma StepKeeps(s: State, step: Step)
    requires Inv(s) && Enabled(s, step)
    ensures Inv(Next(s, step))
    ensures if step.PathAsked? || step.PathFreed? then SameShape(s.tree, Next(s, step).tree) else TreeChange(s.tree, Next(s, step).tree)
  {
    match step
    case Lookup(parent, name, id) => LookupKeeps(s, parent, name, id);
    case DotTaken(n) => DotKeeps(s, n);
    case DotDropped(n) => DotKeeps(s, n);
    case Forgotten(req, n, count) => ForgottenKeeps(s, req, n, count);
    case ForgetResumed(i) => ForgetResumedKeeps(s, i);
    case PathAsked(req, first, second) => PathAskedKeeps(s, req, first, second);
    case WaiterLeft(i) => WaiterLeftKeeps(s, i);
    case Removed(req, key) =>
      if key in s.tree.names {
        RemovedKeeps(s, req, key);
      }
    case Renamed(req, src, dest, hiding) =>
      if src in s.tree.names && !(hiding && dest in s.tree.names) {
        RenamedKeeps(s, req, src, dest);
      }
    case PathFreed(req) => PathFreedKeeps(s, req);
  }

  /** Nothing links an unlinked directory again: below it, no step makes a path to the root. */
  lemma BrokenStays(s: State, step: Step, n: Id)
    requires Inv(s) && Enabled(s, step) && Broken(s.tree, n) && n in Next(s, step).tree.nodes
    ensures Broken(Next(s, step).tree, n)
  {
    var t' := Next(s, step).tree;
    StepKeeps(s, step);
    if SameShape(s.tree, t') {
      SameShapeBroken(s.tree, t', n);
    } else {
      var x, f :| Relinks(s.tree, t', x, f);
      BrokenPersists(s.tree, t', x, f, n);
    }
  }

  /** A run: each state follows from the one before by an enabled step. */
  ghost predicate IsRun(states: seq<State>, steps: seq<Step>) {
    && |states| == |steps| + 1 && states[0] == Init()
    && forall i :: 0 <= i < |steps| ==> Enabled(states[i], steps[i]) && states[i + 1] == Next(states[i], steps[i])
  }

  /** What holds somewhere and is kept from there on holds ever after. */
  lemma {:induction false} EverAfter(p: State -> bool, states: seq<State>, i: nat, j: nat)
    requires i <= j < |states| && p(states[i])
    requires forall k :: i <= k < j && p(states[k]) ==> p(states[k + 1])
    ensures p(states[j])
    decreases j - i
  {
    if i < j {
      EverAfter(p, states, i, j - 1);
    }
  }

  lemma {:induction false} RunKeeps(states: seq<State>, steps: seq<Step>, i: nat)
    requires IsRun(states, steps) && i < |states|
    ensures Inv(states[i])
  {
    if i == 0 {
      InitInv();
    } else {
      RunKeeps(states, steps, i - 1);
      StepKeeps(states[i - 1], steps[i - 1]);
    }
  }
}
