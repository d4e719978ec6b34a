/** What the invariant of PathProtocol means for every run, from the first node to the last step. */
module RunSafety {
  import opened Wrappers
  import opened NodeTree
  import opened TreeLocks
  import opened PathQueue
  import opened PathProtocol

  // ---------------------------------------------------------------- single states

  /** Reference counts are exact, parents are live, and the way to the root is finite. */
  lemma RefCountIsExact(states: seq<State>, steps: seq<Step>, i: nat, n: Id)
    requires IsRun(states, steps) && i < |states| && n in states[i].tree.nodes
    ensures var t := states[i].tree;
      && t.nodes[n].refctr == (if t.nodes[n].nlookup > 0 then 1 else 0) + |Children(t.nodes, n)| + t.dots[n]
      && t.nodes[n].refctr > 0
      && (t.nodes[n].link.Some? ==> t.nodes[n].link.value.parent in t.nodes && t.nodes[n].link.value in t.names
                                    && t.names[t.nodes[n].link.value] == n)
      && HasChain(t.nodes, n)
  {
    RunKeeps(states, steps, i);
    assert RefOk(states[i].tree, n, 0, 0) && LinkOk(states[i].tree, n);
  }

  /** A node's integer decodes to its holders: one writer and nobody else, or as many readers as
      there are paths through the node. */
  lemma TreeLockDecodes(states: seq<State>, steps: seq<Step>, i: nat, n: Id)
    requires IsRun(states, steps) && i < |states| && n in states[i].tree.nodes
    ensures var lock, holds := states[i].tree.nodes[n].treelock, states[i].holds;
      if lock == TREELOCK_WRITE then |Writing(holds, n)| == 1 && Crossing(holds, n) == {}
      else Writing(holds, n) == {} && TREELOCK_WAIT_OFFSET < lock < INT_MAX && Readers(lock) == |Crossing(holds, n)|
  {
    RunKeeps(states, steps, i);
    assert LockOk(states[i].tree, states[i].holds, n);
    CrossingBounded(states[i].holds, n);
  }

  /** A locked path is the path from its base to the root, as it was when it was locked, and its
      nodes are live. */
  lemma LockedPathStands(states: seq<State>, steps: seq<Step>, i: nat, tk: Ticket)
    requires IsRun(states, steps) && i < |states| && tk in states[i].holds
    ensures var t, h := states[i].tree, states[i].holds[tk];
      && ChainFrom(t.nodes, h.base, h.chain + [ROOT])
      && (h.wnode.Some? ==> h.wnode.value in t.nodes && h.wnode.value !in h.chain)
      && forall n :: n in h.chain ==> n in t.nodes && t.nodes[n].treelock != 0
  {
    RunKeeps(states, steps, i);
    var s := states[i];
    assert HoldOk(s.tree, s.holds[tk]);
    UnlockAsserts(s.tree, s.holds, tk);
    if s.holds[tk].wnode.Some? {
      WriterIsAlone(s, tk, s.holds[tk].wnode.value);
    }
  }

  lemma BrokenNext(states: seq<State>, steps: seq<Step>, i: nat, n: Id)
    requires IsRun(states, steps) && i < |steps| && Broken(states[i].tree, n) && n in states[i + 1].tree.nodes
    ensures Broken(states[i + 1].tree, n)
  {
    RunKeeps(states, steps, i);
    BrokenStays(states[i], steps[i], n);
  }

  /** Nothing links an unlinked directory again: as long as the node lives, no later state has a path
      from it to the root. */
  lemma BrokenForGood(states: seq<State>, steps: seq<Step>, i: nat, j: nat, n: Id)
    requires IsRun(states, steps) && i <= j < |states| && Broken(states[i].tree, n)
    requires forall k :: i <= k <= j ==> n in states[k].tree.nodes
    ensures Broken(states[j].tree, n)
  {
    forall k | i <= k < j && Broken(states[k].tree, n)
      ensures Broken(states[k + 1].tree, n)
    {
      BrokenNext(states, steps, k, n);
    }
    EverAfter((s: State) => Broken(s.tree, n), states, i, j);
  }

  /** So a path that failed for good fails for good in every later state. */
  lemma NoEntryForGood(states: seq<State>, steps: seq<Step>, i: nat, j: nat, want: Want)
    requires IsRun(states, steps) && i <= j < |states| && Broken(states[i].tree, want.base)
    requires forall k :: i <= k <= j ==> want.base in states[k].tree.nodes
    ensures Shaped(states[j].tree) && TryPath(states[j].tree, want).1 == NoEntry
  {
    RunKeeps(states, steps, j);
    BrokenForGood(states, steps, i, j, want.base);
    BrokenIsRefused(states[j].tree, states[j].holds, want);
  }

  /** Only the head of the queue has some of its paths; everyone else has all or none. */
  lemma OnlyHeadIsPartial(states: seq<State>, steps: seq<Step>, i: nat, j: nat)
    requires IsRun(states, steps) && i < |states| && 0 < j < |states[i].queue| && states[i].queue[j].PathWaiter?
    ensures HoldsAll(states[i], states[i].queue[j]) || HoldsNone(states[i], states[i].queue[j].req)
  {
    RunKeeps(states, steps, i);
    assert WaiterOk(states[i], j);
  }

  // ---------------------------------------------------------------- single steps

  /** Steps that only lock or wait leave the tree in shape. */
  ghost predicate OnlyLocks(step: Step) {
    step.PathAsked? || step.PathFreed? || step.WaiterLeft?
  }

  lemma LockStepShape(s: State, step: Step)
    requires Inv(s) && Enabled(s, step) && OnlyLocks(step)
    ensures SameShape(s.tree, Next(s, step).tree)
  {
    StepKeeps(s, step);
  }

  /** `delete_node` never meets a lock: whatever disappears in a step was unlocked before it. */
  lemma DeletedIsUnlocked(states: seq<State>, steps: seq<Step>, i: nat, n: Id)
    requires IsRun(states, steps) && i < |steps|
    requires n in states[i].tree.nodes && n !in states[i + 1].tree.nodes
    ensures states[i].tree.nodes[n].treelock == 0
  {
    RunKeeps(states, steps, i);
    RunKeeps(states, steps, i + 1);
    if OnlyLocks(steps[i]) {
      LockStepShape(states[i], steps[i]);
    } else {
      DeletedWereUnlocked(states[i].tree, states[i + 1].tree, states[i].holds);
    }
  }

  // ---------------------------------------------------------------- lookups are conserved

  /** The node that a lookup is about, when `id` is the next number. */
  function Answer(names: map<Key, Id>, parent: Id, name: Option<string>, id: Id): (n: Id) {
    if name.None? then parent
    else if Key(parent, name.value) in names then names[Key(parent, name.value)]
    else id
  }

  /** What a step gives to the kernel, or takes back, of node `n`. */
  ghost function Given(s: State, step: Step, n: Id): (d: int)
    requires Enabled(s, step)
  {
    match step
    case Lookup(parent, name, id) => if Answer(s.tree.names, parent, name, id) == n then 1 else 0
    case Forgotten(_, m, count) =>
      if m == n != ROOT && !(s.tree.nodes[m].nlookup == count && s.tree.nodes[m].treelock != 0) then 0 - count else 0
    case ForgetResumed(i) => if s.queue[i].id == n then 0 - s.queue[i].count else 0
    case _ => 0
  }

  ghost function Net(states: seq<State>, steps: seq<Step>, i: nat, n: Id): (d: int)
    requires IsRun(states, steps) && i < |states|
  {
    if i == 0 then if n == ROOT then 1 else 0
    else Net(states, steps, i - 1, n) + Given(states[i - 1], steps[i - 1], n)
  }

  lemma RenameLookups(s: State, req: nat, src: Key, dest: Key, hiding: bool, m: Id)
    requires Inv(s) && Enabled(s, Renamed(req, src, dest, hiding))
    ensures Lookups(Rename(s.tree, src, dest, hiding).0, m) == Lookups(s.tree, m)
  {
    if src in s.tree.names {
      RenameIsSafe(s, req, src, dest);
    }
    RenameMoves(s.tree, src, dest, hiding);
  }

  lemma FindLookups(s: State, parent: Id, name: Option<string>, id: Id, m: Id)
    requires Inv(s) && Enabled(s, Lookup(parent, name, id))
    ensures Lookups(Find(s.tree, parent, name, id).0, m) ==
      Lookups(s.tree, m) + if m == Answer(s.tree.names, parent, name, id) then 1 else 0
  {
    FindLooksUp(s.tree, parent, name, id);
  }

  lemma StepLookups(s: State, step: Step, n: Id)
    requires Inv(s) && Enabled(s, step)
    ensures Lookups(Next(s, step).tree, n) == Lookups(s.tree, n) + Given(s, step, n)
  {
    match step
    case Lookup(parent, name, id) => FindLookups(s, parent, name, id, n);
    case DotTaken(_) =>
    case DotDropped(m) =>
      DotCounts(s.tree, m);
      UnrefLookups(s.tree.(dots := s.tree.dots - multiset{m}), m, n);
    case Forgotten(_, m, count) =>
      if m != ROOT {
        ForgetLookups(s.tree, m, count, n);
      }
    case ForgetResumed(i) =>
      assert WaiterOk(s, i);
      ForgetLookups(s.tree, s.queue[i].id, s.queue[i].count, n);
    case Removed(_, key) =>
      if key in s.tree.names {
        assert NameOk(s.tree, key);
        UnhashLookups(s.tree, s.tree.names[key], n);
      }
    case Renamed(req, src, dest, hiding) => RenameLookups(s, req, src, dest, hiding, n);
    case _ => LockStepShape(s, step);
  }

  /** A node's lookup count is what the kernel has been given less what it gave back. So every node
      that the kernel can still name is live. */
  lemma {:induction false} LookupsAreConserved(states: seq<State>, steps: seq<Step>, i: nat, n: Id)
    requires IsRun(states, steps) && i < |states|
    ensures Lookups(states[i].tree, n) == Net(states, steps, i, n)
    ensures Net(states, steps, i, n) > 0 ==> n in states[i].tree.nodes
  {
    if i > 0 {
      LookupsAreConserved(states, steps, i - 1, n);
      RunKeeps(states, steps, i - 1);
      StepLookups(states[i - 1], steps[i - 1], n);
    }
  }
}
