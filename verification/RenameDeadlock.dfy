/** A run in which a rename waits for ever, although every other request that had a lock has given it
    back: it crosses the directory itself, and a writer has marked the directory meanwhile. */
module RenameDeadlock {
  import opened Wrappers
  import opened NodeTree
  import opened TreeLocks
  import opened PathQueue
  import opened PathProtocol
  import opened QueueProgress
  import opened PathBlockers

  /** A directory `dir` below the root with two files. */
  datatype Names = Names(dir: string, src: string, dest: string)

  const DIR: Id := 2
  const SRC: Id := 3
  const DEST: Id := 4
  const MARK := TREELOCK_WAIT_OFFSET

  function Files(x: Names): map<Key, Id> {
    map[Key(ROOT, x.dir) := DIR, Key(DIR, x.src) := SRC, Key(DIR, x.dest) := DEST]
  }

  /** The tree with these tree locks on the directory and its files. */
  function Locked(x: Names, dir: int, src: int, dest: int): Tree {
    Tree(
      map[
        ROOT := Node(None, 2, 1, 0),
        DIR := Node(Some(Key(ROOT, x.dir)), 3, 1, dir),
        SRC := Node(Some(Key(DIR, x.src)), 1, 1, src),
        DEST := Node(Some(Key(DIR, x.dest)), 1, 1, dest)],
      Files(x), multiset{})
  }

  ghost predicate Grown(x: Names) {
    x.src != x.dest && TreeInv(Locked(x, 0, 0, 0))
  }

  lemma AnyLocks(x: Names, dir: int, src: int, dest: int)
    requires Grown(x)
    ensures TreeInv(Locked(x, dir, src, dest))
  {
    SameShapeInv(Locked(x, 0, 0, 0), Locked(x, dir, src, dest));
  }

  // ---------------------------------------------------------------- trying the paths of this tree

  lemma Chains(t: Tree, x: Names, dir: int, src: int, dest: int)
    requires t == Locked(x, dir, src, dest) && Shaped(t)
    ensures ChainOf(t.nodes, ROOT) == [ROOT] && ChainOf(t.nodes, DIR) == [DIR, ROOT] && ChainOf(t.nodes, DEST) == [DEST, DIR, ROOT]
  {
    ChainUnique(t.nodes, [ROOT], ChainOf(t.nodes, ROOT));
    ChainUnique(t.nodes, [DIR, ROOT], ChainOf(t.nodes, DIR));
    ChainUnique(t.nodes, [DEST, DIR, ROOT], ChainOf(t.nodes, DEST));
  }

  lemma TryRoot(x: Names, dir: int, src: int, dest: int)
    requires Shaped(Locked(x, dir, src, dest))
    ensures TryPath(Locked(x, dir, src, dest), Want(ROOT, None, false)) == (Locked(x, dir, src, dest), Granted, HOLD6)
  {
    var t := Locked(x, dir, src, dest);
    Chains(t, x, dir, src, dest);
    assert ReadLockAll(t.nodes, []) == t.nodes;
  }

  lemma TryDest(x: Names)
    requires Grown(x)
    ensures TryPath(Locked(x, 0, 0, 0), Want(DEST, None, false)) == (Locked(x, 1, 0, 1), Granted, HOLD5)
  {
    var t := Locked(x, 0, 0, 0);
    Chains(t, x, 0, 0, 0);
    var c := [DEST, DIR, ROOT];
    assert c[1..] == [DIR, ROOT] && c[1..][1..] == [ROOT];
    assert Walk(t.nodes, [DIR, ROOT]) == Granted;
    assert c[..2] == [DEST, DIR];
    assert ReadLockAll(t.nodes, [DEST, DIR]) == Locked(x, 1, 0, 1).nodes;
  }

  lemma WriteSrc(x: Names, dest: int)
    requires Grown(x) && Shaped(Locked(x, 1, 0, dest))
    ensures TryPath(Locked(x, 1, 0, dest), Want(DIR, Some(x.src), true)) == (Locked(x, 2, TREELOCK_WRITE, dest), Granted, HOLD1)
  {
    var t := Locked(x, 1, 0, dest);
    Chains(t, x, 1, 0, dest);
    assert WriteTarget(t, Want(DIR, Some(x.src), true)) == Some(SRC);
    assert [DIR, ROOT][1..] == [ROOT] && [DIR, ROOT][..1] == [DIR];
    assert Walk(t.nodes, [DIR, ROOT]) == Granted;
    assert SetLock(ReadLockAll(t.nodes, [DIR]), SRC, TREELOCK_WRITE) == Locked(x, 2, TREELOCK_WRITE, dest).nodes;
  }

  lemma WriteDest(x: Names, dir: int, src: int, dest: int)
    requires Grown(x) && Shaped(Locked(x, dir, src, dest)) && (dest != 0 || dir < 0)
    ensures var (t, r, _) := TryPath(Locked(x, dir, src, dest), Want(DIR, Some(x.dest), true));
      t == Locked(x, dir, src, if dest > 0 then dest + MARK else dest) && r == Retry
  {
    var t := Locked(x, dir, src, dest);
    Chains(t, x, dir, src, dest);
    assert SetLock(t.nodes, DEST, if dest > 0 then dest + MARK else dest) ==
      Locked(x, dir, src, if dest > 0 then dest + MARK else dest).nodes;
  }

  lemma WriteDir(x: Names, dir: int, src: int, dest: int)
    requires Grown(x) && Shaped(Locked(x, dir, src, dest)) && dir != 0
    ensures var (t, r, _) := TryPath(Locked(x, dir, src, dest), Want(ROOT, Some(x.dir), true));
      t == Locked(x, if dir > 0 then dir + MARK else dir, src, dest) && r == Retry
  {
    var t := Locked(x, dir, src, dest);
    Chains(t, x, dir, src, dest);
    assert SetLock(t.nodes, DIR, if dir > 0 then dir + MARK else dir) ==
      Locked(x, if dir > 0 then dir + MARK else dir, src, dest).nodes;
  }

  // ---------------------------------------------------------------- unlocking in this tree

  lemma UnlockSrc(x: Names)
    requires x.src != x.dest
    ensures UnlockPath(Locked(x, 2, TREELOCK_WRITE, 1 + MARK), HOLD1) == Locked(x, 1, 0, 1 + MARK)
  {
    var t, t' := Locked(x, 2, TREELOCK_WRITE, 1 + MARK), Locked(x, 1, 0, 1 + MARK);
    assert ReadUnlockAll(SetLock(t.nodes, SRC, 0), [DIR]) == t'.nodes;
  }

  lemma UnlockDest(x: Names)
    requires x.src != x.dest
    ensures UnlockPath(Locked(x, 2 + MARK, TREELOCK_WRITE, 1 + MARK), HOLD5) == Locked(x, 1 + MARK, TREELOCK_WRITE, 0)
  {
    var t, t' := Locked(x, 2 + MARK, TREELOCK_WRITE, 1 + MARK), Locked(x, 1 + MARK, TREELOCK_WRITE, 0);
    assert ReadUnlockAll(t.nodes, [DEST, DIR]) == t'.nodes;
  }

  lemma UnlockRoot(t: Tree)
    ensures UnlockPath(t, HOLD6) == t
  {
    assert ReadUnlockAll(t.nodes, []) == t.nodes;
  }

  // ---------------------------------------------------------------- asking and freeing, in any state

  lemma AskGranted(s: State, req: nat, want: Want, t: Tree, h: Hold)
    requires Shaped(s.tree) && want.base in s.tree.nodes && TryPath(s.tree, want) == (t, Granted, h)
    ensures Ask(s, req, want, None) == State(t, s.holds[Ticket(req, false) := h], s.queue, s.active + {req})
  {
  }

  lemma AskRefused(s: State, req: nat, want: Want, t: Tree)
    requires Shaped(s.tree) && want.base in s.tree.nodes && TryPath(s.tree, want).0 == t && TryPath(s.tree, want).1 == Retry
    ensures Ask(s, req, want, None) ==
      State(t, s.holds, s.queue + [PathWaiter(req, want, None, false, Retry)], s.active + {req})
  {
  }

  lemma OneDropped(s: State, req: nat, t: Tree)
    requires Ticket(req, false) in s.holds && Ticket(req, true) !in s.holds
    requires s.holds[Ticket(req, false)].wnode.Some? ==> s.holds[Ticket(req, false)].wnode.value in s.tree.nodes
    requires UnlockPath(s.tree, s.holds[Ticket(req, false)]) == t
    ensures DropBoth(s, req) == s.(tree := t, holds := s.holds - {Ticket(req, false)})
  {
  }

  // ---------------------------------------------------------------- the states of the run

  const TK1 := Ticket(1, false)
  const TK5 := Ticket(5, false)
  const TK6 := Ticket(6, false)
  const HOLD1 := Hold(DIR, Some(SRC), [DIR])
  const HOLD5 := Hold(DEST, None, [DEST, DIR])
  const HOLD6 := Hold(ROOT, None, [])

  function Renaming(x: Names): Waiter {
    PathWaiter(1, Want(DIR, Some(x.src), true), Some(Want(DIR, Some(x.dest), true)), false, Retry)
  }

  function Emptying(x: Names): Waiter {
    PathWaiter(3, Want(ROOT, Some(x.dir), true), None, false, Retry)
  }

  /** The directory has been looked up, and then the first file. */
  function S1(x: Names): State {
    State(
      Tree(
        map[ROOT := Node(None, 2, 1, 0), DIR := Node(Some(Key(ROOT, x.dir)), 1, 1, 0)],
        map[Key(ROOT, x.dir) := DIR], multiset{}),
      map[], [], {})
  }

  function S2(x: Names): State {
    State(
      Tree(
        map[
          ROOT := Node(None, 2, 1, 0),
          DIR := Node(Some(Key(ROOT, x.dir)), 2, 1, 0),
          SRC := Node(Some(Key(DIR, x.src)), 1, 1, 0)],
        map[Key(ROOT, x.dir) := DIR, Key(DIR, x.src) := SRC], multiset{}),
      map[], [], {})
  }

  function S3(x: Names): State {
    State(Locked(x, 0, 0, 0), map[], [], {})
  }

  function S4(x: Names): State {
    State(Locked(x, 1, 0, 1), map[TK5 := HOLD5], [], {5})
  }

  function S5(x: Names): State {
    State(Locked(x, 1, 0, 1 + MARK), map[TK5 := HOLD5], [Renaming(x)], {5, 1})
  }

  function S6(x: Names): State {
    State(Locked(x, 1, 0, 1 + MARK), map[TK5 := HOLD5, TK6 := HOLD6], [Renaming(x)], {5, 1, 6})
  }

  function S7(x: Names): State {
    State(Locked(x, 2, TREELOCK_WRITE, 1 + MARK), map[TK5 := HOLD5, TK1 := HOLD1], [Renaming(x)], {5, 1})
  }

  function S8(x: Names): State {
    State(
      Locked(x, 2 + MARK, TREELOCK_WRITE, 1 + MARK), map[TK5 := HOLD5, TK1 := HOLD1],
      [Renaming(x), Emptying(x)], {5, 1, 3})
  }

  function S9(x: Names): State {
    State(Locked(x, 1 + MARK, TREELOCK_WRITE, 0), map[TK1 := HOLD1], [Renaming(x), Emptying(x)], {1, 3})
  }

  // ---------------------------------------------------------------- one step after the other

  ghost predicate Takes(s: State, step: Step, s': State) {
    Enabled(s, step) && Next(s, step) == s'
  }

  lemma LooksUpDir(x: Names)
    ensures Takes(Init(), Lookup(ROOT, Some(x.dir), DIR), S1(x))
  {
  }

  lemma LooksUpSrc(x: Names)
    ensures Takes(S1(x), Lookup(DIR, Some(x.src), SRC), S2(x))
  {
  }

  lemma LooksUpDest(x: Names)
    requires x.src != x.dest
    ensures Takes(S2(x), Lookup(DIR, Some(x.dest), DEST), S3(x))
  {
  }

  /** Request 5 locks the path of the second file. */
  lemma LocksDest(x: Names)
    requires Grown(x)
    ensures Takes(S3(x), PathAsked(5, Want(DEST, None, false), None), S4(x))
  {
    TryDest(x);
    AskGranted(S3(x), 5, Want(DEST, None, false), Locked(x, 1, 0, 1), HOLD5);
    assert {} + {5} == {5};
  }

  lemma FirstGranted(x: Names, s: State)
    requires Grown(x) && s == S4(x).(active := {5, 1})
    ensures Grab(s, TK1, Renaming(x).first) == (s.(tree := Locked(x, 2, TREELOCK_WRITE, 1), holds := s.holds[TK1 := HOLD1]), Granted)
  {
    AnyLocks(x, 1, 0, 1);
    WriteSrc(x, 1);
  }

  lemma SecondRefused(x: Names, s: State)
    requires Grown(x) && s.tree == Locked(x, 2, TREELOCK_WRITE, 1) && Ticket(1, true) !in s.holds
    ensures Attempt(s, Ticket(1, true), Renaming(x).second) == (s.(tree := Locked(x, 2, TREELOCK_WRITE, 1 + MARK)), Retry)
  {
    AnyLocks(x, 2, TREELOCK_WRITE, 1);
    WriteDest(x, 2, TREELOCK_WRITE, 1);
  }

  lemma FirstGivenBack(x: Names, s: State)
    requires Grown(x) && s.tree == Locked(x, 2, TREELOCK_WRITE, 1 + MARK) && TK1 in s.holds && s.holds[TK1] == HOLD1
    ensures Drop(s, TK1) == s.(tree := Locked(x, 1, 0, 1 + MARK), holds := s.holds - {TK1})
  {
    UnlockSrc(x);
  }

  /** Request 1 gets its first path, is refused the second, marks its target and gives the first back. */
  lemma RenameRefused(x: Names)
    requires Grown(x)
    ensures var s := S4(x).(active := {5, 1});
      TryBoth(s, 1, Renaming(x).first, Renaming(x).second) == (s.(tree := Locked(x, 1, 0, 1 + MARK)), Retry)
  {
    var s := S4(x).(active := {5, 1});
    FirstGranted(x, s);
    var s1 := s.(tree := Locked(x, 2, TREELOCK_WRITE, 1), holds := s.holds[TK1 := HOLD1]);
    SecondRefused(x, s1);
    FirstGivenBack(x, s1.(tree := Locked(x, 2, TREELOCK_WRITE, 1 + MARK)));
    assert s1.holds - {TK1} == s.holds;
  }

  lemma AsksToRename(x: Names)
    requires Grown(x)
    ensures Takes(S4(x), PathAsked(1, Renaming(x).first, Renaming(x).second), S5(x))
  {
    RenameRefused(x);
    assert S4(x).active + {1} == {5, 1};
  }

  /** Request 6 locks the root, that is, nothing. */
  lemma LocksRoot(x: Names)
    requires Grown(x)
    ensures Takes(S5(x), PathAsked(6, Want(ROOT, None, false), None), S6(x))
  {
    AnyLocks(x, 1, 0, 1 + MARK);
    TryRoot(x, 1, 0, 1 + MARK);
    AskGranted(S5(x), 6, Want(ROOT, None, false), Locked(x, 1, 0, 1 + MARK), HOLD6);
    assert S5(x).active + {6} == {5, 1, 6};
  }

  /** Once request 6 has gone, the head takes its first path and keeps it. */
  lemma HeadTakesFirst(x: Names)
    requires Grown(x)
    ensures Wakeup(S5(x), 0) == S7(x)
  {
    HeadFirst(x);
    HeadSecond(x);
  }

  lemma HeadFirst(x: Names)
    requires Grown(x)
    ensures Attempt(S5(x), TK1, Some(Renaming(x).first)) == (S7(x), Granted)
  {
    AnyLocks(x, 1, 0, 1 + MARK);
    WriteSrc(x, 1 + MARK);
    assert S5(x).holds[TK1 := HOLD1] == S7(x).holds;
  }

  lemma HeadSecond(x: Names)
    requires Grown(x)
    ensures Attempt(S7(x), Ticket(1, true), Renaming(x).second) == (S7(x), Retry)
  {
    AnyLocks(x, 2, TREELOCK_WRITE, 1 + MARK);
    WriteDest(x, 2, TREELOCK_WRITE, 1 + MARK);
  }

  lemma Frees(s: State, req: nat, s1: State, s': State)
    requires req in s.active && !Queued(s, req)
    requires DropBoth(s, req).(active := s.active - {req}) == s1 && WakeAll(s1, 0) == s'
    ensures Takes(s, PathFreed(req), s')
  {
  }

  lemma RootDropped(x: Names)
    ensures DropBoth(S6(x), 6).(active := S6(x).active - {6}) == S5(x)
  {
    UnlockRoot(S6(x).tree);
    OneDropped(S6(x), 6, S6(x).tree);
    assert S6(x).holds - {TK6} == S5(x).holds && S6(x).active - {6} == {5, 1};
  }

  lemma FreesRoot(x: Names)
    requires Grown(x)
    ensures Takes(S6(x), PathFreed(6), S7(x))
  {
    RootDropped(x);
    HeadTakesFirst(x);
    assert WakeAll(S7(x), 1) == S7(x);
    assert WakeAll(S5(x), 0) == S7(x);
    Frees(S6(x), 6, S5(x), S7(x));
  }

  /** Request 3 finds readers on the directory and marks it. */
  lemma AsksToWrite(x: Names)
    requires Grown(x)
    ensures Takes(S7(x), PathAsked(3, Emptying(x).first, None), S8(x))
  {
    AnyLocks(x, 2, TREELOCK_WRITE, 1 + MARK);
    WriteDir(x, 2, TREELOCK_WRITE, 1 + MARK);
    AskRefused(S7(x), 3, Emptying(x).first, S8(x).tree);
    assert S7(x).active + {3} == {5, 1, 3};
  }

  lemma DestDropped(x: Names)
    requires x.src != x.dest
    ensures DropBoth(S8(x), 5).(active := S8(x).active - {5}) == S9(x)
  {
    UnlockDest(x);
    OneDropped(S8(x), 5, S9(x).tree);
    assert S8(x).holds - {TK5} == S9(x).holds && S8(x).active - {5} == {1, 3};
  }

  /** Nobody is served: the head does not pass the mark, and the writer does not pass the head. */
  lemma NobodyServed(x: Names)
    requires Grown(x)
    ensures Wakeup(S9(x), 0) == S9(x) && Wakeup(S9(x), 1) == S9(x)
  {
    AnyLocks(x, 1 + MARK, TREELOCK_WRITE, 0);
    WriteDest(x, 1 + MARK, TREELOCK_WRITE, 0);
    WriteDir(x, 1 + MARK, TREELOCK_WRITE, 0);
  }

  lemma FreesDest(x: Names)
    requires Grown(x)
    ensures Takes(S8(x), PathFreed(5), S9(x))
  {
    DestDropped(x);
    NobodyServed(x);
    assert WakeAll(S9(x), 2) == S9(x);
    assert WakeAll(S9(x), 1) == S9(x);
    assert WakeAll(S9(x), 0) == S9(x);
    Frees(S8(x), 5, S9(x), S9(x));
  }

  // ---------------------------------------------------------------- the whole run

  function Steps(x: Names): seq<Step> {
    [Lookup(ROOT, Some(x.dir), DIR), Lookup(DIR, Some(x.src), SRC), Lookup(DIR, Some(x.dest), DEST),
     PathAsked(5, Want(DEST, None, false), None),
     PathAsked(1, Renaming(x).first, Renaming(x).second),
     PathAsked(6, Want(ROOT, None, false), None), PathFreed(6),
     PathAsked(3, Emptying(x).first, None),
     PathFreed(5)]
  }

  function States(x: Names): seq<State> {
    [Init(), S1(x), S2(x), S3(x), S4(x), S5(x), S6(x), S7(x), S8(x), S9(x)]
  }

  lemma GrownUp(x: Names)
    requires x.src != x.dest
    ensures Grown(x)
  {
    InitInv();
    LooksUpDir(x);
    LooksUpSrc(x);
    StepKeeps(Init(), Lookup(ROOT, Some(x.dir), DIR));
    StepKeeps(S1(x), Lookup(DIR, Some(x.src), SRC));
    LooksUpDest(x);
    StepKeeps(S2(x), Lookup(DIR, Some(x.dest), DEST));
  }

  lemma FirstSteps(x: Names, i: nat)
    requires Grown(x) && i < 3
    ensures Takes(States(x)[i], Steps(x)[i], States(x)[i + 1])
  {
    if
    case i == 0 => LooksUpDir(x);
    case i == 1 => LooksUpSrc(x);
    case i == 2 => LooksUpDest(x);
  }

  lemma NextSteps(x: Names, i: nat)
    requires Grown(x) && 3 <= i < 6
    ensures Takes(States(x)[i], Steps(x)[i], States(x)[i + 1])
  {
    if
    case i == 3 => LocksDest(x);
    case i == 4 => AsksToRename(x);
    case i == 5 => LocksRoot(x);
  }

  lemma LastSteps(x: Names, i: nat)
    requires Grown(x) && 6 <= i < 9
    ensures Takes(States(x)[i], Steps(x)[i], States(x)[i + 1])
  {
    if
    case i == 6 => FreesRoot(x);
    case i == 7 => AsksToWrite(x);
    case i == 8 => FreesDest(x);
  }

  lemma IsRunBySteps(states: seq<State>, steps: seq<Step>)
    requires |states| == |steps| + 1 && states[0] == Init()
    requires forall i :: 0 <= i < |steps| ==> Takes(states[i], steps[i], states[i + 1])
    ensures IsRun(states, steps)
  {
    forall i | 0 <= i < |steps|
      ensures Enabled(states[i], steps[i]) && states[i + 1] == Next(states[i], steps[i])
    {
      assert Takes(states[i], steps[i], states[i + 1]);
    }
  }

  lemma ThisIsARun(x: Names)
    requires x.src != x.dest
    ensures IsRun(States(x), Steps(x)) && Inv(S9(x))
  {
    GrownUp(x);
    forall i | 0 <= i < 9
      ensures Takes(States(x)[i], Steps(x)[i], States(x)[i + 1])
    {
      if i < 3 {
        FirstSteps(x, i);
      } else if i < 6 {
        NextSteps(x, i);
      } else {
        LastSteps(x, i);
      }
    }
    IsRunBySteps(States(x), Steps(x));
    RunKeeps(States(x), Steps(x), 9);
    assert States(x)[9] == S9(x);
  }

  /** In any directory, for any two names: this is a run; at its end no request but the renaming one has
      a lock, and that one waits for nothing but its own. */
  lemma RenameBlocksItself(x: Names)
    requires x.src != x.dest
    ensures IsRun(States(x), Steps(x)) && Inv(S9(x))
    ensures S9(x).holds.Keys == {TK1} && S9(x).queue[0] == Renaming(x)
    ensures Wedged(S9(x), TK1, Renaming(x).second.value)
    ensures WaiterLive(S9(x), Renaming(x)) && Stuck(S9(x).tree, S9(x).holds, Renaming(x)) && BlockedByItself(S9(x), Renaming(x))
    ensures HeadBlocksItself(S9(x)) && NobodyRuns(S9(x))
  {
    ThisIsARun(x);
    assert WaiterOk(S9(x), 0);
    WedgedRefused(S9(x), TK1, Renaming(x).second.value);
    assert Blockers(S9(x), Renaming(x).second.value) <= S9(x).holds.Keys;
    assert WaitsAt(S9(x), 0);
  }

  /** However such a run goes on, the rename goes on waiting. */
  lemma RenameWaitsForEver(x: Names, states: seq<State>, steps: seq<Step>, j: nat)
    requires x.src != x.dest && IsRun(states, steps) && States(x) <= states && 9 <= j < |states|
    ensures states[j].queue != [] && states[j].queue[0] == Renaming(x) && HoldsFirst(states[j], 1) && !HoldsSecond(states[j], 1)
  {
    RenameBlocksItself(x);
    assert states[9] == S9(x);
    WaitsForEver(states, steps, 9, j, TK1, Renaming(x).second.value);
    RunKeeps(states, steps, j);
    assert WaiterOk(states[j], 0);
  }
}