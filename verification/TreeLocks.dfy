/** The tree locks of fuse.c: one integer per node encodes a reader count, a writer, or readers
    with a writer waiting.  The ghost map `holds` records who has locked what. */
module TreeLocks {
  import opened Wrappers
  import opened NodeTree

  const TREELOCK_WRITE: int := -1
  const TREELOCK_WAIT_OFFSET: int := -0x8000_0000
  const INT_MAX: int := 0x7fff_ffff

  /** A request locks one path, or two (rename and link). */
  datatype Ticket = Ticket(req: nat, second: bool)

  /** A locked path: the nodes from `base` up to but not including the root, and a node locked
      for writing. */
  datatype Hold = Hold(base: Id, wnode: Option<Id>, chain: seq<Id>)

  /** What a caller asks `try_get_path` to lock. */
  datatype Want = Want(base: Id, name: Option<string>, wr: bool)

  datatype Result = Granted | Retry | NoEntry

  type Holds = map<Ticket, Hold>

  // ---------------------------------------------------------------- meaning of the integer

  predicate Marked(lock: int) {
    lock < TREELOCK_WRITE
  }

  function Readers(lock: int): (r: int) {
    if lock >= 0 then lock else if lock == TREELOCK_WRITE then 0 else lock - TREELOCK_WAIT_OFFSET
  }

  ghost function Crossing(holds: Holds, n: Id): set<Ticket> {
    set tk | tk in holds && n in holds[tk].chain
  }

  ghost function Writing(holds: Holds, n: Id): set<Ticket> {
    set tk | tk in holds && holds[tk].wnode == Some(n)
  }

  /** The integer stands for that many readers and writers. */
  predicate Decodes(lock: int, readers: nat, writers: nat) {
    if writers == 0 then lock != TREELOCK_WRITE && lock > TREELOCK_WAIT_OFFSET && Readers(lock) == readers
    else lock == TREELOCK_WRITE && writers == 1 && readers == 0
  }

  /** The integer of node `n` decodes to exactly the holders. */
  ghost predicate LockOk(t: Tree, holds: Holds, n: Id)
    requires n in t.nodes
  {
    Decodes(t.nodes[n].treelock, |Crossing(holds, n)|, |Writing(holds, n)|)
  }

  /** A held path is still the path from its base to the root. */
  ghost predicate HoldOk(t: Tree, h: Hold) {
    && ChainFrom(t.nodes, h.base, h.chain + [ROOT])
    && t.nodes[h.base].nlookup > 0
    && (h.wnode.Some? ==> h.wnode.value in t.nodes && t.nodes[h.wnode.value].nlookup > 0)
  }

  ghost predicate LockInv(t: Tree, holds: Holds) {
    && |holds| < INT_MAX
    && (forall n {:trigger LockOk(t, holds, n)} :: n in t.nodes ==> LockOk(t, holds, n))
    && (forall tk {:trigger HoldOk(t, holds[tk])} :: tk in holds ==> HoldOk(t, holds[tk]))
  }

  lemma HoldIsLive(t: Tree, h: Hold, n: Id)
    requires HoldOk(t, h) && (n in h.chain || h.wnode == Some(n))
    ensures n in t.nodes
  {
    if n in h.chain {
      var i :| 0 <= i < |h.chain| && h.chain[i] == n;
      assert (h.chain + [ROOT])[i] == n;
    }
  }

  lemma SubsetCardinality<T>(a: set<T>, b: set<T>)
    requires a <= b
    ensures |a| <= |b|
  {
    assert b == a + (b - a);
  }

  /** The counter cannot overflow into the encoding of a writer. */
  lemma CrossingBounded(holds: Holds, n: Id)
    ensures |Crossing(holds, n)| <= |holds|
  {
    SubsetCardinality(Crossing(holds, n), holds.Keys);
  }

  // ---------------------------------------------------------------- locking a path

  /** Which way the climb from the base ends. */
  ghost function Walk(nodes: map<Id, Node>, c: seq<Id>): (r: Result) {
    if c == [] || (c[0] != ROOT && (c[0] !in nodes || nodes[c[0]].link.None?)) then NoEntry
    else if c[0] == ROOT then Granted
    else if nodes[c[0]].treelock < 0 then Retry
    else Walk(nodes, c[1..])
  }

  function SetLock(nodes: map<Id, Node>, n: Id, lock: int): (nodes': map<Id, Node>)
    requires n in nodes
  {
    nodes[n := nodes[n].(treelock := lock)]
  }

  function ReadLockAll(nodes: map<Id, Node>, c: seq<Id>): (nodes': map<Id, Node>) {
    map n | n in nodes :: if n in c then nodes[n].(treelock := nodes[n].treelock + 1) else nodes[n]
  }

  function Unlocked(lock: int): (r: int) {
    if lock - 1 == TREELOCK_WAIT_OFFSET then 0 else lock - 1
  }

  function ReadUnlockAll(nodes: map<Id, Node>, c: seq<Id>): (nodes': map<Id, Node>) {
    map n | n in nodes :: if n in c then nodes[n].(treelock := Unlocked(nodes[n].treelock)) else nodes[n]
  }

  /** The node that a write lock is for, when the name is known. */
  function WriteTarget(t: Tree, want: Want): (w: Option<Id>) {
    if want.wr && want.name.Some? && Key(want.base, want.name.value) in t.names
    then Some(t.names[Key(want.base, want.name.value)]) else None
  }

  /** The outcome of `try_get_path` with locking: a refused writer leaves a mark on the readers in
      its way, any other failure leaves nothing. */
  ghost function TryPath(t: Tree, want: Want): (r: (Tree, Result, Hold))
    requires Shaped(t) && want.base in t.nodes
  {
    var w := WriteTarget(t, want);
    var c := ChainOf(t.nodes, want.base);
    var h := Hold(want.base, w, c[..|c| - 1]);
    if w.Some? && (assert NameOk(t, Key(want.base, want.name.value)); t.nodes[w.value].treelock != 0) then
      var lock := t.nodes[w.value].treelock;
      (t.(nodes := SetLock(t.nodes, w.value, if lock > 0 then lock + TREELOCK_WAIT_OFFSET else lock)), Retry, h)
    else if Walk(t.nodes, c) != Granted then (t, Walk(t.nodes, c), h)
    else
      var nodes := ReadLockAll(t.nodes, h.chain);
      (t.(nodes := if w.Some? then SetLock(nodes, w.value, TREELOCK_WRITE) else nodes), Granted, h)
  }

  /** `unlock_path` over the whole chain. */
  function UnlockPath(t: Tree, h: Hold): (t': Tree)
    requires h.wnode.Some? ==> h.wnode.value in t.nodes
  {
    var nodes := if h.wnode.Some? then SetLock(t.nodes, h.wnode.value, 0) else t.nodes;
    t.(nodes := ReadUnlockAll(nodes, h.chain))
  }

  lemma {:induction false} WalkGranted(nodes: map<Id, Node>, c: seq<Id>)
    requires IsChain(nodes, c) && nodes[c[|c| - 1]].link.None? && ROOT in nodes && nodes[ROOT].link.None?
    ensures Walk(nodes, c) == Granted ==>
      c[|c| - 1] == ROOT && forall i :: 0 <= i < |c| - 1 ==> c[i] != ROOT && nodes[c[i]].treelock >= 0
    ensures Walk(nodes, c) == NoEntry ==> c[|c| - 1] != ROOT
  {
    if |c| > 1 {
      ChainTail(nodes, c, 1);
      WalkGranted(nodes, c[1..]);
      assert forall i :: 1 <= i < |c| - 1 ==> c[i] == c[1..][i - 1];
    }
  }

  // ---------------------------------------------------------------- granting a path

  lemma CrossingAdd(holds: Holds, tk: Ticket, h: Hold, n: Id)
    requires tk !in holds
    ensures |Crossing(holds[tk := h], n)| == |Crossing(holds, n)| + if n in h.chain then 1 else 0
  {
    if n in h.chain {
      assert Crossing(holds[tk := h], n) == Crossing(holds, n) + {tk};
    } else {
      assert Crossing(holds[tk := h], n) == Crossing(holds, n);
    }
  }

  lemma WritingAdd(holds: Holds, tk: Ticket, h: Hold, n: Id)
    requires tk !in holds
    ensures |Writing(holds[tk := h], n)| == |Writing(holds, n)| + if h.wnode == Some(n) then 1 else 0
  {
    if h.wnode == Some(n) {
      assert Writing(holds[tk := h], n) == Writing(holds, n) + {tk};
    } else {
      assert Writing(holds[tk := h], n) == Writing(holds, n);
    }
  }

  /** The kernel refers to what it removes or renames. */
  ghost predicate TargetLive(t: Tree, want: Want) {
    var w := WriteTarget(t, want);
    w.Some? && w.value in t.nodes ==> t.nodes[w.value].nlookup > 0
  }

  ghost predicate Askable(t: Tree, want: Want) {
    want.base in t.nodes && t.nodes[want.base].nlookup > 0 && TargetLive(t, want)
  }

  lemma GrantedHold(t: Tree, want: Want)
    requires TreeInv(t) && Askable(t, want) && TryPath(t, want).1 == Granted
    ensures var (t', _, h) := TryPath(t, want);
      && SameShape(t, t') && HoldOk(t', h)
      && (forall n :: n in h.chain ==> n in t.nodes && t.nodes[n].treelock >= 0)
      && (h.wnode.Some? ==> h.wnode.value in t.nodes && h.wnode.value !in h.chain && t.nodes[h.wnode.value].treelock == 0)
  {
    var (t', _, h) := TryPath(t, want);
    var c := ChainOf(t.nodes, want.base);
    WalkGranted(t.nodes, c);
    assert c == h.chain + [ROOT];
    if h.wnode.Some? {
      TargetIsOffChain(t, Key(want.base, want.name.value), c);
      assert NameOk(t, Key(want.base, want.name.value));
    }
    SameShapeChain(t, t', c);
  }

  /** Locking and unlocking moves nobody's path. */
  lemma SameShapeHolds(t: Tree, t': Tree, holds: Holds)
    requires SameShape(t, t') && LockInv(t, holds)
    ensures forall tk {:trigger HoldOk(t', holds[tk])} :: tk in holds ==> HoldOk(t', holds[tk])
  {
    forall tk | tk in holds
      ensures HoldOk(t', holds[tk])
    {
      assert HoldOk(t, holds[tk]);
      SameShapeChain(t, t', holds[tk].chain + [ROOT]);
    }
  }

  lemma GrantLock(t: Tree, holds: Holds, tk: Ticket, want: Want, n: Id)
    requires TreeInv(t) && LockInv(t, holds) && tk !in holds && |holds| + 1 < INT_MAX
    requires Askable(t, want) && TryPath(t, want).1 == Granted && n in TryPath(t, want).0.nodes
    ensures LockOk(TryPath(t, want).0, holds[tk := TryPath(t, want).2], n)
  {
    GrantedHold(t, want);
    assert LockOk(t, holds, n);
    CrossingAdd(holds, tk, TryPath(t, want).2, n);
    WritingAdd(holds, tk, TryPath(t, want).2, n);
  }

  /** Each successful climb grants the path and keeps every integer exact. */
  lemma GrantKeeps(t: Tree, holds: Holds, tk: Ticket, want: Want)
    requires TreeInv(t) && LockInv(t, holds) && tk !in holds && |holds| + 1 < INT_MAX
    requires Askable(t, want) && TryPath(t, want).1 == Granted
    ensures SameShape(t, TryPath(t, want).0) && LockInv(TryPath(t, want).0, holds[tk := TryPath(t, want).2])
  {
    var (t', _, h) := TryPath(t, want);
    var holds' := holds[tk := h];
    GrantedHold(t, want);
    SameShapeHolds(t, t', holds);
    forall n | n in t'.nodes
      ensures LockOk(t', holds', n)
    {
      GrantLock(t, holds, tk, want, n);
    }
    forall tk' | tk' in holds'
      ensures HoldOk(t', holds'[tk'])
    {
      assert tk' != tk ==> HoldOk(t', holds[tk']);
    }
  }

  /** A refusal at most marks the readers that are in the way. */
  lemma RefusalKeeps(t: Tree, holds: Holds, want: Want)
    requires TreeInv(t) && LockInv(t, holds) && Askable(t, want) && TryPath(t, want).1 != Granted
    ensures SameShape(t, TryPath(t, want).0) && LockInv(TryPath(t, want).0, holds)
  {
    var (t', _, h) := TryPath(t, want);
    if h.wnode.Some? {
      assert NameOk(t, Key(want.base, want.name.value));
    }
    forall n | n in t'.nodes
      ensures LockOk(t', holds, n)
    {
      assert LockOk(t, holds, n);
      CrossingBounded(holds, n);
    }
    SameShapeHolds(t, t', holds);
  }

  // ---------------------------------------------------------------- releasing a path

  lemma HoldsCount(holds: Holds, tk: Ticket, n: Id)
    requires tk in holds
    ensures n in holds[tk].chain ==> |Crossing(holds, n)| > 0
    ensures holds[tk].wnode == Some(n) ==> |Writing(holds, n)| > 0
  {
    assert n in holds[tk].chain ==> tk in Crossing(holds, n);
    assert holds[tk].wnode == Some(n) ==> tk in Writing(holds, n);
  }

  lemma CrossingRemove(holds: Holds, tk: Ticket, n: Id)
    requires tk in holds
    ensures |Crossing(holds - {tk}, n)| == |Crossing(holds, n)| - if n in holds[tk].chain then 1 else 0
    ensures |Writing(holds - {tk}, n)| == |Writing(holds, n)| - if holds[tk].wnode == Some(n) then 1 else 0
  {
    CrossingAdd(holds - {tk}, tk, holds[tk], n);
    WritingAdd(holds - {tk}, tk, holds[tk], n);
    assert (holds - {tk})[tk := holds[tk]] == holds;
  }

  /** The assertions of `unlock_path`: the written node is write-locked, and every node of the
      chain counts at least one reader and no writer. */
  lemma UnlockAsserts(t: Tree, holds: Holds, tk: Ticket)
    requires TreeInv(t) && LockInv(t, holds) && tk in holds
    ensures var w := holds[tk].wnode;
      w.Some? ==> w.value in t.nodes && t.nodes[w.value].treelock == TREELOCK_WRITE
    ensures forall n :: n in holds[tk].chain ==>
      && n in t.nodes && t.nodes[n].treelock != 0
      && t.nodes[n].treelock != TREELOCK_WAIT_OFFSET && t.nodes[n].treelock != TREELOCK_WRITE
  {
    var h := holds[tk];
    assert HoldOk(t, h);
    if h.wnode.Some? {
      assert LockOk(t, holds, h.wnode.value);
      HoldsCount(holds, tk, h.wnode.value);
    }
    forall n | n in h.chain
      ensures n in t.nodes
      ensures t.nodes[n].treelock != 0 && t.nodes[n].treelock != TREELOCK_WAIT_OFFSET && t.nodes[n].treelock != TREELOCK_WRITE
    {
      HoldIsLive(t, h, n);
      assert LockOk(t, holds, n);
      HoldsCount(holds, tk, n);
    }
  }

  lemma ReleaseLock(t: Tree, holds: Holds, tk: Ticket, n: Id)
    requires TreeInv(t) && LockInv(t, holds) && tk in holds && n in t.nodes
    requires holds[tk].wnode.Some? ==> holds[tk].wnode.value in t.nodes
    ensures LockOk(UnlockPath(t, holds[tk]), holds - {tk}, n)
  {
    assert LockOk(t, holds, n);
    CrossingRemove(holds, tk, n);
    CrossingBounded(holds, n);
  }

  lemma ReleaseKeeps(t: Tree, holds: Holds, tk: Ticket)
    requires TreeInv(t) && LockInv(t, holds) && tk in holds
    ensures holds[tk].wnode.Some? ==> holds[tk].wnode.value in t.nodes
    ensures SameShape(t, UnlockPath(t, holds[tk])) && LockInv(UnlockPath(t, holds[tk]), holds - {tk})
  {
    assert HoldOk(t, holds[tk]);
    var t', holds' := UnlockPath(t, holds[tk]), holds - {tk};
    assert holds.Keys == holds'.Keys + {tk};
    forall n | n in t'.nodes
      ensures LockOk(t', holds', n)
    {
      ReleaseLock(t, holds, tk, n);
    }
    UnlockShape(t, holds[tk]);
    SameShapeHolds(t, t', holds);
    forall tk' | tk' in holds'
      ensures HoldOk(t', holds'[tk'])
    {
      assert HoldOk(t', holds[tk']);
    }
  }

  lemma UnlockShape(t: Tree, h: Hold)
    requires h.wnode.Some? ==> h.wnode.value in t.nodes
    ensures SameShape(t, UnlockPath(t, h))
  {
  }

  // ---------------------------------------------------------------- changing the tree under locks

  /** The part of a chain below the first relinked node stays live and in place. */
  lemma {:induction false} ChainSurvives(t: Tree, t': Tree, x: set<Id>, f: set<Id>, c: seq<Id>, i: nat)
    requires Shaped(t') && Evolves(t, t', x, f) && IsChain(t.nodes, c) && i < |c| && c[0] in t'.nodes
    requires forall j :: 0 <= j < i ==> c[j] !in x
    ensures forall j :: 0 <= j <= i ==> c[j] in t'.nodes
    ensures forall j :: 0 <= j < i ==> t'.nodes[c[j]].link == t.nodes[c[j]].link
  {
    if i > 0 {
      ChainSurvives(t, t', x, f, c, i - 1);
      assert NodeEvolves(t, t', x, f, c[i - 1]) && LinkOk(t', c[i - 1]);
    }
  }

  lemma ChainSurvivesWhole(t: Tree, t': Tree, x: set<Id>, f: set<Id>, c: seq<Id>)
    requires Shaped(t') && Evolves(t, t', x, f) && IsChain(t.nodes, c) && c[0] in t'.nodes
    requires forall j :: 0 <= j < |c| ==> c[j] !in x
    ensures IsChain(t'.nodes, c)
  {
    ChainSurvives(t, t', x, f, c, |c| - 1);
    assert NodeEvolves(t, t', x, f, c[|c| - 1]);
    ChainFrame(t.nodes, t'.nodes, c);
  }

  /** A node with a non-zero integer is on someone's chain or written by someone. */
  lemma LockedHasHolder(t: Tree, holds: Holds, n: Id) returns (tk: Ticket)
    requires LockInv(t, holds) && n in t.nodes && t.nodes[n].treelock != 0
    ensures tk in holds && (n in holds[tk].chain || holds[tk].wnode == Some(n))
  {
    assert LockOk(t, holds, n);
    if Writing(holds, n) != {} {
      tk :| tk in Writing(holds, n);
    } else {
      assert Crossing(holds, n) != {};
      tk :| tk in Crossing(holds, n);
    }
  }

  /** Nobody holds a path through an unlocked node. */
  lemma UnlockedHasNoHolder(t: Tree, holds: Holds, n: Id, tk: Ticket)
    requires LockInv(t, holds) && n in t.nodes && t.nodes[n].treelock == 0 && tk in holds
    ensures n !in holds[tk].chain && holds[tk].wnode != Some(n)
  {
    assert LockOk(t, holds, n);
    HoldsCount(holds, tk, n);
  }

  /** A node keeps some of its lookups, or nobody has locked it. */
  ghost predicate Releasable(t: Tree, t': Tree, n: Id) {
    n in t.nodes && (t.nodes[n].treelock == 0 || (n in t'.nodes && t'.nodes[n].nlookup > 0))
  }

  lemma HoldEvolves(t: Tree, t': Tree, x: set<Id>, f: set<Id>, holds: Holds, tk: Ticket)
    requires TreeInv(t) && TreeInv(t') && LockInv(t, holds) && Evolves(t, t', x, f) && tk in holds
    requires forall j :: 0 <= j < |holds[tk].chain| ==> holds[tk].chain[j] !in x
    requires ROOT !in x && ROOT !in f && forall n :: n in f ==> Releasable(t, t', n)
    ensures HoldOk(t', holds[tk])
  {
    var h := holds[tk];
    var c := h.chain + [ROOT];
    assert HoldOk(t, h);
    assert c[0] == h.base;
    if h.base in f && t.nodes[h.base].treelock == 0 {
      UnlockedHasNoHolder(t, holds, h.base, tk);
    }
    if h.wnode.Some? && h.wnode.value in f && t.nodes[h.wnode.value].treelock == 0 {
      UnlockedHasNoHolder(t, holds, h.wnode.value, tk);
    }
    assert NodeEvolves(t, t', x, f, h.base);
    assert h.wnode.Some? ==> NodeEvolves(t, t', x, f, h.wnode.value);
    ChainSurvivesWhole(t, t', x, f, c);
  }

  lemma LockEvolves(t: Tree, t': Tree, x: set<Id>, f: set<Id>, holds: Holds, n: Id)
    requires LockInv(t, holds) && Evolves(t, t', x, f) && n in t'.nodes
    ensures LockOk(t', holds, n)
  {
    assert NodeEvolves(t, t', x, f, n);
    if n in t.nodes {
      assert LockOk(t, holds, n);
    } else {
      forall tk | tk in holds
        ensures n !in holds[tk].chain && holds[tk].wnode != Some(n)
      {
        assert HoldOk(t, holds[tk]);
        if n in holds[tk].chain || holds[tk].wnode == Some(n) {
          HoldIsLive(t, holds[tk], n);
        }
      }
      assert Crossing(holds, n) == {} && Writing(holds, n) == {};
    }
  }

  /** A step that relinks only nodes off every held chain, and gives up only unlocked nodes, keeps
      all locks exact. */
  lemma EvolveKeepsLocks(t: Tree, t': Tree, x: set<Id>, f: set<Id>, holds: Holds)
    requires TreeInv(t) && TreeInv(t') && LockInv(t, holds) && Evolves(t, t', x, f)
    requires forall tk, n :: tk in holds && n in holds[tk].chain ==> n !in x
    requires ROOT !in x && ROOT !in f && forall n :: n in f ==> Releasable(t, t', n)
    ensures LockInv(t', holds)
  {
    forall n | n in t'.nodes
      ensures LockOk(t', holds, n)
    {
      LockEvolves(t, t', x, f, holds, n);
    }
    forall tk | tk in holds
      ensures HoldOk(t', holds[tk])
    {
      HoldEvolves(t, t', x, f, holds, tk);
    }
  }

  /** `delete_node` never meets a locked node: what such a step deletes was unlocked. */
  lemma DeletedWereUnlocked(t: Tree, t': Tree, holds: Holds)
    requires LockInv(t, holds) && LockInv(t', holds)
    ensures forall n :: n in t.nodes && n !in t'.nodes ==> t.nodes[n].treelock == 0
  {
    forall n | n in t.nodes && t.nodes[n].treelock != 0
      ensures n in t'.nodes
    {
      var tk := LockedHasHolder(t, holds, n);
      assert HoldOk(t', holds[tk]);
      HoldIsLive(t', holds[tk], n);
    }
  }
}
