/** `unlock_path` and `try_get_path` of fuse.c as they run: one climb along the parent pointers that
    locks each node and builds the path text, undone when it meets an obstacle. */
module PathLocking {
  import opened Wrappers
  import opened NodeTree
  import opened TreeLocks
  import opened PathText
  import opened NodeCache

  // ---------------------------------------------------------------- one node at a time

  lemma LockMore(nodes: map<Id, Node>, c: seq<Id>, i: nat)
    requires i < |c| && c[i] in nodes && c[i] !in c[..i]
    ensures ReadLockAll(nodes, c[..i + 1]) == SetLock(ReadLockAll(nodes, c[..i]), c[i], nodes[c[i]].treelock + 1)
  {
    assert c[..i + 1] == c[..i] + [c[i]];
  }

  lemma UnlockMore(nodes: map<Id, Node>, c: seq<Id>, i: nat)
    requires i < |c| && c[i] in nodes && c[i] !in c[..i]
    ensures ReadUnlockAll(nodes, c[..i + 1]) == SetLock(ReadUnlockAll(nodes, c[..i]), c[i], Unlocked(nodes[c[i]].treelock))
  {
    assert c[..i + 1] == c[..i] + [c[i]];
  }

  lemma NoLocks(nodes: map<Id, Node>)
    ensures ReadLockAll(nodes, []) == nodes && ReadUnlockAll(nodes, []) == nodes
  {
    assert ReadLockAll(nodes, []) == nodes;
  }

  predicate Distinct(c: seq<Id>) {
    forall i, j :: 0 <= i < j < |c| ==> c[i] != c[j]
  }

  lemma ChainIsDistinct(nodes: map<Id, Node>, c: seq<Id>)
    requires IsChain(nodes, c)
    ensures Distinct(c)
  {
    forall i, j | 0 <= i < j < |c|
      ensures c[i] != c[j]
    {
      ChainHasNoDuplicates(nodes, c, i, j);
    }
  }

  /** Locks that `unlock_path` accepts. */
  ghost predicate ReadLocked(nodes: map<Id, Node>, c: seq<Id>) {
    forall n :: n in c ==>
      n in nodes && nodes[n].treelock != 0 && nodes[n].treelock != TREELOCK_WAIT_OFFSET && nodes[n].treelock != TREELOCK_WRITE
  }

  /** The climb of `unlock_path` passes through `c` and stops at `stop`. */
  ghost predicate StopsAt(nodes: map<Id, Node>, n: Id, end: Option<Id>, c: seq<Id>, stop: Id) {
    && Climbs(nodes, c, stop) && Distinct(c) && (c + [stop])[0] == n
    && (stop == ROOT || end == Some(stop))
    && forall i :: 0 <= i < |c| ==> c[i] != ROOT && end != Some(c[i])
  }

  /** Where the climb is after `i` nodes. */
  lemma StopsAfter(nodes: map<Id, Node>, n: Id, end: Option<Id>, c: seq<Id>, stop: Id, i: nat)
    requires StopsAt(nodes, n, end, c, stop) && ReadLocked(nodes, c) && i <= |c|
    ensures var node := (c + [stop])[i];
      && (i == |c| <==> node == ROOT || end == Some(node))
      && (i < |c| ==> node == c[i] && node in nodes && node !in c[..i] && nodes[node].link.Some?
                      && nodes[node].link.value.parent == (c + [stop])[i + 1] && ReadLocked(nodes, [node]))
  {
    if i < |c| {
      assert c[i] in c;
    }
  }

  method UnlockNode(cache: Cache, node: Id)
    requires node in cache.nodes && ReadLocked(cache.nodes, [node])
    modifies cache`nodes
    ensures cache.nodes == SetLock(old(cache.nodes), node, Unlocked(old(cache.nodes)[node].treelock))
  {
    assert node in [node];
    assert cache.nodes[node].treelock != 0;
    assert cache.nodes[node].treelock != TREELOCK_WAIT_OFFSET;
    assert cache.nodes[node].treelock != TREELOCK_WRITE;
    cache.nodes := SetLock(cache.nodes, node, cache.nodes[node].treelock - 1);
    if cache.nodes[node].treelock == TREELOCK_WAIT_OFFSET {
      cache.nodes := SetLock(cache.nodes, node, 0);
    }
  }

  /** The loop of `unlock_path`. */
  method UnlockUp(cache: Cache, n: Id, end: Option<Id>, ghost c: seq<Id>, ghost stop: Id)
    requires StopsAt(cache.nodes, n, end, c, stop) && ReadLocked(cache.nodes, c)
    modifies cache`nodes
    ensures cache.nodes == ReadUnlockAll(old(cache.nodes), c)
  {
    ghost var start, i := cache.nodes, 0;
    NoLocks(start);
    var node := n;
    StopsAfter(start, n, end, c, stop, 0);
    while end != Some(node) && node != ROOT
      invariant 0 <= i <= |c| && node == (c + [stop])[i]
      invariant i == |c| <==> node == ROOT || end == Some(node)
      invariant cache.nodes == ReadUnlockAll(start, c[..i])
      decreases |c| - i
    {
      StopsAfter(start, n, end, c, stop, i);
      StopsAfter(start, n, end, c, stop, i + 1);
      assert cache.nodes[node] == start[node];
      UnlockMore(start, c, i);
      UnlockNode(cache, node);
      node := cache.nodes[node].link.value.parent;
      i := i + 1;
    }
    assert c[..i] == c;
  }

  /** `unlock_path`: its assertions hold, and each node of the way counts one reader less. */
  method UnlockNodes(cache: Cache, n: Id, wnode: Option<Id>, end: Option<Id>, ghost c: seq<Id>, ghost stop: Id)
    requires StopsAt(cache.nodes, n, end, c, stop) && ReadLocked(cache.nodes, c)
    requires wnode.Some? ==> wnode.value in cache.nodes && wnode.value !in c && cache.nodes[wnode.value].treelock == TREELOCK_WRITE
    modifies cache`nodes
    ensures cache.nodes ==
            ReadUnlockAll(if wnode.Some? then SetLock(old(cache.nodes), wnode.value, 0) else old(cache.nodes), c)
  {
    if wnode.Some? {
      assert cache.nodes[wnode.value].treelock == TREELOCK_WRITE;
      cache.nodes := SetLock(cache.nodes, wnode.value, 0);
    }
    UnlockUp(cache, n, end, c, stop);
  }

  // ---------------------------------------------------------------- the text of the path

  /** The components asked for: those of the node, and the name below it. */
  function Suffix(name: Option<string>): (r: seq<string>) {
    if name.Some? then [name.value] else []
  }

  /** The text fits the buffer, whose size is an unsigned int. */
  ghost predicate Fits(nodes: map<Id, Node>, c: seq<Id>, name: Option<string>)
    requires IsChain(nodes, c)
  {
    ChainIsLinked(nodes, c);
    |JoinPath(Names(nodes, c[..|c| - 1]) + Suffix(name))| + 1 <= BUF_MAX
  }

  lemma ChainIsLinked(nodes: map<Id, Node>, c: seq<Id>)
    requires IsChain(nodes, c)
    ensures AllLinked(nodes, c[..|c| - 1])
  {
  }

  lemma JoinNext(nodes: map<Id, Node>, c: seq<Id>, i: nat, suffix: seq<string>)
    requires i < |c| && AllLinked(nodes, c[..i + 1])
    ensures AllLinked(nodes, c[..i])
    ensures JoinPath(Names(nodes, c[..i + 1]) + suffix)
         == "/" + nodes[c[i]].link.value.name + JoinPath(Names(nodes, c[..i]) + suffix)
  {
    assert forall j :: 0 <= j < i ==> c[..i][j] == c[..i + 1][j];
    assert c[..i + 1][i] == c[i] && c[..i + 1][..i] == c[..i];
    var names := Names(nodes, c[..i]);
    var all := [nodes[c[i]].link.value.name] + names + suffix;
    assert all[1..] == names + suffix;
  }

  lemma {:induction false} JoinGrows(nodes: map<Id, Node>, c: seq<Id>, i: nat, k: nat, suffix: seq<string>)
    requires i <= k <= |c| && AllLinked(nodes, c[..k])
    ensures AllLinked(nodes, c[..i])
    ensures |JoinPath(Names(nodes, c[..i]) + suffix)| <= |JoinPath(Names(nodes, c[..k]) + suffix)|
    decreases k
  {
    if i < k {
      JoinNext(nodes, c, k - 1, suffix);
      JoinGrows(nodes, c, i, k - 1, suffix);
    }
  }

  // ---------------------------------------------------------------- the climb

  predicate Passable(nodes: map<Id, Node>, n: Id) {
    n != ROOT && n in nodes && nodes[n].link.Some? && nodes[n].treelock >= 0
  }

  /** The first node of the chain that the climb does not pass. */
  ghost function Obstacle(nodes: map<Id, Node>, c: seq<Id>, i: nat): (k: nat)
    decreases |c| - i
  {
    if i >= |c| || !Passable(nodes, c[i]) then i else Obstacle(nodes, c, i + 1)
  }

  function Verdict(nodes: map<Id, Node>, n: Id): (r: Result) {
    if n == ROOT then Granted else if n !in nodes || nodes[n].link.None? then NoEntry else Retry
  }

  lemma {:induction false} WalkStops(nodes: map<Id, Node>, c: seq<Id>, i: nat)
    requires IsChain(nodes, c) && i < |c|
    ensures Obstacle(nodes, c, i) < |c| && Walk(nodes, c[i..]) == Verdict(nodes, c[Obstacle(nodes, c, i)])
    decreases |c| - i
  {
    assert c[i..][0] == c[i];
    if Passable(nodes, c[i]) {
      WalkStops(nodes, c, i + 1);
      assert c[i..][1..] == c[i + 1..];
    }
  }

  lemma {:induction false} ObstaclePassed(nodes: map<Id, Node>, c: seq<Id>, i: nat)
    requires i <= |c|
    ensures i <= Obstacle(nodes, c, i) <= |c| && forall j :: i <= j < Obstacle(nodes, c, i) ==> Passable(nodes, c[j])
    decreases |c| - i
  {
    if i < |c| && Passable(nodes, c[i]) {
      ObstaclePassed(nodes, c, i + 1);
    }
  }

  lemma ChainAt(nodes: map<Id, Node>, c: seq<Id>, i: nat)
    requires IsChain(nodes, c) && i < |c|
    ensures c[i] in nodes && c[i] !in c[..i]
    ensures nodes[c[i]].link.Some? ==> i + 1 < |c| && nodes[c[i]].link.value.parent == c[i + 1]
    ensures AllLinked(nodes, c[..i])
  {
    ChainIsDistinct(nodes, c);
  }

  /** The climb has locked `i` nodes and built their part of the text. */
  ghost predicate Built(start: map<Id, Node>, c: seq<Id>, i: nat, suffix: seq<string>, nodes: map<Id, Node>, text: string) {
    && i < |c| && nodes == ReadLockAll(start, c[..i])
    && AllLinked(start, c[..i]) && text == JoinPath(Names(start, c[..i]) + suffix)
  }

  /** One node further up: its name goes in front of the text, and it gets one reader more. */
  method ClimbNode(cache: Cache, pb: PathBuffer, node: Id, ghost start: map<Id, Node>, ghost c: seq<Id>, ghost i: nat, ghost suffix: seq<string>)
    returns (ok: bool)
    requires pb.Valid() && i < |c| - 1 && AllLinked(start, c[..|c| - 1]) && c[i] !in c[..i] && node == c[i]
    requires Built(start, c, i, suffix, cache.nodes, pb.Text())
    requires |JoinPath(Names(start, c[..|c| - 1]) + suffix)| + 1 <= BUF_MAX
    modifies cache`nodes, pb, pb.buf
    ensures pb.Valid() && (pb.buf == old(pb.buf) || fresh(pb.buf))
    ensures ok <==> start[c[i]].treelock >= 0
    ensures ok ==> Built(start, c, i + 1, suffix, cache.nodes, pb.Text())
    ensures !ok ==> cache.nodes == old(cache.nodes)
  {
    JoinGrows(start, c, i + 1, |c| - 1, suffix);
    JoinNext(start, c, i, suffix);
    assert cache.nodes[node] == start[node];
    pb.AddName(cache.nodes[node].link.value.name);
    if cache.nodes[node].treelock < 0 {
      return false;
    }
    LockMore(start, c, i);
    cache.nodes := SetLock(cache.nodes, node, cache.nodes[node].treelock + 1);
    return true;
  }

  /** The body of the loop: go on to the parent, or give up. */
  method ClimbStep(cache: Cache, pb: PathBuffer, node: Id, ghost start: map<Id, Node>, ghost c: seq<Id>, ghost i: nat, ghost name: Option<string>)
    returns (r: Result, next: Id)
    requires pb.Valid() && IsChain(start, c) && Fits(start, c, name) && i < |c| && node == c[i] != ROOT
    requires Built(start, c, i, Suffix(name), cache.nodes, pb.Text())
    modifies cache`nodes, pb, pb.buf
    ensures pb.Valid() && (pb.buf == old(pb.buf) || fresh(pb.buf))
    ensures r == Granted <==> Passable(start, c[i])
    ensures r == Granted ==> Built(start, c, i + 1, Suffix(name), cache.nodes, pb.Text()) && next == c[i + 1]
    ensures r != Granted ==> r == Verdict(start, c[i]) && cache.nodes == old(cache.nodes) && next == node
  {
    ChainAt(start, c, i);
    ChainIsLinked(start, c);
    assert cache.nodes[node] == start[node];
    next := node;
    if cache.nodes[node].link.None? {
      return NoEntry, next;
    }
    var ok := ClimbNode(cache, pb, node, start, c, i, Suffix(name));
    if !ok {
      return Retry, next;
    }
    assert cache.nodes[node].link == start[node].link;
    return Granted, cache.nodes[node].link.value.parent;
  }

  /** The loop of `try_get_path`. */
  method LockUp(cache: Cache, pb: PathBuffer, base: Id, ghost c: seq<Id>, ghost name: Option<string>)
    returns (r: Result, node: Id, ghost i: nat)
    requires IsChain(cache.nodes, c) && c[0] == base && Fits(cache.nodes, c, name)
    requires pb.Valid() && pb.Text() == JoinPath(Suffix(name))
    modifies cache`nodes, pb, pb.buf
    ensures i == Obstacle(old(cache.nodes), c, 0) < |c| && node == c[i] && r == Verdict(old(cache.nodes), node)
    ensures cache.nodes == ReadLockAll(old(cache.nodes), c[..i])
    ensures r == Granted ==> pb.Valid() && Built(old(cache.nodes), c, i, Suffix(name), cache.nodes, pb.Text())
  {
    ghost var start := cache.nodes;
    NoLocks(start);
    node, i, r := base, 0, Granted;
    assert c[..0] == [] && [] + Suffix(name) == Suffix(name);
    while node != ROOT
      invariant i < |c| && node == c[i] && Obstacle(start, c, 0) == Obstacle(start, c, i)
      invariant pb.Valid() && (pb.buf == old(pb.buf) || fresh(pb.buf))
      invariant Built(start, c, i, Suffix(name), cache.nodes, pb.Text())
      decreases |c| - i
    {
      r, node := ClimbStep(cache, pb, node, start, c, i, name);
      if r != Granted {
        return;
      }
      i := i + 1;
    }
    r := Granted;
  }

  // ---------------------------------------------------------------- try_get_path

  /** The write lock is not on the chain, so the climb does not notice it. */
  function WriteLocked(nodes: map<Id, Node>, w: Option<Id>): (nodes': map<Id, Node>)
    requires w.Some? ==> w.value in nodes
  {
    if w.Some? then SetLock(nodes, w.value, TREELOCK_WRITE) else nodes
  }

  lemma {:induction false} ObstacleAside(nodes: map<Id, Node>, nodes': map<Id, Node>, c: seq<Id>, i: nat)
    requires forall n :: n in c ==> n in nodes && n in nodes' && nodes'[n] == nodes[n]
    ensures Obstacle(nodes', c, i) == Obstacle(nodes, c, i)
    decreases |c| - i
  {
    if i < |c| {
      assert c[i] in c;
      ObstacleAside(nodes, nodes', c, i + 1);
    }
  }

  lemma {:induction false} NamesAside(nodes: map<Id, Node>, nodes': map<Id, Node>, c: seq<Id>)
    requires AllLinked(nodes, c)
    requires forall n :: n in c ==> n in nodes && n in nodes' && nodes'[n].link == nodes[n].link
    ensures AllLinked(nodes', c) && Names(nodes', c) == Names(nodes, c)
  {
    assert forall i :: 0 <= i < |c| ==> c[i] in c;
    if c != [] {
      NamesAside(nodes, nodes', c[..|c| - 1]);
    }
  }

  lemma WriteLockAside(nodes: map<Id, Node>, w: Option<Id>, c: seq<Id>, name: Option<string>)
    requires IsChain(nodes, c) && Fits(nodes, c, name) && (w.Some? ==> w.value in nodes && w.value !in c)
    ensures var nodes' := WriteLocked(nodes, w);
      IsChain(nodes', c) && Fits(nodes', c, name) && Obstacle(nodes', c, 0) == Obstacle(nodes, c, 0)
  {
    var nodes' := WriteLocked(nodes, w);
    assert forall n :: n in c ==> n in nodes && n in nodes' && nodes'[n] == nodes[n];
    ChainFrame(nodes, nodes', c);
    ObstacleAside(nodes, nodes', c, 0);
    ChainIsLinked(nodes, c);
    NamesAside(nodes, nodes', c[..|c| - 1]);
  }

  /** Giving up undoes everything. */
  lemma Undone(nodes: map<Id, Node>, w: Option<Id>, d: seq<Id>)
    requires w.Some? ==> w.value in nodes && w.value !in d && nodes[w.value].treelock == 0
    requires forall n :: n in d ==> n in nodes && nodes[n].treelock >= 0
    ensures var locked := ReadLockAll(WriteLocked(nodes, w), d);
      ReadUnlockAll(if w.Some? then SetLock(locked, w.value, 0) else locked, d) == nodes
  {
  }

  lemma LocksCommute(nodes: map<Id, Node>, w: Option<Id>, d: seq<Id>)
    requires w.Some? ==> w.value in nodes && w.value !in d
    ensures ReadLockAll(WriteLocked(nodes, w), d) == WriteLocked(ReadLockAll(nodes, d), w)
  {
  }

  ghost predicate PathFits(t: Tree, want: Want) {
    Shaped(t) && want.base in t.nodes && Fits(t.nodes, ChainOf(t.nodes, want.base), want.name)
  }

  /** Put the name below the node into an empty buffer. */
  method StartPath(name: Option<string>, ghost nodes: map<Id, Node>, ghost c: seq<Id>) returns (pb: PathBuffer)
    requires IsChain(nodes, c) && Fits(nodes, c, name)
    ensures fresh(pb) && fresh(pb.buf) && pb.Valid() && pb.Text() == JoinPath(Suffix(name))
  {
    pb := new PathBuffer();
    if name.Some? {
      ChainIsLinked(nodes, c);
      JoinGrows(nodes, c, 0, |c| - 1, Suffix(name));
      assert c[..0] == [] && [] + Suffix(name) == Suffix(name);
      assert "/" + name.value + [] == JoinPath([name.value]);
      pb.AddName(name.value);
    }
  }

  /** Lock the node to be written, or leave a mark on its readers. */
  method TakeWriteLock(cache: Cache, want: Want) returns (ok: bool, wnode: Option<Id>)
    requires cache.Idle() && Shaped(cache.View())
    modifies cache`nodes
    ensures wnode == WriteTarget(old(cache.View()), want) && (wnode.Some? ==> wnode.value in old(cache.nodes))
    ensures ok <==> wnode.None? || old(cache.nodes)[wnode.value].treelock == 0
    ensures cache.nodes ==
            if ok then WriteLocked(old(cache.nodes), wnode)
            else
              var lock := old(cache.nodes)[wnode.value].treelock;
              SetLock(old(cache.nodes), wnode.value, if lock > 0 then lock + TREELOCK_WAIT_OFFSET else lock)
  {
    cache.IdleView();
    ok, wnode := true, None;
    if want.wr && want.name.Some? && Key(want.base, want.name.value) in cache.names {
      var w := cache.names[Key(want.base, want.name.value)];
      assert NameOk(cache.View(), Key(want.base, want.name.value));
      wnode := Some(w);
      if cache.nodes[w].treelock != 0 {
        if cache.nodes[w].treelock > 0 {
          cache.nodes := SetLock(cache.nodes, w, cache.nodes[w].treelock + TREELOCK_WAIT_OFFSET);
        }
        return false, wnode;
      }
      cache.nodes := SetLock(cache.nodes, w, TREELOCK_WRITE);
    }
  }

  lemma ClimbBack(nodes: map<Id, Node>, w: Option<Id>, c: seq<Id>, i: nat)
    requires IsChain(nodes, c) && (w.Some? ==> w.value in nodes && w.value !in c && nodes[w.value].treelock == 0)
    requires i == Obstacle(nodes, c, 0) < |c| && c[i] != ROOT
    ensures var locked := ReadLockAll(WriteLocked(nodes, w), c[..i]);
      && StopsAt(locked, c[0], Some(c[i]), c[..i], c[i]) && ReadLocked(locked, c[..i])
      && (w.Some? ==> w.value in locked && w.value !in c[..i] && locked[w.value].treelock == TREELOCK_WRITE)
      && ReadUnlockAll(if w.Some? then SetLock(locked, w.value, 0) else locked, c[..i]) == nodes
  {
    var locked, d := ReadLockAll(WriteLocked(nodes, w), c[..i]), c[..i];
    ObstaclePassed(nodes, c, 0);
    ChainIsDistinct(nodes, c);
    forall j | 0 <= j < |d|
      ensures d[j] in nodes && d[j] in locked && nodes[d[j]].treelock >= 0 && locked[d[j]].link == nodes[d[j]].link
      ensures d[j] != ROOT && d[j] != c[i] && nodes[d[j]].link.Some? && nodes[d[j]].link.value.parent == (d + [c[i]])[j + 1]
    {
      assert Passable(nodes, c[j]);
    }
    Undone(nodes, w, d);
  }

  lemma ClimbDone(nodes: map<Id, Node>, c: seq<Id>)
    requires IsChain(nodes, c) && Obstacle(nodes, c, 0) < |c| && c[Obstacle(nodes, c, 0)] == ROOT
    requires ROOT in nodes && nodes[ROOT].link.None?
    ensures Obstacle(nodes, c, 0) == |c| - 1
  {
  }

  /** At the root, the whole chain is locked and the text is complete. */
  lemma BuiltAll(nodes: map<Id, Node>, w: Option<Id>, c: seq<Id>, suffix: seq<string>, locked: map<Id, Node>, text: string)
    requires IsChain(nodes, c) && (w.Some? ==> w.value in nodes && w.value !in c)
    requires Built(WriteLocked(nodes, w), c, |c| - 1, suffix, locked, text)
    ensures AllLinked(nodes, c[..|c| - 1]) && text == JoinPath(Names(nodes, c[..|c| - 1]) + suffix)
    ensures locked == WriteLocked(ReadLockAll(nodes, c[..|c| - 1]), w)
  {
    ChainIsLinked(nodes, c);
    LocksCommute(nodes, w, c[..|c| - 1]);
    NamesAside(nodes, WriteLocked(nodes, w), c[..|c| - 1]);
  }

  method UndoClimb(cache: Cache, base: Id, wnode: Option<Id>, node: Id, ghost nodes: map<Id, Node>, ghost c: seq<Id>, ghost i: nat)
    requires IsChain(nodes, c) && c[0] == base && i == Obstacle(nodes, c, 0) < |c| && node == c[i] != ROOT
    requires wnode.Some? ==> wnode.value in nodes && wnode.value !in c && nodes[wnode.value].treelock == 0
    requires cache.nodes == ReadLockAll(WriteLocked(nodes, wnode), c[..i])
    modifies cache`nodes
    ensures cache.nodes == nodes
  {
    ClimbBack(nodes, wnode, c, i);
    UnlockNodes(cache, base, wnode, Some(node), c[..i], node);
  }

  /** The climb, undone if it fails. */
  method LockOrUndo(cache: Cache, pb: PathBuffer, base: Id, name: Option<string>, wnode: Option<Id>,
                    ghost nodes: map<Id, Node>, ghost c: seq<Id>) returns (r: Result)
    requires IsChain(nodes, c) && c[0] == base && Fits(nodes, c, name) && ROOT in nodes && nodes[ROOT].link.None?
    requires wnode.Some? ==> wnode.value in nodes && wnode.value !in c && nodes[wnode.value].treelock == 0
    requires cache.nodes == WriteLocked(nodes, wnode)
    requires pb.Valid() && pb.Text() == JoinPath(Suffix(name))
    modifies cache`nodes, pb, pb.buf
    ensures r == Walk(nodes, c) && AllLinked(nodes, c[..|c| - 1])
    ensures cache.nodes == if r == Granted then WriteLocked(ReadLockAll(nodes, c[..|c| - 1]), wnode) else nodes
    ensures r == Granted ==> pb.Valid() && pb.Text() == JoinPath(Names(nodes, c[..|c| - 1]) + Suffix(name))
  {
    WriteLockAside(nodes, wnode, c, name);
    WalkStops(nodes, c, 0);
    ChainIsLinked(nodes, c);
    assert c[0..] == c;
    var node;
    ghost var i;
    r, node, i := LockUp(cache, pb, base, c, name);
    assert node in c;
    if r != Granted {
      UndoClimb(cache, base, wnode, node, nodes, c, i);
    } else {
      ClimbDone(nodes, c);
      BuiltAll(nodes, wnode, c, Suffix(name), cache.nodes, pb.Text());
    }
  }

  /** What `TryPath` comes to, in terms of the steps of the code. */
  lemma TryPathBySteps(t: Tree, want: Want, c: seq<Id>)
    requires Shaped(t) && want.base in t.nodes && c == ChainOf(t.nodes, want.base)
    ensures var w, (t', r, h) := WriteTarget(t, want), TryPath(t, want);
      && (w.Some? ==> w.value in t.nodes && w.value !in c)
      && h == Hold(want.base, w, c[..|c| - 1])
      && if w.Some? && t.nodes[w.value].treelock != 0 then
           var lock := t.nodes[w.value].treelock;
           r == Retry && t' == t.(nodes := SetLock(t.nodes, w.value, if lock > 0 then lock + TREELOCK_WAIT_OFFSET else lock))
         else
           && r == Walk(t.nodes, c)
           && t' == t.(nodes := if r == Granted then WriteLocked(ReadLockAll(t.nodes, c[..|c| - 1]), w) else t.nodes)
  {
    if WriteTarget(t, want).Some? {
      assert NameOk(t, Key(want.base, want.name.value));
      TargetIsOffChain(t, Key(want.base, want.name.value), c);
    }
  }

  /** `try_get_path` with locking does what `TryPath` says, and what it grants comes with the names
      from the root down to the node, joined by slashes. */
  method TryGetPath(cache: Cache, want: Want) returns (r: Result, path: string, wnode: Option<Id>)
    requires cache.Idle() && TreeInv(cache.View()) && PathFits(cache.View(), want)
    modifies cache`nodes
    ensures cache.Idle()
    ensures (cache.View(), r) == (TryPath(old(cache.View()), want).0, TryPath(old(cache.View()), want).1)
    ensures r == Granted ==>
              var h := TryPath(old(cache.View()), want).2;
              && wnode == h.wnode && AllLinked(old(cache.View()).nodes, h.chain)
              && path == PathOf(Names(old(cache.View()).nodes, h.chain) + Suffix(want.name))
  {
    cache.IdleView();
    ghost var t, c := cache.View(), ChainOf(cache.View().nodes, want.base);
    TryPathBySteps(t, want, c);
    r, path, wnode := LockPath(cache, want, t, c);
    cache.IdleView();
  }

  method LockPath(cache: Cache, want: Want, ghost t: Tree, ghost c: seq<Id>) returns (r: Result, path: string, wnode: Option<Id>)
    requires cache.Idle() && t == cache.View() && t.nodes == cache.nodes && Shaped(t)
    requires ChainFrom(t.nodes, want.base, c) && Fits(t.nodes, c, want.name)
    requires var w := WriteTarget(t, want); w.Some? ==> w.value in t.nodes && w.value !in c
    modifies cache`nodes
    ensures wnode == WriteTarget(t, want) && AllLinked(t.nodes, c[..|c| - 1])
    ensures
      if wnode.Some? && t.nodes[wnode.value].treelock != 0 then
        var lock := t.nodes[wnode.value].treelock;
        r == Retry && cache.nodes == SetLock(t.nodes, wnode.value, if lock > 0 then lock + TREELOCK_WAIT_OFFSET else lock)
      else
        && r == Walk(t.nodes, c)
        && cache.nodes == (if r == Granted then WriteLocked(ReadLockAll(t.nodes, c[..|c| - 1]), wnode) else t.nodes)
        && (r == Granted ==> path == PathOf(Names(t.nodes, c[..|c| - 1]) + Suffix(want.name)))
  {
    ChainIsLinked(t.nodes, c);
    var pb := StartPath(want.name, t.nodes, c);
    path := [];
    var ok;
    ok, wnode := TakeWriteLock(cache, want);
    if !ok {
      return Retry, path, wnode;
    }
    r := LockOrUndo(cache, pb, want.base, want.name, wnode, t.nodes, c);
    if r == Granted {
      path := pb.Finish();
    }
  }
}
