/** Who keeps a waiting request waiting: the locks in the way of a path, whose they are, and when they
    are only the request's own. */
module PathBlockers {
  import opened Wrappers
  import opened NodeTree
  import opened TreeLocks
  import opened PathQueue
  import opened PathProtocol
  import opened QueueProgress

  // ---------------------------------------------------------------- the locks in the way of a path

  /** The ticket keeps others from crossing the node: it writes the node, or it reads it while a
      writer waits. */
  ghost predicate Bars(s: State, tk: Ticket, n: Id)
    requires n in s.tree.nodes
  {
    tk in Writing(s.holds, n) || (Marked(s.tree.nodes[n].treelock) && tk in Crossing(s.holds, n))
  }

  ghost predicate BarsWay(s: State, tk: Ticket, c: seq<Id>)
    requires forall i :: 0 <= i < |c| ==> c[i] in s.tree.nodes
  {
    exists i :: 0 <= i < |c| - 1 && Bars(s, tk, c[i])
  }

  ghost predicate Touches(holds: Holds, tk: Ticket, n: Id) {
    tk in Writing(holds, n) || tk in Crossing(holds, n)
  }

  /** The ticket stands in the way: on a node to be crossed, or at the node to be written. */
  ghost predicate Blocks(s: State, tk: Ticket, want: Want)
    requires Shaped(s.tree) && want.base in s.tree.nodes
  {
    var w := WriteTarget(s.tree, want);
    BarsWay(s, tk, ChainOf(s.tree.nodes, want.base)) || (w.Some? && Touches(s.holds, tk, w.value))
  }

  ghost function Blockers(s: State, want: Want): set<Ticket>
    requires Shaped(s.tree) && want.base in s.tree.nodes
  {
    set tk | tk in s.holds && Blocks(s, tk, want)
  }

  /** A node that may not be crossed has a ticket on it that bars the way, and only then. */
  lemma UnwrittenExactly(s: State, n: Id)
    requires Core(s) && n in s.tree.nodes
    ensures Unwritten(s, n) <==> forall tk :: tk in s.holds ==> !Bars(s, tk, n)
  {
    if Marked(s.tree.nodes[n].treelock) {
      MarkedHasReaders(s, s.holds, n);
      var tk :| tk in Crossing(s.holds, n);
      assert Bars(s, tk, n);
    } else if Writing(s.holds, n) != {} {
      var tk :| tk in Writing(s.holds, n);
      assert Bars(s, tk, n);
    }
  }

  lemma UntouchedExactly(s: State, n: Id)
    ensures Untouched(s, n) <==> forall tk :: tk in s.holds ==> !Touches(s.holds, tk, n)
  {
    if Writing(s.holds, n) != {} {
      var tk :| tk in Writing(s.holds, n);
      assert Touches(s.holds, tk, n);
    } else if Crossing(s.holds, n) != {} {
      var tk :| tk in Crossing(s.holds, n);
      assert Touches(s.holds, tk, n);
    }
  }

  lemma NobodyBlocks(s: State, want: Want)
    requires Core(s) && want.base in s.tree.nodes
    ensures var c, w := ChainOf(s.tree.nodes, want.base), WriteTarget(s.tree, want);
      Blockers(s, want) == {} <==>
        (forall i :: 0 <= i < |c| - 1 ==> Unwritten(s, c[i])) && (w.Some? ==> Untouched(s, w.value))
  {
    var c, w := ChainOf(s.tree.nodes, want.base), WriteTarget(s.tree, want);
    forall i | 0 <= i < |c| - 1
      ensures Unwritten(s, c[i]) <==> forall tk :: tk in s.holds ==> !Bars(s, tk, c[i])
    {
      UnwrittenExactly(s, c[i]);
    }
    if w.Some? {
      UntouchedExactly(s, w.value);
    }
    if Blockers(s, want) == {} {
      forall tk | tk in s.holds
        ensures !Blocks(s, tk, want)
      {
        assert tk !in Blockers(s, want);
      }
    }
  }

  /** A path is refused for now exactly when its base still has a path to the root and some ticket is
      in the way; it fails for good exactly when the base has none. */
  lemma RefusedByBlockers(s: State, want: Want)
    requires Core(s) && Askable(s.tree, want)
    ensures TryPath(s.tree, want).1 == Retry <==> !Broken(s.tree, want.base) && Blockers(s, want) != {}
    ensures TryPath(s.tree, want).1 == NoEntry <==> Broken(s.tree, want.base)
  {
    var c := ChainOf(s.tree.nodes, want.base);
    if Broken(s.tree, want.base) {
      BrokenIsRefused(s.tree, s.holds, want);
    } else {
      assert c[|c| - 1] == ROOT;
      GrantedExactly(s, want, c);
      NobodyBlocks(s, want);
      if TryPath(s.tree, want).1 == NoEntry {
        RefusedIsBroken(s.tree, want);
      }
    }
  }

  // ---------------------------------------------------------------- giving a path back

  lemma SameChain(t: Tree, t': Tree, n: Id)
    requires Shaped(t) && Shaped(t') && SameShape(t, t') && n in t.nodes
    ensures n in t'.nodes && ChainOf(t'.nodes, n) == ChainOf(t.nodes, n) && (Broken(t', n) <==> Broken(t, n))
  {
    var c := ChainOf(t.nodes, n);
    SameShapeChain(t, t', c);
    ChainUnique(t'.nodes, c, ChainOf(t'.nodes, n));
    if Broken(t, n) {
      SameShapeBroken(t, t', n);
    }
    if Broken(t', n) {
      SameShapeBroken(t', t, n);
    }
  }

  /** The marks that are left are those that somebody still reads under. */
  lemma MarkAfterDrop(s: State, own: Ticket, n: Id)
    requires Core(s) && own in s.holds && n in s.tree.nodes && Core(Drop(s, own)) && n in Drop(s, own).tree.nodes
    ensures Marked(Drop(s, own).tree.nodes[n].treelock) <==>
      Marked(s.tree.nodes[n].treelock) && Crossing(Drop(s, own).holds, n) != {}
  {
    var s' := Drop(s, own);
    assert HoldOk(s.tree, s.holds[own]) && LockOk(s.tree, s.holds, n);
    assert LockOk(s'.tree, s'.holds, n);
    if Marked(s.tree.nodes[n].treelock) {
      MarkOutlastsReaders(s, own, n);
    }
    HoldsCount(s.holds, own, n);
  }

  lemma BarsAfterDrop(s: State, own: Ticket, tk: Ticket, n: Id)
    requires Core(s) && own in s.holds && n in s.tree.nodes && Core(Drop(s, own)) && n in Drop(s, own).tree.nodes
    requires Drop(s, own).holds == s.holds - {own}
    ensures Bars(Drop(s, own), tk, n) <==> Bars(s, tk, n) && tk != own
  {
    MarkAfterDrop(s, own, n);
  }

  lemma WayAfterDrop(s: State, own: Ticket, tk: Ticket, c: seq<Id>)
    requires Core(s) && own in s.holds && Core(Drop(s, own)) && Drop(s, own).holds == s.holds - {own}
    requires forall i :: 0 <= i < |c| ==> c[i] in s.tree.nodes && c[i] in Drop(s, own).tree.nodes
    ensures BarsWay(Drop(s, own), tk, c) <==> BarsWay(s, tk, c) && tk != own
  {
    forall i | 0 <= i < |c| - 1
      ensures Bars(Drop(s, own), tk, c[i]) <==> Bars(s, tk, c[i]) && tk != own
    {
      BarsAfterDrop(s, own, tk, c[i]);
    }
  }

  lemma BlocksAfterDrop(s: State, s': State, own: Ticket, tk: Ticket, want: Want)
    requires Core(s) && own in s.holds && want.base in s.tree.nodes
    requires s' == Drop(s, own) && Core(s') && SameShape(s.tree, s'.tree) && s'.holds == s.holds - {own}
    ensures Blocks(s', tk, want) <==> Blocks(s, tk, want) && tk != own
  {
    SameChain(s.tree, s'.tree, want.base);
    WayAfterDrop(s, own, tk, ChainOf(s.tree.nodes, want.base));
  }

  /** Without the locks of one ticket, the others stand in the way as before. */
  lemma BlockersAfterDrop(s: State, own: Ticket, want: Want)
    requires Core(s) && own in s.holds && (own.second ==> Ticket(own.req, false) !in s.holds) && want.base in s.tree.nodes
    ensures Core(Drop(s, own)) && want.base in Drop(s, own).tree.nodes
    ensures Blockers(Drop(s, own), want) == Blockers(s, want) - {own}
  {
    DropKeeps(s, own);
    forall tk
      ensures Blocks(Drop(s, own), tk, want) <==> Blocks(s, tk, want) && tk != own
    {
      BlocksAfterDrop(s, Drop(s, own), own, tk, want);
    }
  }

  lemma OnlyElement<T>(a: set<T>, x: T)
    ensures a != {} && a - {x} == {} <==> a == {x}
  {
    if a != {} && a - {x} == {} {
      var y :| y in a;
      assert forall z :: z in a ==> z !in a - {x} && z == x;
    }
  }

  /** A request is kept from one path by its other path alone, so that giving the other back would let
      it through, exactly when no other ticket is in the way. */
  lemma OwnLockAlone(s: State, own: Ticket, want: Want)
    requires Core(s) && own in s.holds && (own.second ==> Ticket(own.req, false) !in s.holds) && Askable(s.tree, want)
    ensures want.base in Drop(s, own).tree.nodes && Shaped(Drop(s, own).tree)
    ensures TryPath(s.tree, want).1 == Retry && TryPath(Drop(s, own).tree, want).1 == Granted <==>
      !Broken(s.tree, want.base) && Blockers(s, want) == {own}
  {
    DropKeeps(s, own);
    SameChain(s.tree, Drop(s, own).tree, want.base);
    SameShapeAskable(s.tree, Drop(s, own).tree, want);
    BlockersAfterDrop(s, own, want);
    RefusedByBlockers(s, want);
    RefusedByBlockers(Drop(s, own), want);
    OnlyElement(Blockers(s, want), own);
  }

  // ---------------------------------------------------------------- the two paths of one request

  /** The paths get in each other's way: one leads through the node the other writes, or both write
      the same node. */
  ghost predicate Tangled(t: Tree, first: Want, second: Want)
    requires Shaped(t) && first.base in t.nodes && second.base in t.nodes
  {
    var c1, c2 := ChainOf(t.nodes, first.base), ChainOf(t.nodes, second.base);
    var w1, w2 := WriteTarget(t, first), WriteTarget(t, second);
    || (w1.Some? && w1.value in c2[..|c2| - 1])
    || (w2.Some? && (w2 == w1 || w2.value in c1[..|c1| - 1]))
  }

  lemma MarksAfterGrant(s: State, own: Ticket, first: Want, n: Id)
    requires Core(s) && Askable(s.tree, first) && own !in s.holds && TryPath(s.tree, first).1 == Granted && n in s.tree.nodes
    ensures var s1 := Grab(s, own, first).0;
      n in s1.tree.nodes && (Marked(s1.tree.nodes[n].treelock) <==> Marked(s.tree.nodes[n].treelock))
  {
    if Marked(s.tree.nodes[n].treelock) {
      MarkStopsReaders(s, own, first, n);
    } else {
      GrantMarksNobody(s, own, first, n);
    }
  }

  lemma BarsAdded(s: State, s1: State, own: Ticket, h: Hold, tk: Ticket, n: Id)
    requires n in s.tree.nodes && n in s1.tree.nodes && own !in s.holds && s1.holds == s.holds[own := h]
    requires Marked(s1.tree.nodes[n].treelock) <==> Marked(s.tree.nodes[n].treelock)
    requires n in h.chain ==> !Marked(s.tree.nodes[n].treelock)
    ensures Bars(s1, tk, n) <==> Bars(s, tk, n) || (tk == own && h.wnode == Some(n))
  {
  }

  lemma WayAfterGrant(s: State, own: Ticket, first: Want, tk: Ticket, c: seq<Id>)
    requires Core(s) && Askable(s.tree, first) && own !in s.holds && own.req in s.active && TryPath(s.tree, first).1 == Granted
    requires |c| > 0 && forall i :: 0 <= i < |c| ==> c[i] in s.tree.nodes && c[i] in Grab(s, own, first).0.tree.nodes
    ensures BarsWay(Grab(s, own, first).0, tk, c) <==>
      BarsWay(s, tk, c) || (tk == own && TryPath(s.tree, first).2.wnode.Some? && TryPath(s.tree, first).2.wnode.value in c[..|c| - 1])
  {
    var s1, h := Grab(s, own, first).0, TryPath(s.tree, first).2;
    GrantKeepsShape(s, own, first);
    GrantedHold(s.tree, first);
    forall i | 0 <= i < |c| - 1
      ensures Bars(s1, tk, c[i]) <==> Bars(s, tk, c[i]) || (tk == own && h.wnode == Some(c[i]))
    {
      MarksAfterGrant(s, own, first, c[i]);
      BarsAdded(s, s1, own, h, tk, c[i]);
    }
    assert forall i :: 0 <= i < |c| - 1 ==> c[..|c| - 1][i] == c[i];
  }

  lemma TouchesAdded(holds: Holds, own: Ticket, h: Hold, tk: Ticket, n: Id)
    requires own !in holds
    ensures Touches(holds[own := h], tk, n) <==> Touches(holds, tk, n) || (tk == own && (h.wnode == Some(n) || n in h.chain))
  {
  }

  /** Of the locks in the way of the second path, only the first path is new. */
  lemma BlocksAfterGrant(s: State, own: Ticket, first: Want, second: Want, tk: Ticket)
    requires Core(s) && Askable(s.tree, first) && second.base in s.tree.nodes && own !in s.holds && own.req in s.active
    requires TryPath(s.tree, first).1 == Granted
    ensures var s1 := Grab(s, own, first).0;
      && Core(s1) && second.base in s1.tree.nodes
      && (Blocks(s1, tk, second) <==> Blocks(s, tk, second) || (tk == own && Tangled(s.tree, first, second)))
  {
    GrabKeeps(s, own, first);
    var s1, h := Grab(s, own, first).0, TryPath(s.tree, first).2;
    GrantKeepsShape(s, own, first);
    SameChain(s.tree, s1.tree, second.base);
    WayAfterGrant(s, own, first, tk, ChainOf(s.tree.nodes, second.base));
    var w2 := WriteTarget(s.tree, second);
    if w2.Some? {
      TouchesAdded(s.holds, own, h, tk, w2.value);
    }
  }

  lemma BlockersAfterGrant(s: State, own: Ticket, first: Want, second: Want)
    requires Core(s) && Askable(s.tree, first) && second.base in s.tree.nodes && own !in s.holds && own.req in s.active
    requires TryPath(s.tree, first).1 == Granted
    ensures Core(Grab(s, own, first).0) && second.base in Grab(s, own, first).0.tree.nodes
    ensures Blockers(Grab(s, own, first).0, second) != {} <==> Blockers(s, second) != {} || Tangled(s.tree, first, second)
  {
    var s1 := Grab(s, own, first).0;
    GrabKeeps(s, own, first);
    forall tk
      ensures Blocks(s1, tk, second) <==> Blocks(s, tk, second) || (tk == own && Tangled(s.tree, first, second))
    {
      BlocksAfterGrant(s, own, first, second, tk);
    }
    NewBlocker(s, s1, own, second, Tangled(s.tree, first, second));
  }

  lemma NewBlocker(s: State, s1: State, own: Ticket, want: Want, blocks: bool)
    requires Shaped(s.tree) && Shaped(s1.tree) && want.base in s.tree.nodes && want.base in s1.tree.nodes
    requires own !in s.holds && s1.holds.Keys == s.holds.Keys + {own}
    requires forall tk :: Blocks(s1, tk, want) <==> Blocks(s, tk, want) || (tk == own && blocks)
    ensures Blockers(s1, want) != {} <==> Blockers(s, want) != {} || blocks
  {
    assert !Blocks(s, own, want);
    if blocks {
      assert own in Blockers(s1, want);
    } else {
      assert Blockers(s1, want) == Blockers(s, want);
    }
  }

  /** Trying both paths from scratch fails for now exactly when a lock is in the way of one of them, or
      they are in each other's way. */
  lemma BothRefusedExactly(s: State, req: nat, first: Want, second: Option<Want>)
    requires Core(s) && req in s.active && HoldsNone(s, req)
    requires Askable(s.tree, first) && (second.Some? ==> Askable(s.tree, second.value))
    ensures BothRefused(s.tree, first, second) <==>
      && !Broken(s.tree, first.base)
      && (|| Blockers(s, first) != {}
          || (second.Some? && !Broken(s.tree, second.value.base)
              && (Blockers(s, second.value) != {} || Tangled(s.tree, first, second.value))))
  {
    RefusedByBlockers(s, first);
    if second.Some? && TryPath(s.tree, first).1 == Granted {
      var s1 := Grab(s, Ticket(req, false), first).0;
      GrantKeepsShape(s, Ticket(req, false), first);
      BlockersAfterGrant(s, Ticket(req, false), first, second.value);
      SameShapeAskable(s.tree, s1.tree, second.value);
      SameChain(s.tree, s1.tree, second.value.base);
      RefusedByBlockers(s1, second.value);
    }
  }

  // ---------------------------------------------------------------- what an attempt leaves behind

  /** What a granted path holds: every node from its base up to the root, and the node of its name if it
      is to be written. */
  ghost function PathHold(t: Tree, want: Want): Hold
    requires Shaped(t) && want.base in t.nodes
  {
    var c, k := ChainOf(t.nodes, want.base), Key(want.base, if want.name.Some? then want.name.value else []);
    Hold(want.base, if want.wr && want.name.Some? && k in t.names then Some(t.names[k]) else None, c[..|c| - 1])
  }

  /** The node is marked for a writer if it was before, or if the path was refused while somebody reads
      the node it is to write. */
  ghost predicate MarkedFor(s: State, t': Tree, want: Want, refused: bool, n: Id)
    requires Shaped(s.tree) && want.base in s.tree.nodes && n in s.tree.nodes && n in t'.nodes
  {
    Marked(t'.nodes[n].treelock) <==>
      || Marked(s.tree.nodes[n].treelock)
      || (refused && PathHold(s.tree, want).wnode == Some(n) && Crossing(s.holds, n) != {})
  }

  lemma RefusalMarks(s: State, want: Want, n: Id)
    requires Core(s) && Askable(s.tree, want) && n in s.tree.nodes && TryPath(s.tree, want).1 != Granted
    ensures n in TryPath(s.tree, want).0.nodes && MarkedFor(s, TryPath(s.tree, want).0, want, TryPath(s.tree, want).1 == Retry, n)
  {
    assert LockOk(s.tree, s.holds, n);
    CrossingBounded(s.holds, n);
    assert |Crossing(s.holds, n)| > 0 <==> Crossing(s.holds, n) != {};
    if Broken(s.tree, want.base) {
      BrokenIsRefused(s.tree, s.holds, want);
    } else if TryPath(s.tree, want).1 == NoEntry {
      RefusedIsBroken(s.tree, want);
    }
  }

  /** One attempt on a path: it is granted exactly when the base is connected and nobody is in the way, and
      then held as it should be; a refusal at most marks the node that was to be written. */
  lemma GrabExactly(s: State, tk: Ticket, want: Want, n: Id)
    requires Core(s) && Askable(s.tree, want) && tk !in s.holds && tk.req in s.active && n in s.tree.nodes
    ensures var (s', r) := Grab(s, tk, want);
      && (r == Granted <==> !Broken(s.tree, want.base) && Blockers(s, want) == {})
      && (r == NoEntry <==> Broken(s.tree, want.base))
      && s'.holds == (if r == Granted then s.holds[tk := PathHold(s.tree, want)] else s.holds)
      && n in s'.tree.nodes && MarkedFor(s, s'.tree, want, r == Retry, n)
  {
    RefusedByBlockers(s, want);
    if TryPath(s.tree, want).1 == Granted {
      MarksAfterGrant(s, tk, want, n);
    } else {
      RefusalMarks(s, want, n);
    }
  }

  /** All that a request holds when it has got what it asked for. */
  ghost function HoldsGranted(s: State, req: nat, first: Want, second: Option<Want>): Holds
    requires Shaped(s.tree) && first.base in s.tree.nodes && (second.Some? ==> second.value.base in s.tree.nodes)
  {
    var holds := s.holds[Ticket(req, false) := PathHold(s.tree, first)];
    if second.Some? then holds[Ticket(req, true) := PathHold(s.tree, second.value)] else holds
  }

  /** The outcome of asking for one path or two. */
  ghost function Outcome(s: State, first: Want, second: Option<Want>): Result
    requires Shaped(s.tree) && first.base in s.tree.nodes && (second.Some? ==> second.value.base in s.tree.nodes)
  {
    if Broken(s.tree, first.base) then NoEntry
    else if Blockers(s, first) != {} then Retry
    else if second.None? then Granted
    else if Broken(s.tree, second.value.base) then NoEntry
    else if Blockers(s, second.value) != {} || Tangled(s.tree, first, second.value) then Retry
    else Granted
  }

  /** The path that was refused. */
  ghost function RefusedWant(s: State, first: Want, second: Option<Want>): Want
    requires Shaped(s.tree) && first.base in s.tree.nodes
  {
    if second.Some? && Blockers(s, first) == {} then second.value else first
  }

  lemma SamePathHold(t: Tree, t': Tree, want: Want)
    requires Shaped(t) && Shaped(t') && SameShape(t, t') && want.base in t.nodes
    ensures want.base in t'.nodes && PathHold(t', want) == PathHold(t, want)
  {
    SameChain(t, t', want.base);
  }

  lemma SecondExactly(s: State, s1: State, req: nat, first: Want, second: Want, n: Id)
    requires Core(s) && req in s.active && HoldsNone(s, req) && Askable(s.tree, first) && Askable(s.tree, second)
    requires n in s.tree.nodes && Grab(s, Ticket(req, false), first) == (s1, Granted)
    ensures var (s2, r2) := Grab(s1, Ticket(req, true), second);
      && Core(s2) && r2 == Outcome(s, first, Some(second))
      && s2.holds == (if r2 == Granted then HoldsGranted(s, req, first, Some(second)) else s1.holds)
      && n in s2.tree.nodes
      && (Marked(s2.tree.nodes[n].treelock) <==>
            || Marked(s.tree.nodes[n].treelock)
            || (r2 == Retry && PathHold(s.tree, second).wnode == Some(n) && Crossing(s1.holds, n) != {}))
  {
    GrabKeeps(s, Ticket(req, false), first);
    GrabExactly(s, Ticket(req, false), first, n);
    SameShapeAskable(s.tree, s1.tree, second);
    SameChain(s.tree, s1.tree, second.base);
    SamePathHold(s.tree, s1.tree, second);
    BlockersAfterGrant(s, Ticket(req, false), first, second);
    GrabKeeps(s1, Ticket(req, true), second);
    GrabExactly(s1, Ticket(req, true), second, n);
  }

  /** Giving the first path back when the second is refused leaves only the mark of the second. */
  lemma GivenUp(s: State, s1: State, s2: State, tk: Ticket, second: Want, refused: bool, n: Id)
    requires Core(s) && Core(s2) && n in s.tree.nodes && n in s2.tree.nodes && second.base in s.tree.nodes
    requires tk !in s.holds && !tk.second && tk in s1.holds && s1.holds == s.holds[tk := s1.holds[tk]] && s2.holds == s1.holds
    requires Marked(s2.tree.nodes[n].treelock) <==>
      || Marked(s.tree.nodes[n].treelock)
      || (refused && PathHold(s.tree, second).wnode == Some(n) && Crossing(s1.holds, n) != {})
    ensures Drop(s2, tk).holds == s.holds && n in Drop(s2, tk).tree.nodes
    ensures MarkedFor(s, Drop(s2, tk).tree, second, refused, n)
  {
    DroppedMarks(s.holds, s2, tk, n);
    StillMarked(s, s1, tk, n);
  }

  lemma DroppedMarks(holds: Holds, s2: State, tk: Ticket, n: Id)
    requires Core(s2) && !tk.second && tk !in holds && tk in s2.holds && s2.holds == holds[tk := s2.holds[tk]] && n in s2.tree.nodes
    ensures s2.holds - {tk} == holds && Drop(s2, tk).holds == holds && n in Drop(s2, tk).tree.nodes
    ensures Marked(Drop(s2, tk).tree.nodes[n].treelock) <==> Marked(s2.tree.nodes[n].treelock) && Crossing(holds, n) != {}
  {
    DropKeeps(s2, tk);
    MarkAfterDrop(s2, tk, n);
  }

  /** Asking for one path or two: when it is granted, refused or impossible, what is held then, and which
      node is marked. */
  lemma TryBothExactly(s: State, req: nat, first: Want, second: Option<Want>, n: Id)
    requires Core(s) && req in s.active && HoldsNone(s, req) && n in s.tree.nodes
    requires Askable(s.tree, first) && (second.Some? ==> Askable(s.tree, second.value))
    ensures var (s', r) := TryBoth(s, req, first, second);
      && r == Outcome(s, first, second)
      && s'.holds == (if r == Granted then HoldsGranted(s, req, first, second) else s.holds)
      && n in s'.tree.nodes && MarkedFor(s, s'.tree, RefusedWant(s, first, second), r == Retry, n)
  {
    var tk := Ticket(req, false);
    var (s1, r1) := Grab(s, tk, first);
    GrabExactly(s, tk, first, n);
    if r1 == Granted && second.Some? {
      var (s2, r2) := Grab(s1, Ticket(req, true), second.value);
      SecondExactly(s, s1, req, first, second.value, n);
      if r2 != Granted {
        GivenUp(s, s1, s2, tk, second.value, r2 == Retry, n);
      }
    }
  }

  lemma StillMarked(s: State, s1: State, tk: Ticket, n: Id)
    requires Core(s) && n in s.tree.nodes && s1.holds.Keys == s.holds.Keys + {tk}
    requires forall tk' :: tk' in s.holds ==> s1.holds[tk'] == s.holds[tk']
    ensures Marked(s.tree.nodes[n].treelock) ==> Crossing(s.holds, n) != {}
    ensures Crossing(s.holds, n) <= Crossing(s1.holds, n)
  {
    if Marked(s.tree.nodes[n].treelock) {
      MarkedHasReaders(s, s.holds, n);
    }
  }

  /** A request that asks for paths gets them, waits for them at the end of the queue, or fails and is
      gone; nobody else's locks change. */
  lemma AskExactly(s: State, req: nat, first: Want, second: Option<Want>)
    requires Inv(s) && Enabled(s, PathAsked(req, first, second))
    ensures var s0, s' := s.(active := s.active + {req}), Ask(s, req, first, second);
      match Outcome(s0, first, second)
      case Granted => s'.holds == HoldsGranted(s0, req, first, second) && s'.queue == s.queue && s'.active == s.active + {req}
      case Retry =>
        && s'.holds == s.holds && s'.active == s.active + {req}
        && s'.queue == s.queue + [PathWaiter(req, first, second, false, Retry)]
      case NoEntry => s'.holds == s.holds && s'.queue == s.queue && s'.active == s.active
  {
    ActiveKeeps(s, req);
    TryBothExactly(s.(active := s.active + {req}), req, first, second, ROOT);
  }

  /** One path has been tried, unless the request has it already: it is granted if and only if nothing is in
      its way, and fails for good if and only if its base is cut off. */
  ghost predicate Tried(s: State, tk: Ticket, want: Want, s': State, r: Result)
    requires Shaped(s.tree) && want.base in s.tree.nodes
  {
    if tk in s.holds then s' == s && r == Granted
    else
      && (r == NoEntry <==> Broken(s.tree, want.base)) && (r == Granted <==> !Broken(s.tree, want.base) && Blockers(s, want) == {})
      && s'.holds == (if r == Granted then s.holds[tk := PathHold(s.tree, want)] else s.holds)
      && s'.queue == s.queue && s'.active == s.active
      && (forall n {:trigger MarkedFor(s, s'.tree, want, r == Retry, n)} :: n in s.tree.nodes ==> n in s'.tree.nodes && MarkedFor(s, s'.tree, want, r == Retry, n))
  }

  lemma AttemptExactly(s: State, tk: Ticket, want: Want)
    requires Core(s) && Askable(s.tree, want) && tk.req in s.active
    ensures var (s', r) := Attempt(s, tk, Some(want)); Tried(s, tk, want, s', r)
  {
    if tk !in s.holds {
      forall n | n in s.tree.nodes
        ensures var (s', r) := Attempt(s, tk, Some(want)); n in s'.tree.nodes && MarkedFor(s, s'.tree, want, r == Retry, n)
      {
        GrabExactly(s, tk, want, n);
      }
      GrabExactly(s, tk, want, ROOT);
    }
  }

  /** What a wake-up does with an element: its first path is tried, then its second one unless the first has
      failed for good; with all paths or a failure it is done, and gives back what it has got if it has
      failed or is not the head of the queue. */
  ghost predicate WokenBy(s: State, i: nat, s2: State, r1: Result, r2: Result, s': State)
    requires i < |s.queue| && s.queue[i].PathWaiter?
  {
    var q := s.queue[i];
    var own := {Ticket(q.req, false), Ticket(q.req, true)};
    && s'.active == s.active
    && if r1 == NoEntry || r2 == NoEntry then
         s'.holds == s2.holds - own && s'.queue == s.queue[i := q.(done := true, err := NoEntry)]
       else if r1 == Granted && r2 == Granted then
         s'.holds == s2.holds && s'.queue == s.queue[i := q.(done := true, err := Granted)]
       else
         s'.holds == (if i == 0 then s2.holds else s2.holds - own) && s'.queue == s.queue
  }

  /** The end of a wake-up. */
  lemma ConcludedBy(s: State, i: nat, s2: State, r1: Result, r2: Result)
    requires i < |s.queue| && s.queue[i].PathWaiter? && Core(s2) && s2.queue == s.queue && s2.active == s.active
    requires r1 != NoEntry && r2 != NoEntry && (HoldsAll(s2, s.queue[i]) <==> r1 == Granted && r2 == Granted)
    ensures WokenBy(s, i, s2, r1, r2, Conclude(s2, i))
  {
    DropBothKeeps(s2, s.queue[i].req);
  }

  lemma FailedBy(s: State, i: nat, s2: State, r1: Result)
    requires i < |s.queue| && s.queue[i].PathWaiter? && Core(s2) && s2.queue == s.queue && s2.active == s.active
    ensures WokenBy(s, i, s2, r1, NoEntry, Finish(DropBoth(s2, s.queue[i].req), i, NoEntry))
  {
    DropBothKeeps(s2, s.queue[i].req);
  }

  lemma SecondTried(s: State, s1: State, i: nat, r1: Result)
    requires i < |s.queue| && s.queue[i].PathWaiter? && Core(s1) && s1.queue == s.queue && s1.active == s.active && s.queue[i].req in s1.active
    requires r1 != NoEntry && (HoldsFirst(s1, s.queue[i].req) <==> r1 == Granted)
    requires s.queue[i].second.Some? ==> Askable(s1.tree, s.queue[i].second.value)
    ensures var q := s.queue[i];
      var (s2, r2) := Attempt(s1, Ticket(q.req, true), q.second);
      && (q.second.None? ==> s2 == s1 && r2 == Granted)
      && (q.second.Some? ==> q.second.value.base in s1.tree.nodes && Tried(s1, Ticket(q.req, true), q.second.value, s2, r2))
      && WokenBy(s, i, s2, r1, r2, WakeSecond(s1, i))
  {
    var q := s.queue[i];
    var (s2, r2) := Attempt(s1, Ticket(q.req, true), q.second);
    AttemptKeeps(s1, Ticket(q.req, true), q.second);
    if q.second.Some? {
      AttemptExactly(s1, Ticket(q.req, true), q.second.value);
    }
    if r2 == NoEntry {
      FailedBy(s, i, s2, r1);
    } else {
      ConcludedBy(s, i, s2, r1, r2);
    }
  }

  lemma WakeupExactly(s: State, i: nat) returns (s1: State, r1: Result, s2: State, r2: Result)
    requires Inv(s) && i < |s.queue| && s.queue[i].PathWaiter?
    ensures var q := s.queue[i];
      && q.first.base in s.tree.nodes && Tried(s, Ticket(q.req, false), q.first, s1, r1)
      && (r1 == NoEntry ==> s2 == s1 && r2 == NoEntry)
      && (r1 != NoEntry && q.second.None? ==> s2 == s1 && r2 == Granted)
      && (r1 != NoEntry && q.second.Some? ==>
            Shaped(s1.tree) && q.second.value.base in s1.tree.nodes && Tried(s1, Ticket(q.req, true), q.second.value, s2, r2))
    ensures WokenBy(s, i, s2, r1, r2, Wakeup(s, i))
  {
    var q := s.queue[i];
    assert WaiterOk(s, i);
    var a1 := Attempt(s, Ticket(q.req, false), Some(q.first));
    AttemptExactly(s, Ticket(q.req, false), q.first);
    AttemptKeeps(s, Ticket(q.req, false), Some(q.first));
    s1, r1 := a1.0, a1.1;
    if r1 == NoEntry {
      s2, r2 := s1, NoEntry;
      FailedBy(s, i, s1, r1);
    } else {
      SecondTried(s, s1, i, r1);
      var a2 := Attempt(s1, Ticket(q.req, true), q.second);
      s2, r2 := a2.0, a2.1;
    }
  }

  ghost predicate WokenInTurn(w: seq<State>, i: nat) {
    w != [] && (|w| > 1 ==> i < |w[0].queue| && w[1] == Wakeup(w[0], i) && WokenInTurn(w[1..], i + 1))
  }

  /** The elements are woken one after the other, from the head on. */
  lemma {:induction false} WakeAllInTurn(s: State, i: nat) returns (w: seq<State>)
    requires Inv(s) && i <= |s.queue|
    ensures |w| == |s.queue| - i + 1 && WokenInTurn(w, i) && w[0] == s && w[|w| - 1] == WakeAll(s, i)
    decreases |s.queue| - i
  {
    if i == |s.queue| {
      w := [s];
    } else {
      WakeupKeeps(s, i);
      var rest := WakeAllInTurn(Wakeup(s, i), i + 1);
      w := [s] + rest;
      assert w[1..] == rest;
    }
  }

  /** A request that frees its paths loses its locks and is gone; then the queue is woken. */
  lemma FreedExactly(s: State, req: nat) returns (w: seq<State>)
    requires Inv(s) && Enabled(s, PathFreed(req))
    ensures |w| == |s.queue| + 1 && WokenInTurn(w, 0) && w[|w| - 1] == Next(s, PathFreed(req))
    ensures w[0].holds == s.holds - {Ticket(req, false), Ticket(req, true)} && w[0].active == s.active - {req}
    ensures w[0].queue == s.queue && SameShape(s.tree, w[0].tree)
  {
    DropBothKeeps(s, req);
    var s' := DropBoth(s, req);
    QuietKeeps(s, s', req, s.active - {req});
    w := WakeAllInTurn(s'.(active := s.active - {req}), 0);
  }

  // ---------------------------------------------------------------- who keeps an element waiting

  /** Somebody else has a lock in the way of a path that the element lacks. */
  ghost predicate BlockedByOther(s: State, q: Waiter)
    requires q.PathWaiter? && Shaped(s.tree) && WaiterLive(s, q)
  {
    exists tk :: tk in s.holds && tk.req != q.req &&
      (|| (!HoldsFirst(s, q.req) && Blocks(s, tk, q.first))
       || (!HoldsSecond(s, q.req) && q.second.Some? && Blocks(s, tk, q.second.value)))
  }

  /** Nothing but its own lock is in the element's way: it has one path, and that alone keeps it from
      the other; or it has none, and its two paths exclude each other. */
  ghost predicate BlockedByItself(s: State, q: Waiter)
    requires q.PathWaiter? && Shaped(s.tree) && WaiterLive(s, q)
  {
    q.second.Some? &&
    if HoldsFirst(s, q.req) then Blockers(s, q.second.value) == {Ticket(q.req, false)}
    else if HoldsSecond(s, q.req) then Blockers(s, q.first) == {Ticket(q.req, true)}
    else Blockers(s, q.first) == {} && Blockers(s, q.second.value) == {} && Tangled(s.tree, q.first, q.second.value)
  }

  lemma OthersBlock(s: State, q: Waiter, own: Ticket, want: Want)
    requires q.PathWaiter? && Core(s) && WaiterLive(s, q) && want.base in s.tree.nodes && own.req == q.req
    requires forall tk :: tk in s.holds && tk.req == q.req ==> tk == own
    ensures (exists tk :: tk in s.holds && tk.req != q.req && Blocks(s, tk, want)) <==> Blockers(s, want) - {own} != {}
  {
    if Blockers(s, want) - {own} != {} {
      var tk :| tk in Blockers(s, want) - {own};
      assert tk in s.holds && Blocks(s, tk, want);
    }
    if tk :| tk in s.holds && tk.req != q.req && Blocks(s, tk, want) {
      assert tk in Blockers(s, want) - {own};
    }
  }

  /** An element that holds one path and is refused the other. */
  lemma PartialIsBlocked(s: State, q: Waiter, own: Ticket, want: Want)
    requires q.PathWaiter? && Core(s) && WaiterLive(s, q) && q.second.Some? && !HoldsAll(s, q)
    requires own in s.holds && own.req == q.req && want == (if own.second then q.first else q.second.value)
    requires TryPath(s.tree, want).1 == Retry
    ensures BlockedByOther(s, q) <==> !BlockedByItself(s, q)
  {
    assert own == Ticket(q.req, own.second);
    forall tk | tk in s.holds && tk.req == q.req
      ensures tk == own
    {
      assert tk == Ticket(q.req, tk.second);
    }
    RefusedByBlockers(s, want);
    OthersBlock(s, q, own, want);
    OnlyElement(Blockers(s, want), own);
  }

  /** An element that holds nothing. */
  lemma EmptyHandedIsBlocked(s: State, q: Waiter)
    requires q.PathWaiter? && Core(s) && WaiterLive(s, q) && HoldsNone(s, q.req) && BothRefused(s.tree, q.first, q.second)
    ensures BlockedByOther(s, q) <==> !BlockedByItself(s, q)
    ensures TryPath(s.tree, q.first).1 == Retry ==> exists tk :: tk in s.holds && tk.req != q.req && Blocks(s, tk, q.first)
  {
    forall tk | tk in s.holds
      ensures tk.req != q.req
    {
      assert tk == Ticket(tk.req, tk.second);
    }
    BothRefusedExactly(s, q.req, q.first, q.second);
    RefusedByBlockers(s, q.first);
    var own := Ticket(q.req, false);
    OthersBlock(s, q, own, q.first);
    assert own !in s.holds;
    if q.second.Some? {
      OthersBlock(s, q, own, q.second.value);
    }
  }

  /** Whoever waits in vain is kept waiting by somebody else, or by itself alone; never both. */
  lemma StuckIsBlocked(s: State, q: Waiter)
    requires q.PathWaiter? && Core(s) && WaiterLive(s, q) && !HoldsAll(s, q) && (q.second.None? ==> !HoldsSecond(s, q.req))
    requires Stuck(s.tree, s.holds, q)
    ensures BlockedByOther(s, q) <==> !BlockedByItself(s, q)
  {
    if HoldsFirst(s, q.req) {
      PartialIsBlocked(s, q, Ticket(q.req, false), q.second.value);
    } else if HoldsSecond(s, q.req) {
      PartialIsBlocked(s, q, Ticket(q.req, true), q.first);
    } else {
      EmptyHandedIsBlocked(s, q);
    }
  }

  /** An element is blocked by itself alone exactly when it would get the path it lacks if it had not
      taken the other. */
  lemma ItselfExactly(s: State, q: Waiter)
    requires q.PathWaiter? && Core(s) && WaiterLive(s, q) && !HoldsAll(s, q) && q.second.Some?
    requires Stuck(s.tree, s.holds, q)
    ensures HoldsFirst(s, q.req) ==> Core(Drop(s, Ticket(q.req, false))) && q.second.value.base in Drop(s, Ticket(q.req, false)).tree.nodes
    ensures HoldsSecond(s, q.req) ==> Core(Drop(s, Ticket(q.req, true))) && q.first.base in Drop(s, Ticket(q.req, true)).tree.nodes
    ensures BlockedByItself(s, q) <==>
      if HoldsFirst(s, q.req) then TryPath(Drop(s, Ticket(q.req, false)).tree, q.second.value).1 == Granted
      else if HoldsSecond(s, q.req) then TryPath(Drop(s, Ticket(q.req, true)).tree, q.first).1 == Granted
      else TryPath(s.tree, q.first).1 == Granted && TryPath(s.tree, q.second.value).1 == Granted
  {
    RefusedByBlockers(s, q.first);
    RefusedByBlockers(s, q.second.value);
    if HoldsFirst(s, q.req) {
      DropKeeps(s, Ticket(q.req, false));
      OwnLockAlone(s, Ticket(q.req, false), q.second.value);
    } else if HoldsSecond(s, q.req) {
      DropKeeps(s, Ticket(q.req, true));
      OwnLockAlone(s, Ticket(q.req, true), q.first);
    } else {
      BothRefusedExactly(s, q.req, q.first, q.second);
    }
  }

  /** After a path has been freed: who keeps those waiting that still wait. */
  lemma WaitersAreBlocked(states: seq<State>, steps: seq<Step>, i: nat, j: nat)
    requires IsRun(states, steps) && i < |steps| && steps[i].PathFreed?
    requires j < |states[i + 1].queue| && states[i + 1].queue[j].PathWaiter? && !states[i + 1].queue[j].done
    ensures Inv(states[i + 1]) && WaiterLive(states[i + 1], states[i + 1].queue[j])
    ensures BlockedByOther(states[i + 1], states[i + 1].queue[j]) <==> !BlockedByItself(states[i + 1], states[i + 1].queue[j])
  {
    RunKeeps(states, steps, i + 1);
    NoWakeupIsLost(states, steps, i, j);
    assert WaiterOk(states[i + 1], j);
    StuckIsBlocked(states[i + 1], states[i + 1].queue[j]);
  }

  // ---------------------------------------------------------------- deadlock

  ghost predicate WaitsAt(s: State, j: nat) {
    j < |s.queue| && s.queue[j].PathWaiter? && !s.queue[j].done
  }

  /** Whoever has a lock is waiting itself, so that no path will be freed and nobody will be woken. */
  ghost predicate NobodyRuns(s: State) {
    forall tk :: tk in s.holds ==> exists j: nat :: WaitsAt(s, j) && s.queue[j].req == tk.req
  }

  /** The head waits for a path that nothing keeps it from but the other path, which it has. */
  ghost predicate HeadBlocksItself(s: State) {
    && WaitsAt(s, 0) && Shaped(s.tree) && WaiterLive(s, s.queue[0]) && BlockedByItself(s, s.queue[0])
    && (s.holds.Keys == {Ticket(s.queue[0].req, false)} || s.holds.Keys == {Ticket(s.queue[0].req, true)})
  }

  /** Nobody has a lock, and whoever waits has asked for two paths that exclude each other. */
  ghost predicate AllTangled(s: State) {
    && s.holds == map[] && Shaped(s.tree)
    && forall j :: 0 <= j < |s.queue| && WaitsAt(s, j) ==>
         && WaiterLive(s, s.queue[j]) && s.queue[j].second.Some?
         && Tangled(s.tree, s.queue[j].first, s.queue[j].second.value)
  }

  /** Of those that wait, only the head has a lock, and only one. */
  lemma OnlyHeadHolds(s: State)
    requires Inv(s) && NobodyRuns(s) && s.holds != map[]
    ensures WaitsAt(s, 0) && s.queue[0].second.Some?
    ensures s.holds.Keys == {Ticket(s.queue[0].req, false)} || s.holds.Keys == {Ticket(s.queue[0].req, true)}
  {
    forall tk | tk in s.holds
      ensures WaitsAt(s, 0) && tk == Ticket(s.queue[0].req, tk.second)
    {
      var j: nat :| WaitsAt(s, j) && s.queue[j].req == tk.req;
      assert WaiterOk(s, j);
      assert tk == Ticket(s.queue[j].req, tk.second);
    }
    var tk :| tk in s.holds;
    assert WaiterOk(s, 0);
    assert s.holds.Keys == {tk};
  }

  /** After a wake-up of the whole queue, the waiting requests are deadlocked if and only if the head blocks
      itself and has the only lock, or there is no lock and every one of them asks for paths that exclude
      each other.  In all other cases some request that runs has a lock. */
  lemma DeadlockExactly(s: State)
    requires Inv(s) && AllStuck(s, |s.queue|)
    ensures NobodyRuns(s) <==> HeadBlocksItself(s) || AllTangled(s)
  {
    if NobodyRuns(s) {
      if s.holds == map[] {
        forall j | 0 <= j < |s.queue| && WaitsAt(s, j)
          ensures WaiterLive(s, s.queue[j]) && s.queue[j].second.Some?
          ensures Tangled(s.tree, s.queue[j].first, s.queue[j].second.value)
        {
          assert WaiterOk(s, j);
          StuckIsBlocked(s, s.queue[j]);
        }
      } else {
        OnlyHeadHolds(s);
        assert WaiterOk(s, 0);
        StuckIsBlocked(s, s.queue[0]);
      }
    }
  }

  /** So it is in every run, whenever a path has been freed. */
  lemma RunDeadlocks(states: seq<State>, steps: seq<Step>, i: nat)
    requires IsRun(states, steps) && i < |steps| && steps[i].PathFreed?
    ensures NobodyRuns(states[i + 1]) <==> HeadBlocksItself(states[i + 1]) || AllTangled(states[i + 1])
  {
    RunKeeps(states, steps, i);
    RunKeeps(states, steps, i + 1);
    FreedLeavesStuck(states[i], steps[i].req);
    assert states[i + 1] == Next(states[i], PathFreed(steps[i].req));
    DeadlockExactly(states[i + 1]);
  }

  // ---------------------------------------------------------------- waiting for ever

  /** The head has one path, and it waits for the other at a node that it crosses itself and that a
      writer has marked. */
  ghost predicate Wedged(s: State, own: Ticket, want: Want) {
    && s.queue != [] && s.queue[0].PathWaiter? && !s.queue[0].done && s.queue[0].second.Some?
    && own.req == s.queue[0].req && want == (if own.second then s.queue[0].first else s.queue[0].second.value)
    && own in s.holds && want.base in s.holds[own].chain
    && want.base in s.tree.nodes && Marked(s.tree.nodes[want.base].treelock)
  }

  lemma CrossedIsLinked(t: Tree, h: Hold, n: Id)
    requires HoldOk(t, h) && n in h.chain
    ensures n in t.nodes && t.nodes[n].link.Some?
  {
    var i :| 0 <= i < |h.chain| && h.chain[i] == n;
    assert (h.chain + [ROOT])[i] == n;
  }

  lemma WedgedRefused(s: State, own: Ticket, want: Want)
    requires Inv(s) && Wedged(s, own, want)
    ensures Askable(s.tree, want) && TryPath(s.tree, want).1 == Retry && own in Blockers(s, want)
  {
    var h, c := s.holds[own], ChainOf(s.tree.nodes, want.base);
    assert WaiterOk(s, 0) && HoldOk(s.tree, h);
    HeldIsComplete(s.tree, h, want.base);
    NotBoth(s.tree, want.base);
    assert c[|c| - 1] == ROOT;
    CrossedIsLinked(s.tree, h, want.base);
    assert Bars(s, own, c[0]);
    RefusedByBlockers(s, want);
  }

  lemma TighterWedged(s: State, s': State, own: Ticket, want: Want)
    requires Wedged(s, own, want) && Tighter(s, s') && s'.queue != [] && s'.queue[0] == s.queue[0]
    ensures Wedged(s', own, want)
  {
  }

  lemma WedgedWakeup(s: State, own: Ticket, want: Want)
    requires Inv(s) && Wedged(s, own, want)
    ensures Wakeup(s, 0).queue == s.queue && Wedged(Wakeup(s, 0), own, want)
  {
    var q := s.queue[0];
    assert WaiterOk(s, 0) && own == Ticket(q.req, own.second);
    WedgedRefused(s, own, want);
    AttemptKeeps(s, Ticket(q.req, !own.second), Some(want));
    AttemptTightens(s, Ticket(q.req, !own.second), Some(want));
    TighterWedged(s, Wakeup(s, 0), own, want);
  }

  lemma WedgedWakeAll(s: State, own: Ticket, want: Want)
    requires Inv(s) && Wedged(s, own, want)
    ensures var s' := WakeAll(s, 0); Wedged(s', own, want) && s'.queue[0] == s.queue[0]
  {
    var p := (s1: State, i: nat) => Inv(s1) && Wedged(s1, own, want) && s1.queue[0] == s.queue[0];
    forall s1, i: nat | p(s1, i) && i < |s1.queue|
      ensures |Wakeup(s1, i).queue| == |s1.queue| && p(Wakeup(s1, i), i + 1)
    {
      WakeupKeeps(s1, i);
      if i == 0 {
        WedgedWakeup(s1, own, want);
      } else {
        WakeupTightens(s1, i);
        TighterWedged(s1, Wakeup(s1, i), own, want);
      }
    }
    WakeAllInduction(p, s, 0);
  }

  /** Unlocking somebody else's path leaves the mark, since the head still crosses the node. */
  lemma WedgedDrop(s: State, tk: Ticket, own: Ticket, want: Want)
    requires Core(s) && Wedged(s, own, want) && tk.req != own.req && (tk.second ==> Ticket(tk.req, false) !in s.holds)
    ensures Core(Drop(s, tk)) && Wedged(Drop(s, tk), own, want)
  {
    DropKeeps(s, tk);
    if tk in s.holds {
      MarkAfterDrop(s, tk, want.base);
      assert own in Crossing(Drop(s, tk).holds, want.base);
    }
  }

  lemma WedgedFreed(s: State, req: nat, own: Ticket, want: Want)
    requires Inv(s) && Enabled(s, PathFreed(req)) && Wedged(s, own, want)
    ensures var s' := Next(s, PathFreed(req)); Wedged(s', own, want) && s'.queue[0] == s.queue[0]
  {
    var tk1, tk2 := Ticket(req, false), Ticket(req, true);
    DropKeeps(s, tk1);
    WedgedDrop(s, tk1, own, want);
    WedgedDrop(Drop(s, tk1), tk2, own, want);
    DropBothKeeps(s, req);
    QuietKeeps(s, DropBoth(s, req), req, s.active - {req});
    WedgedWakeAll(DropBoth(s, req).(active := s.active - {req}), own, want);
  }

  lemma WedgedAsked(s: State, req: nat, first: Want, second: Option<Want>, own: Ticket, want: Want)
    requires Inv(s) && Enabled(s, PathAsked(req, first, second)) && Wedged(s, own, want)
    ensures var s' := Ask(s, req, first, second); Wedged(s', own, want) && s'.queue[0] == s.queue[0]
  {
    var s0 := s.(active := s.active + {req});
    ActiveKeeps(s, req);
    TryBothTightens(s0, req, first, second);
    AskedTree(s, req, first, second);
    TighterWedged(s0, Ask(s, req, first, second), own, want);
  }

  /** The held path outlasts every change of the tree, and so does the mark on it. */
  lemma WedgedTree(s: State, s': State, own: Ticket, want: Want)
    requires Inv(s) && Inv(s') && Wedged(s, own, want) && s'.holds == s.holds && s'.queue != [] && s'.queue[0] == s.queue[0]
    requires TreeChange(s.tree, s'.tree)
    ensures Wedged(s', own, want)
  {
    assert HoldOk(s'.tree, s'.holds[own]);
    CrossedIsLinked(s'.tree, s'.holds[own], want.base);
    if s'.tree != s.tree {
      var x, f :| Relinks(s.tree, s'.tree, x, f);
      assert NodeEvolves(s.tree, s'.tree, x, f, want.base);
    }
  }

  /** Only asking for paths and freeing them touches locks, and a waiting head does not leave. */
  lemma HeadStays(s: State, step: Step)
    requires Enabled(s, step) && !step.PathAsked? && !step.PathFreed?
    requires s.queue != [] && s.queue[0].PathWaiter? && !s.queue[0].done
    ensures var s' := Next(s, step); s'.holds == s.holds && s'.queue != [] && s'.queue[0] == s.queue[0]
  {
  }

  /** No step of anybody ends the wait. */
  lemma WedgedStays(s: State, step: Step, own: Ticket, want: Want)
    requires Inv(s) && Enabled(s, step) && Wedged(s, own, want)
    ensures Wedged(Next(s, step), own, want) && Next(s, step).queue[0] == s.queue[0]
  {
    StepKeeps(s, step);
    match step
    case PathAsked(req, first, second) => WedgedAsked(s, req, first, second, own, want);
    case PathFreed(req) => WedgedFreed(s, req, own, want);
    case _ =>
      HeadStays(s, step);
      WedgedTree(s, Next(s, step), own, want);
  }

  lemma WedgedNext(states: seq<State>, steps: seq<Step>, i: nat, own: Ticket, want: Want)
    requires IsRun(states, steps) && i < |steps| && Wedged(states[i], own, want)
    ensures Wedged(states[i + 1], own, want) && states[i + 1].queue[0] == states[i].queue[0]
  {
    RunKeeps(states, steps, i);
    WedgedStays(states[i], steps[i], own, want);
  }

  /** Such a head waits in every later state of the run. */
  lemma WaitsForEver(states: seq<State>, steps: seq<Step>, i: nat, j: nat, own: Ticket, want: Want)
    requires IsRun(states, steps) && i <= j < |states| && Wedged(states[i], own, want)
    ensures Wedged(states[j], own, want) && states[j].queue[0] == states[i].queue[0]
  {
    var p := (s: State) => Wedged(s, own, want) && s.queue[0] == states[i].queue[0];
    forall k | i <= k < j && p(states[k])
      ensures p(states[k + 1])
    {
      WedgedNext(states, steps, k, own, want);
    }
    EverAfter(p, states, i, j);
  }
}
