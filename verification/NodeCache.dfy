/** The node cache of fuse.c in the form in which it runs: nodes whose fields are updated one after
    another, with the recursion of `unref_node`, `delete_node` and `unhash_name`. The two hash tables
    are the maps that LinearHash shows them to be. */
module NodeCache {
  import opened Wrappers
  import opened NodeTree

  const ID_MASK := 0xffff_ffff

  // ---------------------------------------------------------------- half-done deletions

  /** The tree that the fields stand for while nodes are being taken apart: those in `dead` are no
      longer part of it, the one in `cut` is already off its parent. */
  ghost function ViewOf(nodes: map<Id, Node>, names: map<Key, Id>, dots: multiset<Id>, dead: set<Id>, cut: set<Id>): (t: Tree) {
    Tree(map m | m in nodes && m !in dead :: if m in cut then nodes[m].(link := None) else nodes[m], names, dots)
  }

  lemma ViewUpdate(nodes: map<Id, Node>, names: map<Key, Id>, dots: multiset<Id>, dead: set<Id>, cut: set<Id>, n: Id, node: Node)
    requires n in nodes && n !in dead && node.link == nodes[n].link
    ensures ViewOf(nodes[n := node], names, dots, dead, cut).nodes
         == ViewOf(nodes, names, dots, dead, cut).nodes[n := if n in cut then node.(link := None) else node]
  {
  }

  lemma ViewDying(nodes: map<Id, Node>, names: map<Key, Id>, dots: multiset<Id>, dead: set<Id>, cut: set<Id>, n: Id)
    requires n !in dead
    ensures ViewOf(nodes, names, dots, dead + {n}, cut).nodes == ViewOf(nodes, names, dots, dead, cut).nodes - {n}
  {
  }

  lemma ViewBuried(nodes: map<Id, Node>, names: map<Key, Id>, dots: multiset<Id>, dead: set<Id>, cut: set<Id>, n: Id)
    requires n in dead
    ensures ViewOf(nodes - {n}, names, dots, dead - {n}, cut) == ViewOf(nodes, names, dots, dead, cut)
  {
    assert ViewOf(nodes - {n}, names, dots, dead - {n}, cut).nodes == ViewOf(nodes, names, dots, dead, cut).nodes;
  }

  lemma ViewAside(nodes: map<Id, Node>, nodes': map<Id, Node>, names: map<Key, Id>, dots: multiset<Id>, dead: set<Id>, cut: set<Id>)
    requires forall m :: m !in dead ==> (m in nodes <==> m in nodes')
    requires forall m :: m !in dead && m in nodes ==> nodes'[m] == nodes[m] || (m in cut && nodes'[m] == nodes[m].(link := None))
    ensures ViewOf(nodes', names, dots, dead, cut) == ViewOf(nodes, names, dots, dead, cut)
  {
    var a, b := ViewOf(nodes', names, dots, dead, cut).nodes, ViewOf(nodes, names, dots, dead, cut).nodes;
    assert forall m :: m in a <==> m in b;
    assert a == b;
  }

  /** Everything that a step takes out of the tree was unlocked. */
  ghost predicate GoneUnlocked(t: Tree, t': Tree) {
    forall m :: m in t.nodes && m !in t'.nodes ==> t.nodes[m].treelock == 0
  }

  /** What taking a node apart leaves to be done. */
  lemma DeleteReady(t: Tree, n: Id)
    requires Shaped(t) && n in t.nodes && Counted(t, n, 1) && t.nodes[n].refctr == 1 && GoneUnlocked(t, Unref(t, n))
    ensures n !in Unref(t, n).nodes && t.nodes[n].treelock == 0
    ensures t.nodes[n].link.None? ==> Unref(t, n) == Deleted(t, n)
    ensures t.nodes[n].link.Some? ==>
      var k, t' := t.nodes[n].link.value, Deleted(t, n);
      && k in t.names && t.names[k] == n && Shaped(t') && k.parent in t'.nodes && Counted(t', k.parent, 1)
      && Unref(t, n) == Unref(t', k.parent) && GoneUnlocked(t', Unref(t', k.parent))
  {
    DeletedShape(t, n);
    assert LinkOk(t, n);
    if t.nodes[n].link.Some? {
      UnrefKeeps(Deleted(t, n), t.nodes[n].link.value.parent);
    }
  }

  /** Only ancestors are deleted. */
  lemma {:induction false} UnrefStays(t: Tree, n: Id, c: seq<Id>, m: Id)
    requires Shaped(t) && Counted(t, n, 1) && ChainFrom(t.nodes, n, c) && m in t.nodes && m !in c
    ensures m in Unref(t, n).nodes
    decreases |t.nodes|
  {
    if t.nodes[n].refctr == 1 {
      DeletedShape(t, n);
      if t.nodes[n].link.Some? {
        assert (t.nodes - {n}).Keys == t.nodes.Keys - {n};
        var p, d := t.nodes[n].link.value.parent, c[1..];
        ChainTail(t.nodes, c, 1);
        assert RefOk(t, n, n, 1);
        ParentIsOther(t, n);
        ChainAvoids(t.nodes, n, d);
        ChainFrame(t.nodes, Deleted(t, n).nodes, d);
        UnrefStays(Deleted(t, n), p, d, m);
      }
    }
  }

  lemma CutSurvives(t: Tree, n: Id)
    requires TreeInv(t) && n in t.nodes && t.nodes[n].link.Some?
    ensures n in Unref(CutLink(t, n), t.nodes[n].link.value.parent).nodes
  {
    var k := t.nodes[n].link.value;
    assert LinkOk(t, n);
    CutLinkShape(t, n);
    var c := ChainOf(t.nodes, k.parent);
    TargetIsOffChain(t, k, c);
    ChainFrame(t.nodes, CutLink(t, n).nodes, c);
    UnrefStays(CutLink(t, n), k.parent, c, n);
  }

  /** After the target of a rename is gone, unlinking the moved node deletes nothing. */
  lemma MoverUnlinks(t: Tree, src: Key, dest: Key)
    requires TreeInv(t) && Renamable(t, src, dest)
    ensures var t1 := if dest in t.names then Unhash(t, t.names[dest]) else t;
      && TreeInv(t1) && t1.nodes.Keys == t.nodes.Keys && Unhash(t1, t.names[src]).nodes.Keys == t.nodes.Keys
  {
    VacatedKeeps(t, src, dest);
    if dest in t.names {
      UnhashUnder(t, dest);
    }
  }

  lemma {:induction false} FreeId(used: set<Id>, n: nat) returns (id: Id)
    requires |used| < n
    ensures 1 <= id <= n && id !in used
  {
    if n in used {
      id := FreeId(used - {n}, n - 1);
    } else {
      id := n;
    }
  }

  /** A new node, hashed and then looked up. */
  lemma CreateBySteps(t: Tree, id: Id, k: Key)
    requires k.parent in t.nodes && id !in t.nodes
    ensures var t1 := Hash(t.(nodes := t.nodes[id := Node(None, 0, 0, 0)]), id, k);
      id in t1.nodes && IncLookup(t1, id) == Create(t, id, k)
  {
    var t1 := Hash(t.(nodes := t.nodes[id := Node(None, 0, 0, 0)]), id, k);
    assert IncLookup(t1, id).nodes == Create(t, id, k).nodes;
  }

  // ---------------------------------------------------------------- the cache

  predicate Unusable(ids: set<Id>, k: nat) {
    k == 0 || k == UNKNOWN_INO || k in ids
  }

  /** From one number to the next, all those between cannot be used; the generation counts the times that
      the numbers start over. */
  ghost predicate Passed(ids: set<Id>, from: nat, generation: nat, to: nat, generation': nat) {
    || (generation' == generation && from < to && forall k :: from < k < to ==> Unusable(ids, k))
    || (generation' == generation + 1 && to <= ID_MASK
        && (forall k :: from < k <= ID_MASK ==> Unusable(ids, k)) && forall k :: 0 <= k < to ==> Unusable(ids, k))
  }

  class Cache {
    var nodes: map<Id, Node>
    var names: map<Key, Id>
    var ctr: Id
    var generation: nat
    ghost var dots: multiset<Id>
    ghost var dead: set<Id>
    ghost var cut: set<Id>

    ghost function View(): (t: Tree)
      reads this
    {
      ViewOf(nodes, names, dots, dead, cut)
    }

    method Decrement(n: Id)
      requires n in View().nodes
      modifies this`nodes
      ensures var node := old(View()).nodes[n];
        && n in nodes && nodes[n].refctr == node.refctr - 1
        && View() == old(View()).(nodes := old(View()).nodes[n := node.(refctr := node.refctr - 1)])
      ensures forall z :: z in dead && z in old(nodes) ==> z in nodes && nodes[z] == old(nodes[z])
    {
      ViewUpdate(nodes, names, dots, dead, cut, n, nodes[n].(refctr := nodes[n].refctr - 1));
      nodes := nodes[n := nodes[n].(refctr := nodes[n].refctr - 1)];
    }

    /** `unref_node`: its assertion holds, and in the end exactly what `Unref` deletes is gone. */
    method UnrefNode(n: Id)
      requires n in View().nodes && Shaped(View()) && Counted(View(), n, 1)
      requires GoneUnlocked(View(), Unref(View(), n)) && cut <= Unref(View(), n).nodes.Keys
      modifies this`nodes, this`names, this`dead
      ensures View() == Unref(old(View()), n) && dead == old(dead)
      ensures forall z :: z in dead && z in old(nodes) ==> z in nodes && nodes[z] == old(nodes[z])
      decreases |View().nodes|, 2
    {
      ghost var t := View();
      assert RefOk(t, n, n, 1);
      assert nodes[n].refctr > 0;
      Decrement(n);
      if nodes[n].refctr == 0 {
        DeleteNode(n, t);
      }
    }

    /** From here on the node is not part of the tree. */
    ghost method Condemn(n: Id, t: Tree)
      requires n in t.nodes && View() == t.(nodes := t.nodes[n := t.nodes[n].(refctr := 0)])
      modifies this`dead
      ensures View() == Deleted(t, n).(names := t.names) && n in dead && dead - {n} == old(dead)
    {
      assert n in View().nodes;
      ViewDying(nodes, names, dots, dead, cut, n);
      assert t.nodes[n := t.nodes[n].(refctr := 0)] - {n} == t.nodes - {n};
      dead := dead + {n};
    }

    /** `unhash_id` and `free_node`, for a node that is not part of the tree any more. */
    method UnhashId(n: Id)
      requires n in dead && n in nodes
      modifies this`nodes, this`dead
      ensures View() == old(View()) && dead == old(dead) - {n} && nodes == old(nodes) - {n}
    {
      ViewBuried(nodes, names, dots, dead, cut, n);
      nodes, dead := nodes - {n}, dead - {n};
    }

    /** `delete_node`: nobody has locked the node. */
    method DeleteNode(n: Id, ghost t: Tree)
      requires n in t.nodes && Shaped(t) && Counted(t, n, 1) && t.nodes[n].refctr == 1
      requires GoneUnlocked(t, Unref(t, n)) && cut <= Unref(t, n).nodes.Keys
      requires View() == t.(nodes := t.nodes[n := t.nodes[n].(refctr := 0)])
      modifies this`nodes, this`names, this`dead
      ensures View() == Unref(t, n) && dead == old(dead)
      ensures forall z :: z in dead && z in old(nodes) ==> z in nodes && nodes[z] == old(nodes[z])
      decreases |t.nodes|, 1
    {
      DeleteReady(t, n);
      assert n in View().nodes;
      assert nodes[n].treelock == 0;
      Condemn(n, t);
      UnhashBoth(n, Deleted(t, n));
    }

    /** Out of both tables, the name first. */
    method UnhashBoth(n: Id, ghost t: Tree)
      requires n in nodes && n in dead
      requires nodes[n].link.Some? ==>
        var k := nodes[n].link.value;
        && k in names && names[k] == n
        && t == View().(names := names - {k}) && Shaped(t) && k.parent in t.nodes && Counted(t, k.parent, 1)
        && GoneUnlocked(t, Unref(t, k.parent)) && cut <= Unref(t, k.parent).nodes.Keys
      modifies this`nodes, this`names, this`dead
      ensures View() == if old(nodes[n]).link.Some? then Unref(t, old(nodes[n]).link.value.parent) else old(View())
      ensures dead == old(dead) - {n}
      ensures forall z :: z in dead && z in old(nodes) ==> z in nodes && nodes[z] == old(nodes[z])
      decreases |View().nodes|, 4
    {
      UnhashName(n, t);
      UnhashId(n);
    }

    /** `unhash_name`: the node is found under its name, so there is nothing to abort for. */
    method UnhashName(n: Id, ghost t: Tree)
      requires n in nodes && (n in dead || n in cut)
      requires nodes[n].link.Some? ==>
        var k := nodes[n].link.value;
        && k in names && names[k] == n
        && t == View().(names := names - {k}) && Shaped(t) && k.parent in t.nodes && Counted(t, k.parent, 1)
        && GoneUnlocked(t, Unref(t, k.parent)) && cut <= Unref(t, k.parent).nodes.Keys
      modifies this`nodes, this`names, this`dead
      ensures n in nodes && nodes[n].link.None? && dead == old(dead)
      ensures View() == if old(nodes[n]).link.Some? then Unref(t, old(nodes[n]).link.value.parent) else old(View())
      ensures forall z :: z in dead && z != n && z in old(nodes) ==> z in nodes && nodes[z] == old(nodes[z])
      decreases |View().nodes|, 3
    {
      if nodes[n].link.Some? {
        var k := nodes[n].link.value;
        assert names[k] == n;
        names := names - {k};
        UnrefNode(k.parent);
        ViewAside(nodes, nodes[n := nodes[n].(link := None)], names, dots, dead, cut);
        nodes := nodes[n := nodes[n].(link := None)];
      }
    }

    // -------------------------------------------------------------- operations under the mutex

    /** Nothing is half done. */
    ghost predicate Idle()
      reads this
    {
      dead == {} && cut == {}
    }

    lemma IdleView()
      requires Idle()
      ensures View() == Tree(nodes, names, dots)
    {
      assert View().nodes == nodes;
    }

    /** `fuse_new_common`: the root, looked up once. */
    constructor ()
      ensures Idle() && View() == Tree(map[ROOT := Node(None, 1, 1, 0)], map[], multiset{})
      ensures ctr == 0 && generation == 0
    {
      nodes, names, dots := map[ROOT := Node(None, 1, 1, 0)], map[], multiset{};
      ctr, generation, dead, cut := 0, 0, {}, {};
      new;
      IdleView();
    }

    /** `unlink_node`: take a live node off its parent. */
    method UnlinkNode(n: Id)
      requires Idle() && TreeInv(View()) && n in nodes && GoneUnlocked(View(), Unhash(View(), n))
      modifies this`nodes, this`names, this`dead, this`cut
      ensures Idle() && View() == Unhash(old(View()), n) && n in nodes
    {
      ghost var t := View();
      IdleView();
      if nodes[n].link.Some? {
        CutSurvives(t, n);
        CutLinkShape(t, n);
        assert LinkOk(t, n);
        cut := {n};
        assert View().nodes == CutLink(t, n).nodes;
        UnhashName(n, CutLink(t, n));
        ghost var t' := View();
        cut := {};
        assert View().nodes == t'.nodes;
      }
    }

    /** `hash_name` */
    method HashName(n: Id, k: Key)
      requires Idle() && n in nodes && k.parent in nodes && n != k.parent
      modifies this`nodes, this`names
      ensures Idle() && View() == Hash(old(View()), n, k)
    {
      IdleView();
      nodes := nodes[k.parent := nodes[k.parent].(refctr := nodes[k.parent].refctr + 1)];
      nodes := nodes[n := nodes[n].(link := Some(k))];
      names := names[k := n];
      IdleView();
    }

    /** `remove_node` */
    method RemoveNode(k: Key)
      requires Idle() && TreeInv(View())
      requires k in names ==> GoneUnlocked(View(), Unhash(View(), names[k]))
      modifies this`nodes, this`names, this`dead, this`cut
      ensures Idle() && View() == if k in old(names) then Unhash(old(View()), old(names)[k]) else old(View())
      ensures Removes(old(nodes), old(names), k, nodes, names)
    {
      IdleView();
      UnhashRemoves(View(), k);
      if k in names {
        assert NameOk(View(), k);
        UnlinkNode(names[k]);
        IdleView();
      }
    }

    /** `rename_node`: both directories are looked up, and the new one is not below the node. */
    method RenameNode(src: Key, dest: Key, hiding: bool) returns (ok: bool)
      requires Idle() && TreeInv(View())
      requires src in names ==> Renamable(View(), src, dest) && names[src] !in ChainOf(View().nodes, dest.parent)
      modifies this`nodes, this`names, this`dead, this`cut
      ensures Idle() && (View(), ok) == Rename(old(View()), src, dest, hiding)
      ensures Moves(old(nodes), old(names), src, dest, hiding, nodes, names, ok)
    {
      IdleView();
      ghost var t := View();
      RenameMoves(t, src, dest, hiding);
      if src !in names {
        return true;
      }
      var node := names[src];
      VacatedKeeps(t, src, dest);
      if dest in names {
        if hiding {
          return false;
        }
        UnhashUnder(t, dest);
        UnlinkNode(names[dest]);
        IdleView();
      }
      MoverUnlinks(t, src, dest);
      UnlinkNode(node);
      IdleView();
      HashName(node, dest);
      IdleView();
      return true;
    }

    /** `next_id`: the next number that is free, starting over with a new generation; together with the generation it has not been
        given out before. */
    method NextId() returns (id: Id)
      requires ctr <= ID_MASK && |nodes| < ID_MASK - 1
      modifies this`ctr, this`generation
      ensures id == ctr <= ID_MASK && id !in nodes && id != 0 && id != UNKNOWN_INO
      ensures Passed(nodes.Keys, old(ctr), old(generation), ctr, generation)
    {
      ghost var free := FreeId(nodes.Keys, ID_MASK - 1);
      ctr := if ctr == ID_MASK then 0 else ctr + 1;
      generation := if ctr == 0 then generation + 1 else generation;
      while ctr == 0 || ctr == UNKNOWN_INO || ctr in nodes
        invariant ctr <= ID_MASK && Passed(nodes.Keys, old(ctr), old(generation), ctr, generation)
        decreases if ctr <= free then free - ctr else free + ID_MASK + 1 - ctr
      {
        assert Unusable(nodes.Keys, ctr) && !Unusable(nodes.Keys, free);
        ctr := if ctr == ID_MASK then 0 else ctr + 1;
        generation := if ctr == 0 then generation + 1 else generation;
      }
      id := ctr;
    }

    /** `inc_nlookup` */
    method IncNlookup(n: Id)
      requires Idle() && n in nodes
      modifies this`nodes
      ensures Idle() && View() == IncLookup(old(View()), n)
    {
      IdleView();
      if nodes[n].nlookup == 0 {
        nodes := nodes[n := nodes[n].(refctr := nodes[n].refctr + 1)];
      }
      nodes := nodes[n := nodes[n].(nlookup := nodes[n].nlookup + 1)];
      IdleView();
    }

    /** `find_node` */
    method FindNode(parent: Id, name: Option<string>) returns (n: Id)
      requires Idle() && TreeInv(View()) && parent in nodes && ctr <= ID_MASK && |nodes| < ID_MASK - 1
      modifies this`nodes, this`names, this`ctr, this`generation
      ensures Idle() && (View(), n) == Find(old(View()), parent, name, ctr)
      ensures if name.Some? && Key(parent, name.value) !in old(names)
        then n == ctr && n !in old(nodes) && n != 0 && n != UNKNOWN_INO
        else n in old(nodes) && ctr == old(ctr) && generation == old(generation)
      ensures LooksUp(old(nodes), old(names), parent, name, nodes, names, n)
    {
      IdleView();
      if name.None? {
        n := parent;
      } else if Key(parent, name.value) in names {
        n := names[Key(parent, name.value)];
        assert NameOk(View(), Key(parent, name.value));
      } else {
        var k := Key(parent, name.value);
        n := NextId();
        CreateBySteps(View(), n, k);
        nodes := nodes[n := Node(None, 0, 0, 0)];
        IdleView();
        HashName(n, k);
        IdleView();
      }
      IncNlookup(n);
      IdleView();
      FindLooksUp(old(View()), parent, name, ctr);
    }

    /** `forget_node` once it need not wait: the last lookups are taken from an unlocked node only. */
    method ForgetNode(n: Id, count: nat)
      requires Idle() && TreeInv(View())
      requires n != ROOT ==>
        && n in nodes && 0 < count <= nodes[n].nlookup && !(nodes[n].nlookup == count && nodes[n].treelock != 0)
        && GoneUnlocked(View(), Forget(View(), n, count))
      modifies this`nodes, this`names, this`dead
      ensures Idle() && View() == if n == ROOT then old(View()) else Forget(old(View()), n, count)
      ensures forall m :: LookupsIn(nodes, m) == LookupsIn(old(nodes), m) - if m == n != ROOT then count else 0
    {
      if n == ROOT {
        return;
      }
      IdleView();
      ghost var t := View();
      DropLookupsCounts(t, n, count);
      assert nodes[n].nlookup >= count;
      nodes := nodes[n := nodes[n].(nlookup := nodes[n].nlookup - count)];
      IdleView();
      if nodes[n].nlookup == 0 {
        UnrefNode(n);
      }
      IdleView();
      forall m
        ensures LookupsIn(nodes, m) == LookupsIn(old(nodes), m) - if m == n then count else 0
      {
        ForgetLookups(t, n, count, m);
      }
    }

    /** The reference that looking up "." takes, and gives back. */
    method TakeDotRef(n: Id)
      requires Idle() && n in nodes
      modifies this`nodes, this`dots
      ensures Idle() && View() == TakeDot(old(View()), n)
      ensures dots == old(dots) + multiset{n} && nodes == old(nodes)[n := old(nodes)[n].(refctr := old(nodes)[n].refctr + 1)]
    {
      IdleView();
      nodes := nodes[n := nodes[n].(refctr := nodes[n].refctr + 1)];
      dots := dots + multiset{n};
      IdleView();
    }

    method DropDotRef(n: Id)
      requires Idle() && TreeInv(View()) && dots[n] > 0 && GoneUnlocked(View(), DropDot(View(), n))
      modifies this`nodes, this`names, this`dots, this`dead
      ensures Idle() && View() == DropDot(old(View()), n) && dots == old(dots) - multiset{n}
    {
      IdleView();
      DotCounts(View(), n);
      dots := dots - multiset{n};
      IdleView();
      UnrefNode(n);
    }
  }
}
