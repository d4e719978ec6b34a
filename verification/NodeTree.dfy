/** The reference-counted node tree of fuse.c, as values.

    A node is identified by its id.  `link` is the pair of `parent` and `name`, which the code
    sets and clears together; the root has none.  `names` is what the name table stands for. */
module NodeTree {
  import opened Wrappers

  type Id = nat

  const ROOT: Id := 1
  const UNKNOWN_INO: Id := 0xffff_ffff

  datatype Key = Key(parent: Id, name: string)

  datatype Node = Node(link: Option<Key>, refctr: int, nlookup: nat, treelock: int)

  /** `dots` are the references that lookups of "." hold while they run. */
  datatype Tree = Tree(nodes: map<Id, Node>, names: map<Key, Id>, dots: multiset<Id>)

  // ---------------------------------------------------------------- chains to the root

  /** `c` follows the parent pointers from `c[0]` to a node without a parent. */
  ghost predicate IsChain(nodes: map<Id, Node>, c: seq<Id>) {
    && |c| > 0
    && (forall i :: 0 <= i < |c| ==> c[i] in nodes)
    && (forall i :: 0 <= i < |c| - 1 ==> nodes[c[i]].link.Some? && nodes[c[i]].link.value.parent == c[i + 1])
    && nodes[c[|c| - 1]].link.None?
  }

  ghost predicate ChainFrom(nodes: map<Id, Node>, n: Id, c: seq<Id>) {
    IsChain(nodes, c) && c[0] == n
  }

  ghost predicate HasChain(nodes: map<Id, Node>, n: Id) {
    exists c :: ChainFrom(nodes, n, c)
  }

  ghost predicate Acyclic(nodes: map<Id, Node>) {
    forall n {:trigger HasChain(nodes, n)} :: n in nodes ==> HasChain(nodes, n)
  }

  ghost function ChainOf(nodes: map<Id, Node>, n: Id): (c: seq<Id>)
    requires Acyclic(nodes) && n in nodes
    ensures ChainFrom(nodes, n, c)
  {
    assert HasChain(nodes, n);
    var c :| ChainFrom(nodes, n, c);
    c
  }

  lemma {:induction false} ChainUnique(nodes: map<Id, Node>, c: seq<Id>, d: seq<Id>)
    requires IsChain(nodes, c) && IsChain(nodes, d) && c[0] == d[0]
    ensures c == d
  {
    if |c| > 1 {
      assert |d| > 1;
      ChainTail(nodes, c, 1);
      ChainTail(nodes, d, 1);
      ChainUnique(nodes, c[1..], d[1..]);
      assert c == [c[0]] + c[1..] && d == [d[0]] + d[1..];
    } else {
      assert nodes[d[0]].link.None?;
    }
  }

  lemma ChainTail(nodes: map<Id, Node>, c: seq<Id>, i: nat)
    requires IsChain(nodes, c) && i < |c|
    ensures ChainFrom(nodes, c[i], c[i..])
  {
    var d := c[i..];
    forall j | 0 <= j < |d| - 1
      ensures nodes[d[j]].link.Some? && nodes[d[j]].link.value.parent == d[j + 1]
    {
      assert d[j] == c[i + j] && d[j + 1] == c[i + j + 1];
    }
  }

  lemma ChainHasNoDuplicates(nodes: map<Id, Node>, c: seq<Id>, i: nat, j: nat)
    requires IsChain(nodes, c) && i < j < |c|
    ensures c[i] != c[j]
  {
    if c[i] == c[j] {
      ChainTail(nodes, c, i);
      ChainTail(nodes, c, j);
      ChainUnique(nodes, c[i..], c[j..]);
    }
  }

  lemma ChainFrame(nodes: map<Id, Node>, nodes': map<Id, Node>, c: seq<Id>)
    requires IsChain(nodes, c)
    requires forall i :: 0 <= i < |c| ==> c[i] in nodes' && nodes'[c[i]].link == nodes[c[i]].link
    ensures IsChain(nodes', c)
  {
  }

  // ---------------------------------------------------------------- the invariant of the tree

  ghost function Children(nodes: map<Id, Node>, p: Id): set<Id> {
    set c | c in nodes && nodes[c].link.Some? && nodes[c].link.value.parent == p
  }

  /** How many references a node should have. */
  ghost function Expected(t: Tree, n: Id): nat
    requires n in t.nodes
  {
    (if t.nodes[n].nlookup > 0 then 1 else 0) + |Children(t.nodes, n)| + t.dots[n]
  }

  /** A linked node has a live parent and is found under its name. */
  ghost predicate LinkOk(t: Tree, n: Id)
    requires n in t.nodes
  {
    t.nodes[n].link.Some? ==>
      var k := t.nodes[n].link.value;
      k.parent in t.nodes && k in t.names && t.names[k] == n
  }

  ghost predicate NameOk(t: Tree, k: Key)
    requires k in t.names
  {
    t.names[k] in t.nodes && t.nodes[t.names[k]].link == Some(k)
  }

  ghost predicate RefOk(t: Tree, n: Id, x: Id, extra: nat)
    requires n in t.nodes
  {
    t.nodes[n].refctr == Expected(t, n) + (if n == x then extra else 0) && t.nodes[n].refctr > 0
  }

  /** Shape of the tree: names and links agree, parents are live, there is no cycle. */
  ghost predicate Shaped(t: Tree) {
    && ROOT in t.nodes && t.nodes[ROOT].link.None? && t.nodes[ROOT].nlookup > 0
    && (forall n {:trigger LinkOk(t, n)} :: n in t.nodes ==> LinkOk(t, n))
    && (forall k {:trigger NameOk(t, k)} :: k in t.names ==> NameOk(t, k))
    && (forall n :: t.dots[n] > 0 ==> n in t.nodes)
    && Acyclic(t.nodes)
  }

  /** Reference counts are exact, except that `x` has `extra` more than it should. */
  ghost predicate Counted(t: Tree, x: Id, extra: nat) {
    forall n {:trigger RefOk(t, n, x, extra)} :: n in t.nodes ==> RefOk(t, n, x, extra)
  }

  ghost predicate TreeInv(t: Tree) {
    Shaped(t) && Counted(t, 0, 0)
  }

  /** Everything but tree locks is the same. */
  ghost predicate SameShape(t: Tree, t': Tree) {
    && t'.nodes.Keys == t.nodes.Keys && t'.names == t.names && t'.dots == t.dots
    && forall n :: n in t.nodes ==> t'.nodes[n] == t.nodes[n].(treelock := t'.nodes[n].treelock)
  }

  lemma SameShapeChain(t: Tree, t': Tree, c: seq<Id>)
    requires SameShape(t, t') && IsChain(t.nodes, c)
    ensures IsChain(t'.nodes, c)
  {
    ChainFrame(t.nodes, t'.nodes, c);
  }

  lemma SameShapeInv(t: Tree, t': Tree)
    requires TreeInv(t) && SameShape(t, t')
    ensures TreeInv(t')
  {
    CountersOnly(t, t');
    forall n | n in t'.nodes
      ensures RefOk(t', n, 0, 0)
    {
      assert RefOk(t, n, 0, 0);
    }
  }

  // ---------------------------------------------------------------- counting children

  /** Only node `n` has been taken off its parent. */
  ghost predicate Unlinks(nodes: map<Id, Node>, nodes': map<Id, Node>, n: Id) {
    && n in nodes && nodes[n].link.Some? && (n in nodes' ==> nodes'[n].link.None?)
    && (forall m :: m != n ==> (m in nodes <==> m in nodes'))
    && (forall m :: m != n && m in nodes ==> nodes'[m].link == nodes[m].link)
  }

  lemma ChildLost(nodes: map<Id, Node>, nodes': map<Id, Node>, n: Id)
    requires Unlinks(nodes, nodes', n)
    ensures var p := nodes[n].link.value.parent; |Children(nodes, p)| == |Children(nodes', p)| + 1
  {
    var p := nodes[n].link.value.parent;
    assert Children(nodes, p) == Children(nodes', p) + {n};
  }

  lemma ChildrenUnlinked(nodes: map<Id, Node>, nodes': map<Id, Node>, n: Id, p: Id)
    requires Unlinks(nodes, nodes', n)
    ensures |Children(nodes', p)| == |Children(nodes, p)| - (if p == nodes[n].link.value.parent then 1 else 0)
  {
    if p == nodes[n].link.value.parent {
      ChildLost(nodes, nodes', n);
    } else {
      assert Children(nodes, p) == Children(nodes', p);
    }
  }

  lemma ChildrenSame(nodes: map<Id, Node>, nodes': map<Id, Node>, p: Id)
    requires forall m :: m in nodes && nodes[m].link.Some? ==> m in nodes' && nodes'[m].link == nodes[m].link
    requires forall m :: m in nodes' && nodes'[m].link.Some? ==> m in nodes && nodes'[m].link == nodes[m].link
    ensures Children(nodes', p) == Children(nodes, p)
  {
  }

  lemma NoChildren(nodes: map<Id, Node>, n: Id)
    requires |Children(nodes, n)| == 0
    ensures forall m :: m in nodes && nodes[m].link.Some? ==> nodes[m].link.value.parent != n
  {
    forall m | m in nodes && nodes[m].link.Some?
      ensures nodes[m].link.value.parent != n
    {
      assert nodes[m].link.value.parent == n ==> m in Children(nodes, n);
    }
  }

  // ---------------------------------------------------------------- deleting a chain of nodes

  /** The node is gone, and so is its name. */
  function Deleted(t: Tree, n: Id): (t': Tree)
    requires n in t.nodes
  {
    t.(nodes := t.nodes - {n}, names := if t.nodes[n].link.Some? then t.names - {t.nodes[n].link.value} else t.names)
  }

  /** `unref_node` and `delete_node`: dropping the last reference also drops the parent's. */
  function Unref(t: Tree, n: Id): (t': Tree)
    decreases |t.nodes|
  {
    if n !in t.nodes then t
    else if t.nodes[n].refctr != 1 then t.(nodes := t.nodes[n := t.nodes[n].(refctr := t.nodes[n].refctr - 1)])
    else
      assert (t.nodes - {n}).Keys == t.nodes.Keys - {n};
      var t' := Deleted(t, n);
      if t.nodes[n].link.Some? then Unref(t', t.nodes[n].link.value.parent) else t'
  }

  /** A node without children is on no chain but its own. */
  lemma ChainAvoids(nodes: map<Id, Node>, n: Id, c: seq<Id>)
    requires IsChain(nodes, c) && c[0] != n && |Children(nodes, n)| == 0
    ensures n !in c
  {
    NoChildren(nodes, n);
    forall i | 0 <= i < |c|
      ensures c[i] != n
    {
      assert i > 0 ==> nodes[c[i - 1]].link.value.parent == c[i];
    }
  }

  lemma DeletedCounts(t: Tree, n: Id, m: Id)
    requires n in t.nodes && m in t.nodes && m != n && Counted(t, n, 1)
    ensures t.nodes[n].link.Some? ==> RefOk(Deleted(t, n), m, t.nodes[n].link.value.parent, 1)
    ensures t.nodes[n].link.None? ==> RefOk(Deleted(t, n), m, 0, 0)
  {
    var t' := Deleted(t, n);
    assert RefOk(t, m, n, 1);
    if t.nodes[n].link.Some? {
      ChildrenUnlinked(t.nodes, t'.nodes, n, m);
    } else {
      ChildrenSame(t.nodes, t'.nodes, m);
    }
  }

  lemma DeletedChain(t: Tree, n: Id, m: Id)
    requires Shaped(t) && n in t.nodes && |Children(t.nodes, n)| == 0 && m in t.nodes && m != n
    ensures HasChain(Deleted(t, n).nodes, m)
  {
    var c := ChainOf(t.nodes, m);
    ChainAvoids(t.nodes, n, c);
    ChainFrame(t.nodes, Deleted(t, n).nodes, c);
    assert ChainFrom(Deleted(t, n).nodes, m, c);
  }

  lemma DeletedLinks(t: Tree, n: Id)
    requires Shaped(t) && n in t.nodes && n != ROOT && |Children(t.nodes, n)| == 0 && t.dots[n] == 0
    ensures Shaped(Deleted(t, n))
  {
    var t' := Deleted(t, n);
    assert LinkOk(t, n);
    NoChildren(t.nodes, n);
    forall m | m in t'.nodes
      ensures LinkOk(t', m) && HasChain(t'.nodes, m)
    {
      assert LinkOk(t, m);
      DeletedChain(t, n, m);
    }
    forall k | k in t'.names
      ensures NameOk(t', k)
    {
      assert NameOk(t, k);
    }
  }

  /** A node without references is nobody's parent, so taking it out leaves a tree in which only
      its parent has a reference too many. */
  lemma DeletedShape(t: Tree, n: Id)
    requires Shaped(t) && n in t.nodes && Counted(t, n, 1) && t.nodes[n].refctr == 1
    ensures n != ROOT && Shaped(Deleted(t, n)) && t.nodes[n].nlookup == 0 && t.dots[n] == 0
    ensures t.nodes[n].link.Some? ==> t.nodes[n].link.value.parent in Deleted(t, n).nodes
    ensures t.nodes[n].link.Some? ==> Counted(Deleted(t, n), t.nodes[n].link.value.parent, 1)
    ensures t.nodes[n].link.None? ==> Counted(Deleted(t, n), 0, 0)
  {
    var t', link := Deleted(t, n), t.nodes[n].link;
    assert RefOk(t, n, n, 1) && LinkOk(t, n);
    DeletedLinks(t, n);
    if link.Some? {
      ParentIsOther(t, n);
    }
    forall m | m in t'.nodes
      ensures link.Some? ==> RefOk(t', m, link.value.parent, 1)
      ensures link.None? ==> RefOk(t', m, 0, 0)
    {
      DeletedCounts(t, n, m);
    }
  }

  /** How a node came through a step that relinks only nodes in `x` and takes lookups back only
      from those in `f`. */
  ghost predicate NodeEvolves(t: Tree, t': Tree, x: set<Id>, f: set<Id>, m: Id) {
    && (m in t.nodes && m in t'.nodes ==>
          t'.nodes[m].treelock == t.nodes[m].treelock && (m !in x ==> t'.nodes[m].link == t.nodes[m].link))
    && (m !in t.nodes && m in t'.nodes ==> t'.nodes[m].treelock == 0)
    && (m in t.nodes && t.nodes[m].nlookup > 0 && m !in f ==> m in t'.nodes && t'.nodes[m].nlookup >= t.nodes[m].nlookup)
  }

  /** A name that now leads elsewhere leads to a node that is looked up. */
  ghost predicate NameEvolves(t: Tree, t': Tree, k: Key) {
    k in t'.names ==>
      || (k in t.names && t'.names[k] == t.names[k])
      || (t'.names[k] in t'.nodes && t'.nodes[t'.names[k]].nlookup > 0)
  }

  ghost predicate Evolves(t: Tree, t': Tree, x: set<Id>, f: set<Id>) {
    && (forall m {:trigger NodeEvolves(t, t', x, f, m)} :: NodeEvolves(t, t', x, f, m))
    && (forall k {:trigger NameEvolves(t, t', k)} :: NameEvolves(t, t', k))
  }

  /** Dropping one reference leaves exact counts again, and only unreferenced nodes disappear. */
  lemma {:induction false} UnrefKeeps(t: Tree, n: Id)
    requires Shaped(t) && n in t.nodes && Counted(t, n, 1)
    ensures TreeInv(Unref(t, n)) && Unref(t, n).dots == t.dots
    ensures Unref(t, n).nodes.Keys <= t.nodes.Keys
    ensures forall k :: k in Unref(t, n).names ==> k in t.names && Unref(t, n).names[k] == t.names[k]
    ensures forall m :: m in Unref(t, n).nodes ==> Unref(t, n).nodes[m] == t.nodes[m].(refctr := Unref(t, n).nodes[m].refctr)
    ensures forall m :: m in t.nodes && (t.nodes[m].nlookup > 0 || t.dots[m] > 0) ==> m in Unref(t, n).nodes
    decreases |t.nodes|
  {
    if t.nodes[n].refctr != 1 {
      UnrefOne(t, n);
    } else {
      assert (t.nodes - {n}).Keys == t.nodes.Keys - {n};
      DeletedShape(t, n);
      if t.nodes[n].link.Some? {
        UnrefKeeps(Deleted(t, n), t.nodes[n].link.value.parent);
      }
    }
  }

  lemma UnrefOne(t: Tree, n: Id)
    requires Shaped(t) && n in t.nodes && Counted(t, n, 1) && t.nodes[n].refctr != 1
    ensures TreeInv(Unref(t, n))
  {
    var t' := t.(nodes := t.nodes[n := t.nodes[n].(refctr := t.nodes[n].refctr - 1)]);
    CountersOnly(t, t');
    forall m | m in t'.nodes
      ensures RefOk(t', m, 0, 0)
    {
      assert RefOk(t, m, n, 1);
    }
    assert t' == Unref(t, n);
  }

  // ---------------------------------------------------------------- operations

  /** `inc_nlookup` */
  function IncLookup(t: Tree, n: Id): (t': Tree)
    requires n in t.nodes
  {
    var node := t.nodes[n];
    t.(nodes := t.nodes[n := node.(refctr := node.refctr + (if node.nlookup == 0 then 1 else 0), nlookup := node.nlookup + 1)])
  }

  /** The allocation branch of `find_node`: a new node hashed under `k` and looked up once. */
  function Create(t: Tree, id: Id, k: Key): (t': Tree)
    requires k.parent in t.nodes
  {
    var p := t.nodes[k.parent];
    t.(nodes := t.nodes[k.parent := p.(refctr := p.refctr + 1)][id := Node(Some(k), 1, 1, 0)], names := t.names[k := id])
  }

  /** `find_node`, with the id that `next_id` would give. */
  function Find(t: Tree, parent: Id, name: Option<string>, id: Id): (r: (Tree, Id))
    requires parent in t.nodes
  {
    if name.None? then (IncLookup(t, parent), parent)
    else
      var k := Key(parent, name.value);
      if k in t.names && t.names[k] in t.nodes then (IncLookup(t, t.names[k]), t.names[k])
      else (Create(t, id, k), id)
  }

  /** The decrement of `forget_node`, once the node is free to go. */
  function Forget(t: Tree, n: Id, count: nat): (t': Tree)
    requires n in t.nodes && count <= t.nodes[n].nlookup
  {
    var t' := DropLookups(t, n, count);
    if t'.nodes[n].nlookup == 0 then Unref(t', n) else t'
  }

  /** `unhash_name` */
  function Unhash(t: Tree, n: Id): (t': Tree) {
    if n !in t.nodes || t.nodes[n].link.None? then t
    else Unref(CutLink(t, n), t.nodes[n].link.value.parent)
  }

  /** `hash_name` for a node that is in the tree. */
  function Hash(t: Tree, n: Id, k: Key): (t': Tree) {
    if n !in t.nodes || k.parent !in t.nodes || n == k.parent then t
    else
      var p := t.nodes[k.parent];
      t.(nodes := t.nodes[k.parent := p.(refctr := p.refctr + 1)][n := t.nodes[n].(link := Some(k))],
         names := t.names[k := n])
  }

  /** `rename_node`: what was found under the new name is unlinked, unless the rename hides a file. */
  function Rename(t: Tree, src: Key, dest: Key, hiding: bool): (r: (Tree, bool)) {
    if src !in t.names then (t, true)
    else if dest in t.names && hiding then (t, false)
    else
      var t1 := if dest in t.names then Unhash(t, t.names[dest]) else t;
      (Hash(Unhash(t1, t.names[src]), t.names[src], dest), true)
  }

  /** Lookup of "." takes a reference for as long as it runs. */
  function TakeDot(t: Tree, n: Id): (t': Tree)
    requires n in t.nodes
  {
    t.(nodes := t.nodes[n := t.nodes[n].(refctr := t.nodes[n].refctr + 1)], dots := t.dots + multiset{n})
  }

  function DropDot(t: Tree, n: Id): (t': Tree) {
    Unref(t.(dots := t.dots - multiset{n}), n)
  }

  /** Links, names and chains carry over when only counters change. */
  lemma CountersOnly(t: Tree, t': Tree)
    requires Shaped(t) && t'.nodes.Keys == t.nodes.Keys && t'.names == t.names
    requires forall n :: n in t.nodes ==> t'.nodes[n].link == t.nodes[n].link
    requires t'.nodes[ROOT].nlookup > 0
    requires forall n :: t'.dots[n] > 0 ==> n in t'.nodes
    ensures Shaped(t')
    ensures forall n :: Children(t'.nodes, n) == Children(t.nodes, n)
  {
    forall n | n in t'.nodes
      ensures LinkOk(t', n) && HasChain(t'.nodes, n)
    {
      assert LinkOk(t, n);
      var c := ChainOf(t.nodes, n);
      ChainFrame(t.nodes, t'.nodes, c);
      assert ChainFrom(t'.nodes, n, c);
    }
    forall k | k in t'.names
      ensures NameOk(t', k)
    {
      assert NameOk(t, k);
    }
  }

  lemma IncLookupKeeps(t: Tree, n: Id)
    requires TreeInv(t) && n in t.nodes
    ensures TreeInv(IncLookup(t, n)) && Evolves(t, IncLookup(t, n), {}, {})
  {
    var t' := IncLookup(t, n);
    CountersOnly(t, t');
    forall m | m in t'.nodes
      ensures RefOk(t', m, 0, 0)
    {
      assert RefOk(t, m, 0, 0);
    }
  }

  lemma TakeDotKeeps(t: Tree, n: Id)
    requires TreeInv(t) && n in t.nodes
    ensures TreeInv(TakeDot(t, n)) && Evolves(t, TakeDot(t, n), {}, {})
  {
    var t' := TakeDot(t, n);
    assert forall m :: t'.dots[m] > 0 ==> m in t.nodes;
    CountersOnly(t, t');
    forall m
      ensures NodeEvolves(t, t', {}, {}, m)
    {
    }
    forall m | m in t'.nodes
      ensures RefOk(t', m, 0, 0)
    {
      assert RefOk(t, m, 0, 0);
    }
  }

  lemma DotCounts(t: Tree, n: Id)
    requires TreeInv(t) && t.dots[n] > 0
    ensures var t1 := t.(dots := t.dots - multiset{n}); n in t.nodes && Shaped(t1) && Counted(t1, n, 1)
  {
    var t1 := t.(dots := t.dots - multiset{n});
    CountersOnly(t, t1);
    forall m | m in t1.nodes
      ensures RefOk(t1, m, n, 1)
    {
      assert RefOk(t, m, 0, 0);
    }
  }

  lemma DropDotKeeps(t: Tree, n: Id)
    requires TreeInv(t) && t.dots[n] > 0
    ensures TreeInv(DropDot(t, n)) && Evolves(t, DropDot(t, n), {}, {})
  {
    DotCounts(t, n);
    UnrefKeeps(t.(dots := t.dots - multiset{n}), n);
  }

  function DropLookups(t: Tree, n: Id, count: nat): (t': Tree)
    requires n in t.nodes && count <= t.nodes[n].nlookup
  {
    t.(nodes := t.nodes[n := t.nodes[n].(nlookup := t.nodes[n].nlookup - count)])
  }

  lemma DropLookupsCounts(t: Tree, n: Id, count: nat)
    requires TreeInv(t) && n in t.nodes && n != ROOT && 0 < count <= t.nodes[n].nlookup
    ensures Shaped(DropLookups(t, n, count))
    ensures count < t.nodes[n].nlookup ==> Counted(DropLookups(t, n, count), 0, 0)
    ensures count == t.nodes[n].nlookup ==> Counted(DropLookups(t, n, count), n, 1)
  {
    var t1 := DropLookups(t, n, count);
    CountersOnly(t, t1);
    forall m | m in t1.nodes
      ensures if count == t.nodes[n].nlookup then RefOk(t1, m, n, 1) else RefOk(t1, m, 0, 0)
    {
      assert RefOk(t, m, 0, 0);
    }
  }

  lemma ForgetKeeps(t: Tree, n: Id, count: nat)
    requires TreeInv(t) && n in t.nodes && n != ROOT && 0 < count <= t.nodes[n].nlookup
    ensures TreeInv(Forget(t, n, count))
    ensures Evolves(t, Forget(t, n, count), {}, {n})
    ensures count < t.nodes[n].nlookup ==> Forget(t, n, count) == DropLookups(t, n, count)
  {
    DropLookupsCounts(t, n, count);
    if count == t.nodes[n].nlookup {
      UnrefKeeps(DropLookups(t, n, count), n);
    }
    var t', f := Forget(t, n, count), {n};
    forall m
      ensures NodeEvolves(t, t', {}, f, m)
    {
    }
    forall k
      ensures NameEvolves(t, t', k)
    {
    }
  }

  lemma CreateChain(t: Tree, id: Id, k: Key, m: Id)
    requires Shaped(t) && k.parent in t.nodes && id !in t.nodes && m in Create(t, id, k).nodes
    ensures HasChain(Create(t, id, k).nodes, m)
  {
    var nodes' := Create(t, id, k).nodes;
    var c := ChainOf(t.nodes, if m == id then k.parent else m);
    ChainFrame(t.nodes, nodes', c);
    if m == id {
      ChainExtends(nodes', id, c);
    } else {
      assert ChainFrom(nodes', m, c);
    }
  }

  lemma ChainExtends(nodes: map<Id, Node>, n: Id, c: seq<Id>)
    requires IsChain(nodes, c) && n in nodes && nodes[n].link.Some? && nodes[n].link.value.parent == c[0]
    ensures ChainFrom(nodes, n, [n] + c)
  {
  }

  lemma CreateCounts(t: Tree, id: Id, k: Key, m: Id)
    requires TreeInv(t) && k.parent in t.nodes && id !in t.nodes && m in Create(t, id, k).nodes
    ensures RefOk(Create(t, id, k), m, 0, 0)
  {
    ChildrenUnlinked(Create(t, id, k).nodes, t.nodes, id, m);
    if m == id {
      forall x | x in t.nodes
        ensures x !in Children(t.nodes, id)
      {
        assert LinkOk(t, x);
      }
      assert Children(t.nodes, id) == {};
    } else {
      assert RefOk(t, m, 0, 0);
    }
  }

  lemma CreateNames(t: Tree, id: Id, k: Key, m: Id, k': Key)
    requires k.parent in t.nodes && k !in t.names && id !in t.nodes
    ensures m in t.nodes && LinkOk(t, m) ==> LinkOk(Create(t, id, k), m)
    ensures LinkOk(Create(t, id, k), id)
    ensures k' in t.names && NameOk(t, k') ==> NameOk(Create(t, id, k), k')
    ensures NameOk(Create(t, id, k), k)
  {
  }

  lemma CreateEvolves(t: Tree, id: Id, k: Key)
    requires k.parent in t.nodes && id !in t.nodes
    ensures Evolves(t, Create(t, id, k), {}, {})
  {
    forall m
      ensures NodeEvolves(t, Create(t, id, k), {}, {}, m)
    {
    }
  }

  lemma CreateShaped(t: Tree, id: Id, k: Key)
    requires Shaped(t) && k.parent in t.nodes && k !in t.names && id !in t.nodes
    ensures Shaped(Create(t, id, k))
  {
    var t' := Create(t, id, k);
    forall m | m in t'.nodes
      ensures HasChain(t'.nodes, m) && LinkOk(t', m)
    {
      CreateChain(t, id, k, m);
      assert m != id ==> LinkOk(t, m);
      CreateNames(t, id, k, m, k);
    }
    forall k' | k' in t'.names
      ensures NameOk(t', k')
    {
      assert k' != k ==> NameOk(t, k');
      CreateNames(t, id, k, id, k');
    }
  }

  lemma CreateKeeps(t: Tree, id: Id, k: Key)
    requires TreeInv(t) && k.parent in t.nodes && k !in t.names && id !in t.nodes
    ensures TreeInv(Create(t, id, k)) && Evolves(t, Create(t, id, k), {}, {})
  {
    var t' := Create(t, id, k);
    CreateEvolves(t, id, k);
    CreateShaped(t, id, k);
    forall m | m in t'.nodes
      ensures RefOk(t', m, 0, 0)
    {
      CreateCounts(t, id, k, m);
    }
  }

  lemma ParentIsOther(t: Tree, n: Id)
    requires Shaped(t) && n in t.nodes && t.nodes[n].link.Some?
    ensures t.nodes[n].link.value.parent != n
  {
    var c := ChainOf(t.nodes, n);
    ChainHasNoDuplicates(t.nodes, c, 0, 1);
  }

  function CutLink(t: Tree, n: Id): (t': Tree)
    requires n in t.nodes && t.nodes[n].link.Some?
  {
    t.(nodes := t.nodes[n := t.nodes[n].(link := None)], names := t.names - {t.nodes[n].link.value})
  }

  lemma CutLinkCounts(t: Tree, n: Id, m: Id)
    requires TreeInv(t) && n in t.nodes && t.nodes[n].link.Some? && m in t.nodes
    ensures RefOk(CutLink(t, n), m, t.nodes[n].link.value.parent, 1)
  {
    assert RefOk(t, m, 0, 0);
    ChildrenUnlinked(t.nodes, CutLink(t, n).nodes, n, m);
  }

  lemma CutLinkChain(t: Tree, n: Id, m: Id)
    requires Shaped(t) && n in t.nodes && t.nodes[n].link.Some? && m in t.nodes
    ensures HasChain(CutLink(t, n).nodes, m)
  {
    var t', c := CutLink(t, n), ChainOf(t.nodes, m);
    if n in c {
      var i :| 0 <= i < |c| && c[i] == n;
      forall j | 0 <= j < i
        ensures c[j] != n
      {
        ChainHasNoDuplicates(t.nodes, c, j, i);
      }
      assert ChainFrom(t'.nodes, m, c[..i + 1]);
    } else {
      ChainFrame(t.nodes, t'.nodes, c);
      assert ChainFrom(t'.nodes, m, c);
    }
  }

  lemma CutLinkShape(t: Tree, n: Id)
    requires TreeInv(t) && n in t.nodes && t.nodes[n].link.Some?
    ensures Shaped(CutLink(t, n)) && Counted(CutLink(t, n), t.nodes[n].link.value.parent, 1)
    ensures t.nodes[n].link.value.parent in CutLink(t, n).nodes
  {
    var t' := CutLink(t, n);
    assert LinkOk(t, n);
    forall m | m in t'.nodes
      ensures LinkOk(t', m) && HasChain(t'.nodes, m) && RefOk(t', m, t.nodes[n].link.value.parent, 1)
    {
      assert LinkOk(t, m);
      CutLinkChain(t, n, m);
      CutLinkCounts(t, n, m);
    }
    forall k | k in t'.names
      ensures NameOk(t', k)
    {
      assert NameOk(t, k);
    }
  }

  lemma UnhashEvolves(t: Tree, n: Id)
    requires TreeInv(t) && n in t.nodes && t.nodes[n].link.Some?
    ensures TreeInv(Unhash(t, n)) && Evolves(t, Unhash(t, n), {n}, {}) && Unhash(t, n).nodes.Keys <= t.nodes.Keys
  {
    CutLinkShape(t, n);
    UnrefKeeps(CutLink(t, n), t.nodes[n].link.value.parent);
    forall m
      ensures NodeEvolves(t, Unhash(t, n), {n}, {}, m)
    {
    }
  }

  /** Taking a node off its parent cannot hurt anyone who is looked up. */
  lemma UnhashKeeps(t: Tree, n: Id)
    requires TreeInv(t) && n in t.nodes
    ensures TreeInv(Unhash(t, n)) && Evolves(t, Unhash(t, n), {n}, {})
    ensures Unhash(t, n).nodes.Keys <= t.nodes.Keys
    ensures n in Unhash(t, n).nodes ==> Unhash(t, n).nodes[n].link.None?
    ensures t.nodes[n].link.Some? && LinkOk(t, n) && t.nodes[t.nodes[n].link.value.parent].nlookup > 0 ==>
      Unhash(t, n).nodes.Keys == t.nodes.Keys && Unhash(t, n).names == t.names - {t.nodes[n].link.value}
  {
    if t.nodes[n].link.Some? {
      var p := t.nodes[n].link.value.parent;
      UnhashEvolves(t, n);
      ParentIsOther(t, n);
      CutLinkShape(t, n);
      UnrefKeeps(CutLink(t, n), p);
      assert RefOk(CutLink(t, n), p, p, 1);
    }
  }

  lemma HashChain(t: Tree, n: Id, k: Key, m: Id)
    requires Shaped(t) && n in t.nodes && t.nodes[n].link.None? && k.parent in t.nodes && m in t.nodes
    requires n !in ChainOf(t.nodes, k.parent)
    ensures n != k.parent && HasChain(Hash(t, n, k).nodes, m)
  {
    var d := ChainOf(t.nodes, k.parent);
    assert d[0] == k.parent;
    var t', c := Hash(t, n, k), ChainOf(t.nodes, m);
    ChainFrame(t.nodes, t'.nodes, d);
    if n in c {
      var i :| 0 <= i < |c| && c[i] == n;
      var e := c + d;
      assert i == |c| - 1;
      forall j | 0 <= j < |c| - 1
        ensures c[j] != n
      {
        ChainHasNoDuplicates(t.nodes, c, j, i);
      }
      forall j | 0 <= j < |e| - 1
        ensures t'.nodes[e[j]].link.Some? && t'.nodes[e[j]].link.value.parent == e[j + 1]
      {
        assert j > i ==> t'.nodes[d[j - |c|]].link.value.parent == d[j - |c| + 1];
      }
      assert ChainFrom(t'.nodes, m, e);
    } else {
      ChainFrame(t.nodes, t'.nodes, c);
      assert ChainFrom(t'.nodes, m, c);
    }
  }

  lemma HashCounts(t: Tree, n: Id, k: Key, m: Id)
    requires TreeInv(t) && n in t.nodes && t.nodes[n].link.None? && k.parent in t.nodes && n != k.parent && m in t.nodes
    ensures RefOk(Hash(t, n, k), m, 0, 0)
  {
    assert RefOk(t, m, 0, 0);
    ChildrenUnlinked(Hash(t, n, k).nodes, t.nodes, n, m);
  }

  lemma HashNames(t: Tree, n: Id, k: Key, m: Id, k': Key)
    requires k.parent in t.nodes && k !in t.names && n in t.nodes && t.nodes[n].link.None? && n != k.parent
    ensures m in t.nodes && LinkOk(t, m) ==> LinkOk(Hash(t, n, k), m)
    ensures k' in t.names && NameOk(t, k') ==> NameOk(Hash(t, n, k), k')
    ensures NameOk(Hash(t, n, k), k)
  {
  }

  lemma HashEvolves(t: Tree, n: Id, k: Key)
    requires k.parent in t.nodes && n in t.nodes && n != k.parent && t.nodes[n].nlookup > 0
    ensures Evolves(t, Hash(t, n, k), {n}, {})
  {
    forall m
      ensures NodeEvolves(t, Hash(t, n, k), {n}, {}, m)
    {
    }
  }

  lemma HashShaped(t: Tree, n: Id, k: Key)
    requires Shaped(t) && n in t.nodes && n != ROOT && t.nodes[n].link.None? && k.parent in t.nodes && k !in t.names
    requires n !in ChainOf(t.nodes, k.parent) && n != k.parent
    ensures Shaped(Hash(t, n, k))
  {
    var t' := Hash(t, n, k);
    forall m | m in t'.nodes
      ensures HasChain(t'.nodes, m) && LinkOk(t', m)
    {
      HashChain(t, n, k, m);
      assert LinkOk(t, m);
      HashNames(t, n, k, m, k);
    }
    forall k' | k' in t'.names
      ensures NameOk(t', k')
    {
      assert k' != k ==> NameOk(t, k');
      HashNames(t, n, k, n, k');
    }
  }

  /** A node may be hung anywhere outside its own subtree. */
  lemma HashKeeps(t: Tree, n: Id, k: Key)
    requires TreeInv(t) && n in t.nodes && n != ROOT && t.nodes[n].link.None? && k.parent in t.nodes && k !in t.names
    requires n !in ChainOf(t.nodes, k.parent) && t.nodes[n].nlookup > 0
    ensures n != k.parent && TreeInv(Hash(t, n, k)) && Evolves(t, Hash(t, n, k), {n}, {})
  {
    HashChain(t, n, k, n);
    HashEvolves(t, n, k);
    HashShaped(t, n, k);
    var t' := Hash(t, n, k);
    forall m | m in t'.nodes
      ensures RefOk(t', m, 0, 0)
    {
      HashCounts(t, n, k, m);
    }
  }

  // ---------------------------------------------------------------- renaming

  /** A named node is not on the chain of the directory it sits in. */
  lemma TargetIsOffChain(t: Tree, k: Key, c: seq<Id>)
    requires Shaped(t) && k in t.names && ChainFrom(t.nodes, k.parent, c)
    ensures t.names[k] !in c
  {
    assert NameOk(t, k);
    var w := t.names[k];
    var d := [w] + c;
    assert ChainFrom(t.nodes, w, d);
    if w in c {
      var i :| 0 <= i < |c| && c[i] == w;
      ChainHasNoDuplicates(t.nodes, d, 0, i + 1);
    }
  }

  lemma EvolvesTrans(t: Tree, t': Tree, t'': Tree, x: set<Id>, x': set<Id>)
    requires Evolves(t, t', x, {}) && Evolves(t', t'', x', {})
    requires t.nodes.Keys == t'.nodes.Keys == t''.nodes.Keys
    ensures Evolves(t, t'', x + x', {})
  {
    forall m
      ensures NodeEvolves(t, t'', x + x', {}, m)
    {
      assert NodeEvolves(t, t', x, {}, m) && NodeEvolves(t', t'', x', {}, m);
    }
    forall k
      ensures NameEvolves(t, t'', k)
    {
      assert NameEvolves(t, t', k) && NameEvolves(t', t'', k);
      if k in t'.names && t'.names[k] in t'.nodes {
        assert NodeEvolves(t', t'', x', {}, t'.names[k]);
      }
    }
  }

  /** Unlinking below a directory that is looked up takes nothing else away. */
  lemma UnhashUnder(t: Tree, k: Key)
    requires TreeInv(t) && k in t.names && k.parent in t.nodes && t.nodes[k.parent].nlookup > 0
    ensures var t' := Unhash(t, t.names[k]);
      && TreeInv(t') && Evolves(t, t', {t.names[k]}, {}) && t'.nodes.Keys == t.nodes.Keys && t'.names == t.names - {k}
      && t.names[k] in t.nodes && t.names[k] != ROOT && t'.nodes[t.names[k]].link.None?
      && SameLookups(t.nodes, t'.nodes)
  {
    assert NameOk(t, k);
    UnhashKeeps(t, t.names[k]);
    CutLinkShape(t, t.names[k]);
    UnrefKeeps(CutLink(t, t.names[k]), k.parent);
  }

  ghost predicate SameLookups(nodes: map<Id, Node>, nodes': map<Id, Node>) {
    forall m :: m in nodes && m in nodes' ==> nodes'[m].nlookup == nodes[m].nlookup
  }

  lemma ChainAside(t: Tree, t': Tree, x: set<Id>, c: seq<Id>)
    requires Evolves(t, t', x, {}) && t.nodes.Keys == t'.nodes.Keys && IsChain(t.nodes, c)
    requires forall n :: n in c ==> n !in x
    ensures IsChain(t'.nodes, c)
  {
    forall i | 0 <= i < |c|
      ensures c[i] in t'.nodes && t'.nodes[c[i]].link == t.nodes[c[i]].link
    {
      assert NodeEvolves(t, t', x, {}, c[i]);
    }
    ChainFrame(t.nodes, t'.nodes, c);
  }

  /** The two unlinkings of a rename. */
  function Vacated(t: Tree, src: Key, dest: Key): (t': Tree)
    requires src in t.names
  {
    Unhash(if dest in t.names then Unhash(t, t.names[dest]) else t, t.names[src])
  }

  function RenameTargets(t: Tree, src: Key, dest: Key): (x: set<Id>)
    requires src in t.names
  {
    if dest in t.names then {t.names[src], t.names[dest]} else {t.names[src]}
  }

  ghost predicate Renamable(t: Tree, src: Key, dest: Key) {
    && src in t.names && t.names[src] in t.nodes && t.nodes[t.names[src]].nlookup > 0
    && src.parent in t.nodes && t.nodes[src.parent].nlookup > 0
    && dest.parent in t.nodes && t.nodes[dest.parent].nlookup > 0
  }

  lemma VacatedKeeps(t: Tree, src: Key, dest: Key)
    requires TreeInv(t) && Renamable(t, src, dest)
    ensures var t' := Vacated(t, src, dest);
      && TreeInv(t') && Evolves(t, t', RenameTargets(t, src, dest), {}) && t'.nodes.Keys == t.nodes.Keys
      && t'.names == t.names - {src, dest} && t'.nodes[t.names[src]].link.None?
      && (dest in t.names ==> t.names[dest] in t.nodes && t'.nodes[t.names[dest]].link.None?)
      && t.names[src] != ROOT && (dest in t.names ==> t.names[dest] != ROOT)
      && SameLookups(t.nodes, t'.nodes)
  {
    var node, t' := t.names[src], Vacated(t, src, dest);
    assert NameOk(t, src);
    if dest in t.names {
      UnhashUnder(t, dest);
      var t1 := Unhash(t, t.names[dest]);
      assert NameOk(t, dest);
      if dest != src {
        assert NodeEvolves(t, t1, {t.names[dest]}, {}, src.parent);
        UnhashUnder(t1, src);
        EvolvesTrans(t, t1, t', {t.names[dest]}, {node});
        assert {t.names[dest]} + {node} == RenameTargets(t, src, dest);
        assert NodeEvolves(t1, t', {node}, {}, t.names[dest]);
      } else {
        assert RenameTargets(t, src, dest) == {node};
      }
      assert t.names - {src, dest} == t1.names - {src};
    } else {
      UnhashUnder(t, src);
      assert t.names - {src, dest} == t.names - {src};
    }
  }

  lemma RenameKeeps(t: Tree, src: Key, dest: Key)
    requires TreeInv(t) && Renamable(t, src, dest) && t.names[src] !in ChainOf(t.nodes, dest.parent)
    ensures var (t', ok) := Rename(t, src, dest, false);
      && ok && TreeInv(t') && Evolves(t, t', RenameTargets(t, src, dest), {}) && t'.nodes.Keys == t.nodes.Keys
      && t'.names == (t.names - {src, dest})[dest := t.names[src]]
      && t'.nodes[t.names[src]].link == Some(dest)
      && (dest in t.names && t.names[dest] != t.names[src] ==> t.names[dest] in t'.nodes && t'.nodes[t.names[dest]].link.None?)
      && t.names[src] != ROOT && (dest in t.names ==> t.names[dest] != ROOT)
      && SameLookups(t.nodes, t'.nodes)
  {
    var node, t2, c, x := t.names[src], Vacated(t, src, dest), ChainOf(t.nodes, dest.parent), RenameTargets(t, src, dest);
    VacatedKeeps(t, src, dest);
    if dest in t.names {
      TargetIsOffChain(t, dest, c);
    }
    ChainAside(t, t2, x, c);
    ChainUnique(t2.nodes, c, ChainOf(t2.nodes, dest.parent));
    assert NodeEvolves(t, t2, x, {}, node);
    HashKeeps(t2, node, dest);
    var t' := Hash(t2, node, dest);
    assert t' == Rename(t, src, dest, false).0;
    EvolvesTrans(t, t2, t', x, {node});
    assert x + {node} == x;
    if dest in t.names && t.names[dest] != node {
      assert NodeEvolves(t2, t', {node}, {}, t.names[dest]);
    }
  }

  // ---------------------------------------------------------------- lookups

  function LookupsIn(nodes: map<Id, Node>, n: Id): (c: nat) {
    if n in nodes then nodes[n].nlookup else 0
  }

  function Lookups(t: Tree, n: Id): (c: nat) {
    LookupsIn(t.nodes, n)
  }

  lemma UnrefLookups(t: Tree, n: Id, m: Id)
    requires Shaped(t) && n in t.nodes && Counted(t, n, 1)
    ensures Lookups(Unref(t, n), m) == Lookups(t, m)
  {
    UnrefKeeps(t, n);
  }

  lemma UnhashLookups(t: Tree, n: Id, m: Id)
    requires TreeInv(t) && n in t.nodes
    ensures Lookups(Unhash(t, n), m) == Lookups(t, m)
  {
    if t.nodes[n].link.Some? {
      CutLinkShape(t, n);
      UnrefLookups(CutLink(t, n), t.nodes[n].link.value.parent, m);
    }
  }

  lemma ForgetLookups(t: Tree, n: Id, count: nat, m: Id)
    requires TreeInv(t) && n in t.nodes && n != ROOT && 0 < count <= t.nodes[n].nlookup
    ensures Lookups(Forget(t, n, count), m) == Lookups(t, m) - if m == n then count else 0
  {
    DropLookupsCounts(t, n, count);
    if count == t.nodes[n].nlookup {
      UnrefLookups(DropLookups(t, n, count), n, m);
    }
  }

  // ---------------------------------------------------------------- what lookups and renames do

  /** A lookup of `name` under `parent`, or of `parent` itself, answers node `n`: the node of the name, or
      a new one which then has the name. It has one lookup more, and nothing else has changed. */
  ghost predicate LooksUp(nodes: map<Id, Node>, names: map<Key, Id>, parent: Id, name: Option<string>,
                          nodes': map<Id, Node>, names': map<Key, Id>, n: Id) {
    && (name.None? ==> n == parent && names' == names)
    && (name.Some? ==>
          var k := Key(parent, name.value);
          if k in names then n == names[k] && names' == names
          else n !in nodes && names' == names[k := n] && n in nodes' && nodes'[n].link == Some(k))
    && nodes'.Keys == nodes.Keys + {n}
    && nodes'[n].nlookup == (if n in nodes then nodes[n].nlookup else 0) + 1
    && (forall m :: m in nodes ==>
          && nodes'[m].link == nodes[m].link && nodes'[m].treelock == nodes[m].treelock
          && (m != n ==> nodes'[m].nlookup == nodes[m].nlookup))
  }

  lemma FindLooksUp(t: Tree, parent: Id, name: Option<string>, id: Id)
    requires Shaped(t) && parent in t.nodes
    requires name.Some? && Key(parent, name.value) !in t.names ==> id !in t.nodes
    ensures var (t', n) := Find(t, parent, name, id);
      LooksUp(t.nodes, t.names, parent, name, t'.nodes, t'.names, n)
  {
    if name.Some? && Key(parent, name.value) in t.names {
      assert NameOk(t, Key(parent, name.value));
    }
  }

  /** The name is gone, its node is unlinked if it is still there, and no lookup is lost; below a directory
      that is looked up nothing else changes. */
  ghost predicate Removes(nodes: map<Id, Node>, names: map<Key, Id>, k: Key, nodes': map<Id, Node>, names': map<Key, Id>) {
    && k !in names'
    && (k !in names ==> nodes' == nodes && names' == names)
    && (k in names && names[k] in nodes' ==> nodes'[names[k]].link.None?)
    && (forall m :: LookupsIn(nodes', m) == LookupsIn(nodes, m))
    && (k in names && k.parent in nodes && nodes[k.parent].nlookup > 0 ==>
          && nodes'.Keys == nodes.Keys && names' == names - {k}
          && forall m :: m in nodes && m != names[k] ==> nodes'[m].link == nodes[m].link)
  }

  lemma UnhashRemoves(t: Tree, k: Key)
    requires TreeInv(t)
    ensures var t' := if k in t.names then Unhash(t, t.names[k]) else t;
      Removes(t.nodes, t.names, k, t'.nodes, t'.names)
  {
    if k in t.names {
      var n, t' := t.names[k], Unhash(t, t.names[k]);
      assert NameOk(t, k);
      UnhashKeeps(t, n);
      forall m
        ensures LookupsIn(t'.nodes, m) == LookupsIn(t.nodes, m)
      {
        UnhashLookups(t, n, m);
      }
      forall m | m in t.nodes && m in t'.nodes && m != n
        ensures t'.nodes[m].link == t.nodes[m].link
      {
        assert NodeEvolves(t, t', {n}, {}, m);
      }
      CutLinkShape(t, n);
      UnrefKeeps(CutLink(t, n), k.parent);
    }
  }

  /** A rename moves the node to the new name and unlinks what had it; without a source, or when it is to
      hide a file under a name that exists, it changes nothing, and only then does it fail. */
  ghost predicate Moves(nodes: map<Id, Node>, names: map<Key, Id>, src: Key, dest: Key, hiding: bool,
                        nodes': map<Id, Node>, names': map<Key, Id>, ok: bool) {
    && (ok <==> !(src in names && hiding && dest in names))
    && if src !in names || !ok then nodes' == nodes && names' == names
       else
         var n := names[src];
         && names' == (names - {src, dest})[dest := n] && nodes'.Keys == nodes.Keys
         && n in nodes && nodes'[n].link == Some(dest)
         && (dest in names && names[dest] != n ==> names[dest] in nodes && nodes'[names[dest]].link.None?)
         && (forall m :: m in nodes ==>
               && nodes'[m].nlookup == nodes[m].nlookup && nodes'[m].treelock == nodes[m].treelock
               && (m != n && !(dest in names && m == names[dest]) ==> nodes'[m].link == nodes[m].link))
  }

  lemma RenameMoves(t: Tree, src: Key, dest: Key, hiding: bool)
    requires TreeInv(t) && (src in t.names ==> Renamable(t, src, dest) && t.names[src] !in ChainOf(t.nodes, dest.parent))
    ensures var (t', ok) := Rename(t, src, dest, hiding);
      Moves(t.nodes, t.names, src, dest, hiding, t'.nodes, t'.names, ok)
  {
    var (t', ok) := Rename(t, src, dest, hiding);
    if src in t.names && ok {
      RenameKeeps(t, src, dest);
      assert t' == Rename(t, src, dest, false).0;
      forall m | m in t.nodes
        ensures t'.nodes[m].treelock == t.nodes[m].treelock
        ensures m !in RenameTargets(t, src, dest) ==> t'.nodes[m].link == t.nodes[m].link
      {
        assert NodeEvolves(t, t', RenameTargets(t, src, dest), {}, m);
      }
    }
  }

  /** The reference that a lookup of "." takes and gives back leaves no trace. */
  lemma DotGivenBack(t: Tree, n: Id)
    requires TreeInv(t) && n in t.nodes
    ensures TakeDot(t, n).dots == t.dots + multiset{n} && DropDot(TakeDot(t, n), n) == t
  {
    var t1 := TakeDot(t, n);
    assert RefOk(t, n, 0, 0);
    assert t1.dots - multiset{n} == t.dots;
    assert t1.nodes[n := t1.nodes[n].(refctr := t1.nodes[n].refctr - 1)] == t.nodes;
  }
}
