/** The slab allocator for nodes of fuse.c. A slab is one page; its nodes fill the page from the
    end, and those that are free are linked through the slab's free list. */
module SlabAllocator {
  import opened Wrappers

  datatype Slab = Slab(free: seq<nat>, used: nat)

  // ---------------------------------------------------------------- addresses

  /** Sizes of a page, of the slab's header and of a node. */
  datatype Layout = Layout(page: nat, header: nat, node: nat) {
    predicate Valid() {
      0 < header && 0 < node && header + node <= page
    }

    function Capacity(): (n: nat)
      requires Valid()
    {
      (page - header) / node
    }

    function Slot(base: nat, k: nat): (a: nat)
      requires Valid()
    {
      DivExact(page - header, node);
      assert 0 <= k * node;
      base + (page - Capacity() * node) + k * node
    }

    /** `node_to_slab` */
    function PageOf(a: nat): (base: nat)
      requires Valid()
    {
      a - a % page
    }
  }

  lemma {:induction false} MulLess(j: nat, k: nat, z: nat)
    requires j < k
    ensures j * z + z <= k * z
  {
    assert (k - 1) * z + z == k * z;
    if j < k - 1 {
      MulLess(j, k - 1, z);
    }
  }

  lemma DivExact(a: nat, p: nat)
    requires p > 0
    ensures a == (a / p) * p + a % p
  {
  }

  lemma ModOffset(base: nat, r: nat, p: nat)
    requires 0 <= r < p && base % p == 0
    ensures (base + r) % p == r
  {
    var q, q' := base / p, (base + r) / p;
    DivExact(base, p);
    DivExact(base + r, p);
    if q' < q {
      MulLess(q', q, p);
    } else if q < q' {
      MulLess(q, q', p);
    }
  }

  lemma PagesApart(a: nat, b: nat, p: nat)
    requires p > 0 && a % p == 0 && b % p == 0 && a < b
    ensures a + p <= b
  {
    DivExact(a, p);
    DivExact(b, p);
    if a / p < b / p {
      MulLess(a / p, b / p, p);
    } else if b / p < a / p {
      MulLess(b / p, a / p, p);
    }
  }

  /** A slot lies behind the header and ends within the page. */
  lemma SlotInside(l: Layout, base: nat, k: nat)
    requires l.Valid() && k < l.Capacity()
    ensures base + l.header <= l.Slot(base, k) && l.Slot(base, k) + l.node <= base + l.page
  {
    DivExact(l.page - l.header, l.node);
    MulLess(k, l.Capacity(), l.node);
    assert 0 <= k * l.node;
  }

  lemma HasRoom(l: Layout)
    requires l.Valid()
    ensures l.Capacity() > 0
  {
    DivExact(l.page - l.header, l.node);
  }

  /** The slots follow each other to the end of the page, and no other would fit behind the header. */
  lemma PageIsFilled(l: Layout, base: nat, k: nat)
    requires l.Valid()
    ensures l.Slot(base, l.Capacity()) == base + l.page && l.Slot(base, k + 1) == l.Slot(base, k) + l.node
    ensures base + l.header <= l.Slot(base, 0) < base + l.header + l.node
  {
    DivExact(l.page - l.header, l.node);
    assert (k + 1) * l.node == k * l.node + l.node;
  }

  /** The page of a slot is the slab it was cut from. */
  lemma SlotOwner(l: Layout, base: nat, k: nat)
    requires l.Valid() && k < l.Capacity() && base % l.page == 0
    ensures l.PageOf(l.Slot(base, k)) == base
  {
    SlotInside(l, base, k);
    ModOffset(base, l.Slot(base, k) - base, l.page);
  }

  ghost predicate Disjoint(l: Layout, a: nat, b: nat) {
    a + l.node <= b || b + l.node <= a
  }

  /** Different slots do not overlap. */
  lemma SlotsApart(l: Layout, base: nat, k: nat, base': nat, k': nat)
    requires l.Valid() && k < l.Capacity() && k' < l.Capacity() && base % l.page == 0 && base' % l.page == 0
    requires base != base' || k != k'
    ensures Disjoint(l, l.Slot(base, k), l.Slot(base', k'))
  {
    SlotInside(l, base, k);
    SlotInside(l, base', k');
    if base < base' {
      PagesApart(base, base', l.page);
    } else if base' < base {
      PagesApart(base', base, l.page);
    } else if k < k' {
      MulLess(k, k', l.node);
    } else {
      MulLess(k', k, l.node);
    }
  }

  // ---------------------------------------------------------------- a slab and its nodes

  ghost function FirstSlots(l: Layout, base: nat, n: nat): (r: set<nat>)
    requires l.Valid()
  {
    set k | 0 <= k < n :: l.Slot(base, k)
  }

  ghost function Slots(l: Layout, base: nat): (r: set<nat>)
    requires l.Valid()
  {
    FirstSlots(l, base, l.Capacity())
  }

  /** `home` maps each live node to the slab it was taken from. */
  ghost function LiveIn(home: map<nat, nat>, base: nat): (r: set<nat>) {
    set a | a in home && home[a] == base
  }

  ghost function Elements(s: seq<nat>): (r: set<nat>) {
    set a | a in s
  }

  predicate Distinct(s: seq<nat>) {
    forall i, j :: 0 <= i < j < |s| ==> s[i] != s[j]
  }

  /** Every slot of the slab is free or live, never both, and `used` counts the live ones. */
  ghost predicate SlabOk(slots: set<nat>, live: set<nat>, slab: Slab) {
    && Distinct(slab.free) && Elements(slab.free) !! live && Elements(slab.free) + live == slots
    && slab.used == |live|
  }

  lemma SlotsOwned(l: Layout, base: nat, a: nat)
    requires l.Valid() && base % l.page == 0 && a in Slots(l, base)
    ensures l.PageOf(a) == base
  {
    var k :| 0 <= k < l.Capacity() && l.Slot(base, k) == a;
    SlotOwner(l, base, k);
  }

  lemma SlotsOfOne(l: Layout, base: nat, base': nat, a: nat)
    requires l.Valid() && base % l.page == 0 && base' % l.page == 0 && a in Slots(l, base) && a in Slots(l, base')
    ensures base == base'
  {
    SlotsOwned(l, base, a);
    SlotsOwned(l, base', a);
  }

  lemma {:induction false} ElementsCount(s: seq<nat>)
    requires Distinct(s)
    ensures |Elements(s)| == |s|
  {
    if s != [] {
      ElementsCount(s[1..]);
      assert Elements(s) == Elements(s[1..]) + {s[0]};
    }
  }

  lemma {:induction false} SlotsCount(l: Layout, base: nat, n: nat)
    requires l.Valid() && base % l.page == 0 && n <= l.Capacity()
    ensures |FirstSlots(l, base, n)| == n
  {
    if n > 0 {
      SlotsCount(l, base, n - 1);
      assert FirstSlots(l, base, n) == FirstSlots(l, base, n - 1) + {l.Slot(base, n - 1)};
      forall k | 0 <= k < n - 1
        ensures l.Slot(base, k) != l.Slot(base, n - 1)
      {
        SlotsApart(l, base, k, base, n - 1);
      }
    }
  }

  /** `used` and the free list add up to the capacity of the slab. */
  lemma SlabIsConserved(l: Layout, base: nat, live: set<nat>, slab: Slab)
    requires l.Valid() && base % l.page == 0 && SlabOk(Slots(l, base), live, slab)
    ensures slab.used + |slab.free| == l.Capacity()
  {
    ElementsCount(slab.free);
    SlotsCount(l, base, l.Capacity());
  }

  /** Taking the first free node. */
  lemma Taken(slots: set<nat>, live: set<nat>, slab: Slab)
    requires SlabOk(slots, live, slab) && slab.free != []
    ensures slab.free[0] in slots && slab.free[0] !in live
    ensures SlabOk(slots, live + {slab.free[0]}, Slab(slab.free[1..], slab.used + 1))
  {
    TailElements(slab.free);
    assert |live + {slab.free[0]}| == |live| + 1;
  }

  lemma TailElements(s: seq<nat>)
    requires s != [] && Distinct(s)
    ensures Distinct(s[1..]) && s[0] !in Elements(s[1..]) && Elements(s) == Elements(s[1..]) + {s[0]}
  {
  }

  /** Giving a node back. */
  lemma GivenBack(slots: set<nat>, live: set<nat>, slab: Slab, a: nat)
    requires SlabOk(slots, live, slab) && a in live
    ensures slab.used > 0 && SlabOk(slots, live - {a}, Slab([a] + slab.free, slab.used - 1))
  {
    assert a !in Elements(slab.free);
    assert Elements([a] + slab.free) == Elements(slab.free) + {a};
  }

  // ---------------------------------------------------------------- the allocator

  function Without(s: seq<nat>, x: nat): (r: seq<nat>) {
    if s == [] then [] else (if s[0] == x then [] else [s[0]]) + Without(s[1..], x)
  }

  lemma {:induction false} WithoutKeeps(s: seq<nat>, x: nat)
    requires Distinct(s)
    ensures Distinct(Without(s, x)) && forall y :: y in Without(s, x) <==> y in s && y != x
  {
    if s != [] {
      WithoutKeeps(s[1..], x);
      assert s[0] !in s[1..];
      assert forall y :: y in s <==> y == s[0] || y in s[1..];
    }
  }

  lemma {:induction false} WithoutAbsent(s: seq<nat>, x: nat)
    requires x !in s
    ensures Without(s, x) == s
  {
    if s != [] {
      WithoutAbsent(s[1..], x);
      assert [s[0]] + s[1..] == s;
    }
  }

  /** `list_del`: the element goes and the others keep their order. */
  lemma {:induction false} WithoutDeletes(s: seq<nat>, i: nat)
    requires Distinct(s) && i < |s|
    ensures Without(s, s[i]) == s[..i] + s[i + 1..]
  {
    var rest := s[1..];
    if i == 0 {
      WithoutAbsent(rest, s[0]);
    } else {
      WithoutDeletes(rest, i - 1);
      assert rest[i - 1] == s[i] && s[..i] == [s[0]] + rest[..i - 1] && s[i + 1..] == rest[i..];
      assert [s[0]] + (rest[..i - 1] + rest[i..]) == [s[0]] + rest[..i - 1] + rest[i..];
    }
  }

  /** On the partial list if and only if something is free, else on the full list. */
  ghost predicate Listed(slabs: map<nat, Slab>, partial: seq<nat>, full: seq<nat>) {
    && Distinct(partial) && Distinct(full)
    && (forall b :: b in partial <==> b in slabs && slabs[b].free != [])
    && (forall b :: b in full <==> b in slabs && slabs[b].free == [])
  }

  ghost predicate SoundAt(l: Layout, slabs: map<nat, Slab>, home: map<nat, nat>, b: nat)
    requires l.Valid() && b in slabs
  {
    SlabOk(Slots(l, b), LiveIn(home, b), slabs[b])
  }

  ghost predicate Aligned(l: Layout, pages: set<nat>) {
    l.Valid() && forall b :: b in pages ==> b % l.page == 0
  }

  ghost predicate Sound(l: Layout, slabs: map<nat, Slab>, home: map<nat, nat>) {
    && l.Valid()
    && (forall b {:trigger SoundAt(l, slabs, home, b)} :: b in slabs ==> SoundAt(l, slabs, home, b))
    && (forall a :: a in home ==> home[a] in slabs)
  }

  /** Empty slabs are unmapped at once. */
  ghost predicate NoneEmpty(slabs: map<nat, Slab>) {
    forall b :: b in slabs ==> slabs[b].used > 0
  }

  /** A free node is not live on account of any other slab. */
  lemma FreeIsNobodys(l: Layout, slabs: map<nat, Slab>, home: map<nat, nat>, a: nat, b: nat)
    requires Sound(l, slabs, home) && Aligned(l, slabs.Keys) && b in slabs && a in slabs[b].free
    ensures a !in home
  {
    assert SoundAt(l, slabs, home, b) && a in Elements(slabs[b].free);
    if a in home {
      assert SoundAt(l, slabs, home, home[a]) && a in LiveIn(home, home[a]);
      SlotsOfOne(l, b, home[a], a);
    }
  }

  lemma LiveAdded(home: map<nat, nat>, a: nat, b: nat, c: nat)
    requires a !in home
    ensures LiveIn(home[a := b], c) == if c == b then LiveIn(home, c) + {a} else LiveIn(home, c)
  {
  }

  lemma LiveRemoved(home: map<nat, nat>, a: nat, c: nat)
    requires a in home
    ensures LiveIn(home - {a}, c) == if c == home[a] then LiveIn(home, c) - {a} else LiveIn(home, c)
  {
  }

  lemma SoundElsewhere(l: Layout, slabs: map<nat, Slab>, slabs': map<nat, Slab>, home: map<nat, nat>, home': map<nat, nat>, c: nat)
    requires l.Valid() && c in slabs && SoundAt(l, slabs, home, c)
    requires c in slabs' && slabs'[c] == slabs[c] && LiveIn(home', c) == LiveIn(home, c)
    ensures SoundAt(l, slabs', home', c)
  {
  }

  lemma TakenSound(l: Layout, slabs: map<nat, Slab>, home: map<nat, nat>, b: nat, a: nat, slab: Slab)
    requires Sound(l, slabs, home) && b in slabs && a !in home
    requires SlabOk(Slots(l, b), LiveIn(home, b) + {a}, slab)
    ensures Sound(l, slabs[b := slab], home[a := b])
  {
    var slabs', home' := slabs[b := slab], home[a := b];
    forall c | c in slabs'
      ensures SoundAt(l, slabs', home', c)
    {
      LiveAdded(home, a, b, c);
      if c != b {
        assert SoundAt(l, slabs, home, c);
        SoundElsewhere(l, slabs, slabs', home, home', c);
      }
    }
  }

  lemma TakenListed(slabs: map<nat, Slab>, partial: seq<nat>, full: seq<nat>, rest: Slab)
    requires Listed(slabs, partial, full) && partial != [] && partial[0] in slabs
    ensures rest.free != [] ==> Listed(slabs[partial[0] := rest], partial, full)
    ensures rest.free == [] ==> Listed(slabs[partial[0] := rest], partial[1..], full + [partial[0]])
  {
    var b := partial[0];
    HeadIsIn(partial);
    assert partial == [b] + partial[1..];
    assert b !in full;
  }

  lemma FirstTaken(l: Layout, slabs: map<nat, Slab>, home: map<nat, nat>, b: nat)
    requires Sound(l, slabs, home) && Aligned(l, slabs.Keys) && b in slabs && slabs[b].free != []
    ensures var slab := slabs[b];
      slab.free[0] !in home && Sound(l, slabs[b := Slab(slab.free[1..], slab.used + 1)], home[slab.free[0] := b])
  {
    var slab := slabs[b];
    FreeIsNobodys(l, slabs, home, slab.free[0], b);
    assert SoundAt(l, slabs, home, b);
    Taken(Slots(l, b), LiveIn(home, b), slab);
    TakenSound(l, slabs, home, b, slab.free[0], Slab(slab.free[1..], slab.used + 1));
  }

  lemma TakenUsed(slabs: map<nat, Slab>, b: nat, rest: Slab)
    requires NoneEmpty(slabs - {b}) && rest.used > 0
    ensures NoneEmpty(slabs[b := rest])
  {
    assert forall c :: c in slabs && c != b ==> c in slabs - {b};
  }

  lemma FreedSound(l: Layout, slabs: map<nat, Slab>, home: map<nat, nat>, a: nat)
    requires Sound(l, slabs, home) && a in home
    ensures slabs[home[a]].used > 0
    ensures var slab := slabs[home[a]]; Sound(l, slabs[home[a] := Slab([a] + slab.free, slab.used - 1)], home - {a})
  {
    var b, slab := home[a], slabs[home[a]];
    assert SoundAt(l, slabs, home, b) && a in LiveIn(home, b);
    GivenBack(Slots(l, b), LiveIn(home, b), slab, a);
    var slabs', home' := slabs[b := Slab([a] + slab.free, slab.used - 1)], home - {a};
    forall c | c in slabs'
      ensures SoundAt(l, slabs', home', c)
    {
      LiveRemoved(home, a, c);
      if c != b {
        assert SoundAt(l, slabs, home, c);
        SoundElsewhere(l, slabs, slabs', home, home', c);
      }
    }
  }

  /** A page that has lost its last node can go. */
  lemma UnmappedSound(l: Layout, slabs: map<nat, Slab>, home: map<nat, nat>, b: nat)
    requires Sound(l, slabs, home) && b in slabs && slabs[b].used == 0
    ensures Sound(l, slabs - {b}, home)
  {
    assert SoundAt(l, slabs, home, b);
    forall a | a in home
      ensures home[a] != b
    {
      assert home[a] == b ==> a in LiveIn(home, b);
    }
    forall c | c in slabs - {b}
      ensures SoundAt(l, slabs - {b}, home, c)
    {
      assert SoundAt(l, slabs, home, c);
    }
  }

  lemma NodeToSlab(l: Layout, slabs: map<nat, Slab>, home: map<nat, nat>, a: nat)
    requires Sound(l, slabs, home) && Aligned(l, slabs.Keys) && a in home
    ensures l.PageOf(a) == home[a]
  {
    assert SoundAt(l, slabs, home, home[a]) && a in LiveIn(home, home[a]);
    SlotsOwned(l, home[a], a);
  }

  /** The node is the first free one of the first partial slab, which goes to the end of the full ones with
      its last node. */
  ghost predicate Takes(slabs: map<nat, Slab>, partial: seq<nat>, full: seq<nat>,
                        slabs': map<nat, Slab>, partial': seq<nat>, full': seq<nat>, a: nat) {
    && partial != [] && partial[0] in slabs && slabs[partial[0]].free != []
    && var b := partial[0]; var slab := slabs[b];
       && a == slab.free[0] && slabs' == slabs[b := Slab(slab.free[1..], slab.used + 1)]
       && if |slab.free| == 1 then partial' == partial[1..] && full' == full + [b] else partial' == partial && full' == full
  }

  /** The node is the next to be taken from its slab; a full slab goes to the end of the partial ones, and a
      slab without nodes goes altogether. */
  ghost predicate GivesBack(slabs: map<nat, Slab>, partial: seq<nat>, full: seq<nat>,
                            slabs': map<nat, Slab>, partial': seq<nat>, full': seq<nat>, b: nat, a: nat) {
    && b in slabs && slabs[b].used > 0
    && var slab := slabs[b];
       if slab.used == 1 then slabs' == slabs - {b} && partial' == Without(partial, b) && full' == Without(full, b)
       else
         && slabs' == slabs[b := Slab([a] + slab.free, slab.used - 1)]
         && if slab.free == [] then partial' == partial + [b] && full' == Without(full, b) else partial' == partial && full' == full
  }

  lemma UnmappedListed(slabs: map<nat, Slab>, partial: seq<nat>, full: seq<nat>, b: nat)
    requires Listed(slabs, partial, full)
    ensures Listed(slabs - {b}, Without(partial, b), Without(full, b))
  {
    WithoutKeeps(partial, b);
    WithoutKeeps(full, b);
  }

  lemma RelistedListed(slabs: map<nat, Slab>, partial: seq<nat>, full: seq<nat>, b: nat, rest: Slab)
    requires Listed(slabs, partial, full) && b in slabs && slabs[b].free == [] && rest.free != []
    ensures Listed(slabs[b := rest], partial + [b], Without(full, b))
  {
    WithoutKeeps(full, b);
    assert b !in partial;
  }

  lemma StillListed(slabs: map<nat, Slab>, partial: seq<nat>, full: seq<nat>, b: nat, rest: Slab)
    requires Listed(slabs, partial, full) && b in slabs && slabs[b].free != [] && rest.free != []
    ensures Listed(slabs[b := rest], partial, full)
  {
  }

  class NodeSlabs {
    const layout: Layout
    var slabs: map<nat, Slab>
    var partial: seq<nat>
    var full: seq<nat>
    ghost var home: map<nat, nat>

    constructor (layout: Layout)
      requires layout.Valid()
      ensures Valid() && home == map[] && this.layout == layout
    {
      this.layout := layout;
      slabs, partial, full, home := map[], [], [], map[];
    }

    ghost predicate Valid()
      reads this
    {
      Sound(layout, slabs, home) && Aligned(layout, slabs.Keys) && Listed(slabs, partial, full) && NoneEmpty(slabs)
    }

    /** The nodes of a new page, in order. */
    method CutPage(base: nat) returns (free: seq<nat>)
      requires layout.Valid()
      ensures |free| == layout.Capacity() && forall k :: 0 <= k < |free| ==> free[k] == layout.Slot(base, k)
    {
      free := [];
      for i := 0 to layout.Capacity()
        invariant |free| == i && forall k :: 0 <= k < i ==> free[k] == layout.Slot(base, k)
      {
        free := free + [layout.Slot(base, i)];
      }
    }

    /** `alloc_slab`, for a page that `mmap` has found. */
    method AllocSlab(base: nat)
      requires Sound(layout, slabs, home) && Aligned(layout, slabs.Keys) && Listed(slabs, partial, full)
      requires base % layout.page == 0 && base !in slabs
      modifies this`slabs, this`partial
      ensures Sound(layout, slabs, home) && Aligned(layout, slabs.Keys) && Listed(slabs, partial, full)
      ensures slabs.Keys == old(slabs).Keys + {base} && forall b :: b in old(slabs) ==> slabs[b] == old(slabs)[b]
      ensures slabs[base].used == 0 && |slabs[base].free| == layout.Capacity() > 0 && partial == old(partial) + [base]
      ensures forall k :: 0 <= k < layout.Capacity() ==> slabs[base].free[k] == layout.Slot(base, k)
    {
      HasRoom(layout);
      var free := CutPage(base);
      FreshSlab(layout, base, free);
      FreshSound(layout, slabs, home, base, free);
      slabs := slabs[base := Slab(free, 0)];
      partial := partial + [base];
    }

    method Update(slabs': map<nat, Slab>, partial': seq<nat>, full': seq<nat>, ghost home': map<nat, nat>)
      requires Sound(layout, slabs', home') && Aligned(layout, slabs'.Keys) && Listed(slabs', partial', full') && NoneEmpty(slabs')
      modifies this
      ensures Valid() && slabs == slabs' && partial == partial' && full == full' && home == home'
    {
      slabs, partial, full, home := slabs', partial', full', home';
    }

    /** The first free node of the first partial slab. */
    method TakeNode() returns (a: nat)
      requires Sound(layout, slabs, home) && Aligned(layout, slabs.Keys) && Listed(slabs, partial, full) && partial != []
      requires NoneEmpty(slabs - {partial[0]})
      modifies this
      ensures Valid() && a !in old(home)
      ensures Takes(old(slabs), old(partial), old(full), slabs, partial, full, a) && home == old(home)[a := old(partial)[0]]
    {
      HeadIsIn(partial);
      var b := partial[0];
      FirstTaken(layout, slabs, home, b);
      var slab := slabs[b];
      a := slab.free[0];
      var rest := Slab(slab.free[1..], slab.used + 1);
      TakenListed(slabs, partial, full, rest);
      TakenUsed(slabs, b, rest);
      if rest.free == [] {
        Update(slabs[b := rest], partial[1..], full + [b], home[a := b]);
      } else {
        Update(slabs[b := rest], partial, full, home[a := b]);
      }
    }

    /** `alloc_node`; `mem` is the page that `mmap` would find. */
    method AllocNode(mem: Option<nat>) returns (r: Option<nat>)
      requires Valid() && (mem.Some? ==> mem.value % layout.page == 0 && mem.value !in slabs)
      modifies this
      ensures Valid()
      ensures r.None? <==> old(partial) == [] && mem.None?
      ensures r.None? ==> home == old(home)
      ensures r.Some? ==> r.value !in old(home) && r.value in home && home == old(home)[r.value := home[r.value]]
      ensures r.Some? && old(partial) != [] ==>
                Takes(old(slabs), old(partial), old(full), slabs, partial, full, r.value)
      ensures r.Some? && old(partial) == [] ==>
                && r.value == layout.Slot(mem.value, 0) && home[r.value] == mem.value
                && mem.value in slabs && slabs[mem.value].used == 1 && slabs == old(slabs)[mem.value := slabs[mem.value]]
    {
      if partial == [] {
        if mem.None? {
          return None;
        }
        AllocSlab(mem.value);
      }
      var a := TakeNode();
      return Some(a);
    }

    /** `free_node_mem` and `free_slab` */
    method FreeNodeMem(a: nat)
      requires Valid() && a in home
      modifies this
      ensures Valid() && home == old(home) - {a}
      ensures GivesBack(old(slabs), old(partial), old(full), slabs, partial, full, old(home)[a], a)
    {
      var b := layout.PageOf(a);
      NodeToSlab(layout, slabs, home, a);
      FreedSound(layout, slabs, home, a);
      var slab := slabs[b];
      var rest := Slab([a] + slab.free, slab.used - 1);
      if slab.used - 1 != 0 {
        if slab.free == [] {
          RelistedListed(slabs, partial, full, b, rest);
          Update(slabs[b := rest], partial + [b], Without(full, b), home - {a});
        } else {
          StillListed(slabs, partial, full, b, rest);
          Update(slabs[b := rest], partial, full, home - {a});
        }
      } else {
        UnmappedListed(slabs, partial, full, b);
        UnmappedSound(layout, slabs[b := rest], home - {a}, b);
        assert slabs[b := rest] - {b} == slabs - {b};
        Update(slabs - {b}, Without(partial, b), Without(full, b), home - {a});
      }
    }

    /** The end of `fuse_destroy`: with all nodes freed, the two assertions hold. */
    method Destroy(nodes: set<nat>)
      requires Valid() && nodes == home.Keys
      modifies this
      ensures partial == [] && full == [] && slabs == map[]
    {
      var rest := nodes;
      while rest != {}
        invariant Valid() && rest == home.Keys
        decreases |rest|
      {
        var a :| a in rest;
        FreeNodeMem(a);
        rest := rest - {a};
      }
      NothingLeft(layout, slabs, home, partial, full);
    }
  }

  lemma NothingLeft(l: Layout, slabs: map<nat, Slab>, home: map<nat, nat>, partial: seq<nat>, full: seq<nat>)
    requires Sound(l, slabs, home) && Listed(slabs, partial, full) && NoneEmpty(slabs) && home == map[]
    ensures partial == [] && full == [] && slabs == map[]
  {
    forall b
      ensures b !in slabs
    {
      assert LiveIn(home, b) == {};
      assert b in slabs ==> SoundAt(l, slabs, home, b);
    }
    HeadIsIn(partial);
    HeadIsIn(full);
  }

  lemma HeadIsIn(s: seq<nat>)
    ensures s != [] ==> s[0] in s
  {
  }

  /** Live nodes never overlap. */
  lemma LiveAreApart(l: Layout, slabs: map<nat, Slab>, home: map<nat, nat>, a: nat, a': nat)
    requires Sound(l, slabs, home) && Aligned(l, slabs.Keys) && a in home && a' in home && a != a'
    ensures Disjoint(l, a, a')
  {
    var b, b' := home[a], home[a'];
    assert SoundAt(l, slabs, home, b) && SoundAt(l, slabs, home, b');
    assert a in LiveIn(home, b) && a' in LiveIn(home, b');
    var k :| 0 <= k < l.Capacity() && l.Slot(b, k) == a;
    var k' :| 0 <= k' < l.Capacity() && l.Slot(b', k') == a';
    SlotsApart(l, b, k, b', k');
  }

  lemma FreshSound(l: Layout, slabs: map<nat, Slab>, home: map<nat, nat>, base: nat, free: seq<nat>)
    requires Sound(l, slabs, home) && base !in slabs && SlabOk(Slots(l, base), {}, Slab(free, 0))
    ensures Sound(l, slabs[base := Slab(free, 0)], home)
  {
    assert LiveIn(home, base) == {};
    forall b | b in slabs && b != base
      ensures SoundAt(l, slabs[base := Slab(free, 0)], home, b)
    {
      assert SoundAt(l, slabs, home, b);
    }
  }

  lemma FreshSlab(l: Layout, base: nat, free: seq<nat>)
    requires l.Valid() && base % l.page == 0 && |free| == l.Capacity()
    requires forall k :: 0 <= k < |free| ==> free[k] == l.Slot(base, k)
    ensures SlabOk(Slots(l, base), {}, Slab(free, 0))
  {
    forall i, j | 0 <= i < j < |free|
      ensures free[i] != free[j]
    {
      SlotsApart(l, base, i, base, j);
    }
    forall a
      ensures a in free <==> a in Slots(l, base)
    {
      if a in Slots(l, base) {
        var k :| 0 <= k < l.Capacity() && l.Slot(base, k) == a;
        assert free[k] == a;
      }
    }
  }
}
