/** The node tables of fuse.c: hash tables that grow and shrink one bucket at a time.

    The id table (key: node id) and the name table (key: parent id and name) run the same
    code, so the table is generic in its key.  The hash is an arbitrary function of the key. */
module LinearHash {
  import opened Wrappers

  const NODE_TABLE_MIN_SIZE: nat := 8192

  datatype Entry<K, V> = Entry(key: K, value: V)

  /** 8192 times a power of two. */
  predicate TableSize(n: nat) {
    n == NODE_TABLE_MIN_SIZE || (n > NODE_TABLE_MIN_SIZE && n % 2 == 0 && TableSize(n / 2))
  }

  /** The bucket a hash value selects while buckets below `split` have been divided. */
  function Slot(h: nat, size: nat, split: nat): (b: nat)
    requires TableSize(size)
  {
    TableSizeIsEven(size);
    var hash := h % size;
    var oldhash := hash % (size / 2);
    if oldhash >= split then oldhash else hash
  }

  lemma {:induction false} TableSizeIsEven(n: nat)
    requires TableSize(n)
    ensures NODE_TABLE_MIN_SIZE <= n && n % 2 == 0
  {
  }

  predicate DistinctKeys<K(==), V>(s: seq<Entry<K, V>>) {
    forall i, j :: 0 <= i < j < |s| ==> s[i].key != s[j].key
  }

  // ---------------------------------------------------------------- arithmetic of slots

  lemma Distributes(a: int, b: int, n: int)
    ensures (a - b) * n == a * n - b * n
  {
  }

  lemma AtLeastOnce(d: int, n: nat)
    requires d >= 1
    ensures d * n >= n
  {
    assert (d - 1) * n >= 0;
    Distributes(d, 1, n);
  }

  lemma RestIsUnique(n: nat, q: int, r: nat, q': int, r': nat)
    requires r < n && r' < n && q * n + r == q' * n + r'
    ensures r == r'
  {
    if q < q' {
      Distributes(q', q, n);
      AtLeastOnce(q' - q, n);
    } else if q > q' {
      Distributes(q, q', n);
      AtLeastOnce(q - q', n);
    }
  }

  lemma ModIs(x: nat, n: nat, q: int, r: nat)
    requires r < n && x == q * n + r
    ensures x % n == r
  {
    assert x == (x / n) * n + x % n;
    RestIsUnique(n, q, r, x / n, x % n);
  }

  lemma ModOfDouble(h: nat, n: nat)
    requires n > 0
    ensures (h % (2 * n)) % n == h % n
  {
    var x, q := h % (2 * n), h / (2 * n);
    var y := x / n;
    assert h == q * (2 * n) + x && x == y * n + x % n;
    assert h == (2 * q + y) * n + x % n by {
      assert (2 * q + y) * n == 2 * q * n + y * n;
      assert q * (2 * n) == 2 * q * n;
    }
    ModIs(h, n, 2 * q + y, x % n);
  }

  lemma ModBelowDouble(x: nat, n: nat)
    requires 0 < n && x < 2 * n
    ensures x % n == if x < n then x else x - n
  {
    if x < n {
      ModIs(x, n, 0, x);
    } else {
      ModIs(x, n, 1, x - n);
    }
  }

  /** The slot is the rest of the hash: by half the size, or by the whole size where that bucket has been
      divided already. */
  lemma SlotIsRest(h: nat, size: nat, split: nat)
    requires TableSize(size) && split <= size / 2
    ensures Slot(h, size, split) == if h % (size / 2) < split then h % size else h % (size / 2)
  {
    TableSizeIsEven(size);
    assert 2 * (size / 2) == size;
    ModOfDouble(h, size / 2);
  }

  /** Only active buckets are ever selected. */
  lemma SlotIsActive(h: nat, size: nat, split: nat)
    requires TableSize(size) && split <= size / 2
    ensures Slot(h, size, split) < size / 2 + split
    ensures Slot(h, size, split) < size
  {
    TableSizeIsEven(size);
    ModBelowDouble(h % size, size / 2);
  }

  /** Dividing bucket `split` sends its entries there or to the matching upper bucket, and no
      other hash value changes its bucket. */
  lemma SlotAfterSplit(h: nat, size: nat, split: nat)
    requires TableSize(size) && split < size / 2
    ensures Slot(h, size, split) != split ==> Slot(h, size, split + 1) == Slot(h, size, split)
    ensures Slot(h, size, split) == split ==> Slot(h, size, split + 1) in {split, split + size / 2}
  {
    TableSizeIsEven(size);
    ModBelowDouble(h % size, size / 2);
  }

  /** A fully divided table and an undivided one of twice the size select the same buckets. */
  lemma SlotAfterDoubling(h: nat, size: nat)
    requires TableSize(size)
    ensures TableSize(2 * size)
    ensures Slot(h, 2 * size, 0) == Slot(h, size, size / 2)
  {
    TableSizeIsEven(size);
    assert 2 * size / 2 == size;
    ModOfDouble(h, size);
    ModBelowDouble(h % size, size / 2);
  }

  /** `id_hash` and `name_hash`: the bucket of a key in a table of the given size and split. */
  function SlotFn<K>(hash: K -> nat): (slot: (K, nat, nat) -> nat) {
    (k, size, split) => if TableSize(size) then Slot(hash(k), size, split) else 0
  }

  /** What growing and shrinking one bucket at a time needs of a slot function. */
  ghost predicate SlotLaw<K>(slot: (K, nat, nat) -> nat, k: K, size: nat, split: nat) {
    TableSize(size) && split <= size / 2 ==>
      && slot(k, size, split) < size / 2 + split
      && (split < size / 2 ==>
            if slot(k, size, split) == split then slot(k, size, split + 1) in {split, split + size / 2}
            else slot(k, size, split + 1) == slot(k, size, split))
      && slot(k, 2 * size, 0) == slot(k, size, size / 2)
  }

  ghost predicate SlotLaws<K(!new)>(slot: (K, nat, nat) -> nat) {
    forall k, size, split :: SlotLaw(slot, k, size, split)
  }

  lemma SlotFnLaws<K(!new)>(hash: K -> nat)
    ensures SlotLaws(SlotFn(hash))
  {
    forall k, size: nat, split: nat
      ensures SlotLaw(SlotFn(hash), k, size, split)
    {
      if TableSize(size) && split <= size / 2 {
        SlotIsActive(hash(k), size, split);
        if split < size / 2 {
          SlotAfterSplit(hash(k), size, split);
        }
        SlotAfterDoubling(hash(k), size);
      }
    }
  }

  // ---------------------------------------------------------------- dividing one chain

  function Kept<K, V>(c: seq<Entry<K, V>>, stays: K -> bool): (r: seq<Entry<K, V>>) {
    if c == [] then []
    else Kept(c[..|c| - 1], stays) + (if stays(c[|c| - 1].key) then [c[|c| - 1]] else [])
  }

  function Moved<K, V>(c: seq<Entry<K, V>>, stays: K -> bool): (r: seq<Entry<K, V>>) {
    if c == [] then []
    else (if stays(c[|c| - 1].key) then [] else [c[|c| - 1]]) + Moved(c[..|c| - 1], stays)
  }

  lemma {:induction false} InKept<K, V>(c: seq<Entry<K, V>>, stays: K -> bool, e: Entry<K, V>)
    ensures e in Kept(c, stays) <==> e in c && stays(e.key)
  {
    if c != [] {
      InKept(c[..|c| - 1], stays, e);
      assert c == c[..|c| - 1] + [c[|c| - 1]];
    }
  }

  lemma {:induction false} InMoved<K, V>(c: seq<Entry<K, V>>, stays: K -> bool, e: Entry<K, V>)
    ensures e in Moved(c, stays) <==> e in c && !stays(e.key)
  {
    if c != [] {
      InMoved(c[..|c| - 1], stays, e);
      assert c == c[..|c| - 1] + [c[|c| - 1]];
    }
  }

  lemma {:induction false} DivideDistinct<K, V>(c: seq<Entry<K, V>>, stays: K -> bool)
    requires DistinctKeys(c)
    ensures DistinctKeys(Kept(c, stays)) && DistinctKeys(Moved(c, stays))
  {
    if c != [] {
      var d, x := c[..|c| - 1], c[|c| - 1];
      DivideDistinct(d, stays);
      forall e | e in d
        ensures e.key != x.key
      {
        var i :| 0 <= i < |d| && d[i] == e;
        assert c[i] == e;
      }
      forall i | 0 <= i < |Kept(d, stays)| ensures Kept(d, stays)[i].key != x.key {
        InKept(d, stays, Kept(d, stays)[i]);
      }
      forall i | 0 <= i < |Moved(d, stays)| ensures Moved(d, stays)[i].key != x.key {
        InMoved(d, stays, Moved(d, stays)[i]);
      }
    }
  }

  /** One round of dividing a chain whose first `m` entries have been dealt with. */
  lemma DivideStep<K, V>(chain: seq<Entry<K, V>>, m: nat, stays: K -> bool, low: seq<Entry<K, V>>, up: seq<Entry<K, V>>)
    requires m < |chain|
    requires low == Kept(chain[..m], stays) + chain[m..] && up == Moved(chain[..m], stays)
    ensures var i := |Kept(chain[..m], stays)|;
      && low[i] == chain[m]
      && (if stays(chain[m].key)
          then low == Kept(chain[..m + 1], stays) + chain[m + 1..] && |Kept(chain[..m + 1], stays)| == i + 1 &&
               up == Moved(chain[..m + 1], stays)
          else low[..i] + low[i + 1..] == Kept(chain[..m + 1], stays) + chain[m + 1..] &&
               |Kept(chain[..m + 1], stays)| == i && [chain[m]] + up == Moved(chain[..m + 1], stays))
  {
    assert chain[..m + 1][..m] == chain[..m] && chain[m..] == [chain[m]] + chain[m + 1..];
    assert [] + up == up;
  }

  lemma DistinctConcat<K, V>(p: seq<Entry<K, V>>, q: seq<Entry<K, V>>)
    requires DistinctKeys(p) && DistinctKeys(q)
    requires forall e, e' :: e in p && e' in q ==> e.key != e'.key
    ensures DistinctKeys(p + q)
  {
    var r := p + q;
    forall i, j | 0 <= i < j < |r|
      ensures r[i].key != r[j].key
    {
      if i < |p| <= j {
        assert p[i] in p && q[j - |p|] in q;
      }
    }
  }

  // ---------------------------------------------------------------- entries in their buckets

  /** Every entry sits, once, in the bucket that `at` selects for its key. */
  ghost predicate Placed<K(!new), V>(buckets: seq<seq<Entry<K, V>>>, contents: map<K, V>, at: K -> nat) {
    && (forall k :: at(k) < |buckets|)
    && (forall k :: k in contents ==> Entry(k, contents[k]) in buckets[at(k)])
    && (forall b, e {:trigger e in buckets[b]} :: 0 <= b < |buckets| && e in buckets[b] ==>
          e.key in contents && contents[e.key] == e.value && at(e.key) == b)
    && (forall b :: 0 <= b < |buckets| ==> DistinctKeys(buckets[b]))
  }

  lemma PlacedInsert<K(!new), V>(buckets: seq<seq<Entry<K, V>>>, contents: map<K, V>, at: K -> nat, k: K, v: V)
    requires Placed(buckets, contents, at) && k !in contents
    ensures Placed(buckets[at(k) := [Entry(k, v)] + buckets[at(k)]], contents[k := v], at)
    ensures |contents[k := v]| == |contents| + 1
  {
    var b, e := at(k), Entry(k, v);
    var r := buckets[b := [e] + buckets[b]];
    assert forall c, x :: 0 <= c < |r| ==> (x in r[c] <==> x in buckets[c] || (c == b && x == e));
    DistinctConcat([e], buckets[b]);
  }

  lemma WithoutIndex<K, V>(c: seq<Entry<K, V>>, i: nat)
    requires DistinctKeys(c) && i < |c|
    ensures forall x :: x in c[..i] + c[i + 1..] <==> x in c && x.key != c[i].key
    ensures DistinctKeys(c[..i] + c[i + 1..])
  {
    var r := c[..i] + c[i + 1..];
    forall x | x in c && x.key != c[i].key
      ensures x in r
    {
      var j :| 0 <= j < |c| && c[j] == x;
      assert if j < i then r[j] == x else r[j - 1] == x;
    }
  }

  lemma PlacedRemove<K(!new), V>(buckets: seq<seq<Entry<K, V>>>, contents: map<K, V>, at: K -> nat, b: nat, i: nat)
    requires Placed(buckets, contents, at) && b < |buckets| && i < |buckets[b]|
    ensures buckets[b][i].key in contents && contents[buckets[b][i].key] == buckets[b][i].value
    ensures Placed(buckets[b := buckets[b][..i] + buckets[b][i + 1..]], contents - {buckets[b][i].key}, at)
    ensures |contents - {buckets[b][i].key}| == |contents| - 1
  {
    var c, e := buckets[b], buckets[b][i];
    assert e in c;
    WithoutIndex(c, i);
    assert contents.Keys == (contents - {e.key}).Keys + {e.key};
  }

  /** Dividing bucket `lo` between itself and the empty bucket `hi`. */
  lemma PlacedSplit<K(!new), V>(buckets: seq<seq<Entry<K, V>>>, contents: map<K, V>, at: K -> nat, at': K -> nat,
                                lo: nat, hi: nat, stays: K -> bool)
    requires Placed(buckets, contents, at) && lo < |buckets| && hi < |buckets| && lo != hi && buckets[hi] == []
    requires forall k :: at(k) != hi
    requires forall k :: if at(k) == lo then at'(k) == (if stays(k) then lo else hi) else at'(k) == at(k)
    ensures Placed(buckets[lo := Kept(buckets[lo], stays)][hi := Moved(buckets[lo], stays)], contents, at')
  {
    DivideDistinct(buckets[lo], stays);
    var r := buckets[lo := Kept(buckets[lo], stays)][hi := Moved(buckets[lo], stays)];
    forall k | k in contents
      ensures Entry(k, contents[k]) in r[at'(k)]
    {
      InKept(buckets[lo], stays, Entry(k, contents[k]));
      InMoved(buckets[lo], stays, Entry(k, contents[k]));
    }
    forall b, e: Entry<K, V> | 0 <= b < |r| && e in r[b]
      ensures e.key in contents && contents[e.key] == e.value && at'(e.key) == b
    {
      InKept(buckets[lo], stays, e);
      InMoved(buckets[lo], stays, e);
    }
  }

  /** Folding bucket `hi` back onto bucket `lo`. */
  lemma PlacedMerge<K(!new), V>(buckets: seq<seq<Entry<K, V>>>, contents: map<K, V>, at: K -> nat, at': K -> nat,
                                lo: nat, hi: nat)
    requires Placed(buckets, contents, at) && lo < |buckets| && hi < |buckets| && lo != hi
    requires forall k :: at'(k) == if at(k) == hi then lo else at(k)
    ensures Placed(buckets[lo := buckets[lo] + buckets[hi]][hi := []], contents, at')
  {
    DistinctConcat(buckets[lo], buckets[hi]);
    var r := buckets[lo := buckets[lo] + buckets[hi]][hi := []];
    assert forall b, e :: 0 <= b < |r| && e in r[b] ==> e in buckets[b] || (b == lo && e in buckets[hi]);
  }

  /** Buckets that `at` never selects can be cut off or added. */
  lemma PlacedResize<K(!new), V>(buckets: seq<seq<Entry<K, V>>>, contents: map<K, V>, at: K -> nat, at': K -> nat,
                                 n: nat, r: seq<seq<Entry<K, V>>>)
    requires Placed(buckets, contents, at) && n <= |buckets| && n <= |r|
    requires forall k :: at'(k) == at(k) < n
    requires forall b :: 0 <= b < n ==> r[b] == buckets[b]
    requires forall b :: n <= b < |r| ==> r[b] == []
    ensures Placed(r, contents, at')
  {
  }

  lemma EntrySlot<K(!new), V>(buckets: seq<seq<Entry<K, V>>>, contents: map<K, V>, at: K -> nat, b: nat, i: nat)
    requires Placed(buckets, contents, at) && b < |buckets| && i < |buckets[b]|
    ensures at(buckets[b][i].key) == b
  {
    assert buckets[b][i] in buckets[b];
  }

  lemma UnselectedIsEmpty<K(!new), V>(buckets: seq<seq<Entry<K, V>>>, contents: map<K, V>, at: K -> nat, b: nat)
    requires Placed(buckets, contents, at) && b < |buckets| && forall k :: at(k) != b
    ensures buckets[b] == []
  {
    if |buckets[b]| > 0 {
      EntrySlot(buckets, contents, at, b, 0);
    }
  }

  // ---------------------------------------------------------------- the table

  /** Size and split after one more bucket has been divided, and the size doubled after the last. */
  function Grown(size: nat, split: nat, mem: bool): (r: (nat, nat)) {
    if split == size / 2 then (size, split)
    else if split + 1 == size / 2 && mem then (2 * size, 0)
    else (size, split + 1)
  }

  /** Size and split before buckets are folded back: half the table goes when nothing is left to fold. */
  function Reduced(size: nat, split: nat): (r: (nat, nat)) {
    if split == 0 && size / 2 >= NODE_TABLE_MIN_SIZE then (size / 2, size / 2 / 2) else (size, split)
  }

  /** At least one bucket has been folded back if there was one, and at most eight; the first that was not
      empty was the last to be folded, and otherwise all eight were, or all there were. */
  ghost predicate FoldedTo<T>(buckets: seq<seq<T>>, size: nat, split: nat, split': nat) {
    && split' <= split <= split' + 8 && split <= size / 2 && size <= |buckets| && (split > 0 ==> split' < split)
    && (forall b :: split' + size / 2 < b < split + size / 2 ==> buckets[b] == [])
    && (0 < split' < split < split' + 8 ==> buckets[split' + size / 2] != [])
  }

  ghost predicate Remerged<T>(buckets: seq<seq<T>>, size: nat, split: nat, size': nat, split': nat) {
    size' == Reduced(size, split).0 && FoldedTo(buckets, size', Reduced(size, split).1, split')
  }

  function Found<K(==), V>(m: map<K, V>, k: K): (r: Option<V>) {
    if k in m then Some(m[k]) else None
  }

  class NodeTable<K(==,!new), V(==)> {
    const slot: (K, nat, nat) -> nat
    var buckets: seq<seq<Entry<K, V>>>
    var use: nat
    var size: nat
    var split: nat

    /** The map this table stands for. */
    ghost var contents: map<K, V>
    /** Entries already unlinked whose `use` has not been dropped yet. */
    ghost var pending: nat

    /** The bucket of each key in a table of size `z` divided up to `p`. */
    ghost function At(z: nat, p: nat): K -> nat {
      k => slot(k, z, p)
    }

    ghost predicate Valid()
      reads this
    {
      && SlotLaws(slot) && TableSize(size) && split <= size / 2 && size <= |buckets|
      && use == |contents| + pending && Placed(buckets, contents, At(size, split))
    }

    /** No more entries than active buckets. */
    predicate Loaded()
      reads this
    {
      split < size / 2 && use < size / 2 + split
    }

    constructor (slot: (K, nat, nat) -> nat)
      requires SlotLaws(slot)
      ensures Valid() && Loaded() && contents == map[] && pending == 0
    {
      this.slot := slot;
      size, use, split := NODE_TABLE_MIN_SIZE, 0, 0;
      buckets := seq(NODE_TABLE_MIN_SIZE, _ => []);
      contents, pending := map[], 0;
      new;
      forall k ensures At(size, split)(k) < |buckets| {
        assert SlotLaw(slot, k, size, split);
      }
    }

    /** All buckets at or above `split + size / 2` are empty. */
    lemma UpperBucketsAreEmpty()
      requires Valid()
      ensures forall b :: size / 2 + split <= b < |buckets| ==> buckets[b] == []
    {
      forall b | size / 2 + split <= b < |buckets|
        ensures buckets[b] == []
      {
        forall k ensures At(size, split)(k) != b {
          assert SlotLaw(slot, k, size, split);
        }
        UnselectedIsEmpty(buckets, contents, At(size, split), b);
      }
    }

    /** `get_node_nocheck` and `lookup_node`. */
    method Lookup(k: K) returns (r: Option<V>)
      requires Valid()
      ensures r == Found(contents, k)
    {
      var b := slot(k, size, split);
      assert b == At(size, split)(k);
      var i := 0;
      while i < |buckets[b]|
        invariant 0 <= i <= |buckets[b]|
        invariant forall j :: 0 <= j < i ==> buckets[b][j].key != k
      {
        if buckets[b][i].key == k {
          assert buckets[b][i] in buckets[b];
          return Some(buckets[b][i].value);
        }
        i := i + 1;
      }
      r := None;
    }

    /** `hash_id` and `hash_name`: `mem` says whether a reallocation succeeds. */
    method Insert(k: K, v: V, mem: bool)
      requires Valid() && k !in contents
      modifies this
      ensures Valid() && contents == old(contents)[k := v] && pending == old(pending)
      ensures mem && old(Loaded()) ==> Loaded()
      ensures (size, split) == if old(use) + 1 < old(size) / 2 then (old(size), old(split)) else Grown(old(size), old(split), mem)
    {
      var b := slot(k, size, split);
      assert b == At(size, split)(k);
      PlacedInsert(buckets, contents, At(size, split), k, v);
      buckets := buckets[b := [Entry(k, v)] + buckets[b]];
      contents := contents[k := v];
      use := use + 1;
      if use >= size / 2 {
        Rehash(mem);
      }
    }

    /** `rehash_id` and `rehash_name`: divide one bucket, double the table after the last one. */
    method Rehash(mem: bool)
      requires Valid()
      modifies this`buckets, this`size, this`split
      ensures Valid()
      ensures (size, split) == Grown(old(size), old(split), mem)
      ensures mem && old(split) < old(size) / 2 ==> split < size / 2 && size / 2 + split == old(size / 2 + split) + 1
    {
      if split == size / 2 {
        return;
      }
      TableSizeIsEven(size);
      DivideNext();
      if split == size / 2 {
        Resize(mem);
      }
    }

    method DivideNext()
      requires Valid() && split < size / 2
      modifies this`buckets, this`split
      ensures Valid() && split == old(split) + 1
    {
      var lo := split;
      DivideBucketPlaced(buckets, contents, size, split);
      split := split + 1;
      var low, up := DivideChain(lo);
      buckets := buckets[lo := low][lo + size / 2 := up];
      assert buckets == Divided(old(buckets), size, lo);
    }

    /** Keys whose bucket is still `lo` when the table is divided one bucket further. */
    ghost function Stays(z: nat, lo: nat): K -> bool {
      k => slot(k, z, lo + 1) == lo
    }

    ghost function Divided(before: seq<seq<Entry<K, V>>>, z: nat, lo: nat): seq<seq<Entry<K, V>>>
      requires lo < z / 2 && z <= |before|
    {
      before[lo := Kept(before[lo], Stays(z, lo))][lo + z / 2 := Moved(before[lo], Stays(z, lo))]
    }

    lemma DivideBucketPlaced(before: seq<seq<Entry<K, V>>>, m: map<K, V>, z: nat, lo: nat)
      requires SlotLaws(slot) && TableSize(z) && lo < z / 2 && z <= |before|
      requires Placed(before, m, At(z, lo))
      ensures before[lo + z / 2] == []
      ensures forall j :: 0 <= j < |before[lo]| ==> slot(before[lo][j].key, z, lo + 1) in {lo, lo + z / 2}
      ensures Placed(Divided(before, z, lo), m, At(z, lo + 1))
    {
      forall k
        ensures At(z, lo)(k) != lo + z / 2
        ensures if At(z, lo)(k) == lo then At(z, lo + 1)(k) == (if Stays(z, lo)(k) then lo else lo + z / 2)
                else At(z, lo + 1)(k) == At(z, lo)(k)
      {
        assert SlotLaw(slot, k, z, lo);
      }
      UnselectedIsEmpty(before, m, At(z, lo), lo + z / 2);
      forall j | 0 <= j < |before[lo]|
        ensures slot(before[lo][j].key, z, lo + 1) in {lo, lo + z / 2}
      {
        EntrySlot(before, m, At(z, lo), lo, j);
        assert SlotLaw(slot, before[lo][j].key, z, lo);
      }
      PlacedSplit(before, m, At(z, lo), At(z, lo + 1), lo, lo + z / 2, Stays(z, lo));
    }

    /** The loop of `rehash_id`: entries that now hash elsewhere go to the front of the upper chain. */
    method DivideChain(lo: nat) returns (low: seq<Entry<K, V>>, up: seq<Entry<K, V>>)
      requires lo + 1 == split <= size / 2 && size <= |buckets| && buckets[lo + size / 2] == []
      requires forall j :: 0 <= j < |buckets[lo]| ==> slot(buckets[lo][j].key, size, split) in {lo, lo + size / 2}
      ensures low == Kept(buckets[lo], Stays(size, lo)) && up == Moved(buckets[lo], Stays(size, lo))
    {
      ghost var chain, stays := buckets[lo], Stays(size, lo);
      ghost var m := 0;
      low, up := buckets[lo], buckets[lo + size / 2];
      var i := 0;
      assert chain[..0] == [] && chain[0..] == chain && [] + chain == chain;
      while i < |low|
        invariant 0 <= m <= |chain| && i == |Kept(chain[..m], stays)|
        invariant low == Kept(chain[..m], stays) + chain[m..] && up == Moved(chain[..m], stays)
        decreases |chain| - m
      {
        DivideStep(chain, m, stays, low, up);
        var node := low[i];
        var newhash := slot(node.key, size, split);
        if newhash != lo {
          assert newhash == lo + size / 2;
          low := low[..i] + low[i + 1..];
          up := [node] + up;
        } else {
          i := i + 1;
        }
        m := m + 1;
      }
      assert chain[..m] == chain && chain[m..] == [] && Kept(chain, stays) + [] == Kept(chain, stays);
    }

    /** `node_table_resize` */
    method Resize(mem: bool)
      requires Valid() && split == size / 2
      modifies this`buckets, this`size, this`split
      ensures Valid()
      ensures if mem then size == 2 * old(size) && split == 0 else size == old(size) && split == old(split)
    {
      if !mem {
        return;
      }
      var larger := buckets[..size] + seq(size, _ => []);
      HalvesAgree(buckets, larger, contents, size);
      Rearrange(larger, 2 * size, 0);
    }

    /** Other buckets, the same entries. */
    method Rearrange(buckets': seq<seq<Entry<K, V>>>, size': nat, split': nat)
      requires Valid() && TableSize(size') && split' <= size' / 2 && size' <= |buckets'|
      requires Placed(buckets', contents, At(size', split'))
      modifies this`buckets, this`size, this`split
      ensures Valid() && buckets == buckets' && size == size' && split == split'
    {
      buckets, size, split := buckets', size', split';
    }

    /** A table divided to the end and one of twice the size not divided at all are the same. */
    lemma HalvesAgree(before: seq<seq<Entry<K, V>>>, after: seq<seq<Entry<K, V>>>, m: map<K, V>, z: nat)
      requires SlotLaws(slot) && TableSize(z) && z <= |before| && z <= |after|
      requires forall b :: 0 <= b < z ==> after[b] == before[b]
      requires forall b :: z <= b < |after| ==> after[b] == []
      ensures Placed(before, m, At(z, z / 2)) ==> Placed(after, m, At(2 * z, 0))
      ensures Placed(before, m, At(2 * z, 0)) ==> Placed(after, m, At(z, z / 2))
    {
      forall k
        ensures At(2 * z, 0)(k) == At(z, z / 2)(k) < z
      {
        assert SlotLaw(slot, k, z, z / 2);
      }
      if Placed(before, m, At(z, z / 2)) {
        PlacedResize(before, m, At(z, z / 2), At(2 * z, 0), z, after);
      }
      if Placed(before, m, At(2 * z, 0)) {
        PlacedResize(before, m, At(2 * z, 0), At(z, z / 2), z, after);
      }
    }

    /** Take the entry out of its chain; `use` is dropped by `Release`. */
    method Unlink(k: K, v: V) returns (found: bool)
      requires Valid()
      modifies this`buckets, this`contents, this`pending
      ensures Valid() && found == (k in old(contents) && old(contents)[k] == v)
      ensures contents == (if found then old(contents) - {k} else old(contents))
      ensures pending == old(pending) + (if found then 1 else 0)
    {
      var b := slot(k, size, split);
      assert b == At(size, split)(k);
      var e, chain, i := Entry(k, v), buckets[b], 0;
      while i < |chain| && chain[i] != e
        invariant 0 <= i <= |chain|
        invariant e !in chain[..i]
      {
        i := i + 1;
      }
      found := i < |chain|;
      EntryFound(b, i, k, v);
      if found {
        CutOut(b, i);
      }
    }

    method CutOut(b: nat, i: nat)
      requires Valid() && b < |buckets| && i < |buckets[b]|
      modifies this`buckets, this`contents, this`pending
      ensures Valid() && contents == old(contents) - {old(buckets[b][i].key)} && pending == old(pending) + 1
    {
      PlacedRemove(buckets, contents, At(size, split), b, i);
      ghost var k := buckets[b][i].key;
      buckets := buckets[b := buckets[b][..i] + buckets[b][i + 1..]];
      contents, pending := contents - {k}, pending + 1;
    }

    /** The entry is in its chain exactly when the map has it. */
    lemma EntryFound(b: nat, i: nat, k: K, v: V)
      requires Valid() && b == At(size, split)(k) && b < |buckets| && i <= |buckets[b]|
      requires Entry(k, v) !in buckets[b][..i] && (i < |buckets[b]| ==> buckets[b][i] == Entry(k, v))
      ensures i < |buckets[b]| <==> k in contents && contents[k] == v
    {
      assert buckets[b][..|buckets[b]|] == buckets[b];
      if i < |buckets[b]| {
        assert buckets[b][i] in buckets[b];
      }
    }

    /** `unhash_id`: a missing entry is ignored. */
    method Remove(k: K, v: V, mem: bool) returns (found: bool)
      requires Valid()
      modifies this
      ensures Valid() && found == (k in old(contents) && old(contents)[k] == v)
      ensures contents == (if found then old(contents) - {k} else old(contents)) && pending == old(pending)
      ensures old(Loaded()) ==> Loaded()
    {
      found := Unlink(k, v);
      if found {
        Release(mem);
      }
    }

    /** Drop `use` and shrink when the table has become sparse. */
    method Release(mem: bool)
      requires Valid() && pending > 0
      modifies this`buckets, this`use, this`size, this`split, this`pending
      ensures Valid() && pending == old(pending) - 1
      ensures old(Loaded()) ==> Loaded()
      ensures if use < old(size) / 4 then Remerged(old(buckets), old(size), old(split), size, split)
              else buckets == old(buckets) && size == old(size) && split == old(split)
    {
      use := use - 1;
      pending := pending - 1;
      if use < size / 4 {
        Remerge(mem);
      }
    }

    /** `remerge_id` and `remerge_name`: fold back up to eight empty upper buckets or one full one. */
    method Remerge(mem: bool)
      requires Valid()
      modifies this`buckets, this`size, this`split
      ensures Valid()
      ensures Remerged(old(buckets), old(size), old(split), size, split)
    {
      if split == 0 {
        Reduce(mem);
      }
      FoldBack();
    }

    /** The loop of `remerge_id`. */
    method FoldBack()
      requires Valid()
      modifies this`buckets, this`size, this`split
      ensures Valid() && size == old(size) && FoldedTo(old(buckets), size, old(split), split)
    {
      var iter := 8;
      ghost var z := size;
      while split > 0 && iter > 0
        invariant Valid() && 0 <= iter <= 8 && size == z && buckets == old(buckets) && split + 8 == old(split) + iter
        invariant forall b :: split + z / 2 <= b < old(split) + z / 2 ==> buckets[b] == []
      {
        var moved := FoldBucket();
        if moved {
          break;
        }
        iter := iter - 1;
      }
    }

    /** One round of the loop of `remerge_id`: hang the upper chain onto the end of the lower one. */
    method FoldBucket() returns (moved: bool)
      requires Valid() && split > 0
      modifies this`buckets, this`size, this`split
      ensures Valid() && size == old(size) && split == old(split) - 1
      ensures moved == (old(buckets)[split + size / 2] != []) && (!moved ==> buckets == old(buckets))
    {
      var lower, upper := split - 1, split - 1 + size / 2;
      moved := buckets[upper] != [];
      var folded := Fold(lower, upper);
      Rearrange(folded, size, lower);
    }

    method Fold(lower: nat, upper: nat) returns (folded: seq<seq<Entry<K, V>>>)
      requires Valid() && lower + 1 == split && upper == lower + size / 2
      ensures |folded| == |buckets| && Placed(folded, contents, At(size, lower))
      ensures buckets[upper] == [] ==> folded == buckets
    {
      FoldPlaced(buckets, contents, size, lower);
      if buckets[upper] != [] {
        folded := buckets[lower := buckets[lower] + buckets[upper]][upper := []];
      } else {
        folded := buckets;
      }
    }

    /** Folding the last divided bucket back. */
    lemma FoldPlaced(before: seq<seq<Entry<K, V>>>, m: map<K, V>, z: nat, lo: nat)
      requires SlotLaws(slot) && TableSize(z) && lo < z / 2 && z <= |before| && Placed(before, m, At(z, lo + 1))
      ensures Placed(before[lo := before[lo] + before[lo + z / 2]][lo + z / 2 := []], m, At(z, lo))
      ensures before[lo + z / 2] == [] ==> Placed(before, m, At(z, lo))
    {
      forall k
        ensures At(z, lo)(k) == if At(z, lo + 1)(k) == lo + z / 2 then lo else At(z, lo + 1)(k)
      {
        assert SlotLaw(slot, k, z, lo);
      }
      PlacedMerge(before, m, At(z, lo + 1), At(z, lo), lo, lo + z / 2);
      if before[lo + z / 2] == [] {
        assert before[lo] + [] == before[lo];
        assert before[lo := before[lo] + before[lo + z / 2]][lo + z / 2 := []] == before;
      }
    }

    /** `node_table_reduce` */
    method Reduce(mem: bool)
      requires Valid() && split == 0
      modifies this`buckets, this`size, this`split
      ensures Valid()
      ensures (size, split) == Reduced(old(size), old(split)) && |buckets| <= |old(buckets)|
      ensures forall b :: 0 <= b < size ==> buckets[b] == old(buckets)[b]
    {
      var newsize := size / 2;
      if newsize < NODE_TABLE_MIN_SIZE {
        return;
      }
      UpperBucketsAreEmpty();
      TableSizeIsEven(size);
      var smaller := if mem then buckets[..newsize] else buckets;
      HalvesAgree(buckets, smaller, contents, newsize);
      Rearrange(smaller, newsize, newsize / 2);
    }

    /** Insert only what is missing. */
    method PutIfMissing(k: K, v: V, mem: bool) returns (r: Option<V>)
      requires Valid()
      modifies this
      ensures Valid() && pending == old(pending) && r == Found(old(contents), k)
      ensures contents == if r.None? then old(contents)[k := v] else old(contents)
      ensures mem && old(Loaded()) ==> Loaded()
    {
      r := Lookup(k);
      if r.None? {
        Insert(k, v, mem);
      }
    }

    /** Remove only what is there. */
    method DropIfThere(k: K, mem: bool) returns (r: Option<V>)
      requires Valid()
      modifies this
      ensures Valid() && pending == old(pending) && r == Found(old(contents), k) && contents == old(contents) - {k}
      ensures old(Loaded()) ==> Loaded()
    {
      r := Lookup(k);
      if r.Some? {
        var found := Remove(k, r.value, mem);
      } else {
        assert contents - {k} == contents;
      }
    }

    method BeginIfThere(k: K) returns (r: Option<V>)
      requires Valid()
      modifies this`buckets, this`contents, this`pending
      ensures Valid() && r == Found(old(contents), k)
      ensures contents == (if r.Some? then old(contents) - {k} else old(contents))
      ensures pending == old(pending) + (if r.Some? then 1 else 0)
    {
      r := Lookup(k);
      if r.Some? {
        var found := Unlink(k, r.value);
      }
    }

    method EndIfOpen(mem: bool, open: nat) returns (left: nat)
      requires Valid() && pending == open
      modifies this
      ensures Valid() && pending == left && contents == old(contents) && left == if open > 0 then open - 1 else open
      ensures old(Loaded()) ==> Loaded()
    {
      left := open;
      if open > 0 {
        Release(mem);
        left := open - 1;
      }
    }

    /** One request; `open` removals are under way. */
    method Perform(op: Op<K, V>, mem: bool, open: nat) returns (r: Option<V>, left: nat)
      requires Valid() && pending == open
      modifies this
      ensures Valid() && pending == left
      ensures r == PlainAnswer(Plain(old(contents), open), op)
      ensures Plain(contents, left) == PlainStep(Plain(old(contents), open), op)
      ensures mem && old(Loaded()) ==> Loaded()
    {
      r, left := None, open;
      match op {
        case Get(k) => r := Lookup(k);
        case Put(k, v) => r := PutIfMissing(k, v, mem);
        case Drop(k) => r := DropIfThere(k, mem);
        case Begin(k) =>
          r := BeginIfThere(k);
          left := if r.Some? then open + 1 else open;
        case End => left := EndIfOpen(mem, open);
      }
    }
  }

  // ---------------------------------------------------------------- whole runs

  /** `Drop` removes an entry at once.  `Begin` and `End` are the two halves of `unhash_name`, between
      which the parent may be unhashed, and its parent, and so on. */
  datatype Op<K, V> = Get(key: K) | Put(key: K, value: V) | Drop(key: K) | Begin(key: K) | End

  /** A plain map, and how many removals are under way. */
  datatype Plain<K, V> = Plain(contents: map<K, V>, open: nat)

  /** One request on a plain map; an occupied key is not overwritten. */
  function PlainStep<K(==), V>(m: Plain<K, V>, op: Op<K, V>): (r: Plain<K, V>) {
    match op
    case Get(_) => m
    case Put(k, v) => if k in m.contents then m else m.(contents := m.contents[k := v])
    case Drop(k) => m.(contents := m.contents - {k})
    case Begin(k) => if k in m.contents then Plain(m.contents - {k}, m.open + 1) else m
    case End => if m.open > 0 then m.(open := m.open - 1) else m
  }

  function PlainAnswer<K(==), V>(m: Plain<K, V>, op: Op<K, V>): (r: Option<V>) {
    if op.End? then None else Found(m.contents, op.key)
  }

  function PlainAfter<K(==), V>(ops: seq<Op<K, V>>): (m: Plain<K, V>) {
    if ops == [] then Plain(map[], 0) else PlainStep(PlainAfter(ops[..|ops| - 1]), ops[|ops| - 1])
  }

  /** What a plain map answers during a run. */
  function PlainAnswers<K(==), V>(ops: seq<Op<K, V>>): (r: seq<Option<V>>) {
    if ops == [] then []
    else PlainAnswers(ops[..|ops| - 1]) + [PlainAnswer(PlainAfter(ops[..|ops| - 1]), ops[|ops| - 1])]
  }

  lemma OneMore<K, V>(ops: seq<Op<K, V>>, i: nat)
    requires i < |ops|
    ensures PlainAfter(ops[..i + 1]) == PlainStep(PlainAfter(ops[..i]), ops[i])
    ensures PlainAnswers(ops[..i + 1]) == PlainAnswers(ops[..i]) + [PlainAnswer(PlainAfter(ops[..i]), ops[i])]
  {
    assert ops[..i + 1][..i] == ops[..i];
  }

  /** Every run of lookups, insertions and removals, nested or not, on a fresh table is answered as a plain
      map would answer it, whichever reallocations fail; `use` counts the entries and the removals under
      way; and while no reallocation fails it stays below the number of active buckets. */
  method RunTable<K(==,!new), V(==)>(slot: (K, nat, nat) -> nat, ops: seq<Op<K, V>>, mem: seq<bool>)
    returns (answers: seq<Option<V>>, use: nat, size: nat, split: nat)
    requires SlotLaws(slot) && |mem| == |ops|
    ensures answers == PlainAnswers(ops)
    ensures use == |PlainAfter(ops).contents| + PlainAfter(ops).open && TableSize(size) && split <= size / 2
    ensures (forall i :: 0 <= i < |mem| ==> mem[i]) ==> use < size / 2 + split
  {
    var t := new NodeTable<K, V>(slot);
    answers := [];
    ghost var room := forall j :: 0 <= j < |mem| ==> mem[j];
    var i, open := 0, 0;
    while i < |ops|
      invariant 0 <= i <= |ops| && answers == PlainAnswers(ops[..i])
      invariant t.Valid() && t.pending == open && fresh(t)
      invariant Plain(t.contents, open) == PlainAfter(ops[..i])
      invariant room ==> t.Loaded()
    {
      var r;
      r, open := t.Perform(ops[i], mem[i], open);
      OneMore(ops, i);
      answers := answers + [r];
      i := i + 1;
    }
    assert ops[..i] == ops;
    use, size, split := t.use, t.size, t.split;
  }

  /** The same for the slot function of `id_hash` and `name_hash`, whatever the hash. */
  method RunHashTable<K(==,!new), V(==)>(hash: K -> nat, ops: seq<Op<K, V>>, mem: seq<bool>)
    returns (answers: seq<Option<V>>, use: nat, size: nat, split: nat)
    requires |mem| == |ops|
    ensures answers == PlainAnswers(ops)
    ensures use == |PlainAfter(ops).contents| + PlainAfter(ops).open && TableSize(size) && split <= size / 2
    ensures (forall i :: 0 <= i < |mem| ==> mem[i]) ==> use < size / 2 + split
  {
    SlotFnLaws(hash);
    answers, use, size, split := RunTable(SlotFn(hash), ops, mem);
  }
}
