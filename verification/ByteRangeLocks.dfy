/** POSIX byte-range locks kept per node (fuse.c, "locks").

    A node carries one list that mixes the entries of all owners.  The list is
    specified by what every owner holds on every byte: `Held`. */
module ByteRangeLocks {
  import opened Wrappers

  const OFFSET_MAX: int := 0x7fff_ffff_ffff_ffff

  datatype LockType = ReadLock | WriteLock | Unlock

  datatype Lock = Lock(ltype: LockType, start: int, end: int, pid: int, owner: int) {
    predicate InRange() {
      0 <= start <= end <= OFFSET_MAX
    }

    predicate Covers(b: int) {
      start <= b <= end
    }

    predicate On(o: int, b: int, t: LockType) {
      owner == o && Covers(b) && ltype == t
    }
  }

  datatype Flock = Flock(ltype: LockType, start: int, len: int, pid: int)

  /** Owner `o` has type `t` on byte `b`. */
  ghost predicate Held(s: seq<Lock>, o: int, b: int, t: LockType) {
    exists k :: 0 <= k < |s| && s[k].On(o, b, t)
  }

  /** `p` ends before `q` starts, and leaves a gap when the two could be merged. */
  predicate Apart(p: Lock, q: Lock) {
    p.end < q.start && (p.ltype == q.ltype ==> p.end + 1 < q.start)
  }

  /** Each owner's entries are sorted, disjoint, and merged wherever they touch. */
  ghost predicate Normal(s: seq<Lock>) {
    && (forall k :: 0 <= k < |s| ==> s[k].InRange() && s[k].ltype != Unlock)
    && (forall j, k :: 0 <= j < k < |s| && s[j].owner == s[k].owner ==> Apart(s[j], s[k]))
  }

  /** What is held once `lk` has been laid over the list. */
  ghost predicate HeldUnder(s: seq<Lock>, lk: Lock, o: int, b: int, t: LockType) {
    if o == lk.owner && lk.Covers(b) then t == lk.ltype && t != Unlock else Held(s, o, b, t)
  }

  ghost predicate SameUnder(s: seq<Lock>, lk: Lock, s': seq<Lock>, lk': Lock) {
    forall o, b, t :: HeldUnder(s, lk, o, b, t) <==> HeldUnder(s', lk', o, b, t)
  }

  /** Two owners never share a byte unless both only read it. */
  ghost predicate Exclusive(s: seq<Lock>) {
    forall o, o', b, t, t' :: o != o' && Held(s, o, b, t) && Held(s, o', b, t') ==> t == ReadLock && t' == ReadLock
  }

  // ---------------------------------------------------------------- lemmas

  lemma HeldConcat(p: seq<Lock>, q: seq<Lock>, o: int, b: int, t: LockType)
    ensures Held(p + q, o, b, t) <==> Held(p, o, b, t) || Held(q, o, b, t)
  {
    if k :| 0 <= k < |p| && p[k].On(o, b, t) {
      assert (p + q)[k].On(o, b, t);
    }
    if k :| 0 <= k < |q| && q[k].On(o, b, t) {
      assert (p + q)[|p| + k].On(o, b, t);
    }
  }

  /** Replacing the middle of a list changes what is held only by the middle parts. */
  lemma HeldSplice(p: seq<Lock>, m: seq<Lock>, q: seq<Lock>, o: int, b: int, t: LockType)
    ensures Held(p + m + q, o, b, t) <==> Held(p, o, b, t) || Held(m, o, b, t) || Held(q, o, b, t)
  {
    HeldConcat(p + m, q, o, b, t);
    HeldConcat(p, m, o, b, t);
  }

  /** The list may be edited in the middle as long as the overlay hides the difference. */
  lemma SpliceUnder(p: seq<Lock>, m: seq<Lock>, m': seq<Lock>, q: seq<Lock>, lk: Lock, lk': Lock)
    requires lk'.ltype == lk.ltype && lk'.owner == lk.owner
    requires lk'.start <= lk.start && lk.end <= lk'.end
    requires forall b, t :: lk'.Covers(b) && !lk.Covers(b) ==>
      (Held(p + m + q, lk.owner, b, t) <==> t == lk.ltype && t != Unlock)
    requires forall o, b, t :: !(o == lk.owner && lk'.Covers(b)) ==> (Held(m, o, b, t) <==> Held(m', o, b, t))
    ensures SameUnder(p + m + q, lk, p + m' + q, lk')
  {
    forall o, b, t
      ensures HeldUnder(p + m + q, lk, o, b, t) <==> HeldUnder(p + m' + q, lk', o, b, t)
    {
      HeldSplice(p, m, q, o, b, t);
      HeldSplice(p, m', q, o, b, t);
    }
  }

  lemma SameUnderTrans(s: seq<Lock>, lk: Lock, s': seq<Lock>, lk': Lock, s'': seq<Lock>, lk'': Lock)
    requires SameUnder(s, lk, s', lk') && SameUnder(s', lk', s'', lk'')
    ensures SameUnder(s, lk, s'', lk'')
  {
    forall o, b, t
      ensures HeldUnder(s, lk, o, b, t) <==> HeldUnder(s'', lk'', o, b, t)
    {
      assert HeldUnder(s, lk, o, b, t) <==> HeldUnder(s', lk', o, b, t);
    }
  }

  /** In a normal list an owner has at most one type on a byte. */
  lemma HeldUnique(s: seq<Lock>, k: nat, o: int, b: int, t: LockType)
    requires Normal(s) && k < |s| && s[k].owner == o && s[k].Covers(b)
    ensures Held(s, o, b, t) <==> t == s[k].ltype
  {
    if Held(s, o, b, t) {
      var j :| 0 <= j < |s| && s[j].On(o, b, t);
      assert j != k ==> Apart(s[j], s[k]) || Apart(s[k], s[j]);
    } 
    if t == s[k].ltype {
      assert s[k].On(o, b, t);
    }
  }

  /** The widening that swallows a touching entry of the same type. */
  function Widen(lock: Lock, l: Lock): (r: Lock)
    ensures forall b :: lock.Covers(b) || l.Covers(b) ==> r.Covers(b)
  {
    var r := if l.start < lock.start then lock.(start := l.start) else lock;
    if r.end < l.end then r.(end := l.end) else r
  }

  predicate Clash(l: Lock, lock: Lock) {
    && l.owner != lock.owner && lock.start <= l.end && l.start <= lock.end
    && (l.ltype == WriteLock || lock.ltype == WriteLock)
  }

  ghost predicate FirstClash(s: seq<Lock>, lock: Lock, k: nat)
    requires k < |s|
  {
    Clash(s[k], lock) && forall j :: 0 <= j < k ==> !Clash(s[j], lock)
  }

  /** Another owner holds byte `b` of the request, and one side writes. */
  ghost predicate ConflictAt(s: seq<Lock>, lock: Lock, o: int, b: int, t: LockType) {
    o != lock.owner && lock.Covers(b) && Held(s, o, b, t) && (t == WriteLock || lock.ltype == WriteLock)
  }

  predicate Beyond(lock: Lock, l: Lock) {
    l.owner == lock.owner && Apart(lock, l)
  }

  /** `m` are fragments of `l`, in order and apart. */
  ghost predicate Fragments(m: seq<Lock>, l: Lock) {
    && Normal(m)
    && forall k :: 0 <= k < |m| ==>
         m[k].owner == l.owner && m[k].ltype == l.ltype && l.start <= m[k].start && m[k].end <= l.end
  }

  lemma SpliceNormal(s: seq<Lock>, i: nat, m: seq<Lock>)
    requires Normal(s) && i < |s| && Fragments(m, s[i])
    ensures Normal(s[..i] + m + s[i + 1..])
  {
    var r := s[..i] + m + s[i + 1..];
    forall j, k | 0 <= j < k < |r| && r[j].owner == r[k].owner
      ensures Apart(r[j], r[k])
    {
      var j0 := if j < i then j else if j < i + |m| then i else j - |m| + 1;
      var k0 := if k < i then k else if k < i + |m| then i else k - |m| + 1;
      if j0 == k0 {
        assert Apart(m[j - i], m[k - i]);
      } else {
        assert Apart(s[j0], s[k0]);
      }
    }
  }

  /** What the request leaves of an overlapping entry of another type. */
  function Remainder(l: Lock, lock: Lock): (m: seq<Lock>) {
    (if l.start < lock.start then [l.(end := lock.start - 1)] else []) +
    (if lock.end < l.end then [l.(start := lock.end + 1)] else [])
  }

  lemma RemainderHeld(l: Lock, lock: Lock, o: int, b: int, t: LockType)
    requires lock.start <= lock.end && lock.start <= l.end && l.start <= lock.end
    ensures Held(Remainder(l, lock), o, b, t) <==> l.On(o, b, t) && !lock.Covers(b)
  {
    var p := if l.start < lock.start then [l.(end := lock.start - 1)] else [];
    var q := if lock.end < l.end then [l.(start := lock.end + 1)] else [];
    HeldConcat(p, q, o, b, t);
    if l.start < lock.start {
      assert p[0] == l.(end := lock.start - 1);
    }
    if lock.end < l.end {
      assert q[0] == l.(start := lock.end + 1);
    }
  }

  /** An overlapping entry of the same owner is reduced to what the request leaves of it. */
  lemma TrimStep(s: seq<Lock>, i: nat, lock: Lock)
    requires Normal(s) && lock.InRange() && i < |s| && s[i].owner == lock.owner
    requires lock.start <= s[i].end && s[i].start <= lock.end
    ensures
      var r := s[..i] + Remainder(s[i], lock) + s[i + 1..];
      Normal(r) && SameUnder(s, lock, r, lock)
  {
    var p, q, m := s[..i], s[i + 1..], Remainder(s[i], lock);
    SpliceNormal(s, i, m);
    assert s == p + [s[i]] + q;
    forall o, b, t | !(o == lock.owner && lock.Covers(b))
      ensures Held([s[i]], o, b, t) <==> Held(m, o, b, t)
    {
      assert [s[i]][0] == s[i];
      RemainderHeld(s[i], lock, o, b, t);
    }
    SpliceUnder(p, [s[i]], m, q, lock, lock);
  }

  /** A touching entry of the same type is merged into the request and removed. */
  lemma MergeStep(s: seq<Lock>, i: nat, lock: Lock)
    requires Normal(s) && lock.InRange() && i < |s| && s[i].owner == lock.owner && s[i].ltype == lock.ltype
    requires lock.start - 1 <= s[i].end && s[i].start - 1 <= lock.end
    ensures Normal(s[..i] + s[i + 1..])
    ensures SameUnder(s, lock, s[..i] + s[i + 1..], Widen(lock, s[i]))
  {
    var p, q, l, w := s[..i], s[i + 1..], s[i], Widen(lock, s[i]);
    SpliceNormal(s, i, []);
    assert p + [] + q == p + q;
    assert s == p + [l] + q;
    forall b, t | w.Covers(b) && !lock.Covers(b)
      ensures Held(s, lock.owner, b, t) <==> t == lock.ltype && t != Unlock
    {
      HeldUnique(s, i, lock.owner, b, t);
    }
    forall o, b, t | !(o == lock.owner && w.Covers(b))
      ensures Held([l], o, b, t) <==> Held([], o, b, t)
    {
      assert [l][0] == l;
    }
    SpliceUnder(p, [l], [], q, lock, w);
  }

  /** An entry of the same type already covers the whole request. */
  lemma AlreadyHeld(s: seq<Lock>, i: nat, lock: Lock, s0: seq<Lock>, request: Lock)
    requires Normal(s) && i < |s| && s[i].owner == lock.owner && s[i].ltype == lock.ltype
    requires s[i].start <= lock.start && lock.end <= s[i].end
    requires SameUnder(s0, request, s, lock)
    ensures forall o, b, t :: Held(s, o, b, t) <==> HeldUnder(s0, request, o, b, t)
  {
    forall o, b, t
      ensures Held(s, o, b, t) <==> HeldUnder(s0, request, o, b, t)
    {
      assert HeldUnder(s0, request, o, b, t) <==> HeldUnder(s, lock, o, b, t);
      if o == lock.owner && lock.Covers(b) {
        HeldUnique(s, i, o, b, t);
      }
    }
  }

  /** The request goes in front of the first entry of its owner that lies beyond it. */
  lemma InsertStep(s: seq<Lock>, i: nat, lock: Lock, s0: seq<Lock>, request: Lock)
    requires Normal(s) && lock.InRange() && i <= |s|
    requires forall k :: 0 <= k < i && s[k].owner == lock.owner ==> Apart(s[k], lock)
    requires i < |s| ==> Beyond(lock, s[i])
    requires SameUnder(s0, request, s, lock)
    ensures
      var r := if lock.ltype == Unlock then s else s[..i] + [lock] + s[i..];
      Normal(r) && forall o, b, t :: Held(r, o, b, t) <==> HeldUnder(s0, request, o, b, t)
  {
    var r := if lock.ltype == Unlock then s else s[..i] + [lock] + s[i..];
    assert s == s[..i] + [] + s[i..];
    forall k | i <= k < |s| && s[k].owner == lock.owner
      ensures Apart(lock, s[k])
    {
      assert k > i ==> Apart(s[i], s[k]);
    }
    if lock.ltype != Unlock {
      forall j, k | 0 <= j < k < |r| && r[j].owner == r[k].owner
        ensures Apart(r[j], r[k])
      {
        assert j < i < k ==> Apart(s[j], s[k - 1]);
      }
    }
    forall o, b, t
      ensures Held(r, o, b, t) <==> HeldUnder(s0, request, o, b, t)
    {
      assert HeldUnder(s0, request, o, b, t) <==> HeldUnder(s, lock, o, b, t);
      HeldSplice(s[..i], [lock], s[i..], o, b, t);
      HeldSplice(s[..i], [], s[i..], o, b, t);
      assert [lock][0] == lock;
    }
  }

  /** If no conflict is reported, laying the request over the list keeps owners apart. */
  lemma InsertKeepsExclusion(s: seq<Lock>, lock: Lock, s': seq<Lock>)
    requires Normal(s) && Exclusive(s)
    requires !exists o, b, t :: ConflictAt(s, lock, o, b, t)
    requires forall o, b, t :: Held(s', o, b, t) <==> HeldUnder(s, lock, o, b, t)
    ensures Exclusive(s')
  {
    forall o, o', b, t, t' | o != o' && Held(s', o, b, t) && Held(s', o', b, t')
      ensures t == ReadLock && t' == ReadLock
    {
      assert HeldUnder(s, lock, o, b, t) && HeldUnder(s, lock, o', b, t');
      assert !ConflictAt(s, lock, o, b, t) && !ConflictAt(s, lock, o', b, t');
    }
  }

  /** Entry `l` of a normal list is a maximal run of bytes with one type: a normal list that
      holds the same bytes contains the same entry. */
  lemma EntryIsMaximal(s: seq<Lock>, s': seq<Lock>, k: nat) returns (k': nat)
    requires Normal(s) && Normal(s') && k < |s|
    requires forall o, b, t :: Held(s, o, b, t) <==> Held(s', o, b, t)
    ensures k' < |s'| && s'[k'] == s[k].(pid := s'[k'].pid)
  {
    var l := s[k];
    assert s[k].On(l.owner, l.start, l.ltype);
    assert Held(s', l.owner, l.start, l.ltype);
    k' :| 0 <= k' < |s'| && s'[k'].On(l.owner, l.start, l.ltype);
    var l' := s'[k'];
    if l'.start < l.start {
      assert s'[k'].On(l.owner, l.start - 1, l.ltype);
      StartsHere(s, k);
    }
    if l'.end < l.end {
      assert s[k].On(l.owner, l'.end + 1, l.ltype);
      EndsHere(s', k');
    }
    if l.end < l'.end {
      assert s'[k'].On(l.owner, l.end + 1, l.ltype);
      EndsHere(s, k);
    }
  }

  lemma StartsHere(s: seq<Lock>, k: nat)
    requires Normal(s) && k < |s|
    ensures !Held(s, s[k].owner, s[k].start - 1, s[k].ltype)
  {
    forall j | 0 <= j < |s| && s[j].owner == s[k].owner && j != k
      ensures Apart(s[j], s[k]) || Apart(s[k], s[j])
    {
    }
  }

  lemma EndsHere(s: seq<Lock>, k: nat)
    requires Normal(s) && k < |s|
    ensures !Held(s, s[k].owner, s[k].end + 1, s[k].ltype)
  {
    forall j | 0 <= j < |s| && s[j].owner == s[k].owner && j != k
      ensures Apart(s[j], s[k]) || Apart(s[k], s[j])
    {
    }
  }

  // ---------------------------------------------------------------- struct flock

  /** `flock_to_lock`: the owner is filled in by the caller. */
  function FlockToLock(f: Flock): (l: Lock) {
    Lock(f.ltype, f.start, if f.len != 0 then f.start + f.len - 1 else OFFSET_MAX, f.pid, 0)
  }

  function LockToFlock(l: Lock): (f: Flock) {
    Flock(l.ltype, l.start, if l.end == OFFSET_MAX then 0 else l.end - l.start + 1, l.pid)
  }

  /** A stored lock survives being reported and read back; no step leaves the offset range. */
  lemma LockFlockRoundTrip(l: Lock)
    requires l.InRange()
    ensures FlockToLock(LockToFlock(l)) == l.(owner := 0)
    ensures 0 <= LockToFlock(l).len <= OFFSET_MAX && LockToFlock(l).start + LockToFlock(l).len <= OFFSET_MAX
  {
  }

  /** A request covers `len` bytes from its start on, or all of them if `len` is 0. */
  lemma FlockCovers(f: Flock, b: int)
    requires 0 <= f.start && 0 <= f.len && f.start + f.len <= OFFSET_MAX && b <= OFFSET_MAX
    ensures var l := FlockToLock(f);
      && (l.Covers(b) <==> f.start <= b && (f.len == 0 || b < f.start + f.len))
      && l.ltype == f.ltype && l.pid == f.pid
  {
  }

  /** And a request survives the way there and back: where its range reaches the largest offset, its
      length is 0. */
  lemma FlockLockRoundTrip(f: Flock)
    requires 0 <= f.start && 0 <= f.len && f.start + f.len <= OFFSET_MAX
    ensures FlockToLock(f).InRange() && LockToFlock(FlockToLock(f)) == f
  {
  }

  // ---------------------------------------------------------------- where entries come from

  /** The same lock on no more bytes. */
  predicate PartOf(l: Lock, l0: Lock) {
    l == l0.(start := l.start, end := l.end) && l0.start <= l.start && l.end <= l0.end
  }

  ghost predicate IsPart(l: Lock, s: seq<Lock>) {
    exists k :: 0 <= k < |s| && PartOf(l, s[k])
  }

  /** Every entry is what is left of an old one. */
  ghost predicate AllParts(s: seq<Lock>, s0: seq<Lock>) {
    forall i :: 0 <= i < |s| ==> IsPart(s[i], s0)
  }

  lemma PartsOfSelf(s: seq<Lock>)
    ensures AllParts(s, s)
  {
    forall i | 0 <= i < |s|
      ensures IsPart(s[i], s)
    {
      assert PartOf(s[i], s[i]);
    }
  }

  lemma PartOfPart(l: Lock, l': Lock, s0: seq<Lock>)
    requires PartOf(l, l') && IsPart(l', s0)
    ensures IsPart(l, s0)
  {
    var k :| 0 <= k < |s0| && PartOf(l', s0[k]);
    assert PartOf(l, s0[k]);
  }

  /** Taking an entry out, or putting parts of it in its place. */
  lemma PartsReplaced(s: seq<Lock>, i: nat, parts: seq<Lock>, s0: seq<Lock>)
    requires AllParts(s, s0) && i < |s| && forall k :: 0 <= k < |parts| ==> PartOf(parts[k], s[i])
    ensures AllParts(s[..i] + parts + s[i + 1..], s0)
  {
    var r := s[..i] + parts + s[i + 1..];
    forall k | 0 <= k < |r|
      ensures IsPart(r[k], s0)
    {
      if k < i {
        assert r[k] == s[k];
      } else if k < i + |parts| {
        assert r[k] == parts[k - i];
        PartOfPart(r[k], s[i], s0);
      } else {
        assert r[k] == s[k - |parts| + 1];
      }
    }
  }

  /** The entry that stands for the request: its type, owner and process id, on at least its bytes. */
  predicate FromRequest(l: Lock, request: Lock) {
    PartOf(request, l)
  }

  // ---------------------------------------------------------------- making room

  /** Where the loop of `locks_insert` stands: up to `i` the owner's entries end before `lock`, which has
      taken in what it has met of its own type; a second new entry may still be needed only if some entry
      can reach beyond `lock` on both sides. */
  ghost predicate Making(s0: seq<Lock>, request: Lock, s: seq<Lock>, lock: Lock, i: nat, spare: bool) {
    && i <= |s| && Normal(s) && lock.InRange()
    && (lock.ltype == Unlock ==> lock == request) && FromRequest(lock, request)
    && (forall k :: 0 <= k < i && s[k].owner == lock.owner ==> Apart(s[k], lock))
    && SameUnder(s0, request, s, lock) && AllParts(s, s0)
    && (spare || lock.start == 0 || (i < |s| && Beyond(lock, s[i])))
  }

  lemma Passed(s0: seq<Lock>, request: Lock, s: seq<Lock>, lock: Lock, i: nat, spare: bool)
    requires Making(s0, request, s, lock, i, spare) && i < |s|
    requires s[i].owner != lock.owner || Apart(s[i], lock)
    ensures Making(s0, request, s, lock, i + 1, spare)
  {
  }

  lemma Merged(s0: seq<Lock>, request: Lock, s: seq<Lock>, lock: Lock, i: nat, spare: bool)
    requires Making(s0, request, s, lock, i, spare) && i < |s| && s[i].owner == lock.owner && s[i].ltype == lock.ltype
    requires lock.start - 1 <= s[i].end && s[i].start - 1 <= lock.end
    ensures Making(s0, request, s[..i] + s[i + 1..], Widen(lock, s[i]), i, spare)
  {
    var r, w := s[..i] + s[i + 1..], Widen(lock, s[i]);
    MergeStep(s, i, lock);
    SameUnderTrans(s0, request, s, lock, r, w);
    PartsReplaced(s, i, [], s0);
    assert r == s[..i] + [] + s[i + 1..];
    forall k | 0 <= k < i && r[k].owner == w.owner
      ensures Apart(r[k], w)
    {
      assert r[k] == s[k];
    }
  }

  lemma Trimmed(s0: seq<Lock>, request: Lock, s: seq<Lock>, lock: Lock, i: nat, spare: bool)
    requires Making(s0, request, s, lock, i, spare) && i < |s| && s[i].owner == lock.owner && s[i].ltype != lock.ltype
    requires lock.start <= s[i].end && s[i].start <= lock.end
    ensures spare || lock.start <= s[i].start || s[i].end <= lock.end
    ensures
      var r := s[..i] + Remainder(s[i], lock) + s[i + 1..];
      var next := i + if s[i].start < lock.start then 1 else 0;
      && Making(s0, request, r, lock, next, spare && !(s[i].start < lock.start && lock.end < s[i].end))
      && (lock.end < s[i].end ==> next < |r| && Beyond(lock, r[next]))
  {
    var r := s[..i] + Remainder(s[i], lock) + s[i + 1..];
    TrimStep(s, i, lock);
    SameUnderTrans(s0, request, s, lock, r, lock);
    PartsReplaced(s, i, Remainder(s[i], lock), s0);
    forall k | 0 <= k < i && r[k].owner == lock.owner
      ensures Apart(r[k], lock)
    {
      assert r[k] == s[k];
    }
    assert s[i].start < lock.start ==> r[i] == s[i].(end := lock.start - 1);
  }

  // ---------------------------------------------------------------- the list of one node

  class NodeLocks {
    var locks: seq<Lock>

    constructor ()
      ensures locks == []
    {
      locks := [];
    }

    /** First entry that conflicts with the request, in list order. */
    method Conflict(lock: Lock) returns (r: Option<Lock>)
      requires lock.InRange()
      requires Normal(locks)
      ensures r.Some? <==> exists o, b, t :: ConflictAt(locks, lock, o, b, t)
      ensures r.Some? ==> exists k :: 0 <= k < |locks| && r.value == locks[k] && FirstClash(locks, lock, k)
    {
      r := None;
      var i := 0;
      while i < |locks|
        invariant 0 <= i <= |locks|
        invariant forall k :: 0 <= k < i ==> !Clash(locks[k], lock)
      {
        var l := locks[i];
        if l.owner != lock.owner && lock.start <= l.end && l.start <= lock.end &&
           (l.ltype == WriteLock || lock.ltype == WriteLock) {
          var b := if l.start <= lock.start then lock.start else l.start;
          assert locks[i].On(l.owner, b, l.ltype);
          assert ConflictAt(locks, lock, l.owner, b, l.ltype);
          assert FirstClash(locks, lock, i);
          return Some(l);
        }
        i := i + 1;
      }
      forall o, b, t | ConflictAt(locks, lock, o, b, t)
        ensures false
      {
        var k :| 0 <= k < |locks| && locks[k].On(o, b, t);
        assert Clash(locks[k], lock);
      }
    }

    /** Take the requested bytes out of an entry of the other type; where to go on, and whether the
        entry reaches beyond the request. */
    method TrimAt(i: nat, lock: Lock, newl2: bool) returns (next: nat, stop: bool, left: bool)
      requires i < |locks| && lock.start <= locks[i].end && locks[i].start <= lock.end
      requires newl2 || lock.start <= locks[i].start || locks[i].end <= lock.end
      modifies this
      ensures locks == old(locks)[..i] + Remainder(old(locks)[i], lock) + old(locks)[i + 1..]
      ensures next == i + if old(locks)[i].start < lock.start then 1 else 0
      ensures stop <==> lock.start <= old(locks)[i].start && lock.end < old(locks)[i].end
      ensures left <==> newl2 && !(old(locks)[i].start < lock.start && lock.end < old(locks)[i].end)
    {
      var l := locks[i];
      next, stop, left := i, false, newl2;
      if lock.start <= l.start && l.end <= lock.end {
        locks := locks[..i] + locks[i + 1..];
      } else if l.end <= lock.end {
        locks := locks[i := l.(end := lock.start - 1)];
        next := i + 1;
      } else if lock.start <= l.start {
        locks := locks[i := l.(start := lock.end + 1)];
        stop := true;
      } else {
        assert newl2;
        locks := locks[..i] + [l.(end := lock.start - 1), l.(start := lock.end + 1)] + locks[i + 1..];
        next, left := i + 1, false;
      }
    }

    /** Take in an entry of the same type. */
    method MergeAt(i: nat, lock: Lock, spare: bool, ghost s0: seq<Lock>, ghost request: Lock) returns (wider: Lock)
      requires Making(s0, request, locks, lock, i, spare)
      requires i < |locks| && locks[i].owner == lock.owner && locks[i].ltype == lock.ltype
      requires lock.start - 1 <= locks[i].end && locks[i].start - 1 <= lock.end
      modifies this
      ensures Making(s0, request, locks, wider, i, spare) && |locks| == |old(locks)| - 1
    {
      Merged(s0, request, locks, lock, i, spare);
      wider := Widen(lock, locks[i]);
      locks := locks[..i] + locks[i + 1..];
    }

    /** Cut an entry of the other type. */
    method CutAt(i: nat, lock: Lock, spare: bool, ghost s0: seq<Lock>, ghost request: Lock)
      returns (next: nat, stop: bool, left: bool)
      requires Making(s0, request, locks, lock, i, spare)
      requires i < |locks| && locks[i].owner == lock.owner && locks[i].ltype != lock.ltype
      requires lock.start <= locks[i].end && locks[i].start <= lock.end
      modifies this
      ensures Making(s0, request, locks, lock, next, left)
      ensures stop ==> next < |locks| && Beyond(lock, locks[next])
      ensures !stop ==> (spare && !left) || (left == spare && |locks| - next < |old(locks)| - i)
    {
      Trimmed(s0, request, locks, lock, i, spare);
      next, stop, left := TrimAt(i, lock, spare);
    }

    /** The loop of `locks_insert`: merge with entries of the same type, cut entries of the other
        one; `done` means that the request is already held. */
    method MakeRoom(request: Lock, spare: bool) returns (done: bool, lock: Lock, i: nat)
      requires request.InRange() && Normal(locks)
      requires spare || (request.ltype == Unlock && request.start == 0 && request.end == OFFSET_MAX)
      modifies this
      ensures Normal(locks) && AllParts(locks, old(locks))
      ensures done ==> forall o, b, t :: Held(locks, o, b, t) <==> HeldUnder(old(locks), request, o, b, t)
      ensures !done ==> (exists left :: Making(old(locks), request, locks, lock, i, left)) && (i < |locks| ==> Beyond(lock, locks[i]))
    {
      done, lock, i := false, request, 0;
      PartsOfSelf(locks);
      var newl2 := spare;  // whether the second preallocated entry is still available
      while i < |locks|
        invariant Making(old(locks), request, locks, lock, i, newl2)
        decreases newl2, |locks| - i
      {
        var l := locks[i];
        var same := lock.ltype == l.ltype;
        if l.owner != lock.owner || (if same then l.end < lock.start - 1 else l.end < lock.start) {
          Passed(old(locks), request, locks, lock, i, newl2);
          i := i + 1;
        } else if if same then lock.end < l.start - 1 else lock.end < l.start {
          break;
        } else if same {
          if l.start <= lock.start && lock.end <= l.end {
            AlreadyHeld(locks, i, lock, old(locks), request);
            done := true;
            return;
          }
          lock := MergeAt(i, lock, newl2, old(locks), request);
        } else {
          var stop;
          i, stop, newl2 := CutAt(i, lock, newl2, old(locks), request);
          if stop {
            break;
          }
        }
      }
    }

    /** `locks_insert`: `mem1` and `mem2` say whether the two allocations succeed. */
    method Insert(request: Lock, mem1: bool, mem2: bool) returns (ok: bool)
      requires request.InRange()
      requires Normal(locks)
      modifies this
      ensures ok <==> (mem1 && mem2) || (request.ltype == Unlock && request.start == 0 && request.end == OFFSET_MAX)
      ensures !ok ==> locks == old(locks)
      ensures Normal(locks)
      ensures ok ==> forall o, b, t :: Held(locks, o, b, t) <==> HeldUnder(old(locks), request, o, b, t)
      ensures ok ==> forall k :: 0 <= k < |locks| ==> IsPart(locks[k], old(locks)) || FromRequest(locks[k], request)
    {
      var newl1, newl2 := false, false;
      if request.ltype != Unlock || request.start != 0 || request.end != OFFSET_MAX {
        newl1, newl2 := mem1, mem2;
        if !newl1 || !newl2 {
          return false;
        }
      }
      ok := true;
      var done, lock, i := MakeRoom(request, newl2);
      if done {
        return;
      }
      ghost var left :| Making(old(locks), request, locks, lock, i, left);
      InsertStep(locks, i, lock, old(locks), request);
      if lock.ltype != Unlock {
        assert newl1;
        locks := locks[..i] + [lock] + locks[i..];
      }
    }
  }
}
