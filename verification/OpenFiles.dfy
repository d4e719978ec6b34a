/** Removing and replacing files that are open, as fuse.c does it with `hard_remove` off: the file is
    renamed to a hidden name and unlinked when its last handle is released. Requests run one after
    another; the backend is the map from names to files that the filesystem keeps. */
module OpenFiles {
  import opened Wrappers
  import opened CText
  import opened NodeTree

  const UINT_RANGE := 0x1_0000_0000

  type File = nat

  // ---------------------------------------------------------------- hidden names

  function Hex(n: nat, width: nat): (s: string)
    ensures |s| == width
  {
    if width == 0 then [] else Hex(n / 16, width - 1) + [HexDigit(n % 16)]
  }

  function Power16(width: nat): (n: nat) {
    if width == 0 then 1 else 16 * Power16(width - 1)
  }

  /** The digits say the number. */
  lemma {:induction false} HexReadsBack(n: nat, width: nat)
    requires n < Power16(width)
    ensures FromHex(Hex(n, width)) == n
  {
    if width > 0 {
      var s := Hex(n, width);
      HexReadsBack(n / 16, width - 1);
      assert s[..width - 1] == Hex(n / 16, width - 1) && DigitValue(s[width - 1]) == n % 16;
    }
  }

  lemma EightDigits()
    ensures Power16(8) == UINT_RANGE
  {
    assert Power16(2) == 0x100;
    assert Power16(4) == 0x1_0000;
    assert Power16(6) == 0x100_0000;
  }

  /** The name that `hidden_name` makes of a node's number and a counter. */
  function HiddenName(id: Id, ctr: nat): (s: string) {
    ".fuse_hidden" + Hex(id % UINT_RANGE, 8) + Hex(ctr, 8)
  }

  /** The prefix, eight hexadecimal digits of the node's number and eight of the counter. */
  lemma HiddenNameSays(id: Id, ctr: nat)
    requires ctr < UINT_RANGE
    ensures var s := HiddenName(id, ctr);
      |s| == 28 && s[..12] == ".fuse_hidden" && FromHex(s[12..20]) == id % UINT_RANGE && FromHex(s[20..]) == ctr
  {
    EightDigits();
    HexReadsBack(id % UINT_RANGE, 8);
    HexReadsBack(ctr, 8);
    var s := HiddenName(id, ctr);
    assert s[12..20] == Hex(id % UINT_RANGE, 8) && s[20..] == Hex(ctr, 8);
  }

  /** The counter of hidden names wraps around. */
  function Next(ctr: nat): (n: nat)
    requires ctr < UINT_RANGE
    ensures n < UINT_RANGE
  {
    if ctr == UINT_RANGE - 1 then 0 else ctr + 1
  }

  /** The counter after `d` steps, at most once around. */
  function Ahead(ctr: nat, d: nat): (n: int) {
    if ctr + d < UINT_RANGE then ctr + d else ctr + d - UINT_RANGE
  }

  /** How many steps lead to a counter, at least one. */
  function Distance(from: nat, to: nat): (d: int) {
    if from < to then to - from else to - from + UINT_RANGE
  }

  /** `c` is the first counter after `ctr` whose name the cache does not have. */
  ghost predicate NextFree(names: map<Key, Id>, dir: Id, id: Id, ctr: nat, c: nat) {
    exists dist :: 1 <= dist <= UINT_RANGE && c == Ahead(ctr, dist) && Key(dir, HiddenName(id, c)) !in names
      && forall d :: 1 <= d < dist ==> Key(dir, HiddenName(id, Ahead(ctr, d))) in names
  }

  /** The counters that have been tried, each the next free one after the last. */
  ghost predicate InTurn(names: map<Key, Id>, dir: Id, id: Id, ctr: nat, tried: seq<nat>) {
    forall j {:trigger TurnOf(names, dir, id, ctr, tried, j)} :: 0 <= j < |tried| ==> TurnOf(names, dir, id, ctr, tried, j)
  }

  ghost predicate TurnOf(names: map<Key, Id>, dir: Id, id: Id, ctr: nat, tried: seq<nat>, j: nat)
    requires j < |tried|
  {
    NextFree(names, dir, id, if j == 0 then ctr else tried[j - 1], tried[j])
  }

  /** No inquiry failed, and the backend has all the names. */
  ghost predicate AllTaken(names: map<Key, Id>, backend: map<Key, File>, dir: Id, id: Id, ctr: nat, error: nat -> bool, tried: seq<nat>) {
    && InTurn(names, dir, id, ctr, tried)
    && forall j :: 0 <= j < |tried| ==> !error(j) && Key(dir, HiddenName(id, tried[j])) in backend
  }

  /** The search for a hidden name: it ends with the first name that the backend does not have either, with
      an inquiry that fails, or after ten names. */
  ghost predicate Searched(names: map<Key, Id>, backend: map<Key, File>, dir: Id, id: Id, ctr: nat, error: nat -> bool,
                           tried: seq<nat>, r: Option<Key>) {
    && InTurn(names, dir, id, ctr, tried) && 0 < |tried| <= 10
    && var last := |tried| - 1;
       && AllTaken(names, backend, dir, id, ctr, error, tried[..last])
       && if error(last) then r.None?
          else if Key(dir, HiddenName(id, tried[last])) !in backend then r == Some(Key(dir, HiddenName(id, tried[last])))
          else r.None? && |tried| == 10
  }

  /** The name that a file is hidden under: the one the search finds, if the backend then renames the file. */
  ghost predicate Hidden(names: map<Key, Id>, backend: map<Key, File>, k: Key, ctr: nat, error: nat -> bool, fails: bool, to: Option<Key>)
    requires k in names
  {
    exists tried, r :: Searched(names, backend, k.parent, names[k], ctr, error, tried, r) && to == if fails then None else r
  }

  /** The next counter will do if nobody has its name. */
  lemma NextIsFree(names: map<Key, Id>, backend: map<Key, File>, k: Key, ctr: nat, error: nat -> bool, to: Option<Key>)
    requires k in names && ctr < UINT_RANGE && Hidden(names, backend, k, ctr, error, false, to) && !error(0)
    requires var first := Key(k.parent, HiddenName(names[k], Next(ctr))); first !in names && first !in backend
    ensures to == Some(Key(k.parent, HiddenName(names[k], Next(ctr))))
  {
    var tried, r :| Searched(names, backend, k.parent, names[k], ctr, error, tried, r) && to == r;
    assert TurnOf(names, k.parent, names[k], ctr, tried, 0);
    assert Ahead(ctr, 1) == Next(ctr);
  }

  lemma TriedOne(names: map<Key, Id>, backend: map<Key, File>, dir: Id, id: Id, ctr: nat, error: nat -> bool,
                 tried: seq<nat>, c: nat)
    requires AllTaken(names, backend, dir, id, ctr, error, tried) && |tried| < 10
    requires NextFree(names, dir, id, if tried == [] then ctr else tried[|tried| - 1], c)
    ensures var k := Key(dir, HiddenName(id, c));
      && (error(|tried|) ==> Searched(names, backend, dir, id, ctr, error, tried + [c], None))
      && (!error(|tried|) && k !in backend ==> Searched(names, backend, dir, id, ctr, error, tried + [c], Some(k)))
      && (!error(|tried|) && k in backend ==> AllTaken(names, backend, dir, id, ctr, error, tried + [c]))
      && (!error(|tried|) && k in backend && |tried| == 9 ==> Searched(names, backend, dir, id, ctr, error, tried + [c], None))
  {
    var more := tried + [c];
    assert more[..|tried|] == tried;
    forall j | 0 <= j < |more|
      ensures TurnOf(names, dir, id, ctr, more, j)
    {
      assert j < |tried| ==> TurnOf(names, dir, id, ctr, tried, j) && more[j] == tried[j];
    }
  }

  lemma HiddenNamesDiffer(id: Id, c: nat, c': nat)
    requires c < UINT_RANGE && c' < UINT_RANGE && HiddenName(id, c) == HiddenName(id, c')
    ensures c == c'
  {
    HiddenNameSays(id, c);
    HiddenNameSays(id, c');
  }

  /** Some counter gives a name that is not taken. */
  lemma {:induction false} FreeCounter(taken: set<Key>, dir: Id, id: Id, n: nat) returns (c: nat)
    requires |taken| < n <= UINT_RANGE
    ensures c < n && Key(dir, HiddenName(id, c)) !in taken
  {
    var k := Key(dir, HiddenName(id, n - 1));
    if k in taken {
      c := FreeCounter(taken - {k}, dir, id, n - 1);
      if Key(dir, HiddenName(id, c)) == k {
        HiddenNamesDiffer(id, c, n - 1);
      }
    } else {
      c := n - 1;
    }
  }

  // ---------------------------------------------------------------- names and files

  /** Names and links are inverse to each other. */
  ghost predicate Linked(names: map<Key, Id>, links: map<Id, Key>) {
    && (forall k :: k in names ==> names[k] in links && links[names[k]] == k)
    && (forall n :: n in links ==> links[n] in names && names[links[n]] == n)
  }

  /** The file of an open node is in the backend under the node's own name. */
  ghost predicate SafeAt(opens: map<Id, nat>, links: map<Id, Key>, backend: map<Key, File>, file: map<Id, File>, n: Id) {
    n in opens && opens[n] > 0 ==> n in links && links[n] in backend && n in file && backend[links[n]] == file[n]
  }

  ghost predicate Safe(opens: map<Id, nat>, links: map<Id, Key>, backend: map<Key, File>, file: map<Id, File>) {
    forall n {:trigger SafeAt(opens, links, backend, file, n)} :: SafeAt(opens, links, backend, file, n)
  }

  /** A file and its node move to a free name together. */
  lemma MovedSafe(opens: map<Id, nat>, names: map<Key, Id>, links: map<Id, Key>, backend: map<Key, File>, file: map<Id, File>,
                  src: Key, dest: Key)
    requires Linked(names, links) && Safe(opens, links, backend, file)
    requires src in names && src in backend && dest !in names
    ensures Linked((names - {src})[dest := names[src]], links[names[src] := dest])
    ensures Safe(opens, links[names[src] := dest], (backend - {src})[dest := backend[src]], file)
  {
    var links', backend' := links[names[src] := dest], (backend - {src})[dest := backend[src]];
    forall n
      ensures SafeAt(opens, links', backend', file, n)
    {
      assert SafeAt(opens, links, backend, file, n);
    }
  }

  /** A name that leads to no open node can be taken away, from the cache and from the backend. */
  lemma RemovedSafe(opens: map<Id, nat>, names: map<Key, Id>, links: map<Id, Key>, backend: map<Key, File>, file: map<Id, File>, k: Key)
    requires Linked(names, links) && Safe(opens, links, backend, file)
    requires k in names && names[k] in opens ==> opens[names[k]] == 0
    ensures Safe(opens, links, backend - {k}, file)
    ensures k in names ==> Linked(names - {k}, links - {names[k]}) && Safe(opens, links - {names[k]}, backend - {k}, file)
    ensures k in names ==> Safe(opens, links - {names[k]}, backend, file)
  {
    var links', backend' := if k in names then links - {names[k]} else links, backend - {k};
    forall n
      ensures SafeAt(opens, links, backend', file, n)
      ensures SafeAt(opens, links', backend', file, n) && SafeAt(opens, links', backend, file, n)
    {
      assert SafeAt(opens, links, backend, file, n);
    }
  }

  /** The node and its file have moved to the hidden name, or nothing has changed. */
  ghost predicate Hides(names: map<Key, Id>, backend: map<Key, File>, names': map<Key, Id>, backend': map<Key, File>,
                        k: Key, to: Option<Key>)
    requires k in names
  {
    match to
    case None => names' == names && backend' == backend
    case Some(h) =>
      && h.parent == k.parent && h !in names && h !in backend && k in backend
      && names' == (names - {k})[h := names[k]] && backend' == (backend - {k})[h := backend[k]]
  }

  // ---------------------------------------------------------------- requests

  /** A request, with what the backend will say to it. */
  datatype Request =
    | LookupRequest(k: Key, id: Id)
    | CreateRequest(k: Key, id: Id, content: File, fails: bool)
    | OpenRequest(n: Id, fails: bool)
    | UnlinkRequest(k: Key, error: nat -> bool, fails: bool)
    | RenameRequest(src: Key, dest: Key, error: nat -> bool, hideFails: bool, fails: bool)
    | ReleaseRequest(n: Id, fails: bool)

  class FileTable {
    var names: map<Key, Id>
    var links: map<Id, Key>
    var opens: map<Id, nat>
    var hidden: set<Id>
    var hidectr: nat
    var backend: map<Key, File>
    /** The file that the handles of a node are for. */
    ghost var file: map<Id, File>

    constructor (backend: map<Key, File>)
      ensures Valid() && this.backend == backend && opens == map[] && names == map[] && hidectr == 0
    {
      this.backend := backend;
      names, links, opens, hidden, hidectr, file := map[], map[], map[], {}, 0, map[];
    }

    ghost predicate Valid()
      reads this
    {
      && Linked(names, links) && Safe(opens, links, backend, file) && hidectr < UINT_RANGE
      && (forall n :: n in links ==> n in opens)
      && forall n :: n in hidden ==> n in opens && opens[n] > 0
    }

    /** `is_open` */
    predicate IsOpen(k: Key)
      reads this
    {
      k in names && names[k] in opens && opens[names[k]] > 0
    }

    method CountUp()
      requires hidectr < UINT_RANGE
      modifies this`hidectr
      ensures hidectr == Next(old(hidectr))
    {
      hidectr := (hidectr + 1) % UINT_RANGE;
    }

    /** The inner loop of `hidden_name`. */
    method NextHidden(dir: Id, id: Id) returns (k: Key)
      requires hidectr < UINT_RANGE && |names| < UINT_RANGE
      modifies this`hidectr
      ensures hidectr < UINT_RANGE && k == Key(dir, HiddenName(id, hidectr)) && k !in names
      ensures NextFree(names, dir, id, old(hidectr), hidectr)
    {
      ghost var free := FreeCounter(names.Keys, dir, id, UINT_RANGE);
      CountUp();
      k := Key(dir, HiddenName(id, hidectr));
      ghost var dist := 1;
      while k in names
        invariant hidectr < UINT_RANGE && k == Key(dir, HiddenName(id, hidectr))
        invariant 1 <= dist && hidectr == Ahead(old(hidectr), dist) && dist <= Distance(old(hidectr), free)
        invariant forall d :: 1 <= d < dist ==> Key(dir, HiddenName(id, Ahead(old(hidectr), d))) in names
        decreases UINT_RANGE - dist
      {
        CountUp();
        dist := dist + 1;
        k := Key(dir, HiddenName(id, hidectr));
      }
    }

    /** `hidden_name`: at most ten names are tried; `error` says which inquiry fails. */
    method HiddenNameFor(k: Key, error: nat -> bool) returns (r: Option<Key>)
      requires k in names && hidectr < UINT_RANGE && |names| < UINT_RANGE
      modifies this`hidectr
      ensures hidectr < UINT_RANGE
      ensures r.Some? ==> r.value.parent == k.parent && r.value !in names && r.value !in backend
      ensures exists tried :: Searched(names, backend, k.parent, names[k], old(hidectr), error, tried, r)
    {
      var i := 0;
      ghost var tried: seq<nat> := [];
      while i < 10
        invariant i <= 10 && |tried| == i && hidectr == (if i == 0 then old(hidectr) else tried[i - 1])
        invariant AllTaken(names, backend, k.parent, names[k], old(hidectr), error, tried)
        invariant i == 10 ==> Searched(names, backend, k.parent, names[k], old(hidectr), error, tried, None)
        invariant hidectr < UINT_RANGE
      {
        var next := NextHidden(k.parent, names[k]);
        TriedOne(names, backend, k.parent, names[k], old(hidectr), error, tried, hidectr);
        tried := tried + [hidectr];
        if error(i) {
          return None;
        }
        if next !in backend {
          return Some(next);
        }
        i := i + 1;
      }
      return None;
    }

    /** Renaming in the backend replaces what was there. */
    method BackendRename(src: Key, dest: Key, fails: bool) returns (ok: bool)
      modifies this`backend
      ensures ok <==> !fails && src in old(backend)
      ensures backend == if ok then (old(backend) - {src})[dest := old(backend)[src]] else old(backend)
    {
      ok := !fails && src in backend;
      if ok {
        backend := (backend - {src})[dest := backend[src]];
      }
    }

    method BackendUnlink(k: Key, fails: bool) returns (ok: bool)
      modifies this`backend
      ensures ok <==> !fails && k in old(backend)
      ensures backend == if ok then old(backend) - {k} else old(backend)
    {
      ok := !fails && k in backend;
      if ok {
        backend := backend - {k};
      }
    }

    /** `hide_node`: an open file keeps its contents under a name that nobody uses. */
    method HideNode(k: Key, error: nat -> bool, fails: bool) returns (to: Option<Key>)
      requires Valid() && IsOpen(k) && |names| < UINT_RANGE
      modifies this`hidectr, this`backend, this`names, this`links, this`hidden
      ensures Valid()
      ensures Hides(old(names), old(backend), names, backend, k, to)
      ensures hidden == if to.Some? then old(hidden) + {old(names)[k]} else old(hidden)
      ensures Hidden(old(names), old(backend), k, old(hidectr), error, fails, to)
    {
      to := HiddenNameFor(k, error);
      if to.None? {
        return;
      }
      var n := names[k];
      assert SafeAt(opens, links, backend, file, n);
      MovedSafe(opens, names, links, backend, file, k, to.value);
      var ok := BackendRename(k, to.value, fails);
      if !ok {
        return None;
      }
      names := (names - {k})[to.value := n];
      links := links[n := to.value];
      hidden := hidden + {n};
    }

    /** `fuse_lib_unlink`: the name is gone, and what was open stays where its handles find it. A file that
        is not open is removed exactly when the backend has it and lets it go; an open one is hidden
        exactly when the search for a name finds one and the backend renames the file. */
    method Unlink(k: Key, error: nat -> bool, fails: bool) returns (ok: bool, hid: Option<Key>)
      requires Valid() && |names| < UINT_RANGE
      modifies this`hidectr, this`backend, this`names, this`links, this`hidden
      ensures Valid()
      ensures ok ==> k !in names && k !in backend
      ensures !ok ==> names == old(names) && backend == old(backend) && hidden == old(hidden) && hid.None?
      ensures !old(IsOpen(k)) ==> hid.None? && (ok <==> !fails && k in old(backend))
      ensures ok && !old(IsOpen(k)) ==> names == old(names) - {k} && backend == old(backend) - {k} && hidden == old(hidden)
      ensures old(IsOpen(k)) ==>
                && Hides(old(names), old(backend), names, backend, k, hid) && (ok <==> hid.Some?)
                && (ok ==> hidden == old(hidden) + {old(names)[k]})
      ensures old(IsOpen(k)) ==> Hidden(old(names), old(backend), k, old(hidectr), error, fails, hid)
    {
      hid := None;
      if IsOpen(k) {
        hid := HideNode(k, error, fails);
        ok := hid.Some?;
      } else {
        ok := RemoveFile(k, fails);
      }
    }

    /** A file that is not open goes, and its node with it. */
    method RemoveFile(k: Key, fails: bool) returns (ok: bool)
      requires Valid() && !IsOpen(k)
      modifies this`backend, this`names, this`links
      ensures Valid() && (ok <==> !fails && k in old(backend))
      ensures names == (if ok then old(names) - {k} else old(names))
      ensures backend == (if ok then old(backend) - {k} else old(backend))
    {
      RemovedSafe(opens, names, links, backend, file, k);
      ok := BackendUnlink(k, fails);
      if ok {
        if k in names {
          links := links - {names[k]};
          names := names - {k};
        } else {
          assert names - {k} == names;
        }
      }
    }

    /** `rename_node` without hiding. */
    method RenameNode(src: Key, dest: Key)
      modifies this`names, this`links
      ensures src !in old(names) ==> names == old(names) && links == old(links)
      ensures src in old(names) ==>
                var n := old(names)[src];
                && names == (old(names) - {src, dest})[dest := n]
                && links == (if dest in old(names) then old(links) - {old(names)[dest]} else old(links))[n := dest]
    {
      if src in names {
        var n := names[src];
        if dest in names {
          links := links - {names[dest]};
        }
        names := (names - {src, dest})[dest := n];
        links := links[n := dest];
      }
    }

    /** `fuse_lib_rename`: a target that is open is hidden first, under the name `hid`.  A rename that
        succeeds moves the file, unless the source is the very name that was chosen for hiding: then it
        puts the target back.  A rename that fails leaves names and files alone exactly when it has not
        hidden the target; otherwise the target stays hidden. */
    method Rename(src: Key, dest: Key, error: nat -> bool, hideFails: bool, fails: bool) returns (ok: bool, hid: Option<Key>)
      requires Valid() && |names| < UINT_RANGE
      modifies this`hidectr, this`backend, this`names, this`links, this`hidden
      ensures Valid()
      ensures !old(IsOpen(dest)) ==> hid.None?
      ensures old(IsOpen(dest)) ==> Hidden(old(names), old(backend), dest, old(hidectr), error, hideFails, hid)
      ensures hid.Some? ==> hid.value !in old(names) && hid.value !in old(backend)
      ensures ok ==> dest in backend && (src in old(names) ==> dest in names && names[dest] == old(names)[src])
      ensures ok && hid != Some(src) ==> src in old(backend) && backend[dest] == old(backend)[src]
      ensures ok && hid == Some(src) ==> src !in old(backend) && dest in old(backend) && backend[dest] == old(backend)[dest]
      ensures ok && src != dest ==> src !in backend && src !in names
      ensures !ok && hid.None? ==> names == old(names) && backend == old(backend)
      ensures !ok && hid.Some? ==> Hides(old(names), old(backend), names, backend, dest, hid) && dest !in names && dest !in backend
      ensures ok <==>
                && !fails && (old(IsOpen(dest)) ==> hid.Some?)
                && (hid == Some(src) || (src in old(backend) && (hid.Some? ==> src != dest)))
    {
      hid := None;
      if IsOpen(dest) {
        hid := HideNode(dest, error, hideFails);
        if hid.None? {
          return false, None;
        }
      }
      ReplacedSafe(opens, names, links, backend, file, src, dest);
      ok := BackendRename(src, dest, fails);
      if ok {
        RenameNode(src, dest);
      }
    }

    /** `lookup_path`, for a file that the backend has: the node of the name, or a new one. */
    method Lookup(k: Key, id: Id) returns (n: Id)
      requires Valid() && k in backend && id !in opens
      modifies this`names, this`links, this`opens
      ensures Valid() && k in names && n == names[k] && links[n] == k
      ensures k in old(names) ==> names == old(names) && links == old(links) && opens == old(opens)
      ensures k !in old(names) ==> n == id && names == old(names)[k := id] && links == old(links)[id := k] && opens == old(opens)[id := 0]
    {
      if k !in names {
        LinkedSafe(opens, names, links, backend, file, k, id);
        names, links, opens := names[k := id], links[id := k], opens[id := 0];
      }
      n := names[k];
    }

    /** `fuse_lib_open` */
    method Open(n: Id, fails: bool) returns (ok: bool)
      requires Valid() && n in links
      modifies this`opens, this`file
      ensures Valid() && (ok <==> !fails && links[n] in backend)
      ensures opens == if ok then old(opens)[n := old(opens)[n] + 1] else old(opens)
      ensures ok ==> n in file && file[n] == backend[links[n]] && (old(opens)[n] > 0 ==> file == old(file))
    {
      ok := !fails && links[n] in backend;
      if ok {
        OpenedSafe(opens, links, backend, file, n);
        file := if opens[n] > 0 then file else file[n := backend[links[n]]];
        opens := opens[n := opens[n] + 1];
      }
    }

    /** `fuse_do_release`: the last handle of a hidden file takes the file with it. */
    method Release(n: Id, fails: bool)
      requires Valid() && n in opens && opens[n] > 0
      modifies this`opens, this`hidden, this`backend
      ensures Valid() && opens == old(opens)[n := old(opens)[n] - 1]
      ensures n in old(hidden) && old(opens)[n] == 1 ==>
                hidden == old(hidden) - {n} && n in links && backend == if fails then old(backend) else old(backend) - {links[n]}
      ensures !(n in old(hidden) && old(opens)[n] == 1) ==> backend == old(backend) && hidden == old(hidden)
    {
      assert opens[n] > 0;
      assert SafeAt(opens, links, backend, file, n);
      ReleasedSafe(opens, links, backend, file, n);
      opens := opens[n := opens[n] - 1];
      if n in hidden && opens[n] == 0 {
        hidden := hidden - {n};
        RemovedSafe(opens, names, links, backend, file, links[n]);
        var _ := BackendUnlink(links[n], fails);
      }
    }

    /** `fuse_lib_create`: the backend makes the file, or opens the one it has under that name, and the
        node of the name has a handle more. */
    method Create(k: Key, id: Id, content: File, fails: bool) returns (r: Option<Id>)
      requires Valid() && id !in opens
      modifies this`names, this`links, this`opens, this`backend, this`file
      ensures Valid() && (r.None? <==> fails)
      ensures backend == if fails || k in old(backend) then old(backend) else old(backend)[k := content]
      ensures fails ==> opens == old(opens)
      ensures r.Some? ==> r.value == (if k in old(names) then old(names)[k] else id)
      ensures names == if fails || k in old(names) then old(names) else old(names)[k := id]
      ensures r.Some? ==>
                var n := r.value;
                && n in opens && opens[n] == (if k in old(names) && n in old(opens) then old(opens)[n] else 0) + 1
                && n in file && file[n] == backend[k]
    {
      if fails {
        return None;
      }
      if k !in backend {
        CreatedSafe(opens, links, backend, file, k, content);
        backend := backend[k := content];
      }
      var n := Lookup(k, id);
      var ok := Open(n, false);
      return Some(n);
    }

    /** What the kernel asks of nodes it knows. */
    predicate Sensible(r: Request)
      reads this
    {
      match r
      case LookupRequest(k, id) => k in backend && id !in opens
      case CreateRequest(_, id, _, _) => id !in opens
      case OpenRequest(n, _) => n in links
      case ReleaseRequest(n, _) => n in opens && opens[n] > 0
      case _ => |names| < UINT_RANGE
    }

    /** Every run of requests: hidden files are open, and every open file is in the backend under the
        name of its node. */
    method Run(requests: seq<Request>)
      requires Valid()
      modifies this
      ensures Valid()
    {
      for i := 0 to |requests|
        invariant Valid()
      {
        if Sensible(requests[i]) {
          match requests[i]
          case LookupRequest(k, id) => var _ := Lookup(k, id);
          case CreateRequest(k, id, content, fails) => var _ := Create(k, id, content, fails);
          case OpenRequest(n, fails) => var _ := Open(n, fails);
          case UnlinkRequest(k, error, fails) => var _, _ := Unlink(k, error, fails);
          case RenameRequest(src, dest, error, hideFails, fails) => var _, _ := Rename(src, dest, error, hideFails, fails);
          case ReleaseRequest(n, fails) => Release(n, fails);
        }
      }
    }
  }

  lemma CreatedSafe(opens: map<Id, nat>, links: map<Id, Key>, backend: map<Key, File>, file: map<Id, File>, k: Key, content: File)
    requires Safe(opens, links, backend, file) && k !in backend
    ensures Safe(opens, links, backend[k := content], file)
  {
    var backend' := backend[k := content];
    forall n
      ensures SafeAt(opens, links, backend', file, n)
    {
      assert SafeAt(opens, links, backend, file, n);
    }
  }

  lemma LinkedSafe(opens: map<Id, nat>, names: map<Key, Id>, links: map<Id, Key>, backend: map<Key, File>, file: map<Id, File>, k: Key, id: Id)
    requires Linked(names, links) && Safe(opens, links, backend, file) && k !in names && id !in links && id !in opens
    ensures Linked(names[k := id], links[id := k]) && Safe(opens[id := 0], links[id := k], backend, file)
  {
    var opens', links' := opens[id := 0], links[id := k];
    forall n
      ensures SafeAt(opens', links', backend, file, n)
    {
      assert SafeAt(opens, links, backend, file, n);
    }
  }

  lemma OpenedSafe(opens: map<Id, nat>, links: map<Id, Key>, backend: map<Key, File>, file: map<Id, File>, n: Id)
    requires Safe(opens, links, backend, file) && n in opens && n in links && links[n] in backend
    ensures var file' := if opens[n] > 0 then file else file[n := backend[links[n]]];
      n in file' && file'[n] == backend[links[n]] && Safe(opens[n := opens[n] + 1], links, backend, file')
  {
    var file' := if opens[n] > 0 then file else file[n := backend[links[n]]];
    var opens' := opens[n := opens[n] + 1];
    forall m
      ensures SafeAt(opens', links, backend, file', m)
    {
      assert SafeAt(opens, links, backend, file, m);
    }
    assert SafeAt(opens, links, backend, file, n);
  }

  lemma ReleasedSafe(opens: map<Id, nat>, links: map<Id, Key>, backend: map<Key, File>, file: map<Id, File>, n: Id)
    requires Safe(opens, links, backend, file) && n in opens && opens[n] > 0
    ensures Safe(opens[n := opens[n] - 1], links, backend, file)
  {
    var opens' := opens[n := opens[n] - 1];
    forall m
      ensures SafeAt(opens', links, backend, file, m)
    {
      assert SafeAt(opens, links, backend, file, m);
    }
  }

  /** Replacing a file that is not open. */
  lemma ReplacedSafe(opens: map<Id, nat>, names: map<Key, Id>, links: map<Id, Key>, backend: map<Key, File>, file: map<Id, File>,
                     src: Key, dest: Key)
    requires Linked(names, links) && Safe(opens, links, backend, file)
    requires dest in names && names[dest] in opens ==> opens[names[dest]] == 0
    ensures src in names && src in backend ==>
      var n := names[src];
      var links' := (if dest in names then links - {names[dest]} else links)[n := dest];
      && Linked((names - {src, dest})[dest := n], links')
      && Safe(opens, links', (backend - {src})[dest := backend[src]], file)
    ensures src !in names && src in backend ==> Safe(opens, links, (backend - {src})[dest := backend[src]], file)
  {
    if src in backend {
      var backend' := (backend - {src})[dest := backend[src]];
      var links' := if src in names then (if dest in names then links - {names[dest]} else links)[names[src] := dest] else links;
      forall n
        ensures SafeAt(opens, links', backend', file, n)
      {
        assert SafeAt(opens, links, backend, file, n);
      }
    }
  }

  /** A rename from a name that exists nowhere can succeed: the target is open, and the name is the one it
      is hidden under. */
  method HiddenNameMistaken(target: Key, id: Id, content: File) returns (existed: bool, ok: bool)
    requires target.name != HiddenName(id, 1)
    ensures !existed && ok
  {
    var src := Key(target.parent, HiddenName(id, 1));
    var t := new FileTable(map[]);
    var r := t.Create(target, id, content, false);
    existed := src in t.names || src in t.backend;
    assert t.names == map[target := id] && t.backend == map[target := content];
    var error, hid := _ => false, None;
    ghost var names, backend := t.names, t.backend;
    ok, hid := t.Rename(src, target, error, false, false);
    NextIsFree(names, backend, target, 0, error, hid);
  }
}
