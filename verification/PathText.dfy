/** Paths of nodes as text: what `try_get_path` of fuse.c builds in its backward-growing buffer, and
    why looking the components up again leads back to the node. */
module PathText {
  import opened Wrappers
  import opened NodeTree

  const BUF_MAX := 0xffff_ffff

  // ---------------------------------------------------------------- the buffer

  /** Write a slash and a name right before position `s`. */
  method PutBefore(buf: array<char>, s: nat, name: string, ghost text: string)
    requires |name| < s < buf.Length && buf[s..buf.Length - 1] == text
    modifies buf
    ensures buf[s - |name| - 1..buf.Length - 1] == "/" + name + text && buf[buf.Length - 1] == old(buf[buf.Length - 1])
  {
    var at := s - |name|;
    forall i | 0 <= i < |name| {
      buf[at + i] := name[i];
    }
    buf[at - 1] := '/';
    assert buf[at..s] == name;
    assert buf[s..buf.Length - 1] == text;
    assert buf[at - 1..buf.Length - 1] == ['/'] + buf[at..s] + buf[s..buf.Length - 1];
  }

  class PathBuffer {
    var buf: array<char>
    var s: nat

    ghost predicate Valid()
      reads this, buf
    {
      s < buf.Length <= BUF_MAX && 0 < buf.Length && buf[buf.Length - 1] == '\0'
    }

    /** The text built so far, without its terminator. */
    ghost function Text(): (r: string)
      requires Valid()
      reads this, buf
    {
      buf[s..buf.Length - 1]
    }

    constructor ()
      ensures Valid() && fresh(buf) && Text() == []
    {
      buf := new char[256](_ => '\0');
      s := 255;
    }

    /** The reallocation of `add_name`: double until the name fits, keep the suffix at the end. */
    method Grow(len: nat)
      requires Valid() && |Text()| + 1 + len + 1 <= BUF_MAX
      modifies this
      ensures Valid() && fresh(buf) && Text() == old(Text()) && s > len
    {
      var pathlen := buf.Length - s;
      var size := buf.Length;
      while size < pathlen + len + 1
        invariant buf.Length <= size <= BUF_MAX
        decreases BUF_MAX - size
      {
        size := if size >= 0x8000_0000 then BUF_MAX else size * 2;
      }
      var grown := new char[size];
      var at := size - pathlen;
      forall i | 0 <= i < pathlen {
        grown[at + i] := buf[s + i];
      }
      assert grown[size - 1] == buf[buf.Length - 1];
      assert grown[at..size - 1] == Text();
      buf, s := grown, at;
    }

    method PutName(name: string)
      requires Valid() && |name| < s
      modifies this, buf
      ensures Valid() && buf == old(buf) && Text() == "/" + name + old(Text())
    {
      PutBefore(buf, s, name, Text());
      s := s - |name| - 1;
    }

    /** `add_name`: put a slash and the name before everything that is there. */
    method AddName(name: string)
      requires Valid() && |Text()| + 1 + |name| + 1 <= BUF_MAX
      modifies this, buf
      ensures Valid() && (buf == old(buf) || fresh(buf)) && Text() == "/" + name + old(Text())
    {
      if s <= |name| {
        Grow(|name|);
      }
      PutName(name);
    }

    /** The text moved to the front of the buffer; the root's own path is a slash. */
    method Finish() returns (path: string)
      requires Valid() && (Text() != [] ==> Text()[0] == '/')
      ensures path == if Text() == [] then "/" else Text()
    {
      assert s < buf.Length - 1 ==> buf[s] == Text()[0];
      path := if buf[s] != '\0' then buf[s..buf.Length - 1] else "/";
    }
  }

  // ---------------------------------------------------------------- components

  /** A way up: each node hangs under the next, and the last one under `top`. */
  ghost predicate Climbs(nodes: map<Id, Node>, c: seq<Id>, top: Id) {
    forall i :: 0 <= i < |c| ==> c[i] in nodes && nodes[c[i]].link.Some? && nodes[c[i]].link.value.parent == (c + [top])[i + 1]
  }

  predicate AllLinked(nodes: map<Id, Node>, c: seq<Id>) {
    forall i :: 0 <= i < |c| ==> c[i] in nodes && nodes[c[i]].link.Some?
  }

  /** The names along a way up, read downwards. */
  function Names(nodes: map<Id, Node>, c: seq<Id>): (r: seq<string>)
    requires AllLinked(nodes, c)
    ensures |r| == |c|
  {
    if c == [] then [] else [nodes[c[|c| - 1]].link.value.name] + Names(nodes, c[..|c| - 1])
  }

  function JoinPath(names: seq<string>): (r: string)
    ensures names != [] ==> r != [] && r[0] == '/'
  {
    if names == [] then [] else "/" + names[0] + JoinPath(names[1..])
  }

  function PathOf(names: seq<string>): (r: string) {
    if names == [] then "/" else JoinPath(names)
  }

  function UntilSlash(s: string): (n: nat)
    ensures n <= |s| && '/' !in s[..n] && (n < |s| ==> s[n] == '/')
  {
    if s == [] || s[0] == '/' then 0
    else
      assert s[..1 + UntilSlash(s[1..])] == [s[0]] + s[1..][..UntilSlash(s[1..])];
      1 + UntilSlash(s[1..])
  }

  /** Cut a path at its slashes. */
  function Pieces(s: string): (r: seq<string>)
    decreases |s|
  {
    if s == [] then []
    else
      var n := UntilSlash(s[1..]);
      [s[1..n + 1]] + Pieces(s[n + 1..])
  }

  function Components(path: string): (r: seq<string>) {
    if path == "/" then [] else Pieces(path)
  }

  predicate GoodName(name: string) {
    name != [] && '/' !in name
  }

  lemma {:induction false} UntilIs(name: string, rest: string)
    requires '/' !in name && (rest != [] ==> rest[0] == '/')
    ensures UntilSlash(name + rest) == |name|
  {
    if name == [] {
      assert name + rest == rest;
    } else {
      UntilIs(name[1..], rest);
      assert (name + rest)[0] == name[0] && (name + rest)[1..] == name[1..] + rest;
    }
  }

  lemma PieceStep(name: string, rest: string)
    requires '/' !in name && (rest != [] ==> rest[0] == '/')
    ensures Pieces("/" + name + rest) == [name] + Pieces(rest)
  {
    var s := "/" + name + rest;
    UntilIs(name, rest);
    assert s[1..] == name + rest;
    assert s[1..|name| + 1] == name && s[|name| + 1..] == rest;
  }

  lemma {:induction false} PiecesOfJoined(names: seq<string>)
    requires forall i :: 0 <= i < |names| ==> '/' !in names[i]
    ensures Pieces(JoinPath(names)) == names
  {
    if names != [] {
      PiecesOfJoined(names[1..]);
      PieceStep(names[0], JoinPath(names[1..]));
      assert names == [names[0]] + names[1..];
    }
  }

  lemma ComponentsOfPath(names: seq<string>)
    requires forall i :: 0 <= i < |names| ==> GoodName(names[i])
    ensures Components(PathOf(names)) == names
  {
    if names != [] {
      PiecesOfJoined(names);
      assert |JoinPath(names)| > 1;
    }
  }

  // ---------------------------------------------------------------- looking components up

  /** Repeated `lookup_node`. */
  function Resolve(names: map<Key, Id>, n: Id, comps: seq<string>): (r: Option<Id>)
    decreases comps
  {
    if comps == [] then Some(n)
    else if Key(n, comps[0]) in names then Resolve(names, names[Key(n, comps[0])], comps[1..])
    else None
  }

  lemma {:induction false} ClimbedResolves(t: Tree, c: seq<Id>, top: Id)
    requires Shaped(t) && Climbs(t.nodes, c, top)
    ensures Resolve(t.names, top, Names(t.nodes, c)) == Some((c + [top])[0])
  {
    if c != [] {
      var init, last := c[..|c| - 1], c[|c| - 1];
      assert LinkOk(t, last);
      assert init + [last] == c;
      assert forall i :: 0 <= i < |init| ==> init[i] == c[i];
      ClimbedResolves(t, init, last);
      assert Names(t.nodes, c)[1..] == Names(t.nodes, init);
    }
  }

  lemma {:induction false} ResolvedClimbs(t: Tree, top: Id, comps: seq<string>) returns (c: seq<Id>)
    requires Shaped(t) && top in t.nodes && Resolve(t.names, top, comps).Some?
    ensures Climbs(t.nodes, c, top) && Names(t.nodes, c) == comps
    ensures Resolve(t.names, top, comps) == Some((c + [top])[0])
    decreases comps
  {
    if comps == [] {
      c := [];
    } else {
      var k := Key(top, comps[0]);
      assert NameOk(t, k);
      var d := ResolvedClimbs(t, t.names[k], comps[1..]);
      c := d + [t.names[k]];
      forall i | 0 <= i < |c|
        ensures c[i] in t.nodes && t.nodes[c[i]].link.Some? && t.nodes[c[i]].link.value.parent == (c + [top])[i + 1]
      {
        if i < |d| {
          assert (c + [top])[i + 1] == (d + [t.names[k]])[i + 1];
        }
      }
      assert c[..|c| - 1] == d && comps == [comps[0]] + comps[1..];
      assert (c + [top])[0] == (d + [t.names[k]])[0];
    }
  }

  lemma ChainClimbs(nodes: map<Id, Node>, c: seq<Id>)
    requires IsChain(nodes, c + [ROOT])
    ensures Climbs(nodes, c, ROOT)
  {
    forall i | 0 <= i < |c|
      ensures c[i] in nodes && nodes[c[i]].link.Some? && nodes[c[i]].link.value.parent == (c + [ROOT])[i + 1]
    {
      assert (c + [ROOT])[i] == c[i];
    }
  }

  lemma ClimbsIsChain(t: Tree, c: seq<Id>)
    requires Shaped(t) && Climbs(t.nodes, c, ROOT)
    ensures IsChain(t.nodes, c + [ROOT])
  {
    var d := c + [ROOT];
    forall i | 0 <= i < |d| - 1
      ensures t.nodes[d[i]].link.Some? && t.nodes[d[i]].link.value.parent == d[i + 1]
    {
      assert d[i] == c[i];
    }
  }

  ghost predicate GoodNames(t: Tree) {
    forall n :: n in t.nodes && t.nodes[n].link.Some? ==> GoodName(t.nodes[n].link.value.name)
  }

  /** Looking up the components of a node's path leads to the node. */
  lemma PathLeadsBack(t: Tree, n: Id, c: seq<Id>)
    requires Shaped(t) && GoodNames(t) && ChainFrom(t.nodes, n, c + [ROOT])
    ensures AllLinked(t.nodes, c)
    ensures Resolve(t.names, ROOT, Components(PathOf(Names(t.nodes, c)))) == Some(n)
  {
    ChainClimbs(t.nodes, c);
    ClimbedResolves(t, c, ROOT);
    NamesAreGood(t, c);
    ComponentsOfPath(Names(t.nodes, c));
  }

  lemma {:induction false} NamesAreGood(t: Tree, c: seq<Id>)
    requires GoodNames(t) && AllLinked(t.nodes, c)
    ensures forall i :: 0 <= i < |c| ==> GoodName(Names(t.nodes, c)[i])
  {
    if c != [] {
      NamesAreGood(t, c[..|c| - 1]);
    }
  }

  /** A node that can be looked up from the root by some components has their path. */
  lemma LookupGivesPath(t: Tree, comps: seq<string>, n: Id, c: seq<Id>)
    requires Shaped(t) && Resolve(t.names, ROOT, comps) == Some(n) && ChainFrom(t.nodes, n, c)
    ensures c[|c| - 1] == ROOT && AllLinked(t.nodes, c[..|c| - 1]) && Names(t.nodes, c[..|c| - 1]) == comps
  {
    var d := ResolvedClimbs(t, ROOT, comps);
    ClimbsIsChain(t, d);
    ChainUnique(t.nodes, c, d + [ROOT]);
    assert c[..|c| - 1] == d;
  }
}
