/** Paths of the memory file system (kernel/fs/ramfs.c): the walk, and what the operations
    do to where a path leads. */
module RamWalk {
  import opened WfsLayout
  import opened RamStore
  import opened RamTree
  import P = WfsPaths
  import S = FileSpec

  const NAME_MAX: nat := 27

  type Path = seq<Byte>

  const MOUNT: Path := [47, 114, 97, 109, 100, 105, 115, 107]      // "/ramdisk"

  predicate Owns(path: Path) { S.Under(MOUNT, path) }

  /* ---- walking ---- */

  function ChildIn(ns: Nodes, cs: seq<nat>, name: Name): Option<nat>
  {
    if cs == [] then None
    else if cs[0] in ns && ns[cs[0]].name == name then Some(cs[0])
    else ChildIn(ns, cs[1..], name)
  }

  function Child(ns: Nodes, d: nat, name: Name): Option<nat>
  {
    if d in ns then ChildIn(ns, ns[d].children, name) else None
  }

  lemma {:induction false} ChildInFinds(ns: Nodes, cs: seq<nat>, name: Name)
    ensures match ChildIn(ns, cs, name)
      case Some(c) => c in cs && c in ns && ns[c].name == name
      case None => forall c :: c in cs && c in ns ==> ns[c].name != name
  {
    if cs != [] { ChildInFinds(ns, cs[1..], name); }
  }

  /** In a tree a name finds the one node that has it in that directory. */
  lemma ChildFinds(ns: Nodes, d: nat, name: Name)
    requires TreeOk(ns) && d in ns
    ensures match Child(ns, d, name)
      case Some(c) => c in ns && ns[c].parent == Some(d) && ns[c].name == name
      case None => forall c <- ns :: ns[c].parent == Some(d) ==> ns[c].name != name
  {
    ChildInFinds(ns, ns[d].children, name);
    assert ListsChildren(ns, d);
  }

  /** What a walk that stops one level short reports: the node if there is one, the
      directory it is or would be in, and the last component. */
  datatype Spot = Spot(node: Option<nat>, parent: Option<nat>, leaf: Name)

  const NOWHERE: Spot := Spot(None, None, [])

  function WalkTo(ns: Nodes, dir: nat, p: Path): Spot
    decreases |p|
  {
    var q := P.SkipSlashes(p);
    if q == [] then NOWHERE
    else
      var n := P.CompLen(q);
      var rest := P.SkipSlashes(q[n..]);
      if n > NAME_MAX then NOWHERE
      else if rest == [] then Spot(Child(ns, dir, q[..n]), Some(dir), q[..n])
      else
        var next := Child(ns, dir, q[..n]);
        if next.None? || next.value !in ns || ns[next.value].typ != Dir then NOWHERE
        else WalkTo(ns, next.value, rest)
  }

  function SpotOf(ns: Nodes, path: Path): Spot
  {
    if Owns(path) then WalkTo(ns, ROOT, path[|MOUNT|..]) else NOWHERE
  }

  /** The parent is a directory, and the node is the one of that name in it. */
  ghost predicate SpotOk(ns: Nodes, s: Spot)
  {
    && (s.parent.None? ==> s.node.None?)
    && (s.parent.Some? ==> s.parent.value in ns && ns[s.parent.value].typ == Dir && 0 < |s.leaf| <= NAME_MAX)
    && (s.node.Some? ==> s.node.value in ns && ns[s.node.value].parent == s.parent && ns[s.node.value].name == s.leaf)
    && (s.parent.Some? && s.node.None? ==> Vacant(ns, s.parent.value, s.leaf))
  }

  /** What a walk reports is so. */
  lemma {:induction false} WalkFinds(ns: Nodes, dir: nat, p: Path)
    requires TreeOk(ns) && dir in ns && ns[dir].typ == Dir
    ensures SpotOk(ns, WalkTo(ns, dir, p))
    decreases |p|
  {
    hide TreeOk, Child;
    var q := P.SkipSlashes(p);
    if q != [] {
      var n := P.CompLen(q);
      var rest := P.SkipSlashes(q[n..]);
      ChildFinds(ns, dir, q[..n]);
      var next := Child(ns, dir, q[..n]);
      if n <= NAME_MAX && rest != [] && next.Some? && ns[next.value].typ == Dir { WalkFinds(ns, next.value, rest); }
    }
  }

  /** Two nodes of one directory do not share a name, so a name finds the node that has it. */
  lemma ChildIs(ns: Nodes, d: nat, name: Name, c: nat)
    requires TreeOk(ns) && d in ns && c in ns && ns[c].parent == Some(d) && ns[c].name == name
    ensures Child(ns, d, name) == Some(c)
  {
    hide Child, ChildrenOk, ParentsOk, Rooted;
    ChildFinds(ns, d, name);
  }

  lemma ChildVacant(ns: Nodes, d: nat, name: Name)
    requires TreeOk(ns) && d in ns && forall c <- ns :: ns[c].parent == Some(d) ==> ns[c].name != name
    ensures Child(ns, d, name) == None
  {
    hide Child, ChildrenOk, ParentsOk, Rooted;
    ChildFinds(ns, d, name);
  }

  /* ---- what lies above ---- */

  /** `x` is `p` or above it. */
  ghost predicate Above(ns: Nodes, p: nat, x: nat) { exists k: nat :: Climb(ns, p, k) == x }

  lemma AboveNext(ns: Nodes, p: nat, x: nat, d: nat)
    requires Above(ns, p, x) && Parent(ns, x) == Some(d)
    ensures Above(ns, p, d)
  {
    var k: nat :| Climb(ns, p, k) == x;
    ClimbOn(ns, p, k, 1);
    assert Climb(ns, x, 1) == Climb(ns, d, 0);
    assert Climb(ns, p, k + 1) == d;
  }

  lemma AboveSelf(ns: Nodes, p: nat)
    ensures Above(ns, p, p)
  {
    assert Climb(ns, p, 0) == p;
  }

  /** Nothing is above its own parent. */
  lemma NotAboveParent(ns: Nodes, n: nat, p: nat)
    requires ParentsOk(ns) && Rooted(ns, n) && n in ns && ns[n].parent == Some(p)
    ensures !Above(ns, p, n)
  {
    if k: nat :| Climb(ns, p, k) == n {
      var top: nat :| Climb(ns, n, top) == ROOT;
      assert Climb(ns, n, 1 + k) == Climb(ns, p, k);
      Rounds(ns, n, 1 + k, top);
      assert top * (1 + k) == top + top * k;
      ClimbOn(ns, n, top, top * k);
      ClimbTop(ns, ROOT, top * k);
    }
  }

  lemma {:induction false} Rounds(ns: Nodes, n: nat, k: nat, m: nat)
    requires Climb(ns, n, k) == n
    ensures Climb(ns, n, m * k) == n
    decreases m
  {
    if m > 0 {
      Rounds(ns, n, k, m - 1);
      assert m * k == (m - 1) * k + k;
      ClimbOn(ns, n, (m - 1) * k, k);
    } else {
      assert m * k == 0;
    }
  }

  /** Where a walk starts is above where it ends. */
  lemma {:induction false} WalkBelow(ns: Nodes, dir: nat, p: Path)
    requires TreeOk(ns) && dir in ns && ns[dir].typ == Dir && WalkTo(ns, dir, p).parent.Some?
    ensures Above(ns, WalkTo(ns, dir, p).parent.value, dir)
    decreases |p|
  {
    hide TreeOk, Child, Above;
    var q := P.SkipSlashes(p);
    var n := P.CompLen(q);
    var rest := P.SkipSlashes(q[n..]);
    AboveSelf(ns, dir);
    if rest != [] {
      ChildFinds(ns, dir, q[..n]);
      var next := Child(ns, dir, q[..n]).value;
      WalkBelow(ns, next, rest);
      AboveNext(ns, WalkTo(ns, next, rest).parent.value, next, dir);
    }
  }

  /** The directories on the way to `p` are where they were. */
  ghost predicate WayKept(ns: Nodes, ns': Nodes, p: nat)
  {
    forall x :: x in ns && ns[x].typ == Dir && Above(ns, p, x) ==>
      x in ns' && ns'[x].typ == Dir && ns'[x].parent == ns[x].parent && ns'[x].name == ns[x].name
  }

  /** Then a path into `p` still leads into `p`, to whatever has its last name there now. */
  lemma {:induction false} WalkKept(ns: Nodes, ns': Nodes, dir: nat, path: Path)
    requires TreeOk(ns) && TreeOk(ns') && dir in ns && dir in ns' && ns[dir].typ == ns'[dir].typ == Dir
    requires WalkTo(ns, dir, path).parent.Some? && WayKept(ns, ns', WalkTo(ns, dir, path).parent.value)
    ensures var s := WalkTo(ns, dir, path);
      WalkTo(ns', dir, path) == Spot(Child(ns', s.parent.value, s.leaf), s.parent, s.leaf)
    decreases |path|
  {
    hide TreeOk, Child, Above;
    var q := P.SkipSlashes(path);
    var n := P.CompLen(q);
    var rest := P.SkipSlashes(q[n..]);
    if rest != [] {
      ChildFinds(ns, dir, q[..n]);
      var next := Child(ns, dir, q[..n]).value;
      WalkBelow(ns, next, rest);
      assert ns'[next].parent == Some(dir) && ns'[next].name == q[..n];
      ChildIs(ns', dir, q[..n], next);
      WalkKept(ns, ns', next, rest);
    }
  }

  lemma PathKept(ns: Nodes, ns': Nodes, path: Path)
    requires TreeOk(ns) && TreeOk(ns')
    requires SpotOf(ns, path).parent.Some? && WayKept(ns, ns', SpotOf(ns, path).parent.value)
    ensures var s := SpotOf(ns, path);
      SpotOf(ns', path) == Spot(Child(ns', s.parent.value, s.leaf), s.parent, s.leaf)
  {
    RootIsDir(ns);
    RootIsDir(ns');
    hide TreeOk, WalkTo, WayKept, Child;
    WalkKept(ns, ns', ROOT, path[|MOUNT|..]);
  }

  lemma RootIsDir(ns: Nodes)
    requires TreeOk(ns)
    ensures ROOT in ns && ns[ROOT].typ == Dir && ns[ROOT].parent == None
  {
  }

  lemma SpotFinds(ns: Nodes, path: Path)
    requires TreeOk(ns)
    ensures SpotOk(ns, SpotOf(ns, path))
  {
    RootIsDir(ns);
    hide TreeOk, Vacant, WalkTo;
    if Owns(path) { WalkFinds(ns, ROOT, path[|MOUNT|..]); }
  }

  /* ---- the other walk ---- */

  /** The walk that wants the node itself; the mount point is the root. */
  function Find(ns: Nodes, dir: nat, p: Path): Option<nat>
    decreases |p|
  {
    var q := P.SkipSlashes(p);
    if q == [] then Some(dir)
    else
      var n := P.CompLen(q);
      var rest := P.SkipSlashes(q[n..]);
      if n > NAME_MAX then None
      else
        var next := Child(ns, dir, q[..n]);
        if next.None? then None
        else if rest == [] then next
        else if next.value !in ns || ns[next.value].typ != Dir then None
        else Find(ns, next.value, rest)
  }

  function Lookup(ns: Nodes, path: Path): Option<nat>
  {
    if Owns(path) then Find(ns, ROOT, path[|MOUNT|..]) else None
  }

  /** The two walks agree wherever there is a last component to report. */
  lemma {:induction false} FindIsWalk(ns: Nodes, dir: nat, p: Path)
    ensures Find(ns, dir, p) == if P.SkipSlashes(p) == [] then Some(dir) else WalkTo(ns, dir, p).node
    decreases |p|
  {
    hide Child;
    var q := P.SkipSlashes(p);
    if q != [] {
      var n := P.CompLen(q);
      var rest := P.SkipSlashes(q[n..]);
      var next := Child(ns, dir, q[..n]);
      if n <= NAME_MAX && rest != [] && next.Some? && next.value in ns && ns[next.value].typ == Dir {
        FindIsWalk(ns, next.value, rest);
        assert P.SkipSlashes(rest) == rest;
      }
    }
  }

  lemma LookupIsSpot(ns: Nodes, path: Path)
    requires SpotOf(ns, path).parent.Some?
    ensures Lookup(ns, path) == SpotOf(ns, path).node
  {
    hide Child, WalkTo, Find;
    FindIsWalk(ns, ROOT, path[|MOUNT|..]);
    HasComponent(ns, ROOT, path[|MOUNT|..]);
  }

  lemma HasComponent(ns: Nodes, dir: nat, p: Path)
    requires WalkTo(ns, dir, p).parent.Some?
    ensures P.SkipSlashes(p) != []
  {
  }
}
