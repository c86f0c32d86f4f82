/** Path resolution on a volume (kernel/fs/wfs.c): wfs_lookup and resolve_parent. */
module WfsPaths {
  import opened WfsLayout
  import opened WfsVolume
  import opened WfsDriver
  import opened WfsTree
  import opened WfsRecords
  import opened WfsDirs

  const SLASH: Byte := 47
  const PATH_MAX: nat := 255

  type Path = seq<Byte>

  function SkipSlashes(p: Path): (q: Path)
    ensures |q| <= |p| && (q != [] ==> q[0] != SLASH)
    ensures p != [] && p[0] == SLASH ==> |q| < |p|
    ensures p != [] && p[0] != SLASH ==> q == p
  {
    if p != [] && p[0] == SLASH then SkipSlashes(p[1..]) else p
  }

  /** The length of the first component. */
  function CompLen(p: Path): (n: nat)
    ensures n <= |p| && (n < |p| ==> p[n] == SLASH)
    ensures forall k :: 0 <= k < n ==> p[k] != SLASH
  {
    if p == [] || p[0] == SLASH then 0 else 1 + CompLen(p[1..])
  }

  /** The components of a path; runs of slashes are one. */
  function Split(p: Path): (cs: seq<Name>)
    ensures forall c <- cs :: c != [] && SLASH !in c
    decreases |p|
  {
    var q := SkipSlashes(p);
    if q == [] then []
    else
      var n := CompLen(q);
      [q[..n]] + Split(q[n..])
  }

  /** Following the components of `p` from `ino`. */
  function Walk(v: Vol, ino: nat, p: Path): Result<nat>
    decreases |p|
  {
    var q := SkipSlashes(p);
    if q == [] then Ok(ino)
    else
      var n := CompLen(q);
      if n > NAME_MAX then Err(ENAMETOOLONG)
      else
        var r := Find(v, ino, q[..n]);
        if r.Err? then r else Walk(v, r.value, q[n..])
  }

  /** What wfs_lookup answers. */
  function LookupPath(v: Vol, path: Path): Result<nat>
  {
    if path == [] || path[0] != SLASH then Err(EINVAL) else Walk(v, ROOT_INO, path)
  }

  /** Where strrchr finds the last slash; -1 when there is none. */
  function LastSlash(p: Path): (k: int)
    ensures -1 <= k < |p| && (k >= 0 ==> p[k] == SLASH)
    ensures forall m :: k < m < |p| ==> p[m] != SLASH
  {
    if p == [] then -1 else if p[|p| - 1] == SLASH then |p| - 1 else LastSlash(p[..|p| - 1])
  }

  /** What resolve_parent answers: the parent inode and the final component. */
  function Resolve(v: Vol, path: Path): (r: Result<(nat, Name)>)
    ensures r.Ok? ==> 0 < |r.value.1| <= NAME_MAX
  {
    var s := LastSlash(path);
    if s < 0 then Err(EINVAL)
    else
      var name := path[s + 1..];
      if name == [] then Err(EINVAL)
      else if |name| > NAME_MAX then Err(ENAMETOOLONG)
      else if s == 0 then Ok((ROOT_INO, name))
      else if s > PATH_MAX then Err(ENAMETOOLONG)
      else
        var r := LookupPath(v, path[..s]);
        if r.Ok? then Ok((r.value, name)) else Err(r.error)
  }

  method Lookup(w: Wfs, path: Path) returns (r: Result<nat>)
    requires Good(w)
    modifies w
    ensures w.V() == old(w.V()) && w.owner == old(w.owner)
    ensures r == LookupPath(w.V(), path)
  {
    if path == [] || path[0] != SLASH {
      return Err(EINVAL);
    }
    hide Own, Tidy, DirShape, Find;
    var ino, p := ROOT_INO, path;
    while p != []
      invariant w.V() == old(w.V()) && w.owner == old(w.owner)
      invariant Walk(w.V(), ROOT_INO, path) == Walk(w.V(), ino, p)
      decreases |p|
    {
      p := AfterSlashes(p);
      if p == [] {
        break;
      }
      var n := TakeName(p);
      if n > NAME_MAX {
        return Err(ENAMETOOLONG);
      }
      var f := DirFind(w, ino, p[..n]);
      if f.Err? {
        return f;
      }
      ino, p := f.value, p[n..];
    }
    r := Ok(ino);
  }

  method AfterSlashes(p: Path) returns (q: Path)
    ensures q == SkipSlashes(p)
  {
    q := p;
    while q != [] && q[0] == SLASH
      invariant SkipSlashes(q) == SkipSlashes(p)
    {
      q := q[1..];
    }
  }

  /** Measure the first component, giving up once it is too long for a name. */
  method TakeName(p: Path) returns (n: nat)
    ensures if CompLen(p) > NAME_MAX then n == NAME_MAX + 1 else n == CompLen(p)
  {
    n := 0;
    while n < |p| && p[n] != SLASH
      invariant n <= NAME_MAX && n <= |p| && n + CompLen(p[n..]) == CompLen(p)
    {
      if n >= NAME_MAX {
        return NAME_MAX + 1;
      }
      assert p[n..][1..] == p[n + 1..];
      n := n + 1;
    }
  }

  method ResolveParent(w: Wfs, path: Path) returns (r: Result<(nat, Name)>)
    requires Good(w)
    modifies w
    ensures w.V() == old(w.V()) && w.owner == old(w.owner)
    ensures r == Resolve(w.V(), path)
  {
    hide Own, Tidy, DirShape, LookupPath;
    var s := LastSlash(path);
    if s < 0 || s + 1 == |path| {
      return Err(EINVAL);
    }
    var name := path[s + 1..];
    if |name| > NAME_MAX {
      return Err(ENAMETOOLONG);
    }
    if s == 0 {
      return Ok((ROOT_INO, name));
    }
    if s > PATH_MAX {
      return Err(ENAMETOOLONG);
    }
    var l := Lookup(w, path[..s]);
    return if l.Ok? then Ok((l.value, name)) else Err(l.error);
  }

  /* ---- how deep a path can reach ---- */

  function Reach(p: Path): nat
  {
    if p != [] && p[0] == SLASH then |p| / 2 else (|p| + 1) / 2
  }

  /** What dir_find finds in a tree: itself, its parent, or something one level down. */
  lemma FindDepth(v: Vol, home: Homes, depth: map<nat, nat>, d: nat, name: Name)
    requires Shape(TreeOf(v), home, depth) && d in Live(v) && Find(v, d, name).Ok?
    ensures Find(v, d, name).value in Live(v)
    ensures depth[Find(v, d, name).value] <= depth[d] + 1
  {
    hide Ents;
    var es := Entries(v, d);
    var k := FindIdx(es, name, 0);
    assert d in TreeOf(v).dirs && TreeOf(v).dirs[d] == es;
    assert GoodDir(es, home, d);
    LiveEntries(TreeOf(v), home, depth, d, k);
    if k >= 2 { assert es[k].ino in home; }
  }

  /** A path reaches no deeper than it has components: one for every two bytes. */
  lemma {:induction false} WalkDepth(v: Vol, home: Homes, depth: map<nat, nat>, ino: nat, p: Path)
    requires Shape(TreeOf(v), home, depth) && ino in Live(v) && Walk(v, ino, p).Ok?
    ensures Walk(v, ino, p).value in Live(v)
    ensures depth[Walk(v, ino, p).value] <= depth[ino] + Reach(p)
    decreases |p|
  {
    hide Shape, TreeOf, Find;
    var q := SkipSlashes(p);
    if q != [] {
      var n := CompLen(q);
      FindDepth(v, home, depth, ino, q[..n]);
      WalkDepth(v, home, depth, Find(v, ino, q[..n]).value, q[n..]);
    }
  }

  /** The parent of a path that resolves is in use and at most 127 levels down. */
  lemma ResolveDepth(v: Vol, home: Homes, depth: map<nat, nat>, path: Path)
    requires Shape(TreeOf(v), home, depth) && Resolve(v, path).Ok?
    ensures Resolve(v, path).value.0 in Live(v) && depth[Resolve(v, path).value.0] <= 127
  {
    assert TreeOf(v).live == Live(v) && ROOT_INO in Live(v) && depth[ROOT_INO] == 0;
    hide Shape, TreeOf;
    var s := LastSlash(path);
    if s > 0 { WalkDepth(v, home, depth, ROOT_INO, path[..s]); }
  }
}
