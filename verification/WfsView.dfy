/** A volume as its callers see it: the bytes of its files and the places of its tree, and the
    paths of wfs_lookup and resolve_parent as steps from place to place. */
module WfsView {
  import opened WfsLayout
  import opened WfsVolume
  import opened WfsDriver
  import opened WfsTree
  import opened WfsRecords
  import opened WfsDirs
  import opened WfsPaths
  import opened WfsFs
  import opened WfsRename
  import opened WfsPlaces
  import S = FileSpec
  import N = FileNumbers

  type Files = map<nat, seq<Byte>>

  function FilesOf(v: Vol): Files
  {
    map i | i in Live(v) && v.inodes[i].typ == File :: Contents(v, i)
  }

  /** A volume as its callers see it. */
  ghost function AbsOf(v: Vol): S.Fs { With(FilesOf(v), TreeOf(v)) }

  lemma DirIsInode(v: Vol, d: nat)
    requires IsDir(v, d)
    ensures 0 < d < |v.inodes| && d in TreeOf(v).dirs
  {
    TreeDirs(v);
  }

  /** A directory's dots are found. */
  lemma DotsAreFound(v: Vol, d: nat, name: Name)
    requires IsTree(TreeOf(v)) && IsDir(v, d) && IsDot(name) && 0 < d < |v.inodes|
    ensures Find(v, d, name).Ok?
  {
    EntriesInTree(v, d);
    var home: Homes, depth: map<nat, nat> :| Shape(TreeOf(v), home, depth);
    hide TreeOf, Entries;
    assert GoodDir(TreeOf(v).dirs[d], home, d);
    assert d in TreeOf(v).live && Up(home, d) != 0;
    assert Matches(Entries(v, d)[if name == DOT then 0 else 1], name);
  }

  lemma WhoIsFound(v: Vol, d: nat, name: Name)
    requires IsTree(TreeOf(v)) && IsDir(v, d) && !IsDot(name)
    ensures S.Who(AbsOf(v), d, name) == if Find(v, d, name).Ok? then {Find(v, d, name).value} else {}
    ensures Find(v, d, name).Err? ==> Find(v, d, name).error == ENOENT
  {
    hide TreeOf, IsTree, Entries, PlacesOf, FilesOf, S.Who, FindIdx;
    EntriesInTree(v, d);
    WhoIs(FilesOf(v), TreeOf(v), d, name);
  }

  /** What is found is in its place. */
  lemma FoundPlace(v: Vol, d: nat, name: Name)
    requires IsTree(TreeOf(v)) && Find(v, d, name).Ok? && !IsDot(name)
    ensures var i := Find(v, d, name).value;
      i in PlacesOf(TreeOf(v)) && PlacesOf(TreeOf(v))[i] == S.Place(d, name, IsDir(v, i))
  {
    var k := FindIdx(Entries(v, d), name, 0);
    FoundIsNamed(v, d, name);
    TreeDirs(v);
    EntriesInTree(v, d);
    hide TreeOf, IsTree, Entries, NamedAt;
    PlaceIs(TreeOf(v), Find(v, d, name).value, d, k);
  }

  /* ---- paths ---- */

  /** A directory's dots lead to itself and to where its own place is. */
  lemma DotsLead(v: Vol, d: nat)
    requires IsTree(TreeOf(v)) && IsDir(v, d)
    ensures Find(v, d, DOT) == Ok(d)
    ensures Find(v, d, DOTDOT) == Ok(if d in PlacesOf(TreeOf(v)) then PlacesOf(TreeOf(v))[d].dir else d)
  {
    EntriesInTree(v, d);
    DirIsInode(v, d);
    DotsStand(TreeOf(v), d);
    if d != ROOT_INO { DirPlace(TreeOf(v), d); }
    hide TreeOf, IsTree, Entries, PlaceIn;
  }

  lemma DotsStand(t: Tree, d: nat)
    requires IsTree(t) && d in t.dirs
    ensures |t.dirs[d]| >= 2 && t.dirs[d][0] == Ent(d, DOT) && d != 0 && t.dirs[d][1].name == DOTDOT
      && t.dirs[d][1].ino != 0
    ensures d == ROOT_INO ==> t.dirs[d][1].ino == d
    ensures FindIdx(t.dirs[d], DOT, 0) == 0 && FindIdx(t.dirs[d], DOTDOT, 0) == 1
  {
    var home: Homes, depth: map<nat, nat> :| Shape(t, home, depth);
    assert GoodDir(t.dirs[d], home, d);
    assert d in t.live && Up(home, d) != 0;
    assert Matches(t.dirs[d][0], DOT) && Matches(t.dirs[d][1], DOTDOT) && !Matches(t.dirs[d][0], DOTDOT);
  }

  lemma DirsAre(v: Vol, i: nat)
    requires IsTree(TreeOf(v)) && i in Live(v)
    ensures S.IsDirAt(AbsOf(v), i) <==> IsDir(v, i)
  {
    TreeDirs(v);
    TreeLive(v);
    TreeKeys(TreeOf(v));
    hide TreeOf, IsTree, FilesOf, PlaceIn;
    if i != ROOT_INO { var d, k := Placed(TreeOf(v), i); }
  }

  /** One component: what dir_find finds is what has that place. */
  lemma EnterIs(v: Vol, d: nat, name: Name)
    requires IsTree(TreeOf(v)) && d in Live(v)
    ensures S.Enter(AbsOf(v), true, d, name) == Find(v, d, name)
    ensures Find(v, d, name).Ok? ==> Find(v, d, name).value in Live(v)
  {
    hide TreeOf, IsTree, FilesOf, PlacesOf, Entries, S.Who;
    DirsAre(v, d);
    if IsDir(v, d) {
      if IsDot(name) {
        DotsLead(v, d);
        DotsLive(v, d);
      } else {
        WhoIsFound(v, d, name);
        if Find(v, d, name).Ok? { FoundIsNamed(v, d, name); }
      }
    }
  }

  lemma DotsLive(v: Vol, d: nat)
    requires IsTree(TreeOf(v)) && IsDir(v, d)
    ensures d in Live(v) && (d in PlacesOf(TreeOf(v)) ==> PlacesOf(TreeOf(v))[d].dir in Live(v))
  {
    DirIsInode(v, d);
    TreeLive(v);
    TreeKeys(TreeOf(v));
    if d != ROOT_INO { DirPlace(TreeOf(v), d); }
  }

  /** wfs_lookup from any inode. */
  lemma {:induction false} WalkIs(v: Vol, d: nat, p: Path)
    requires IsTree(TreeOf(v)) && d in Live(v)
    ensures S.Follow(AbsOf(v), true, d, Split(p)) == Walk(v, d, p)
    ensures Walk(v, d, p).Ok? ==> Walk(v, d, p).value in Live(v)
    decreases |p|
  {
    hide TreeOf, IsTree, AbsOf, Find, S.Enter, Live;
    var q := SkipSlashes(p);
    if q != [] {
      var n := CompLen(q);
      assert Split(p) == [q[..n]] + Split(q[n..]);
      EnterIs(v, d, q[..n]);
      var r := Find(v, d, q[..n]);
      if n <= NAME_MAX && r.Ok? { WalkIs(v, r.value, q[n..]); }
    }
  }

  lemma RootIsLive(v: Vol)
    requires IsTree(TreeOf(v))
    ensures ROOT_INO in Live(v) && IsDir(v, ROOT_INO)
  {
    TreeLive(v);
    TreeDirs(v);
    TreeKeys(TreeOf(v));
  }

  lemma LookUpIs(v: Vol, path: Path)
    requires IsTree(TreeOf(v))
    ensures S.LookUp(AbsOf(v), path) == LookupPath(v, path)
    ensures LookupPath(v, path).Ok? ==> LookupPath(v, path).value in Live(v)
  {
    hide TreeOf, IsTree, AbsOf, Walk, S.Follow, Live;
    RootIsLive(v);
    WalkIs(v, ROOT_INO, path);
  }

  /** And resolve_parent. */
  lemma ResolveIs(v: Vol, path: Path)
    requires IsTree(TreeOf(v))
    ensures S.OnDisk(AbsOf(v), path) == Resolve(v, path)
    ensures Resolve(v, path).Ok? ==> Resolve(v, path).value.0 in Live(v)
  {
    hide TreeOf, IsTree, AbsOf, LookupPath, S.LookUp, Live;
    RootIsLive(v);
    var s := LastSlash(path);
    if s > 0 { LookUpIs(v, path[..s]); }
  }

  /* ---- a tree of places ---- */

  lemma FilesArePlaced(v: Vol, i: nat)
    requires IsTree(TreeOf(v)) && i in FilesOf(v)
    ensures i in PlacesOf(TreeOf(v)) && i in Live(v) && !IsDir(v, i)
  {
    TreeLive(v);
    RootIsLive(v);
    hide TreeOf, IsTree, PlaceIn;
  }

  lemma PlaceFacts(v: Vol, i: nat)
    requires IsTree(TreeOf(v)) && i in PlacesOf(TreeOf(v))
    ensures i != ROOT_INO && IsDir(v, PlacesOf(TreeOf(v))[i].dir) && PlacesOf(TreeOf(v))[i].dir in Live(v)
  {
    TreeDirs(v);
    TreeLive(v);
    hide TreeOf, IsTree;
    var d, k := Placed(TreeOf(v), i);
    TreeKeys(TreeOf(v));
  }

  lemma OnePlace(v: Vol, i: nat, j: nat)
    requires IsTree(TreeOf(v)) && i in PlacesOf(TreeOf(v)) && j in PlacesOf(TreeOf(v))
    requires PlacesOf(TreeOf(v))[i].dir == PlacesOf(TreeOf(v))[j].dir
    requires PlacesOf(TreeOf(v))[i].name == PlacesOf(TreeOf(v))[j].name
    ensures i == j
  {
    hide TreeOf, IsTree;
    var t := TreeOf(v);
    var d, k := Placed(t, i);
    var e, m := Placed(t, j);
    UniqueIn(t, d);
  }

  /** What a volume looks like from outside is a tree of places. */
  lemma AbsIsProper(v: Vol)
    requires IsTree(TreeOf(v))
    ensures N.Proper(AbsOf(v))
  {
    hide TreeOf, IsTree, FilesOf, PlacesOf, S.IsDirAt;
    var fs := AbsOf(v);
    if ROOT_INO in fs.places { PlaceFacts(v, ROOT_INO); }
    forall i | i in fs.files ensures i in fs.places { FilesArePlaced(v, i); }
    forall i | i in fs.places ensures N.Housed(fs, i) {
      PlaceFacts(v, i);
      DirsAre(v, fs.places[i].dir);
    }
    forall i, j | i in fs.places && j in fs.places && N.SamePlace(fs, i, j) ensures i == j { OnePlace(v, i, j); }
  }
}
