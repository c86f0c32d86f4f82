/** Creating, removing and renaming (kernel/fs/wfs.c), on a volume whose directories
    form a tree. */
module WfsFs {
  import opened WfsLayout
  import opened WfsVolume
  import opened WfsRoom
  import opened WfsTruncate
  import opened WfsDriver
  import opened WfsTree
  import opened WfsRecords
  import opened WfsDirs
  import opened WfsPaths

  /* ---- what taking and giving back an inode does to the tree ---- */

  lemma LiveElsewhere(v: Vol, v': Vol, i: nat)
    requires Untouched(v, v', {i}) && 0 < i < |v.inodes|
    ensures Live(v') == if v'.inodes[i].typ == Free then Live(v) - {i} else Live(v) + {i}
  {
    hide At, ByteAt;
  }

  lemma TreeAfterAlloc(v: Vol, v': Vol, i: nat)
    requires Untouched(v, v', {i}) && 0 < i < |v.inodes| && i !in Live(v)
    requires v'.inodes[i].typ != Free && v'.inodes[i].size == 0
    ensures TreeOf(v') == Tree(Live(v) + {i}, if v'.inodes[i].typ == Dir then TreeOf(v).dirs[i := []]
      else TreeOf(v).dirs)
  {
    LiveElsewhere(v, v', i);
    assert |v'.inodes| == |v.inodes|;
    assert Ents(Contents(v', i)) == [];
    hide Untouched, Ents;
    TreeElsewhere(v, v', i);
    var t, t' := TreeOf(v), TreeOf(v');
    assert i !in t.dirs;
    assert t.dirs - {i} == t.dirs;
    if v'.inodes[i].typ == Dir {
      MapPatch(t.dirs, t'.dirs, i, []);
    } else {
      assert i !in t'.dirs && t'.dirs - {i} == t'.dirs;
    }
  }

  lemma TreeAfterFree(v: Vol, v': Vol, i: nat)
    requires Untouched(v, v', {i}) && 0 < i < |v.inodes| && v'.inodes[i].typ == Free
    ensures TreeOf(v') == Tree(TreeOf(v).live - {i}, TreeOf(v).dirs - {i})
  {
    LiveElsewhere(v, v', i);
    hide Untouched, Ents;
    TreeElsewhere(v, v', i);
    assert i !in TreeOf(v').dirs;
    assert TreeOf(v').dirs - {i} == TreeOf(v').dirs;
  }

  lemma ShapeAfterInode(v: Vol, v': Vol, i: nat)
    requires DirShape(v) && Untouched(v, v', {i}) && i < |v.inodes| && v'.inodes[i].size == 0
    ensures DirShape(v')
  {
    DirShapeElsewhere(v, v', i);
  }

  /** An inode that holds no block. */
  ghost predicate Blank(v: Vol, i: nat)
  {
    i < |v.inodes| && v.inodes[i].blocks == 0 && forall u :: At(v, i, u) == 0
  }

  lemma BlankIsBlank(v: Vol, i: nat)
    requires i < |v.inodes|
    requires var n := v.inodes[i]; n == ZeroInode().(typ := n.typ, links := n.links, mtime := n.mtime)
    ensures Blank(v, i)
  {
    forall u ensures At(v, i, u) == 0 { BlankAt(v, i, u); }
  }

  lemma {:induction false} BlankAt(v: Vol, i: nat, u: Slot)
    requires i < |v.inodes| && v.inodes[i].direct == ZeroInode().direct
      && v.inodes[i].indirect == v.inodes[i].double == 0
    ensures At(v, i, u) == 0
    decreases Level(u)
  {
    if ValidSlot(u) && !InInode(u) { BlankAt(v, i, Holder(u)); }
  }

  lemma NoInodes(v: Vol)
    requires Tidy(v) && FreeInodes(v) == {}
    ensures v.freeInodes == 0
  {
    hide ByteAt;
  }

  /** Claim an inode. */
  method NewInode(w: Wfs, typ: FileType, now: nat) returns (r: Result<nat>)
    requires Good(w) && typ != Free
    modifies w
    ensures Good(w) && w.owner == old(w.owner)
    ensures r.Err? ==> r.error == ENOSPC && w.V() == old(w.V()) && w.freeInodes == 0
    ensures r.Ok? ==>
      w.freeInodes + 1 == old(w.freeInodes) && Blank(w.V(), r.value) && w.freeBlocks == old(w.freeBlocks)
    ensures r.Ok? ==>
      && 0 < r.value < |w.inodes| == |old(w.inodes)| && r.value !in Live(old(w.V())) && OwnedBy(w.owner, r.value) == {}
      && Untouched(old(w.V()), w.V(), {r.value}) && w.inodes[r.value].typ == typ && w.inodes[r.value].size == 0
      && TreeOf(w.V()) == Tree(Live(old(w.V())) + {r.value},
           if typ == Dir then TreeOf(old(w.V())).dirs[r.value := []] else TreeOf(old(w.V())).dirs)
  {
    hide Own, Tidy, DirShape, TreeOf, Untouched;
    ghost var v := w.V();
    r := w.InodeAlloc(typ, now);
    if r.Err? { NoInodes(v); } else {
      BlankIsBlank(w.V(), r.value);
      OnlyFileUntouched(v, w.V(), r.value);
      ShapeAfterInode(v, w.V(), r.value);
      TreeAfterAlloc(v, w.V(), r.value);
    }
  }

  /** Give an inode and everything it holds back: truncate, then free. */
  method Discard(w: Wfs, i: nat, now: nat)
    requires Good(w) && i in Live(w.V())
    modifies w
    ensures Good(w) && Untouched(old(w.V()), w.V(), {i})
    ensures TreeOf(w.V()) == Tree(TreeOf(old(w.V())).live - {i}, TreeOf(old(w.V())).dirs - {i})
    ensures w.freeBlocks == old(w.freeBlocks) + old(w.inodes[i].blocks) && w.freeInodes == old(w.freeInodes) + 1
  {
    hide Own, Tidy, DirShape, TreeOf, Untouched, At, ByteAt;
    ghost var v := w.V();
    var _ := w.Truncate(i, now);
    ghost var v1 := w.V();
    OnlyFileUntouched(v, v1, i);
    ShapeAfterInode(v, v1, i);
    w.InodeFree(i);
    OnlyFileUntouched(v1, w.V(), i);
    ShapeAfterInode(v1, w.V(), i);
    UntouchedTrans(v, v1, w.V(), {i}, {i});
    assert {i} + {i} == {i};
    TreeAfterFree(v, w.V(), i);
  }

  /* ---- create ---- */

  /** An inode with no entry leading to it: not a tree. */
  lemma OrphanIsNoTree(t: Tree, i: nat, isDir: bool, parent: nat)
    requires IsTree(t) && i !in t.live && i > ROOT_INO
    ensures !IsTree(NewNode(t, i, isDir, parent))
  {
    var t' := NewNode(t, i, isDir, parent);
    if IsTree(t') {
      var home: Homes, depth: map<nat, nat> :| Shape(t, home, depth);
      var home': Homes, depth': map<nat, nat> :| Shape(t', home', depth');
      assert i in home';
      HomeIsNamed(t', home', depth', i);
      var d, k := home'[i].0, home'[i].1;
      if d in t.dirs && d != i { LiveEntries(t, home, depth, d, k); }
      assert false;
    }
  }

  /** A root holding the one file "f", number 2: a directory made under "f" belongs to no
      directory. */
  lemma CreateUnderFile()
    ensures var t := Tree({1, 2}, map[1 := [Ent(1, DOT), Ent(1, DOTDOT), Ent(2, [102])]]);
      IsTree(t) && !IsTree(NewNode(t, 3, true, 2))
  {
    var t := Tree({1, 2}, map[1 := [Ent(1, DOT), Ent(1, DOTDOT), Ent(2, [102])]]);
    var home: Homes := map[2 := (1, 2)];
    assert GoodDir(t.dirs[1], home, 1);
    assert Shape(t, home, map[1 := 0, 2 := 1]);
    OrphanIsNoTree(t, 3, true, 2);
  }

  lemma EntriesInTree(v: Vol, d: nat)
    requires IsDir(v, d)
    ensures d in TreeOf(v).dirs && TreeOf(v).dirs[d] == Entries(v, d)
  {
    hide Ents, Contents;
  }

  lemma VacantEnts(es: seq<Ent>, home: Homes, d: nat, name: Name)
    requires GoodDir(es, home, d) && FindIdx(es, name, 0) == |es| && d != 0 && Up(home, d) != 0
    ensures 2 <= FreeIdx(es, 0) && !IsDot(name)
  {
    hide UniqueNames;
    assert !Matches(es[0], name) && !Matches(es[1], name);
  }

  lemma VacantInTree(t: Tree, home: Homes, depth: map<nat, nat>, d: nat, name: Name)
    requires Shape(t, home, depth) && d in t.dirs && FindIdx(t.dirs[d], name, 0) == |t.dirs[d]|
    ensures Vacant(t, d, FreeIdx(t.dirs[d], 0), name)
  {
    assert GoodDir(t.dirs[d], home, d) && Up(home, d) != 0 && d != 0;
    hide Shape, GoodDir;
    VacantEnts(t.dirs[d], home, d, name);
    assert forall m :: 0 <= m < |t.dirs[d]| ==> !Matches(t.dirs[d][m], name);
  }

  /** A name that was not found can be added in the first free slot. */
  lemma VacantSlot(v: Vol, d: nat, name: Name)
    requires IsTree(TreeOf(v)) && IsDir(v, d) && Find(v, d, name).Err?
    ensures Vacant(TreeOf(v), d, FreeIdx(Entries(v, d), 0), name)
  {
    hide TreeOf, Shape, Entries, Vacant;
    EntriesInTree(v, d);
    var home: Homes, depth: map<nat, nat> :| Shape(TreeOf(v), home, depth);
    VacantInTree(TreeOf(v), home, depth, d, name);
  }

  lemma FirstDot(v: Vol, v': Vol, i: nat, r: Result<()>)
    requires i < |v.inodes| && Entries(v, i) == [] && RecordAccounted(v, v', i, SlotAt(v, i), r)
    ensures r.Ok? <==> v.freeBlocks >= |Gaps(v, i, 0)|
    ensures if r.Ok? then Took(v, v', i, Gaps(v, i, 0)) else r.error != EFBIG
  {
    hide Gaps, Took, Entries;
  }

  /** The second goes where the first went, so it finds its block. */
  lemma SecondDot(v: Vol, v1: Vol, v2: Vol, i: nat, r: Result<()>)
    requires i < |v1.inodes| && |Entries(v1, i)| == 1 && RecordAccounted(v1, v2, i, SlotAt(v1, i), r)
    requires Took(v, v1, i, Gaps(v, i, 0))
    ensures r.Ok? && Took(v, v2, i, Gaps(v, i, 0))
  {
    hide Gaps, Took, Entries;
    var g := Gaps(v, i, 0);
    GapsAfter(v, v1, i, g, 0);
    assert SlotAt(v1, i) / BLOCK_SIZE == 0;
    assert g - g == {} && g + {} == g;
    TookTrans(v, v1, v2, i, g, {});
  }

  /** Fill in "." and "..": both go in the first block, so only the first can run out of space. */
  method AddDots(w: Wfs, i: nat, parent: nat, now: nat) returns (r: Result<()>)
    requires Good(w) && IsDir(w.V(), i) && w.inodes[i].size == 0 && parent < |w.inodes|
    modifies w
    ensures Good(w) && Untouched(old(w.V()), w.V(), {i}) && w.inodes[i].typ == Dir && Live(w.V()) == Live(old(w.V()))
    ensures r.Ok? ==> TreeOf(w.V()) == TreeOf(old(w.V())).(dirs := TreeOf(old(w.V())).dirs[i := [Ent(i, DOT),
      Ent(parent, DOTDOT)]])
    ensures r.Err? ==> w.owner == old(w.owner) && TreeOf(w.V()) == TreeOf(old(w.V())) && r.error == ENOSPC
    ensures w.freeInodes == old(w.freeInodes)
    ensures r.Ok? <==> old(w.freeBlocks) >= |Gaps(old(w.V()), i, 0)|
    ensures r.Ok? ==> Took(old(w.V()), w.V(), i, Gaps(old(w.V()), i, 0))
  {
    hide Own, Tidy, DirShape, Untouched, TreeOf, Ents, Took, Gaps, RecordAccounted, PutEnt;
    OwnFacts(w.V(), w.owner);
    ghost var v, t := w.V(), TreeOf(w.V());
    EntriesInTree(v, i);
    assert Entries(v, i) == [];
    hide Entries;
    r := DirAdd(w, i, DOT, i, now);
    FirstDot(v, w.V(), i, r);
    if r.Err? {
      return;
    }
    ghost var v1, t1 := w.V(), TreeOf(w.V());
    EntriesInTree(v1, i);
    DotsInTree(t, t1, i, parent);
    r := DirAdd(w, i, DOTDOT, parent, now);
    SecondDot(v, v1, w.V(), i, r);
    UntouchedTrans(v, v1, w.V(), {i}, {i});
    assert {i} + {i} == {i};
  }

  lemma DotsInTree(t: Tree, t1: Tree, i: nat, parent: nat)
    requires i in t.dirs && t.dirs[i] == [] && t1 == PutEnt(t, i, 0, Ent(i, DOT)) && i != 0
    ensures i in t1.dirs && t1.dirs[i] == [Ent(i, DOT)] && FreeIdx(t1.dirs[i], 0) == 1
    ensures PutEnt(t1, i, 1, Ent(parent, DOTDOT)) == t.(dirs := t.dirs[i := [Ent(i, DOT), Ent(parent, DOTDOT)]])
  {
    assert t1.dirs[i] == [Ent(i, DOT)];
    assert PutEnt(t1, i, 1, Ent(parent, DOTDOT)).dirs[i] == [Ent(i, DOT), Ent(parent, DOTDOT)];
    assert PutEnt(t1, i, 1, Ent(parent, DOTDOT)).dirs == t.dirs[i := [Ent(i, DOT), Ent(parent, DOTDOT)]];
  }

  /** Inode numbers not in use. */
  function Spare(v: Vol): set<nat> { set j | 0 <= j < |v.inodes| && j !in Live(v) }

  lemma UntouchedMore(v: Vol, v': Vol, s: set<nat>, s': set<nat>)
    requires Untouched(v, v', s) && s <= s'
    ensures Untouched(v, v', s')
  {
    hide At, ByteAt;
  }

  lemma UntouchedInode(v: Vol, v': Vol, s: set<nat>, j: nat)
    requires Untouched(v, v', s) && j < |v.inodes| && j !in s
    ensures |v'.inodes| == |v.inodes| && v'.inodes[j] == v.inodes[j]
  {
  }

  lemma TreeLive(v: Vol)
    ensures TreeOf(v).live == Live(v)
  {
  }

  lemma TreeDirs(v: Vol)
    ensures forall d :: d in TreeOf(v).dirs <==> IsDir(v, d)
  {
  }

  /** Taking an inode and giving it back leaves the tree as it was. */
  lemma FreedAgain(t: Tree, t1: Tree, t2: Tree, i: nat)
    requires i !in t.live && i !in t.dirs && t1.live == t.live + {i} && t1.dirs - {i} == t.dirs
    requires t2 == Tree(t1.live - {i}, t1.dirs - {i})
    ensures t2 == t
  {
  }

  /** What a new inode takes of the blocks: a directory needs one for its dots. */
  function Dots(typ: FileType): nat { if typ == Dir then 1 else 0 }

  /** A new inode holds nothing, or the block with its dots. */
  ghost predicate Stocked(v: Vol, i: nat, typ: FileType)
  {
    && i < |v.inodes| && (typ != Dir ==> v.inodes[i].blocks == 0)
    && forall u :: At(v, i, u) == 0 <==> typ != Dir || u != Direct(0)
  }

  lemma BlankStocked(v: Vol, i: nat, typ: FileType)
    requires Blank(v, i) && typ != Dir
    ensures Stocked(v, i, typ)
  {
    hide At;
  }

  lemma BlankGaps(v: Vol, i: nat)
    requires Blank(v, i)
    ensures Gaps(v, i, 0) == {Direct(0)}
  {
    hide At;
  }

  lemma DotsStocked(v: Vol, v': Vol, i: nat)
    requires Blank(v, i) && Took(v, v', i, {Direct(0)}) && i < |v'.inodes|
    ensures Stocked(v', i, Dir) && v'.freeBlocks + 1 == v.freeBlocks
  {
    hide At;
  }

  /** The new inode, with its dot entries if it is a directory; all or nothing. */
  method NewNodeFor(w: Wfs, typ: FileType, parent: nat, now: nat) returns (r: Result<nat>)
    requires Good(w) && typ != Free && parent in Live(w.V())
    modifies w
    ensures Good(w)
    ensures r.Err? ==>
      TreeOf(w.V()) == TreeOf(old(w.V())) && Untouched(old(w.V()), w.V(), Spare(old(w.V()))) && OutOfRoom(r.error)
    ensures r.Ok? ==>
      && r.value in Spare(old(w.V())) && 0 < r.value < |w.inodes| && w.inodes[r.value].typ == typ
      && Untouched(old(w.V()), w.V(), {r.value}) && (typ == File ==> w.inodes[r.value].size == 0)
      && TreeOf(w.V()) == NewNode(TreeOf(old(w.V())), r.value, typ == Dir, parent)
    ensures r.Ok? <==> old(w.freeInodes) > 0 && old(w.freeBlocks) >= Dots(typ)
    ensures r.Ok? ==> w.freeBlocks + Dots(typ) == old(w.freeBlocks) && w.freeInodes + 1 == old(w.freeInodes)
    ensures r.Ok? ==> Stocked(w.V(), r.value, typ)
    ensures r.Err? ==> r.error == ENOSPC
  {
    hide Own, Tidy, DirShape, Untouched, TreeOf, Took, Gaps, Blank, Stocked;
    ghost var v, t := w.V(), TreeOf(w.V());
    TreeLive(v);
    TreeDirs(v);
    UntouchedRefl(v, 0);
    UntouchedMore(v, v, {0}, Spare(v));
    r := NewInode(w, typ, now);
    if r.Ok? && typ != Dir { BlankStocked(w.V(), r.value, typ); }
    if r.Err? || typ != Dir {
      return;
    }
    var i := r.value;
    ghost var v1 := w.V();
    BlankGaps(v1, i);
    assert i in Live(v1);
    var e := AddDots(w, i, parent, now);
    ghost var v2 := w.V();
    assert i in Live(v2);
    UntouchedTrans(v, v1, v2, {i}, {i});
    assert {i} + {i} == {i};
    if e.Ok? {
      DotsStocked(v1, v2, i);
      assert TreeOf(v2).dirs == NewNode(t, i, true, parent).dirs;
      return;
    }
    w.InodeFree(i);
    OnlyFileUntouched(v2, w.V(), i);
    ShapeAfterInode(v2, w.V(), i);
    UntouchedTrans(v, v2, w.V(), {i}, {i});
    UntouchedMore(v, w.V(), {i}, Spare(v));
    TreeAfterFree(v2, w.V(), i);
    assert TreeOf(v2).dirs - {i} == t.dirs;
    FreedAgain(t, TreeOf(v2), TreeOf(w.V()), i);
    return Err(e.error);
  }

  lemma ResolvedParentIsLive(v: Vol, path: Path)
    requires IsTree(TreeOf(v)) && Resolve(v, path).Ok?
    ensures Resolve(v, path).value.0 in Live(v)
    ensures 0 !in path ==> 0 !in Resolve(v, path).value.1
  {
    hide Shape, TreeOf;
    var home: Homes, depth: map<nat, nat> :| Shape(TreeOf(v), home, depth);
    ResolveDepth(v, home, depth, path);
  }

  /** The root is in use, so a fresh inode is never the root. */
  lemma SpareIsNotRoot(v: Vol, i: nat)
    requires IsTree(TreeOf(v)) && i in Spare(v) && i != 0
    ensures i > ROOT_INO && i !in TreeOf(v).live
  {
    hide Ents;
    assert ROOT_INO in TreeOf(v).live;
  }

  /** The tree a successful create leaves: whether it is one turns on the parent alone. */
  lemma CreatedTree(v: Vol, parent: nat, name: Name, i: nat, isDir: bool, t': Tree)
    requires IsTree(TreeOf(v)) && parent in Live(v) && i in Spare(v) && i != 0 && Find(v, parent, name).Err?
    requires IsDir(v, parent) ==>
      t' == PutEnt(NewNode(TreeOf(v), i, isDir, parent), parent, FreeIdx(Entries(v, parent), 0), Ent(i, name))
    requires !IsDir(v, parent) ==> t' == NewNode(TreeOf(v), i, isDir, parent)
    ensures IsTree(t') <==> IsDir(v, parent)
  {
    SpareIsNotRoot(v, i);
    if IsDir(v, parent) {
      VacantSlot(v, parent, name);
      hide IsTree, TreeOf, Find;
      CreateKeepsTree(TreeOf(v), parent, FreeIdx(Entries(v, parent), 0), name, i, isDir);
    } else {
      hide IsTree, TreeOf;
      OrphanIsNoTree(TreeOf(v), i, isDir, parent);
    }
  }

  /** What a create that succeeded with inode `i` has done: nothing but `i` and the
      parent changed, and a tree is left exactly when the parent is a directory. */
  ghost predicate Created(v: Vol, v': Vol, parent: nat, name: Name, typ: FileType, i: nat)
  {
    && parent in Live(v) && i in Spare(v) && 0 < i < |v'.inodes| && v'.inodes[i].typ == typ
    && Untouched(v, v', {i, parent}) && (typ == File ==> v'.inodes[i].size == 0)
    && (IsTree(TreeOf(v')) <==> IsDir(v, parent))
    && (IsDir(v, parent) ==>
          TreeOf(v') == PutEnt(NewNode(TreeOf(v), i, typ == Dir, parent), parent, FreeIdx(Entries(v, parent), 0),
            Ent(i, name)))
  }

  /** There is an inode, a place in the directory, and a free block for every gap. */
  ghost predicate CreateFits(v: Vol, parent: nat, typ: FileType)
    requires parent < |v.inodes|
  {
    v.freeInodes > 0 && SlotLeft(v, parent) && v.freeBlocks >= Dots(typ) + |SlotGaps(v, parent)|
  }

  /** In a directory something is made exactly if there is room, and takes just that. */
  ghost predicate CreateAccounted(v: Vol, v': Vol, parent: nat, typ: FileType, r: Result<nat>)
    requires parent < |v.inodes|
  {
    && (r.Ok? <==> CreateFits(v, parent, typ))
    && (r.Err? ==> (r.error == EFBIG ==> !SlotLeft(v, parent)))
    && (r.Ok? ==>
          && v'.freeInodes + 1 == v.freeInodes && Stocked(v', r.value, typ)
          && (typ == Dir ==> SlotAt(v', r.value) == 2 * DIRENT)
          && v'.freeBlocks + Dots(typ) + |SlotGaps(v, parent)| == v.freeBlocks)
  }

  /** Create a file or a directory.  The volume stays sound whatever happens; failing
      leaves the tree as it was; succeeding leaves a tree exactly when the parent the
      path names is a directory, which nothing here checks. */
  method Create(w: Wfs, path: Path, typ: FileType, now: nat) returns (r: Result<nat>)
    requires Good(w) && IsTree(TreeOf(w.V())) && typ != Free && 0 !in path
    modifies w
    ensures Good(w)
    ensures r.Err? ==> TreeOf(w.V()) == TreeOf(old(w.V()))
    ensures var res := Resolve(old(w.V()), path);
      if res.Err? then r == Err(res.error) && w.V() == old(w.V())
      else if Find(old(w.V()), res.value.0, res.value.1).Ok? then r == Err(EEXIST) && w.V() == old(w.V())
      else
        && Untouched(old(w.V()), w.V(), Spare(old(w.V())) + {res.value.0})
        && (r.Ok? ==> Created(old(w.V()), w.V(), res.value.0, res.value.1, typ, r.value))
        && (r.Err? && IsDir(old(w.V()), res.value.0) ==> OutOfRoom(r.error))
        && (IsDir(old(w.V()), res.value.0) ==> CreateAccounted(old(w.V()), w.V(), res.value.0, typ, r))
  {
    hide Own, Tidy, DirShape, Untouched, TreeOf, IsTree, Resolve, Find, Stocked, Took, SlotGaps, SlotLeft, SlotAt,
      CreateAccounted, RecordAccounted;
    ghost var v, t := w.V(), TreeOf(w.V());
    var res := ResolveParent(w, path);
    if res.Err? {
      return Err(res.error);
    }
    var (parent, name) := res.value;
    ResolvedParentIsLive(v, path);
    var e := DirFind(w, parent, name);
    if e.Ok? {
      return Err(EEXIST);
    }
    ghost var all := Spare(v) + {parent};
    r := NewNodeFor(w, typ, parent, now);
    UntouchedMore(v, w.V(), if r.Ok? then {r.value} else Spare(v), all);
    if r.Err? {
      if IsDir(v, parent) { NoneMade(v, w.V(), parent, typ); }
      return;
    }
    var i := r.value;
    SpareIsNotRoot(v, i);
    ghost var v1, t1 := w.V(), TreeOf(w.V());
    OwnFacts(v1, w.owner);
    ParentSurvives(v, v1, i, parent);
    var a := DirAdd(w, parent, name, i, now);
    if typ == Dir { NewEntries(v, v1, i, parent); }
    if IsDir(v, parent) { SlotBefore(v, v1, w.V(), i, parent, typ, a); }
    UntouchedTrans(v, v1, w.V(), {i}, {parent});
    assert {i} + {parent} == {i, parent};
    UntouchedInode(v1, w.V(), {parent}, i);
    UntouchedMore(v, w.V(), {i, parent}, all);
    if a.Err? {
      assert TreeOf(w.V()) == t1;
      ghost var v2 := w.V();
      Discard(w, i, now);
      UntouchedTrans(v, v2, w.V(), all, {i});
      assert all + {i} == all;
      NewNodeGone(v, i, typ == Dir, parent);
      return Err(a.error);
    }
    CreatedTree(v, parent, name, i, typ == Dir, TreeOf(w.V()));
  }

  lemma NewEntries(v: Vol, v1: Vol, i: nat, parent: nat)
    requires TreeOf(v1) == NewNode(TreeOf(v), i, true, parent) && parent != 0 && i != 0
    ensures i < |v1.inodes| && |Entries(v1, i)| == 2 && FreeIdx(Entries(v1, i), 0) == 2
  {
    TreeDirs(v1);
    hide TreeOf;
    assert i in TreeOf(v1).dirs;
    EntriesInTree(v1, i);
  }

  /** A new directory has room for an entry in the block it has. */
  lemma FreshSlot(v: Vol, i: nat)
    requires Stocked(v, i, Dir) && SlotAt(v, i) == 2 * DIRENT
    ensures SlotLeft(v, i) && SlotGaps(v, i) == {}
  {
    hide At, Entries;
    assert At(v, i, Direct(0)) != 0;
  }

  lemma EntriesStay(v: Vol, v': Vol, s: set<nat>, i: nat)
    requires Untouched(v, v', s) && i !in s && i < |v.inodes|
    ensures |v'.inodes| == |v.inodes| && Entries(v', i) == Entries(v, i)
  {
    UntouchedContents(v, v', s, i);
    hide At, ByteAt, Contents, Ents;
  }

  lemma NoneMade(v: Vol, v': Vol, parent: nat, typ: FileType)
    requires parent < |v.inodes| && !(v.freeInodes > 0 && v.freeBlocks >= Dots(typ))
    ensures CreateAccounted(v, v', parent, typ, Err(ENOSPC))
  {
    hide SlotGaps;
  }

  /** What the entry of a new inode takes is settled before the inode is made. */
  lemma SlotBefore(v: Vol, v1: Vol, v2: Vol, i: nat, parent: nat, typ: FileType, a: Result<()>)
    requires v1.freeInodes + 1 == v.freeInodes && v1.freeBlocks + Dots(typ) == v.freeBlocks && Stocked(v1, i, typ)
    requires v2.freeInodes == v1.freeInodes && (typ == Dir ==> |Entries(v1, i)| == 2 && FreeIdx(Entries(v1, i), 0) == 2)
    requires Untouched(v, v1, {i}) && parent in Live(v) && i !in Live(v) && IsDir(v, parent)
    requires RecordAccounted(v1, v2, parent, SlotAt(v1, parent), a) && Untouched(v1, v2, {parent}) && i < |v1.inodes|
    ensures a.Ok? ==> CreateAccounted(v, v2, parent, typ, Ok(i))
    ensures a.Err? ==> forall v' :: CreateAccounted(v, v', parent, typ, Err(a.error))
  {
    hide At, ByteAt, Gaps, Entries;
    ParentSurvives(v, v1, i, parent);
    EntriesStay(v1, v2, {parent}, i);
    GapsSame(v, v1, parent, SlotAt(v, parent) / BLOCK_SIZE);
  }

  lemma ParentSurvives(v: Vol, v1: Vol, i: nat, parent: nat)
    requires Untouched(v, v1, {i}) && parent in Live(v) && i !in Live(v)
    ensures parent in Live(v1) && IsDir(v1, parent) == IsDir(v, parent)
    ensures Entries(v1, parent) == Entries(v, parent)
  {
    UntouchedContents(v, v1, {i}, parent);
    hide At, ByteAt;
  }

  lemma NewNodeGone(v: Vol, i: nat, isDir: bool, parent: nat)
    requires i !in Live(v)
    ensures var t1 := NewNode(TreeOf(v), i, isDir, parent);
      Tree(t1.live - {i}, t1.dirs - {i}) == TreeOf(v)
  {
    TreeLive(v);
    TreeDirs(v);
    hide TreeOf;
    var t := TreeOf(v);
    assert i !in t.live && i !in t.dirs;
    assert NewNode(t, i, isDir, parent).dirs - {i} == t.dirs;
  }

  /* ---- unlink ---- */

  /** What dir_find found is a live inode, named there. */
  lemma FoundIsNamed(v: Vol, d: nat, name: Name)
    requires IsTree(TreeOf(v)) && Find(v, d, name).Ok? && !IsDot(name)
    ensures IsDir(v, d) && Find(v, d, name).value in Live(v) && Find(v, d, name).value != d
    ensures NamedAt(TreeOf(v), Find(v, d, name).value, d, FindIdx(Entries(v, d), name, 0))
  {
    EntriesInTree(v, d);
    TreeLive(v);
    hide TreeOf, GoodDir, Entries;
    var home: Homes, depth: map<nat, nat> :| Shape(TreeOf(v), home, depth);
    var k := FindIdx(Entries(v, d), name, 0);
    NamedIsHome(TreeOf(v), home, depth, Find(v, d, name).value, d, k);
  }

  /** What a successful unlink has done: the entry is free and its inode forgotten. */
  ghost predicate Unlinked(v: Vol, v': Vol, parent: nat, name: Name)
  {
    && IsDir(v, parent) && Find(v, parent, name).Ok?
    && var i := Find(v, parent, name).value;
    && Untouched(v, v', {parent, i})
    && TreeOf(v') == Dropped(TreeOf(v), parent, FindIdx(Entries(v, parent), name, 0), i)
  }

  /** Remove a file, or a directory that holds only its dots: the tree stays one, and on
      every error nothing has changed. */
  method Unlink(w: Wfs, path: Path, now: nat) returns (r: Result<()>)
    requires Good(w) && IsTree(TreeOf(w.V()))
    modifies w
    ensures Good(w) && IsTree(TreeOf(w.V()))
    ensures r.Err? ==> w.V() == old(w.V())
    ensures var res := Resolve(old(w.V()), path);
      if res.Err? then r == Err(res.error)
      else
        var (parent, name) := res.value;
        var f := Find(old(w.V()), parent, name);
        if IsDot(name) then r == Err(EINVAL)
        else if f.Err? then r == Err(f.error)
        else if IsDir(old(w.V()), f.value) && !EmptyDir(Entries(old(w.V()), f.value)) then r == Err(ENOTEMPTY)
        else r.Ok? && Unlinked(old(w.V()), w.V(), parent, name)
  {
    hide Own, Tidy, DirShape, Untouched, TreeOf, IsTree, Resolve, EmptyDir, Entries, NamedAt;
    ghost var v, t := w.V(), TreeOf(w.V());
    var res := ResolveParent(w, path);
    if res.Err? {
      return Err(res.error);
    }
    var (parent, name) := res.value;
    if name == DOT || name == DOTDOT {
      return Err(EINVAL);
    }
    var f := DirFind(w, parent, name);
    if f.Err? {
      return Err(f.error);
    }
    var i := f.value;
    FoundIsNamed(v, parent, name);
    if w.inodes[i].typ == Dir {
      EntriesInTree(v, i);
      var empty := DirIsEmpty(w, i);
      if !empty {
        return Err(ENOTEMPTY);
      }
    }
    TreeDirs(v);
    ghost var k := FindIdx(Entries(v, parent), name, 0);
    UnlinkKeepsTree(t, i, parent, k);
    r := DirRemove(w, parent, name, now);
    ghost var v1 := w.V();
    Discard(w, i, now);
    UntouchedTrans(v, v1, w.V(), {parent}, {i});
    assert {parent} + {i} == {parent, i};
  }
}
