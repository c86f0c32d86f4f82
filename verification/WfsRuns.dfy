/** Whole runs of the filesystem: in every state a run goes through the volume is sound and its
    directories are a tree, and the calls answer what `FileSpec` allows of byte strings and
    names. */
module WfsRuns {
  import opened WfsLayout
  import opened WfsVolume
  import opened WfsRoom
  import opened WfsTruncate
  import opened WfsDriver
  import opened WfsTree
  import opened WfsRecords
  import opened WfsDirs
  import opened WfsPaths
  import opened WfsFs
  import opened WfsRename
  import opened WfsPlaces
  import opened WfsView
  import S = FileSpec

  /* ---- the ownership invariant without its ghost map ---- */

  ghost predicate ReachedBy(v: Vol, i: nat, b: nat) { exists s :: At(v, i, s) == b }

  /** Every allocated data block hangs from exactly one slot of one inode, every slot in
      use names an allocated data block, and the counters are the true counts. */
  ghost predicate Accounted(v: Vol)
  {
    && Geometry(v)
    && (forall b :: v.dataStart <= b < |v.disk| && v.bitmap[b] ==> exists i: nat, s :: At(v, i, s) == b)
    && (forall i: nat, s :: At(v, i, s) != 0 ==> v.dataStart <= At(v, i, s) < |v.disk| && v.bitmap[At(v, i, s)])
    && (forall i: nat, s, j: nat, u :: At(v, i, s) != 0 && At(v, i, s) == At(v, j, u) ==> i == j && s == u)
    && v.freeBlocks == |set b | v.dataStart <= b < |v.disk| && !v.bitmap[b]|
    && v.freeInodes == |set i | 1 <= i < |v.inodes| && v.inodes[i].typ == Free|
    && (forall i :: 0 <= i < |v.inodes| ==>
          v.inodes[i].blocks == |set b | v.dataStart <= b < |v.disk| && ReachedBy(v, i, b)|)
  }

  lemma OwnedAreReached(v: Vol, owner: Owner, i: nat)
    requires Own(v, owner)
    ensures OwnedBy(owner, i) == set b | v.dataStart <= b < |v.disk| && ReachedBy(v, i, b)
  {
    hide At;
    forall b | b in OwnedBy(owner, i) ensures ReachedBy(v, i, b) { assert At(v, i, owner[b].1) == b; }
    forall b | v.dataStart <= b < |v.disk| && ReachedBy(v, i, b) ensures b in OwnedBy(owner, i) {
      var s :| At(v, i, s) == b;
    }
  }

  lemma SoundIsAccounted(v: Vol, owner: Owner)
    requires Own(v, owner) && Tidy(v)
    ensures Accounted(v)
  {
    hide At, ByteAt;
    forall b | v.dataStart <= b < |v.disk| && v.bitmap[b] ensures exists i: nat, s :: At(v, i, s) == b {
      assert At(v, owner[b].0, owner[b].1) == b;
    }
    forall i | 0 <= i < |v.inodes| { OwnedAreReached(v, owner, i); }
    assert FreeInodes(v) == set i | 1 <= i < |v.inodes| && v.inodes[i].typ == Free;
  }

  lemma FilesElsewhere(v: Vol, v': Vol, s: set<nat>)
    requires Untouched(v, v', s)
    ensures FilesOf(v') - s == FilesOf(v) - s
  {
    hide Untouched;
    forall j | 0 <= j < |v.inodes| && j !in s
      ensures |v'.inodes| == |v.inodes| && v'.inodes[j] == v.inodes[j] && Contents(v', j) == Contents(v, j) {
      UntouchedInode(v, v', s, j);
      UntouchedContents(v, v', s, j);
    }
    assert |v'.inodes| == |v.inodes| by { UntouchedSize(v, v', s); }
  }

  lemma UntouchedSize(v: Vol, v': Vol, s: set<nat>)
    requires Untouched(v, v', s)
    ensures |v'.inodes| == |v.inodes|
  {
  }

  /* ---- calls and what they answer ---- */

  /** What callers owe: a file they hold, sizes that fit 32 bits, C strings for paths, and
      a directory to put a new name in. */
  predicate Legal(v: Vol, op: S.Op)
  {
    match op
    case Read(i, off, len) => i in FilesOf(v) && off + len < WORD_LIMIT
    case Write(i, off, data) => i in FilesOf(v) && off + |data| < WORD_LIMIT
    case Truncate(i) => i in FilesOf(v)
    case Create(path, typ) => typ != Free && 0 !in path && (Resolve(v, path).Ok? ==> IsDir(v, Resolve(v, path).value.0))
    case Unlink(_) => true
    case Rename(from, to) => 0 !in to && (Resolve(v, to).Ok? ==> IsDir(v, Resolve(v, to).value.0))
  }

  ghost predicate Fine(w: Wfs)
    reads w
  {
    Good(w) && IsTree(TreeOf(w.V()))
  }

  /* ---- room ---- */

  /** Where files and names alone leave the answer open, what is free decides it: something is made
      exactly if there is an inode, a place for its entry, and a block for every gap; moved exactly
      if there is a place for the entry; and written whole exactly if there is a block for every
      gap. */
  ghost predicate Warranted(v: Vol, v': Vol, act: S.Act, out: S.Out)
  {
    match act
    case Put(i, off, data) => out.Count? ==> (out.n == |data| <==> WriteFits(v, i, off, |data|))
    case Make(d, name, typ) =>
      S.Who(AbsOf(v), d, name) == {} ==>
        && d < |v.inodes|
        && (out.Made? ==> CreateAccounted(v, v', d, typ, Ok(out.i)))
        && (out.Failed? ==> CreateAccounted(v, v', d, typ, Err(out.error)))
    case Move(d, name, d2, name2) =>
      S.Who(AbsOf(v), d2, name2) == {} && (out == S.Done || S.NoRoom(out)) ==>
        d2 < |v.inodes| && (out == S.Done <==> SlotFits(v, d2))
    case _ => true
  }

  lemma CreateWarranted(v: Vol, v': Vol, path: Path, typ: FileType, r: Result<nat>)
    requires IsTree(TreeOf(v)) && Legal(v, S.Create(path, typ))
    requires var res := Resolve(v, path);
      res.Ok? && Find(v, res.value.0, res.value.1).Err? && IsDir(v, res.value.0) ==>
        CreateAccounted(v, v', res.value.0, typ, r)
    ensures Warranted(v, v', S.ActOf(AbsOf(v), S.Disk, S.Create(path, typ)), if r.Ok? then S.Made(r.value)
      else S.Failed(r.error))
  {
    hide TreeOf, IsTree, AbsOf, Resolve, Find, CreateAccounted, S.Who, S.OnDisk;
    var res := Resolve(v, path);
    ResolveIs(v, path);
    if res.Ok? && !IsDot(res.value.1) {
      DirIsInode(v, res.value.0);
      WhoIsFound(v, res.value.0, res.value.1);
    }
  }

  lemma UnlinkWarranted(v: Vol, v': Vol, path: Path, out: S.Out)
    ensures Warranted(v, v', S.ActOf(AbsOf(v), S.Disk, S.Unlink(path)), out)
  {
    hide AbsOf, S.OnDisk;
  }

  lemma RenameWarranted(v: Vol, v': Vol, from: Path, to: Path, r: Result<()>)
    requires IsTree(TreeOf(v)) && Legal(v, S.Rename(from, to))
    requires var a, b := Resolve(v, from), Resolve(v, to);
      if a.Err? then r == Err(a.error)
      else if b.Err? then r == Err(b.error)
      else
        var (d, name) := a.value;
        var (d2, name2) := b.value;
        var f := Find(v, d, name);
        if IsDot(name) || IsDot(name2) then r == Err(EINVAL)
        else if f.Err? then r == Err(f.error)
        else if d == d2 && name == name2 then r.Ok?
        else if IsDir(v, f.value) && Contains(TreeOf(v), f.value, d2) then r == Err(EINVAL)
        else d2 < |v.inodes| && Answers(v, v', f.value, d2, name2, r)
    ensures Warranted(v, v', S.ActOf(AbsOf(v), S.Disk, S.Rename(from, to)), if r.Ok? then S.Done else S.Failed(r.error))
  {
    hide TreeOf, IsTree, AbsOf, Resolve, NoSlot, Entries, Contains, SlotFits, S.Who, S.OnDisk;
    var a, b := Resolve(v, from), Resolve(v, to);
    ResolveIs(v, from);
    ResolveIs(v, to);
    if a.Ok? && b.Ok? && !IsDot(a.value.1) && !IsDot(b.value.1) {
      var (d2, name2) := b.value;
      DirsAre(v, a.value.0);
      WhoIsFound(v, d2, name2);
    }
  }

  lemma PatchFiles(v: Vol, v': Vol, i: nat)
    requires Untouched(v, v', {i}) && i in Live(v') && v'.inodes[i].typ == File
    ensures FilesOf(v') == FilesOf(v)[i := Contents(v', i)]
  {
    hide Untouched, Contents;
    FilesElsewhere(v, v', {i});
    MapPatch(FilesOf(v), FilesOf(v'), i, Contents(v', i));
  }

  lemma FileIsLive(v: Vol, i: nat)
    requires i in FilesOf(v)
    ensures 0 < i < |v.inodes| && v.inodes[i].typ == File && FilesOf(v)[i] == Contents(v, i) && i in Live(v)
  {
  }

  /** Calls on the bytes of a file.  A write that finds no room at all is one of no bytes. */
  method StepData(w: Wfs, op: S.Op, now: nat) returns (out: S.Out)
    requires Fine(w) && Legal(w.V(), op) && (op.Read? || op.Write? || op.Truncate?)
    modifies w
    ensures Fine(w) && S.Did(AbsOf(old(w.V())), AbsOf(w.V()), S.ActOf(AbsOf(old(w.V())), S.Disk, op), out)
    ensures Warranted(old(w.V()), w.V(), S.ActOf(AbsOf(old(w.V())), S.Disk, op), out)
  {
    hide Own, Tidy, DirShape, TreeOf, IsTree, Untouched, Wrote, StopsShort, FilesOf, Contents, OnlyFile, PlacesOf,
      WriteFits, Took;
    ghost var v := w.V();
    FileIsLive(v, op.ino);
    match op
    case Read(i, off, len) =>
      var r := w.Read(i, off, len);
      out := S.Data(r.value);
    case Write(i, off, data) =>
      var r := w.Write(i, off, data, now);
      if off + |data| > MAX_FILE_SIZE {
        return S.Failed(EFBIG);
      }
      out := S.Count(if r.Ok? then r.value else 0);
      AfterFileWrite(v, w.V(), i, off, data, out.n);
    case Truncate(i) =>
      var _ := w.Truncate(i, now);
      out := S.Done;
      AfterFileTruncate(v, w.V(), i);
  }

  lemma AfterFileWrite(v: Vol, v': Vol, i: nat, off: nat, data: seq<Byte>, n: nat)
    requires DirShape(v) && i in FilesOf(v) && Wrote(v, v', i, off, data, n)
    ensures DirShape(v') && TreeOf(v') == TreeOf(v) && n <= |data|
    ensures FilesOf(v') == FilesOf(v)[i := Overlay(FilesOf(v)[i], off, data[..n])]
  {
    WroteUntouched(v, v', i, off, data, n);
    assert |v'.inodes| == |v.inodes|;
    hide Untouched, Wrote, Contents, Overlay, Ents, DirShape;
    TreeAfterFileChange(v, v', i);
    DirShapeElsewhere(v, v', i);
    PatchFiles(v, v', i);
  }

  lemma AfterFileTruncate(v: Vol, v': Vol, i: nat)
    requires DirShape(v) && i in FilesOf(v) && OnlyFile(v, v', i) && v'.inodes[i].typ == File && v'.inodes[i].size == 0
    ensures DirShape(v') && TreeOf(v') == TreeOf(v) && FilesOf(v') == FilesOf(v)[i := []]
  {
    OnlyFileUntouched(v, v', i);
    assert |v'.inodes| == |v.inodes| && Contents(v', i) == [];
    hide Untouched, OnlyFile, Contents, Ents, DirShape;
    TreeAfterFileChange(v, v', i);
    DirShapeElsewhere(v, v', i);
    PatchFiles(v, v', i);
  }

  /* ---- operations on names ---- */

  /** If no file outside `gone` was among the inodes written, the other files stay. */
  lemma FilesGone(v: Vol, v': Vol, s: set<nat>, gone: set<nat>)
    requires Untouched(v, v', s) && gone <= s
    requires forall j <- s :: j !in FilesOf(v') && (j in FilesOf(v) ==> j in gone)
    ensures FilesOf(v') == FilesOf(v) - gone
  {
    FilesElsewhere(v, v', s);
    hide Untouched, FilesOf;
    var f, f' := FilesOf(v), FilesOf(v');
    assert forall j :: j in f' ==> j in f' - s;
    assert forall j :: j in f - gone ==> j in f - s;
  }

  lemma FilesAreNotDirs(v: Vol, j: nat)
    ensures j in FilesOf(v) <==> j in TreeOf(v).live && j !in TreeOf(v).dirs
  {
    hide Ents, Contents;
  }

  method StepName(w: Wfs, op: S.Op, now: nat) returns (out: S.Out)
    requires Fine(w) && Legal(w.V(), op) && (op.Create? || op.Unlink? || op.Rename?)
    modifies w
    ensures Fine(w) && S.Did(AbsOf(old(w.V())), AbsOf(w.V()), S.ActOf(AbsOf(old(w.V())), S.Disk, op), out)
    ensures Warranted(old(w.V()), w.V(), S.ActOf(AbsOf(old(w.V())), S.Disk, op), out)
  {
    hide Own, Tidy, DirShape, TreeOf, IsTree, Untouched, FilesOf, Created, Unlinked, Renamed, Resolve, Find, S.Did,
      AbsOf, Warranted, CreateAccounted;
    ghost var v := w.V();
    match op
    case Create(path, typ) =>
      var r := WfsFs.Create(w, path, typ, now);
      out := if r.Ok? then S.Made(r.value) else S.Failed(r.error);
      CreateDid(v, w.V(), path, typ, r);
      CreateWarranted(v, w.V(), path, typ, r);
    case Unlink(path) =>
      var r := WfsFs.Unlink(w, path, now);
      out := if r.Ok? then S.Done else S.Failed(r.error);
      UnlinkDid(v, w.V(), path, r);
      UnlinkWarranted(v, w.V(), path, out);
    case Rename(from, to) =>
      ghost var trace;
      var r;
      r, trace := WfsRename.Rename(w, from, to, now);
      out := if r.Ok? then S.Done else S.Failed(r.error);
      RenameDid(v, w.V(), from, to, r, trace);
      RenameWarranted(v, w.V(), from, to, r);
  }

  lemma CreateDid(v: Vol, v': Vol, path: Path, typ: FileType, r: Result<nat>)
    requires IsTree(TreeOf(v)) && Legal(v, S.Create(path, typ)) && (r.Err? ==> TreeOf(v') == TreeOf(v))
    requires var res := Resolve(v, path);
      if res.Err? then r == Err(res.error) && v' == v
      else if Find(v, res.value.0, res.value.1).Ok? then r == Err(EEXIST) && v' == v
      else
        && Untouched(v, v', Spare(v) + {res.value.0})
        && (r.Ok? ==> Created(v, v', res.value.0, res.value.1, typ, r.value))
        && (r.Err? && IsDir(v, res.value.0) ==> OutOfRoom(r.error))
    ensures IsTree(TreeOf(v'))
    ensures S.Did(AbsOf(v), AbsOf(v'), S.ActOf(AbsOf(v), S.Disk, S.Create(path, typ)), if r.Ok? then S.Made(r.value)
      else S.Failed(r.error))
  {
    hide Untouched, TreeOf, IsTree, FilesOf, Resolve, Find, Entries, Created, PlacesOf, S.OnDisk, S.Who;
    var res := Resolve(v, path);
    ResolveIs(v, path);
    AfterCreate(v, v', path, typ, r);
    if res.Ok? {
      var (d, name) := res.value;
      DirIsInode(v, d);
      if IsDot(name) {
        DotsAreFound(v, d, name);
      } else {
        WhoIsFound(v, d, name);
        if r.Ok? { CreatedPlaces(v, v', d, name, typ, r.value); }
      }
    }
  }

  lemma CreatedPlaces(v: Vol, v': Vol, d: nat, name: Name, typ: FileType, i: nat)
    requires IsTree(TreeOf(v)) && typ != Free && IsDir(v, d) && Created(v, v', d, name, typ, i) && Find(v, d, name).Err?
    ensures PlacesOf(TreeOf(v')) == PlacesOf(TreeOf(v))[i := S.Place(d, name, typ == Dir)]
    ensures i !in PlacesOf(TreeOf(v)) && i != ROOT_INO
  {
    SpareIsNotRoot(v, i);
    VacantSlot(v, d, name);
    hide TreeOf, IsTree, Find, Entries, Untouched;
    PlacesAfterCreate(TreeOf(v), d, FreeIdx(Entries(v, d), 0), name, i, typ == Dir, TreeOf(v'));
  }

  lemma UnlinkDid(v: Vol, v': Vol, path: Path, r: Result<()>)
    requires IsTree(TreeOf(v)) && IsTree(TreeOf(v')) && (r.Err? ==> v' == v)
    requires var res := Resolve(v, path);
      if res.Err? then r == Err(res.error)
      else
        var (parent, name) := res.value;
        var f := Find(v, parent, name);
        if IsDot(name) then r == Err(EINVAL)
        else if f.Err? then r == Err(f.error)
        else if IsDir(v, f.value) && !EmptyDir(Entries(v, f.value)) then r == Err(ENOTEMPTY)
        else r.Ok? && Unlinked(v, v', parent, name)
    ensures S.Did(AbsOf(v), AbsOf(v'), S.ActOf(AbsOf(v), S.Disk, S.Unlink(path)), if r.Ok? then S.Done
      else S.Failed(r.error))
  {
    hide Untouched, TreeOf, IsTree, FilesOf, Resolve, Find, Entries, Unlinked, PlacesOf, EmptyDir, S.Who, S.HasChildren,
      S.OnDisk, IsDir, AbsOf;
    var res := Resolve(v, path);
    ResolveIs(v, path);
    if res.Ok? {
      DirsAre(v, res.value.0);
      var (d, name) := res.value;
      if !IsDir(v, d) {
        NotFoundInFile(v, path);
      } else if !IsDot(name) {
        WhoIsFound(v, d, name);
        if Find(v, d, name).Ok? {
          UnlinkFits(v, d, name);
          if r.Ok? { UnlinkedAbs(v, v', d, name); }
        }
      }
    }
  }

  lemma NotFoundInFile(v: Vol, path: Path)
    requires IsTree(TreeOf(v)) && Resolve(v, path).Ok? && !IsDir(v, Resolve(v, path).value.0)
    ensures Find(v, Resolve(v, path).value.0, Resolve(v, path).value.1) == Err(ENOTDIR)
  {
    ResolvedParentIsLive(v, path);
  }

  /** What decides an unlink is whether anything is in the directory. */
  lemma UnlinkFits(v: Vol, d: nat, name: Name)
    requires IsTree(TreeOf(v)) && IsDir(v, d) && !IsDot(name) && Find(v, d, name).Ok?
    ensures var i := Find(v, d, name).value;
      S.HasChildren(AbsOf(v), i) <==> IsDir(v, i) && !EmptyDir(Entries(v, i))
  {
    var i := Find(v, d, name).value;
    TreeDirs(v);
    if IsDir(v, i) { EntriesInTree(v, i); }
    hide TreeOf, IsTree, Find, Entries, EmptyDir, PlacesOf, FilesOf;
    ChildrenAre(FilesOf(v), TreeOf(v), i);
  }

  lemma UnlinkedAbs(v: Vol, v': Vol, d: nat, name: Name)
    requires IsTree(TreeOf(v)) && IsTree(TreeOf(v')) && !IsDot(name) && Unlinked(v, v', d, name)
    requires var i := Find(v, d, name).value; !(IsDir(v, i) && !EmptyDir(Entries(v, i)))
    ensures AbsOf(v') == S.Without(AbsOf(v), {Find(v, d, name).value})
  {
    var i := Find(v, d, name).value;
    AfterUnlink(v, v', d, name);
    FoundIsNamed(v, d, name);
    TreeDirs(v);
    if IsDir(v, i) { EntriesInTree(v, i); }
    hide TreeOf, IsTree, Find, Entries, Untouched, FilesOf, PlacesOf, NamedAt;
    PlacesAfterDrop(TreeOf(v), i, d, FindIdx(Entries(v, d), name, 0), TreeOf(v'));
  }

  lemma AfterCreate(v: Vol, v': Vol, path: Path, typ: FileType, r: Result<nat>)
    requires IsTree(TreeOf(v)) && Legal(v, S.Create(path, typ))
    requires r.Err? ==> TreeOf(v') == TreeOf(v)
    requires var res := Resolve(v, path);
      if res.Err? || Find(v, res.value.0, res.value.1).Ok? then v' == v && r.Err?
      else
        && Untouched(v, v', Spare(v) + {res.value.0})
        && (r.Ok? ==> Created(v, v', res.value.0, res.value.1, typ, r.value))
    ensures IsTree(TreeOf(v'))
    ensures r.Err? ==> FilesOf(v') == FilesOf(v)
    ensures r.Ok? ==> r.value !in FilesOf(v) && FilesOf(v') == if typ == File then FilesOf(v)[r.value := []]
      else FilesOf(v)
  {
    hide Untouched, TreeOf, IsTree, FilesOf, Resolve, Find, Entries, Created;
    var res := Resolve(v, path);
    if r.Ok? {
      CreatedFiles(v, v', res.value.0, res.value.1, typ, r.value);
    } else if res.Ok? && Find(v, res.value.0, res.value.1).Err? {
      var s := Spare(v) + {res.value.0};
      TreeDirs(v);
      TreeLive(v);
      forall j <- s ensures j !in FilesOf(v') && j !in FilesOf(v) {
        FilesAreNotDirs(v, j);
        FilesAreNotDirs(v', j);
      }
      FilesGone(v, v', s, {});
      assert FilesOf(v) - {} == FilesOf(v);
    }
  }

  lemma CreatedKeys(v: Vol, v': Vol, parent: nat, name: Name, typ: FileType, i: nat)
    requires typ != Free && IsDir(v, parent) && Created(v, v', parent, name, typ, i)
    ensures IsTree(TreeOf(v')) && i !in TreeOf(v).live && i in TreeOf(v').live
    ensures parent in TreeOf(v).dirs && parent in TreeOf(v').dirs && (i in TreeOf(v').dirs <==> typ == Dir)
  {
    TreeDirs(v);
    TreeLive(v);
    EntriesInTree(v, parent);
    hide TreeOf, IsTree, Untouched, Entries;
  }

  lemma MapGain<T>(m: map<nat, T>, m': map<nat, T>, i: nat, p: nat)
    requires m - {i, p} == m' - {i, p} && i !in m && p !in m && p !in m'
    ensures m' == if i in m' then m[i := m'[i]] else m
  {
    assert forall x :: x in m' && x != i ==> x in m' - {i, p};
    assert forall x :: x in m ==> x in m - {i, p};
  }

  lemma CreatedFiles(v: Vol, v': Vol, parent: nat, name: Name, typ: FileType, i: nat)
    requires typ != Free && IsDir(v, parent) && Created(v, v', parent, name, typ, i)
    ensures IsTree(TreeOf(v')) && i !in FilesOf(v)
    ensures FilesOf(v') == if typ == File then FilesOf(v)[i := []] else FilesOf(v)
  {
    hide Untouched, TreeOf, IsTree, FilesOf, Entries, Contents;
    CreatedKeys(v, v', parent, name, typ, i);
    FilesElsewhere(v, v', {i, parent});
    FilesAreNotDirs(v, i);
    FilesAreNotDirs(v, parent);
    FilesAreNotDirs(v', i);
    FilesAreNotDirs(v', parent);
    CreatedContents(v', i);
    MapGain(FilesOf(v), FilesOf(v'), i, parent);
  }

  lemma CreatedContents(v': Vol, i: nat)
    ensures i in FilesOf(v') && v'.inodes[i].size == 0 ==> FilesOf(v')[i] == []
  {
  }

  lemma AfterUnlink(v: Vol, v': Vol, parent: nat, name: Name)
    requires IsTree(TreeOf(v)) && Unlinked(v, v', parent, name) && !IsDot(name)
    ensures FilesOf(v') == FilesOf(v) - {Find(v, parent, name).value}
  {
    var i := Find(v, parent, name).value;
    FoundIsNamed(v, parent, name);
    TreeDirs(v);
    FilesAreNotDirs(v, parent);
    FilesAreNotDirs(v', parent);
    FilesAreNotDirs(v', i);
    hide Untouched, TreeOf, IsTree, FilesOf, Entries, Find;
    FilesGone(v, v', {parent, i}, {i});
  }

  /** The two names of one inode are one name. */
  lemma SameName(v: Vol, d: nat, name: Name, d2: nat, name2: Name)
    requires IsTree(TreeOf(v)) && IsDir(v, d) && IsDir(v, d2) && !IsDot(name) && !IsDot(name2)
    requires Find(v, d, name).Ok? && Find(v, d2, name2) == Find(v, d, name)
    ensures d == d2 && name == name2
  {
    WhoIsFound(v, d, name);
    WhoIsFound(v, d2, name2);
    hide TreeOf, IsTree, Find, PlacesOf, FilesOf;
    assert Find(v, d, name).value in S.Who(AbsOf(v), d, name) && Find(v, d, name).value in S.Who(AbsOf(v), d2, name2);
  }

  lemma RenameDid(v: Vol, v': Vol, from: Path, to: Path, r: Result<()>, trace: seq<Tree>)
    requires IsTree(TreeOf(v)) && Legal(v, S.Rename(from, to)) && (r.Err? ==> TreeOf(v') == TreeOf(v))
    requires var a, b := Resolve(v, from), Resolve(v, to);
      if a.Err? then r == Err(a.error) && v' == v
      else if b.Err? then r == Err(b.error) && v' == v
      else
        var (d, name) := a.value;
        var (d2, name2) := b.value;
        var f := Find(v, d, name);
        if IsDot(name) || IsDot(name2) then r == Err(EINVAL) && v' == v
        else if f.Err? then r == Err(f.error) && v' == v
        else if d == d2 && name == name2 then r.Ok? && v' == v
        else if IsDir(v, f.value) && Contains(TreeOf(v), f.value, d2) then r == Err(EINVAL) && v' == v
        else
          && Untouched(v, v', Writes(v, f.value, d, d2) + Victim(v, d2, name2))
          && (r.Ok? ==> Renamed(v, TreeOf(v'), f.value, d, name, d2, name2, trace))
          && d2 < |v.inodes| && Answers(v, v', f.value, d2, name2, r)
          && (Victim(v, d2, name2) != {} && (r.Err? || f.value in Victim(v, d2, name2)) ==> v' == v)
    ensures IsTree(TreeOf(v'))
    ensures S.Did(AbsOf(v), AbsOf(v'), S.ActOf(AbsOf(v), S.Disk, S.Rename(from, to)), if r.Ok? then S.Done
      else S.Failed(r.error))
  {
    hide Untouched, TreeOf, IsTree, FilesOf, Resolve, Find, Entries, Renamed, PlacesOf, Answers, Victim, Writes,
      Contains, With, S.Did;
    var a, b := Resolve(v, from), Resolve(v, to);
    ResolveIs(v, from);
    ResolveIs(v, to);
    if a.Ok? { DirsAre(v, a.value.0); }
    if a.Err? || b.Err? || IsDot(a.value.1) || IsDot(b.value.1) {
      AstrayDid(AbsOf(v), r.error);
    } else if !IsDir(v, a.value.0) {
      NotFoundInFile(v, from);
      AstrayDid(AbsOf(v), ENOTDIR);
    } else {
      MoveDid(v, v', a.value.0, a.value.1, b.value.0, b.value.1, r, trace);
    }
  }

  lemma AstrayDid(fs: S.Fs, e: Errno)
    ensures S.Did(fs, fs, S.Astray(e), S.Failed(e))
  {
  }

  lemma MoveDid(v: Vol, v': Vol, d: nat, name: Name, d2: nat, name2: Name, r: Result<()>, trace: seq<Tree>)
    requires IsTree(TreeOf(v)) && IsDir(v, d) && IsDir(v, d2) && !IsDot(name) && !IsDot(name2)
    requires r.Err? ==> TreeOf(v') == TreeOf(v)
    requires var f := Find(v, d, name);
      if f.Err? then r == Err(f.error) && v' == v
      else if d == d2 && name == name2 then r.Ok? && v' == v
      else if IsDir(v, f.value) && Contains(TreeOf(v), f.value, d2) then r == Err(EINVAL) && v' == v
      else
        && Untouched(v, v', Writes(v, f.value, d, d2) + Victim(v, d2, name2))
        && (r.Ok? ==> Renamed(v, TreeOf(v'), f.value, d, name, d2, name2, trace))
        && d2 < |v.inodes| && Answers(v, v', f.value, d2, name2, r)
        && (Victim(v, d2, name2) != {} && (r.Err? || f.value in Victim(v, d2, name2)) ==> v' == v)
    ensures IsTree(TreeOf(v'))
    ensures S.Did(AbsOf(v), AbsOf(v'), S.Move(d, name, d2, name2), if r.Ok? then S.Done else S.Failed(r.error))
  {
    hide Untouched, TreeOf, IsTree, FilesOf, Find, Entries, Renamed, PlacesOf, Writes, Contains, AbsOf, Answers, Victim;
    var fs, f := AbsOf(v), Find(v, d, name);
    WhoIsFound(v, d, name);
    if f.Ok? {
      AboveIsInside(v, f.value, d2);
      WhoIsFound(v, d2, name2);
      if d == d2 && name == name2 {
        S.StaysPut(fs, d, name);
      } else {
        if Find(v, d2, name2) == f { SameName(v, d, name, d2, name2); }
        if !S.Above(fs, f.value, d2) { MoveGoes(v, v', f.value, d, name, d2, name2, r, trace); }
      }
    }
  }

  /** A move that may go ahead. */
  lemma MoveGoes(v: Vol, v': Vol, i: nat, d: nat, name: Name, d2: nat, name2: Name, r: Result<()>, trace: seq<Tree>)
    requires IsTree(TreeOf(v)) && IsDir(v, d2) && !IsDot(name) && !IsDot(name2) && (r.Err? ==> TreeOf(v') == TreeOf(v))
    requires Find(v, d, name) == Ok(i) && Find(v, d2, name2) != Ok(i) && !S.Above(AbsOf(v), i, d2)
    requires S.Who(AbsOf(v), d, name) == {i}
    requires Untouched(v, v', Writes(v, i, d, d2) + Victim(v, d2, name2))
    requires r.Ok? ==> Renamed(v, TreeOf(v'), i, d, name, d2, name2, trace)
    requires d2 < |v.inodes| && Answers(v, v', i, d2, name2, r) && (Victim(v, d2, name2) != {} && r.Err? ==> v' == v)
    ensures IsTree(TreeOf(v'))
    ensures S.Did(AbsOf(v), AbsOf(v'), S.Move(d, name, d2, name2), if r.Ok? then S.Done else S.Failed(r.error))
  {
    hide Untouched, TreeOf, IsTree, FilesOf, Renamed, PlacesOf, Writes, Answers, S.Did, S.Above, S.Who, S.Relocated,
      S.Without;
    AboveIsInside(v, i, d2);
    assert i !in Victim(v, d2, name2);
    hide Find, Victim;
    var there := Victim(v, d2, name2);
    AnswersFit(v, v', i, d2, name2, r);
    if r.Ok? || there == {} {
      AfterRename(v, v', i, d, name, d2, name2, r, trace);
      if r.Ok? { RenamedAbs(v, v', i, d, name, d2, name2, trace); } else { assert FilesOf(v) - {} == FilesOf(v); }
    }
    MoveFits(AbsOf(v), AbsOf(v'), i, d, name, d2, name2, r);
  }

  lemma MoveFits(fs: S.Fs, fs': S.Fs, i: nat, d: nat, name: Name, d2: nat, name2: Name, r: Result<()>)
    requires S.Who(fs, d, name) == {i} && !S.Above(fs, i, d2) && i !in S.Who(fs, d2, name2)
    requires S.Who(fs, d2, name2) <= fs.places.Keys
    requires var there := S.Who(fs, d2, name2);
      if exists x <- there :: fs.places[x].isDir then r == Err(EISDIR)
      else if there != {} then r.Ok?
      else r.Ok? || OutOfRoom(r.error)
    requires fs' == if r.Ok? then S.Relocated(S.Without(fs, S.Who(fs, d2, name2)), {i}, d2, name2) else fs
    ensures S.Did(fs, fs', S.Move(d, name, d2, name2), if r.Ok? then S.Done else S.Failed(r.error))
  {
    hide S.Above, S.Who, S.Relocated, S.Without;
    assert S.Who(fs, d2, name2) - {i} == S.Who(fs, d2, name2);
  }

  /** Being asked to move under oneself. */
  lemma AboveIsInside(v: Vol, i: nat, d2: nat)
    requires IsTree(TreeOf(v)) && IsDir(v, d2)
    ensures S.Above(AbsOf(v), i, d2) <==> IsDir(v, i) && Contains(TreeOf(v), i, d2)
    ensures i == d2 ==> S.Above(AbsOf(v), i, d2)
  {
    TreeDirs(v);
    assert S.Climb(AbsOf(v), d2, 0) == d2;
    if !IsDir(v, i) { FileAboveNothing(v, i, d2); }
    hide TreeOf, IsTree, PlacesOf, FilesOf, S.Climb;
    AboveIs(FilesOf(v), TreeOf(v), i, d2);
  }

  lemma AnswersFit(v: Vol, v': Vol, i: nat, d2: nat, name2: Name, r: Result<()>)
    requires IsTree(TreeOf(v)) && IsDir(v, d2) && !IsDot(name2) && Answers(v, v', i, d2, name2, r)
      && i !in Victim(v, d2, name2)
    ensures Victim(v, d2, name2) == S.Who(AbsOf(v), d2, name2) <= PlacesOf(TreeOf(v)).Keys
    ensures var there := Victim(v, d2, name2);
      if exists x <- there :: PlacesOf(TreeOf(v))[x].isDir then r == Err(EISDIR)
      else if there != {} then r.Ok?
      else r.Ok? || OutOfRoom(r.error)
  {
    hide TreeOf, IsTree, FilesOf, Find, Entries, PlacesOf;
    WhoIsFound(v, d2, name2);
    if Find(v, d2, name2).Ok? { FoundPlace(v, d2, name2); }
  }

  /** With the file in the way gone, `i` is still where it was, and its new name is free. */
  lemma ClearedVacant(t: Tree, t1: Tree, i: nat, d: nat, k: nat, d2: nat, name2: Name)
    requires NamedAt(t, i, d, k) && IsTree(t1) && d in t1.dirs && k < |t1.dirs[d]| && t1.dirs[d][k] == t.dirs[d][k]
    requires d2 in t1.dirs && FindIdx(t1.dirs[d2], name2, 0) == |t1.dirs[d2]| && !IsDot(name2)
    ensures NamedAt(t1, i, d, k) && Vacant(t1, d2, FreeIdx(t1.dirs[d2], 0), name2)
  {
    hide Shape, Vacant;
    var home: Homes, depth: map<nat, nat> :| Shape(t1, home, depth);
    VacantInTree(t1, home, depth, d2, name2);
  }

  lemma PlacesAfterReplace(t: Tree, i: nat, d: nat, k: nat, x: nat, d2: nat, kx: nat, t': Tree)
    requires IsTree(t) && NamedAt(t, i, d, k) && NamedAt(t, x, d2, kx) && x !in t.dirs && x != i && i != d2
      && IsTree(t')
    requires var t1 := Dropped(t, d2, kx, x);
      d2 in t1.dirs ==> t' == Moved(t1, i, d, k, d2, FreeIdx(t1.dirs[d2], 0), t.dirs[d2][kx].name)
    ensures PlacesOf(t') == (PlacesOf(t) - {x})[i := S.Place(d2, t.dirs[d2][kx].name, i in t.dirs)]
  {
    var t1, name2 := Dropped(t, d2, kx, x), t.dirs[d2][kx].name;
    assert !IsDot(name2);
    AfterVictim(t, i, d, k, t.dirs[d][k].name, d2, kx, name2, x);
    ClearedVacant(t, t1, i, d, k, d2, name2);
    hide IsTree, NamedAt, Moved, Dropped, PlacesOf, HasName, Vacant;
    PlacesAfterDrop(t, x, d2, kx, t1);
    PlacesAfterMove(t1, i, d, k, d2, FreeIdx(t1.dirs[d2], 0), name2, t');
  }

  lemma RenamedPlaces(v: Vol, v': Vol, i: nat, d: nat, name: Name, d2: nat, name2: Name, trace: seq<Tree>)
    requires IsTree(TreeOf(v)) && IsDir(v, d2) && !IsDot(name) && !IsDot(name2) && Find(v, d, name) == Ok(i) && i != d2
    requires Renamed(v, TreeOf(v'), i, d, name, d2, name2, trace) && i !in Victim(v, d2, name2)
    ensures PlacesOf(TreeOf(v')) == (PlacesOf(TreeOf(v)) - Victim(v, d2, name2))[i := S.Place(d2, name2, IsDir(v, i))]
  {
    hide TreeOf, IsTree, Entries, NamedAt, Moved, Dropped, PlacesOf, HasName, Vacant, RenameTrace;
    var t, k := TreeOf(v), FindIdx(Entries(v, d), name, 0);
    FoundIsNamed(v, d, name);
    TreeDirs(v);
    EntriesInTree(v, d);
    EntriesInTree(v, d2);
    if Find(v, d2, name2).Ok? {
      FoundIsNamed(v, d2, name2);
      PlacesAfterReplace(t, i, d, k, Find(v, d2, name2).value, d2, FindIdx(Entries(v, d2), name2, 0), TreeOf(v'));
    } else {
      VacantSlot(v, d2, name2);
      assert PlacesOf(t) - {} == PlacesOf(t);
      PlacesAfterMove(t, i, d, k, d2, FreeIdx(Entries(v, d2), 0), name2, TreeOf(v'));
    }
  }

  lemma RenamedAbs(v: Vol, v': Vol, i: nat, d: nat, name: Name, d2: nat, name2: Name, trace: seq<Tree>)
    requires IsTree(TreeOf(v)) && IsDir(v, d2) && !IsDot(name) && !IsDot(name2) && Find(v, d, name) == Ok(i) && i != d2
    requires Renamed(v, TreeOf(v'), i, d, name, d2, name2, trace) && i !in Victim(v, d2, name2)
    requires FilesOf(v') == FilesOf(v) - Victim(v, d2, name2)
    ensures AbsOf(v') == S.Relocated(S.Without(AbsOf(v), Victim(v, d2, name2)), {i}, d2, name2)
  {
    hide TreeOf, IsTree, FilesOf, Find, Renamed, Victim, PlacesOf;
    RenamedPlaces(v, v', i, d, name, d2, name2, trace);
    FoundPlace(v, d, name);
    assert AbsOf(v').places == S.Relocated(S.Without(AbsOf(v), Victim(v, d2, name2)), {i}, d2, name2).places;
  }

  /** A rename touches no file but the one it replaces. */
  lemma AfterRename(v: Vol, v': Vol, i: nat, d: nat, name: Name, d2: nat, name2: Name, r: Result<()>, trace: seq<Tree>)
    requires IsTree(TreeOf(v)) && IsDir(v, d2) && !IsDot(name) && !IsDot(name2) && Find(v, d, name) == Ok(i)
    requires Untouched(v, v', Writes(v, i, d, d2) + Victim(v, d2, name2))
    requires if r.Ok? then Renamed(v, TreeOf(v'), i, d, name, d2, name2, trace) && i !in Victim(v, d2, name2)
             else TreeOf(v') == TreeOf(v) && Victim(v, d2, name2) == {}
    ensures IsTree(TreeOf(v'))
    ensures FilesOf(v') == FilesOf(v) - Victim(v, d2, name2)
  {
    hide Untouched, IsTree, FilesOf, Entries, Find, TreeOf, NamedAt, Victim;
    var x, s := Victim(v, d2, name2), Writes(v, i, d, d2) + Victim(v, d2, name2);
    FoundIsNamed(v, d, name);
    TreeDirs(v);
    RenamedKeys(v, TreeOf(v'), i, d, name, d2, name2, r, trace);
    hide Renamed;
    forall j <- s ensures j !in FilesOf(v') && (j in FilesOf(v) ==> j in x) {
      FilesAreNotDirs(v, j);
      FilesAreNotDirs(v', j);
    }
    FilesGone(v, v', s, x);
  }

  lemma RenamedKeys(v: Vol, t': Tree, i: nat, d: nat, name: Name, d2: nat, name2: Name, r: Result<()>, trace: seq<Tree>)
    requires IsDir(v, d2)
    requires if r.Ok? then Renamed(v, t', i, d, name, d2, name2, trace) && i !in Victim(v, d2, name2)
             else t' == TreeOf(v) && Victim(v, d2, name2) == {}
    ensures t'.live == TreeOf(v).live - Victim(v, d2, name2) && t'.dirs.Keys == TreeOf(v).dirs.Keys
  {
    TreeDirs(v);
    hide IsTree, TreeOf, Entries, MovedEnts;
    if r.Ok? {
      var c := Cleared(v, d2, name2);
      assert c.live == TreeOf(v).live - Victim(v, d2, name2);
      assert c.dirs.Keys == TreeOf(v).dirs.Keys;
    }
  }

  /* ---- whole runs ---- */

  /** A state every observer of the volume can rely on. */
  ghost predicate Healthy(v: Vol)
  {
    Accounted(v) && IsTree(TreeOf(v)) && Walkable(TreeOf(v)) && DirShape(v)
  }

  lemma FineIsHealthy(w: Wfs)
    requires Fine(w)
    ensures Healthy(w.V())
  {
    hide Accounted, Walkable, IsTree, TreeOf, DirShape, Own, Tidy;
    SoundIsAccounted(w.V(), w.owner);
    TreeIsWalkable(TreeOf(w.V()));
  }

  /** One call of a run. */
  method Step(w: Wfs, op: S.Op, now: nat) returns (out: S.Out)
    requires Fine(w) && Legal(w.V(), op)
    modifies w
    ensures Fine(w) && S.Did(AbsOf(old(w.V())), AbsOf(w.V()), S.ActOf(AbsOf(old(w.V())), S.Disk, op), out)
    ensures Warranted(old(w.V()), w.V(), S.ActOf(AbsOf(old(w.V())), S.Disk, op), out)
  {
    hide S.Did, AbsOf, S.ActOf, Legal, FilesOf, Own, Tidy, DirShape, TreeOf, IsTree, Warranted;
    if op.Read? || op.Write? || op.Truncate? {
      out := StepData(w, op, now);
    } else {
      out := StepName(w, op, now);
    }
  }

  /** `states` and `outs` record a run of the first calls of `ops`: every call was legal when
      it was made, every state is healthy, and seen from outside each call's answer was one the
      files and names before it allow, and what it left is what that answer says; and where
      those leave a choice, what was free decided it. */
  ghost predicate History(states: seq<Vol>, ops: seq<S.Op>, outs: seq<S.Out>)
  {
    && |states| == |outs| + 1 && |outs| <= |ops|
    && (forall v <- states :: Healthy(v))
    && (forall k :: 0 <= k < |outs| ==> Legal(states[k], ops[k]))
    && S.Story(Views(states), S.Disk, ops, outs)
    && forall k :: 0 <= k < |outs| ==>
      Warranted(states[k], states[k + 1], S.ActOf(AbsOf(states[k]), S.Disk, ops[k]), outs[k])
  }

  ghost function Views(states: seq<Vol>): seq<S.Fs> { seq(|states|, k requires 0 <= k < |states| => AbsOf(states[k])) }

  lemma HistorySnoc(states: seq<Vol>, ops: seq<S.Op>, outs: seq<S.Out>, v: Vol, out: S.Out)
    requires History(states, ops, outs) && |outs| < |ops| && Healthy(v)
    requires var last, op := states[|outs|], ops[|outs|];
      && Legal(last, op) && S.Did(AbsOf(last), AbsOf(v), S.ActOf(AbsOf(last), S.Disk, op), out)
      && Warranted(last, v, S.ActOf(AbsOf(last), S.Disk, op), out)
    ensures History(states + [v], ops, outs + [out])
  {
    hide S.Did, Legal, AbsOf, S.ActOf, Healthy, Warranted;
    S.StorySnoc(Views(states), S.Disk, ops, outs, AbsOf(v), out);
    assert Views(states + [v]) == Views(states) + [AbsOf(v)];
  }

  /** Any run of calls, up to the first that is not legal. */
  method Run(w: Wfs, ops: seq<S.Op>, now: nat) returns (ghost states: seq<Vol>, outs: seq<S.Out>)
    requires Fine(w)
    modifies w
    ensures Fine(w) && History(states, ops, outs) && states[0] == old(w.V()) && states[|outs|] == w.V()
    ensures |outs| < |ops| ==> !Legal(w.V(), ops[|outs|])
  {
    hide S.Did, AbsOf, S.ActOf, Legal, FilesOf, Own, Tidy, DirShape, TreeOf, IsTree, Healthy, Warranted;
    states, outs := [w.V()], [];
    FineIsHealthy(w);
    hide History;
    for k := 0 to |ops|
      invariant Fine(w) && History(states, ops, outs)
      invariant |states| == k + 1 && |outs| == k && states[0] == old(w.V()) && states[k] == w.V()
    {
      if !Legal(w.V(), ops[k]) {
        return;
      }
      var out := Step(w, ops[k], now);
      FineIsHealthy(w);
      HistorySnoc(states, ops, outs, w.V(), out);
      states, outs := states + [w.V()], outs + [out];
    }
  }
}
