/** The files of the accounts on a volume (kernel/fs/user.c): ensure_dir, write_file, and the
    paths they are given. */
module AccountFiles {
  import opened WfsLayout
  import opened WfsVolume
  import opened WfsRoom
  import opened WfsDriver
  import opened WfsTree
  import opened WfsRecords
  import opened WfsDirs
  import opened WfsPaths
  import opened WfsFs
  import opened WfsView
  import opened WfsRuns
  import opened WfsPlaces
  import opened FileWays
  import S = FileSpec
  import N = FileNumbers
  import Q = PathNames

  type Str = seq<Byte>

  const USERS: Str := [117, 115, 101, 114, 115]

  /** "/userconfig", "/userconfig/users", "/userconfig/<name>", "/userconfig/<name>/password". */
  const CONFIG_DIR: Path := [SLASH] + Q.USERCONFIG
  const LIST_FILE: Path := CONFIG_DIR + [SLASH] + USERS

  function DirPath(name: Str): Path { CONFIG_DIR + [SLASH] + name }

  function PasswordPath(name: Str): Path { DirPath(name) + [SLASH] + Q.PASSWORD }

  predicate Found(v: Vol, path: Path) { LookupPath(v, path).Ok? && LookupPath(v, path).value < |v.inodes| }

  /** What reading a path gives, whatever is there. */
  function TextAt(v: Vol, path: Path): Str
    requires Found(v, path)
  {
    Contents(v, LookupPath(v, path).value)
  }

  /** Which errors mean that the volume is full. */
  predicate Full(e: Errno) { e == ENOSPC || e == EFBIG || e == EIO }

  /* ---- room ---- */

  /** There is room in directory `d` for a new file of `n` bytes. */
  ghost predicate NewFileFits(v: Vol, d: nat, n: nat)
    requires n <= MAX_FILE_SIZE
  {
    d < |v.inodes| && v.freeInodes >= 1 && SlotLeft(v, d) && v.freeBlocks >= |SlotGaps(v, d)| + Cost(n)
  }

  /** There is room to write a file of `n` bytes: over one that is there, whose blocks come back
      first, or as a new one. */
  ghost predicate FileFits(v: Vol, path: Path, n: nat)
    requires n <= MAX_FILE_SIZE
  {
    var l, at := S.LookUp(AbsOf(v), path), S.OnDisk(AbsOf(v), path);
    if l.Ok? then l.value < |v.inodes| && v.freeBlocks + v.inodes[l.value].blocks >= Cost(n)
    else at.Ok? && NewFileFits(v, at.value.0, n)
  }

  /** There is room in directory `d` for a new directory with a new file of `n` bytes in it. */
  ghost predicate NewDirFits(v: Vol, d: nat, n: nat)
    requires n <= MAX_FILE_SIZE
  {
    d < |v.inodes| && v.freeInodes >= 2 && SlotLeft(v, d) && v.freeBlocks >= |SlotGaps(v, d)| + 1 + Cost(n)
  }

  /** With the directory made, what is left is room for the file. */
  lemma DirThenFile(v: Vol, v': Vol, d: nat, i: nat, n: nat)
    requires n <= MAX_FILE_SIZE && d < |v.inodes| && CreateAccounted(v, v', d, Dir, Ok(i))
    ensures NewFileFits(v', i, n) <==> NewDirFits(v, d, n)
  {
    hide SlotAt, SlotGaps, At, Cost, SlotLeft;
    FreshSlot(v', i);
  }

  /* ---- ensure_dir ---- */

  /** A directory to put a new name in, if it comes to that. */
  ghost predicate Grounded(fs: S.Fs, path: Path)
  {
    S.OnDisk(fs, path).Ok? ==> S.IsDirAt(fs, S.OnDisk(fs, path).value.0)
  }

  /** `path` leads to something new, a directory or a file with that text, and that is all. */
  ghost predicate NewAt(fs: S.Fs, fs': S.Fs, path: Path, isDir: bool, text: Str)
  {
    && S.OnDisk(fs, path).Ok? && S.LookUp(fs', path).Ok?
    && var (d, name) := S.OnDisk(fs, path).value;
    && var i := S.LookUp(fs', path).value;
    && Gained(fs, fs', i, d, name, isDir) && d != i && Settled(fs, i) && i !in fs.files && !IsDot(name)
    && fs'.files == if isDir then fs.files else fs.files[i := text]
  }

  lemma LookUpParts(fs: S.Fs, path: Path)
    requires path != [] && path[0] == SLASH && S.OnDisk(fs, path).Ok?
    ensures var (d, name) := S.OnDisk(fs, path).value;
      S.LookUp(fs, path) == S.Enter(fs, true, d, name) && name != [] && SLASH !in name
  {
    hide S.Enter, S.LookUp;
    var s := LastSlash(path);
    var name := path[s + 1..];
    forall b <- name ensures b != SLASH {
      var k :| 0 <= k < |name| && name[k] == b;
      assert name[k] == path[s + 1 + k];
    }
    if s == 0 {
      assert path == [SLASH] + name;
      LookUpTop(fs, name);
    } else {
      assert path == path[..s] + [SLASH] + name;
      LookUpSnoc(fs, path[..s], name);
    }
  }

  /** After something was made where a path leads, the path leads to it. */
  lemma MadeIsThere(fs: S.Fs, fs': S.Fs, path: Path, typ: FileType, i: nat)
    requires path != [] && path[0] == SLASH && S.OnDisk(fs, path).Ok? && Grounded(fs, path) && N.Proper(fs)
    requires var (d, name) := S.OnDisk(fs, path).value;
      && !IsDot(name) && S.Allowed(fs, S.Make(d, name, typ), S.Made(i))
        && fs' == S.After(fs, S.Make(d, name, typ), S.Made(i))
    requires typ != Free
    ensures NewAt(fs, fs', path, typ == Dir, []) && S.LookUp(fs', path) == Ok(i)
      && S.OnDisk(fs', path) == S.OnDisk(fs, path)
  {
    var (d, name) := S.OnDisk(fs, path).value;
    assert Gained(fs, fs', i, d, name, typ == Dir);
    NothingIn(fs, i);
    DirIsNot(fs, d, i);
    WayStays(fs, fs', i, d, name, typ == Dir, path);
    LookUpParts(fs', path);
    EnterNew(fs, fs', i, d, name, typ == Dir);
  }

  lemma NothingIn(fs: S.Fs, i: nat)
    requires N.Proper(fs) && i !in fs.places && i != ROOT_INO
    ensures Settled(fs, i)
  {
    forall j | j in fs.places ensures fs.places[j].dir != i { assert N.Housed(fs, j); }
  }

  lemma DirIsNot(fs: S.Fs, d: nat, i: nat)
    requires S.IsDirAt(fs, d) && i !in fs.places && i != ROOT_INO
    ensures d != i
  {
  }

  lemma WayStays(fs: S.Fs, fs': S.Fs, i: nat, d: nat, name: Name, isDir: bool, path: Path)
    requires path != [] && path[0] == SLASH && Gained(fs, fs', i, d, name, isDir) && Settled(fs, i)
      && S.OnDisk(fs, path).Ok?
    ensures S.OnDisk(fs', path) == S.OnDisk(fs, path)
  {
    hide Gained, S.Follow;
    var s := LastSlash(path);
    if s > 0 {
      RootIsNot(fs, fs', i, d, name, isDir);
      FollowGained(fs, fs', i, d, name, isDir, ROOT_INO, Split(path[..s]));
    }
  }

  lemma RootIsNot(fs: S.Fs, fs': S.Fs, i: nat, d: nat, name: Name, isDir: bool)
    requires Gained(fs, fs', i, d, name, isDir)
    ensures i != ROOT_INO
  {
  }

  /** What is not found in a directory that is there is nobody's place. */
  lemma NotFound(fs: S.Fs, path: Path)
    requires path != [] && path[0] == SLASH && S.OnDisk(fs, path).Ok? && Grounded(fs, path) && S.LookUp(fs, path).Err?
    ensures var (d, name) := S.OnDisk(fs, path).value;
      !IsDot(name) && S.Who(fs, d, name) == {} && S.LookUp(fs, path) == Err(ENOENT)
  {
    hide S.LookUp, S.OnDisk, S.Who;
    LookUpParts(fs, path);
  }

  lemma CreateIsLegal(v: Vol, path: Path, typ: FileType)
    requires IsTree(TreeOf(v)) && typ != Free && 0 !in path && Grounded(AbsOf(v), path)
    ensures Legal(v, S.Create(path, typ))
  {
    hide TreeOf, IsTree, AbsOf, Resolve, S.OnDisk, S.IsDirAt;
    ResolveIs(v, path);
    if Resolve(v, path).Ok? { DirsAre(v, Resolve(v, path).value.0); }
  }

  /** wfs_create where something may be made. */
  method MakeAt(w: Wfs, path: Path, typ: FileType, now: nat) returns (r: Result<()>)
    requires Fine(w) && typ != Free && path != [] && path[0] == SLASH && 0 !in path
    requires Grounded(AbsOf(w.V()), path) && S.LookUp(AbsOf(w.V()), path).Err?
    modifies w
    ensures Fine(w)
    ensures Making(AbsOf(old(w.V())), AbsOf(w.V()), path, typ == Dir, r)
    ensures MadeOn(old(w.V()), w.V(), path, typ, r)
  {
    hide Own, Tidy, DirShape, TreeOf, IsTree, AbsOf, S.OnDisk, S.LookUp, S.Who, Grounded, Legal, CreateAccounted;
    ghost var v, fs := w.V(), AbsOf(w.V());
    AbsIsProper(v);
    CreateIsLegal(v, path, typ);
    var out := Step(w, S.Create(path, typ), now);
    if out.Failed? {
      r := Err(out.error);
      if S.OnDisk(fs, path).Ok? { NotFound(fs, path); }
    } else {
      r := Ok(());
      NotFound(fs, path);
      MadeIsThere(fs, AbsOf(w.V()), path, typ, out.i);
    }
  }

  /** It is made exactly if there is room, and takes just that. */
  ghost predicate MadeOn(v: Vol, v': Vol, path: Path, typ: FileType, r: Result<()>)
  {
    var at, l := S.OnDisk(AbsOf(v), path), S.LookUp(AbsOf(v'), path);
    at.Ok? ==>
      && at.value.0 < |v.inodes| && (r.Ok? ==> l.Ok?)
      && CreateAccounted(v, v', at.value.0, typ, if r.Ok? then Ok(l.value) else Err(r.error))
  }

  ghost predicate Making(fs: S.Fs, fs': S.Fs, path: Path, isDir: bool, r: Result<()>)
  {
    if S.OnDisk(fs, path).Err? then r == Err(S.OnDisk(fs, path).error) && fs' == fs
    else if r.Ok? then NewAt(fs, fs', path, isDir, [])
    else OutOfRoom(r.error) && fs' == fs
  }

  /** ensure_dir: whatever is there will do. */
  method EnsureDir(w: Wfs, path: Path, now: nat) returns (r: Result<()>)
    requires Fine(w) && path != [] && path[0] == SLASH && 0 !in path && Grounded(AbsOf(w.V()), path)
    modifies w
    ensures Fine(w)
    ensures if S.LookUp(AbsOf(old(w.V())), path).Ok? then r.Ok? && w.V() == old(w.V())
            else Making(AbsOf(old(w.V())), AbsOf(w.V()), path, true, r) && MadeOn(old(w.V()), w.V(), path, Dir, r)
  {
    hide Own, Tidy, DirShape, TreeOf, IsTree, AbsOf, S.OnDisk, S.LookUp, Grounded, Making, LookupPath, MadeOn;
    var l := Lookup(w, path);
    LookUpIs(w.V(), path);
    if l.Ok? {
      return Ok(());
    }
    r := MakeAt(w, path, Dir, now);
  }

  /* ---- write_file ---- */

  /** Empty a file and write it, as much as there is room for. */
  method Rewrite(w: Wfs, i: nat, text: Str, now: nat) returns (r: Result<()>, ghost n: nat)
    requires Fine(w) && i in AbsOf(w.V()).files && |text| <= MAX_FILE_SIZE
    modifies w
    ensures Fine(w) && n <= |text| && (r.Ok? <==> n == |text|) && (r.Err? ==> Full(r.error))
    ensures AbsOf(w.V()) == AbsOf(old(w.V())).(files := AbsOf(old(w.V())).files[i := text[..n]])
    ensures i < |old(w.inodes)| && (r.Ok? <==> old(w.freeBlocks) + old(w.inodes[i].blocks) >= Cost(|text|))
  {
    hide Own, Tidy, DirShape, TreeOf, IsTree, Wrote, StopsShort, FilesOf, PlacesOf, Overlay, Contents, OnlyFile, Cost;
    FileIsLive(w.V(), i);
    Emptied(w, i, now);
    ghost var v := w.V();
    FileIsLive(v, i);
    WholeCost(v, i, |text|);
    if |text| == 0 {
      return Ok(()), 0;
    }
    var c := w.Write(i, 0, text, now);
    n := if c.Ok? then c.value else 0;
    AfterFileWrite(v, w.V(), i, 0, text, n);
    OverNothing(text[..n]);
    r := if c.Err? then Err(c.error) else if c.value == |text| then Ok(()) else Err(EIO);
  }

  /** Truncate, and what it leaves free. */
  method Emptied(w: Wfs, i: nat, now: nat)
    requires Fine(w) && i in AbsOf(w.V()).files && 0 < i < |w.inodes|
    modifies w
    ensures Fine(w) && AbsOf(w.V()) == AbsOf(old(w.V())).(files := AbsOf(old(w.V())).files[i := []])
    ensures w.freeBlocks == old(w.freeBlocks) + old(w.inodes[i].blocks) && forall u :: At(w.V(), i, u) == 0
  {
    hide Own, Tidy, DirShape, TreeOf, IsTree, FilesOf, PlacesOf, Contents, At, ByteAt;
    ghost var v := w.V();
    FileIsLive(v, i);
    var _ := w.Truncate(i, now);
    AfterFileTruncate(v, w.V(), i);
    forall u ensures At(w.V(), i, u) == 0 { BlankAt(w.V(), i, u); }
  }

  /** An empty file has every gap a file of that size can have. */
  lemma WholeCost(v: Vol, i: nat, n: nat)
    requires n <= MAX_FILE_SIZE && forall u :: At(v, i, u) == 0
    ensures WriteFits(v, i, 0, n) <==> v.freeBlocks >= Cost(n)
  {
    hide At, Chains, AllGaps;
    EmptyGaps(v, i, BlocksUpTo(n));
    if n == 0 { NoChains(); }
  }

  lemma NoChains()
    ensures Chains(0) == {}
  {
  }

  lemma OverNothing(text: Str)
    ensures Overlay([], 0, text) == text
  {
  }

  /** The file at `path` holds `text`, and nothing else is different. */
  ghost predicate Written(fs: S.Fs, fs': S.Fs, path: Path, text: Str)
  {
    var l := S.LookUp(fs, path);
    if l.Ok? then fs' == fs.(files := fs.files[l.value := text]) else NewAt(fs, fs', path, false, text)
  }

  ghost predicate Writing(fs: S.Fs, fs': S.Fs, path: Path, text: Str, r: Result<()>)
  {
    var l, at := S.LookUp(fs, path), S.OnDisk(fs, path);
    if l.Err? && l.error != ENOENT then r == Err(l.error) && fs' == fs
    else if l.Err? && at.Err? then r == Err(at.error) && fs' == fs
    else if r.Ok? then Written(fs, fs', path, text)
    else Full(r.error) && (fs' == fs || exists n :: 0 <= n <= |text| && Written(fs, fs', path, text[..n]))
  }

  /** write_file: only what is not found is made. */
  method WriteFile(w: Wfs, path: Path, text: Str, now: nat) returns (r: Result<()>)
    requires Fine(w) && path != [] && path[0] == SLASH && 0 !in path && |text| <= MAX_FILE_SIZE
    requires S.LookUp(AbsOf(w.V()), path).Ok? ==> S.LookUp(AbsOf(w.V()), path).value in AbsOf(w.V()).files
    modifies w
    ensures Fine(w)
    ensures Writing(AbsOf(old(w.V())), AbsOf(w.V()), path, text, r)
    ensures var l := S.LookUp(AbsOf(old(w.V())), path);
      l.Ok? || l.error == ENOENT ==> (r.Ok? <==> FileFits(old(w.V()), path, |text|))
  {
    hide Own, Tidy, DirShape, TreeOf, IsTree, AbsOf, S.OnDisk, S.LookUp, Grounded, LookupPath, NewAt, Cost, SlotAt,
      SlotGaps, SlotLeft;
    ghost var v, fs := w.V(), AbsOf(w.V());
    var l := Lookup(w, path);
    LookUpIs(w.V(), path);
    if l.Err? && l.error != ENOENT {
      return Err(l.error);
    }
    if l.Err? {
      MissingIsGrounded(fs, path);
      var m := MakeAt(w, path, File, now);
      NewThenWrite(v, w.V(), path, m, |text|);
      if m.Err? {
        return m;
      }
      NewIsFile(fs, AbsOf(w.V()), path);
      l := Lookup(w, path);
      LookUpIs(w.V(), path);
    }
    ghost var mid := AbsOf(w.V());
    ghost var n;
    r, n := Rewrite(w, l.value, text, now);
    WrittenAfter(fs, mid, AbsOf(w.V()), path, l.value, text[..n]);
    assert text[..|text|] == text;
  }

  /** A new file is made, and then there is room for its bytes, exactly if there was for both. */
  lemma NewThenWrite(v: Vol, v': Vol, path: Path, m: Result<()>, n: nat)
    requires n <= MAX_FILE_SIZE && S.LookUp(AbsOf(v), path).Err? && MadeOn(v, v', path, File, m)
    requires S.OnDisk(AbsOf(v), path).Err? ==> m.Err?
    ensures m.Err? ==> !FileFits(v, path, n)
    ensures m.Ok? ==> S.LookUp(AbsOf(v'), path).Ok? && S.LookUp(AbsOf(v'), path).value < |v'.inodes|
    ensures m.Ok? ==>
      (FileFits(v, path, n) <==> v'.freeBlocks + v'.inodes[S.LookUp(AbsOf(v'), path).value].blocks >= Cost(n))
  {
    hide S.LookUp, S.OnDisk, AbsOf, Cost, SlotAt, SlotGaps, SlotLeft, At;
  }

  /** A path to something not there goes through a directory, or through nothing. */
  lemma MissingIsGrounded(fs: S.Fs, path: Path)
    requires path != [] && path[0] == SLASH && S.LookUp(fs, path) == Err(ENOENT)
    ensures Grounded(fs, path)
  {
    hide S.LookUp, S.OnDisk, S.Who;
    if S.OnDisk(fs, path).Ok? { LookUpParts(fs, path); }
  }

  lemma NewIsFile(fs: S.Fs, fs': S.Fs, path: Path)
    requires NewAt(fs, fs', path, false, [])
    ensures S.LookUp(fs', path).Ok? && S.LookUp(fs', path).value in fs'.files
  {
    hide S.LookUp, S.OnDisk;
  }

  lemma WrittenAfter(fs: S.Fs, mid: S.Fs, fs': S.Fs, path: Path, i: nat, text: Str)
    requires if S.LookUp(fs, path).Ok? then mid == fs else NewAt(fs, mid, path, false, [])
    requires S.LookUp(mid, path) == Ok(i) && fs' == mid.(files := mid.files[i := text])
    ensures Written(fs, fs', path, text)
  {
    hide S.LookUp, S.OnDisk, S.Who;
    LookUpSame(mid, fs', path);
  }

  /* ---- save_password ---- */

  predicate PlainName(name: Str) { name != [] && SLASH !in name && !IsDot(name) }

  /** A name that leads into the directory it is in, whatever comes after. */
  predicate LeadsIn(name: Str) { name != [] && name[0] != SLASH && !IsDot(name[..CompLen(name)]) }

  lemma OneComponent(name: Str)
    requires SLASH !in name
    ensures PlainName(name) <==> LeadsIn(name)
  {
    assert CompLen(name) == |name| && name[..|name|] == name;
  }

  /** Nothing a save does would treat a file as a directory, or a directory as a file: new names
      go into directories, and no directory is where the password goes. */
  ghost predicate Safe(fs: S.Fs, name: Str)
  {
    if S.LookUp(fs, CONFIG_DIR).Ok? then
      && Grounded(fs, DirPath(name))
      && (S.LookUp(fs, PasswordPath(name)).Ok? ==> S.LookUp(fs, PasswordPath(name)).value in fs.files)
    else LeadsIn(name)
  }

  /** There is a directory for the password, or one can be made. */
  ghost predicate Reachable(fs: S.Fs, name: Str)
  {
    if S.LookUp(fs, CONFIG_DIR).Err? then |name| <= NAME_MAX && SLASH !in name
    else if S.LookUp(fs, DirPath(name)).Ok? then S.IsDirAt(fs, S.LookUp(fs, DirPath(name)).value)
    else S.OnDisk(fs, DirPath(name)).Ok? && S.IsDirAt(fs, S.OnDisk(fs, DirPath(name)).value.0)
  }

  /** What a file holds, if a path leads to one. */
  ghost predicate Holds(fs: S.Fs, path: Path, text: Str)
  {
    S.LookUp(fs, path).Ok? && S.LookUp(fs, path).value in fs.files && fs.files[S.LookUp(fs, path).value] == text
  }

  lemma ConfigTop(fs: S.Fs)
    ensures S.LookUp(fs, CONFIG_DIR) == S.Enter(fs, true, ROOT_INO, Q.USERCONFIG)
    ensures S.OnDisk(fs, CONFIG_DIR) == Ok((ROOT_INO, Q.USERCONFIG)) && Grounded(fs, CONFIG_DIR)
  {
    hide S.LookUp, S.OnDisk, S.Enter;
    LookUpTop(fs, Q.USERCONFIG);
    OnDiskTop(fs, Q.USERCONFIG);
  }

  lemma PlainParts(fs: S.Fs, name: Str)
    requires PlainName(name)
    ensures var c := S.LookUp(fs, CONFIG_DIR);
      && S.LookUp(fs, DirPath(name)) == (if c.Err? then c else if |name| > NAME_MAX then Err(ENAMETOOLONG)
                                         else S.Enter(fs, true, c.value, name))
      && S.OnDisk(fs, DirPath(name)) == (if |name| > NAME_MAX then Err(ENAMETOOLONG) else if c.Ok?
        then Ok((c.value, name))
                                         else Err(c.error))
  {
    hide S.LookUp, S.OnDisk, S.Enter;
    LookUpSnoc(fs, CONFIG_DIR, name);
    OnDiskSnoc(fs, CONFIG_DIR, name);
  }

  lemma PasswordParts(fs: S.Fs, name: Str)
    requires |name| <= 31
    ensures var d := S.LookUp(fs, DirPath(name));
      && S.LookUp(fs, PasswordPath(name)) == (if d.Err? then d else S.Enter(fs, true, d.value, Q.PASSWORD))
      && S.OnDisk(fs, PasswordPath(name)) == (if d.Ok? then Ok((d.value, Q.PASSWORD)) else Err(d.error))
  {
    hide S.LookUp, S.OnDisk, S.Enter;
    LookUpSnoc(fs, DirPath(name), Q.PASSWORD);
    OnDiskSnoc(fs, DirPath(name), Q.PASSWORD);
  }

  /** A new configuration directory has room for any plain name. */
  lemma FreshConfig(fs: S.Fs, fs': S.Fs, name: Str)
    requires PlainName(name) && |name| <= 31 && NewAt(fs, fs', CONFIG_DIR, true, [])
    ensures S.LookUp(fs', CONFIG_DIR).Ok? && Safe(fs', name) && (Reachable(fs', name) <==> |name| <= NAME_MAX)
    ensures S.LookUp(fs', PasswordPath(name)).Err?
  {
    hide S.LookUp, S.OnDisk, S.Enter, S.Who, S.IsDirAt;
    ConfigTop(fs);
    var c := S.LookUp(fs', CONFIG_DIR).value;
    NewIsEmpty(fs, fs', c, ROOT_INO, Q.USERCONFIG, name);
    NewIsDir(fs, fs', c);
    PlainParts(fs', name);
    PasswordParts(fs', name);
  }

  /** And for none that leads further: what comes first is not there. */
  lemma FreshConfigBelow(fs: S.Fs, fs': S.Fs, name: Str)
    requires LeadsIn(name) && SLASH in name && |name| <= 31 && NewAt(fs, fs', CONFIG_DIR, true, [])
    ensures S.LookUp(fs', CONFIG_DIR).Ok? && Safe(fs', name) && !Reachable(fs', name)
    ensures S.LookUp(fs', PasswordPath(name)).Err?
  {
    hide S.LookUp, S.OnDisk, S.Enter, S.Who, S.IsDirAt;
    ConfigTop(fs);
    var c, k := S.LookUp(fs', CONFIG_DIR).value, CompLen(name);
    var first := name[..k];
    assert k > 0;
    Shorter(name);
    NewIsEmpty(fs, fs', c, ROOT_INO, Q.USERCONFIG, first);
    LookUpSnoc(fs', CONFIG_DIR, first);
    EntersNothing(fs', c, first);
    assert DirPath(name) == DirPath(first) + [SLASH] + name[k + 1..];
    LookUpPast(fs', DirPath(first), name[k + 1..]);
    OnDiskPast(fs', DirPath(first), name[k + 1..]);
    PasswordParts(fs', name);
  }

  lemma Shorter(name: Str)
    requires SLASH in name
    ensures CompLen(name) < |name| && name[CompLen(name)] == SLASH && SLASH !in name[..CompLen(name)]
  {
    var m :| 0 <= m < |name| && name[m] == SLASH;
    assert CompLen(name) <= m;
  }

  lemma NewIsDir(fs: S.Fs, fs': S.Fs, i: nat)
    requires exists d: nat, name: Name :: Gained(fs, fs', i, d, name, true)
    ensures S.IsDirAt(fs', i)
  {
  }

  /** There is room for a password of `n` bytes, and for the directories on the way to it that are
      not there. */
  ghost predicate SaveFits(v: Vol, name: Str, n: nat)
    requires n <= MAX_FILE_SIZE
  {
    var fs := AbsOf(v);
    if S.LookUp(fs, CONFIG_DIR).Err? then
      && ROOT_INO < |v.inodes| && v.freeInodes >= 3 && SlotLeft(v, ROOT_INO)
      && v.freeBlocks >= |SlotGaps(v, ROOT_INO)| + 2 + Cost(n)
    else if S.LookUp(fs, DirPath(name)).Ok? then FileFits(v, PasswordPath(name), n)
    else S.OnDisk(fs, DirPath(name)).Ok? && NewDirFits(v, S.OnDisk(fs, DirPath(name)).value.0, n)
  }

  /** With the configuration directory made, what is left is room for the rest. */
  lemma ConfigThenSave(v: Vol, v': Vol, name: Str, n: nat, r: Result<()>)
    requires PlainName(name) && |name| <= NAME_MAX && n <= MAX_FILE_SIZE && S.LookUp(AbsOf(v), CONFIG_DIR).Err?
    requires MadeOn(v, v', CONFIG_DIR, Dir, r)
    requires r.Ok? ==> NewAt(AbsOf(v), AbsOf(v'), CONFIG_DIR, true, [])
    ensures r.Err? ==> !SaveFits(v, name, n)
    ensures r.Ok? ==> (SaveFits(v', name, n) <==> SaveFits(v, name, n))
  {
    hide S.LookUp, S.OnDisk, S.Enter, AbsOf, NewAt, Cost, SlotAt, SlotGaps, SlotLeft, FileFits;
    ConfigTop(AbsOf(v));
    if r.Ok? {
      var c := S.LookUp(AbsOf(v'), CONFIG_DIR).value;
      FreshConfig(AbsOf(v), AbsOf(v'), name);
      FreshParts(AbsOf(v), AbsOf(v'), name);
      FreshIn(v, v', ROOT_INO, c);
    }
  }

  /** A new directory takes its entry and its dots, and has room for an entry. */
  lemma FreshIn(v: Vol, v': Vol, d: nat, i: nat)
    requires d < |v.inodes| && CreateAccounted(v, v', d, Dir, Ok(i))
    ensures i < |v'.inodes| && SlotLeft(v, d) && SlotLeft(v', i) && SlotGaps(v', i) == {}
    ensures v'.freeInodes + 1 == v.freeInodes && v'.freeBlocks + 1 + |SlotGaps(v, d)| == v.freeBlocks
  {
    hide SlotAt, SlotGaps, At, SlotLeft;
    FreshSlot(v', i);
  }

  lemma FreshParts(fs: S.Fs, fs': S.Fs, name: Str)
    requires PlainName(name) && |name| <= NAME_MAX && NewAt(fs, fs', CONFIG_DIR, true, [])
    ensures S.LookUp(fs', CONFIG_DIR).Ok? && S.LookUp(fs', DirPath(name)).Err?
    ensures S.OnDisk(fs', DirPath(name)) == Ok((S.LookUp(fs', CONFIG_DIR).value, name))
  {
    hide S.LookUp, S.OnDisk, S.Enter, S.Who, S.IsDirAt;
    ConfigTop(fs);
    var c := S.LookUp(fs', CONFIG_DIR).value;
    NewIsEmpty(fs, fs', c, ROOT_INO, Q.USERCONFIG, name);
    EntersNothing(fs', c, name);
    PlainParts(fs', name);
  }

  /* ---- what a save leaves alone ---- */

  ghost predicate SameText(fs: S.Fs, fs': S.Fs, path: Path)
  {
    forall t :: Holds(fs', path, t) <==> Holds(fs, path, t)
  }

  /** Nobody else's password and not the list. */
  ghost predicate OnlyFor(fs: S.Fs, fs': S.Fs, name: Str)
  {
    && SameText(fs, fs', LIST_FILE)
    && forall n {:trigger PasswordPath(n)} :: PlainName(n) && |n| <= 31 && n != name ==>
      SameText(fs, fs', PasswordPath(n))
  }

  lemma OnlyForTrans(fs: S.Fs, mid: S.Fs, fs': S.Fs, name: Str)
    requires OnlyFor(fs, mid, name) && OnlyFor(mid, fs', name)
    ensures OnlyFor(fs, fs', name)
  {
    hide Holds, PasswordPath;
  }

  lemma Ways(n: Str)
    requires PlainName(n)
    ensures Split(PasswordPath(n)) == [Q.USERCONFIG, n, Q.PASSWORD] && Split(LIST_FILE) == [Q.USERCONFIG, USERS]
  {
    hide Split;
    NothingSplits();
    Q.SplitJoin([], Q.USERCONFIG);
    assert [] + [SLASH] + Q.USERCONFIG == CONFIG_DIR;
    Q.SplitOne(Q.USERCONFIG);
    Q.SplitJoin(CONFIG_DIR, USERS);
    Q.SplitOne(USERS);
    Q.SplitJoin(CONFIG_DIR, n);
    Q.SplitOne(n);
    Q.SplitJoin(DirPath(n), Q.PASSWORD);
    Q.SplitOne(Q.PASSWORD);
  }

  /** What a component that is no dot leads to has that place. */
  lemma EntersPlace(fs: S.Fs, at: nat, name: Name)
    requires !IsDot(name) && S.Enter(fs, true, at, name).Ok?
    ensures var i := S.Enter(fs, true, at, name).value;
      i in fs.places && fs.places[i].dir == at && fs.places[i].name == name
  {
    var who := S.Who(fs, at, name);
    assert S.The(who) in who;
  }

  /** A new place off the way to a file. */
  lemma OffTheWay(fs: S.Fs, fs': S.Fs, i: nat, d: nat, name: Name, isDir: bool, path: Path)
    requires Gained(fs, fs', i, d, name, isDir) && Settled(fs, i) && path != [] && path[0] == SLASH
    requires !Passes(fs, ROOT_INO, Split(path), d, name)
    requires fs'.files - {i} == fs.files - {i} && i !in fs.files && N.Proper(fs)
    ensures SameText(fs, fs', path)
  {
    hide Passes, S.Follow, Split;
    FollowElsewhere(fs, fs', i, d, name, isDir, ROOT_INO, Split(path));
    var l := S.LookUp(fs, path);
    if l.Ok? {
      hide Settled;
      FollowGained(fs, fs', i, d, name, isDir, ROOT_INO, Split(path));
      assert l.value != i;
      assert l.value in fs'.files <==> l.value in fs'.files - {i};
      assert l.value in fs.files <==> l.value in fs.files - {i};
    }
  }

  lemma PassesThree(fs: S.Fs, a: Name, b: Name, c: Name, d: nat, name: Name)
    requires !(ROOT_INO == d && a == name)
    requires var r := S.Enter(fs, true, ROOT_INO, a);
      r.Ok? ==>
        && !(r.value == d && b == name)
        && var q := S.Enter(fs, true, r.value, b); q.Ok? ==> !(q.value == d && c == name)
    ensures !Passes(fs, ROOT_INO, [a, b, c], d, name) && !Passes(fs, ROOT_INO, [a, b], d, name)
  {
    hide S.Enter;
    var r := S.Enter(fs, true, ROOT_INO, a);
    assert [a, b, c][1..] == [b, c] && [b, c][1..] == [c] && [a, b][1..] == [b];
    if r.Ok? {
      var q := S.Enter(fs, true, r.value, b);
      if q.Ok? { PassesOne(fs, q.value, c, d, name); }
      assert !Passes(fs, r.value, [b, c], d, name);
      PassesOne(fs, r.value, b, d, name);
    }
  }

  lemma PassesOne(fs: S.Fs, at: nat, c: Name, d: nat, name: Name)
    ensures Passes(fs, at, [c], d, name) <==> at == d && c == name
  {
    assert [c][1..] == [];
  }

  /* ---- step by step ---- */

  lemma AfterConfig(fs: S.Fs, fs': S.Fs, name: Str)
    requires NewAt(fs, fs', CONFIG_DIR, true, []) && S.LookUp(fs, CONFIG_DIR).Err?
    ensures OnlyFor(fs, fs', name)
  {
    hide S.LookUp, S.OnDisk, S.Enter, S.Who, S.IsDirAt, Settled;
    ConfigTop(fs);
    var c := S.LookUp(fs', CONFIG_DIR).value;
    forall n | PlainName(n) && |n| <= 31 ensures SameText(fs, fs', PasswordPath(n)) {
      FreshConfig(fs, fs', n);
      PlainParts(fs, n);
      PasswordParts(fs, n);
    }
    NewIsEmpty(fs, fs', c, ROOT_INO, Q.USERCONFIG, USERS);
    LookUpSnoc(fs, CONFIG_DIR, USERS);
    LookUpSnoc(fs', CONFIG_DIR, USERS);
  }

  /** A new directory of somebody's. */
  lemma AfterDir(fs: S.Fs, fs': S.Fs, name: Str)
    requires PlainName(name) && S.LookUp(fs, CONFIG_DIR).Ok? && NewAt(fs, fs', DirPath(name), true, []) && N.Proper(fs)
    ensures OnlyFor(fs, fs', name)
  {
    hide S.LookUp, S.OnDisk, S.Enter, S.Who, S.IsDirAt, Settled, N.Proper, Split, SameText, Passes;
    ConfigTop(fs);
    PlainParts(fs, name);
    var c := S.LookUp(fs, CONFIG_DIR).value;
    var i := S.LookUp(fs', DirPath(name)).value;
    EntersPlace(fs, ROOT_INO, Q.USERCONFIG);
    RootHasNone(fs);
    forall n | PlainName(n) && |n| <= 31 && n != name ensures SameText(fs, fs', PasswordPath(n)) {
      Ways(n);
      if S.Enter(fs, true, c, n).Ok? { EntersPlace(fs, c, n); }
      PassesThree(fs, Q.USERCONFIG, n, Q.PASSWORD, c, name);
      OffTheWay(fs, fs', i, c, name, true, PasswordPath(n));
    }
    Ways(name);
    ListStays(fs, fs', name, c, i);
  }

  lemma RootHasNone(fs: S.Fs)
    requires N.Proper(fs)
    ensures ROOT_INO !in fs.places
  {
  }

  lemma EntersNothing(fs: S.Fs, d: nat, name: Name)
    requires S.Who(fs, d, name) == {} && !IsDot(name)
    ensures S.Enter(fs, true, d, name).Err?
  {
  }

  lemma EntersOnly(fs: S.Fs, d: nat, name: Name, i: nat)
    requires S.Who(fs, d, name) == {i} && !IsDot(name)
    ensures S.Enter(fs, true, d, name).Ok? ==> S.Enter(fs, true, d, name).value == i
  {
    assert S.The({i}) in {i};
  }

  /** The list is where it was, unless it was not there and now a directory is. */
  lemma ListStays(fs: S.Fs, fs': S.Fs, name: Str, c: nat, i: nat)
    requires PlainName(name) && S.LookUp(fs, CONFIG_DIR) == Ok(c) && c != ROOT_INO && N.Proper(fs)
    requires Gained(fs, fs', i, c, name, true) && Settled(fs, i) && c != i && fs'.files == fs.files && i !in fs.files
    ensures SameText(fs, fs', LIST_FILE)
  {
    hide S.OnDisk, S.IsDirAt, N.Proper, Split, Passes, S.LookUp, S.Enter, S.Who;
    ConfigTop(fs);
    if name == USERS {
      LookUpSnoc(fs, CONFIG_DIR, USERS);
      LookUpSnoc(fs', CONFIG_DIR, USERS);
      EnterGained(fs, fs', i, c, name, true, ROOT_INO, Q.USERCONFIG);
      ConfigTop(fs');
      EntersNothing(fs, c, USERS);
      WhoGained(fs, fs', i, c, name, true, c, USERS);
      EntersOnly(fs', c, USERS, i);
    } else {
      Ways(name);
      PassesThree(fs, Q.USERCONFIG, USERS, [], c, name);
      OffTheWay(fs, fs', i, c, name, true, LIST_FILE);
    }
  }

  /** Somebody's own directory is not the one it is in, nor anybody else's. */
  lemma OwnDir(fs: S.Fs, name: Str, n: Str)
    requires PlainName(name) && PlainName(n) && n != name && N.Proper(fs) && S.LookUp(fs, DirPath(name)).Ok?
    ensures S.LookUp(fs, CONFIG_DIR).Ok?
    ensures var c, d := S.LookUp(fs, CONFIG_DIR).value, S.LookUp(fs, DirPath(name)).value;
      && c != ROOT_INO && c != d && S.Enter(fs, true, ROOT_INO, Q.USERCONFIG) == Ok(c)
        && S.Enter(fs, true, c, name) == Ok(d)
      && (S.Enter(fs, true, c, n).Ok? ==> S.Enter(fs, true, c, n).value != d)
  {
    hide S.LookUp, S.OnDisk, S.Enter, N.Proper;
    ConfigTop(fs);
    PlainParts(fs, name);
    RootHasNone(fs);
    var c := S.LookUp(fs, CONFIG_DIR).value;
    EntersPlace(fs, ROOT_INO, Q.USERCONFIG);
    EntersPlace(fs, c, name);
    if S.Enter(fs, true, c, n).Ok? { EntersPlace(fs, c, n); }
  }

  /** A new password file. */
  lemma AfterPassword(fs: S.Fs, fs': S.Fs, name: Str, text: Str)
    requires PlainName(name) && |name| <= 31 && N.Proper(fs) && S.LookUp(fs, DirPath(name)).Ok?
    requires NewAt(fs, fs', PasswordPath(name), false, text)
    ensures OnlyFor(fs, fs', name)
  {
    hide S.LookUp, S.OnDisk, S.Enter, S.Who, S.IsDirAt, Settled, N.Proper, Split, SameText, Passes;
    PasswordParts(fs, name);
    var d := S.LookUp(fs, DirPath(name)).value;
    var i := S.LookUp(fs', PasswordPath(name)).value;
    forall n | PlainName(n) && |n| <= 31 && n != name ensures SameText(fs, fs', PasswordPath(n)) {
      Ways(n);
      OwnDir(fs, name, n);
      PassesThree(fs, Q.USERCONFIG, n, Q.PASSWORD, d, Q.PASSWORD);
      OffTheWay(fs, fs', i, d, Q.PASSWORD, false, PasswordPath(n));
    }
    Ways(name);
    OwnDir(fs, name, if name == USERS then Q.PASSWORD else USERS);
    PassesThree(fs, Q.USERCONFIG, USERS, [], d, Q.PASSWORD);
    OffTheWay(fs, fs', i, d, Q.PASSWORD, false, LIST_FILE);
  }

  /** A password file written over. */
  lemma AfterRewrite(fs: S.Fs, fs': S.Fs, name: Str, text: Str)
    requires PlainName(name) && |name| <= 31 && N.Proper(fs) && S.LookUp(fs, PasswordPath(name)).Ok?
    requires fs' == fs.(files := fs.files[S.LookUp(fs, PasswordPath(name)).value := text])
    ensures OnlyFor(fs, fs', name)
  {
    hide S.LookUp, S.OnDisk, S.Enter, S.Who, S.IsDirAt, N.Proper;
    PasswordParts(fs, name);
    var d, x := S.LookUp(fs, DirPath(name)).value, S.LookUp(fs, PasswordPath(name)).value;
    EntersPlace(fs, d, Q.PASSWORD);
    forall n | PlainName(n) && |n| <= 31 && n != name ensures SameText(fs, fs', PasswordPath(n)) {
      OwnDir(fs, name, n);
      LookUpSame(fs, fs', PasswordPath(n));
      PlainParts(fs, n);
      PasswordParts(fs, n);
      if S.LookUp(fs, PasswordPath(n)).Ok? { EntersPlace(fs, S.LookUp(fs, DirPath(n)).value, Q.PASSWORD); }
    }
    LookUpSame(fs, fs', LIST_FILE);
    LookUpSnoc(fs, CONFIG_DIR, USERS);
    if S.LookUp(fs, LIST_FILE).Ok? { EntersPlace(fs, S.LookUp(fs, CONFIG_DIR).value, USERS); }
  }

  lemma AfterWriting(fs: S.Fs, fs': S.Fs, name: Str, text: Str, r: Result<()>)
    requires PlainName(name) && |name| <= 31 && N.Proper(fs)
    requires Writing(fs, fs', PasswordPath(name), text, r)
    ensures OnlyFor(fs, fs', name)
  {
    hide S.LookUp, S.OnDisk, S.Enter, N.Proper, OnlyFor, NewAt, PasswordPath;
    if fs' == fs {
      NothingChanged(fs, name);
    } else {
      var t: Str :| Written(fs, fs', PasswordPath(name), t);
      AfterWritten(fs, fs', name, t);
    }
  }

  lemma AfterWritten(fs: S.Fs, fs': S.Fs, name: Str, text: Str)
    requires PlainName(name) && |name| <= 31 && N.Proper(fs) && Written(fs, fs', PasswordPath(name), text)
    ensures OnlyFor(fs, fs', name)
  {
    hide S.LookUp, S.OnDisk, S.Enter, N.Proper, OnlyFor, NewAt;
    if S.LookUp(fs, PasswordPath(name)).Ok? {
      AfterRewrite(fs, fs', name, text);
    } else {
      NewHasDir(fs, fs', name, text);
      AfterPassword(fs, fs', name, text);
    }
  }

  lemma NewHasDir(fs: S.Fs, fs': S.Fs, name: Str, text: Str)
    requires |name| <= 31 && NewAt(fs, fs', PasswordPath(name), false, text)
    ensures S.LookUp(fs, DirPath(name)).Ok?
  {
    hide S.LookUp, S.OnDisk;
    PasswordParts(fs, name);
  }

  lemma NothingChanged(fs: S.Fs, name: Str)
    ensures OnlyFor(fs, fs, name)
  {
  }

  /* ---- save_password itself ---- */

  lemma PathIsC(name: Str)
    requires 0 !in name
    ensures 0 !in DirPath(name) && 0 !in PasswordPath(name) && 0 !in CONFIG_DIR && 0 !in LIST_FILE
    ensures DirPath(name) != [] && PasswordPath(name) != []
    ensures DirPath(name)[0] == PasswordPath(name)[0] == CONFIG_DIR[0] == LIST_FILE[0] == SLASH
  {
  }

  /** The directory first, then the file in it.  It is saved exactly if the directory is there or
      can be made, but for want of room; and nobody else's is touched. */
  method SaveText(w: Wfs, name: Str, text: Str, now: nat) returns (r: Result<()>)
    requires Fine(w) && 0 !in name && |name| <= 31 && |text| <= MAX_FILE_SIZE && Safe(AbsOf(w.V()), name)
    modifies w
    ensures Fine(w)
    ensures r.Ok? ==> Reachable(AbsOf(old(w.V())), name) && Holds(AbsOf(w.V()), PasswordPath(name), text)
    ensures r.Err? ==> !Reachable(AbsOf(old(w.V())), name) || Full(r.error)
    ensures !Reachable(AbsOf(old(w.V())), name) ==> S.LookUp(AbsOf(w.V()), PasswordPath(name)).Err?
    ensures PlainName(name) ==> OnlyFor(AbsOf(old(w.V())), AbsOf(w.V()), name)
    ensures r.Ok? <==> Reachable(AbsOf(old(w.V())), name) && SaveFits(old(w.V()), name, |text|)
  {
    hide Own, Tidy, DirShape, TreeOf, IsTree, AbsOf, S.OnDisk, S.LookUp, S.IsDirAt, NewAt, OnlyFor, DirPath,
      PasswordPath, PlainName, SaveFits, MadeOn, LeadsIn;
    ghost var v, fs := w.V(), AbsOf(w.V());
    PathIsC(name);
    ConfigTop(fs);
    NothingChanged(fs, name);
    NoWay(fs, name);
    r := EnsureDir(w, CONFIG_DIR, now);
    if S.LookUp(fs, CONFIG_DIR).Err? { ConfigDone(v, w.V(), name, |text|, r); }
    if r.Err? {
      return;
    }
    ghost var mid := AbsOf(w.V());
    if S.LookUp(fs, CONFIG_DIR).Err? { AfterConfig(fs, mid, name); }
    r := SaveUnder(w, name, text, now);
    if PlainName(name) { OnlyForTrans(fs, mid, AbsOf(w.V()), name); }
  }

  /** What making the configuration directory settles. */
  lemma ConfigDone(v: Vol, v': Vol, name: Str, n: nat, r: Result<()>)
    requires n <= MAX_FILE_SIZE && |name| <= 31 && LeadsIn(name) && S.LookUp(AbsOf(v), CONFIG_DIR).Err?
    requires MadeOn(v, v', CONFIG_DIR, Dir, r) && (r.Ok? ==> NewAt(AbsOf(v), AbsOf(v'), CONFIG_DIR, true, []))
    ensures r.Err? ==> !(Reachable(AbsOf(v), name) && SaveFits(v, name, n))
    ensures r.Ok? ==> S.LookUp(AbsOf(v'), CONFIG_DIR).Ok? && Safe(AbsOf(v'), name)
    ensures r.Ok? ==> (Reachable(AbsOf(v'), name) <==> Reachable(AbsOf(v), name))
    ensures r.Ok? && Reachable(AbsOf(v), name) ==> (SaveFits(v', name, n) <==> SaveFits(v, name, n))
  {
    hide S.LookUp, S.OnDisk, AbsOf, NewAt, SaveFits, MadeOn, Safe;
    if SLASH in name {
      if r.Ok? { FreshConfigBelow(AbsOf(v), AbsOf(v'), name); }
    } else {
      OneComponent(name);
      if r.Ok? { FreshConfig(AbsOf(v), AbsOf(v'), name); }
      if |name| <= NAME_MAX { ConfigThenSave(v, v', name, n, r); }
    }
  }

  method SaveUnder(w: Wfs, name: Str, text: Str, now: nat) returns (r: Result<()>)
    requires Fine(w) && 0 !in name && |name| <= 31 && |text| <= MAX_FILE_SIZE
    requires Safe(AbsOf(w.V()), name) && S.LookUp(AbsOf(w.V()), CONFIG_DIR).Ok?
    modifies w
    ensures Fine(w)
    ensures r.Ok? ==> Reachable(AbsOf(old(w.V())), name) && Holds(AbsOf(w.V()), PasswordPath(name), text)
    ensures r.Err? ==> !Reachable(AbsOf(old(w.V())), name) || Full(r.error)
    ensures !Reachable(AbsOf(old(w.V())), name) ==> S.LookUp(AbsOf(w.V()), PasswordPath(name)).Err?
    ensures PlainName(name) ==> OnlyFor(AbsOf(old(w.V())), AbsOf(w.V()), name)
    ensures r.Ok? <==> Reachable(AbsOf(old(w.V())), name) && SaveFits(old(w.V()), name, |text|)
  {
    hide Own, Tidy, DirShape, TreeOf, IsTree, AbsOf, S.OnDisk, S.LookUp, S.IsDirAt, S.Enter, NewAt, OnlyFor, DirPath,
      PasswordPath, PlainName, Written, SaveFits, FileFits, MadeOn;
    ghost var v, fs := w.V(), AbsOf(w.V());
    PathIsC(name);
    NothingChanged(fs, name);
    AbsIsProper(v);
    NoWay(fs, name);
    r := EnsureDir(w, DirPath(name), now);
    ghost var mid, v1 := AbsOf(w.V()), w.V();
    if r.Err? {
      NoDirNoSave(v, v1, name, |text|, r);
      return;
    }
    AbsIsProper(w.V());
    DirIsReady(fs, mid, name);
    DirThenSave(v, v1, name, |text|, r);
    if PlainName(name) && mid != fs { AfterDir(fs, mid, name); }
    r := WriteFile(w, PasswordPath(name), text, now);
    if PlainName(name) {
      AfterWriting(mid, AbsOf(w.V()), name, text, r);
      OnlyForTrans(fs, mid, AbsOf(w.V()), name);
    }
    if r.Ok? { WrittenHolds(mid, AbsOf(w.V()), PasswordPath(name), text); }
  }

  lemma NoDirNoSave(v: Vol, v': Vol, name: Str, n: nat, r: Result<()>)
    requires n <= MAX_FILE_SIZE && S.LookUp(AbsOf(v), CONFIG_DIR).Ok? && S.LookUp(AbsOf(v), DirPath(name)).Err?
    requires MadeOn(v, v', DirPath(name), Dir, r) && r.Err?
    ensures !(Reachable(AbsOf(v), name) && SaveFits(v, name, n))
  {
    hide S.LookUp, S.OnDisk, AbsOf, Cost, SlotAt, SlotGaps, SlotLeft, DirPath, FileFits;
  }

  /** With somebody's directory there or just made, there is room for the file exactly if there was
      for all. */
  lemma DirThenSave(v: Vol, v': Vol, name: Str, n: nat, r: Result<()>)
    requires n <= MAX_FILE_SIZE && |name| <= 31 && S.LookUp(AbsOf(v), CONFIG_DIR).Ok?
    requires r.Ok? && if S.LookUp(AbsOf(v), DirPath(name)).Ok? then v' == v
      else MadeOn(v, v', DirPath(name), Dir, r) && NewAt(AbsOf(v), AbsOf(v'), DirPath(name), true, [])
    ensures FileFits(v', PasswordPath(name), n) <==> SaveFits(v, name, n)
  {
    hide S.LookUp, S.OnDisk, AbsOf, Cost, SlotAt, SlotGaps, SlotLeft, DirPath, PasswordPath, CreateAccounted;
    if S.LookUp(AbsOf(v), DirPath(name)).Err? {
      var i := S.LookUp(AbsOf(v'), DirPath(name)).value;
      NewDirParts(AbsOf(v), AbsOf(v'), name);
      DirThenFile(v, v', S.OnDisk(AbsOf(v), DirPath(name)).value.0, i, n);
    }
  }

  lemma NewDirParts(fs: S.Fs, fs': S.Fs, name: Str)
    requires |name| <= 31 && NewAt(fs, fs', DirPath(name), true, [])
    ensures S.OnDisk(fs, DirPath(name)).Ok? && S.LookUp(fs', DirPath(name)).Ok?
      && S.LookUp(fs', PasswordPath(name)).Err?
    ensures S.OnDisk(fs', PasswordPath(name)) == Ok((S.LookUp(fs', DirPath(name)).value, Q.PASSWORD))
  {
    hide S.LookUp, S.OnDisk, S.Enter, S.Who;
    PasswordParts(fs', name);
    var (e, c) := S.OnDisk(fs, DirPath(name)).value;
    var d := S.LookUp(fs', DirPath(name)).value;
    NewIsEmpty(fs, fs', d, e, c, Q.PASSWORD);
    EntersNothing(fs', d, Q.PASSWORD);
  }

  lemma NoWay(fs: S.Fs, name: Str)
    requires |name| <= 31
    ensures !Reachable(fs, name) || S.LookUp(fs, CONFIG_DIR).Err? ==> S.LookUp(fs, PasswordPath(name)).Err?
  {
    hide S.LookUp, S.OnDisk;
    PasswordParts(fs, name);
    if S.LookUp(fs, CONFIG_DIR).Err? { LookUpPast(fs, CONFIG_DIR, name); }
  }

  /** With somebody's directory there or just made, the file can be written exactly if it is one. */
  lemma DirIsReady(fs: S.Fs, mid: S.Fs, name: Str)
    requires |name| <= 31 && S.LookUp(fs, CONFIG_DIR).Ok? && Safe(fs, name)
    requires if S.LookUp(fs, DirPath(name)).Ok? then mid == fs else NewAt(fs, mid, DirPath(name), true, [])
    ensures var l := S.LookUp(mid, PasswordPath(name));
      && (l.Ok? ==> l.value in mid.files)
      && S.OnDisk(mid, PasswordPath(name)).Ok?
      && (Reachable(fs, name) <==> l.Ok? || l == Err(ENOENT))
  {
    hide S.LookUp, S.OnDisk, S.Who, S.IsDirAt, Settled, DirPath;
    PasswordParts(mid, name);
    PasswordParts(fs, name);
    var d := S.LookUp(mid, DirPath(name)).value;
    if S.LookUp(fs, DirPath(name)).Err? {
      var (e, c) := S.OnDisk(fs, DirPath(name)).value;
      NewIsEmpty(fs, mid, d, e, c, Q.PASSWORD);
    }
  }

  lemma WrittenHolds(fs: S.Fs, fs': S.Fs, path: Path, text: Str)
    requires Written(fs, fs', path, text)
    ensures Holds(fs', path, text)
  {
    hide S.OnDisk, S.LookUp;
    if S.LookUp(fs, path).Ok? { LookUpSame(fs, fs', path); }
  }

  /* ---- save_user_list ---- */

  /** The list goes into a file. */
  ghost predicate ListIsFile(fs: S.Fs) { S.LookUp(fs, LIST_FILE).Ok? ==> S.LookUp(fs, LIST_FILE).value in fs.files }

  /** A path leads where it led, to the same text. */
  ghost predicate SameFile(fs: S.Fs, fs': S.Fs, path: Path)
  {
    && (S.LookUp(fs, path).Ok? || S.LookUp(fs', path).Ok? ==> S.LookUp(fs', path) == S.LookUp(fs, path))
    && SameText(fs, fs', path)
  }

  /** No password is different, whatever the names. */
  ghost predicate SamePasswords(fs: S.Fs, fs': S.Fs)
  {
    forall n {:trigger PasswordPath(n)} :: |n| <= 31 ==> SameFile(fs, fs', PasswordPath(n))
  }

  lemma AfterList(fs: S.Fs, fs': S.Fs, text: Str)
    requires S.LookUp(fs, CONFIG_DIR).Ok? && Written(fs, fs', LIST_FILE, text) && N.Proper(fs)
    ensures SamePasswords(fs, fs')
  {
    hide S.LookUp, S.OnDisk, S.Enter, S.Who, N.Proper, Settled, SameFile, PasswordPath, Gained;
    LookUpSnoc(fs, CONFIG_DIR, USERS);
    OnDiskSnoc(fs, CONFIG_DIR, USERS);
    forall n | |n| <= 31 ensures SameFile(fs, fs', PasswordPath(n)) {
      if S.LookUp(fs, LIST_FILE).Ok? { ListRewritten(fs, fs', text, n); } else { ListMade(fs, fs', text, n); }
    }
  }

  /** The list is not a password file: its name is another. */
  lemma ListRewritten(fs: S.Fs, fs': S.Fs, text: Str, n: Str)
    requires |n| <= 31 && S.LookUp(fs, LIST_FILE).Ok?
    requires fs' == fs.(files := fs.files[S.LookUp(fs, LIST_FILE).value := text])
    ensures SameFile(fs, fs', PasswordPath(n))
  {
    hide S.LookUp, S.OnDisk, S.Enter;
    LookUpSame(fs, fs', PasswordPath(n));
    LookUpSnoc(fs, CONFIG_DIR, USERS);
    EntersPlace(fs, S.LookUp(fs, CONFIG_DIR).value, USERS);
    PasswordParts(fs, n);
    if S.LookUp(fs, PasswordPath(n)).Ok? { EntersPlace(fs, S.LookUp(fs, DirPath(n)).value, Q.PASSWORD); }
  }

  lemma ListMade(fs: S.Fs, fs': S.Fs, text: Str, n: Str)
    requires |n| <= 31 && NewAt(fs, fs', LIST_FILE, false, text) && N.Proper(fs) && S.LookUp(fs, CONFIG_DIR).Ok?
    ensures SameFile(fs, fs', PasswordPath(n))
  {
    hide S.Enter, S.Who, Settled, Split, S.Follow, S.OnDisk;
    OnDiskSnoc(fs, CONFIG_DIR, USERS);
    var c, i := S.LookUp(fs, CONFIG_DIR).value, S.LookUp(fs', LIST_FILE).value;
    var cs := Split(PasswordPath(n));
    FileEnds(fs, fs', i, c, USERS, ROOT_INO, cs);
    if S.LookUp(fs, PasswordPath(n)).Ok? { FollowGained(fs, fs', i, c, USERS, false, ROOT_INO, cs); }
    if S.LookUp(fs', PasswordPath(n)).Ok? {
      hide S.LookUp;
      PasswordParts(fs', n);
      EntersPlace(fs', S.LookUp(fs', DirPath(n)).value, Q.PASSWORD);
      assert fs'.places[i].name == USERS;
    }
  }

  /** A save of the list leaves it safe to save a password. */
  lemma SafeAfterList(fs: S.Fs, fs': S.Fs, text: Str, name: Str)
    requires S.LookUp(fs, CONFIG_DIR).Ok? && Written(fs, fs', LIST_FILE, text) && N.Proper(fs)
    requires PlainName(name) && |name| <= 31 && Safe(fs, name)
    ensures Safe(fs', name) && S.LookUp(fs', CONFIG_DIR).Ok?
  {
    hide S.Enter, S.Who, Settled, Split, S.Follow, S.OnDisk;
    OnDiskSnoc(fs, CONFIG_DIR, USERS);
    PlainParts(fs, name);
    PlainParts(fs', name);
    var c := S.LookUp(fs, CONFIG_DIR).value;
    if S.LookUp(fs, LIST_FILE).Ok? {
      LookUpSame(fs, fs', CONFIG_DIR);
      LookUpSame(fs, fs', PasswordPath(name));
    } else {
      var i := S.LookUp(fs', LIST_FILE).value;
      FollowGained(fs, fs', i, c, USERS, false, ROOT_INO, Split(CONFIG_DIR));
      FileEnds(fs, fs', i, c, USERS, ROOT_INO, Split(PasswordPath(name)));
      if S.LookUp(fs', PasswordPath(name)).Ok? && S.LookUp(fs', PasswordPath(name)).value == i {
        assert i in fs'.files;
      }
    }
  }

  /** There is room for a list of `n` bytes, and a directory for it or room for one. */
  ghost predicate ListFits(v: Vol, n: nat)
    requires n <= MAX_FILE_SIZE
  {
    var fs, c := AbsOf(v), S.LookUp(AbsOf(v), CONFIG_DIR);
    if c.Err? then NewDirFits(v, ROOT_INO, n) else S.IsDirAt(fs, c.value) && FileFits(v, LIST_FILE, n)
  }

  /** What making sure of the directory settles. */
  lemma ListDone(v: Vol, v': Vol, n: nat, r: Result<()>)
    requires n <= MAX_FILE_SIZE
    requires if S.LookUp(AbsOf(v), CONFIG_DIR).Ok? then r.Ok? && v' == v
      else MadeOn(v, v', CONFIG_DIR, Dir, r) && (r.Ok? ==> NewAt(AbsOf(v), AbsOf(v'), CONFIG_DIR, true, []))
    ensures r.Err? ==> !ListFits(v, n)
    ensures r.Ok? ==>
      var l := S.LookUp(AbsOf(v'), LIST_FILE);
      if l.Ok? || l.error == ENOENT then FileFits(v', LIST_FILE, n) <==> ListFits(v, n) else !ListFits(v, n)
  {
    hide S.LookUp, S.OnDisk, S.Enter, AbsOf, Cost, SlotAt, SlotGaps, SlotLeft, CreateAccounted, FileFits, NewAt;
    ConfigTop(AbsOf(v));
    if S.LookUp(AbsOf(v), CONFIG_DIR).Ok? {
      ListWay(AbsOf(v));
    } else if r.Ok? {
      var c := S.LookUp(AbsOf(v'), CONFIG_DIR).value;
      NewListParts(AbsOf(v), AbsOf(v'));
      DirThenFile(v, v', ROOT_INO, c, n);
      NewListFits(v', c, n);
    } else {
      NoRoomNoList(v, v', n, r);
    }
  }

  lemma NoRoomNoList(v: Vol, v': Vol, n: nat, r: Result<()>)
    requires n <= MAX_FILE_SIZE && ROOT_INO < |v.inodes| && r.Err?
    requires CreateAccounted(v, v', ROOT_INO, Dir, Err(r.error))
    ensures !NewDirFits(v, ROOT_INO, n)
  {
    hide Cost, SlotAt, SlotGaps, SlotLeft;
  }

  lemma ListWay(fs: S.Fs)
    requires S.LookUp(fs, CONFIG_DIR).Ok?
    ensures var l := S.LookUp(fs, LIST_FILE);
      l.Ok? || l.error == ENOENT <==> S.IsDirAt(fs, S.LookUp(fs, CONFIG_DIR).value)
  {
    hide S.LookUp, S.Who, S.IsDirAt;
    LookUpSnoc(fs, CONFIG_DIR, USERS);
  }

  lemma NewListParts(fs: S.Fs, fs': S.Fs)
    requires NewAt(fs, fs', CONFIG_DIR, true, [])
    ensures S.LookUp(fs', CONFIG_DIR).Ok? && S.LookUp(fs', LIST_FILE) == Err(ENOENT)
    ensures S.OnDisk(fs', LIST_FILE) == Ok((S.LookUp(fs', CONFIG_DIR).value, USERS))
  {
    hide S.LookUp, S.OnDisk, S.Who;
    ConfigTop(fs);
    var c := S.LookUp(fs', CONFIG_DIR).value;
    NewIsEmpty(fs, fs', c, ROOT_INO, Q.USERCONFIG, USERS);
    NewIsDir(fs, fs', c);
    LookUpSnoc(fs', CONFIG_DIR, USERS);
    OnDiskSnoc(fs', CONFIG_DIR, USERS);
  }

  lemma NewListFits(v: Vol, c: nat, n: nat)
    requires n <= MAX_FILE_SIZE && S.LookUp(AbsOf(v), LIST_FILE).Err? && S.OnDisk(AbsOf(v), LIST_FILE) == Ok((c, USERS))
    ensures FileFits(v, LIST_FILE, n) <==> NewFileFits(v, c, n)
  {
    hide S.LookUp, S.OnDisk, AbsOf, NewFileFits;
  }

  /** `name` is any account whose password may be saved next. */
  method SaveListText(w: Wfs, text: Str, now: nat, ghost name: Str) returns (r: Result<()>)
    requires Fine(w) && |text| <= MAX_FILE_SIZE && ListIsFile(AbsOf(w.V()))
    requires PlainName(name) && |name| <= 31 && Safe(AbsOf(w.V()), name)
    modifies w
    ensures Fine(w)
    ensures r.Ok? ==> Holds(AbsOf(w.V()), LIST_FILE, text)
    ensures r.Err? ==> Full(r.error) || r == Err(ENOTDIR)
    ensures r.Err? && r.error == ENOTDIR ==> S.LookUp(AbsOf(old(w.V())), LIST_FILE) == Err(ENOTDIR)
    ensures S.LookUp(AbsOf(old(w.V())), CONFIG_DIR).Ok? ==> SamePasswords(AbsOf(old(w.V())), AbsOf(w.V()))
    ensures Safe(AbsOf(w.V()), name) && ListIsFile(AbsOf(w.V()))
    ensures OthersKept(AbsOf(old(w.V())), AbsOf(w.V()), [])
    ensures r.Ok? <==> ListFits(old(w.V()), |text|)
  {
    hide Own, Tidy, DirShape, TreeOf, IsTree, AbsOf, S.OnDisk, S.LookUp, S.IsDirAt, NewAt, Written, Safe, SamePasswords;
    hide OthersKept, ListFits, FileFits, MadeOn;
    ghost var v, fs := w.V(), AbsOf(w.V());
    PathIsC([]);
    ConfigTop(fs);
    PasswordsAsTheyWere(fs);
    SameIsKept(fs, fs, []);
    r := EnsureDir(w, CONFIG_DIR, now);
    ListDone(v, w.V(), |text|, r);
    if r.Err? {
      return;
    }
    ghost var mid := AbsOf(w.V());
    ListIsReady(fs, mid);
    if S.LookUp(fs, CONFIG_DIR).Err? { FreshConfig(fs, mid, name); }
    ConfigIsThere(fs, mid);
    AbsIsProper(w.V());
    r := WriteFile(w, LIST_FILE, text, now);
    AfterListWriting(mid, AbsOf(w.V()), text, r, name);
    AllKept(fs, mid, AbsOf(w.V()));
    if r.Ok? { WrittenHolds(mid, AbsOf(w.V()), LIST_FILE, text); }
  }

  /** No plain name but `name` has another password. */
  ghost predicate OthersKept(fs: S.Fs, fs': S.Fs, name: Str)
  {
    forall n {:trigger PasswordPath(n)} :: PlainName(n) && |n| <= 31 && n != name ==> SameText(fs, fs', PasswordPath(n))
  }

  lemma SameIsKept(fs: S.Fs, fs': S.Fs, name: Str)
    requires SamePasswords(fs, fs')
    ensures OthersKept(fs, fs', name)
  {
    hide SameText, PasswordPath, S.LookUp;
  }

  lemma KeptTrans(fs: S.Fs, mid: S.Fs, fs': S.Fs, name: Str)
    requires (OthersKept(fs, mid, name) || OthersKept(fs, mid, [])) && OthersKept(mid, fs', name)
    ensures OthersKept(fs, fs', name)
  {
    hide Holds, PasswordPath;
  }

  lemma AllKept(fs: S.Fs, mid: S.Fs, fs': S.Fs)
    requires if S.LookUp(fs, CONFIG_DIR).Ok? then mid == fs else NewAt(fs, mid, CONFIG_DIR, true, [])
    requires SamePasswords(mid, fs')
    ensures OthersKept(fs, fs', [])
  {
    hide S.LookUp, NewAt, SameText, PasswordPath, SamePasswords;
    SameIsKept(mid, fs', []);
    if S.LookUp(fs, CONFIG_DIR).Err? {
      AfterConfig(fs, mid, []);
      KeptTrans(fs, mid, fs', []);
    }
  }

  lemma ConfigIsThere(fs: S.Fs, mid: S.Fs)
    requires if S.LookUp(fs, CONFIG_DIR).Ok? then mid == fs else NewAt(fs, mid, CONFIG_DIR, true, [])
    ensures S.LookUp(mid, CONFIG_DIR).Ok?
  {
    hide S.LookUp, S.OnDisk;
  }

  lemma AfterListWriting(fs: S.Fs, fs': S.Fs, text: Str, r: Result<()>, name: Str)
    requires S.LookUp(fs, CONFIG_DIR).Ok? && Writing(fs, fs', LIST_FILE, text, r) && N.Proper(fs)
    requires PlainName(name) && |name| <= 31 && Safe(fs, name)
    requires ListIsFile(fs)
    ensures SamePasswords(fs, fs') && Safe(fs', name) && ListIsFile(fs')
  {
    hide S.LookUp, S.OnDisk, S.Enter, N.Proper, NewAt, Safe, SamePasswords, Written;
    if fs' == fs {
      PasswordsAsTheyWere(fs);
    } else {
      var t: Str :| Written(fs, fs', LIST_FILE, t);
      AfterList(fs, fs', t);
      SafeAfterList(fs, fs', t, name);
      WrittenHolds(fs, fs', LIST_FILE, t);
    }
  }

  lemma PasswordsAsTheyWere(fs: S.Fs)
    ensures SamePasswords(fs, fs)
  {
  }

  lemma ListIsReady(fs: S.Fs, mid: S.Fs)
    requires ListIsFile(fs)
    requires if S.LookUp(fs, CONFIG_DIR).Ok? then mid == fs else NewAt(fs, mid, CONFIG_DIR, true, [])
    ensures var l := S.LookUp(mid, LIST_FILE);
      && (l.Ok? ==> l.value in mid.files) && S.OnDisk(mid, LIST_FILE).Ok?
      && (l.Err? ==> l.error == ENOENT || (l.error == ENOTDIR && S.LookUp(fs, LIST_FILE) == l))
  {
    hide S.LookUp, S.OnDisk, S.Who, Settled;
    LookUpSnoc(mid, CONFIG_DIR, USERS);
    LookUpSnoc(fs, CONFIG_DIR, USERS);
    OnDiskSnoc(mid, CONFIG_DIR, USERS);
    ConfigTop(fs);
    if S.LookUp(fs, CONFIG_DIR).Err? {
      NewIsEmpty(fs, mid, S.LookUp(mid, CONFIG_DIR).value, ROOT_INO, Q.USERCONFIG, USERS);
    }
  }

  /* ---- room enough ---- */

  /** Three inodes and nine blocks are enough for any list or password, unless a directory has come
      to its greatest size. */
  ghost predicate Ample(v: Vol)
  {
    v.freeInodes >= 3 && v.freeBlocks >= 9 && forall d: nat :: d < |v.inodes| ==> SlotLeft(v, d)
  }

  lemma AmpleSlot(v: Vol, d: nat, n: nat)
    requires Ample(v) && d < |v.inodes| && n <= 4 * BLOCK_SIZE
    ensures NewFileFits(v, d, n) && NewDirFits(v, d, n) && v.freeBlocks >= |SlotGaps(v, d)| + 2 + Cost(n)
  {
    hide SlotAt, Gaps, Cost;
    CostIs(n);
    FewGaps(v, d, SlotAt(v, d) / BLOCK_SIZE);
  }

  lemma AmpleFile(v: Vol, path: Path, n: nat)
    requires IsTree(TreeOf(v)) && Ample(v) && n <= 4 * BLOCK_SIZE
    requires S.LookUp(AbsOf(v), path).Ok? || S.OnDisk(AbsOf(v), path).Ok?
    ensures FileFits(v, path, n)
  {
    hide TreeOf, IsTree, AbsOf, S.LookUp, S.OnDisk, Cost, SlotLeft, SlotGaps, LookupPath, Resolve;
    LookUpIs(v, path);
    ResolveIs(v, path);
    CostIs(n);
    var l, at := S.LookUp(AbsOf(v), path), S.OnDisk(AbsOf(v), path);
    if l.Ok? {
      LiveIsInode(v, l.value);
    } else {
      LiveIsInode(v, at.value.0);
      AmpleSlot(v, at.value.0, n);
    }
  }

  /** Then a password is saved for every name that can have one. */
  lemma AmpleForPassword(v: Vol, name: Str, n: nat)
    requires IsTree(TreeOf(v)) && Ample(v) && n <= 4 * BLOCK_SIZE && |name| <= 31 && Reachable(AbsOf(v), name)
    ensures SaveFits(v, name, n)
  {
    hide TreeOf, IsTree, AbsOf, S.LookUp, S.OnDisk, S.IsDirAt, Cost, SlotLeft, SlotGaps, Resolve, FileFits, Ample;
    RootIsLive(v);
    AmpleSlot(v, ROOT_INO, n);
    AmpleInodes(v);
    if S.LookUp(AbsOf(v), DirPath(name)).Ok? {
      PasswordParts(AbsOf(v), name);
      AmpleFile(v, PasswordPath(name), n);
    } else if S.OnDisk(AbsOf(v), DirPath(name)).Ok? {
      var d := S.OnDisk(AbsOf(v), DirPath(name)).value.0;
      ResolveIs(v, DirPath(name));
      LiveIsInode(v, d);
      AmpleSlot(v, d, n);
    }
  }

  /** And the list, if its directory is one or is to be made. */
  lemma AmpleForList(v: Vol, n: nat)
    requires IsTree(TreeOf(v)) && Ample(v) && n <= 4 * BLOCK_SIZE
    requires var c := S.LookUp(AbsOf(v), CONFIG_DIR); c.Ok? ==> S.IsDirAt(AbsOf(v), c.value)
    ensures ListFits(v, n)
  {
    hide TreeOf, IsTree, AbsOf, S.LookUp, S.OnDisk, S.IsDirAt, NewDirFits, FileFits, Ample;
    RootIsLive(v);
    AmpleSlot(v, ROOT_INO, n);
    if S.LookUp(AbsOf(v), CONFIG_DIR).Ok? {
      OnDiskSnoc(AbsOf(v), CONFIG_DIR, USERS);
      AmpleFile(v, LIST_FILE, n);
    }
  }

  lemma AmpleInodes(v: Vol)
    requires Ample(v) && ROOT_INO < |v.inodes|
    ensures v.freeInodes >= 3 && SlotLeft(v, ROOT_INO)
  {
    hide SlotLeft;
  }

  lemma RootIsLive(v: Vol)
    requires IsTree(TreeOf(v))
    ensures ROOT_INO < |v.inodes|
  {
    TreeLive(v);
    hide TreeOf;
    assert ROOT_INO in TreeOf(v).live;
  }

  /* ---- which names can have a password ---- */

  /** A name that is one component can, exactly if it fits a directory entry and no file has it. */
  lemma ReachableIff(fs: S.Fs, name: Str)
    requires PlainName(name) && S.LookUp(fs, CONFIG_DIR).Ok? && S.IsDirAt(fs, S.LookUp(fs, CONFIG_DIR).value)
      && N.Proper(fs)
    ensures var c := S.LookUp(fs, CONFIG_DIR).value;
      Reachable(fs, name) <==> |name| <= NAME_MAX && forall i <- S.Who(fs, c, name) :: fs.places[i].isDir
  {
    hide S.LookUp, S.OnDisk, N.Proper;
    PlainParts(fs, name);
    RootHasNone(fs);
    var c := S.LookUp(fs, CONFIG_DIR).value;
    var who := S.Who(fs, c, name);
    if who != {} {
      assert S.The(who) in who;
      forall i <- who { N.OneAtMost(fs, c, name, i, S.The(who)); }
    }
  }

  /** The accounts' own directory as the code keeps it: the list is a file, all else directories. */
  ghost predicate Kept(fs: S.Fs)
  {
    && S.LookUp(fs, CONFIG_DIR).Ok? && S.IsDirAt(fs, S.LookUp(fs, CONFIG_DIR).value)
    && var c := S.LookUp(fs, CONFIG_DIR).value;
    && S.Who(fs, c, USERS) != {}
    && forall i :: i in fs.places && fs.places[i].dir == c ==> (fs.places[i].isDir <==> fs.places[i].name != USERS)
  }

  /** There, a password can be saved exactly for names of at most 27 bytes other than "users". */
  lemma SavableIff(fs: S.Fs, name: Str)
    requires PlainName(name) && Kept(fs) && N.Proper(fs)
    ensures Reachable(fs, name) <==> |name| <= NAME_MAX && name != USERS
  {
    hide S.LookUp, N.Proper;
    ReachableIff(fs, name);
    if name == USERS {
      var c := S.LookUp(fs, CONFIG_DIR).value;
      var i :| i in S.Who(fs, c, USERS);
    }
  }

  /** Nothing but the list: the account "users" has nowhere for its password, "user" has. */
  lemma UsersHasNone(text: Str)
    ensures var fs := S.Fs(map[3 := text],
      map[2 := S.Place(ROOT_INO, Q.USERCONFIG, true), 3 := S.Place(2, USERS, false)]);
      Safe(fs, USERS) && !Reachable(fs, USERS) && Reachable(fs, USERS[..4])
  {
    hide S.LookUp, S.OnDisk, S.The;
    var fs := S.Fs(map[3 := text], map[2 := S.Place(ROOT_INO, Q.USERCONFIG, true), 3 := S.Place(2, USERS, false)]);
    ConfigTop(fs);
    assert S.Who(fs, ROOT_INO, Q.USERCONFIG) == {2};
    EntersOnly(fs, ROOT_INO, Q.USERCONFIG, 2);
    assert 3 in S.Who(fs, 2, USERS);
    assert forall i, j :: i in fs.places && j in fs.places && N.SamePlace(fs, i, j) ==> i == j;
    SavableIff(fs, USERS);
    SavableIff(fs, USERS[..4]);
    PlainParts(fs, USERS);
    PasswordParts(fs, USERS);
    assert S.Who(fs, 2, USERS) == {3};
    EntersOnly(fs, 2, USERS, 3);
  }

  /** Two components can exactly if the first leads to a directory that will take the second; so
      a name may be longer than 27 bytes, or fail for want of somebody else's directory. */
  lemma TwoComponents(fs: S.Fs, x: Str, y: Str)
    requires PlainName(x) && PlainName(y) && |x| + 1 + |y| <= 31 && S.LookUp(fs, CONFIG_DIR).Ok?
    ensures var d := S.LookUp(fs, DirPath(x));
      Reachable(fs, x + [SLASH] + y) <==>
        && d.Ok? && S.IsDirAt(fs, d.value) && |y| <= NAME_MAX
        && (S.Enter(fs, true, d.value, y).Ok? ==> S.IsDirAt(fs, S.Enter(fs, true, d.value, y).value))
  {
    hide S.LookUp, S.OnDisk, S.Who;
    assert DirPath(x + [SLASH] + y) == DirPath(x) + [SLASH] + y;
    LookUpSnoc(fs, DirPath(x), y);
    OnDiskSnoc(fs, DirPath(x), y);
  }

  /* ---- the volume itself ---- */

  /** The first bytes of a file, if there is one. */
  method ReadFront(w: Wfs, path: Path, n: nat) returns (found: bool, text: Str)
    requires Fine(w) && n < WORD_LIMIT
    modifies w
    ensures Fine(w) && w.V() == old(w.V()) && found == Found(w.V(), path)
    ensures text == if found then TextAt(w.V(), path)[..if |TextAt(w.V(), path)| < n then |TextAt(w.V(), path)| else n]
      else []
  {
    hide Own, Tidy, DirShape, TreeOf, IsTree, LookupPath, Contents, S.LookUp, AbsOf;
    ghost var v := w.V();
    var l := Lookup(w, path);
    LookUpIs(v, path);
    if l.Err? {
      return false, [];
    }
    LiveIsInode(v, l.value);
    var got := w.Read(l.value, 0, n);
    found, text := true, got.value;
  }

  lemma LiveIsInode(v: Vol, i: nat)
    requires i in Live(v)
    ensures 0 < i < |v.inodes|
  {
  }

  /** What `Holds` says of the view is so on the volume. */
  lemma HoldsIs(v: Vol, path: Path, text: Str)
    requires IsTree(TreeOf(v)) && Holds(AbsOf(v), path, text)
    ensures Found(v, path) && TextAt(v, path) == text
  {
    hide TreeOf, IsTree, S.LookUp, LookupPath, PlacesOf;
    LookUpIs(v, path);
  }

  lemma FoundIs(v: Vol, path: Path)
    requires IsTree(TreeOf(v))
    ensures Found(v, path) <==> S.LookUp(AbsOf(v), path).Ok?
    ensures S.LookUp(AbsOf(v), path).Ok? && S.LookUp(AbsOf(v), path).value in FilesOf(v) ==>
      Holds(AbsOf(v), path, TextAt(v, path))
  {
    hide TreeOf, IsTree, S.LookUp, LookupPath, PlacesOf;
    LookUpIs(v, path);
  }

  /** A path to a file or to nothing, on two volumes on which it leads to the same. */
  lemma SameOnVolume(v: Vol, v': Vol, path: Path)
    requires IsTree(TreeOf(v)) && IsTree(TreeOf(v')) && SameFile(AbsOf(v), AbsOf(v'), path)
    requires S.LookUp(AbsOf(v), path).Ok? ==> S.LookUp(AbsOf(v), path).value in FilesOf(v)
    ensures Found(v', path) <==> Found(v, path)
    ensures Found(v, path) ==> TextAt(v', path) == TextAt(v, path)
  {
    hide TreeOf, IsTree, S.LookUp, LookupPath, PlacesOf, FilesOf, Found, TextAt;
    FoundIs(v, path);
    FoundIs(v', path);
    if Found(v, path) {
      assert Holds(AbsOf(v'), path, TextAt(v, path));
      HoldsIs(v', path, TextAt(v, path));
    }
  }

  lemma OnlyIsKept(fs: S.Fs, fs': S.Fs, name: Str)
    requires OnlyFor(fs, fs', name)
    ensures OthersKept(fs, fs', name)
  {
    hide SameText, PasswordPath;
  }
}
