/** What a file system is to its callers, whichever one it is: files that are byte strings, and
    a tree of names.  Runs of the disk's file system and of the one in memory both answer to it. */
module FileSpec {
  import opened WfsLayout
  import W = WfsDriver
  import P = WfsPaths

  const NAME_MAX: nat := 27
  const DOT: Name := [46]
  const DOTDOT: Name := [46, 46]

  type Name = seq<Byte>
  type Path = seq<Byte>

  /** Where an inode is: the directory it is in, its name there, and whether it is one itself. */
  datatype Place = Place(dir: nat, name: Name, isDir: bool)

  /** The bytes of every file, and the place of everything but the root. */
  datatype Fs = Fs(files: map<nat, seq<Byte>>, places: map<nat, Place>)

  /* ---- the tree ---- */

  /** The inodes called `name` in `dir`; in a tree there is one or none. */
  function Who(fs: Fs, dir: nat, name: Name): set<nat>
  {
    set i | i in fs.places && fs.places[i].dir == dir && fs.places[i].name == name
  }

  ghost predicate HasChildren(fs: Fs, i: nat) { exists j :: j in fs.places && fs.places[j].dir == i }

  function Climb(fs: Fs, i: nat, k: nat): nat
    decreases k
  {
    if k == 0 || i !in fs.places then i else Climb(fs, fs.places[i].dir, k - 1)
  }

  /** `i` is `d` or above it. */
  ghost predicate Above(fs: Fs, i: nat, d: nat) { exists k: nat :: Climb(fs, d, k) == i }

  /* ---- paths ---- */

  predicate IsDirAt(fs: Fs, i: nat) { i == ROOT_INO || (i in fs.places && fs.places[i].isDir) }

  ghost function The(s: set<nat>): nat
    requires s != {}
  {
    var i :| i in s;
    i
  }

  /** One component on from `at`, by itself or by what has that place; `dots` says whether "."
      and ".." are found in every directory. */
  ghost function Enter(fs: Fs, dots: bool, at: nat, name: Name): W.Result<nat>
  {
    if !IsDirAt(fs, at) then W.Err(W.ENOTDIR)
    else if dots && name == DOT then W.Ok(at)
    else if dots && name == DOTDOT then W.Ok(if at in fs.places then fs.places[at].dir else at)
    else if Who(fs, at, name) == {} then W.Err(W.ENOENT)
    else W.Ok(The(Who(fs, at, name)))
  }

  ghost function Follow(fs: Fs, dots: bool, at: nat, cs: seq<Name>): W.Result<nat>
    decreases |cs|
  {
    if cs == [] then W.Ok(at)
    else if |cs[0]| > NAME_MAX then W.Err(W.ENAMETOOLONG)
    else
      var r := Enter(fs, dots, at, cs[0]);
      if r.Err? then r else Follow(fs, dots, r.value, cs[1..])
  }

  /** How a system is told of paths: the disk's has its dots and wants a last component; the one
      in memory has its mount point in front, no dots, and one error for all. */
  datatype Style = Disk | Memory(mount: Path)

  predicate Under(mount: Path, path: Path)
  {
    |path| >= |mount| && path[..|mount|] == mount && (|path| == |mount| || path[|mount|] == P.SLASH)
  }

  /** What an absolute path on the disk leads to. */
  ghost function LookUp(fs: Fs, path: Path): W.Result<nat>
  {
    if path == [] || path[0] != P.SLASH then W.Err(W.EINVAL) else Follow(fs, true, ROOT_INO, P.Split(path))
  }

  /** The directory and the name a path stands for. */
  ghost function Where(fs: Fs, style: Style, path: Path): W.Result<(nat, Name)>
  {
    match style
    case Disk => OnDisk(fs, path)
    case Memory(mount) =>
      if !Under(mount, path) then W.Err(W.ENOENT) else InMemory(fs, ROOT_INO, P.Split(path[|mount|..]))
  }

  ghost function OnDisk(fs: Fs, path: Path): W.Result<(nat, Name)>
  {
    var s := P.LastSlash(path);
    if s < 0 || s + 1 == |path| then W.Err(W.EINVAL)
    else if |path| - (s + 1) > NAME_MAX then W.Err(W.ENAMETOOLONG)
    else if s == 0 then W.Ok((ROOT_INO, path[1..]))
    else if s > P.PATH_MAX then W.Err(W.ENAMETOOLONG)
    else
      var r := LookUp(fs, path[..s]);
      if r.Ok? then W.Ok((r.value, path[s + 1..])) else W.Err(r.error)
  }

  ghost function InMemory(fs: Fs, at: nat, cs: seq<Name>): W.Result<(nat, Name)>
  {
    if cs == [] || |cs[|cs| - 1]| > NAME_MAX then W.Err(W.ENOENT)
    else
      var r := Follow(fs, false, at, cs[..|cs| - 1]);
      if r.Ok? && IsDirAt(fs, r.value) then W.Ok((r.value, cs[|cs| - 1])) else W.Err(W.ENOENT)
  }

  /* ---- calls ---- */

  /** A call as it is made, with paths. */
  datatype Op =
    | Read(ino: nat, off: nat, len: nat)
    | Write(ino: nat, off: nat, data: seq<Byte>)
    | Truncate(ino: nat)
    | Create(path: Path, typ: FileType)
    | Unlink(path: Path)
    | Rename(from: Path, to: Path)

  /** The same with its paths followed to a directory and a name, or to an error. */
  datatype Act =
    | Get(ino: nat, off: nat, len: nat)
    | Put(ino: nat, off: nat, data: seq<Byte>)
    | Empty(ino: nat)
    | Make(dir: nat, name: Name, typ: FileType)
    | Remove(dir: nat, name: Name)
    | Move(dir: nat, name: Name, dir2: nat, name2: Name)
    | Astray(error: W.Errno)

  /** What a call comes to where its paths lead now.  A directory on the disk has its dots, so
      nothing can be made in their place, and they cannot be removed or moved. */
  ghost function ActOf(fs: Fs, style: Style, op: Op): Act
  {
    match op
    case Read(i, off, len) => Get(i, off, len)
    case Write(i, off, data) => Put(i, off, data)
    case Truncate(i) => Empty(i)
    case Create(path, typ) =>
      var a := Where(fs, style, path);
      if a.Err? then Astray(a.error)
      else if Dotted(style, a.value.1) then Astray(W.EEXIST)
      else Make(a.value.0, a.value.1, typ)
    case Unlink(path) =>
      var a := Where(fs, style, path);
      if a.Err? then Astray(a.error)
      else if Dotted(style, a.value.1) then Astray(W.EINVAL)
      else if !IsDirAt(fs, a.value.0) then Astray(W.ENOTDIR)
      else Remove(a.value.0, a.value.1)
    case Rename(from, to) =>
      var a, b := Where(fs, style, from), Where(fs, style, to);
      if a.Err? then Astray(a.error)
      else if b.Err? then Astray(b.error)
      else if Dotted(style, a.value.1) || Dotted(style, b.value.1) then Astray(W.EINVAL)
      else if !IsDirAt(fs, a.value.0) then Astray(W.ENOTDIR)
      else Move(a.value.0, a.value.1, b.value.0, b.value.1)
  }

  predicate IsDot(name: Name) { name == DOT || name == DOTDOT }

  predicate Dotted(style: Style, name: Name) { style.Disk? && IsDot(name) }

  datatype Out = Data(bytes: seq<Byte>) | Count(n: nat) | Made(i: nat) | Done | Failed(error: W.Errno)

  /** Nothing is left to make something with. */
  predicate NoRoom(out: Out) { out == Failed(W.ENOSPC) || out == Failed(W.EFBIG) }

  /** The answers allowed.  Only the want of room leaves a choice. */
  ghost predicate Allowed(fs: Fs, act: Act, out: Out)
  {
    match act
    case Get(i, off, len) => i in fs.files && out == Data(W.Window(fs.files[i], off, len))
    case Put(i, off, data) => i in fs.files
      && ((out.Count? && out.n <= |data|) || (out == Failed(W.EFBIG) && off + |data| > MAX_FILE_SIZE))
    case Empty(i) => i in fs.files && out == Done
    case Make(d, name, _) =>
      if Who(fs, d, name) != {} then out == Failed(W.EEXIST)
      else (out.Made? && out.i !in fs.places && out.i !in fs.files && out.i != ROOT_INO) || NoRoom(out)
    case Remove(d, name) =>
      if Who(fs, d, name) == {} then out == Failed(W.ENOENT)
      else if exists i <- Who(fs, d, name) :: HasChildren(fs, i) then out == Failed(W.ENOTEMPTY)
      else out == Done
    case Move(d, name, d2, name2) =>
      var here, there := Who(fs, d, name), Who(fs, d2, name2);
      if here == {} then out == Failed(W.ENOENT)
      else if there == here then out == Done
      else if exists i <- here :: Above(fs, i, d2) then out == Failed(W.EINVAL)
      else if exists x <- there :: fs.places[x].isDir then out == Failed(W.EISDIR)
      else if there != {} then out == Done
      else out == Done || NoRoom(out)
    case Astray(e) => out == Failed(e)
  }

  function Without(fs: Fs, gone: set<nat>): Fs { Fs(fs.files - gone, fs.places - gone) }

  function Relocated(fs: Fs, here: set<nat>, dir: nat, name: Name): Fs
  {
    fs.(places := map j | j in fs.places :: if j in here then Place(dir, name, fs.places[j].isDir) else fs.places[j])
  }

  /** What the call leaves. */
  function After(fs: Fs, act: Act, out: Out): Fs
  {
    if out.Failed? then fs
    else
      match act
      case Put(i, off, data) =>
        if i in fs.files && out.Count? && out.n <= |data|
        then fs.(files := fs.files[i := W.Overlay(fs.files[i], off, data[..out.n])]) else fs
      case Empty(i) => fs.(files := fs.files[i := []])
      case Make(d, name, typ) =>
        if out.Made? then
          Fs(if typ == File then fs.files[out.i := []] else fs.files, fs.places[out.i := Place(d, name, typ == Dir)])
        else fs
      case Remove(d, name) => Without(fs, Who(fs, d, name))
      case Move(d, name, d2, name2) =>
        var here, there := Who(fs, d, name), Who(fs, d2, name2);
        Relocated(Without(fs, there - here), here, d2, name2)
      case _ => fs
  }

  /** What a call has done: an answer that is allowed, and what it leaves. */
  ghost predicate Did(fs: Fs, fs': Fs, act: Act, out: Out)
  {
    Allowed(fs, act, out) && fs' == After(fs, act, out)
  }

  lemma StaysPut(fs: Fs, d: nat, name: Name)
    ensures After(fs, Move(d, name, d, name), Done) == fs
  {
    var here := Who(fs, d, name);
    assert fs.files - (here - here) == fs.files && fs.places - (here - here) == fs.places;
  }

  /* ---- runs ---- */

  /** `outs` answer the first of `ops`, and `fss` are the file systems gone through. */
  ghost predicate Story(fss: seq<Fs>, style: Style, ops: seq<Op>, outs: seq<Out>)
  {
    && |fss| == |outs| + 1 && |outs| <= |ops|
    && forall k :: 0 <= k < |outs| ==> Did(fss[k], fss[k + 1], ActOf(fss[k], style, ops[k]), outs[k])
  }

  lemma StorySnoc(fss: seq<Fs>, style: Style, ops: seq<Op>, outs: seq<Out>, fs: Fs, out: Out)
    requires Story(fss, style, ops, outs) && |outs| < |ops|
    requires Did(fss[|outs|], fs, ActOf(fss[|outs|], style, ops[|outs|]), out)
    ensures Story(fss + [fs], style, ops, outs + [out])
  {
    hide Did, ActOf;
  }
}
