/** Two file systems that number their inodes each in its own way: asked the same by path, they
    answer the same but for want of room, and hold the same files under the same names. */
module FileNumbers {
  import opened WfsLayout
  import opened FileSpec
  import W = WfsDriver
  import P = WfsPaths
  import N = PathNames

  /** From the numbers of one to those of the other, and back. */
  datatype Ren = Ren(to: map<nat, nat>, back: map<nat, nat>)

  const SAME := Ren(map[ROOT_INO := ROOT_INO], map[ROOT_INO := ROOT_INO])

  /** Everything is in a directory there is, no two things are at one place, and only what has a
      place has bytes. */
  ghost predicate Proper(f: Fs)
  {
    && ROOT_INO !in f.places && f.files.Keys <= f.places.Keys
    && (forall i {:trigger Housed(f, i)} :: i in f.places ==> Housed(f, i))
    && forall i, j {:trigger SamePlace(f, i, j)} :: i in f.places && j in f.places && SamePlace(f, i, j) ==> i == j
  }

  predicate Housed(f: Fs, i: nat) { i in f.places && IsDirAt(f, f.places[i].dir) }

  predicate SamePlace(f: Fs, i: nat, j: nat)
    requires i in f.places && j in f.places
  {
    f.places[i].dir == f.places[j].dir && f.places[i].name == f.places[j].name
  }

  /** There and back is nowhere else. */
  ghost predicate Inverse(a: map<nat, nat>, b: map<nat, nat>) { forall i :: i in a ==> a[i] in b && b[a[i]] == i }

  /** `ren` takes what is in `f` to what is in `g`. */
  ghost predicate Numbers(f: Fs, g: Fs, ren: Ren)
  {
    && ROOT_INO in ren.to && ren.to[ROOT_INO] == ROOT_INO && Inverse(ren.to, ren.back) && Inverse(ren.back, ren.to)
    && ren.to.Keys == f.places.Keys + {ROOT_INO} && ren.back.Keys == g.places.Keys + {ROOT_INO}
  }

  ghost predicate SameThing(f: Fs, g: Fs, ren: Ren, i: nat)
    requires i in f.places
  {
    && i in ren.to && f.places[i].dir in ren.to && ren.to[i] in g.places
    && g.places[ren.to[i]] == Place(ren.to[f.places[i].dir], f.places[i].name, f.places[i].isDir)
    && (i in f.files <==> ren.to[i] in g.files) && (i in f.files ==> g.files[ren.to[i]] == f.files[i])
  }

  ghost predicate Match(f: Fs, g: Fs, ren: Ren)
  {
    Proper(f) && Proper(g) && Numbers(f, g, ren)
    && forall i {:trigger SameThing(f, g, ren, i)} :: i in f.places ==> SameThing(f, g, ren, i)
  }

  lemma NothingMatches()
    ensures Match(Fs(map[], map[]), Fs(map[], map[]), SAME)
  {
  }

  /* ---- the same questions have the same answers ---- */

  lemma Thing(f: Fs, g: Fs, ren: Ren, i: nat)
    requires Match(f, g, ren) && i in ren.to && i != ROOT_INO
    ensures i in f.places && SameThing(f, g, ren, i)
  {
    hide Proper, SameThing, Inverse;
  }

  lemma RenIs(f: Fs, g: Fs, ren: Ren)
    requires Match(f, g, ren)
    ensures ROOT_INO in ren.to && ren.to[ROOT_INO] == ROOT_INO && ROOT_INO !in f.places && ROOT_INO !in g.places
    ensures Inverse(ren.to, ren.back) && Inverse(ren.back, ren.to)
    ensures f.places.Keys <= ren.to.Keys && g.places.Keys <= ren.back.Keys
  {
  }

  /** Everything in `g` comes from something in `f`. */
  lemma Comes(f: Fs, g: Fs, ren: Ren, j: nat) returns (i: nat)
    requires Match(f, g, ren) && j in g.places
    ensures i in ren.to && i != ROOT_INO && i in f.places && ren.to[i] == j && SameThing(f, g, ren, i)
  {
    RenIs(f, g, ren);
    i := ren.back[j];
    Thing(f, g, ren, i);
  }

  lemma DirMatches(f: Fs, g: Fs, ren: Ren, i: nat)
    requires Match(f, g, ren) && i in ren.to
    ensures IsDirAt(g, ren.to[i]) <==> IsDirAt(f, i)
  {
    hide Match;
    RenIs(f, g, ren);
    if i != ROOT_INO { Thing(f, g, ren, i); }
  }

  function Added(ren: Ren, i: nat, j: nat): Ren { Ren(ren.to[i := j], ren.back[j := i]) }

  function Lessened(ren: Ren, gone: set<nat>): Ren { Ren(ren.to - gone, ren.back - Image(ren, gone)) }

  function Image(ren: Ren, s: set<nat>): set<nat> { set i | i in s && i in ren.to :: ren.to[i] }

  lemma WhoMatches(f: Fs, g: Fs, ren: Ren, d: nat, name: Name)
    requires Match(f, g, ren) && d in ren.to
    ensures Who(f, d, name) <= ren.to.Keys && Who(g, ren.to[d], name) == Image(ren, Who(f, d, name))
  {
    hide Match;
    RenIs(f, g, ren);
    forall i <- Who(f, d, name) ensures i in ren.to && ren.to[i] in Who(g, ren.to[d], name) { Thing(f, g, ren, i); }
    forall j <- Who(g, ren.to[d], name) ensures j in Image(ren, Who(f, d, name)) { var i := Comes(f, g, ren, j); }
  }

  /** At most one thing is at a place. */
  lemma OneAtMost(f: Fs, d: nat, name: Name, i: nat, j: nat)
    requires Proper(f) && i in Who(f, d, name) && j in Who(f, d, name)
    ensures i == j
  {
    assert SamePlace(f, i, j);
  }

  lemma ChildrenMatch(f: Fs, g: Fs, ren: Ren, i: nat)
    requires Match(f, g, ren) && i in ren.to
    ensures HasChildren(g, ren.to[i]) <==> HasChildren(f, i)
  {
    hide Match;
    RenIs(f, g, ren);
    if j :| j in f.places && f.places[j].dir == i {
      Thing(f, g, ren, j);
      assert g.places[ren.to[j]].dir == ren.to[i];
    }
    if j :| j in g.places && g.places[j].dir == ren.to[i] {
      var k := Comes(f, g, ren, j);
      assert f.places[k].dir == i;
    }
  }

  lemma {:induction false} ClimbMatches(f: Fs, g: Fs, ren: Ren, i: nat, k: nat)
    requires Match(f, g, ren) && i in ren.to
    ensures Climb(f, i, k) in ren.to && Climb(g, ren.to[i], k) == ren.to[Climb(f, i, k)]
    decreases k
  {
    hide Match;
    RenIs(f, g, ren);
    if k > 0 && i != ROOT_INO {
      Thing(f, g, ren, i);
      ClimbMatches(f, g, ren, f.places[i].dir, k - 1);
    }
  }

  lemma AboveMatches(f: Fs, g: Fs, ren: Ren, i: nat, d: nat)
    requires Match(f, g, ren) && i in ren.to && d in ren.to
    ensures Above(g, ren.to[i], ren.to[d]) <==> Above(f, i, d)
  {
    hide Match, Climb;
    forall k: nat { ClimbMatches(f, g, ren, d, k); }
    RenIs(f, g, ren);
    if k: nat :| Climb(f, d, k) == i { assert Climb(g, ren.to[d], k) == ren.to[i]; }
    if k: nat :| Climb(g, ren.to[d], k) == ren.to[i] { assert Climb(f, d, k) == i; }
  }

  /* ---- paths lead to the same ---- */

  function Renumbered(ren: Ren, r: W.Result<nat>): W.Result<nat>
  {
    if r.Ok? && r.value in ren.to then W.Ok(ren.to[r.value]) else r
  }

  lemma WhoIsOne(f: Fs, g: Fs, ren: Ren, d: nat, name: Name, i: nat, j: nat)
    requires Match(f, g, ren) && i in Who(f, d, name) && j in Who(f, d, name)
    ensures i == j
  {
    hide Numbers, SameThing;
    OneAtMost(f, d, name, i, j);
  }

  /** A component that is no dot, with or without dots being found. */
  lemma EnterMatches(f: Fs, g: Fs, ren: Ren, dots: bool, at: nat, name: Name)
    requires Match(f, g, ren) && at in ren.to && !IsDot(name)
    ensures Enter(f, dots, at, name).Ok? ==> Enter(f, dots, at, name).value in ren.to
    ensures Enter(g, false, ren.to[at], name) == Renumbered(ren, Enter(f, dots, at, name))
  {
    hide Match, Who, IsDirAt;
    DirMatches(f, g, ren, at);
    WhoMatches(f, g, ren, at, name);
    var who := Who(f, at, name);
    if who != {} {
      var i := The(who);
      assert ren.to[i] in Image(ren, who);
      var j := The(Who(g, ren.to[at], name));
      var k :| k in who && k in ren.to && ren.to[k] == j;
      WhoIsOne(f, g, ren, at, name, i, k);
    }
  }

  lemma {:induction false} FollowMatches(f: Fs, g: Fs, ren: Ren, dots: bool, at: nat, cs: seq<Name>)
    requires Match(f, g, ren) && at in ren.to && forall c <- cs :: !IsDot(c)
    ensures Follow(f, dots, at, cs).Ok? ==> Follow(f, dots, at, cs).value in ren.to
    ensures Follow(g, false, ren.to[at], cs) == Renumbered(ren, Follow(f, dots, at, cs))
    decreases |cs|
  {
    hide Match, Enter;
    if cs != [] {
      assert cs[0] in cs;
      EnterMatches(f, g, ren, dots, at, cs[0]);
      var r := Enter(f, dots, at, cs[0]);
      if r.Ok? { FollowMatches(f, g, ren, dots, r.value, cs[1..]); }
    }
  }

  ghost predicate SameWhere(f: Fs, g: Fs, ren: Ren, a: W.Result<(nat, Name)>, b: W.Result<(nat, Name)>)
  {
    && (a.Ok? ==> a.value.0 in ren.to && !IsDot(a.value.1))
    && (b.Ok? ==> IsDirAt(g, b.value.0))
    && if a.Ok? && IsDirAt(f, a.value.0) then b == W.Ok((ren.to[a.value.0], a.value.1)) else b.Err?
  }

  /** A clean path names the same directory and name to both, if it names a directory at all. */
  lemma WhereMatches(f: Fs, g: Fs, ren: Ren, mount: Path, st: seq<Name>)
    requires Match(f, g, ren) && N.Clean(st) && |N.Render(st)| <= P.PATH_MAX
    ensures SameWhere(f, g, ren, Where(f, Disk, N.Render(st)), Where(g, Memory(mount), mount + N.Render(st)))
  {
    hide Match, Follow, IsDirAt, P.Split, N.Spelled;
    RenIs(f, g, ren);
    var path := N.Render(st);
    N.SplitRender(st);
    assert (mount + path)[|mount|..] == path;
    MountHolds(mount, st);
    if st == [] {
      assert path == [P.SLASH];
    } else {
      var init, last := st[..|st| - 1], st[|st| - 1];
      assert N.Clean(init) && last in st;
      LastOf(init, last);
      assert st == init + [last];
      FollowMatches(f, g, ren, true, ROOT_INO, init);
      var r := Follow(f, true, ROOT_INO, init);
      if r.Ok? { DirMatches(f, g, ren, r.value); }
      OnDiskIs(f, st);
    }
  }

  lemma MountHolds(mount: Path, st: seq<Name>)
    ensures Under(mount, mount + N.Render(st))
  {
    if st != [] { N.SpelledStarts(st); }
  }

  /** Where the last slash of a clean path is. */
  lemma LastOf(init: seq<Name>, last: Name)
    requires N.Plain(last)
    ensures var path := N.Spelled(init + [last]);
      && P.LastSlash(path) == |N.Spelled(init)| && path[..|N.Spelled(init)|] == N.Spelled(init)
      && path[|N.Spelled(init)| + 1..] == last
  {
    N.SpelledSnoc(init, last);
    var path, k := N.Spelled(init + [last]), |N.Spelled(init)|;
    forall m | k < m < |path| ensures path[m] != P.SLASH { assert path[m] == last[m - k - 1] && path[m] in last; }
    assert path[k] == P.SLASH;
    assert P.LastSlash(path) == k;
  }

  /** The disk's way of finding the parent, by components. */
  lemma OnDiskIs(f: Fs, st: seq<Name>)
    requires N.Clean(st) && st != [] && |N.Render(st)| <= P.PATH_MAX
    ensures var init, last := st[..|st| - 1], st[|st| - 1];
      var r := Follow(f, true, ROOT_INO, init);
      OnDisk(f, N.Render(st)) ==
        if |last| > NAME_MAX then W.Err(W.ENAMETOOLONG) else if r.Ok? then W.Ok((r.value, last)) else W.Err(r.error)
  {
    hide P.Split, N.Spelled, P.LastSlash;
    var init, last := st[..|st| - 1], st[|st| - 1];
    assert st == init + [last] && last in st && N.Clean(init);
    LastOf(init, last);
    if init == [] {
      assert N.Spelled(init) == [] by { NothingSpelled(); }
    } else {
      N.SpelledStarts(init);
      N.SplitSpelled(init);
    }
  }

  lemma NothingSpelled()
    ensures N.Spelled([]) == []
  {
  }

  /* ---- calls ---- */

  /** The same call, told to each of the two. */
  ghost predicate SameOp(ren: Ren, mount: Path, op: Op, op': Op)
  {
    match op
    case Read(i, off, len) => i in ren.to && op' == Read(ren.to[i], off, len)
    case Write(i, off, data) => i in ren.to && op' == Write(ren.to[i], off, data)
    case Truncate(i) => i in ren.to && op' == Truncate(ren.to[i])
    case Create(path, typ) => CleanPath(path) && op' == Create(mount + path, typ)
    case Unlink(path) => CleanPath(path) && op' == Unlink(mount + path)
    case Rename(from, to) => CleanPath(from) && CleanPath(to) && op' == Rename(mount + from, mount + to)
  }

  /** A path as resolving leaves it. */
  ghost predicate CleanPath(path: Path)
  {
    |path| <= P.PATH_MAX && exists st: seq<Name> :: N.Clean(st) && path == N.Render(st)
  }

  /** New names go into directories. */
  ghost predicate Grounded(f: Fs, op: Op)
  {
    match op
    case Create(path, _) => Where(f, Disk, path).Ok? ==> IsDirAt(f, Where(f, Disk, path).value.0)
    case Rename(_, to) => Where(f, Disk, to).Ok? ==> IsDirAt(f, Where(f, Disk, to).value.0)
    case _ => true
  }

  ghost predicate SameAct(f: Fs, ren: Ren, a: Act, b: Act)
  {
    match a
    case Get(i, off, len) => i in ren.to && b == Get(ren.to[i], off, len)
    case Put(i, off, data) => i in ren.to && b == Put(ren.to[i], off, data)
    case Empty(i) => i in ren.to && b == Empty(ren.to[i])
    case Make(d, name, typ) => d in ren.to && IsDirAt(f, d) && b == Make(ren.to[d], name, typ)
    case Remove(d, name) => d in ren.to && b == Remove(ren.to[d], name)
    case Move(d, name, d2, name2) =>
      d in ren.to && d2 in ren.to && IsDirAt(f, d2) && b == Move(ren.to[d], name, ren.to[d2], name2)
    case Astray(_) => b.Astray?
  }

  /** Both follow their paths to the same act. */
  lemma ActMatches(f: Fs, g: Fs, ren: Ren, mount: Path, op: Op, op': Op)
    requires Match(f, g, ren) && SameOp(ren, mount, op, op') && Grounded(f, op)
    ensures SameAct(f, ren, ActOf(f, Disk, op), ActOf(g, Memory(mount), op'))
  {
    hide Match, Where, IsDirAt, N.Render, N.Clean;
    match op
    case Create(path, _) => PathMatches(f, g, ren, mount, path);
    case Unlink(path) => PathMatches(f, g, ren, mount, path);
    case Rename(from, to) =>
      PathMatches(f, g, ren, mount, from);
      PathMatches(f, g, ren, mount, to);
    case _ =>
  }

  lemma PathMatches(f: Fs, g: Fs, ren: Ren, mount: Path, path: Path)
    requires Match(f, g, ren) && CleanPath(path)
    ensures SameWhere(f, g, ren, Where(f, Disk, path), Where(g, Memory(mount), mount + path))
  {
    hide Match, OnDisk, N.Render, N.Clean, Follow, IsDirAt;
    var st: seq<Name> :| N.Clean(st) && path == N.Render(st);
    WhereMatches(f, g, ren, mount, st);
  }

  /* ---- answers ---- */

  predicate SameOut(o: Out, o': Out)
  {
    match o
    case Made(_) => o'.Made?
    case Failed(_) => o'.Failed?
    case _ => o' == o
  }

  /** Both answer the same, unless one of them has no room or the call was a write. */
  lemma AnswersMatch(f: Fs, g: Fs, ren: Ren, a: Act, b: Act, o: Out, o': Out)
    requires Match(f, g, ren) && SameAct(f, ren, a, b) && Allowed(f, a, o) && Allowed(g, b, o')
    ensures SameOut(o, o') || NoRoom(o) || NoRoom(o') || a.Put?
  {
    hide Match, Who, HasChildren, Above, IsDirAt;
    match a
    case Get(i, _, _) => FileMatches(f, g, ren, i);
    case Make(d, name, _) =>
      WhoMatches(f, g, ren, d, name);
      SomeMatch(ren, Who(f, d, name));
    case Remove(d, name) =>
      WhoMatches(f, g, ren, d, name);
      SomeMatch(ren, Who(f, d, name));
      forall i <- Who(f, d, name) { ChildrenMatch(f, g, ren, i); }
    case Move(d, name, d2, name2) => MovesMatch(f, g, ren, d, name, d2, name2, o, o');
    case _ =>
  }

  lemma FileMatches(f: Fs, g: Fs, ren: Ren, i: nat)
    requires Match(f, g, ren) && i in ren.to && i in f.files
    ensures ren.to[i] in g.files && g.files[ren.to[i]] == f.files[i] && i in f.places && i != ROOT_INO
  {
    assert i in f.places;
    RenIs(f, g, ren);
    hide Match;
    Thing(f, g, ren, i);
  }

  lemma SomeMatch(ren: Ren, s: set<nat>)
    requires s <= ren.to.Keys
    ensures s == {} <==> Image(ren, s) == {}
    ensures forall i <- s :: ren.to[i] in Image(ren, s)
  {
    if i :| i in s { assert ren.to[i] in Image(ren, s); }
  }

  lemma ImagesMatch(f: Fs, g: Fs, ren: Ren, s: set<nat>, t: set<nat>)
    requires Match(f, g, ren) && s <= ren.to.Keys && t <= ren.to.Keys
    ensures s == t <==> Image(ren, s) == Image(ren, t)
    ensures Image(ren, s - t) == Image(ren, s) - Image(ren, t)
  {
    hide Match;
    RenIs(f, g, ren);
    if Image(ren, s) == Image(ren, t) {
      forall i <- s ensures i in t { assert ren.to[i] in Image(ren, t); }
      forall i <- t ensures i in s { assert ren.to[i] in Image(ren, s); }
    }
  }

  /** What decides a move is the same on both sides. */
  lemma MovesMatch(f: Fs, g: Fs, ren: Ren, d: nat, name: Name, d2: nat, name2: Name, o: Out, o': Out)
    requires Match(f, g, ren) && d in ren.to && d2 in ren.to
    requires Allowed(f, Move(d, name, d2, name2), o) && Allowed(g, Move(ren.to[d], name, ren.to[d2], name2), o')
    ensures SameOut(o, o') || NoRoom(o) || NoRoom(o')
  {
    hide Match, Above, Who;
    WhoMatches(f, g, ren, d, name);
    WhoMatches(f, g, ren, d2, name2);
    var here, there := Who(f, d, name), Who(f, d2, name2);
    SomeMatch(ren, here);
    SomeMatch(ren, there);
    ImagesMatch(f, g, ren, there, here);
    AnyAbove(f, g, ren, here, d2);
    AnyDir(f, g, ren, d2, name2);
  }

  lemma AnyAbove(f: Fs, g: Fs, ren: Ren, s: set<nat>, d: nat)
    requires Match(f, g, ren) && d in ren.to && s <= ren.to.Keys
    ensures (exists i <- s :: Above(f, i, d)) <==> exists i <- Image(ren, s) :: Above(g, i, ren.to[d])
  {
    hide Match, Above;
    SomeMatch(ren, s);
    forall i <- s { AboveMatches(f, g, ren, i, d); }
  }

  lemma AnyDir(f: Fs, g: Fs, ren: Ren, d: nat, name: Name)
    requires Match(f, g, ren) && d in ren.to
    ensures (exists x <- Who(f, d, name) :: f.places[x].isDir)
      <==> exists x <- Who(g, ren.to[d], name) :: g.places[x].isDir
  {
    hide Match;
    WhoMatches(f, g, ren, d, name);
    RenIs(f, g, ren);
    SomeMatch(ren, Who(f, d, name));
    forall x <- Who(f, d, name) { Thing(f, g, ren, x); }
  }

  /* ---- what the calls leave ---- */

  lemma Matches(f: Fs, g: Fs, ren: Ren)
    requires Proper(f) && Proper(g) && Numbers(f, g, ren) && forall i :: i in f.places ==> SameThing(f, g, ren, i)
    ensures Match(f, g, ren)
  {
    hide Proper, Numbers, SameThing;
  }

  lemma ProperIs(f: Fs, g: Fs, ren: Ren)
    requires Match(f, g, ren)
    ensures Proper(f) && Proper(g) && Numbers(f, g, ren)
  {
    hide Proper, Numbers, SameThing;
  }

  /** New bytes in a file. */
  lemma BytesMatch(f: Fs, g: Fs, ren: Ren, i: nat, data: seq<Byte>)
    requires Match(f, g, ren) && i in ren.to && i in f.files
    ensures Match(f.(files := f.files[i := data]), g.(files := g.files[ren.to[i] := data]), ren)
  {
    hide Match;
    FileMatches(f, g, ren, i);
    ProperIs(f, g, ren);
    RenIs(f, g, ren);
    var f', g' := f.(files := f.files[i := data]), g.(files := g.files[ren.to[i] := data]);
    Thing(f, g, ren, i);
    BytesProper(f, i, data);
    BytesProper(g, ren.to[i], data);
    forall j | j in f'.places ensures SameThing(f', g', ren, j) { Thing(f, g, ren, j); }
    hide Proper;
    Matches(f', g', ren);
  }

  lemma BytesProper(f: Fs, i: nat, data: seq<Byte>)
    requires Proper(f) && i in f.places
    ensures Proper(f.(files := f.files[i := data]))
  {
    var f' := f.(files := f.files[i := data]);
    forall j | j in f'.places ensures Housed(f', j) { assert Housed(f, j); }
    forall j, k | j in f'.places && k in f'.places && SamePlace(f', j, k) ensures j == k { assert SamePlace(f, j, k); }
  }

  function WithNew(f: Fs, i: nat, d: nat, name: Name, typ: FileType): Fs
  {
    Fs(if typ == File then f.files[i := []] else f.files, f.places[i := Place(d, name, typ == Dir)])
  }

  lemma NotThere(f: Fs, d: nat, name: Name, j: nat)
    requires Who(f, d, name) == {}
    ensures j in f.places && f.places[j].dir == d ==> f.places[j].name != name
  {
    assert j !in Who(f, d, name);
  }

  lemma NewProper(f: Fs, i: nat, d: nat, name: Name, typ: FileType)
    requires Proper(f) && IsDirAt(f, d) && Who(f, d, name) == {} && i !in f.places && i != ROOT_INO
    ensures Proper(WithNew(f, i, d, name, typ))
  {
    var f' := WithNew(f, i, d, name, typ);
    forall j | j in f'.places ensures Housed(f', j) { if j != i { assert Housed(f, j); } }
    forall j, k | j in f'.places && k in f'.places && SamePlace(f', j, k) ensures j == k {
      assert j != i && f.places[j].dir == d ==> f.places[j].name != name by { NotThere(f, d, name, j); }
      assert k != i && f.places[k].dir == d ==> f.places[k].name != name by { NotThere(f, d, name, k); }
      if j != i && k != i { assert SamePlace(f, j, k); }
    }
  }

  /** Something new in a directory. */
  lemma NewMatches(f: Fs, g: Fs, ren: Ren, d: nat, name: Name, typ: FileType, i: nat, j: nat)
    requires Match(f, g, ren) && d in ren.to && IsDirAt(f, d) && Who(f, d, name) == {}
    requires i !in f.places && i !in f.files && i != ROOT_INO && j !in g.places && j !in g.files && j != ROOT_INO
    ensures Match(WithNew(f, i, d, name, typ), WithNew(g, j, ren.to[d], name, typ), Added(ren, i, j))
  {
    hide Match, Who, Proper, IsDirAt, Numbers, Inverse;
    ProperIs(f, g, ren);
    RenIs(f, g, ren);
    DirMatches(f, g, ren, d);
    WhoMatches(f, g, ren, d, name);
    assert Who(g, ren.to[d], name) == {};
    NewProper(f, i, d, name, typ);
    NewProper(g, j, ren.to[d], name, typ);
    var f', g', ren' := WithNew(f, i, d, name, typ), WithNew(g, j, ren.to[d], name, typ), Added(ren, i, j);
    NewNumbers(f, g, ren, i, j, f', g');
    forall k | k in f'.places ensures SameThing(f', g', ren', k) { NewThing(f, g, ren, d, name, typ, i, j, k); }
    hide SameThing, WithNew;
    Matches(f', g', ren');
  }

  lemma NewThing(f: Fs, g: Fs, ren: Ren, d: nat, name: Name, typ: FileType, i: nat, j: nat, k: nat)
    requires Match(f, g, ren) && d in ren.to && i != ROOT_INO && j != ROOT_INO
    requires i !in f.places && i !in f.files && j !in g.places && j !in g.files
    requires k in f.places || k == i
    ensures SameThing(WithNew(f, i, d, name, typ), WithNew(g, j, ren.to[d], name, typ), Added(ren, i, j), k)
  {
    hide Match, Inverse;
    RenIs(f, g, ren);
    NumbersOf(f, g, ren, i);
    if k != i {
      Thing(f, g, ren, k);
      assert k != i && ren.to[k] != j;
    }
  }

  lemma NumbersOf(f: Fs, g: Fs, ren: Ren, i: nat)
    requires Match(f, g, ren)
    ensures i in ren.to <==> i in f.places || i == ROOT_INO
  {
    hide Proper, SameThing;
    ProperIs(f, g, ren);
    NumbersAre(f, g, ren);
  }

  lemma NewNumbers(f: Fs, g: Fs, ren: Ren, i: nat, j: nat, f': Fs, g': Fs)
    requires Numbers(f, g, ren) && i !in f.places && i != ROOT_INO && j !in g.places && j != ROOT_INO
    requires f'.places.Keys == f.places.Keys + {i} && g'.places.Keys == g.places.Keys + {j}
    ensures Numbers(f', g', Added(ren, i, j))
  {
    hide Inverse;
    NumbersAre(f, g, ren);
    InverseNew(ren.to, ren.back, i, j);
    InverseNew(ren.back, ren.to, j, i);
    var ren' := Added(ren, i, j);
    assert ren'.to.Keys == f'.places.Keys + {ROOT_INO};
    assert ren'.back.Keys == g'.places.Keys + {ROOT_INO};
  }

  lemma NumbersAre(f: Fs, g: Fs, ren: Ren)
    requires Numbers(f, g, ren)
    ensures forall i :: i in ren.to <==> i in f.places || i == ROOT_INO
    ensures forall j :: j in ren.back <==> j in g.places || j == ROOT_INO
  {
    hide Inverse;
    assert forall i :: i in ren.to <==> i in ren.to.Keys;
    assert forall j :: j in ren.back <==> j in ren.back.Keys;
  }

  lemma InverseNew(a: map<nat, nat>, b: map<nat, nat>, i: nat, j: nat)
    requires Inverse(a, b) && Inverse(b, a) && i !in a && j !in b
    ensures Inverse(a[i := j], b[j := i])
  {
  }

  /** Things taken away that have nothing in them. */
  ghost predicate Bare(f: Fs, gone: set<nat>) { forall i :: i in f.places && i !in gone ==> f.places[i].dir !in gone }

  lemma LessProper(f: Fs, gone: set<nat>)
    requires Proper(f) && Bare(f, gone) && ROOT_INO !in gone
    ensures Proper(Without(f, gone))
  {
    var f' := Without(f, gone);
    forall j | j in f'.places ensures Housed(f', j) { assert Housed(f, j); }
    forall j, k | j in f'.places && k in f'.places && SamePlace(f', j, k) ensures j == k { assert SamePlace(f, j, k); }
  }

  lemma ThingStays(f: Fs, g: Fs, ren: Ren, gone: set<nat>, k: nat)
    requires Match(f, g, ren) && Bare(f, gone) && k in f.places && k !in gone
    requires forall i :: i in ren.to ==> (ren.to[i] in Image(ren, gone) <==> i in gone)
    ensures SameThing(Without(f, gone), Without(g, Image(ren, gone)), Lessened(ren, gone), k)
  {
    hide Match, Image;
    RenIs(f, g, ren);
    Thing(f, g, ren, k);
    assert ren.to[k] !in Image(ren, gone);
    assert f.places[k].dir !in gone;
  }

  lemma LessMatches(f: Fs, g: Fs, ren: Ren, gone: set<nat>)
    requires Match(f, g, ren) && gone <= f.places.Keys && Bare(f, gone)
    ensures Match(Without(f, gone), Without(g, Image(ren, gone)), Lessened(ren, gone))
  {
    hide Match;
    ProperIs(f, g, ren);
    RenIs(f, g, ren);
    var gone', ren' := Image(ren, gone), Lessened(ren, gone);
    var f', g' := Without(f, gone), Without(g, gone');
    BareMatches(f, g, ren, gone);
    LessProper(f, gone);
    LessProper(g, gone');
    LessNumbers(f, g, ren, gone);
    hide Proper;
    InverseLess(ren, gone);
    forall k | k in f'.places ensures SameThing(f', g', ren', k) { ThingStays(f, g, ren, gone, k); }
    Matches(f', g', ren');
  }

  lemma BareMatches(f: Fs, g: Fs, ren: Ren, gone: set<nat>)
    requires Match(f, g, ren) && gone <= f.places.Keys && Bare(f, gone)
    ensures Bare(g, Image(ren, gone)) && ROOT_INO !in Image(ren, gone)
  {
    hide Match;
    RenIs(f, g, ren);
    forall j | j in g.places && j !in Image(ren, gone) ensures g.places[j].dir !in Image(ren, gone) {
      var i := Comes(f, g, ren, j);
      assert i !in gone;
    }
  }

  lemma LessNumbers(f: Fs, g: Fs, ren: Ren, gone: set<nat>)
    requires Numbers(f, g, ren) && gone <= f.places.Keys && ROOT_INO !in gone
    ensures Numbers(Without(f, gone), Without(g, Image(ren, gone)), Lessened(ren, gone))
  {
    hide Inverse, Image;
    NumbersAre(f, g, ren);
    InverseLess(ren, gone);
    assert ROOT_INO !in Image(ren, gone);
    KeysLess(ren.to, f.places, gone);
    KeysLess(ren.back, g.places, Image(ren, gone));
  }

  lemma KeysLess(to: map<nat, nat>, places: map<nat, Place>, gone: set<nat>)
    requires to.Keys == places.Keys + {ROOT_INO} && ROOT_INO !in gone
    ensures (to - gone).Keys == (places - gone).Keys + {ROOT_INO}
  {
  }

  lemma InverseLess(ren: Ren, gone: set<nat>)
    requires Inverse(ren.to, ren.back) && Inverse(ren.back, ren.to)
    ensures Inverse(Lessened(ren, gone).to, Lessened(ren, gone).back)
    ensures Inverse(Lessened(ren, gone).back, Lessened(ren, gone).to)
    ensures forall i :: i in ren.to ==> (ren.to[i] in Image(ren, gone) <==> i in gone)
  {
    forall i | i in ren.to ensures ren.to[i] in Image(ren, gone) <==> i in gone { assert ren.back[ren.to[i]] == i; }
    forall j | j in ren.back && j !in Image(ren, gone) ensures ren.back[j] !in gone { assert ren.to[ren.back[j]] == j; }
  }

  lemma MovedProper(f: Fs, i: nat, d: nat, name: Name)
    requires Proper(f) && i in f.places && IsDirAt(f, d) && Who(f, d, name) <= {i}
    ensures Proper(Relocated(f, {i}, d, name))
  {
    var f' := Relocated(f, {i}, d, name);
    forall j | j in f'.places ensures Housed(f', j) { assert Housed(f, j); }
    forall j, k | j in f'.places && k in f'.places && SamePlace(f', j, k) ensures j == k {
      OnlyOne(f, d, name, i, j);
      OnlyOne(f, d, name, i, k);
      if j != i && k != i { assert SamePlace(f, j, k); }
    }
  }

  lemma OnlyOne(f: Fs, d: nat, name: Name, i: nat, j: nat)
    requires Who(f, d, name) <= {i}
    ensures j in f.places && f.places[j].dir == d && f.places[j].name == name ==> j == i
  {
    assert j in Who(f, d, name) ==> j in {i};
  }

  /** Something in another place. */
  lemma MovedMatches(f: Fs, g: Fs, ren: Ren, i: nat, d: nat, name: Name)
    requires Match(f, g, ren) && i in ren.to && i != ROOT_INO && d in ren.to && IsDirAt(f, d) && Who(f, d, name) <= {i}
    ensures Match(Relocated(f, {i}, d, name), Relocated(g, {ren.to[i]}, ren.to[d], name), ren)
  {
    hide Match, Who, Proper, IsDirAt, Numbers, Inverse;
    ProperIs(f, g, ren);
    RenIs(f, g, ren);
    Thing(f, g, ren, i);
    DirMatches(f, g, ren, d);
    WhoMatches(f, g, ren, d, name);
    assert Who(g, ren.to[d], name) <= {ren.to[i]};
    MovedProper(f, i, d, name);
    MovedProper(g, ren.to[i], ren.to[d], name);
    var f', g' := Relocated(f, {i}, d, name), Relocated(g, {ren.to[i]}, ren.to[d], name);
    SameNumbers(f, g, ren, f', g');
    forall k | k in f'.places ensures SameThing(f', g', ren, k) { MovedThing(f, g, ren, i, d, name, k); }
    hide SameThing, Relocated;
    Matches(f', g', ren);
  }

  lemma SameNumbers(f: Fs, g: Fs, ren: Ren, f': Fs, g': Fs)
    requires Numbers(f, g, ren) && f'.places.Keys == f.places.Keys && g'.places.Keys == g.places.Keys
    ensures Numbers(f', g', ren)
  {
    hide Inverse;
  }

  lemma MovedThing(f: Fs, g: Fs, ren: Ren, i: nat, d: nat, name: Name, k: nat)
    requires Match(f, g, ren) && i in ren.to && i != ROOT_INO && d in ren.to && k in f.places
    ensures SameThing(Relocated(f, {i}, d, name), Relocated(g, {ren.to[i]}, ren.to[d], name), ren, k)
  {
    hide Match;
    RenIs(f, g, ren);
    Thing(f, g, ren, k);
  }

  /** How the numbers go together after a call. */
  function Onward(f: Fs, ren: Ren, a: Act, o: Out, o': Out): Ren
  {
    if o.Failed? then ren
    else match a
      case Make(_, _, _) => if o.Made? && o'.Made? then Added(ren, o.i, o'.i) else ren
      case Remove(d, name) => Lessened(ren, Who(f, d, name))
      case Move(d, name, d2, name2) => Lessened(ren, Who(f, d2, name2) - Who(f, d, name))
      case _ => ren
  }

  /** The same call, answered the same, leaves the same. */
  lemma AfterMatches(f: Fs, g: Fs, ren: Ren, a: Act, b: Act, o: Out, o': Out)
    requires Match(f, g, ren) && SameAct(f, ren, a, b) && Allowed(f, a, o) && Allowed(g, b, o') && SameOut(o, o')
    ensures Match(After(f, a, o), After(g, b, o'), Onward(f, ren, a, o, o'))
  {
    hide Match, Who, Above, HasChildren, IsDirAt, Without, Relocated, Added, Lessened, Image;
    if !o.Failed? {
      match a
      case Put(i, off, data) =>
        FileMatches(f, g, ren, i);
        BytesMatch(f, g, ren, i, W.Overlay(f.files[i], off, data[..o.n]));
      case Empty(i) =>
        FileMatches(f, g, ren, i);
        BytesMatch(f, g, ren, i, []);
      case Make(d, name, typ) =>
        WhoMatches(f, g, ren, d, name);
        NewMatches(f, g, ren, d, name, typ, o.i, o'.i);
      case Remove(d, name) =>
        WhoMatches(f, g, ren, d, name);
        RemovedBare(f, d, name);
        LessMatches(f, g, ren, Who(f, d, name));
      case Move(d, name, d2, name2) => MoveMatches(f, g, ren, d, name, d2, name2);
      case _ =>
    }
  }

  lemma RemovedBare(f: Fs, d: nat, name: Name)
    requires forall i <- Who(f, d, name) :: !HasChildren(f, i)
    ensures Bare(f, Who(f, d, name)) && Who(f, d, name) <= f.places.Keys
  {
  }

  /** A file has nothing in it. */
  lemma FilesBare(f: Fs, gone: set<nat>)
    requires Proper(f) && gone <= f.places.Keys && forall x <- gone :: !f.places[x].isDir
    ensures Bare(f, gone)
  {
    forall i | i in f.places && i !in gone ensures f.places[i].dir !in gone { assert Housed(f, i); }
  }

  lemma MoveMatches(f: Fs, g: Fs, ren: Ren, d: nat, name: Name, d2: nat, name2: Name)
    requires Match(f, g, ren) && d in ren.to && d2 in ren.to && IsDirAt(f, d2)
      && Allowed(f, Move(d, name, d2, name2), Done)
    ensures var a, b := Move(d, name, d2, name2), Move(ren.to[d], name, ren.to[d2], name2);
      Match(After(f, a, Done), After(g, b, Done), Onward(f, ren, a, Done, Done))
  {
    hide Match, Above, IsDirAt, Proper, Numbers, Inverse;
    ProperIs(f, g, ren);
    RenIs(f, g, ren);
    WhoMatches(f, g, ren, d, name);
    WhoMatches(f, g, ren, d2, name2);
    var here, there := Who(f, d, name), Who(f, d2, name2);
    var i := The(here);
    assert here == {i} by { forall j <- here { OneAtMost(f, d, name, i, j); } }
    ImagesMatch(f, g, ren, there, here);
    assert Image(ren, here) == {ren.to[i]};
    var gone := there - here;
    FilesBare(f, gone);
    LessMatches(f, g, ren, gone);
    var f1, g1, ren1 := Without(f, gone), Without(g, Image(ren, gone)), Lessened(ren, gone);
    DirNotGone(f, gone, d2);
    assert ren1.to[i] == ren.to[i] && ren1.to[d2] == ren.to[d2];
    StillDir(f, gone, d2);
    assert Who(f1, d2, name2) <= {i};
    MovedMatches(f1, g1, ren1, i, d2, name2);
  }

  lemma DirNotGone(f: Fs, gone: set<nat>, d: nat)
    requires IsDirAt(f, d) && ROOT_INO !in f.places && gone <= f.places.Keys && forall x <- gone :: !f.places[x].isDir
    ensures d !in gone
  {
  }

  lemma StillDir(f: Fs, gone: set<nat>, d: nat)
    requires IsDirAt(f, d) && d !in gone
    ensures IsDirAt(Without(f, gone), d)
  {
  }

  /* ---- whole runs ---- */

  /** Step by step the two were told the same and answered the same, and `rens` are the numbers. */
  ghost predicate Alongside(fss: seq<Fs>, mount: Path, ops: seq<Op>, ops': seq<Op>, outs: seq<Out>, outs': seq<Out>,
    rens: seq<Ren>)
  {
    && |fss| == |rens| == |outs| + 1 && |outs'| == |outs| <= |ops| && |outs| <= |ops'|
    && forall k :: 0 <= k < |outs| ==>
         && SameOp(rens[k], mount, ops[k], ops'[k]) && SameOut(outs[k], outs'[k])
         && rens[k + 1] == Onward(fss[k], rens[k], ActOf(fss[k], Disk, ops[k]), outs[k], outs'[k])
  }

  /** A run of the disk's file system and one of the memory's, told the same and answering the
      same, hold the same files under the same names in every state. */
  lemma {:induction false} StoriesMatch(fss: seq<Fs>, gss: seq<Fs>, mount: Path, ops: seq<Op>, ops': seq<Op>,
    outs: seq<Out>, outs': seq<Out>, rens: seq<Ren>, n: nat)
    requires Story(fss, Disk, ops, outs) && Story(gss, Memory(mount), ops', outs')
    requires Alongside(fss, mount, ops, ops', outs, outs', rens) && Match(fss[0], gss[0], rens[0]) && n <= |outs|
    requires forall k :: 0 <= k < |outs| ==> Grounded(fss[k], ops[k])
    ensures Match(fss[n], gss[n], rens[n])
    decreases n
  {
    hide Match, SameOp, Grounded, SameOut, Onward, ActOf, Allowed, After, SameAct;
    if n > 0 {
      var k := n - 1;
      StoriesMatch(fss, gss, mount, ops, ops', outs, outs', rens, k);
      assert Did(fss[k], fss[k + 1], ActOf(fss[k], Disk, ops[k]), outs[k]);
      assert Did(gss[k], gss[k + 1], ActOf(gss[k], Memory(mount), ops'[k]), outs'[k]);
      ActMatches(fss[k], gss[k], rens[k], mount, ops[k], ops'[k]);
      AfterMatches(fss[k], gss[k], rens[k], ActOf(fss[k], Disk, ops[k]), ActOf(gss[k], Memory(mount), ops'[k]),
        outs[k], outs'[k]);
    }
  }

  /** Whatever a caller writes, what resolving hands down is a clean path. */
  lemma ResolvedIsClean(cwd: Path, path: Path, size: nat)
    requires 2 <= size <= P.PATH_MAX + 1 && N.Resolved(cwd, path, size).Ok?
    ensures CleanPath(N.Resolved(cwd, path, size).value)
  {
    var st := N.ResolvedIsClean(cwd, path, size);
    hide N.Resolved, N.Render;
    assert N.Clean(st) && N.Resolved(cwd, path, size).value == N.Render(st);
  }
}
