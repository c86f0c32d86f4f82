/** Where paths on a disk lead, and what making something does to that. */
module FileWays {
  import opened WfsLayout
  import opened FileSpec
  import W = WfsDriver
  import P = WfsPaths
  import N = PathNames

  /** One component more. */
  lemma {:induction false} FollowSnoc(fs: Fs, dots: bool, at: nat, cs: seq<Name>, c: Name)
    ensures var r := Follow(fs, dots, at, cs);
      Follow(fs, dots, at, cs + [c]) ==
        if r.Err? then r else if |c| > NAME_MAX then W.Err(W.ENAMETOOLONG) else Enter(fs, dots, r.value, c)
    decreases |cs|
  {
    hide Enter;
    if cs == [] {
      assert cs + [c] == [c] && [c][1..] == [];
    } else {
      assert (cs + [c])[1..] == cs[1..] + [c] && (cs + [c])[0] == cs[0];
      var r := Enter(fs, dots, at, cs[0]);
      if r.Ok? { FollowSnoc(fs, dots, r.value, cs[1..], c); }
    }
  }

  /** An absolute path with one component more. */
  lemma LookUpSnoc(fs: Fs, path: Path, c: Name)
    requires path != [] && path[0] == P.SLASH && c != [] && P.SLASH !in c
    ensures var r := LookUp(fs, path);
      LookUp(fs, path + [P.SLASH] + c) ==
        if r.Err? then r else if |c| > NAME_MAX then W.Err(W.ENAMETOOLONG) else Enter(fs, true, r.value, c)
  {
    hide Enter, Follow, P.Split;
    N.SplitJoin(path, c);
    N.SplitOne(c);
    FollowSnoc(fs, true, ROOT_INO, P.Split(path), c);
  }

  /** What fails on the way fails. */
  lemma {:induction false} FollowPast(fs: Fs, dots: bool, at: nat, cs: seq<Name>, ds: seq<Name>)
    requires Follow(fs, dots, at, cs).Err?
    ensures Follow(fs, dots, at, cs + ds) == Follow(fs, dots, at, cs)
    decreases |cs|
  {
    hide Enter;
    assert (cs + ds)[1..] == cs[1..] + ds && (cs + ds)[0] == cs[0];
    if |cs[0]| <= NAME_MAX && Enter(fs, dots, at, cs[0]).Ok? {
      FollowPast(fs, dots, Enter(fs, dots, at, cs[0]).value, cs[1..], ds);
    }
  }

  lemma LookUpPast(fs: Fs, path: Path, rest: Path)
    requires path != [] && path[0] == P.SLASH && LookUp(fs, path).Err?
    ensures LookUp(fs, path + [P.SLASH] + rest) == LookUp(fs, path)
  {
    hide Follow, P.Split;
    N.SplitJoin(path, rest);
    FollowPast(fs, true, ROOT_INO, P.Split(path), P.Split(rest));
  }

  /** Nor is there a place for a name below it. */
  lemma OnDiskPast(fs: Fs, path: Path, rest: Path)
    requires path != [] && path[0] == P.SLASH && LookUp(fs, path).Err?
    ensures OnDisk(fs, path + [P.SLASH] + rest).Err?
  {
    hide LookUp, P.LastSlash;
    var p := path + [P.SLASH] + rest;
    var s := P.LastSlash(p);
    assert p[|path|] == P.SLASH;
    if s == |path| {
      assert p[..s] == path;
    } else {
      assert p[..s] == path + [P.SLASH] + rest[..s - |path| - 1];
      LookUpPast(fs, path, rest[..s - |path| - 1]);
    }
  }

  /** A component below the root. */
  lemma LookUpTop(fs: Fs, c: Name)
    requires c != [] && P.SLASH !in c
    ensures LookUp(fs, [P.SLASH] + c) == if |c| > NAME_MAX then W.Err(W.ENAMETOOLONG) else Enter(fs, true, ROOT_INO, c)
  {
    hide Enter, P.Split;
    N.SplitJoin([], c);
    N.SplitOne(c);
    NothingSplits();
    assert [] + [P.SLASH] + c == [P.SLASH] + c;
    FollowSnoc(fs, true, ROOT_INO, [], c);
    assert [] + [c] == [c];
  }

  lemma NothingSplits()
    ensures P.Split([]) == []
  {
  }

  /** Where a name would go, when its directory is at `path`. */
  lemma OnDiskSnoc(fs: Fs, path: Path, c: Name)
    requires path != [] && path[0] == P.SLASH && c != [] && P.SLASH !in c && |path| <= P.PATH_MAX
    ensures var r := LookUp(fs, path);
      OnDisk(fs, path + [P.SLASH] + c) ==
        if |c| > NAME_MAX then W.Err(W.ENAMETOOLONG) else if r.Ok? then W.Ok((r.value, c)) else W.Err(r.error)
  {
    hide LookUp;
    var p := path + [P.SLASH] + c;
    LastAt(path, c);
    assert p[..|path|] == path && p[|path| + 1..] == c;
  }

  lemma LastAt(path: Path, c: Name)
    requires P.SLASH !in c
    ensures P.LastSlash(path + [P.SLASH] + c) == |path|
  {
    hide P.LastSlash;
    var p, k := path + [P.SLASH] + c, |path|;
    forall m | k < m < |p| ensures p[m] != P.SLASH { InTail(path + [P.SLASH], c, m); }
    LastIs(p, k);
  }

  lemma InTail(a: Path, c: Name, m: nat)
    requires |a| <= m < |a + c|
    ensures (a + c)[m] in c
  {
    assert (a + c)[m] == c[m - |a|];
  }

  lemma LastIs(p: Path, k: nat)
    requires k < |p| && p[k] == P.SLASH && forall m :: k < m < |p| ==> p[m] != P.SLASH
    ensures P.LastSlash(p) == k
  {
    assert P.LastSlash(p) >= 0 ==> p[P.LastSlash(p)] == P.SLASH;
  }

  lemma OnDiskTop(fs: Fs, c: Name)
    requires c != [] && P.SLASH !in c
    ensures OnDisk(fs, [P.SLASH] + c) == if |c| > NAME_MAX then W.Err(W.ENAMETOOLONG) else W.Ok((ROOT_INO, c))
  {
    LastAt([], c);
    assert [] + [P.SLASH] + c == [P.SLASH] + c && ([P.SLASH] + c)[1..] == c;
  }

  /* ---- making something ---- */

  /** `i` is new at its place, and nothing else is different. */
  ghost predicate Gained(fs: Fs, fs': Fs, i: nat, d: nat, name: Name, isDir: bool)
  {
    && i !in fs.places && i != ROOT_INO && Who(fs, d, name) == {}
    && fs'.places == fs.places[i := Place(d, name, isDir)]
  }

  lemma WhoGained(fs: Fs, fs': Fs, i: nat, d: nat, name: Name, isDir: bool, e: nat, c: Name)
    requires Gained(fs, fs', i, d, name, isDir)
    ensures Who(fs', e, c) == if e == d && c == name then {i} else Who(fs, e, c)
  {
    assert forall j :: j in fs'.places <==> j in fs.places || j == i;
    assert forall j :: j in fs.places && fs.places[j].dir == d && fs.places[j].name == name ==> j in Who(fs, d, name);
  }

  /** What a path led to, it still leads to. */
  lemma {:induction false} FollowGained(fs: Fs, fs': Fs, i: nat, d: nat, name: Name, isDir: bool, at: nat,
    cs: seq<Name>)
    requires Gained(fs, fs', i, d, name, isDir) && at != i && Settled(fs, i) && Follow(fs, true, at, cs).Ok?
    ensures Follow(fs', true, at, cs) == Follow(fs, true, at, cs) && Follow(fs, true, at, cs).value != i
    decreases |cs|
  {
    hide Gained, Enter;
    if cs != [] {
      EnterGained(fs, fs', i, d, name, isDir, at, cs[0]);
      var r := Enter(fs, true, at, cs[0]);
      FollowGained(fs, fs', i, d, name, isDir, r.value, cs[1..]);
    }
  }

  /** Nothing has its place in what is not there. */
  ghost predicate Settled(fs: Fs, i: nat) { forall j :: j in fs.places ==> fs.places[j].dir != i }

  lemma EnterGained(fs: Fs, fs': Fs, i: nat, d: nat, name: Name, isDir: bool, at: nat, c: Name)
    requires Gained(fs, fs', i, d, name, isDir) && at != i && Settled(fs, i) && Enter(fs, true, at, c).Ok?
    ensures Enter(fs', true, at, c) == Enter(fs, true, at, c) && Enter(fs, true, at, c).value != i
  {
    WhoGained(fs, fs', i, d, name, isDir, at, c);
    assert IsDirAt(fs', at) == IsDirAt(fs, at);
    var who := Who(fs, at, c);
    if who != {} { assert The(who) in who; }
  }

  /** And the new place is where it was made. */
  lemma EnterNew(fs: Fs, fs': Fs, i: nat, d: nat, name: Name, isDir: bool)
    requires Gained(fs, fs', i, d, name, isDir) && IsDirAt(fs, d) && d != i && !IsDot(name)
    ensures Enter(fs', true, d, name) == W.Ok(i) && (IsDirAt(fs', i) <==> isDir)
  {
    WhoGained(fs, fs', i, d, name, isDir, d, name);
    assert The({i}) in {i};
  }

  /** A new directory has nothing in it. */
  lemma NewIsEmpty(fs: Fs, fs': Fs, i: nat, d: nat, name: Name, c: Name)
    requires Gained(fs, fs', i, d, name, true) && Settled(fs, i) && d != i && !IsDot(c)
    ensures Enter(fs', true, i, c) == W.Err(W.ENOENT) && Who(fs', i, c) == {}
  {
    WhoGained(fs, fs', i, d, name, true, i, c);
    assert Who(fs, i, c) == {};
  }

  /** Following `cs` asks for `name` in `d`. */
  ghost predicate Passes(fs: Fs, at: nat, cs: seq<Name>, d: nat, name: Name)
    decreases |cs|
  {
    && cs != []
    && ((at == d && cs[0] == name)
        || (Enter(fs, true, at, cs[0]).Ok? && Passes(fs, Enter(fs, true, at, cs[0]).value, cs[1..], d, name)))
  }

  /** A way that does not ask for the new place is as it was, wherever it led. */
  lemma {:induction false} FollowElsewhere(fs: Fs, fs': Fs, i: nat, d: nat, name: Name, isDir: bool, at: nat,
    cs: seq<Name>)
    requires Gained(fs, fs', i, d, name, isDir) && Settled(fs, i) && at != i && !Passes(fs, at, cs, d, name)
    ensures Follow(fs', true, at, cs) == Follow(fs, true, at, cs)
    decreases |cs|
  {
    if cs != [] {
      WhoGained(fs, fs', i, d, name, isDir, at, cs[0]);
      assert IsDirAt(fs', at) == IsDirAt(fs, at);
      var r := Enter(fs, true, at, cs[0]);
      assert Enter(fs', true, at, cs[0]) == r;
      if r.Ok? {
        EnterGained(fs, fs', i, d, name, isDir, at, cs[0]);
        hide Gained, Enter;
        FollowElsewhere(fs, fs', i, d, name, isDir, r.value, cs[1..]);
      }
    }
  }

  /** Nothing is beyond a new file: a way leads to it or where it led before. */
  lemma {:induction false} FileEnds(fs: Fs, fs': Fs, i: nat, d: nat, name: Name, at: nat, cs: seq<Name>)
    requires Gained(fs, fs', i, d, name, false) && Settled(fs, i) && at != i
    ensures Follow(fs', true, at, cs).Ok? && Follow(fs', true, at, cs).value != i ==>
      Follow(fs, true, at, cs) == Follow(fs', true, at, cs)
    decreases |cs|
  {
    if cs != [] {
      WhoGained(fs, fs', i, d, name, false, at, cs[0]);
      assert IsDirAt(fs', at) == IsDirAt(fs, at);
      var r := Enter(fs', true, at, cs[0]);
      if r.Ok? && r.value == i {
        NotADir(fs', i, cs[1..]);
      } else if r.Ok? {
        assert Enter(fs, true, at, cs[0]) == r by { if at == d && cs[0] == name { assert The({i}) in {i}; } }
        FileEnds(fs, fs', i, d, name, r.value, cs[1..]);
      }
    }
  }

  lemma NotADir(fs: Fs, i: nat, cs: seq<Name>)
    requires !IsDirAt(fs, i)
    ensures Follow(fs, true, i, cs).Ok? ==> cs == []
  {
  }

  /* ---- changing bytes ---- */

  /** Paths go by places alone. */
  lemma {:induction false} FollowSame(fs: Fs, fs': Fs, dots: bool, at: nat, cs: seq<Name>)
    requires fs'.places == fs.places
    ensures Follow(fs', dots, at, cs) == Follow(fs, dots, at, cs)
    decreases |cs|
  {
    if cs != [] {
      assert Who(fs', at, cs[0]) == Who(fs, at, cs[0]);
      var r := Enter(fs, dots, at, cs[0]);
      if r.Ok? { FollowSame(fs, fs', dots, r.value, cs[1..]); }
    }
  }

  lemma LookUpSame(fs: Fs, fs': Fs, path: Path)
    requires fs'.places == fs.places
    ensures LookUp(fs', path) == LookUp(fs, path) && OnDisk(fs', path) == OnDisk(fs, path)
  {
    hide Follow;
    FollowSame(fs, fs', true, ROOT_INO, P.Split(path));
    var s := P.LastSlash(path);
    if s > 0 { FollowSame(fs, fs', true, ROOT_INO, P.Split(path[..s])); }
  }
}
