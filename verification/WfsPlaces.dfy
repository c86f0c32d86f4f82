/** The tree of a volume as places: which directory each inode is in, and under what name. */
module WfsPlaces {
  import opened WfsLayout
  import opened WfsTree
  import opened WfsDirs
  import opened WfsRename
  import S = FileSpec

  type Places = map<nat, S.Place>

  ghost predicate HasPlace(t: Tree, i: nat) { exists d: nat, k: nat :: NamedAt(t, i, d, k) }

  ghost function PlaceIn(t: Tree, i: nat): S.Place
  {
    if HasPlace(t, i) then
      var d: nat, k: nat :| NamedAt(t, i, d, k);
      S.Place(d, t.dirs[d][k].name, i in t.dirs)
    else S.Place(0, [], false)
  }

  ghost function PlacesOf(t: Tree): Places
  {
    map i | i in t.live && i != ROOT_INO :: PlaceIn(t, i)
  }

  /** An inode has one name, so its place is where that name is. */
  lemma PlaceIs(t: Tree, i: nat, d: nat, k: nat)
    requires IsTree(t) && NamedAt(t, i, d, k)
    ensures PlaceIn(t, i) == S.Place(d, t.dirs[d][k].name, i in t.dirs) && i in PlacesOf(t)
  {
    TreeIsWalkable(t);
    hide IsTree, UniqueNames, ReachesRoot;
    assert HasPlace(t, i);
  }

  /** Everything but the root is somewhere. */
  lemma Placed(t: Tree, i: nat) returns (d: nat, k: nat)
    requires IsTree(t) && i in t.live && i != ROOT_INO
    ensures NamedAt(t, i, d, k) && PlaceIn(t, i) == S.Place(d, t.dirs[d][k].name, i in t.dirs)
  {
    TreeIsWalkable(t);
    hide IsTree, UniqueNames, ReachesRoot, NamedAt;
    d, k :| NamedAt(t, i, d, k);
    PlaceIs(t, i, d, k);
  }

  ghost function With(files: map<nat, seq<Byte>>, t: Tree): S.Fs { S.Fs(files, PlacesOf(t)) }

  /** Looking a name up is asking who has it. */
  lemma WhoIs(files: map<nat, seq<Byte>>, t: Tree, d: nat, name: Name)
    requires IsTree(t) && d in t.dirs && !IsDot(name)
    ensures var k := FindIdx(t.dirs[d], name, 0);
      S.Who(With(files, t), d, name) == if k < |t.dirs[d]| then {t.dirs[d][k].ino} else {}
  {
    hide IsTree, PlaceIn;
    var es, k := t.dirs[d], FindIdx(t.dirs[d], name, 0);
    var who := S.Who(With(files, t), d, name);
    if k < |es| {
      assert NamedAt(t, es[k].ino, d, k);
      PlaceIs(t, es[k].ino, d, k);
      assert es[k].ino in who;
    }
    forall i <- who ensures k < |es| && i == es[k].ino {
      var d', m := Placed(t, i);
      assert Matches(es[m], name);
      UniqueIn(t, d);
      assert m == k;
    }
  }

  lemma UniqueIn(t: Tree, d: nat)
    requires IsTree(t) && d in t.dirs
    ensures UniqueNames(t.dirs[d])
  {
    TreeIsWalkable(t);
  }

  /** A directory with anything but its dots is somebody's place. */
  lemma ChildrenAre(files: map<nat, seq<Byte>>, t: Tree, i: nat)
    requires IsTree(t)
    ensures S.HasChildren(With(files, t), i) <==> i in t.dirs && !EmptyDir(t.dirs[i])
  {
    hide IsTree, PlaceIn;
    if j :| j in PlacesOf(t) && PlacesOf(t)[j].dir == i {
      var d, k := Placed(t, j);
      assert Real(t.dirs[i][k]);
    }
    if i in t.dirs && !EmptyDir(t.dirs[i]) {
      var k: nat :| k < |t.dirs[i]| && Real(t.dirs[i][k]);
      PlaceIs(t, t.dirs[i][k].ino, i, k);
      assert PlacesOf(t)[t.dirs[i][k].ino].dir == i;
    }
  }

  /** Following ".." is going from place to place. */
  lemma {:induction false} ClimbsAgree(files: map<nat, seq<Byte>>, t: Tree, d: nat, n: nat)
    requires IsTree(t) && d in t.dirs
    ensures S.Climb(With(files, t), d, n) == Climb(t, d, n)
    decreases n
  {
    hide IsTree, PlaceIn;
    if n > 0 {
      if d == ROOT_INO {
        RootStays(t, n);
      } else {
        DirPlace(t, d);
        ClimbsAgree(files, t, PlaceIn(t, d).dir, n - 1);
      }
    }
  }

  lemma DirPlace(t: Tree, d: nat)
    requires IsTree(t) && d in t.dirs && d != ROOT_INO
    ensures d in PlacesOf(t) && PlaceIn(t, d).dir in t.dirs
    ensures |t.dirs[d]| >= 2 && t.dirs[d][1].ino == PlaceIn(t, d).dir
  {
    assert d in t.live;
    var e, k := Placed(t, d);
    MovedFacts(t, d, e, k);
  }

  lemma AboveIs(files: map<nat, seq<Byte>>, t: Tree, i: nat, d: nat)
    requires IsTree(t) && d in t.dirs
    ensures S.Above(With(files, t), i, d) <==> Contains(t, i, d)
  {
    hide IsTree, PlaceIn, Climb;
    forall n: nat ensures S.Climb(With(files, t), d, n) == Climb(t, d, n) { ClimbsAgree(files, t, d, n); }
  }

  /* ---- how places change ---- */

  /** Every name of anything but `i` is where it was. */
  ghost predicate NamesKept(t: Tree, t': Tree, i: nat)
  {
    forall j: nat, e: nat, m: nat :: j != i && NamedAt(t, j, e, m) ==>
      NamedAt(t', j, e, m) && t'.dirs[e][m] == t.dirs[e][m]
  }

  lemma PlaceStays(t: Tree, t': Tree, i: nat, j: nat)
    requires IsTree(t) && IsTree(t') && NamesKept(t, t', i) && j != i && j in t.live && j != ROOT_INO
    requires j in t.dirs <==> j in t'.dirs
    ensures PlaceIn(t', j) == PlaceIn(t, j)
  {
    hide IsTree, PlaceIn, NamedAt;
    var e, m := Placed(t, j);
    PlaceIs(t', j, e, m);
  }

  lemma PlacesStay(t: Tree, t': Tree, i: nat)
    requires IsTree(t) && IsTree(t') && NamesKept(t, t', i) && t'.live - {i} == t.live - {i}
    requires forall j :: j != i ==> (j in t.dirs <==> j in t'.dirs)
    ensures PlacesOf(t') - {i} == PlacesOf(t) - {i}
  {
    hide IsTree, PlaceIn, NamesKept;
    forall j | j in t'.live && j != i && j != ROOT_INO ensures j in t.live && PlaceIn(t', j) == PlaceIn(t, j) {
      assert j in t'.live - {i};
      PlaceStays(t, t', i, j);
    }
    forall j | j in t.live && j != i ensures j in t'.live { assert j in t.live - {i}; }
  }

  lemma TreeKeys(t: Tree)
    requires IsTree(t)
    ensures t.dirs.Keys <= t.live && ROOT_INO in t.dirs && ROOT_INO in t.live
  {
  }

  lemma PlacesAfterCreate(t: Tree, d: nat, k: nat, name: Name, i: nat, isDir: bool, t': Tree)
    requires IsTree(t) && Vacant(t, d, k, name) && i != 0 && i !in t.live
    requires t' == PutEnt(NewNode(t, i, isDir, d), d, k, Ent(i, name)) && IsTree(t')
    ensures PlacesOf(t') == PlacesOf(t)[i := S.Place(d, name, isDir)]
  {
    hide IsTree, PlaceIn;
    TreeKeys(t);
    NamesAfterCreate(t, d, k, name, i, isDir);
    hide NamesKept, Vacant;
    PlacesStay(t, t', i);
    PlaceIs(t', i, d, k);
    Patched(PlacesOf(t), PlacesOf(t'), i);
  }

  lemma Patched(p: Places, p': Places, i: nat)
    requires p' - {i} == p - {i} && i in p'
    ensures p' == p[i := p'[i]]
  {
    forall j | j != i ensures (j in p <==> j in p') && (j in p ==> p'[j] == p[j]) {
      assert j in p <==> j in p - {i};
      assert j in p' <==> j in p' - {i};
    }
  }

  lemma NamesAfterCreate(t: Tree, d: nat, k: nat, name: Name, i: nat, isDir: bool)
    requires Vacant(t, d, k, name) && i != 0 && i !in t.live && t.dirs.Keys <= t.live
    ensures var t' := PutEnt(NewNode(t, i, isDir, d), d, k, Ent(i, name));
      && NamesKept(t, t', i) && NamedAt(t', i, d, k) && t'.dirs[d][k].name == name && (i in t'.dirs <==> isDir)
      && t'.live - {i} == t.live - {i} && forall j :: j != i ==> (j in t.dirs <==> j in t'.dirs)
  {
    assert i !in t.dirs && d != i;
  }

  lemma PlacesAfterDrop(t: Tree, i: nat, d: nat, k: nat, t': Tree)
    requires IsTree(t) && NamedAt(t, i, d, k) && (i in t.dirs ==> EmptyDir(t.dirs[i])) && t' == Dropped(t, d, k, i)
      && IsTree(t')
    ensures PlacesOf(t') == PlacesOf(t) - {i}
  {
    hide IsTree, PlaceIn;
    MovedFacts(t, i, d, k);
    NamesAfterDrop(t, i, d, k);
    hide NamesKept, NamedAt, Dropped;
    PlacesStay(t, t', i);
    assert PlacesOf(t') - {i} == PlacesOf(t');
  }

  lemma NamesAfterDrop(t: Tree, i: nat, d: nat, k: nat)
    requires NamedAt(t, i, d, k) && (i in t.dirs ==> EmptyDir(t.dirs[i])) && d != i
    ensures var t' := Dropped(t, d, k, i);
      NamesKept(t, t', i) && i !in t'.live && t'.live - {i} == t.live - {i} && forall j :: j != i ==>
        (j in t.dirs <==> j in t'.dirs)
  {
  }

  lemma PlacesAfterMove(t: Tree, i: nat, d: nat, k: nat, d2: nat, k2: nat, name: Name, t': Tree)
    requires IsTree(t) && NamedAt(t, i, d, k) && Vacant(t, d2, k2, name) && i != d2
    requires t' == Moved(t, i, d, k, d2, k2, name) && IsTree(t')
    ensures PlacesOf(t') == PlacesOf(t)[i := S.Place(d2, name, i in t.dirs)]
  {
    hide IsTree, PlaceIn;
    MovedFacts(t, i, d, k);
    NamesAfterMove(t, i, d, k, d2, k2, name);
    hide NamesKept, NamedAt, Moved, Vacant;
    PlacesStay(t, t', i);
    PlaceIs(t', i, d2, k2);
    Patched(PlacesOf(t), PlacesOf(t'), i);
  }

  lemma NamesAfterMove(t: Tree, i: nat, d: nat, k: nat, d2: nat, k2: nat, name: Name)
    requires NamedAt(t, i, d, k) && Vacant(t, d2, k2, name) && i != 0 && i != d && i != d2
    requires i in t.dirs ==> |t.dirs[i]| >= 2 && t.dirs[i][1].name == DOTDOT
    ensures var t' := Moved(t, i, d, k, d2, k2, name);
      && NamedAt(t', i, d2, k2) && t'.dirs[d2][k2].name == name && NamesKept(t, t', i)
      && t'.live == t.live && forall j :: j in t.dirs <==> j in t'.dirs
  {
    var t' := Moved(t, i, d, k, d2, k2, name);
    forall j: nat, e: nat, m: nat | j != i && NamedAt(t, j, e, m)
      ensures NamedAt(t', j, e, m) && t'.dirs[e][m] == t.dirs[e][m] {
      assert e in t'.dirs;
    }
  }
}
