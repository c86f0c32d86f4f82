/** WFS directories as a value, and the invariant that makes them a tree rooted at
    inode 1 with "." and ".." as real entries. */
module WfsTree {
  import opened WfsLayout

  type Name = seq<Byte>

  const DOT: Name := [46]
  const DOTDOT: Name := [46, 46]

  /** One 32-byte directory record; inode zero marks a free slot. */
  datatype Ent = Ent(ino: nat, name: Name)

  const FREE_ENT := Ent(0, [])

  /** Which inodes are in use, and the records of those that are directories. */
  datatype Tree = Tree(live: set<nat>, dirs: map<nat, seq<Ent>>)

  predicate IsDot(n: Name) { n == DOT || n == DOTDOT }

  /** A record that is somebody's name: in use, and neither "." nor "..". */
  predicate Real(e: Ent) { e.ino != 0 && !IsDot(e.name) }

  /** Where each inode other than the root is named: directory and slot. */
  type Homes = map<nat, (nat, nat)>

  /** The directory above `i`; the root is above itself. */
  function Up(home: Homes, i: nat): nat { if i in home then home[i].0 else ROOT_INO }

  ghost predicate UniqueNames(es: seq<Ent>)
  {
    forall k, m :: 0 <= k < m < |es| && es[k].ino != 0 && es[m].ino != 0 ==> es[k].name != es[m].name
  }

  /** One directory: "." first, ".." second, no name twice, and every other entry in
      use is the one place its inode is named. */
  ghost predicate GoodDir(es: seq<Ent>, home: Homes, d: nat)
  {
    && |es| >= 2 && es[0] == Ent(d, DOT) && es[1] == Ent(Up(home, d), DOTDOT)
    && UniqueNames(es)
    && (forall k :: 2 <= k < |es| && es[k].ino != 0 ==> Real(es[k]) && es[k].ino in home && home[es[k].ino] == (d, k))
  }

  /** `home` is where each inode is named and `depth` how far it is below the root. */
  ghost predicate Shape(t: Tree, home: Homes, depth: map<nat, nat>)
  {
    && ROOT_INO in t.dirs && t.dirs.Keys <= t.live && 0 !in t.live
    && home.Keys == t.live - {ROOT_INO} && depth.Keys == t.live
    && depth[ROOT_INO] == 0
    && (forall d <- t.dirs :: GoodDir(t.dirs[d], home, d))
    && (forall i <- home ::
          && home[i].0 in t.dirs && 2 <= home[i].1 < |t.dirs[home[i].0]|
          && t.dirs[home[i].0][home[i].1].ino == i
          && depth[i] == depth[home[i].0] + 1)
  }

  ghost predicate IsTree(t: Tree)
  {
    exists home, depth :: Shape(t, home, depth)
  }

  /** Following ".." entries `n` times from directory `d`. */
  function Climb(t: Tree, d: nat, n: nat): nat
    decreases n
  {
    if n == 0 || d !in t.dirs || |t.dirs[d]| < 2 then d else Climb(t, t.dirs[d][1].ino, n - 1)
  }

  ghost predicate ReachesRoot(t: Tree, d: nat) { exists n :: Climb(t, d, n) == ROOT_INO }

  /** What being a tree means to somebody walking it: names are unique in a directory,
      every live inode but the root has exactly one real entry, ".." is the directory
      that entry is in, and following ".." reaches the root. */
  ghost predicate Walkable(t: Tree)
  {
    && (forall d <- t.dirs :: UniqueNames(t.dirs[d]) && ReachesRoot(t, d))
    && (forall i <- t.live :: i != ROOT_INO ==> NamedOnce(t, i))
    && (forall i, d, k :: NamedAt(t, i, d, k) ==> i in t.live && i != ROOT_INO)
  }

  /** `i` has a name, only one, and if it is a directory its ".." says where that is. */
  ghost predicate NamedOnce(t: Tree, i: nat)
  {
    exists d, k ::
      && NamedAt(t, i, d, k)
      && (forall d', k' :: NamedAt(t, i, d', k') ==> d' == d && k' == k)
      && (i in t.dirs ==> |t.dirs[i]| >= 2 && t.dirs[i][1] == Ent(d, DOTDOT))
  }

  ghost predicate NamedAt(t: Tree, i: nat, d: nat, k: nat)
  {
    d in t.dirs && k < |t.dirs[d]| && Real(t.dirs[d][k]) && t.dirs[d][k].ino == i
  }

  lemma {:induction false} ClimbsHome(t: Tree, home: Homes, depth: map<nat, nat>, d: nat)
    requires Shape(t, home, depth) && d in t.dirs
    ensures Climb(t, d, depth[d]) == ROOT_INO
    decreases depth[d]
  {
    assert GoodDir(t.dirs[d], home, d);
    if d != ROOT_INO {
      assert d in home;
      ClimbsHome(t, home, depth, home[d].0);
    }
  }

  lemma NamedIsHome(t: Tree, home: Homes, depth: map<nat, nat>, i: nat, d: nat, k: nat)
    requires Shape(t, home, depth) && NamedAt(t, i, d, k)
    ensures i in home && home[i] == (d, k) && i in t.live && i != ROOT_INO
    ensures i in t.dirs ==> |t.dirs[i]| >= 2 && t.dirs[i][1] == Ent(d, DOTDOT)
  {
    assert GoodDir(t.dirs[d], home, d);
    if i in t.dirs { assert GoodDir(t.dirs[i], home, i); }
  }

  lemma HomeIsNamed(t: Tree, home: Homes, depth: map<nat, nat>, i: nat)
    requires Shape(t, home, depth) && i in home
    ensures NamedAt(t, i, home[i].0, home[i].1)
  {
    assert GoodDir(t.dirs[home[i].0], home, home[i].0);
  }

  lemma DirIsWalkable(t: Tree, home: Homes, depth: map<nat, nat>, d: nat)
    requires Shape(t, home, depth) && d in t.dirs
    ensures UniqueNames(t.dirs[d]) && ReachesRoot(t, d)
  {
    assert GoodDir(t.dirs[d], home, d);
    ClimbsHome(t, home, depth, d);
  }

  lemma HomeIsOnlyName(t: Tree, home: Homes, depth: map<nat, nat>, i: nat)
    requires Shape(t, home, depth) && i in t.live && i != ROOT_INO
    ensures NamedOnce(t, i)
  {
    HomeIsNamed(t, home, depth, i);
    NamedIsHome(t, home, depth, i, home[i].0, home[i].1);
    hide Shape, NamedAt;
    forall d: nat, k: nat | NamedAt(t, i, d, k) ensures (d, k) == home[i] { NamedIsHome(t, home, depth, i, d, k); }
  }

  lemma TreeIsWalkable(t: Tree)
    requires IsTree(t)
    ensures Walkable(t)
  {
    hide Shape, NamedAt, UniqueNames, ReachesRoot, NamedOnce;
    var home: Homes, depth: map<nat, nat> :| Shape(t, home, depth);
    forall d <- t.dirs { DirIsWalkable(t, home, depth, d); }
    forall i <- t.live | i != ROOT_INO { HomeIsOnlyName(t, home, depth, i); }
    forall i: nat, d: nat, k: nat | NamedAt(t, i, d, k) ensures i in t.live && i != ROOT_INO {
      NamedIsHome(t, home, depth, i, d, k);
    }
  }

  /* ---- changing a tree ---- */

  function Put(es: seq<Ent>, k: nat, e: Ent): seq<Ent>
    requires k <= |es|
  {
    if k < |es| then es[k := e] else es + [e]
  }

  function PutEnt(t: Tree, d: nat, k: nat, e: Ent): Tree
  {
    if d in t.dirs && k <= |t.dirs[d]| then t.(dirs := t.dirs[d := Put(t.dirs[d], k, e)]) else t
  }

  /** Slot `k` of directory `d` can take a new entry called `name`. */
  ghost predicate Vacant(t: Tree, d: nat, k: nat, name: Name)
  {
    && d in t.dirs && 2 <= k <= |t.dirs[d]| && (k < |t.dirs[d]| ==> t.dirs[d][k].ino == 0)
    && !IsDot(name)
    && (forall m :: 0 <= m < |t.dirs[d]| && t.dirs[d][m].ino != 0 ==> t.dirs[d][m].name != name)
  }

  function NewNode(t: Tree, i: nat, isDir: bool, parent: nat): Tree
  {
    Tree(t.live + {i}, if isDir then t.dirs[i := [Ent(i, DOT), Ent(parent, DOTDOT)]] else t.dirs)
  }

  lemma LiveEntries(t: Tree, home: Homes, depth: map<nat, nat>, d: nat, k: nat)
    requires Shape(t, home, depth) && d in t.dirs && k < |t.dirs[d]| && t.dirs[d][k].ino != 0
    ensures t.dirs[d][k].ino in t.live
  {
    assert GoodDir(t.dirs[d], home, d);
    if k == 1 && d != ROOT_INO { assert d in home; }
  }

  lemma PutUnique(es: seq<Ent>, k: nat, e: Ent)
    requires UniqueNames(es) && k <= |es|
    requires e.ino != 0 ==> forall m :: 0 <= m < |es| && es[m].ino != 0 && m != k ==> es[m].name != e.name
    ensures UniqueNames(Put(es, k, e))
  {
  }

  /** A directory that takes a new entry, and one that does not. */
  lemma GoodDirAfterPut(es: seq<Ent>, home: Homes, d: nat, k: nat, i: nat, name: Name)
    requires GoodDir(es, home, d) && i != 0 && i !in home && i != d && !IsDot(name)
    requires 2 <= k <= |es| && (k < |es| ==> es[k].ino == 0)
    requires forall m :: 0 <= m < |es| && es[m].ino != 0 ==> es[m].name != name
    ensures GoodDir(Put(es, k, Ent(i, name)), home[i := (d, k)], d)
  {
    PutUnique(es, k, Ent(i, name));
    hide UniqueNames;
  }

  lemma GoodDirElsewhere(es: seq<Ent>, home: Homes, x: nat, i: nat, at: (nat, nat))
    requires GoodDir(es, home, x) && i !in home && i != x
    ensures GoodDir(es, home[i := at], x)
  {
  }

  lemma NewDirIsGood(home: Homes, i: nat)
    ensures GoodDir([Ent(i, DOT), Ent(Up(home, i), DOTDOT)], home, i)
  {
  }

  /** Creating: a fresh inode, its dot entries if it is a directory, and one name. */
  lemma CreateKeepsTree(t: Tree, d: nat, k: nat, name: Name, i: nat, isDir: bool)
    requires IsTree(t) && Vacant(t, d, k, name) && i != 0 && i !in t.live
    ensures IsTree(PutEnt(NewNode(t, i, isDir, d), d, k, Ent(i, name)))
  {
    hide GoodDir;
    var home: Homes, depth: map<nat, nat> :| Shape(t, home, depth);
    var t' := PutEnt(NewNode(t, i, isDir, d), d, k, Ent(i, name));
    var home' := home[i := (d, k)];
    forall x <- t'.dirs ensures GoodDir(t'.dirs[x], home', x) {
      if x == d {
        GoodDirAfterPut(t.dirs[x], home, x, k, i, name);
      } else if x == i {
        NewDirIsGood(home', i);
      } else {
        GoodDirElsewhere(t.dirs[x], home, x, i, (d, k));
      }
    }
    assert Shape(t', home[i := (d, k)], depth[i := depth[d] + 1]);
  }

  /** Forgetting an inode that is named at (d, k), and its records if it has any. */
  function Dropped(t: Tree, d: nat, k: nat, i: nat): Tree
  {
    var p := PutEnt(t, d, k, FREE_ENT);
    Tree(p.live - {i}, p.dirs - {i})
  }

  ghost predicate EmptyDir(es: seq<Ent>)
  {
    forall k :: 0 <= k < |es| ==> !Real(es[k])
  }

  lemma GoodDirAfterClear(es: seq<Ent>, home: Homes, d: nat, k: nat)
    requires GoodDir(es, home, d) && 2 <= k < |es| && es[k].ino != 0 && es[k].ino != d
    ensures GoodDir(es[k := FREE_ENT], home - {es[k].ino}, d)
  {
    PutUnique(es, k, FREE_ENT);
    hide UniqueNames;
  }

  lemma GoodDirWithout(es: seq<Ent>, home: Homes, x: nat, i: nat)
    requires GoodDir(es, home, x) && i in home && home[i].0 != x && i != x
    ensures GoodDir(es, home - {i}, x)
  {
  }

  /** Removing a file, or a directory holding nothing but its dots. */
  lemma UnlinkKeepsTree(t: Tree, i: nat, d: nat, k: nat)
    requires IsTree(t) && NamedAt(t, i, d, k) && (i in t.dirs ==> EmptyDir(t.dirs[i]))
    ensures IsTree(Dropped(t, d, k, i))
  {
    hide GoodDir;
    var home: Homes, depth: map<nat, nat> :| Shape(t, home, depth);
    var t' := Dropped(t, d, k, i);
    NamedIsHome(t, home, depth, i, d, k);
    forall x <- home ensures home[x].0 != i { HomeIsNamed(t, home, depth, x); }
    assert 2 <= k < |t.dirs[d]| && t.dirs[d][k].ino == i;
    hide NamedAt;
    forall x <- t'.dirs ensures GoodDir(t'.dirs[x], home - {i}, x) {
      if x == d { GoodDirAfterClear(t.dirs[d], home, d, k); } else { GoodDirWithout(t.dirs[x], home, x, i); }
    }
    assert Shape(t', home - {i}, depth - {i});
  }

  /* ---- moving ---- */

  /** Directory `x` after rename: the new name goes in, the old one comes out, and the
      moved inode, if it is a directory, is told who its parent is. */
  function MovedEnts(es: seq<Ent>, x: nat, i: nat, d: nat, k: nat, d2: nat, k2: nat, name: Name): seq<Ent>
  {
    var p := if x == d2 && k2 <= |es| then Put(es, k2, Ent(i, name)) else es;
    var q := if x == d && k < |p| then p[k := FREE_ENT] else p;
    if x == i && |q| >= 2 then q[1 := Ent(d2, DOTDOT)] else q
  }

  function Moved(t: Tree, i: nat, d: nat, k: nat, d2: nat, k2: nat, name: Name): Tree
  {
    Tree(t.live, map x | x in t.dirs :: MovedEnts(t.dirs[x], x, i, d, k, d2, k2, name))
  }

  function UpTo(home: Homes, x: nat, n: nat): nat
    decreases n
  {
    if n == 0 then x else UpTo(home, Up(home, x), n - 1)
  }

  lemma {:induction false} ClimbIsUpTo(t: Tree, home: Homes, depth: map<nat, nat>, x: nat, n: nat)
    requires Shape(t, home, depth) && x in t.dirs
    ensures Climb(t, x, n) == UpTo(home, x, n)
    decreases n
  {
    assert GoodDir(t.dirs[x], home, x);
    if n > 0 { ClimbIsUpTo(t, home, depth, Up(home, x), n - 1); }
  }

  /** `x` is `i`, or somewhere below it. */
  predicate Inside(home: Homes, depth: map<nat, nat>, x: nat, i: nat)
    requires x in depth && i in depth
  {
    depth[x] >= depth[i] && UpTo(home, x, depth[x] - depth[i]) == i
  }

  /** Depths after `i` has been moved under `d2`: everything inside it moves along. */
  function MovedDepth(t: Tree, home: Homes, depth: map<nat, nat>, i: nat, d2: nat): map<nat, nat>
    requires depth.Keys == t.live && i in t.live && d2 in t.live
  {
    map x | x in t.live :: if Inside(home, depth, x, i) then depth[x] - depth[i] + depth[d2] + 1 else depth[x]
  }

  lemma MovedDepthKeys(t: Tree, home: Homes, depth: map<nat, nat>, i: nat, d2: nat)
    requires depth.Keys == t.live && i in t.live && d2 in t.live
    ensures MovedDepth(t, home, depth, i, d2).Keys == t.live
  {
  }

  lemma MovedDepthFits(t: Tree, home: Homes, depth: map<nat, nat>, i: nat, d2: nat, x: nat)
    requires Shape(t, home, depth) && i in home && d2 in t.dirs && x in home
    requires forall n: nat :: Climb(t, d2, n) != i
    ensures var depth' := MovedDepth(t, home, depth, i, d2);
      depth'[ROOT_INO] == 0 && depth'[x] == 1 + depth'[if x == i then d2 else home[x].0]
  {
    hide GoodDir;
    if x == i {
      if depth[d2] >= depth[i] { ClimbIsUpTo(t, home, depth, d2, depth[d2] - depth[i]); }
    } else {
      assert Inside(home, depth, x, i) == Inside(home, depth, home[x].0, i);
    }
  }

  lemma GoodDirAfterMove(es: seq<Ent>, home: Homes, x: nat, i: nat, d: nat, k: nat, d2: nat, k2: nat, name: Name)
    requires GoodDir(es, home, x) && i in home && i != 0 && home[i] == (d, k) && d2 != i && d != i && !IsDot(name)
    requires x == d ==> 2 <= k < |es| && es[k].ino == i
    requires x == d2 ==>
      && 2 <= k2 <= |es| && (k2 < |es| ==> es[k2].ino == 0)
      && forall m :: 0 <= m < |es| && es[m].ino != 0 ==> es[m].name != name
    ensures GoodDir(MovedEnts(es, x, i, d, k, d2, k2, name), home[i := (d2, k2)], x)
  {
    var h := home - {i};
    assert home[i := (d2, k2)] == h[i := (d2, k2)];
    if x == i {
      PutUnique(es, 1, Ent(d2, DOTDOT));
    } else {
      var cleared := if x == d then es[k := FREE_ENT] else es;
      if x == d { GoodDirAfterClear(es, home, d, k); } else { GoodDirWithout(es, home, x, i); }
      hide GoodDir;
      if x == d2 {
        GoodDirAfterPut(cleared, h, x, k2, i, name);
        assert Put(cleared, k2, Ent(i, name)) == MovedEnts(es, x, i, d, k, d2, k2, name);
      } else {
        GoodDirElsewhere(cleared, h, x, i, (d2, k2));
      }
    }
  }

  /** Renaming keeps the tree, as long as `i` is not being moved inside itself. */
  lemma MoveKeepsTree(t: Tree, i: nat, d: nat, k: nat, d2: nat, k2: nat, name: Name)
    requires IsTree(t) && NamedAt(t, i, d, k) && Vacant(t, d2, k2, name)
    requires forall n: nat :: Climb(t, d2, n) != i
    ensures IsTree(Moved(t, i, d, k, d2, k2, name))
  {
    hide GoodDir, MovedEnts;
    var home: Homes, depth: map<nat, nat> :| Shape(t, home, depth);
    NamedIsHome(t, home, depth, i, d, k);
    var t', home' := Moved(t, i, d, k, d2, k2, name), home[i := (d2, k2)];
    assert Climb(t, d2, 0) != i && d != i;
    forall x <- t.dirs ensures GoodDir(t'.dirs[x], home', x) {
      GoodDirAfterMove(t.dirs[x], home, x, i, d, k, d2, k2, name);
    }
    MoveShape(t, home, depth, i, d, k, d2, k2, name);
  }

  /** `x` is where its home says, one deeper than the directory it is in. */
  ghost predicate AtHome(t: Tree, home: Homes, depth: map<nat, nat>, x: nat)
  {
    && x in home && home[x].0 in t.dirs && 2 <= home[x].1 < |t.dirs[home[x].0]|
    && t.dirs[home[x].0][home[x].1].ino == x
    && x in depth && home[x].0 in depth && depth[x] == depth[home[x].0] + 1
  }

  lemma ShapeFrom(t: Tree, home: Homes, depth: map<nat, nat>)
    requires ROOT_INO in t.dirs && t.dirs.Keys <= t.live && 0 !in t.live
    requires home.Keys == t.live - {ROOT_INO} && depth.Keys == t.live && depth[ROOT_INO] == 0
    requires forall d <- t.dirs :: GoodDir(t.dirs[d], home, d)
    requires forall x <- home :: AtHome(t, home, depth, x)
    ensures Shape(t, home, depth)
  {
    hide GoodDir;
  }

  lemma HomeAfterMove(t: Tree, home: Homes, depth: map<nat, nat>, i: nat, d: nat, k: nat, d2: nat, k2: nat,
    name: Name, x: nat)
    requires Shape(t, home, depth) && i in home && home[i] == (d, k) && Vacant(t, d2, k2, name) && x in home
    requires forall n: nat :: Climb(t, d2, n) != i
    ensures AtHome(Moved(t, i, d, k, d2, k2, name), home[i := (d2, k2)], MovedDepth(t, home, depth, i, d2), x)
  {
    hide GoodDir, Climb, MovedDepth;
    MovedDepthFits(t, home, depth, i, d2, x);
    MovedDepthKeys(t, home, depth, i, d2);
    var (e, m) := home[i := (d2, k2)][x];
    if x != i {
      assert t.dirs[e][m].ino == x && t.dirs[d][k].ino == i;
    }
  }

  lemma MoveShape(t: Tree, home: Homes, depth: map<nat, nat>, i: nat, d: nat, k: nat, d2: nat, k2: nat, name: Name)
    requires Shape(t, home, depth) && i in home && home[i] == (d, k) && Vacant(t, d2, k2, name)
    requires forall n: nat :: Climb(t, d2, n) != i
    requires forall x <- t.dirs :: GoodDir(Moved(t, i, d, k, d2, k2, name).dirs[x], home[i := (d2, k2)], x)
    ensures Shape(Moved(t, i, d, k, d2, k2, name), home[i := (d2, k2)], MovedDepth(t, home, depth, i, d2))
  {
    hide GoodDir, Climb, MovedEnts, MovedDepth, AtHome;
    var t', home', depth' := Moved(t, i, d, k, d2, k2, name), home[i := (d2, k2)], MovedDepth(t, home, depth, i, d2);
    MovedDepthKeys(t, home, depth, i, d2);
    MovedDepthFits(t, home, depth, i, d2, i);
    forall x <- home' ensures AtHome(t', home', depth', x) {
      HomeAfterMove(t, home, depth, i, d, k, d2, k2, name, x);
    }
    ShapeFrom(t', home', depth');
  }
}