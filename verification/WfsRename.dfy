/** Renaming (kernel/fs/wfs.c): the new name goes in before the old one comes out. */
module WfsRename {
  import opened WfsLayout
  import opened WfsVolume
  import opened WfsDriver
  import opened WfsTree
  import opened WfsRecords
  import opened WfsDirs
  import opened WfsPaths
  import opened WfsFs

  /* ---- climbing ---- */

  lemma {:induction false} ClimbAdd(t: Tree, d: nat, m: nat, n: nat)
    ensures Climb(t, d, m + n) == Climb(t, Climb(t, d, m), n)
    decreases m
  {
    if m > 0 && d in t.dirs && |t.dirs[d]| >= 2 {
      ClimbAdd(t, t.dirs[d][1].ino, m - 1, n);
    } else if m > 0 {
      ClimbStuck(t, d, m + n);
      ClimbStuck(t, d, n);
    }
  }

  lemma ClimbStuck(t: Tree, d: nat, n: nat)
    requires d !in t.dirs || |t.dirs[d]| < 2
    ensures Climb(t, d, n) == d
  {
  }

  lemma {:induction false} RootStays(t: Tree, n: nat)
    requires IsTree(t)
    ensures Climb(t, ROOT_INO, n) == ROOT_INO
    decreases n
  {
    var home: Homes, depth: map<nat, nat> :| Shape(t, home, depth);
    assert GoodDir(t.dirs[ROOT_INO], home, ROOT_INO);
    if n > 0 { RootStays(t, n - 1); }
  }

  lemma {:induction false} ClimbStaysInDirs(t: Tree, d: nat, n: nat)
    requires IsTree(t) && d in t.dirs
    ensures Climb(t, d, n) in t.dirs
    decreases n
  {
    var home: Homes, depth: map<nat, nat> :| Shape(t, home, depth);
    assert GoodDir(t.dirs[d], home, d);
    if n > 0 { ClimbStaysInDirs(t, t.dirs[d][1].ino, n - 1); }
  }

  /** Two trees whose directories agree on ".." climb alike. */
  lemma {:induction false} ClimbSame(t: Tree, t': Tree, d: nat, n: nat)
    requires t.dirs.Keys == t'.dirs.Keys
    requires forall x <- t.dirs :: |t.dirs[x]| >= 2 && |t'.dirs[x]| >= 2 && t.dirs[x][1] == t'.dirs[x][1]
    ensures Climb(t, d, n) == Climb(t', d, n)
    decreases n
  {
    if n > 0 && d in t.dirs { ClimbSame(t, t', t.dirs[d][1].ino, n - 1); }
  }

  /** `i` is `x` or one of the directories above it. */
  ghost predicate Contains(t: Tree, i: nat, x: nat) { exists n: nat :: Climb(t, x, n) == i }

  /** `x` is at most `n` levels below the root of a tree. */
  ghost predicate NoDeeper(t: Tree, x: nat, n: nat)
  {
    exists home: Homes, depth: map<nat, nat> :: Shape(t, home, depth) && x in depth && depth[x] <= n
  }

  lemma FindSecond(es: seq<Ent>, home: Homes, d: nat)
    requires GoodDir(es, home, d) && d != 0 && Up(home, d) != 0
    ensures FindIdx(es, DOTDOT, 0) == 1
  {
    hide UniqueNames;
    assert !Matches(es[0], DOTDOT) && Matches(es[1], DOTDOT);
    assert FindIdx(es, DOTDOT, 0) == FindIdx(es, DOTDOT, 1);
  }

  lemma ClimbOne(v: Vol, home: Homes, depth: map<nat, nat>, d: nat)
    requires Shape(TreeOf(v), home, depth) && IsDir(v, d) && d != ROOT_INO
    ensures var u := Climb(TreeOf(v), d, 1);
      && Find(v, d, DOTDOT) == Ok(u) && u in TreeOf(v).dirs && u in depth && d in depth && depth[u] + 1 == depth[d]
  {
    EntriesInTree(v, d);
    hide TreeOf, Entries, UniqueNames;
    var t := TreeOf(v);
    assert GoodDir(t.dirs[d], home, d) && d in home && d != 0 && Up(home, d) != 0;
    FindSecond(t.dirs[d], home, d);
    assert Climb(t, d, 1) == Climb(t, t.dirs[d][1].ino, 0);
  }

  lemma StoppedShort(t: Tree, to: nat, steps: nat, ino: nat, n: nat)
    requires IsTree(t) && n >= steps && Climb(t, to, steps) != ino && ino != ROOT_INO
    requires Climb(t, to, steps) == ROOT_INO || Climb(t, to, steps) !in t.dirs
    ensures Climb(t, to, n) != ino
  {
    hide IsTree;
    ClimbAdd(t, to, steps, n - steps);
    if Climb(t, to, steps) == ROOT_INO {
      RootStays(t, n - steps);
    } else {
      ClimbStuck(t, Climb(t, to, steps), n - steps);
    }
  }

  /** Walk up from `to`, at most 256 steps.  A path of at most 255 bytes cannot reach so
      deep that this gives up early, so the answer is exact. */
  method IsInside(w: Wfs, ino: nat, to: nat) returns (inside: bool)
    requires Good(w) && IsTree(TreeOf(w.V())) && ino != ROOT_INO && NoDeeper(TreeOf(w.V()), to, 127)
    modifies w
    ensures w.V() == old(w.V()) && w.owner == old(w.owner)
    ensures inside <==> Contains(TreeOf(w.V()), ino, to)
  {
    hide Own, Tidy, DirShape, TreeOf, IsTree, Shape, Climb, Find;
    ghost var t := TreeOf(w.V());
    TreeDirs(w.V());
    ghost var home: Homes, depth: map<nat, nat> :| Shape(t, home, depth) && to in depth && depth[to] <= 127;
    ClimbNone(t, to);
    var at, steps := to, 0;
    while steps < 256
      invariant w.V() == old(w.V()) && w.owner == old(w.owner)
      invariant at == Climb(t, to, steps) && at in depth && depth[at] + steps == depth[to]
      invariant forall n: nat :: n < steps ==> Climb(t, to, n) != ino
    {
      if at == ino {
        return true;
      }
      if at == ROOT_INO {
        break;
      }
      var up := DirFind(w, at, DOTDOT);
      if !IsDir(w.V(), at) { NotADir(w.V(), at, DOTDOT); } else { ClimbOne(w.V(), home, depth, at); }
      if up.Err? || up.value == at {
        break;
      }
      ClimbAdd(t, to, steps, 1);
      at, steps := up.value, steps + 1;
    }
    forall n: nat ensures Climb(t, to, n) != ino {
      if n >= steps { StoppedShort(t, to, steps, ino, n); }
    }
    return false;
  }

  lemma ClimbNone(t: Tree, d: nat)
    ensures Climb(t, d, 0) == d
  {
  }

  lemma NotADir(v: Vol, d: nat, name: Name)
    requires !IsDir(v, d)
    ensures Find(v, d, name).Err?
  {
  }

  /* ---- names along the way ---- */

  ghost predicate HasName(t: Tree, i: nat) { exists d, k :: NamedAt(t, i, d, k) }

  lemma StillNamed(t: Tree, i: nat, d: nat, k: nat, d2: nat, k2: nat, e: Ent)
    requires NamedAt(t, i, d, k) && (d2, k2) != (d, k)
    ensures NamedAt(PutEnt(t, d2, k2, e), i, d, k) && HasName(PutEnt(t, d2, k2, e), i)
  {
    assert NamedAt(PutEnt(t, d2, k2, e), i, d, k);
  }

  lemma NewlyNamed(t: Tree, i: nat, d: nat, k: nat, name: Name)
    requires d in t.dirs && k <= |t.dirs[d]| && i != 0 && !IsDot(name)
    ensures NamedAt(PutEnt(t, d, k, Ent(i, name)), i, d, k) && HasName(PutEnt(t, d, k, Ent(i, name)), i)
  {
    assert NamedAt(PutEnt(t, d, k, Ent(i, name)), i, d, k);
  }

  /** A name that occurs once is found where it is. */
  lemma FindUnique(es: seq<Ent>, name: Name, k: nat)
    requires UniqueNames(es) && k < |es| && Matches(es[k], name)
    ensures FindIdx(es, name, 0) == k
  {
    var m := FindIdx(es, name, 0);
    assert m <= k;
  }

  /** An inode nothing names is not part of a tree. */
  lemma NamelessIsNoTree(t: Tree, i: nat)
    requires i in t.live && i != ROOT_INO && !HasName(t, i)
    ensures !IsTree(t)
  {
    if IsTree(t) {
      var home: Homes, depth: map<nat, nat> :| Shape(t, home, depth);
      HomeIsNamed(t, home, depth, i);
      assert false;
    }
  }

  /** Tell a directory who its parent is now: ".." comes out and goes back in, in the
      same slot, which therefore cannot fail. */
  method SetParent(w: Wfs, i: nat, parent: nat, now: nat) returns (ghost mid: Tree)
    requires Good(w) && IsDir(w.V(), i) && parent < |w.inodes|
    requires var es := Entries(w.V(), i); |es| >= 2 && es[0] == Ent(i, DOT) && es[1].ino != 0 && es[1].name == DOTDOT
    modifies w
    ensures Good(w) && Untouched(old(w.V()), w.V(), {i}) && Live(w.V()) == Live(old(w.V()))
    ensures mid == PutEnt(TreeOf(old(w.V())), i, 1, FREE_ENT)
    ensures TreeOf(w.V()) == PutEnt(TreeOf(old(w.V())), i, 1, Ent(parent, DOTDOT))
  {
    hide Own, Tidy, DirShape, Untouched, TreeOf;
    ghost var v, t := w.V(), TreeOf(w.V());
    EntriesInTree(v, i);
    ghost var es := Entries(v, i);
    hide Entries;
    assert !Matches(es[0], DOTDOT) && FindIdx(es, DOTDOT, 0) == FindIdx(es, DOTDOT, 1) == 1;
    var a := DirRemove(w, i, DOTDOT, now);
    mid := TreeOf(w.V());
    ghost var v1 := w.V();
    assert i in Live(v) && i in Live(v1);
    EntriesInTree(v1, i);
    OwnFacts(v1, w.owner);
    assert Entries(v1, i) == es[1 := FREE_ENT];
    assert FreeIdx(es[1 := FREE_ENT], 0) == FreeIdx(es[1 := FREE_ENT], 1) == 1;
    UntouchedInode(v, v1, {i}, 0);
    a := DirAdd(w, i, DOTDOT, parent, now);
    UntouchedTrans(v, v1, w.V(), {i}, {i});
    assert {i} + {i} == {i};
    assert es[1 := FREE_ENT][1 := Ent(parent, DOTDOT)] == es[1 := Ent(parent, DOTDOT)];
    assert TreeOf(w.V()).dirs == t.dirs[i := es[1 := Ent(parent, DOTDOT)]];
  }

  /* ---- the move itself ---- */

  /** What a tree says about an inode found under a real name. */
  lemma MovedFacts(t: Tree, i: nat, d: nat, k: nat)
    requires IsTree(t) && NamedAt(t, i, d, k)
    ensures i in t.live && i != ROOT_INO && i != 0 && i != d && d != 0 && UniqueNames(t.dirs[d])
    ensures i in t.dirs ==> |t.dirs[i]| >= 2 && t.dirs[i][0] == Ent(i, DOT) && t.dirs[i][1] == Ent(d, DOTDOT)
  {
    var home: Homes, depth: map<nat, nat> :| Shape(t, home, depth);
    NamedIsHome(t, home, depth, i, d, k);
    assert GoodDir(t.dirs[d], home, d);
    if i in t.dirs { assert GoodDir(t.dirs[i], home, i); }
  }

  /** The three writes of a rename, one after the other, make the moved tree. */
  lemma MoveSteps(t: Tree, i: nat, d: nat, k: nat, d2: nat, k2: nat, name: Name)
    requires d in t.dirs && d2 in t.dirs && k < |t.dirs[d]| && k2 <= |t.dirs[d2]| && i != d && i != d2
    requires d == d2 ==> k != k2
    requires i in t.dirs ==> |t.dirs[i]| >= 2 && t.dirs[i][1] == Ent(d, DOTDOT)
    ensures var t2 := PutEnt(PutEnt(t, d2, k2, Ent(i, name)), d, k, FREE_ENT);
      Moved(t, i, d, k, d2, k2, name) == if i in t.dirs && d != d2 then PutEnt(t2, i, 1, Ent(d2, DOTDOT)) else t2
  {
    var t2 := PutEnt(PutEnt(t, d2, k2, Ent(i, name)), d, k, FREE_ENT);
    var t3 := if i in t.dirs && d != d2 then PutEnt(t2, i, 1, Ent(d2, DOTDOT)) else t2;
    var m := Moved(t, i, d, k, d2, k2, name);
    forall x <- t.dirs ensures m.dirs[x] == t3.dirs[x] { }
    assert m.dirs == t3.dirs;
  }

  /** Taking an inode's only name away, when the new one went into a plain file, leaves
      it with none. */
  lemma NameLost(t: Tree, i: nat, d: nat, k: nat, e: Ent)
    requires IsTree(t) && NamedAt(t, i, d, k) && IsDot(e.name)
    ensures !IsTree(PutEnt(t, d, k, FREE_ENT)) && !IsTree(PutEnt(PutEnt(t, d, k, FREE_ENT), i, 1, e))
  {
    hide IsTree, NamedAt, PutEnt;
    MovedFacts(t, i, d, k);
    var t1 := PutEnt(t, d, k, FREE_ENT);
    var t2 := PutEnt(t1, i, 1, e);
    LiveAfterPut(t, d, k, FREE_ENT);
    LiveAfterPut(t1, i, 1, e);
    forall d': nat, k': nat ensures !NamedAt(t1, i, d', k') && !NamedAt(t2, i, d', k') {
      NamedBefore(t, d, k, FREE_ENT, i, d', k');
      NamedBefore(t1, i, 1, e, i, d', k');
      if NamedAt(t, i, d', k') { NamedHere(t, i, d, k, d', k'); }
    }
    NamelessIsNoTree(t1, i);
    NamelessIsNoTree(t2, i);
  }

  lemma LiveAfterPut(t: Tree, d: nat, k: nat, e: Ent)
    ensures PutEnt(t, d, k, e).live == t.live
  {
  }

  /** An entry that names nothing gives no name. */
  lemma NamedBefore(t: Tree, d: nat, k: nat, e: Ent, i: nat, d': nat, k': nat)
    requires !Real(e)
    ensures NamedAt(PutEnt(t, d, k, e), i, d', k') ==> NamedAt(t, i, d', k') && (d', k') != (d, k)
  {
  }

  lemma NamedHere(t: Tree, i: nat, d: nat, k: nat, d': nat, k': nat)
    requires IsTree(t) && NamedAt(t, i, d, k) && NamedAt(t, i, d', k')
    ensures d' == d && k' == k
  {
    hide NamedAt, GoodDir;
    var home: Homes, depth: map<nat, nat> :| Shape(t, home, depth);
    NamedIsHome(t, home, depth, i, d, k);
    NamedIsHome(t, home, depth, i, d', k');
  }

  lemma OldNameStays(t: Tree, i: nat, d: nat, k: nat, name: Name, d2: nat, k2: nat, name2: Name)
    requires d in t.dirs && UniqueNames(t.dirs[d]) && k < |t.dirs[d]| && Matches(t.dirs[d][k], name)
    requires Vacant(t, d2, k2, name2) && (d == d2 ==> name != name2)
    ensures d in PutEnt(t, d2, k2, Ent(i, name2)).dirs
    ensures FindIdx(PutEnt(t, d2, k2, Ent(i, name2)).dirs[d], name, 0) == k
  {
    if d == d2 { PutUnique(t.dirs[d], k2, Ent(i, name2)); }
    FindUnique(PutEnt(t, d2, k2, Ent(i, name2)).dirs[d], name, k);
  }

  /** Along the way of a rename `i` is named: first at its old place, then at both, then at the new one. */
  lemma NamedThroughout(t: Tree, i: nat, d: nat, k: nat, d2: nat, k2: nat, name: Name)
    requires IsTree(t) && NamedAt(t, i, d, k) && Vacant(t, d2, k2, name) && i != d2
    ensures var t1 := PutEnt(t, d2, k2, Ent(i, name));
      var t2 := PutEnt(t1, d, k, FREE_ENT);
      HasName(t1, i) && HasName(t2, i) && HasName(PutEnt(t2, i, 1, FREE_ENT), i)
        && HasName(PutEnt(t2, i, 1, Ent(d2, DOTDOT)), i)
  {
    MovedFacts(t, i, d, k);
    assert (d2, k2) != (d, k);
    hide IsTree, HasName;
    var t1 := PutEnt(t, d2, k2, Ent(i, name));
    var t2 := PutEnt(t1, d, k, FREE_ENT);
    NewlyNamed(t, i, d2, k2, name);
    StillNamed(t1, i, d2, k2, d, k, FREE_ENT);
    StillNamed(t2, i, d2, k2, i, 1, FREE_ENT);
    StillNamed(t2, i, d2, k2, i, 1, Ent(d2, DOTDOT));
  }

  /** The trees a rename goes through: the new name in, the old one out, ".." set. */
  function Step1(t: Tree, i: nat, d2: nat, k2: nat, name2: Name, isDir2: bool): Tree
  {
    if isDir2 then PutEnt(t, d2, k2, Ent(i, name2)) else t
  }

  function Step2(t: Tree, i: nat, d: nat, k: nat, d2: nat, k2: nat, name2: Name, isDir2: bool): Tree
  {
    PutEnt(Step1(t, i, d2, k2, name2, isDir2), d, k, FREE_ENT)
  }

  function Step3(t: Tree, i: nat, d: nat, k: nat, d2: nat, k2: nat, name2: Name, isDir2: bool): Tree
  {
    var t2 := Step2(t, i, d, k, d2, k2, name2, isDir2);
    if i in t.dirs && d != d2 then PutEnt(t2, i, 1, Ent(d2, DOTDOT)) else t2
  }

  /** After the second step the moved directory still has its dots. */
  lemma Step2Dots(t: Tree, i: nat, d: nat, k: nat, d2: nat, k2: nat, name2: Name, isDir2: bool)
    requires IsTree(t) && NamedAt(t, i, d, k) && i in t.dirs && i != d2
    ensures var t2 := Step2(t, i, d, k, d2, k2, name2, isDir2);
      i in t2.dirs && |t2.dirs[i]| >= 2 && t2.dirs[i][0] == Ent(i, DOT) && t2.dirs[i][1] == Ent(d, DOTDOT) && d != 0
  {
    MovedFacts(t, i, d, k);
    hide IsTree;
  }

  /** Into a directory: the old name is still found, the result is a tree, and `i` is
      named at every step. */
  lemma MoveInto(t: Tree, i: nat, d: nat, k: nat, name: Name, d2: nat, k2: nat, name2: Name)
    requires IsTree(t) && NamedAt(t, i, d, k) && t.dirs[d][k].name == name && Vacant(t, d2, k2, name2)
    requires (d == d2 ==> name != name2) && forall n: nat :: Climb(t, d2, n) != i
    ensures var t1 := Step1(t, i, d2, k2, name2, true);
      d in t1.dirs && FindIdx(t1.dirs[d], name, 0) == k && HasName(t1, i)
    ensures var t2 := Step2(t, i, d, k, d2, k2, name2, true);
      HasName(t2, i) && HasName(PutEnt(t2, i, 1, FREE_ENT), i)
    ensures var t3 := Step3(t, i, d, k, d2, k2, name2, true);
      HasName(t3, i) && IsTree(t3) && t3 == Moved(t, i, d, k, d2, k2, name2)
  {
    MovedFacts(t, i, d, k);
    ClimbNone(t, d2);
    hide IsTree, Climb, HasName, Moved;
    OldNameStays(t, i, d, k, name, d2, k2, name2);
    NamedThroughout(t, i, d, k, d2, k2, name2);
    MoveKeepsTree(t, i, d, k, d2, k2, name2);
    MoveSteps(t, i, d, k, d2, k2, name2);
  }

  /** The tree after each write of a move, in order. */
  function MoveTrace(t: Tree, i: nat, d: nat, k: nat, d2: nat, k2: nat, name2: Name, isDir2: bool): seq<Tree>
  {
    var t2 := Step2(t, i, d, k, d2, k2, name2, isDir2);
    [Step1(t, i, d2, k2, name2, isDir2), t2]
    + if i in t.dirs && d != d2 then [PutEnt(t2, i, 1, FREE_ENT), Step3(t, i, d, k, d2, k2, name2, isDir2)] else []
  }

  lemma TraceIs(t: Tree, t1: Tree, t3: Tree, i: nat, d: nat, k: nat, d2: nat, k2: nat, name2: Name, isDir2: bool,
    trace: seq<Tree>)
    requires t1 == Step1(t, i, d2, k2, name2, isDir2) && t1.dirs.Keys == t.dirs.Keys
    requires var t2 := PutEnt(t1, d, k, FREE_ENT);
      if i in t.dirs && d != d2 then t3 == PutEnt(t2, i, 1, Ent(d2, DOTDOT))
        && trace == [t1] + [t2, PutEnt(t2, i, 1, FREE_ENT), t3]
      else trace == [t1] + [t2]
    requires !(i in t.dirs && d != d2) ==> t3 == PutEnt(t1, d, k, FREE_ENT)
    ensures trace == MoveTrace(t, i, d, k, d2, k2, name2, isDir2) && t3 == Step3(t, i, d, k, d2, k2, name2, isDir2)
  {
    hide PutEnt;
  }

  /** The slot in a plain file does not matter. */
  lemma TraceElsewhere(t: Tree, i: nat, d: nat, k: nat, d2: nat, k2: nat, name2: Name)
    ensures MoveTrace(t, i, d, k, d2, k2, name2, false) == MoveTrace(t, i, d, k, d2, 0, name2, false)
  {
  }

  /** The outcome of the move: a tree, and a name at every step, exactly when `d2` is a directory. */
  ghost predicate MoveOutcome(v: Vol, t': Tree, i: nat, d: nat, name: Name, d2: nat, name2: Name, trace: seq<Tree>)
  {
    && d < |v.inodes| && d2 < |v.inodes|
    && trace == MoveTrace(TreeOf(v), i, d, FindIdx(Entries(v, d), name, 0), d2, FreeIdx(Entries(v, d2), 0), name2,
      IsDir(v, d2))
    && if IsDir(v, d2) then
         && t' == Moved(TreeOf(v), i, d, FindIdx(Entries(v, d), name, 0), d2, FreeIdx(Entries(v, d2), 0), name2)
         && IsTree(t') && forall s <- trace :: HasName(s, i)
       else !IsTree(t')
  }

  /** A rename of `i` from slot `k` of `d` to slot `k2` of `d2` that may go ahead. */
  ghost predicate MayMove(t: Tree, i: nat, d: nat, k: nat, name: Name, d2: nat, k2: nat, name2: Name, isDir2: bool)
  {
    && IsTree(t) && NamedAt(t, i, d, k) && t.dirs[d][k].name == name
    && (isDir2 ==> Vacant(t, d2, k2, name2)) && (isDir2 <==> d2 in t.dirs)
    && (d == d2 ==> name != name2) && (isDir2 ==> forall n: nat :: Climb(t, d2, n) != i)
  }

  /** What the writes of a rename find: the old name where it was, the dots where they belong. */
  lemma MoveTreePlan(t: Tree, i: nat, d: nat, k: nat, name: Name, d2: nat, k2: nat, name2: Name, isDir2: bool)
    requires MayMove(t, i, d, k, name, d2, k2, name2, isDir2)
    ensures var t1 := Step1(t, i, d2, k2, name2, isDir2);
      t1.live == t.live && t1.dirs.Keys == t.dirs.Keys && d in t1.dirs
        && FindIdx(t1.dirs[d], name, 0) == k < |t1.dirs[d]|
    ensures var t2 := Step2(t, i, d, k, d2, k2, name2, isDir2);
      && t2.dirs.Keys == t.dirs.Keys
      && (i in t.dirs ==>
        |t2.dirs[i]| >= 2 && t2.dirs[i][0] == Ent(i, DOT) && t2.dirs[i][1] == Ent(d, DOTDOT) && d != 0)
  {
    MovedFacts(t, i, d, k);
    ClimbNone(t, d2);
    if i in t.dirs { Step2Dots(t, i, d, k, d2, k2, name2, isDir2); }
    hide IsTree, Climb;
    if isDir2 { OldNameStays(t, i, d, k, name, d2, k2, name2); } else { FindUnique(t.dirs[d], name, k); }
  }

  /** The tree at the end of a rename, and the names along the way. */
  lemma MoveTreeOutcome(t: Tree, i: nat, d: nat, k: nat, name: Name, d2: nat, k2: nat, name2: Name, isDir2: bool)
    requires MayMove(t, i, d, k, name, d2, k2, name2, isDir2)
    ensures var t1, t2, t3 := Step1(t, i, d2, k2, name2, isDir2), Step2(t, i, d, k, d2, k2, name2, isDir2),
      Step3(t, i, d, k, d2, k2, name2, isDir2);
      if isDir2 then
        && t3 == Moved(t, i, d, k, d2, k2, name2) && IsTree(t3)
        && HasName(t1, i) && HasName(t2, i) && HasName(PutEnt(t2, i, 1, FREE_ENT), i) && HasName(t3, i)
      else !IsTree(t3)
  {
    hide IsTree, Climb, NamedAt, HasName, Moved;
    if isDir2 {
      MoveInto(t, i, d, k, name, d2, k2, name2);
    } else {
      NameLost(t, i, d, k, Ent(d2, DOTDOT));
    }
  }

  lemma MovePlan(v: Vol, i: nat, d: nat, name: Name, d2: nat, name2: Name)
    requires IsTree(TreeOf(v)) && Find(v, d, name) == Ok(i) && !IsDot(name) && d2 in Live(v) && Find(v, d2, name2).Err?
    requires d == d2 ==> name != name2
    requires IsDir(v, d2) ==> forall n: nat :: Climb(TreeOf(v), d2, n) != i
    ensures IsDir(v, d) && i in Live(v)
    ensures MayMove(TreeOf(v), i, d, FindIdx(Entries(v, d), name, 0), name, d2, FreeIdx(Entries(v, d2), 0), name2,
      IsDir(v, d2))
  {
    FoundIsNamed(v, d, name);
    EntriesInTree(v, d);
    TreeDirs(v);
    if IsDir(v, d2) { VacantSlot(v, d2, name2); }
    assert FindIdx(Entries(v, d), name, 0) < |Entries(v, d)|;
    hide IsTree, TreeOf, Climb, Entries, NamedAt, Vacant;
  }

  lemma MovedWell(v: Vol, t': Tree, i: nat, d: nat, name: Name, d2: nat, name2: Name, trace: seq<Tree>)
    requires d < |v.inodes| && d2 < |v.inodes|
    requires MayMove(TreeOf(v), i, d, FindIdx(Entries(v, d), name, 0), name, d2, FreeIdx(Entries(v, d2), 0), name2,
      IsDir(v, d2))
    requires trace == MoveTrace(TreeOf(v), i, d, FindIdx(Entries(v, d), name, 0), d2, FreeIdx(Entries(v, d2), 0),
      name2, IsDir(v, d2))
    requires t' == Step3(TreeOf(v), i, d, FindIdx(Entries(v, d), name, 0), d2, FreeIdx(Entries(v, d2), 0), name2,
      IsDir(v, d2))
    ensures MoveOutcome(v, t', i, d, name, d2, name2, trace)
  {
    hide TreeOf, IsTree, Moved, HasName, MayMove, Entries, FindIdx, FreeIdx, PutEnt, Step1, Step2, Step3;
    MoveTreeOutcome(TreeOf(v), i, d, FindIdx(Entries(v, d), name, 0), name, d2, FreeIdx(Entries(v, d2), 0), name2,
      IsDir(v, d2));
  }

  /** The inodes a move writes to: both parents, and the moved inode only if it is a
      directory that has to learn its new parent. */
  function Writes(v: Vol, i: nat, d: nat, d2: nat): set<nat>
  {
    if IsDir(v, i) then {d, d2, i} else {d, d2}
  }

  /** Take the old name out, and give a directory that changed parents its new "..". */
  method TakeOldName(w: Wfs, i: nat, d: nat, name: Name, d2: nat, now: nat, ghost k: nat)
    returns (r: Result<()>, ghost trace: seq<Tree>)
    requires Good(w) && IsDir(w.V(), d) && i in Live(w.V()) && d2 in Live(w.V())
    requires FindIdx(Entries(w.V(), d), name, 0) == k < |Entries(w.V(), d)|
    requires IsDir(w.V(), i) ==>
      var t2 := PutEnt(TreeOf(w.V()), d, k, FREE_ENT);
      i in t2.dirs && |t2.dirs[i]| >= 2 && t2.dirs[i][0] == Ent(i, DOT) && t2.dirs[i][1] == Ent(d, DOTDOT) && d != 0
    modifies w
    ensures Good(w) && Untouched(old(w.V()), w.V(), Writes(old(w.V()), i, d, d2)) && r.Ok?
    ensures var t2 := PutEnt(TreeOf(old(w.V())), d, k, FREE_ENT);
      if IsDir(old(w.V()), i) && d != d2
      then TreeOf(w.V()) == PutEnt(t2, i, 1, Ent(d2, DOTDOT))
        && trace == [t2, PutEnt(t2, i, 1, FREE_ENT), TreeOf(w.V())]
      else TreeOf(w.V()) == t2 && trace == [t2]
  {
    hide Own, Tidy, DirShape, Untouched, TreeOf, Entries, FindIdx;
    ghost var v := w.V();
    TreeDirs(v);
    r := DirRemove(w, d, name, now);
    ghost var v1 := w.V();
    TreeDirs(v1);
    assert i in Live(v1) && d2 in Live(v1);
    UntouchedMore(v, v1, {d}, Writes(v, i, d, d2));
    trace := [TreeOf(v1)];
    if w.inodes[i].typ == Dir && d != d2 {
      EntriesInTree(v1, i);
      ghost var mid := SetParent(w, i, d2, now);
      UntouchedTrans(v, v1, w.V(), Writes(v, i, d, d2), {i});
      assert Writes(v, i, d, d2) + {i} == Writes(v, i, d, d2);
      trace := trace + [mid, TreeOf(w.V())];
    }
  }

  /** Put the new name in, take the old one out, and fix up "..".  `trace` is the tree
      after each write. */
  method MoveEntry(w: Wfs, i: nat, d: nat, name: Name, d2: nat, name2: Name, now: nat)
    returns (r: Result<()>, ghost trace: seq<Tree>)
    requires Good(w) && IsTree(TreeOf(w.V())) && Find(w.V(), d, name) == Ok(i) && !IsDot(name)
    requires d2 in Live(w.V()) && Find(w.V(), d2, name2).Err? && GoodName(name2)
    requires d == d2 ==> name != name2
    requires IsDir(w.V(), d2) ==> forall n: nat :: Climb(TreeOf(w.V()), d2, n) != i
    modifies w
    ensures Good(w) && Untouched(old(w.V()), w.V(), Writes(old(w.V()), i, d, d2))
    ensures r.Err? ==> TreeOf(w.V()) == TreeOf(old(w.V()))
    ensures r.Ok? ==> MoveOutcome(old(w.V()), TreeOf(w.V()), i, d, name, d2, name2, trace)
    ensures r.Err? && IsDir(old(w.V()), d2) ==> FreeIdx(Entries(old(w.V()), d2), 0) == |Entries(old(w.V()), d2)|
    ensures r.Err? ==> NoSlot(old(w.V()), w.V(), d2, r.error)
    ensures IsDir(old(w.V()), d2) ==> (r.Ok? <==> SlotFits(old(w.V()), d2))
  {
    hide Own, Tidy, DirShape, Untouched, TreeOf, IsTree, Moved, HasName, Climb, Find, Entries, MayMove, NoSlot,
      MoveTrace, MoveOutcome, RecordAccounted, SlotFits;
    ghost var v, t := w.V(), TreeOf(w.V());
    MovePlan(v, i, d, name, d2, name2);
    ghost var k, k2 := FindIdx(Entries(v, d), name, 0), FreeIdx(Entries(v, d2), 0);
    MoveTreePlan(t, i, d, k, name, d2, k2, name2, IsDir(v, d2));
    OwnFacts(v, w.owner);
    TreeDirs(v);
    trace := [];
    r := DirAdd(w, d2, name2, i, now);
    ghost var v1 := w.V();
    if IsDir(v, d2) { SlotAccounted(v, v1, d2, r); }
    UntouchedMore(v, v1, {d2}, Writes(v, i, d, d2));
    if r.Err? {
      return;
    }
    TreeDirs(v1);
    EntriesInTree(v1, d);
    assert TreeOf(v1) == Step1(t, i, d2, k2, name2, IsDir(v, d2));
    hide FindIdx;
    r, trace := TakeOldName(w, i, d, name, d2, now, k);
    UntouchedTrans(v, v1, w.V(), Writes(v, i, d, d2), Writes(v1, i, d, d2));
    assert IsDir(v1, i) == IsDir(v, i);
    assert Writes(v, i, d, d2) + Writes(v1, i, d, d2) == Writes(v, i, d, d2);
    trace := [TreeOf(v1)] + trace;
    TraceIs(t, TreeOf(v1), TreeOf(w.V()), i, d, k, d2, k2, name2, IsDir(v, d2), trace);
    MovedWell(v, TreeOf(w.V()), i, d, name, d2, name2, trace);
  }

  /* ---- replacing a file that is in the way ---- */

  lemma ClearedName(es: seq<Ent>, k: nat, name: Name)
    requires UniqueNames(es) && k < |es| && Matches(es[k], name)
    ensures FindIdx(es[k := FREE_ENT], name, 0) == |es| && FreeIdx(es[k := FREE_ENT], 0) < |es|
  {
    var es' := es[k := FREE_ENT];
    assert forall m :: 0 <= m < |es'| ==> !Matches(es'[m], name);
    assert es'[k].ino == 0;
  }

  /** With the file in the way gone, the way up is the same. */
  lemma AfterVictimClimb(t: Tree, d2: nat, kx: nat, x: nat, n: nat)
    requires IsTree(t) && NamedAt(t, x, d2, kx) && x !in t.dirs
    ensures Dropped(t, d2, kx, x).dirs == PutEnt(t, d2, kx, FREE_ENT).dirs
    ensures Climb(Dropped(t, d2, kx, x), d2, n) == Climb(t, d2, n)
  {
    VictimSlot(t, x, d2, kx);
    hide IsTree, Climb;
    assert Dropped(t, d2, kx, x).dirs == PutEnt(t, d2, kx, FREE_ENT).dirs;
    ClimbSame(t, Dropped(t, d2, kx, x), d2, n);
  }

  /** And `i` is where it was, and the name it wants is free. */
  lemma AfterVictim(t: Tree, i: nat, d: nat, k: nat, name: Name, d2: nat, kx: nat, name2: Name, x: nat)
    requires IsTree(t) && NamedAt(t, i, d, k) && t.dirs[d][k].name == name
    requires NamedAt(t, x, d2, kx) && t.dirs[d2][kx].name == name2 && x !in t.dirs && x != i
    ensures var t1 := Dropped(t, d2, kx, x);
      && IsTree(t1) && t1.dirs.Keys == t.dirs.Keys
      && FindIdx(t1.dirs[d], name, 0) == k < |t1.dirs[d]| && t1.dirs[d][k] == t.dirs[d][k]
      && FindIdx(t1.dirs[d2], name2, 0) == |t1.dirs[d2]| && FreeIdx(t1.dirs[d2], 0) < |t1.dirs[d2]|
      && HasName(t1, i) && HasName(PutEnt(t, d2, kx, FREE_ENT), i)
  {
    var t1 := Dropped(t, d2, kx, x);
    hide IsTree, Climb, Dropped;
    MovedFacts(t, i, d, k);
    MovedFacts(t, x, d2, kx);
    UnlinkKeepsTree(t, x, d2, kx);
    AfterVictimClimb(t, d2, kx, x, 0);
    StillNamed(t, i, d, k, d2, kx, FREE_ENT);
    assert NamedAt(t1, i, d, k);
    PutUnique(t.dirs[d2], kx, FREE_ENT);
    FindUnique(t1.dirs[d], name, k);
    ClearedName(t.dirs[d2], kx, name2);
  }

  lemma VictimSlot(t: Tree, x: nat, d2: nat, kx: nat)
    requires IsTree(t) && NamedAt(t, x, d2, kx)
    ensures kx >= 2 && forall d <- t.dirs :: |t.dirs[d]| >= 2
  {
    var home: Homes, depth: map<nat, nat> :| Shape(t, home, depth);
    NamedIsHome(t, home, depth, x, d2, kx);
    forall d <- t.dirs ensures |t.dirs[d]| >= 2 { assert GoodDir(t.dirs[d], home, d); }
  }

  /** Remove the file called `name` in `d`: its entry, its blocks, its inode. */
  method RemoveVictim(w: Wfs, x: nat, d: nat, name: Name, now: nat) returns (ghost mid: Tree)
    requires Good(w) && IsDir(w.V(), d) && x in Live(w.V()) && Find(w.V(), d, name).Ok?
    modifies w
    ensures Good(w) && Untouched(old(w.V()), w.V(), {d, x})
    ensures mid == PutEnt(TreeOf(old(w.V())), d, FindIdx(Entries(old(w.V()), d), name, 0), FREE_ENT)
    ensures TreeOf(w.V()) == Dropped(TreeOf(old(w.V())), d, FindIdx(Entries(old(w.V()), d), name, 0), x)
  {
    hide Own, Tidy, DirShape, Untouched, TreeOf, Entries;
    ghost var v := w.V();
    var _ := DirRemove(w, d, name, now);
    mid := TreeOf(w.V());
    ghost var v1 := w.V();
    Discard(w, x, now);
    UntouchedTrans(v, v1, w.V(), {d}, {x});
    assert {d} + {x} == {d, x};
  }

  /* ---- rename ---- */

  /** The tree the move starts from: without the file that was in the way, if any. */
  function Cleared(v: Vol, d2: nat, name2: Name): Tree
  {
    if Find(v, d2, name2).Ok?
    then Dropped(TreeOf(v), d2, FindIdx(Entries(v, d2), name2, 0), Find(v, d2, name2).value)
    else TreeOf(v)
  }

  /** The inode that is in the way, if there is one. */
  function Victim(v: Vol, d2: nat, name2: Name): set<nat>
  {
    if Find(v, d2, name2).Ok? then {Find(v, d2, name2).value} else {}
  }

  /** The tree after each write of a rename: a file in the way goes first, its entry and then
      the inode itself. */
  function RenameTrace(v: Vol, i: nat, d: nat, name: Name, d2: nat, name2: Name): seq<Tree>
    requires d < |v.inodes| && d2 < |v.inodes|
  {
    var f, c, k := Find(v, d2, name2), Cleared(v, d2, name2), FindIdx(Entries(v, d), name, 0);
    if f == Ok(i) then []
    else
      (if f.Ok? then [PutEnt(TreeOf(v), d2, FindIdx(Entries(v, d2), name2, 0), FREE_ENT), c] else [])
      + MoveTrace(c, i, d, k, d2, if d2 in c.dirs then FreeIdx(c.dirs[d2], 0) else 0, name2, IsDir(v, d2))
  }

  /** What a rename that returned success has done, `i` being what `from` named. */
  ghost predicate Renamed(v: Vol, t': Tree, i: nat, d: nat, name: Name, d2: nat, name2: Name, trace: seq<Tree>)
  {
    && d < |v.inodes| && d2 < |v.inodes| && trace == RenameTrace(v, i, d, name, d2, name2)
    && (IsTree(t') <==> IsDir(v, d2))
    && (IsDir(v, d2) ==>
          && (forall s <- trace :: HasName(s, i))
          && IsDir(v, d) && (forall x <- Victim(v, d2, name2) :: x != i ==> !IsDir(v, x))
          && t' == (if Find(v, d2, name2) == Ok(i) then TreeOf(v)
                    else var c := Cleared(v, d2, name2);
                      Moved(c, i, d, FindIdx(Entries(v, d), name, 0), d2, FreeIdx(c.dirs[d2], 0), name2)))
  }

  /** What a rename answers once it may go ahead: a directory in the way is refused, anything
      else in the way makes room, and otherwise only the want of a slot can stop it, and does. */
  ghost predicate Answers(v: Vol, v': Vol, i: nat, d2: nat, name2: Name, r: Result<()>)
    requires d2 < |v.inodes|
  {
    var f := Find(v, d2, name2);
    if f.Ok? then (if f.value != i && IsDir(v, f.value) then r == Err(EISDIR) else r.Ok?)
    else
      && (r.Err? ==> NoSlot(v, v', d2, r.error))
      && (r.Err? && IsDir(v, d2) ==> FreeIdx(Entries(v, d2), 0) == |Entries(v, d2)|)
      && (IsDir(v, d2) ==> (r.Ok? <==> SlotFits(v, d2)))
  }

  lemma AlreadyThere(v: Vol, i: nat, d: nat, name: Name, d2: nat, name2: Name)
    requires IsTree(TreeOf(v)) && IsDir(v, d) && IsDir(v, d2) && Find(v, d2, name2) == Ok(i)
    ensures Renamed(v, TreeOf(v), i, d, name, d2, name2, [])
  {
    hide IsTree, HasName, Entries, MoveTrace, Find, TreeOf, Moved;
  }

  lemma NothingInTheWay(v: Vol, t': Tree, i: nat, d: nat, name: Name, d2: nat, name2: Name, trace: seq<Tree>)
    requires Find(v, d2, name2).Err? && MoveOutcome(v, t', i, d, name, d2, name2, trace) && IsDir(v, d)
    ensures Renamed(v, t', i, d, name, d2, name2, trace)
  {
    hide IsTree, HasName, Entries, MoveTrace, Find, TreeOf, Moved;
    TreeDirs(v);
    if IsDir(v, d2) {
      EntriesInTree(v, d2);
    } else {
      TraceElsewhere(TreeOf(v), i, d, FindIdx(Entries(v, d), name, 0), d2, FreeIdx(Entries(v, d2), 0), name2);
    }
  }

  lemma OutOfTheWay(v: Vol, v1: Vol, t': Tree, i: nat, d: nat, name: Name, d2: nat, name2: Name, mid: Tree,
    trace: seq<Tree>)
    requires d < |v.inodes| && d2 < |v.inodes| && IsDir(v, d) && IsDir(v, d2) && IsDir(v1, d) && IsDir(v1, d2)
    requires Find(v, d2, name2).Ok? && Find(v, d2, name2).value != i && !IsDir(v, Find(v, d2, name2).value)
    requires TreeOf(v1) == Cleared(v, d2, name2)
      && mid == PutEnt(TreeOf(v), d2, FindIdx(Entries(v, d2), name2, 0), FREE_ENT)
    requires FindIdx(Entries(v1, d), name, 0) == FindIdx(Entries(v, d), name, 0)
    requires MoveOutcome(v1, t', i, d, name, d2, name2, trace) && HasName(mid, i) && HasName(TreeOf(v1), i)
    ensures Renamed(v, t', i, d, name, d2, name2, [mid, TreeOf(v1)] + trace)
  {
    hide IsTree, HasName, Entries, MoveTrace, Find, TreeOf, Moved, PutEnt, Dropped;
    EntriesInTree(v1, d2);
  }

  /** A file in the way goes first, then the entry is moved. */
  method ReplaceAndMove(w: Wfs, i: nat, d: nat, name: Name, d2: nat, name2: Name, now: nat)
    returns (r: Result<()>, ghost trace: seq<Tree>)
    requires Good(w) && IsTree(TreeOf(w.V())) && Find(w.V(), d, name) == Ok(i) && !IsDot(name)
    requires d2 in Live(w.V()) && GoodName(name2) && !IsDot(name2) && (d == d2 ==> name != name2)
    requires IsDir(w.V(), d2) ==> forall n: nat :: Climb(TreeOf(w.V()), d2, n) != i
    modifies w
    ensures Good(w) && Untouched(old(w.V()), w.V(), Writes(old(w.V()), i, d, d2) + Victim(old(w.V()), d2, name2))
    ensures r.Err? ==> TreeOf(w.V()) == TreeOf(old(w.V()))
    ensures r.Ok? ==> Renamed(old(w.V()), TreeOf(w.V()), i, d, name, d2, name2, trace)
    ensures var f := Find(old(w.V()), d2, name2); f.Ok? && (r.Err? || f.value == i) ==> w.V() == old(w.V())
    ensures Answers(old(w.V()), w.V(), i, d2, name2, r)
  {
    hide Own, Tidy, DirShape, Untouched, TreeOf, IsTree, Moved, HasName, Climb, Entries, Dropped, NamedAt, NoSlot,
      MoveTrace, RenameTrace, Renamed, MoveOutcome, SlotFits;
    ghost var v, t := w.V(), TreeOf(w.V());
    trace := [];
    FoundIsNamed(v, d, name);
    EntriesInTree(v, d);
    TreeDirs(v);
    TreeLive(v);
    ghost var all := Writes(v, i, d, d2) + Victim(v, d2, name2);
    UntouchedRefl(v, d);
    UntouchedMore(v, v, {d}, all);
    var f := DirFind(w, d2, name2);
    if f.Err? {
      if IsDir(v, d2) { EntriesInTree(v, d2); }
      r, trace := MoveEntry(w, i, d, name, d2, name2, now);
      UntouchedMore(v, w.V(), Writes(v, i, d, d2), all);
      if r.Ok? { NothingInTheWay(v, TreeOf(w.V()), i, d, name, d2, name2, trace); }
      return;
    }
    var x := f.value;
    FoundIsNamed(v, d2, name2);
    EntriesInTree(v, d2);
    if x == i {
      AlreadyThere(v, i, d, name, d2, name2);
      return Ok(()), [];
    }
    if w.inodes[x].typ == Dir {
      return Err(EISDIR), [];
    }
    ghost var k, kx := FindIdx(Entries(v, d), name, 0), FindIdx(Entries(v, d2), name2, 0);
    AfterVictim(t, i, d, k, name, d2, kx, name2, x);
    forall n: nat { AfterVictimClimb(t, d2, kx, x, n); }
    ghost var mid := RemoveVictim(w, x, d2, name2, now);
    ghost var v1 := w.V();
    TreeDirs(v1);
    TreeLive(v1);
    EntriesInTree(v1, d);
    EntriesInTree(v1, d2);
    UntouchedMore(v, v1, {d2, x}, all);
    r, trace := MoveEntry(w, i, d, name, d2, name2, now);
    UntouchedTrans(v, v1, w.V(), all, Writes(v1, i, d, d2));
    assert IsDir(v1, i) == IsDir(v, i);
    assert all + Writes(v1, i, d, d2) == all;
    assert r.Ok?;
    ghost var moving := trace;
    trace := [mid, TreeOf(v1)] + trace;
    OutOfTheWay(v, v1, TreeOf(w.V()), i, d, name, d2, name2, mid, moving);
  }

  /** The parents both paths name are live and near enough to the root for the walk up. */
  lemma ResolvedNearRoot(v: Vol, path: Path)
    requires IsTree(TreeOf(v)) && Resolve(v, path).Ok?
    ensures NoDeeper(TreeOf(v), Resolve(v, path).value.0, 127)
  {
    hide Shape, TreeOf, Resolve;
    var home: Homes, depth: map<nat, nat> :| Shape(TreeOf(v), home, depth);
    ResolveDepth(v, home, depth, path);
    DepthKeys(TreeOf(v), home, depth);
    TreeLive(v);
  }

  lemma DepthKeys(t: Tree, home: Homes, depth: map<nat, nat>)
    requires Shape(t, home, depth)
    ensures depth.Keys == t.live
  {
  }

  /** A plain file is nobody's ancestor. */
  lemma FileAboveNothing(v: Vol, i: nat, d2: nat)
    requires IsTree(TreeOf(v)) && !IsDir(v, i) && IsDir(v, d2)
    ensures forall n: nat :: Climb(TreeOf(v), d2, n) != i
  {
    TreeDirs(v);
    hide IsTree, TreeOf, Climb;
    forall n: nat { ClimbStaysInDirs(TreeOf(v), d2, n); }
  }

  /** Give something another name or another place.  On every error the tree is what it
      was.  On success it is a tree exactly when the new parent is a directory, and then
      the moved inode had a name in every state in between. */
  method Rename(w: Wfs, from: Path, to: Path, now: nat) returns (r: Result<()>, ghost trace: seq<Tree>)
    requires Good(w) && IsTree(TreeOf(w.V())) && 0 !in to
    modifies w
    ensures Good(w)
    ensures r.Err? ==> TreeOf(w.V()) == TreeOf(old(w.V()))
    ensures var a, b := Resolve(old(w.V()), from), Resolve(old(w.V()), to);
      if a.Err? then r == Err(a.error) && w.V() == old(w.V())
      else if b.Err? then r == Err(b.error) && w.V() == old(w.V())
      else
        var (d, name) := a.value;
        var (d2, name2) := b.value;
        var f := Find(old(w.V()), d, name);
        if IsDot(name) || IsDot(name2) then r == Err(EINVAL) && w.V() == old(w.V())
        else if f.Err? then r == Err(f.error) && w.V() == old(w.V())
        else if d == d2 && name == name2 then r.Ok? && w.V() == old(w.V())
        else if IsDir(old(w.V()), f.value) && Contains(TreeOf(old(w.V())), f.value, d2) then
          r == Err(EINVAL) && w.V() == old(w.V())
        else
          && Untouched(old(w.V()), w.V(), Writes(old(w.V()), f.value, d, d2) + Victim(old(w.V()), d2, name2))
          && (r.Ok? ==> Renamed(old(w.V()), TreeOf(w.V()), f.value, d, name, d2, name2, trace))
          && d2 < |old(w.V()).inodes| && Answers(old(w.V()), w.V(), f.value, d2, name2, r)
          && (Victim(old(w.V()), d2, name2) != {} && (r.Err? || f.value in Victim(old(w.V()), d2, name2)) ==>
            w.V() == old(w.V()))
  {
    hide Own, Tidy, DirShape, TreeOf, IsTree, Resolve, Climb, Renamed, NoDeeper, NamedAt, Untouched, Answers;
    ghost var v, t := w.V(), TreeOf(w.V());
    trace := [];
    var a := ResolveParent(w, from);
    if a.Err? {
      return Err(a.error), [];
    }
    var b := ResolveParent(w, to);
    if b.Err? {
      return Err(b.error), [];
    }
    var (d, name) := a.value;
    var (d2, name2) := b.value;
    if IsDot(name) || IsDot(name2) {
      return Err(EINVAL), [];
    }
    var f := DirFind(w, d, name);
    if f.Err? {
      return Err(f.error), [];
    }
    var i := f.value;
    FoundIsNamed(v, d, name);
    NamedNotRoot(v, d, name);
    ResolvedParentIsLive(v, to);
    ResolvedNearRoot(v, to);
    if d == d2 && name == name2 {
      return Ok(()), [];
    }
    if w.inodes[i].typ == Dir {
      var inside := IsInside(w, i, d2);
      if inside {
        return Err(EINVAL), [];
      }
    } else if IsDir(v, d2) {
      FileAboveNothing(v, i, d2);
    }
    hide Find;
    r, trace := ReplaceAndMove(w, i, d, name, d2, name2, now);
  }

  lemma NamedNotRoot(v: Vol, d: nat, name: Name)
    requires IsTree(TreeOf(v)) && Find(v, d, name).Ok? && !IsDot(name)
    ensures Find(v, d, name).value != ROOT_INO
  {
    FoundIsNamed(v, d, name);
    hide TreeOf, IsTree, Entries;
    MovedFacts(TreeOf(v), Find(v, d, name).value, d, FindIdx(Entries(v, d), name, 0));
  }
}
