/** Whole runs of the memory file system: the calls answer what `FileSpec` allows of byte strings
    and names, as runs of the disk's file system do. */
module RamRuns {
  import opened WfsLayout
  import opened RamStore
  import opened RamRoom
  import opened RamTree
  import opened RamWalk
  import opened RamFs
  import S = FileSpec
  import W = WfsDriver
  import P = WfsPaths

  function FilesOf(ns: Nodes, ps: Pages): map<nat, seq<Byte>>
  {
    map i | i in ns && ns[i].typ == File :: Contents(ns, ps, i)
  }

  function PlacesOf(ns: Nodes): map<nat, S.Place>
  {
    map i | i in ns && ns[i].parent.Some? :: S.Place(ns[i].parent.value, ns[i].name, ns[i].typ == Dir)
  }

  /** The file system as its callers see it. */
  function AbsOf(ns: Nodes, ps: Pages): S.Fs { S.Fs(FilesOf(ns, ps), PlacesOf(ns)) }

  /** What callers owe: a file they hold, sizes that fit 32 bits, a type. */
  predicate Legal(ns: Nodes, op: S.Op)
  {
    match op
    case Read(i, _, _) => i in ns && ns[i].typ == File
    case Write(i, off, data) => i in ns && ns[i].typ == File && off + |data| < WORD_LIMIT
    case Truncate(i) => i in ns && ns[i].typ == File
    case Create(_, typ) => typ != Free
    case _ => true
  }

  /** The memory file system's own way of reading paths. */
  const HERE: S.Style := S.Memory(MOUNT)

  /** Where files and names alone leave the answer open, memory decides it: a write is whole exactly
      if there is memory for it, takes just that, and otherwise stops at a page that is missing;
      something is made exactly if a number is left and memory for it; and nothing is refused a
      move for want of room. */
  ghost predicate Warranted(s: State, s': State, act: S.Act, out: S.Out)
  {
    match act
    case Put(i, off, data) =>
      out.Count? ==>
        && (out.n == |data| <==> WriteFits(s.ns, i, off, |data|, s.mem))
        && (out.n == |data| > 0 ==> s'.held == s.held + |Missing(s.ns, i, off / PAGE, PagesUpTo(off + |data|))|)
        && (out.n < |data| ==>
              BlockOf(s.ns, i, (off + out.n) / PAGE) == 0 && (out.n == 0 || (off + out.n) % PAGE == 0))
    case Make(d, name, typ) =>
      S.Who(AbsOf(s.ns, s.ps), d, name) == {} ==>
        && (out.Made? <==> s.next < MAX_NODES && s.mem.room > 0) && (out.Made? ==> out.i == s.next)
    case Move(_, _, _, _) => !S.NoRoom(out)
    case _ => true
  }

  ghost function Now(fs: RamFs): State
    reads fs
  {
    State(fs.nodes, fs.pages, fs.held, fs.nextIno, fs.Mem())
  }

  /** One call of a run.  A write that finds no page at all is one of no bytes. */
  method Step(fs: RamFs, op: S.Op) returns (out: S.Out)
    requires fs.Valid() && Legal(fs.nodes, op)
    modifies fs
    ensures fs.Valid() && old(fs.nextIno) <= fs.nextIno
    ensures S.Did(AbsOf(old(fs.nodes), old(fs.pages)), AbsOf(fs.nodes, fs.pages),
      S.ActOf(AbsOf(old(fs.nodes), old(fs.pages)), HERE, op), out)
    ensures Warranted(old(Now(fs)), Now(fs), S.ActOf(AbsOf(old(fs.nodes), old(fs.pages)), HERE, op), out)
  {
    hide Stored, TreeOk, FilesOf, PlacesOf, Contents, Wrote, OthersKept, IsNew, FilesKept, SameShape, SpotOf, Lookup,
      RenameAnswer, Removed, PagesOf, Went, Warranted, WriteAccounted;
    ghost var ns, ps, s := fs.nodes, fs.pages, Now(fs);
    match op
    case Read(i, off, len) =>
      var r := fs.Read(i, off, len);
      out := S.Data(r.value);
      FileIs(ns, ps, i);
      NoMemoryNeeded(s, Now(fs), op, out);
    case Write(i, off, data) =>
      var r := fs.Write(i, off, data);
      out := S.Count(if r.Ok? then r.value else 0);
      AfterWrite(ns, ps, fs.nodes, fs.pages, i, off, data, out.n);
      WriteWarranted(s, Now(fs), i, off, data, out.n);
    case Truncate(i) =>
      var _ := fs.Truncate(i);
      out := S.Done;
      AfterTruncate(ns, ps, fs.nodes, fs.pages, i);
      NoMemoryNeeded(s, Now(fs), op, out);
    case Create(path, typ) =>
      var r := fs.Create(path, typ);
      out := if r.Ok? then S.Made(r.value) else S.Failed(r.error);
      WhoIs(ns, ps, path);
      SpotIs(ns, ps, path);
      CreateWarranted(s, Now(fs), path, typ, out);
      if r.Ok? { AfterCreate(ns, ps, fs.nodes, fs.pages, path, typ, r.value); }
    case Unlink(path) =>
      var r := fs.Unlink(path);
      out := if r.Ok? then S.Done else S.Failed(r.error);
      UnlinkDid(ns, ps, fs.nodes, fs.pages, path, r);
      NoMemoryNeeded(s, Now(fs), op, out);
    case Rename(from, to) =>
      var r := fs.Rename(from, to);
      out := if r.Ok? then S.Done else S.Failed(r.error);
      RenameDid(ns, ps, fs.nodes, fs.pages, from, to, r);
      RenameWarranted(s, Now(fs), from, to, r);
  }

  lemma WriteWarranted(s: State, s': State, i: nat, off: nat, data: seq<Byte>, n: nat)
    requires WriteAccounted(s.ns, s'.ns, i, off, |data|, n, s.mem, s'.mem) && n <= |data|
    requires s'.mem.frames + s'.held == s.mem.frames + s.held
    ensures Warranted(s, s', S.Put(i, off, data), S.Count(n))
  {
    hide WriteFits, Missing, BlockOf, PagesUpTo, Growths, Length, SlotCount;
  }

  lemma CreateWarranted(s: State, s': State, path: Path, typ: FileType, out: S.Out)
    requires TreeOk(s.ns)
    requires var t := SpotOf(s.ns, path);
      out == if t.parent.None? then S.Failed(W.ENOENT)
             else if t.node.Some? then S.Failed(W.EEXIST)
             else if s.next < MAX_NODES && s.mem.room > 0 then S.Made(s.next) else S.Failed(W.ENOSPC)
    ensures Warranted(s, s', ActAt(s, S.Create(path, typ)), out)
  {
    hide TreeOk, SpotOf, AbsOf, S.Where, S.Who;
    WhoIs(s.ns, s.ps, path);
    SpotIs(s.ns, s.ps, path);
  }

  lemma RenameWarranted(s: State, s': State, from: Path, to: Path, r: W.Result<()>)
    requires r == RenameAnswer(s.ns, SpotOf(s.ns, from), SpotOf(s.ns, to))
    ensures Warranted(s, s', ActAt(s, S.Rename(from, to)), if r.Ok? then S.Done else S.Failed(r.error))
  {
    hide SpotOf, AbsOf, S.Where, S.IsDirAt, Above;
  }

  lemma NoMemoryNeeded(s: State, s': State, op: S.Op, out: S.Out)
    requires !op.Write? && !op.Create? && !op.Rename?
    ensures Warranted(s, s', ActAt(s, op), out)
  {
    hide AbsOf, S.Where, S.IsDirAt;
  }

  /* ---- the specification's questions, asked of the nodes ---- */

  /** A path's node is the one with its name in its directory. */
  lemma WhoIs(ns: Nodes, ps: Pages, path: Path)
    requires TreeOk(ns)
    ensures var s := SpotOf(ns, path);
      && (s.parent.None? ==> s.node.None?)
      && (s.parent.Some? ==> S.Who(AbsOf(ns, ps), s.parent.value, s.leaf) == Replaced(s))
      && (s.node.Some? ==> s.node.value in ns && ns[s.node.value].parent == s.parent && ns[s.node.value].name == s.leaf)
  {
    SpotFinds(ns, path);
    hide SpotOf, FilesOf;
  }

  lemma DirsAre(ns: Nodes, ps: Pages, i: nat)
    requires TreeOk(ns) && i in ns
    ensures S.IsDirAt(AbsOf(ns, ps), i) <==> ns[i].typ == Dir
  {
    hide FilesOf, ChildrenOk, NamesOk, Rooted;
  }

  /** One component: the child of that name is what has that place. */
  lemma EnterIs(ns: Nodes, ps: Pages, d: nat, name: Name)
    requires TreeOk(ns) && d in ns && ns[d].typ == Dir
    ensures S.Enter(AbsOf(ns, ps), false, d, name)
      == match Child(ns, d, name) case Some(c) => W.Ok(c) case None => W.Err(W.ENOENT)
    ensures Child(ns, d, name).Some? ==> Child(ns, d, name).value in ns
  {
    DirsAre(ns, ps, d);
    ChildFinds(ns, d, name);
    assert NamesOk(ns);
    var c := Child(ns, d, name);
    assert S.Who(AbsOf(ns, ps), d, name) == if c.Some? then {c.value} else {} by {
      hide FilesOf, Child, ParentsOk, ChildrenOk, Rooted;
    }
  }

  lemma SplitSkips(p: Path)
    ensures P.Split(P.SkipSlashes(p)) == P.Split(p)
  {
  }

  /** The walk that stops one level short is the steps from place to place. */
  lemma {:induction false} WalkIs(ns: Nodes, ps: Pages, d: nat, p: Path)
    requires TreeOk(ns) && d in ns && ns[d].typ == Dir
    ensures var s, a := WalkTo(ns, d, p), S.InMemory(AbsOf(ns, ps), d, P.Split(p));
      if a.Ok? then s.parent == Some(a.value.0) && s.leaf == a.value.1 else s.parent.None? && a.error == W.ENOENT
    decreases |p|
  {
    hide TreeOk, AbsOf, Child, S.Enter, S.IsDirAt;
    var q := P.SkipSlashes(p);
    if q != [] {
      var n := P.CompLen(q);
      var name, tail := q[..n], q[n..];
      var rest, cs := P.SkipSlashes(tail), P.Split(p);
      SplitSkips(tail);
      assert cs == [name] + P.Split(rest);
      DirsAre(ns, ps, d);
      EnterIs(ns, ps, d, name);
      if rest == [] {
        assert cs[..|cs| - 1] == [];
      } else {
        SomeLeft(rest);
        assert cs[..|cs| - 1][1..] == P.Split(rest)[..|P.Split(rest)| - 1] && cs[..|cs| - 1][0] == name;
        assert cs[|cs| - 1] == P.Split(rest)[|P.Split(rest)| - 1];
        var next := Child(ns, d, name);
        if n <= NAME_MAX && next.Some? {
          DirsAre(ns, ps, next.value);
          if ns[next.value].typ == Dir {
            WalkIs(ns, ps, next.value, rest);
          } else {
            FileStops(AbsOf(ns, ps), next.value, P.Split(rest));
          }
        }
      }
    }
  }

  lemma SomeLeft(p: Path)
    requires p != [] && p[0] != P.SLASH
    ensures P.Split(p) != []
  {
  }

  /** Nothing is below a plain file. */
  lemma FileStops(fs: S.Fs, i: nat, cs: seq<Name>)
    requires !S.IsDirAt(fs, i)
    ensures S.InMemory(fs, i, cs) == W.Err(W.ENOENT)
  {
  }

  lemma SpotIs(ns: Nodes, ps: Pages, path: Path)
    requires TreeOk(ns)
    ensures var s, a := SpotOf(ns, path), S.Where(AbsOf(ns, ps), HERE, path);
      if a.Ok? then s.parent == Some(a.value.0) && s.leaf == a.value.1 && S.IsDirAt(AbsOf(ns, ps), a.value.0)
      else s.parent.None? && a.error == W.ENOENT
  {
    RootIsDir(ns);
    if Owns(path) { WalkIs(ns, ps, ROOT, path[|MOUNT|..]); }
    hide TreeOk, AbsOf, WalkTo;
  }

  lemma ChildrenAre(ns: Nodes, ps: Pages, i: nat)
    requires TreeOk(ns) && i in ns
    ensures S.HasChildren(AbsOf(ns, ps), i) <==> ns[i].typ == Dir && ns[i].children != []
  {
    hide Rooted, FilesOf, Distinct;
    assert ListsChildren(ns, i);
    if ns[i].children != [] { assert ns[i].children[0] in ns[i].children; }
    assert forall j :: j in ns && ns[j].parent == Some(i) ==> j in ns[i].children;
    if ns[i].typ == Dir && ns[i].children != [] {
      var c := ns[i].children[0];
      assert c in PlacesOf(ns) && PlacesOf(ns)[c].dir == i;
    }
  }

  lemma {:induction false} ClimbsAgree(ns: Nodes, ps: Pages, i: nat, k: nat)
    ensures S.Climb(AbsOf(ns, ps), i, k) == Climb(ns, i, k)
    decreases k
  {
    hide FilesOf;
    if k > 0 && Parent(ns, i).Some? { ClimbsAgree(ns, ps, Parent(ns, i).value, k - 1); }
  }

  lemma AboveIs(ns: Nodes, ps: Pages, i: nat, d: nat)
    ensures S.Above(AbsOf(ns, ps), i, d) <==> Above(ns, d, i)
  {
    hide S.Climb, Climb, AbsOf;
    forall k: nat { ClimbsAgree(ns, ps, d, k); }
  }

  lemma FileIs(ns: Nodes, ps: Pages, i: nat)
    requires i in ns && ns[i].typ == File
    ensures i in FilesOf(ns, ps) && FilesOf(ns, ps)[i] == Contents(ns, ps, i)
  {
  }

  lemma AfterWrite(ns: Nodes, ps: Pages, ns': Nodes, ps': Pages, i: nat, off: nat, data: seq<Byte>, n: nat)
    requires i in ns && ns[i].typ == File && Wrote(ns, ps, ns', ps', i, off, data, n)
    ensures n <= |data| && i in FilesOf(ns, ps)
    ensures FilesOf(ns', ps') == FilesOf(ns, ps)[i := W.Overlay(FilesOf(ns, ps)[i], off, data[..n])]
      && PlacesOf(ns') == PlacesOf(ns)
  {
    hide Contents, W.Overlay;
    assert forall j :: j in ns' <==> j in ns.Keys;
  }

  lemma AfterTruncate(ns: Nodes, ps: Pages, ns': Nodes, ps': Pages, i: nat)
    requires i in ns && ns[i].typ == File && SameShape(ns, ns') && OthersKept(ns, ps, ns', ps', i) && i in ns'
      && ns'[i].size == 0
    ensures i in FilesOf(ns, ps) && FilesOf(ns', ps') == FilesOf(ns, ps)[i := []] && PlacesOf(ns') == PlacesOf(ns)
  {
    SizeOfContents(ns', ps', i);
    hide Contents;
    assert forall j :: j in ns' <==> j in ns.Keys;
  }

  lemma MadePlaces(ns: Nodes, i: nat, typ: FileType, name: Name, p: nat)
    requires p in ns && i !in ns
    ensures i !in PlacesOf(ns) && PlacesOf(Made(ns, i, typ, name, p)) == PlacesOf(ns)[i := S.Place(p, name, typ == Dir)]
  {
    MadeNodes(ns, i, typ, name, p);
    hide Made;
    assert forall j :: j in Made(ns, i, typ, name, p) <==> j in ns.Keys + {i};
  }

  lemma AfterCreate(ns: Nodes, ps: Pages, ns': Nodes, ps': Pages, path: Path, typ: FileType, i: nat)
    requires IsNew(ns, ps, ns', ps', path, typ, i)
    ensures i !in FilesOf(ns, ps) && FilesOf(ns', ps') == if typ == File then FilesOf(ns, ps)[i := []]
      else FilesOf(ns, ps)
    ensures var s := SpotOf(ns, path);
      i !in PlacesOf(ns) && s.parent.Some?
        && PlacesOf(ns') == PlacesOf(ns)[i := S.Place(s.parent.value, s.leaf, typ == Dir)]
  {
    hide Contents, SpotOf, Lookup, Made, FilesOf, PlacesOf, FilesKept;
    var s := SpotOf(ns, path);
    MadeFiles(ns, ps, ns', ps', i, typ, s.leaf, s.parent.value);
    MadePlaces(ns, i, typ, s.leaf, s.parent.value);
  }

  lemma MadeFiles(ns: Nodes, ps: Pages, ns': Nodes, ps': Pages, i: nat, typ: FileType, name: Name, p: nat)
    requires p in ns && i !in ns && ns' == Made(ns, i, typ, name, p) && i in ns'
    requires Contents(ns', ps', i) == [] && FilesKept(ns, ps, ns', ps', {})
    ensures i !in FilesOf(ns, ps)
    ensures FilesOf(ns', ps') == if typ == File then FilesOf(ns, ps)[i := []] else FilesOf(ns, ps)
  {
    hide Contents, Made;
    MadeTypes(ns, i, typ, name, p);
    if typ == File {
      assert FilesOf(ns', ps').Keys == FilesOf(ns, ps).Keys + {i};
    } else {
      assert FilesOf(ns', ps').Keys == FilesOf(ns, ps).Keys;
    }
  }

  lemma MadeTypes(ns: Nodes, i: nat, typ: FileType, name: Name, p: nat)
    requires p in ns && i !in ns
    ensures var ns' := Made(ns, i, typ, name, p);
      (forall j :: j in ns' <==> j in ns || j == i) && ns'[i].typ == typ && forall j <- ns :: ns'[j].typ == ns[j].typ
  {
    MadeNodes(ns, i, typ, name, p);
    hide Made;
    assert forall j :: j in Made(ns, i, typ, name, p) <==> j in ns.Keys + {i};
  }

  lemma AfterLoss(ns: Nodes, ps: Pages, ns': Nodes, ps': Pages, gone: set<nat>)
    requires FilesKept(ns, ps, ns', ps', gone) && ns'.Keys == ns.Keys - gone
    ensures FilesOf(ns', ps') == FilesOf(ns, ps) - gone
  {
    hide Contents;
    assert forall j :: j in ns' <==> j in ns.Keys - gone;
  }

  lemma UnlinkDid(ns: Nodes, ps: Pages, ns': Nodes, ps': Pages, path: Path, r: W.Result<()>)
    requires TreeOk(ns) && (r.Err? ==> ns' == ns && ps' == ps)
    requires var s := SpotOf(ns, path);
      r == if s.node.None? then W.Err(W.ENOENT)
           else if s.node.value in ns && ns[s.node.value].typ == Dir && ns[s.node.value].children != []
           then W.Err(W.ENOTEMPTY) else W.Ok(())
    requires r.Ok? ==>
      var s := SpotOf(ns, path);
      && s.parent.Some? && s.parent.value in ns && ns' == Removed(ns, s.parent.value, s.node.value)
      && FilesKept(ns, ps, ns', ps', {s.node.value})
    ensures S.Did(AbsOf(ns, ps), AbsOf(ns', ps'), S.ActOf(AbsOf(ns, ps), HERE, S.Unlink(path)), if r.Ok? then S.Done
      else S.Failed(r.error))
  {
    hide SpotOf, FilesOf, PlacesOf, TreeOk, Removed, FilesKept, S.HasChildren, S.Who;
    var s := SpotOf(ns, path);
    WhoIs(ns, ps, path);
    SpotIs(ns, ps, path);
    if s.node.Some? {
      ChildrenAre(ns, ps, s.node.value);
      if r.Ok? {
        RemovedPlaces(ns, s.parent.value, s.node.value);
        AfterLoss(ns, ps, ns', ps', {s.node.value});
      }
    }
  }

  lemma RemovedPlaces(ns: Nodes, p: nat, i: nat)
    requires p in ns
    ensures PlacesOf(Removed(ns, p, i)) == PlacesOf(ns) - {i} && Removed(ns, p, i).Keys == ns.Keys - {i}
  {
    hide Without;
  }

  lemma RenameDid(ns: Nodes, ps: Pages, ns': Nodes, ps': Pages, from: Path, to: Path, r: W.Result<()>)
    requires TreeOk(ns) && r == RenameAnswer(ns, SpotOf(ns, from), SpotOf(ns, to))
    requires r.Err? || SpotOf(ns, to).node == SpotOf(ns, from).node ==> ns' == ns && ps' == ps
    requires r.Ok? && SpotOf(ns, to).node != SpotOf(ns, from).node ==>
      var f, t := SpotOf(ns, from), SpotOf(ns, to);
      Went(ns, ns', f, t) && ns'.Keys == ns.Keys - Replaced(t) && FilesKept(ns, ps, ns', ps', Replaced(t))
    ensures S.Did(AbsOf(ns, ps), AbsOf(ns', ps'), S.ActOf(AbsOf(ns, ps), HERE, S.Rename(from, to)), if r.Ok? then S.Done
      else S.Failed(r.error))
  {
    hide SpotOf, TreeOk, Removed, FilesKept, S.Above, S.Who, S.Climb, Went, Above, AbsOf, S.Where;
    var fs, f, t := AbsOf(ns, ps), SpotOf(ns, from), SpotOf(ns, to);
    WhoIs(ns, ps, from);
    WhoIs(ns, ps, to);
    SpotIs(ns, ps, from);
    SpotIs(ns, ps, to);
    if f.node.Some? && t.parent.Some? {
      AboveIs(ns, ps, f.node.value, t.parent.value);
      if t.node == f.node {
        S.StaysPut(fs, f.parent.value, f.leaf);
      } else {
        PlacesAre(ns, ps);
        if r.Ok? { RenamedAbs(ns, ps, ns', ps', f, t); }
        assert Replaced(t) - Replaced(f) == Replaced(t);
      }
    }
  }

  lemma PlacesAre(ns: Nodes, ps: Pages)
    ensures AbsOf(ns, ps).places == PlacesOf(ns)
  {
  }

  lemma RenamedAbs(ns: Nodes, ps: Pages, ns': Nodes, ps': Pages, f: Spot, t: Spot)
    requires Went(ns, ns', f, t) && ns'.Keys == ns.Keys - Replaced(t) && FilesKept(ns, ps, ns', ps', Replaced(t))
    requires f.node.value in ns && ns[f.node.value].parent.Some?
    ensures AbsOf(ns', ps') == S.Relocated(S.Without(AbsOf(ns, ps), Replaced(t)), Replaced(f), t.parent.value, t.leaf)
  {
    hide FilesOf, FilesKept, PlacesOf, Moved, Removed;
    AfterLoss(ns, ps, ns', ps', Replaced(t));
    HasPlace(ns, f.node.value);
    var ns1 := if t.node.Some? then Removed(ns, t.parent.value, t.node.value) else ns;
    if t.node.Some? { RemovedPlaces(ns, t.parent.value, t.node.value); }
      else { assert PlacesOf(ns) - {} == PlacesOf(ns); }
    MovedPlaces(ns1, f.node.value, f.parent.value, t.parent.value, t.leaf);
    assert AbsOf(ns', ps').places == S.Relocated(S.Without(AbsOf(ns, ps), Replaced(t)), Replaced(f), t.parent.value,
      t.leaf).places;
  }

  lemma HasPlace(ns: Nodes, i: nat)
    requires i in ns && ns[i].parent.Some?
    ensures i in PlacesOf(ns)
  {
  }

  lemma MovedPlaces(ns: Nodes, n: nat, p: nat, d: nat, name: Name)
    requires n in ns && p in ns && d in ns && n != p && n != d && n in PlacesOf(ns)
    ensures PlacesOf(Moved(ns, n, p, d, name)) == PlacesOf(ns)[n := S.Place(d, name, PlacesOf(ns)[n].isDir)]
  {
    MovedNodes(ns, n, p, d, name);
    hide Moved;
    var ns' := Moved(ns, n, p, d, name);
    assert forall j :: j in ns' <==> j in ns;
  }

  /** What there is when a call is made, and the memory there will be for it. */
  datatype State = State(ns: Nodes, ps: Pages, held: nat, next: nat, mem: Memory)

  /** The pages held are counted right and hang from one slot each, and the nodes are a tree. */
  ghost predicate Healthy(s: State) { TreeOk(s.ns) && exists owner :: Stored(s.ns, s.ps, s.held, owner) }

  /** `states` and `outs` record a run of the first calls of `ops`: every call was legal when it
      was made, every state is healthy, and seen from outside each call's answer was one the
      files and names before it allow, and what it left is what that answer says; and it was what
      there was memory for. */
  ghost predicate History(states: seq<State>, ops: seq<S.Op>, outs: seq<S.Out>)
  {
    && |states| == |outs| + 1 && |outs| <= |ops|
    && (forall s <- states :: Healthy(s))
    && (forall k :: 0 <= k < |outs| ==> Legal(states[k].ns, ops[k]))
    && S.Story(Views(states), HERE, ops, outs)
    && forall k :: 0 <= k < |outs| ==> Warranted(states[k], states[k + 1], ActAt(states[k], ops[k]), outs[k])
  }

  ghost function ActAt(s: State, op: S.Op): S.Act { S.ActOf(AbsOf(s.ns, s.ps), HERE, op) }

  function Views(states: seq<State>): seq<S.Fs>
  {
    seq(|states|, k requires 0 <= k < |states| => AbsOf(states[k].ns, states[k].ps))
  }

  lemma HistorySnoc(states: seq<State>, ops: seq<S.Op>, outs: seq<S.Out>, s: State, out: S.Out)
    requires History(states, ops, outs) && |outs| < |ops| && Healthy(s)
    requires var last, op := states[|outs|], ops[|outs|];
      && Legal(last.ns, op) && Warranted(last, s, ActAt(last, op), out)
      && S.Did(AbsOf(last.ns, last.ps), AbsOf(s.ns, s.ps), ActAt(last, op), out)
    ensures History(states + [s], ops, outs + [out])
  {
    hide S.Did, Legal, AbsOf, S.ActOf, Healthy, Warranted;
    S.StorySnoc(Views(states), HERE, ops, outs, AbsOf(s.ns, s.ps), out);
    assert Views(states + [s]) == Views(states) + [AbsOf(s.ns, s.ps)];
  }

  function MemAt(memory: seq<Memory>, k: nat): Memory { if k < |memory| then memory[k] else Memory(0, 0) }

  /** The memory left after a call is not what there is at the next, and nothing above depends on it. */
  lemma WarrantedFor(s: State, s': State, mem: Memory, act: S.Act, out: S.Out)
    requires Warranted(s, s', act, out)
    ensures Warranted(s, s'.(mem := mem), act, out)
  {
    hide WriteFits, Missing, AbsOf;
  }

  /** Any run of calls from the empty file system, up to the first that is not legal, whatever memory
      the rest of the kernel leaves for each. */
  method Run(ops: seq<S.Op>, memory: seq<Memory>) returns (fs: RamFs, ghost states: seq<State>, outs: seq<S.Out>)
    ensures fresh(fs) && fs.Valid() && History(states, ops, outs)
    ensures AbsOf(states[0].ns, states[0].ps) == S.Fs(map[], map[])
    ensures states[|outs|].ns == fs.nodes && states[|outs|].ps == fs.pages && states[|outs|].held == fs.held
    ensures forall k :: 0 <= k < |states| ==> states[k].mem == MemAt(memory, k)
    ensures |outs| < |ops| ==> !Legal(fs.nodes, ops[|outs|])
  {
    hide Stored, TreeOk, Numbered, AbsOf, Contents, Legal, S.Did, S.ActOf, Warranted;
    fs := new RamFs();
    fs.frames, fs.room := MemAt(memory, 0).frames, MemAt(memory, 0).room;
    states, outs := [Now(fs)], [];
    RootIsDir(fs.nodes);
    NoFiles(fs.nodes, fs.pages);
    for k := 0 to |ops|
      invariant fs.Valid() && fresh(fs) && History(states, ops, outs) && |outs| == k
      invariant AbsOf(states[0].ns, states[0].ps) == S.Fs(map[], map[]) && states[k] == Now(fs)
      invariant forall j :: 0 <= j < |states| ==> states[j].mem == MemAt(memory, j)
    {
      if !Legal(fs.nodes, ops[k]) {
        return;
      }
      var out := Step(fs, ops[k]);
      WarrantedFor(states[k], Now(fs), MemAt(memory, k + 1), ActAt(states[k], ops[k]), out);
      fs.frames, fs.room := MemAt(memory, k + 1).frames, MemAt(memory, k + 1).room;
      HistorySnoc(states, ops, outs, Now(fs), out);
      states, outs := states + [Now(fs)], outs + [out];
    }
  }

  lemma NoFiles(ns: Nodes, ps: Pages)
    requires ns.Keys == {ROOT} && ns[ROOT].typ == Dir && ns[ROOT].parent == None
    ensures AbsOf(ns, ps) == S.Fs(map[], map[])
  {
    assert forall j :: j in ns <==> j in ns.Keys;
  }
}
