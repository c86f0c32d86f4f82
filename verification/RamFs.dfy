/** The memory file system's operations (kernel/fs/ramfs.c). */
module RamFs {
  import opened WfsLayout
  import opened RamStore
  import opened RamRoom
  import opened RamTree
  import W = WfsDriver
  import opened RamWalk

  const MAX_NODES: nat := 1024

  class RamFs {
    var nodes: Nodes
    var pages: Pages
    var held: nat
    var nextIno: nat
    var frames: nat                     // how many frames will be had before one is refused
    var room: nat                       // the same for pieces of heap memory
    ghost var owner: Owner

    ghost predicate Valid()
      reads this
    {
      Stored(nodes, pages, held, owner) && TreeOk(nodes) && Numbered(nodes, nextIno)
    }

    ghost function Mem(): Memory
      reads this
    {
      Memory(frames, room)
    }

    /** ramfs_init: the root. */
    constructor ()
      ensures Valid() && nodes.Keys == {ROOT} && nodes[ROOT].typ == Dir && held == 0
    {
      nodes := map[ROOT := Node(Dir, 0, [], None, [], [])];
      pages, held, nextIno, owner, frames, room := map[], 0, ROOT + 1, map[], 0, 0;
      new;
      OnlyRoot(nodes);
    }

    /** A frame that is not in use; zero when there is none. */
    method AllocFrame() returns (b: nat)
      modifies `frames
      ensures if old(frames) == 0 then b == 0 && frames == 0 else b != 0 && b !in pages && frames == old(frames) - 1
    {
      if frames == 0 {
        return 0;
      }
      FrameLeft(pages);
      b :| b != 0 && b !in pages;
      frames := frames - 1;
    }

    /** blocks_reserve: room for `count` page numbers, the old ones kept. */
    method Reserve(i: nat, count: nat) returns (ok: bool)
      requires i in nodes && Owned(nodes, pages, owner)
      modifies `nodes, `room
      ensures i in nodes && nodes == old(nodes)[i := old(nodes)[i].(blocks := nodes[i].blocks)]
      ensures SameBlocks(old(nodes), nodes)
      ensures var n := |old(nodes)[i].blocks|;
        if count <= n then ok && |nodes[i].blocks| == n && room == old(room)
        else if old(room) == 0 then !ok && room == 0
        else ok && |nodes[i].blocks| == Grown(n, count - 1) && room == old(room) - 1
    {
      var n := |nodes[i].blocks|;
      if count <= n {
        return true;
      }
      var grown := if n != 0 then n * 2 else 4;
      if grown < count { grown := count; }
      if room == 0 {
        return false;                   // no memory for the array
      }
      room := room - 1;
      forall j: nat, k: nat { Reserved(nodes, i, grown, j, k); }
      nodes := nodes[i := nodes[i].(blocks := nodes[i].blocks + seq(grown - n, x => 0))];
      ok := true;
    }

    /** block_get: the page behind `k`, allocated if it is to be created; zero for none. */
    method BlockGet(i: nat, k: nat, create: bool) returns (b: nat)
      requires i in nodes && Owned(nodes, pages, owner) && held == |pages|
      modifies `nodes, `pages, `held, `owner, `frames, `room
      ensures Owned(nodes, pages, owner) && held == |pages|
      ensures i in nodes && nodes == old(nodes)[i := old(nodes)[i].(blocks := nodes[i].blocks)]
      ensures forall j: nat, p: nat :: ByteAt(nodes, pages, j, p) == ByteAt(old(nodes), old(pages), j, p)
      ensures !create ==> nodes == old(nodes) && pages == old(pages) && owner == old(owner) && b == BlockOf(nodes, i, k)
      ensures !create ==> Mem() == old(Mem())
      ensures b != 0 ==> b == BlockOf(nodes, i, k)
      ensures create ==> Asked(old(nodes), nodes, i, k, old(Mem()), Mem(), b != 0)
      ensures frames + held == old(frames + held)
    {
      hide Owned, ByteAt, Missing, Growths, Length;
      OnePage(nodes, i, k);
      if k >= |nodes[i].blocks| {
        if !create {
          return 0;
        }
        ghost var ns := nodes;
        var ok := Reserve(i, k + 1);
        SameBlocksOwned(ns, nodes, pages, owner);
        if !ok {
          return 0;
        }
      }
      b := nodes[i].blocks[k];
      if b == 0 {
        if !create {
          return 0;
        }
        b := AllocFrame();
        if b == 0 {
          return 0;
        }
        Added(nodes, pages, owner, i, k, b, nodes[i := nodes[i].(blocks := nodes[i].blocks[k := b])]);
        pages := pages[b := ZeroPage()];
        nodes := nodes[i := nodes[i].(blocks := nodes[i].blocks[k := b])];
        owner := owner[b := (i, k)];
        held := held + 1;
      }
    }

    /** Read up to `len` bytes at `offset`: exactly the bytes of the file in that range. */
    method Read(ino: nat, offset: nat, len: nat) returns (r: W.Result<seq<Byte>>)
      requires Valid()
      modifies `nodes, `pages, `held, `owner, `frames, `room
      ensures nodes == old(nodes) && pages == old(pages) && owner == old(owner) && held == old(held)
      ensures r == if ino !in nodes then W.Err(W.ENOENT) else if nodes[ino].typ != File then W.Err(W.EISDIR)
                   else W.Ok(W.Window(Contents(nodes, pages, ino), offset, len))
    {
      hide Owned, Tidy, TreeOk, Contents, ByteAt, Numbered;
      if ino !in nodes {
        return W.Err(W.ENOENT);
      }
      if nodes[ino].typ != File {
        return W.Err(W.EISDIR);
      }
      var size := nodes[ino].size;
      SizeOfContents(nodes, pages, ino);
      if offset >= size {
        return W.Ok([]);
      }
      var want := if len > size - offset then size - offset else len;
      var out := ReadBytes(ino, offset, want);
      ContentsAt(nodes, pages, ino, offset, out);
      W.WindowIs(Contents(nodes, pages, ino), offset, len, out);
      r := W.Ok(out);
    }

    method ReadBytes(ino: nat, offset: nat, want: nat) returns (out: seq<Byte>)
      requires ino in nodes && Owned(nodes, pages, owner) && held == |pages|
      modifies `nodes, `pages, `held, `owner, `frames, `room
      ensures nodes == old(nodes) && pages == old(pages) && owner == old(owner) && held == old(held)
      ensures |out| == want && forall t :: 0 <= t < want ==> out[t] == ByteAt(nodes, pages, ino, offset + t)
    {
      hide Owned, ByteAt;
      out := [];
      while |out| < want
        invariant nodes == old(nodes) && pages == old(pages) && owner == old(owner) && held == old(held)
          && |out| <= want
        invariant forall t :: 0 <= t < |out| ==> out[t] == ByteAt(nodes, pages, ino, offset + t)
      {
        var bytes := ReadChunk(ino, offset + |out|, want - |out|);
        out := out + bytes;
      }
    }

    /** One turn of the read loop: what is wanted of one page; a hole is zeroes. */
    method ReadChunk(ino: nat, at: nat, want: nat) returns (bytes: seq<Byte>)
      requires ino in nodes && Owned(nodes, pages, owner) && held == |pages| && want > 0
      modifies `nodes, `pages, `held, `owner, `frames, `room
      ensures nodes == old(nodes) && pages == old(pages) && owner == old(owner) && held == old(held)
      ensures 0 < |bytes| <= want && forall t :: 0 <= t < |bytes| ==> bytes[t] == ByteAt(nodes, pages, ino, at + t)
    {
      hide Owned, BlockOf;
      var within := at % PAGE;
      var chunk := PAGE - within;
      if chunk > want { chunk := want; }
      var b := BlockGet(ino, at / PAGE, false);
      bytes := seq(chunk, x => 0);
      if b in pages { bytes := pages[b][within..within + chunk]; }
      forall t | 0 <= t < chunk ensures bytes[t] == ByteAt(nodes, pages, ino, at + t) {
        assert (at + t) / PAGE == at / PAGE && (at + t) % PAGE == within + t;
      }
    }

    /** Write `data` at `offset`.  Running out of memory keeps what was written: the file is
        then the overlay of the first n bytes, exactly as on the disk. */
    method Write(ino: nat, offset: nat, data: seq<Byte>) returns (r: W.Result<nat>)
      requires Valid() && offset + |data| < WORD_LIMIT
      modifies this
      ensures Valid() && nextIno == old(nextIno) && SameShape(old(nodes), nodes)
      ensures frames + held == old(frames + held)
      ensures ino !in old(nodes) ==> r == W.Err(W.ENOENT) && nodes == old(nodes) && pages == old(pages)
      ensures ino in old(nodes) && old(nodes)[ino].typ != File ==>
        r == W.Err(W.EISDIR) && nodes == old(nodes) && pages == old(pages)
      ensures ino in old(nodes) && old(nodes)[ino].typ == File ==>
        var done := if r.Ok? then r.value else 0;
        && (r.Err? ==> r.error == W.ENOSPC && |data| > 0)
        && Wrote(old(nodes), old(pages), nodes, pages, ino, offset, data, done)
        && WriteAccounted(old(nodes), nodes, ino, offset, |data|, done, old(Mem()), Mem())
    {
      hide Owned, Tidy, TreeOk, Wrote, SameShape, Numbered, WriteAccounted;
      ShapeRefl(nodes);
      if ino !in nodes {
        return W.Err(W.ENOENT);
      }
      if nodes[ino].typ != File {
        return W.Err(W.EISDIR);
      }
      var done := WriteBytes(ino, offset, data);
      SameShapeOk(old(nodes), nodes);
      return if done == 0 < |data| then W.Err(W.ENOSPC) else W.Ok(done);
    }

    method WriteBytes(ino: nat, offset: nat, data: seq<Byte>) returns (done: nat)
      requires ino in nodes && Owned(nodes, pages, owner) && Tidy(nodes, pages) && held == |pages|
        && Numbered(nodes, nextIno)
      modifies `nodes, `pages, `held, `owner, `frames, `room
      ensures Owned(nodes, pages, owner) && Tidy(nodes, pages) && held == |pages| && Numbered(nodes, nextIno)
      ensures Wrote(old(nodes), old(pages), nodes, pages, ino, offset, data, done) && SameShape(old(nodes), nodes)
      ensures WriteAccounted(old(nodes), nodes, ino, offset, |data|, done, old(Mem()), Mem())
      ensures frames + held == old(frames + held)
    {
      hide Owned, Tidy, Progress, Wrote, SameShape, Supplied, Asked, WriteAccounted, PagesUpTo;
      ghost var ns0, ps0, m0 := nodes, pages, Mem();
      done := 0;
      ProgressStart(ns0, ps0, ino, offset, data);
      SuppliedStart(ns0, ino, offset, m0);
      while done < |data|
        invariant done <= |data| && ino in nodes && Owned(nodes, pages, owner) && held == |pages|
        invariant Progress(ns0, ps0, nodes, pages, ino, offset, data, done)
        invariant Underway(ns0, nodes, ino, offset, done, m0, Mem()) && frames + held == old(frames + held)
        invariant done == 0 || done == |data| || (offset + done) % PAGE == 0
      {
        ghost var ns, m := nodes, Mem();
        var chunk := WriteChunk(ns0, ps0, ino, offset, data, done);
        if chunk == 0 {
          StoppedShort(ns0, ns, nodes, ino, offset, |data|, done, m0, m, Mem());
          break;                        // out of memory: a short write
        }
        GoneOn(ns0, ns, nodes, ino, offset, done, chunk, m0, m, Mem());
        done := done + chunk;
      }
      if done == |data| { AllSupplied(ns0, nodes, ino, offset, done, m0, Mem()); }
      ghost var ns := nodes;
      ProgressNodes(ns0, ps0, ns, pages, ino, offset, data, done);
      if offset + done > nodes[ino].size {
        nodes := nodes[ino := nodes[ino].(size := offset + done)];
      }
      assert nodes == ns[ino := ns[ino].(size := W.Max(ns[ino].size, offset + done))];
      AccountedSize(ns0, ns, nodes, ino, offset, |data|, done, m0, Mem());
      WriteDone(ns0, ps0, ns, pages, owner, ino, offset, data, done, nodes);
      ShapeAfterWrite(ns0, ns, nodes, ino);
    }

    /** One turn of the write loop; zero when there is no page to be had. */
    method WriteChunk(ghost ns0: Nodes, ghost ps0: Pages, ino: nat, offset: nat, data: seq<Byte>, done: nat)
      returns (chunk: nat)
      requires ino in nodes && Owned(nodes, pages, owner) && held == |pages| && done < |data|
      requires Progress(ns0, ps0, nodes, pages, ino, offset, data, done)
      modifies `nodes, `pages, `held, `owner, `frames, `room
      ensures ino in nodes && Owned(nodes, pages, owner) && held == |pages| && done + chunk <= |data|
      ensures Progress(ns0, ps0, nodes, pages, ino, offset, data, done + chunk)
      ensures (offset + done) % PAGE + chunk <= PAGE
      ensures chunk == 0 || done + chunk == |data| || (offset + done + chunk) % PAGE == 0
      ensures Asked(old(nodes), nodes, ino, (offset + done) / PAGE, old(Mem()), Mem(), chunk > 0)
      ensures frames + held == old(frames + held)
    {
      hide Owned, ByteAt, BlockOf, Patched, Asked;
      var within := (offset + done) % PAGE;
      chunk := PAGE - within;
      if chunk > |data| - done { chunk := |data| - done; }
      ghost var ns, ps := nodes, pages;
      var b := BlockGet(ino, (offset + done) / PAGE, true);
      ProgressSame(ns0, ps0, ns, ps, nodes, pages, ino, offset, data, done);
      hide Progress;
      if b == 0 {
        return 0;
      }
      OwnedBlock(nodes, pages, owner, ino, (offset + done) / PAGE);
      ghost var was := pages;
      pages := pages[b := Patched(pages[b], within, data[done..done + chunk])];
      ProgressChunk(ns0, ps0, nodes, was, owner, ino, offset, data, done, chunk, pages);
    }

    method ReleasePage(b: nat)
      requires b in pages && held == |pages|
      modifies `pages, `held
      ensures pages == old(pages) - {b} && held == |pages|
    {
      ghost var was := pages;
      pages := pages - {b};
      assert was.Keys == pages.Keys + {b};
      held := held - 1;
    }

    /** blocks_release from the start: every frame, and the array of their numbers. */
    method ReleaseAll(i: nat)
      requires i in nodes && Owned(nodes, pages, owner) && held == |pages|
      modifies `nodes, `pages, `held
      ensures i in nodes && nodes == old(nodes)[i := old(nodes)[i].(blocks := [])]
      ensures pages == old(pages) - PagesOf(owner, i) && held == |pages|
    {
      hide Owned, NonZero, BlockOf, PagesOf;
      ghost var ps, gone: set<nat> := pages, {};
      var blocks := nodes[i].blocks;
      assert ps - {} == ps;
      NonZeroEmpty();
      assert blocks[..0] == [];
      for k := 0 to |blocks|
        invariant nodes == old(nodes) && gone == NonZero(blocks[..k]) && pages == ps - gone && held == |pages|
      {
        NonZeroNext(nodes, ps, owner, i, k);
        if blocks[k] != 0 {
          LessOne(ps, gone, blocks[k]);
          ReleasePage(blocks[k]);
          gone := gone + {blocks[k]};
        }
      }
      assert blocks[..|blocks|] == blocks;
      NonZeroAll(nodes, ps, owner, i);
      nodes := nodes[i := nodes[i].(blocks := [])];
    }

    /** Truncate to nothing: exactly the file's pages come back. */
    method Truncate(ino: nat) returns (r: W.Result<()>)
      requires Valid()
      modifies this
      ensures Valid() && SameShape(old(nodes), nodes) && nextIno == old(nextIno)
      ensures ino !in old(nodes) ==> r == W.Err(W.ENOENT) && nodes == old(nodes) && held == old(held)
      ensures ino in old(nodes) ==>
        && r.Ok? && ino in nodes && nodes[ino].size == 0 && held + |PagesOf(old(owner), ino)| == old(held)
        && OthersKept(old(nodes), old(pages), nodes, pages, ino)
    {
      hide Owned, Tidy, TreeOk, SameShape, Numbered, ByteAt, OthersKept, PagesOf;
      ShapeRefl(nodes);
      if ino !in nodes {
        return W.Err(W.ENOENT);
      }
      ReleaseAll(ino);
      nodes := nodes[ino := nodes[ino].(size := 0)];
      assert nodes == old(nodes)[ino := old(nodes)[ino].(size := 0, blocks := [])];
      Truncated(old(nodes), old(pages), owner, ino, nodes, pages, nextIno);
      owner := owner - PagesOf(owner, ino);
      return W.Ok(());
    }

    /* ---- the tree ---- */

    /** node_new and create: the new node is where the path leads from then on, its number is
        one never used before, and every other file is as it was. */
    method Create(path: Path, typ: FileType) returns (r: W.Result<nat>)
      requires Valid() && typ != Free
      modifies this
      ensures Valid() && pages == old(pages) && held == old(held)
      ensures var s := SpotOf(old(nodes), path);
        if s.parent.None? then r == W.Err(W.ENOENT)
        else if s.node.Some? then r == W.Err(W.EEXIST)
        else if old(nextIno) >= MAX_NODES then r == W.Err(W.ENOSPC)
        else r == if old(room) > 0 then W.Ok(old(nextIno)) else W.Err(W.ENOSPC)
      ensures r.Err? ==> nodes == old(nodes) && nextIno == old(nextIno)
      ensures r.Ok? ==> nextIno == old(nextIno) + 1 && IsNew(old(nodes), old(pages), nodes, pages, path, typ, r.value)
    {
      hide Owned, Tidy, TreeOk, Numbered, Lookup, SpotOf, IsNew, Made, Contents;
      var s := SpotOf(nodes, path);
      SpotFinds(nodes, path);
      if s.parent.None? {
        return W.Err(W.ENOENT);
      }
      if s.node.Some? {
        return W.Err(W.EEXIST);
      }
      // the parent is a directory: the walk stops at anything else
      if nextIno >= MAX_NODES {
        return W.Err(W.ENOSPC);
      }
      if room == 0 {
        return W.Err(W.ENOSPC);         // no memory for the node
      }
      room := room - 1;
      var i := nextIno;
      Created(nodes, pages, held, owner, nextIno, path, typ);
      nextIno := nextIno + 1;
      var p := s.parent.value;
      var siblings := nodes[p].children;
      nodes := nodes[p := nodes[p].(children := [i] + siblings)][i := Node(typ, 0, s.leaf, Some(p), [], [])];
      MadeIs(old(nodes), i, typ, s.leaf, p);
      return W.Ok(i);
    }

    /** detach: the list without the node. */
    static method Detach(cs: seq<nat>, n: nat) returns (r: seq<nat>)
      requires Distinct(cs)
      ensures r == Without(cs, n)
    {
      var k := 0;
      while k < |cs| && cs[k] != n
        invariant k <= |cs| && n !in cs[..k]
      {
        k := k + 1;
      }
      DetachedAt(cs, n, k);
      r := if k < |cs| then cs[..k] + cs[k + 1..] else cs;
    }

    /** detach and destroy, for a node with no children. */
    method Destroy(p: nat, n: nat)
      requires Valid() && n in nodes && nodes[n].parent == Some(p) && nodes[n].children == []
      modifies this
      ensures Valid() && p in old(nodes) && nodes == Removed(old(nodes), p, n) && nextIno == old(nextIno)
      ensures pages == old(pages) - PagesOf(old(owner), n) && held + |PagesOf(old(owner), n)| == old(held)
      ensures FilesKept(old(nodes), old(pages), nodes, pages, {n})
    {
      hide Owned, Tidy, TreeOk, Numbered, FilesKept, Removed, PagesOf, Without, BlockOf, SameBlocks, Distinct, ByteAt;
      GoneTree(nodes, nextIno, p, n);
      GoneStore(nodes, pages, owner, p, n);
      var cs := Detach(nodes[p].children, n);
      ghost var ns := nodes;
      nodes := nodes[p := nodes[p].(children := cs)];
      SameBlocksOwned(ns, nodes, pages, owner);
      ReleaseAll(n);
      nodes := nodes - {n};
      RemovedIs(ns, p, n, nodes);
      owner := owner - PagesOf(owner, n);
    }

    /** Unlink: the path leads nowhere, exactly the node's pages come back, and every other file
        is as it was.  A directory with anything in it stays. */
    method Unlink(path: Path) returns (r: W.Result<()>)
      requires Valid()
      modifies this
      ensures Valid() && nextIno == old(nextIno)
      ensures var s := SpotOf(old(nodes), path);
        r == if s.node.None? then W.Err(W.ENOENT)
             else if s.node.value in old(nodes) && old(nodes)[s.node.value].typ == Dir
               && old(nodes)[s.node.value].children != []
             then W.Err(W.ENOTEMPTY) else W.Ok(())
      ensures r.Err? ==> nodes == old(nodes) && pages == old(pages) && held == old(held)
      ensures r.Ok? ==>
        var s := SpotOf(old(nodes), path);
        && s.parent.Some? && s.parent.value in old(nodes) && nodes == Removed(old(nodes), s.parent.value, s.node.value)
        && Lookup(nodes, path) == None && held + |PagesOf(old(owner), s.node.value)| == old(held)
        && FilesKept(old(nodes), old(pages), nodes, pages, {s.node.value})
    {
      hide Owned, Tidy, TreeOk, Numbered, Lookup, SpotOf, FilesKept, PagesOf, Removed;
      var s := SpotOf(nodes, path);
      SpotFinds(nodes, path);
      if s.node.None? {
        return W.Err(W.ENOENT);
      }
      var n := s.node.value;
      if nodes[n].typ == Dir && nodes[n].children != [] {
        return W.Err(W.ENOTEMPTY);
      }
      FileIsChildless(nodes, n);
      Destroy(s.parent.value, n);
      Unlinked(old(nodes), nodes, path);
      return W.Ok(());
    }

    /** The loop of rename: is `n` the directory `t` or above it? */
    method IsAbove(t: nat, n: nat) returns (b: bool)
      requires TreeOk(nodes) && t in nodes
      ensures b <==> Above(nodes, t, n)
    {
      hide TreeOk, Climb, Above;
      ghost var top := Height(nodes, t);
      var at := t;
      ghost var k: nat := 0;
      RootIsDir(nodes);
      ClimbZero(nodes, t);
      while true
        invariant k <= top && at == Climb(nodes, t, k) && forall m: nat :: m < k ==> Climb(nodes, t, m) != n
        decreases top - k
      {
        if at == n {
          AboveAt(nodes, t, k);
          return true;
        }
        if at !in nodes || nodes[at].parent.None? {
          NoneAbove(nodes, t, k, n);
          return false;
        }
        ClimbStep(nodes, t, k);
        at := nodes[at].parent.value;
        k := k + 1;
      }
    }

    /** Rename.  A file in the way is replaced, its pages coming back; the node itself keeps its
        number and its bytes; afterwards the new path leads to it and the old one nowhere.  A
        directory is never moved under itself. */
    method Rename(from: Path, to: Path) returns (r: W.Result<()>)
      requires Valid()
      modifies this
      ensures Valid() && nextIno == old(nextIno)
      ensures r == RenameAnswer(old(nodes), SpotOf(old(nodes), from), SpotOf(old(nodes), to))
      ensures r.Err? || SpotOf(old(nodes), to).node == SpotOf(old(nodes), from).node ==>
        nodes == old(nodes) && pages == old(pages) && held == old(held)
      ensures r.Ok? && SpotOf(old(nodes), to).node != SpotOf(old(nodes), from).node ==>
        var f, t := SpotOf(old(nodes), from), SpotOf(old(nodes), to);
        && Lookup(nodes, to) == f.node && Lookup(nodes, from) == None
        && Went(old(nodes), nodes, f, t) && nodes.Keys == old(nodes).Keys - Replaced(t)
        && held + (if t.node.Some? then |PagesOf(old(owner), t.node.value)| else 0) == old(held)
        && FilesKept(old(nodes), old(pages), nodes, pages, Replaced(t))
    {
      hide Owned, Tidy, TreeOk, Numbered, Lookup, SpotOf, FilesKept, PagesOf, Removed, Moved, Above, Without, Distinct;
      var f, t := SpotOf(nodes, from), SpotOf(nodes, to);
      SpotFinds(nodes, from);
      SpotFinds(nodes, to);
      if f.node.None? {
        return W.Err(W.ENOENT);
      }
      if t.parent.None? {
        return W.Err(W.ENOENT);
      }
      // the parent is a directory and the name fits: the walk stops at anything else
      if t.node == f.node {
        return W.Ok(());
      }
      var n, p, d := f.node.value, f.parent.value, t.parent.value;
      var inside := IsAbove(d, n);
      if inside {
        return W.Err(W.EINVAL);
      }
      if t.node.Some? {
        if nodes[t.node.value].typ == Dir {
          return W.Err(W.EISDIR);
        }
        FileIsChildless(nodes, t.node.value);
        Destroy(d, t.node.value);
      } else {
        AllKept(nodes, pages);
      }
      ghost var ns, ps := nodes, pages;
      ReadyToMove(old(nodes), ns, f, t);
      Relocated(ns, pages, held, owner, nextIno, n, p, d, t.leaf);
      var cs := Detach(nodes[p].children, n);
      nodes := nodes[p := nodes[p].(children := cs)];
      nodes := nodes[n := nodes[n].(name := t.leaf, parent := Some(d))];
      nodes := nodes[d := nodes[d].(children := [n] + nodes[d].children)];
      MovedIs(ns, n, p, d, t.leaf, cs, nodes);
      Renamed(old(nodes), ns, nodes, from, to);
      KeptOn(old(nodes), old(pages), ns, ps, nodes, pages, Replaced(t));
      return W.Ok(());
    }
  }

  /** A frame not in use: there are more numbers than pages. */
  lemma FrameLeft(ps: Pages)
    ensures exists b: nat :: b != 0 && b !in ps
  {
    var b := Bound(ps.Keys);
    assert b !in ps;
  }

  ghost function Bound(s: set<nat>): (b: nat)
    ensures b != 0 && forall x <- s :: x < b
  {
    if s == {} then 1 else
      var x :| x in s;
      var b := Bound(s - {x});
      assert s == (s - {x}) + {x};
      if b > x then b else x + 1
  }

  /** `ns'` is `ns` with a new empty node `i` where `path` leads. */
  ghost predicate IsNew(ns: Nodes, ps: Pages, ns': Nodes, ps': Pages, path: Path, typ: FileType, i: nat)
  {
    var s := SpotOf(ns, path);
    && s.parent.Some? && s.parent.value in ns && i !in ns && i in ns'
    && ns' == Made(ns, i, typ, s.leaf, s.parent.value)
    && Lookup(ns', path) == Some(i) && Contents(ns', ps', i) == [] && FilesKept(ns, ps, ns', ps', {})
  }

  function Replaced(t: Spot): set<nat> { if t.node.Some? then {t.node.value} else {} }

  /** The node of `f` is at `t`, and what was there is gone. */
  ghost predicate Went(ns: Nodes, ns': Nodes, f: Spot, t: Spot)
  {
    && f.node.Some? && f.parent.Some? && t.parent.Some? && t.parent.value in ns
    && var ns1 := if t.node.Some? then Removed(ns, t.parent.value, t.node.value) else ns;
    var n, p, d := f.node.value, f.parent.value, t.parent.value;
    n in ns1 && p in ns1 && d in ns1 && n != p && n != d && ns' == Moved(ns1, n, p, d, t.leaf)
  }

  /** What rename answers: the errors in the order they are looked for. */
  ghost function RenameAnswer(ns: Nodes, f: Spot, t: Spot): W.Result<()>
  {
    if f.node.None? || t.parent.None? then W.Err(W.ENOENT)
    else if t.node == f.node then W.Ok(())
    else if Above(ns, t.parent.value, f.node.value) then W.Err(W.EINVAL)
    else if t.node.Some? && t.node.value in ns && ns[t.node.value].typ == Dir then W.Err(W.EISDIR)
    else W.Ok(())
  }

  /** Every node but those of `gone` is there, of the same kind, with the same bytes. */
  ghost predicate FilesKept(ns: Nodes, ps: Pages, ns': Nodes, ps': Pages, gone: set<nat>)
  {
    forall j :: j in ns && j !in gone ==>
      j in ns' && ns'[j].typ == ns[j].typ && Contents(ns', ps', j) == Contents(ns, ps, j)
  }

  lemma AllKept(ns: Nodes, ps: Pages)
    ensures FilesKept(ns, ps, ns, ps, {})
  {
  }

  lemma KeptOn(ns: Nodes, ps: Pages, ns1: Nodes, ps1: Pages, ns2: Nodes, ps2: Pages, gone: set<nat>)
    requires FilesKept(ns, ps, ns1, ps1, gone) && FilesKept(ns1, ps1, ns2, ps2, {})
    ensures FilesKept(ns, ps, ns2, ps2, gone)
  {
    hide Contents;
  }

  /** Nodes with the same sizes and pages are stored the same. */
  lemma StoredSame(ns: Nodes, ps: Pages, held: nat, owner: Owner, ns': Nodes)
    requires Stored(ns, ps, held, owner) && ns.Keys <= ns'.Keys
    requires forall j <- ns :: ns'[j].size == ns[j].size && ns'[j].blocks == ns[j].blocks && ns'[j].typ == ns[j].typ
    requires forall j <- ns' :: j !in ns ==> ns'[j].size == 0 && ns'[j].blocks == []
    ensures Stored(ns', ps, held, owner) && FilesKept(ns, ps, ns', ps, {})
  {
    forall j: nat, k: nat ensures BlockOf(ns', j, k) == BlockOf(ns, j, k) { assert j in ns <==> j in ns.Keys; }
    assert SameBlocks(ns, ns');
    SameBlocksOwned(ns, ns', ps, owner);
    SameBytes(ns, ps, ns');
  }

  lemma SameBytes(ns: Nodes, ps: Pages, ns': Nodes)
    requires Tidy(ns, ps) && ns.Keys <= ns'.Keys && 0 !in ps
    requires forall j: nat, p: nat :: ByteAt(ns', ps, j, p) == ByteAt(ns, ps, j, p)
    requires forall j <- ns :: ns'[j].size == ns[j].size && ns'[j].typ == ns[j].typ
    requires forall j <- ns' :: j !in ns ==> ns'[j].size == 0 && ns'[j].blocks == []
    ensures Tidy(ns', ps) && FilesKept(ns, ps, ns', ps, {})
  {
    forall j: nat, p: nat | j in ns' && ns'[j].size <= p ensures ByteAt(ns', ps, j, p) == 0 {
      if j in ns { assert ByteAt(ns, ps, j, p) == 0; }
    }
    hide ByteAt;
    assert forall j :: j in ns ==> j in ns'.Keys;
  }

  /* ---- creating ---- */

  lemma MadeIs(ns: Nodes, i: nat, typ: FileType, name: Name, p: nat)
    requires p in ns
    ensures ns[p := ns[p].(children := [i] + ns[p].children)][i := Node(typ, 0, name, Some(p), [], [])] == Made(ns, i,
      typ, name, p)
  {
  }

  lemma Created(ns: Nodes, ps: Pages, held: nat, owner: Owner, next: nat, path: Path, typ: FileType)
    requires Stored(ns, ps, held, owner) && TreeOk(ns) && Numbered(ns, next)
    requires SpotOf(ns, path).parent.Some? && SpotOf(ns, path).node.None? && SpotOf(ns, path).parent.value in ns
    ensures var s := SpotOf(ns, path); var ns' := Made(ns, next, typ, s.leaf, s.parent.value);
      Stored(ns', ps, held, owner) && TreeOk(ns') && Numbered(ns', next + 1) && IsNew(ns, ps, ns', ps, path, typ, next)
  {
    hide TreeOk, Owned, Tidy, Made, Lookup, SpotOf, FilesKept;
    var s := SpotOf(ns, path);
    SpotFinds(ns, path);
    var p := s.parent.value;
    var ns' := Made(ns, next, typ, s.leaf, p);
    MadeNodes(ns, next, typ, s.leaf, p);
    MadeOk(ns, next, typ, s.leaf, p);
    StoredSame(ns, ps, held, owner, ns');
    assert forall i :: i in ns' <==> i in ns.Keys + {next};
    assert WayKept(ns, ns', p);
    PathKept(ns, ns', path);
    ChildIs(ns', p, s.leaf, next);
    LookupIsSpot(ns', path);
  }

  /* ---- removing ---- */

  lemma DetachedAt(cs: seq<nat>, n: nat, k: nat)
    requires Distinct(cs) && k <= |cs| && n !in cs[..k] && (k < |cs| ==> cs[k] == n)
    ensures Without(cs, n) == if k < |cs| then cs[..k] + cs[k + 1..] else cs
  {
    hide Without;
    if k < |cs| {
      var pre, post := cs[..k], cs[k + 1..];
      assert cs == pre + ([n] + post);
      forall m | 0 <= m < |post| ensures post[m] != n { assert post[m] == cs[k + 1 + m]; }
      WithoutAfter(pre, [n] + post, n);
      WithoutFirst(post, n);
    } else {
      assert cs[..k] == cs;
      WithoutAbsent(cs, n);
    }
  }

  lemma WithoutFirst(post: seq<nat>, n: nat)
    requires n !in post
    ensures Without([n] + post, n) == post
  {
    assert ([n] + post)[1..] == post;
    WithoutAbsent(post, n);
  }

  lemma {:induction false} WithoutAfter(pre: seq<nat>, rest: seq<nat>, n: nat)
    requires n !in pre
    ensures Without(pre + rest, n) == pre + Without(rest, n)
    decreases |pre|
  {
    if pre == [] {
      assert pre + rest == rest;
    } else {
      assert (pre + rest)[1..] == pre[1..] + rest && pre[0] in pre;
      WithoutAfter(pre[1..], rest, n);
    }
  }

  lemma {:induction false} WithoutAbsent(cs: seq<nat>, n: nat)
    requires n !in cs
    ensures Without(cs, n) == cs
  {
    if cs != [] { WithoutAbsent(cs[1..], n); }
  }

  /** Only directories have children. */
  lemma FileIsChildless(ns: Nodes, n: nat)
    requires TreeOk(ns) && n in ns && !(ns[n].typ == Dir && ns[n].children != [])
    ensures ns[n].children == []
  {
    assert ListsChildren(ns, n);
    assert ns[n].typ != Dir ==> forall c :: c !in ns[n].children;
    SomeMember(ns[n].children);
  }

  lemma SomeMember(s: seq<nat>)
    ensures s == [] || exists c :: c in s
  {
    if s != [] { assert s[0] in s; }
  }

  lemma GoneTree(ns: Nodes, next: nat, p: nat, n: nat)
    requires TreeOk(ns) && Numbered(ns, next) && n in ns && ns[n].parent == Some(p) && ns[n].children == []
    ensures p in ns && p != n && Distinct(ns[p].children) && TreeOk(Removed(ns, p, n))
      && Numbered(Removed(ns, p, n), next)
    ensures SameBlocks(ns, ns[p := ns[p].(children := Without(ns[p].children, n))])
  {
    hide TreeOk, Removed, Distinct, Numbered, Without;
    RemovedFacts(ns, p, n);
    ListIsDistinct(ns, p);
    RemovedOk(ns, p, n);
    NumberedSame(ns, Removed(ns, p, n), next);
  }

  lemma GoneStore(ns: Nodes, ps: Pages, owner: Owner, p: nat, n: nat)
    requires Owned(ns, ps, owner) && Tidy(ns, ps) && n in ns && p in ns && p != n
    ensures var ns', ps' := Removed(ns, p, n), ps - PagesOf(owner, n);
      && Owned(ns', ps', owner - PagesOf(owner, n)) && Tidy(ns', ps') && |ps'| + |PagesOf(owner, n)| == |ps|
      && FilesKept(ns, ps, ns', ps', {n})
  {
    hide Removed, Owned, Tidy, Without, PagesOf, ByteAt;
    RemovedNodes(ns, p, n);
    var ns', ps' := Removed(ns, p, n), ps - PagesOf(owner, n);
    assert n !in ns';
    AllReleased(ns, ps, owner, n, ns', ps');
  }

  lemma RemovedIs(ns: Nodes, p: nat, n: nat, ns': Nodes)
    requires p in ns && n in ns && p != n
    requires var m := ns[p := ns[p].(children := Without(ns[p].children, n))];
      ns' == m[n := m[n].(blocks := [])] - {n}
    ensures ns' == Removed(ns, p, n)
  {
    hide Without;
  }

  lemma Unlinked(ns: Nodes, ns': Nodes, path: Path)
    requires TreeOk(ns) && TreeOk(ns') && SpotOf(ns, path).node.Some? && SpotOf(ns, path).parent.Some?
    requires SpotOf(ns, path).parent.value in ns && SpotOf(ns, path).node.value in ns
    requires ns[SpotOf(ns, path).node.value].children == []
    requires ns' == Removed(ns, SpotOf(ns, path).parent.value, SpotOf(ns, path).node.value)
    ensures Lookup(ns', path) == None
  {
    hide SpotOf, Lookup, Removed, TreeOk, Above;
    var s := SpotOf(ns, path);
    var p, n := s.parent.value, s.node.value;
    SpotFinds(ns, path);
    RemovedFacts(ns, p, n);
    assert WayKept(ns, ns', p);
    PathKept(ns, ns', path);
    ChildVacant(ns', p, s.leaf);
    LookupIsSpot(ns', path);
  }

  /** A removed node was on no way, and its name is free. */
  lemma RemovedFacts(ns: Nodes, p: nat, n: nat)
    requires TreeOk(ns) && n in ns && ns[n].parent == Some(p) && ns[n].children == []
    ensures p in ns && p != n && (forall x :: x != n && x in ns ==> !Above(ns, x, n))
    ensures var ns' := Removed(ns, p, n);
      && ns'.Keys == ns.Keys - {n}
      && (forall j <- ns' ::
        j in ns && j != n && ns'[j].parent == ns[j].parent && ns'[j].name == ns[j].name && ns'[j].typ == ns[j].typ)
      && (forall c <- ns' :: ns'[c].parent == Some(p) ==> ns'[c].name != ns[n].name)
  {
    NobodysParent(ns, p, n);
    RemovedNodes(ns, p, n);
    hide Removed, ChildrenOk, Rooted;
    forall x | x != n && x in ns ensures !Above(ns, x, n) { NotThrough(ns, n, x); }
  }

  /* ---- renaming ---- */

  lemma Height(ns: Nodes, t: nat) returns (k: nat)
    requires TreeOk(ns) && t in ns
    ensures Climb(ns, t, k) == ROOT
  {
    k :| Climb(ns, t, k) == ROOT;
  }

  lemma AboveAt(ns: Nodes, t: nat, k: nat)
    ensures Above(ns, t, Climb(ns, t, k))
  {
  }

  lemma ClimbStep(ns: Nodes, t: nat, k: nat)
    requires Parent(ns, Climb(ns, t, k)).Some?
    ensures Climb(ns, t, k + 1) == Parent(ns, Climb(ns, t, k)).value
  {
    ClimbOn(ns, t, k, 1);
    ClimbZero(ns, Parent(ns, Climb(ns, t, k)).value);
  }

  lemma NoneAbove(ns: Nodes, t: nat, k: nat, n: nat)
    requires Parent(ns, Climb(ns, t, k)).None? && (forall m: nat :: m < k ==> Climb(ns, t, m) != n)
      && Climb(ns, t, k) != n
    ensures !Above(ns, t, n)
  {
    forall m: nat ensures Climb(ns, t, m) != n {
      if m > k {
        ClimbOn(ns, t, k, m - k);
        ClimbTop(ns, Climb(ns, t, k), m - k);
      }
    }
  }

  /** With the file in the way gone, all is ready for the move. */
  lemma ReadyToMove(ns: Nodes, ns1: Nodes, f: Spot, t: Spot)
    requires TreeOk(ns) && TreeOk(ns1) && SpotOk(ns, f) && SpotOk(ns, t) && f.node.Some? && t.parent.Some?
      && f.parent.Some?
    requires RenameAnswer(ns, f, t).Ok? && t.node != f.node && t.parent.value in ns
    requires t.node.Some? ==> ns1 == Removed(ns, t.parent.value, t.node.value)
    requires t.node.None? ==> ns1 == ns
    ensures CanMove(ns1, f.node.value, f.parent.value, t.parent.value, t.leaf) && SamePlaces(ns, ns1, Replaced(t))
  {
    hide TreeOk, Removed, Above, Distinct;
    var n, p, d := f.node.value, f.parent.value, t.parent.value;
    NotItsOwnParent(ns, n, p);
    AboveSelf(ns, d);
    if t.node.Some? {
      var e := t.node.value;
      FileIsChildless(ns, e);
      RemovedFacts(ns, d, e);
      SameAbove(ns, ns1, e, d, n);
    }
    ListIsDistinct(ns1, p);
  }

  ghost predicate CanMove(ns: Nodes, n: nat, p: nat, d: nat, name: Name)
  {
    && n in ns && p in ns && d in ns && n != p && n != d && ns[n].parent == Some(p) && ns[d].typ == Dir
    && !Above(ns, d, n) && Distinct(ns[p].children)
    && forall c <- ns :: c != n && ns[c].parent == Some(d) ==> ns[c].name != name
  }

  /** The nodes left are where they were. */
  ghost predicate SamePlaces(ns: Nodes, ns1: Nodes, gone: set<nat>)
  {
    && ns1.Keys == ns.Keys - gone
    && forall j <- ns1 ::
      j in ns && ns1[j].typ == ns[j].typ && ns1[j].parent == ns[j].parent && ns1[j].name == ns[j].name
  }

  lemma NotItsOwnParent(ns: Nodes, n: nat, p: nat)
    requires TreeOk(ns) && n in ns && ns[n].parent == Some(p)
    ensures p in ns && p != n && ns[p].typ == Dir
  {
    ParentNotSelf(ns, n, p);
  }

  lemma ListIsDistinct(ns: Nodes, p: nat)
    requires TreeOk(ns) && p in ns
    ensures Distinct(ns[p].children)
  {
    assert ListsChildren(ns, p);
  }

  lemma SameAbove(ns: Nodes, ns1: Nodes, e: nat, d: nat, n: nat)
    requires !Above(ns, d, e) && !Above(ns, d, n) && ns1.Keys == ns.Keys - {e}
      && (forall j <- ns1 :: j in ns && ns1[j].parent == ns[j].parent)
    ensures !Above(ns1, d, n)
  {
    forall j | j != e ensures Parent(ns1, j) == Parent(ns, j) { assert j in ns1.Keys <==> j in ns.Keys; }
    if k: nat :| Climb(ns1, d, k) == n {
      assert forall m: nat :: m < k ==> Climb(ns, d, m) != e;
      ClimbElsewhere(ns, ns1, e, d, k);
    }
  }

  lemma Relocated(ns: Nodes, ps: Pages, held: nat, owner: Owner, next: nat, n: nat, p: nat, d: nat, name: Name)
    requires Stored(ns, ps, held, owner) && TreeOk(ns) && Numbered(ns, next)
    requires CanMove(ns, n, p, d, name)
    ensures var ns' := Moved(ns, n, p, d, name);
      Stored(ns', ps, held, owner) && TreeOk(ns') && Numbered(ns', next) && FilesKept(ns, ps, ns', ps, {})
        && ns'.Keys == ns.Keys
  {
    MovedOk(ns, n, p, d, name);
    hide TreeOk, Owned, Tidy, Moved, FilesKept, Climb;
    MovedNodes(ns, n, p, d, name);
    StoredSame(ns, ps, held, owner, Moved(ns, n, p, d, name));
    NumberedSame(ns, Moved(ns, n, p, d, name), next);
  }

  lemma MovedIs(ns: Nodes, n: nat, p: nat, d: nat, name: Name, cs: seq<nat>, ns': Nodes)
    requires n in ns && p in ns && d in ns && cs == Without(ns[p].children, n)
    requires var a := ns[p := ns[p].(children := cs)]; var b := a[n := a[n].(name := name, parent := Some(d))];
      ns' == b[d := b[d].(children := [n] + b[d].children)]
    ensures ns' == Moved(ns, n, p, d, name)
  {
    hide Without;
  }

  /** After a move the new path leads to the node and the old one nowhere. */
  lemma Renamed(ns: Nodes, ns1: Nodes, ns': Nodes, from: Path, to: Path)
    requires TreeOk(ns) && TreeOk(ns') && SpotOf(ns, from).node.Some? && SpotOf(ns, from).parent.Some?
      && SpotOf(ns, to).parent.Some?
    requires RenameAnswer(ns, SpotOf(ns, from), SpotOf(ns, to)).Ok? && SpotOf(ns, to).node != SpotOf(ns, from).node
    requires SamePlaces(ns, ns1, Replaced(SpotOf(ns, to)))
    requires CanMove(ns1, SpotOf(ns, from).node.value, SpotOf(ns, from).parent.value, SpotOf(ns, to).parent.value,
      SpotOf(ns, to).leaf)
    requires ns' == Moved(ns1, SpotOf(ns, from).node.value, SpotOf(ns, from).parent.value, SpotOf(ns, to).parent.value,
      SpotOf(ns, to).leaf)
    ensures Lookup(ns', to) == SpotOf(ns, from).node && Lookup(ns', from) == None
  {
    hide SpotOf, TreeOk, Moved, Lookup, Above;
    var f, t := SpotOf(ns, from), SpotOf(ns, to);
    var n, p, d := f.node.value, f.parent.value, t.parent.value;
    SpotFinds(ns, from);
    SpotFinds(ns, to);
    MovedNodes(ns1, n, p, d, t.leaf);
    NotBelowItself(ns, n, p);
    assert forall j :: j in ns' <==> j in ns.Keys - Replaced(t);
    assert WayKept(ns, ns', d);
    PathKept(ns, ns', to);
    ChildIs(ns', d, t.leaf, n);
    LookupIsSpot(ns', to);
    assert WayKept(ns, ns', p);
    PathKept(ns, ns', from);
    NameFreed(ns, ns', f, t);
    ChildVacant(ns', p, f.leaf);
    LookupIsSpot(ns', from);
  }

  lemma NotBelowItself(ns: Nodes, n: nat, p: nat)
    requires TreeOk(ns) && n in ns && ns[n].parent == Some(p)
    ensures !Above(ns, p, n)
  {
    NotAboveParent(ns, n, p);
  }

  /** Nothing has the old name in the old directory. */
  lemma NameFreed(ns: Nodes, ns': Nodes, f: Spot, t: Spot)
    requires TreeOk(ns) && f.node.Some? && f.parent.Some? && t.parent.Some? && t.node != f.node && f.node.value in ns
    requires ns[f.node.value].parent == f.parent && ns[f.node.value].name == f.leaf
    requires t.node.None? ==> Vacant(ns, t.parent.value, t.leaf)
    requires t.node.Some? ==>
      t.node.value in ns && ns[t.node.value].parent == t.parent && ns[t.node.value].name == t.leaf
    requires forall j <- ns' :: j in ns && ns'[j].parent == (if j == f.node.value then t.parent else ns[j].parent)
    requires forall j <- ns' :: ns'[j].name == if j == f.node.value then t.leaf else ns[j].name
    ensures forall c <- ns' :: ns'[c].parent == f.parent ==> ns'[c].name != f.leaf
  {
    hide ParentsOk, ChildrenOk, Rooted;
  }

  /** Every node but `i` is as it was, bytes and all. */
  ghost predicate OthersKept(ns: Nodes, ps: Pages, ns': Nodes, ps': Pages, i: nat)
  {
    forall j :: j in ns && j != i ==> j in ns' && ns'[j] == ns[j] && Contents(ns', ps', j) == Contents(ns, ps, j)
  }

  lemma Truncated(ns: Nodes, ps: Pages, owner: Owner, i: nat, ns': Nodes, ps': Pages, next: nat)
    requires Owned(ns, ps, owner) && Tidy(ns, ps) && i in ns && TreeOk(ns) && Numbered(ns, next)
    requires ps' == ps - PagesOf(owner, i) && ns' == ns[i := ns[i].(size := 0, blocks := [])]
    ensures Owned(ns', ps', owner - PagesOf(owner, i)) && Tidy(ns', ps') && |ps'| == |ps| - |PagesOf(owner, i)|
    ensures SameShape(ns, ns') && TreeOk(ns') && Numbered(ns', next) && OthersKept(ns, ps, ns', ps', i)
  {
    hide Owned, Tidy, TreeOk, Numbered, ByteAt, PagesOf;
    AllReleased(ns, ps, owner, i, ns', ps');
    ShapeAfterRelease(ns, ns', i);
    SameShapeOk(ns, ns');
    NumberedSame(ns, ns', next);
  }

  /** The pages among `blocks`. */
  ghost function NonZero(blocks: seq<nat>): set<nat> { set b | b in blocks && b != 0 }

  lemma NonZeroEmpty()
    ensures NonZero([]) == {}
  {
  }

  lemma NonZeroNext(ns: Nodes, ps: Pages, owner: Owner, i: nat, k: nat)
    requires Owned(ns, ps, owner) && i in ns && k < |ns[i].blocks|
    ensures var b, done, more := ns[i].blocks[k], NonZero(ns[i].blocks[..k]), NonZero(ns[i].blocks[..k + 1]);
      more == (if b == 0 then done else done + {b}) && (b != 0 ==> b in ps && b !in done)
  {
    var blocks := ns[i].blocks;
    assert blocks[..k + 1] == blocks[..k] + [blocks[k]];
    if blocks[k] != 0 {
      assert BlockOf(ns, i, k) == blocks[k];
      if blocks[k] in blocks[..k] {
        var m :| 0 <= m < k && blocks[..k][m] == blocks[k];
        BlockUnique(ns, ps, owner, i, k, i, m);
      }
    }
  }

  lemma LessOne(m: Pages, gone: set<nat>, b: nat)
    requires b in m && b !in gone
    ensures m - gone - {b} == m - (gone + {b}) && b in m - gone
  {
  }

  lemma NonZeroAll(ns: Nodes, ps: Pages, owner: Owner, i: nat)
    requires Owned(ns, ps, owner) && i in ns
    ensures NonZero(ns[i].blocks) == PagesOf(owner, i)
  {
    forall b | b in NonZero(ns[i].blocks) ensures b in PagesOf(owner, i) {
      var k :| 0 <= k < |ns[i].blocks| && ns[i].blocks[k] == b;
      assert BlockOf(ns, i, k) == b;
    }
    forall b | b in PagesOf(owner, i) ensures b in NonZero(ns[i].blocks) {
      assert BlockOf(ns, i, owner[b].1) == b && b in ps;
    }
  }

  lemma NumberedSame(ns: Nodes, ns': Nodes, n: nat)
    requires Numbered(ns, n) && ns'.Keys <= ns.Keys
    ensures Numbered(ns', n)
  {
    assert forall i :: i in ns' ==> i in ns.Keys;
  }

  lemma ShapeRefl(ns: Nodes)
    ensures SameShape(ns, ns)
  {
  }

  lemma ShapeAfterWrite(ns0: Nodes, ns: Nodes, ns': Nodes, i: nat)
    requires i in ns0 && i in ns && i in ns' && ns == ns0[i := ns0[i].(blocks := ns[i].blocks)]
    requires ns' == ns[i := ns[i].(size := ns'[i].size)]
    ensures SameShape(ns0, ns')
  {
  }

  lemma ShapeAfterRelease(ns: Nodes, ns': Nodes, i: nat)
    requires i in ns && ns' == ns[i := ns[i].(size := 0, blocks := [])]
    ensures SameShape(ns, ns')
  {
  }

  lemma ProgressStart(ns: Nodes, ps: Pages, i: nat, offset: nat, data: seq<Byte>)
    requires i in ns
    ensures Progress(ns, ps, ns, ps, i, offset, data, 0)
  {
  }

  lemma ProgressNodes(ns0: Nodes, ps0: Pages, ns: Nodes, ps: Pages, i: nat, offset: nat, data: seq<Byte>, done: nat)
    requires Progress(ns0, ps0, ns, ps, i, offset, data, done)
    ensures i in ns0 && i in ns && ns == ns0[i := ns0[i].(blocks := ns[i].blocks)]
  {
  }

  lemma ProgressSame(ns0: Nodes, ps0: Pages, ns: Nodes, ps: Pages, ns': Nodes, ps': Pages, i: nat, offset: nat,
    data: seq<Byte>, done: nat)
    requires Progress(ns0, ps0, ns, ps, i, offset, data, done)
    requires i in ns' && ns' == ns[i := ns[i].(blocks := ns'[i].blocks)]
    requires forall j: nat, p: nat :: ByteAt(ns', ps', j, p) == ByteAt(ns, ps, j, p)
    ensures Progress(ns0, ps0, ns', ps', i, offset, data, done)
  {
    hide ByteAt;
  }

  lemma OwnedBlock(ns: Nodes, ps: Pages, owner: Owner, i: nat, k: nat)
    requires Owned(ns, ps, owner) && BlockOf(ns, i, k) != 0
    ensures BlockOf(ns, i, k) in ps
  {
  }

  lemma SizeOfContents(ns: Nodes, ps: Pages, i: nat)
    requires i in ns
    ensures |Contents(ns, ps, i)| == ns[i].size
  {
  }

  lemma ContentsAt(ns: Nodes, ps: Pages, i: nat, offset: nat, out: seq<Byte>)
    requires i in ns && offset + |out| <= ns[i].size
    requires forall t :: 0 <= t < |out| ==> out[t] == ByteAt(ns, ps, i, offset + t)
    ensures forall t :: 0 <= t < |out| ==> out[t] == Contents(ns, ps, i)[offset + t]
  {
  }

  ghost predicate Numbered(ns: Nodes, nextIno: nat)
  {
    ROOT < nextIno && forall i <- ns :: 0 < i < nextIno
  }

  lemma OnlyRoot(ns: Nodes)
    requires ns == map[ROOT := Node(Dir, 0, [], None, [], [])]
    ensures TreeOk(ns)
  {
    assert Climb(ns, ROOT, 0) == ROOT;
  }
}
