/** Reading a file through the block cache (kernel/fs/wfs.c): whatever the cache holds, whichever
    runs of blocks are read around it, and whichever transfers fail, what a read returns is the
    file. */
module WfsCached {
  import opened WfsLayout
  import opened WfsVolume
  import opened WfsDriver
  import C = WfsCache

  type Cache = C.BlockCache<Block>

  /** A cache in front of the volume's disk. */
  ghost predicate Fronts(c: Cache, w: Wfs)
    reads c, c.lines, w
  {
    c.Valid() && c.device == w.disk
  }

  /** Where a byte of a block is in its file. */
  lemma InBlock(index: nat, at: nat)
    requires at < BLOCK_SIZE
    ensures (index * BLOCK_SIZE + at) / BLOCK_SIZE == index && (index * BLOCK_SIZE + at) % BLOCK_SIZE == at
  {
  }

  /** `bytes` are those of the file from `at` on. */
  ghost predicate From(v: Vol, ino: nat, at: nat, bytes: seq<Byte>)
  {
    forall t :: 0 <= t < |bytes| ==> bytes[t] == ByteAt(v, ino, at + t)
  }

  lemma FromMore(v: Vol, ino: nat, at: nat, a: seq<Byte>, b: seq<Byte>)
    requires From(v, ino, at, a) && From(v, ino, at + |a|, b)
    ensures From(v, ino, at, a + b)
  {
    hide ByteAt;
    forall t | |a| <= t < |a + b| ensures (a + b)[t] == ByteAt(v, ino, at + t) {
      assert b[t - |a|] == ByteAt(v, ino, at + |a| + (t - |a|));
    }
  }

  /** Whether every transfer works; `works(n)` says whether transfer number `n` does. */
  ghost predicate AllWork(works: nat -> bool) { forall n :: works(n) }

  /** table_slot: a word of a pointer block, read through the cache. */
  method TableSlot(w: Wfs, c: Cache, t: nat, k: nat, works: nat -> bool, n: nat) returns (r: C.Option<nat>)
    requires Fronts(c, w) && 0 < t < |w.disk| && k < PTRS
    modifies c, c.lines
    ensures Fronts(c, w) && (AllWork(works) ==> r.Some?) && (r.Some? ==> r.value == Ptr(w.disk, t, k))
  {
    hide WordAt, C.BlockCache.Valid;
    var b := c.Read(t, works(n), ZeroBlock());
    r := if b.None? then C.None else C.Some(WordAt(b.value, k));
  }

  lemma AtInRange(v: Vol, owner: Owner, i: nat, s: Slot)
    requires Own(v, owner)
    ensures At(v, i, s) < |v.disk|
  {
    hide At;
    assert At(v, i, s) != 0 ==> At(v, i, s) in owner;
  }

  /** bmap, allocating nothing: the block behind a block of a file, by way of its pointer blocks.
      It has up to two transfers, `n` and the next. */
  method Bmap(w: Wfs, c: Cache, ino: nat, index: nat, works: nat -> bool, n: nat) returns (r: C.Option<nat>)
    requires ino < |w.inodes| && Own(w.V(), w.owner) && Fronts(c, w)
    modifies c, c.lines
    ensures Fronts(c, w) && (AllWork(works) && index < MAX_INDEX ==> r.Some?)
    ensures r.Some? ==> r.value == Map(w.V(), ino, index)
  {
    hide Own, Ptr, C.BlockCache.Valid, AllWork;
    var inode := w.inodes[ino];
    if index < DIRECT {
      return C.Some(inode.direct[index]);
    }
    var i := index - DIRECT;
    if i < PTRS {
      AtInRange(w.V(), w.owner, ino, Indirect);
      r := BmapTable(w, c, inode.indirect, i, works, n);
      return;
    }
    i := i - PTRS;
    if i >= PTRS * PTRS {
      return C.None;                // -W_EFBIG
    }
    AtInRange(w.V(), w.owner, ino, Double);
    var middle := BmapTable(w, c, inode.double, i / PTRS, works, n);
    if middle.None? {
      return C.None;
    }
    AtInRange(w.V(), w.owner, ino, Middle(i / PTRS));
    r := BmapTable(w, c, middle.value, i % PTRS, works, n + 1);
  }

  /** A word of a pointer block, if there is one. */
  method BmapTable(w: Wfs, c: Cache, t: nat, k: nat, works: nat -> bool, n: nat) returns (r: C.Option<nat>)
    requires Fronts(c, w) && t < |w.disk| && k < PTRS
    modifies c, c.lines
    ensures Fronts(c, w) && (AllWork(works) ==> r.Some?) && (r.Some? ==> r.value == Ptr(w.disk, t, k))
  {
    hide C.BlockCache.Valid, AllWork;
    if t == 0 {
      return C.Some(0);
    }
    r := TableSlot(w, c, t, k, works, n);
  }

  /** What is wanted of one block: zeroes for a hole, otherwise through the cache. */
  method ReadOne(w: Wfs, c: Cache, ino: nat, at: nat, chunk: nat, block: nat, works: nat -> bool, n: nat)
    returns (r: C.Option<seq<Byte>>)
    requires ino < |w.inodes| && Own(w.V(), w.owner) && Fronts(c, w) && at % BLOCK_SIZE + chunk <= BLOCK_SIZE
    requires block == Map(w.V(), ino, at / BLOCK_SIZE)
    modifies c, c.lines
    ensures Fronts(c, w) && (AllWork(works) ==> r.Some?)
    ensures r.Some? ==> |r.value| == chunk && From(w.V(), ino, at, r.value)
  {
    hide Own, Map, C.BlockCache.Valid;
    var index, inpos := at / BLOCK_SIZE, at % BLOCK_SIZE;
    var bytes := seq(chunk, t => 0);
    if block != 0 {
      MapInRange(w.V(), w.owner, ino, index);
      var b := c.Read(block, works(n), ZeroBlock());
      if b.None? {
        return C.None;
      }
      bytes := b.value[inpos..inpos + chunk];
    }
    forall t | 0 <= t < chunk ensures bytes[t] == ByteAt(w.V(), ino, at + t) {
      InBlock(index, inpos + t);
      assert index * BLOCK_SIZE + (inpos + t) == at + t;
    }
    return C.Some(bytes);
  }

  /** Blocks `index` up to `index + run` of a file follow each other on disk. */
  ghost predicate Together(v: Vol, ino: nat, index: nat, run: nat)
  {
    forall m :: index <= m < index + run ==> Map(v, ino, m) == Map(v, ino, index) + (m - index)
  }

  lemma TogetherMore(v: Vol, ino: nat, index: nat, run: nat)
    requires Together(v, ino, index, run) && Map(v, ino, index + run) == Map(v, ino, index) + run
    ensures Together(v, ino, index, run + 1)
  {
    hide Map;
  }

  lemma TogetherInRange(v: Vol, owner: Owner, ino: nat, index: nat, run: nat)
    requires Own(v, owner) && Together(v, ino, index, run) && run > 0
    ensures Map(v, ino, index) + run <= |v.disk|
  {
    hide Own, Map;
    MapInRange(v, owner, ino, index + run - 1);
    assert Map(v, ino, index + run - 1) == Map(v, ino, index) + (index + run - 1 - index);
  }

  /** How many blocks from `index` on follow each other both in the file and on disk; a
      transfer that fails ends the run. */
  method Gather(w: Wfs, c: Cache, ino: nat, index: nat, block: nat, want: nat, works: nat -> bool, n: nat)
    returns (run: nat)
    requires ino < |w.inodes| && Own(w.V(), w.owner) && Fronts(c, w) && BLOCK_SIZE <= want
    requires block == Map(w.V(), ino, index)
    modifies c, c.lines
    ensures Fronts(c, w) && 1 <= run <= READ_RUN_BLOCKS && run * BLOCK_SIZE <= want && block + run <= |w.disk|
    ensures Together(w.V(), ino, index, run)
  {
    hide Own, Map, C.BlockCache.Valid, Together;
    run := 1;
    assert Together(w.V(), ino, index, 1) by { TogetherOne(w.V(), ino, index); }
    while run < READ_RUN_BLOCKS && (run + 1) * BLOCK_SIZE <= want
      invariant Fronts(c, w) && 1 <= run <= READ_RUN_BLOCKS && run * BLOCK_SIZE <= want
      invariant Together(w.V(), ino, index, run)
    {
      var next := Bmap(w, c, ino, index + run, works, n + 2 * run);
      if next != C.Some(block + run) {
        break;
      }
      TogetherMore(w.V(), ino, index, run);
      run := run + 1;
    }
    TogetherInRange(w.V(), w.owner, ino, index, run);
  }

  lemma TogetherOne(v: Vol, ino: nat, index: nat)
    ensures Together(v, ino, index, 1)
  {
    hide Map;
  }

  /** Whole blocks that follow each other, in one transfer around the cache. */
  method ReadRun(w: Wfs, ino: nat, index: nat, block: nat, run: nat) returns (bytes: seq<Byte>)
    requires 1 <= run <= READ_RUN_BLOCKS && 0 < block && block + run <= |w.disk|
    requires block == Map(w.V(), ino, index) && Together(w.V(), ino, index, run)
    ensures |bytes| == run * BLOCK_SIZE && From(w.V(), ino, index * BLOCK_SIZE, bytes)
  {
    hide Map;
    bytes := w.BlocksRead(block, run);
    forall t | 0 <= t < |bytes| ensures bytes[t] == ByteAt(w.V(), ino, index * BLOCK_SIZE + t) {
      InBlock(index + t / BLOCK_SIZE, t % BLOCK_SIZE);
      assert index * BLOCK_SIZE + t == (index + t / BLOCK_SIZE) * BLOCK_SIZE + t % BLOCK_SIZE;
    }
  }

  /** Read a file.  `gather` says whether to look for runs to read around the cache.  What is read
      is the file, with or without runs and whatever the cache held; and a read fails only where
      a transfer does. */
  method Read(w: Wfs, c: Cache, ino: nat, offset: nat, len: nat, gather: bool, works: nat -> bool)
    returns (r: C.Option<seq<Byte>>)
    requires w.Sound() && Fronts(c, w) && ino < |w.inodes|
    modifies c, c.lines
    ensures Fronts(c, w) && (AllWork(works) ==> r.Some?)
    ensures r.Some? ==> r.value == Window(Contents(w.V(), ino), offset, len)
  {
    hide Own, Contents, ByteAt, From, Map, C.BlockCache.Valid, AllWork;
    var size := w.inodes[ino].size;
    SizeOfContents(w.V(), ino);
    if offset >= size {
      return C.Some([]);
    }
    var want := if offset + len > size then size - offset else len;
    var out: seq<Byte>, n: nat := [], 0;
    FromNone(w.V(), ino, offset);
    while |out| < want
      invariant Fronts(c, w) && |out| <= want && From(w.V(), ino, offset, out)
    {
      var at, left := offset + |out|, want - |out|;
      var piece := ReadPiece(w, c, ino, at, left, gather, works, n);
      if piece.None? {
        return C.None;
      }
      FromMore(w.V(), ino, offset, out, piece.value);
      out, n := out + piece.value, n + PIECE_TRANSFERS;
    }
    FromAll(w.V(), ino, offset, out);
    WindowIs(Contents(w.V(), ino), offset, len, out);
    return C.Some(out);
  }

  lemma FromNone(v: Vol, ino: nat, at: nat)
    ensures From(v, ino, at, [])
  {
  }

  lemma FromAll(v: Vol, ino: nat, offset: nat, out: seq<Byte>)
    requires ino < |v.inodes| && From(v, ino, offset, out) && offset + |out| <= v.inodes[ino].size
    ensures forall t :: 0 <= t < |out| ==> out[t] == Contents(v, ino)[offset + t]
  {
    ContentsAt(v, ino, offset, out);
  }

  /** More transfers than one turn of the loop can have: two for each block of a run, and its own. */
  const PIECE_TRANSFERS: nat := 2 * READ_RUN_BLOCKS + 1

  /** One turn of the loop: a run of whole blocks, or what is wanted of one. */
  method ReadPiece(w: Wfs, c: Cache, ino: nat, at: nat, left: nat, gather: bool, works: nat -> bool, n: nat)
    returns (r: C.Option<seq<Byte>>)
    requires Own(w.V(), w.owner) && Fronts(c, w) && ino < |w.inodes| && left > 0 && at + left <= MAX_FILE_SIZE
    modifies c, c.lines
    ensures Fronts(c, w) && (AllWork(works) ==> r.Some?)
    ensures r.Some? ==> 0 < |r.value| <= left && From(w.V(), ino, at, r.value)
  {
    hide Own, ByteAt, From, Map, C.BlockCache.Valid, Together;
    var index, inpos := at / BLOCK_SIZE, at % BLOCK_SIZE;
    var b := Bmap(w, c, ino, index, works, n);
    if b.None? {
      return C.None;
    }
    var block, last := b.value, n + PIECE_TRANSFERS - 1;
    if gather && inpos == 0 && block != 0 && left >= BLOCK_SIZE {
      var run := Gather(w, c, ino, index, block, left, works, n);
      if run > 1 {
        if !works(last) {
          return C.None;
        }
        var bytes := ReadRun(w, ino, index, block, run);
        return C.Some(bytes);
      }
    }
    r := ReadOne(w, c, ino, at, if BLOCK_SIZE - inpos > left then left else BLOCK_SIZE - inpos, block, works, last);
  }

  /** The driver's own read, which goes to the disk for everything, reads the same. */
  method SameBytes(w: Wfs, c: Cache, ino: nat, offset: nat, len: nat, gather: bool)
    returns (r: C.Option<seq<Byte>>, s: Result<seq<Byte>>)
    requires w.Sound() && Fronts(c, w) && 0 < ino < |w.inodes| && offset + len < WORD_LIMIT
    modifies w, c, c.lines
    ensures Fronts(c, w) && w.V() == old(w.V()) && r.Some? && s == Ok(r.value)
  {
    r := Read(w, c, ino, offset, len, gather, n => true);
    s := w.Read(ino, offset, len);
  }
}
