/** File contents of the memory file system (kernel/fs/ramfs.c): pages hung off each node,
    counted, never shared, and meeting the same file specification as the disk's. */
module RamStore {
  import opened WfsLayout
  import W = WfsDriver

  const PAGE: nat := 4096

  type Page = p: seq<Byte> | |p| == 4096 witness seq(4096, k => 0)
  type Name = seq<Byte>

  function ZeroPage(): Page { seq(4096, k => 0) }

  datatype Option<T> = None | Some(value: T)

  /** A node: its place in the tree, and for a file its size and pages, zero for a hole. */
  datatype Node = Node(typ: FileType, size: nat, name: Name, parent: Option<nat>, children: seq<nat>, blocks: seq<nat>)

  type Nodes = map<nat, Node>
  type Pages = map<nat, Page>

  /** For each page held, the node and the slot it hangs from. */
  type Owner = map<nat, (nat, nat)>

  function BlockOf(ns: Nodes, i: nat, k: nat): nat
  {
    if i in ns && k < |ns[i].blocks| then ns[i].blocks[k] else 0
  }

  function ByteAt(ns: Nodes, ps: Pages, i: nat, p: nat): Byte
  {
    var b := BlockOf(ns, i, p / PAGE);
    if b in ps then ps[b][p % PAGE] else 0
  }

  function Contents(ns: Nodes, ps: Pages, i: nat): (c: seq<Byte>)
    requires i in ns
    ensures |c| == ns[i].size && forall p :: 0 <= p < |c| ==> c[p] == ByteAt(ns, ps, i, p)
  {
    seq(ns[i].size, p requires 0 <= p => ByteAt(ns, ps, i, p))
  }

  /** Every page held hangs from exactly one slot, and every slot in use holds a page. */
  ghost predicate Owned(ns: Nodes, ps: Pages, owner: Owner)
  {
    && owner.Keys == ps.Keys && 0 !in ps
    && (forall b <- owner :: BlockOf(ns, owner[b].0, owner[b].1) == b)
    && (forall i: nat, k: nat :: BlockOf(ns, i, k) != 0 ==>
      BlockOf(ns, i, k) in owner && owner[BlockOf(ns, i, k)] == (i, k))
  }

  /** The bytes past the end of a file are zero. */
  ghost predicate Tidy(ns: Nodes, ps: Pages)
  {
    forall i: nat, p: nat :: i in ns && ns[i].size <= p ==> ByteAt(ns, ps, i, p) == 0
  }

  ghost predicate Stored(ns: Nodes, ps: Pages, held: nat, owner: Owner)
  {
    Owned(ns, ps, owner) && Tidy(ns, ps) && held == |ps|
  }

  /** The slots in use, over all nodes. */
  ghost function SlotsInUse(ns: Nodes): iset<(nat, nat)> { iset s: (nat, nat) | BlockOf(ns, s.0, s.1) != 0 }

  /** The count of pages is the count of slots in use: each page has its slot and each slot
      its page. */
  lemma PagesAreSlots(ns: Nodes, ps: Pages, held: nat, owner: Owner)
    requires Stored(ns, ps, held, owner)
    ensures |owner| == held
    ensures forall s: (nat, nat) :: s in SlotsInUse(ns) <==> exists b :: b in owner && owner[b] == s
    ensures forall a, b :: a in owner && b in owner && owner[a] == owner[b] ==> a == b
  {
    assert |owner.Keys| == |ps.Keys|;
    forall s: (nat, nat) | s in SlotsInUse(ns) ensures exists b :: b in owner && owner[b] == s {
      assert owner[BlockOf(ns, s.0, s.1)] == s;
    }
    forall s: (nat, nat) | exists b :: b in owner && owner[b] == s ensures s in SlotsInUse(ns) {
      var b :| b in owner && owner[b] == s;
      assert BlockOf(ns, s.0, s.1) == b;
    }
  }

  /* ---- steps on the store ---- */

  /** A longer array of page numbers, the new ones empty, changes nothing. */
  lemma Reserved(ns: Nodes, i: nat, grown: nat, j: nat, k: nat)
    requires i in ns && |ns[i].blocks| <= grown
    ensures BlockOf(ns[i := ns[i].(blocks := ns[i].blocks + seq(grown - |ns[i].blocks|, x => 0))], j, k) == BlockOf(ns,
      j, k)
  {
  }

  ghost predicate SameBlocks(ns: Nodes, ns': Nodes)
  {
    forall j: nat, k: nat :: BlockOf(ns', j, k) == BlockOf(ns, j, k)
  }

  lemma SameBlocksOwned(ns: Nodes, ns': Nodes, ps: Pages, owner: Owner)
    requires Owned(ns, ps, owner) && SameBlocks(ns, ns')
    ensures Owned(ns', ps, owner) && forall j: nat, p: nat :: ByteAt(ns', ps, j, p) == ByteAt(ns, ps, j, p)
  {
    hide BlockOf;
  }

  /** A fresh page, zeroed, put in an empty slot: no byte of any file changes. */
  lemma Added(ns: Nodes, ps: Pages, owner: Owner, i: nat, k: nat, b: nat, ns': Nodes)
    requires Owned(ns, ps, owner) && i in ns && k < |ns[i].blocks| && ns[i].blocks[k] == 0
    requires b != 0 && b !in ps && ns' == ns[i := ns[i].(blocks := ns[i].blocks[k := b])]
    ensures Owned(ns', ps[b := ZeroPage()], owner[b := (i, k)])
    ensures forall j: nat, p: nat :: ByteAt(ns', ps[b := ZeroPage()], j, p) == ByteAt(ns, ps, j, p)
    ensures |ps[b := ZeroPage()]| == |ps| + 1
  {
    forall j: nat, m: nat ensures BlockOf(ns', j, m) == if j == i && m == k then b else BlockOf(ns, j, m) { }
    AddedOwned(ns, ps, owner, i, k, b, ns');
  }

  lemma AddedOwned(ns: Nodes, ps: Pages, owner: Owner, i: nat, k: nat, b: nat, ns': Nodes)
    requires Owned(ns, ps, owner) && BlockOf(ns, i, k) == 0 && b != 0 && b !in ps
    requires forall j: nat, m: nat :: BlockOf(ns', j, m) == if j == i && m == k then b else BlockOf(ns, j, m)
    ensures Owned(ns', ps[b := ZeroPage()], owner[b := (i, k)])
    ensures forall j: nat, p: nat :: ByteAt(ns', ps[b := ZeroPage()], j, p) == ByteAt(ns, ps, j, p)
    ensures |ps[b := ZeroPage()]| == |ps| + 1
  {
    hide BlockOf;
    assert ps[b := ZeroPage()].Keys == ps.Keys + {b};
    forall j: nat, p: nat { AddedByte(ns, ps, owner, i, k, b, ns', j, p); }
    hide ByteAt;
  }

  lemma AddedByte(ns: Nodes, ps: Pages, owner: Owner, i: nat, k: nat, b: nat, ns': Nodes, j: nat, p: nat)
    requires Owned(ns, ps, owner) && BlockOf(ns, i, k) == 0 && b != 0 && b !in ps
    requires forall j: nat, m: nat :: BlockOf(ns', j, m) == if j == i && m == k then b else BlockOf(ns, j, m)
    ensures ByteAt(ns', ps[b := ZeroPage()], j, p) == ByteAt(ns, ps, j, p)
  {
    hide BlockOf;
  }

  /** Writing into a page changes that page of that file. */
  lemma PageWritten(ns: Nodes, ps: Pages, owner: Owner, i: nat, k: nat, data: Page, ps': Pages)
    requires Owned(ns, ps, owner) && BlockOf(ns, i, k) != 0 && ps' == ps[BlockOf(ns, i, k) := data]
    ensures BlockOf(ns, i, k) in ps && Owned(ns, ps', owner) && |ps'| == |ps|
    ensures forall j: nat, p: nat ::
      ByteAt(ns, ps', j, p) == if j == i && p / PAGE == k then data[p % PAGE] else ByteAt(ns, ps, j, p)
  {
    hide BlockOf;
    var b := BlockOf(ns, i, k);
    assert ps'.Keys == ps.Keys;
    forall j: nat, p: nat
      ensures ByteAt(ns, ps', j, p) == if j == i && p / PAGE == k then data[p % PAGE] else ByteAt(ns, ps, j, p)
    {
      if BlockOf(ns, j, p / PAGE) == b { BlockUnique(ns, ps, owner, i, k, j, p / PAGE); }
    }
  }

  lemma BlockUnique(ns: Nodes, ps: Pages, owner: Owner, i: nat, k: nat, j: nat, m: nat)
    requires Owned(ns, ps, owner) && BlockOf(ns, i, k) != 0 && BlockOf(ns, j, m) == BlockOf(ns, i, k)
    ensures j == i && m == k
  {
    hide BlockOf;
    assert owner[BlockOf(ns, i, k)] == (i, k) && owner[BlockOf(ns, j, m)] == (j, m);
  }

  /* ---- writing ---- */

  /** Only the pages of node `i` have changed, and of the bytes only those written so far. */
  ghost predicate Progress(ns0: Nodes, ps0: Pages, ns: Nodes, ps: Pages, i: nat, offset: nat, data: seq<Byte>,
    done: nat)
  {
    && done <= |data| && i in ns0 && i in ns && ns == ns0[i := ns0[i].(blocks := ns[i].blocks)]
    && forall j: nat, p: nat ::
         ByteAt(ns, ps, j, p) == if j == i && offset <= p < offset + done then data[p - offset]
           else ByteAt(ns0, ps0, j, p)
  }

  /** `ns` is `ns0` with the first `done` bytes of `data` in file `i` at `offset`. */
  ghost predicate Wrote(ns0: Nodes, ps0: Pages, ns: Nodes, ps: Pages, i: nat, offset: nat, data: seq<Byte>, done: nat)
  {
    && done <= |data| && i in ns0 && ns.Keys == ns0.Keys
    && ns[i] == ns0[i].(size := ns[i].size, blocks := ns[i].blocks)
    && Contents(ns, ps, i) == W.Overlay(Contents(ns0, ps0, i), offset, data[..done])
    && forall j :: j in ns0 && j != i ==> ns[j] == ns0[j] && Contents(ns, ps, j) == Contents(ns0, ps0, j)
  }

  function Patched(page: Page, pos: nat, bytes: seq<Byte>): (c: Page)
    requires pos + |bytes| <= PAGE
    ensures forall q :: 0 <= q < PAGE ==> c[q] == if pos <= q < pos + |bytes| then bytes[q - pos] else page[q]
  {
    page[..pos] + bytes + page[pos + |bytes|..]
  }

  lemma ProgressChunk(ns0: Nodes, ps0: Pages, ns: Nodes, ps: Pages, owner: Owner, i: nat, offset: nat, data: seq<Byte>,
    done: nat, chunk: nat, ps': Pages)
    requires Owned(ns, ps, owner) && done + chunk <= |data| && Progress(ns0, ps0, ns, ps, i, offset, data, done)
    requires (offset + done) % PAGE + chunk <= PAGE && BlockOf(ns, i, (offset + done) / PAGE) in ps
    requires BlockOf(ns, i, (offset + done) / PAGE) != 0
    requires var b := BlockOf(ns, i, (offset + done) / PAGE);
      ps' == ps[b := Patched(ps[b], (offset + done) % PAGE, data[done..done + chunk])]
    ensures Owned(ns, ps', owner) && |ps'| == |ps| && Progress(ns0, ps0, ns, ps', i, offset, data, done + chunk)
  {
    hide Owned, ByteAt, BlockOf, Patched;
    var k, pos := (offset + done) / PAGE, (offset + done) % PAGE;
    var b := BlockOf(ns, i, k);
    var page := Patched(ps[b], pos, data[done..done + chunk]);
    PageWritten(ns, ps, owner, i, k, page, ps');
    PageBytes(ns, ps, i, k);
    PatchedAt(ps[b], pos, data[done..done + chunk]);
    forall j: nat, p: nat
      ensures ByteAt(ns, ps', j, p)
           == if j == i && offset <= p < offset + (done + chunk) then data[p - offset] else ByteAt(ns0, ps0, j, p)
    {
      if j == i && p / PAGE == k {
        InChunk(offset, done, chunk, p);
      } else if j == i {
        OutOfChunk(offset, done, chunk, p);
      }
    }
  }

  lemma InChunk(offset: nat, done: nat, chunk: nat, p: nat)
    requires (offset + done) % PAGE + chunk <= PAGE && p / PAGE == (offset + done) / PAGE
    ensures var pos := (offset + done) % PAGE;
      (pos <= p % PAGE < pos + chunk <==> offset + done <= p < offset + done + chunk)
        && p % PAGE - pos == p - (offset + done)
  {
  }

  lemma OutOfChunk(offset: nat, done: nat, chunk: nat, p: nat)
    requires (offset + done) % PAGE + chunk <= PAGE && p / PAGE != (offset + done) / PAGE
    ensures !(offset + done <= p < offset + done + chunk)
  {
  }

  lemma PageBytes(ns: Nodes, ps: Pages, i: nat, k: nat)
    requires BlockOf(ns, i, k) in ps
    ensures forall p: nat :: p / PAGE == k ==> ByteAt(ns, ps, i, p) == ps[BlockOf(ns, i, k)][p % PAGE]
  {
  }

  lemma PatchedAt(page: Page, pos: nat, bytes: seq<Byte>)
    requires pos + |bytes| <= PAGE
    ensures var c := Patched(page, pos, bytes);
      forall q :: 0 <= q < PAGE ==> c[q] == if pos <= q < pos + |bytes| then bytes[q - pos] else page[q]
  {
  }

  /** The end of a write: the size goes up to where it got, and the file is the overlay. */
  lemma WriteDone(ns0: Nodes, ps0: Pages, ns: Nodes, ps: Pages, owner: Owner, i: nat, offset: nat, data: seq<Byte>,
    done: nat, ns': Nodes)
    requires Owned(ns, ps, owner) && Tidy(ns0, ps0) && Progress(ns0, ps0, ns, ps, i, offset, data, done)
    requires ns' == ns[i := ns[i].(size := W.Max(ns[i].size, offset + done))]
    ensures Owned(ns', ps, owner) && Tidy(ns', ps) && Wrote(ns0, ps0, ns', ps, i, offset, data, done)
  {
    hide Owned, ByteAt, BlockOf;
    SizeOnly(ns, i, W.Max(ns[i].size, offset + done));
    SameBlocksOwned(ns, ns', ps, owner);
    forall j: nat, p: nat | j in ns' && ns'[j].size <= p ensures ByteAt(ns', ps, j, p) == 0 {
      assert ByteAt(ns0, ps0, j, p) == 0;
    }
  }

  lemma SizeOnly(ns: Nodes, i: nat, size: nat)
    requires i in ns
    ensures SameBlocks(ns, ns[i := ns[i].(size := size)])
  {
  }

  /* ---- giving pages back ---- */

  ghost function PagesOf(owner: Owner, i: nat): set<nat> { set b | b in owner && owner[b].0 == i }

  /** A file without pages: the others are as they were, and the count has gone down by
      exactly the pages it had. */
  lemma AllReleased(ns: Nodes, ps: Pages, owner: Owner, i: nat, ns': Nodes, ps': Pages)
    requires Owned(ns, ps, owner) && Tidy(ns, ps) && i in ns
    requires ps' == ps - PagesOf(owner, i)
    requires (i in ns' ==> ns'[i].blocks == []) && forall j :: j != i ==>
      (j in ns <==> j in ns') && (j in ns ==> ns'[j].blocks == ns[j].blocks && ns'[j].size == ns[j].size)
    ensures Owned(ns', ps', owner - PagesOf(owner, i)) && Tidy(ns', ps') && |ps'| == |ps| - |PagesOf(owner, i)|
    ensures forall j: nat, p: nat :: j != i ==> ByteAt(ns', ps', j, p) == ByteAt(ns, ps, j, p)
  {
    forall j: nat, k: nat ensures BlockOf(ns', j, k) == if j == i then 0 else BlockOf(ns, j, k) { }
    ReleasedOwned(ns, ps, owner, i, ns', ps');
    ReleasedCount(ns, ps, owner, i, ps');
    forall j: nat, p: nat ensures ByteAt(ns', ps', j, p) == if j == i then 0 else ByteAt(ns, ps, j, p) {
      ReleasedByte(ns, ps, owner, i, ns', ps', j, p);
    }
    ReleasedTidy(ns, ps, i, ns', ps');
  }

  lemma ReleasedOwned(ns: Nodes, ps: Pages, owner: Owner, i: nat, ns': Nodes, ps': Pages)
    requires Owned(ns, ps, owner) && ps' == ps - PagesOf(owner, i)
    requires forall j: nat, k: nat :: BlockOf(ns', j, k) == if j == i then 0 else BlockOf(ns, j, k)
    ensures Owned(ns', ps', owner - PagesOf(owner, i))
  {
    hide BlockOf;
    var owner' := owner - PagesOf(owner, i);
    assert forall b :: b in owner' <==> b in owner && owner[b].0 != i;
    assert owner'.Keys == ps'.Keys;
  }

  lemma ReleasedCount(ns: Nodes, ps: Pages, owner: Owner, i: nat, ps': Pages)
    requires Owned(ns, ps, owner) && ps' == ps - PagesOf(owner, i)
    ensures |ps'| == |ps| - |PagesOf(owner, i)|
  {
    hide BlockOf;
    var gone := PagesOf(owner, i);
    assert ps'.Keys == ps.Keys - gone && gone <= ps.Keys;
    assert |ps'.Keys| == |ps.Keys| - |gone|;
  }

  lemma ReleasedByte(ns: Nodes, ps: Pages, owner: Owner, i: nat, ns': Nodes, ps': Pages, j: nat, p: nat)
    requires Owned(ns, ps, owner) && ps' == ps - PagesOf(owner, i)
    requires forall j: nat, k: nat :: BlockOf(ns', j, k) == if j == i then 0 else BlockOf(ns, j, k)
    ensures ByteAt(ns', ps', j, p) == if j == i then 0 else ByteAt(ns, ps, j, p)
  {
    hide BlockOf;
    var b := BlockOf(ns, j, p / PAGE);
    if b in ps { assert b in owner && owner[b] == (j, p / PAGE); }
  }

  lemma ReleasedTidy(ns: Nodes, ps: Pages, i: nat, ns': Nodes, ps': Pages)
    requires Tidy(ns, ps) && forall j :: j != i && j in ns' ==> j in ns && ns'[j].size == ns[j].size
    requires forall j: nat, p: nat :: j != i ==> ByteAt(ns', ps', j, p) == ByteAt(ns, ps, j, p)
    requires forall p: nat :: ByteAt(ns', ps', i, p) == 0
    ensures Tidy(ns', ps')
  {
    hide ByteAt;
  }
}
