/** The tree of the memory file system (kernel/fs/ramfs.c): nodes that know their parent and
    list their children, as a value. */
module RamTree {
  import opened WfsLayout
  import opened RamStore

  const ROOT: nat := 1

  function Parent(ns: Nodes, i: nat): Option<nat> { if i in ns then ns[i].parent else None }

  /** The node `k` levels up; the root is above itself. */
  function Climb(ns: Nodes, i: nat, k: nat): nat
    decreases k
  {
    if k == 0 || Parent(ns, i).None? then i else Climb(ns, Parent(ns, i).value, k - 1)
  }

  /** Following parents leads to the root, so there is no cycle. */
  ghost predicate Rooted(ns: Nodes, i: nat) { exists k: nat :: Climb(ns, i, k) == ROOT }

  /** The root is a directory with nothing above it; everything else is in a directory. */
  ghost predicate ParentsOk(ns: Nodes)
  {
    && ROOT in ns && ns[ROOT].typ == Dir && ns[ROOT].parent == None
    && forall i <- ns :: i != ROOT ==>
      ns[i].parent.Some? && ns[i].parent.value in ns && ns[ns[i].parent.value].typ == Dir
  }

  ghost predicate Distinct(s: seq<nat>) { forall k, m :: 0 <= k < m < |s| ==> s[k] != s[m] }

  /** A node lists exactly the nodes it is the parent of, each once. */
  ghost predicate ChildrenOk(ns: Nodes)
  {
    forall p <- ns :: ListsChildren(ns, p)
  }

  ghost predicate ListsChildren(ns: Nodes, p: nat)
    requires p in ns
  {
    Distinct(ns[p].children) && forall c :: c in ns[p].children <==> c in ns && ns[c].parent == Some(p)
  }

  ghost predicate NamesOk(ns: Nodes)
  {
    forall a, b :: a in ns && b in ns && a != b && ns[a].parent == ns[b].parent ==> ns[a].name != ns[b].name
  }

  ghost predicate TreeOk(ns: Nodes)
  {
    ParentsOk(ns) && ChildrenOk(ns) && NamesOk(ns) && forall i <- ns :: Rooted(ns, i)
  }

  /* ---- climbing ---- */

  /** Changing what is above `n` changes no climb that does not get to it. */
  lemma {:induction false} ClimbElsewhere(ns: Nodes, ns': Nodes, n: nat, i: nat, k: nat)
    requires forall j :: j != n ==> Parent(ns', j) == Parent(ns, j)
    requires forall m: nat :: m < k ==> Climb(ns, i, m) != n
    ensures Climb(ns', i, k) == Climb(ns, i, k)
    decreases k
  {
    if k > 0 && Parent(ns, i).Some? {
      assert Climb(ns, i, 0) == i;
      forall m: nat | m < k - 1 ensures Climb(ns, Parent(ns, i).value, m) != n { assert Climb(ns, i, m + 1) != n; }
      ClimbElsewhere(ns, ns', n, Parent(ns, i).value, k - 1);
    } else if k > 0 {
      assert Climb(ns, i, 0) == i;
    }
  }

  /** The first time a climb gets to `n`, if it does. */
  lemma {:induction false} FirstVisit(ns: Nodes, i: nat, k: nat, n: nat) returns (j: nat)
    requires Climb(ns, i, k) == n
    ensures j <= k && Climb(ns, i, j) == n && forall m: nat :: m < j ==> Climb(ns, i, m) != n
  {
    if m: nat :| m < k && Climb(ns, i, m) == n {
      j := FirstVisit(ns, i, m, n);
    } else {
      j := k;
    }
  }

  lemma {:induction false} ClimbOn(ns: Nodes, i: nat, j: nat, k: nat)
    ensures Climb(ns, i, j + k) == Climb(ns, Climb(ns, i, j), k)
    decreases j
  {
    if j > 0 && Parent(ns, i).Some? {
      ClimbOn(ns, Parent(ns, i).value, j - 1, k);
    } else if j > 0 {
      ClimbTop(ns, i, j + k);
      ClimbTop(ns, i, k);
    }
  }

  lemma ClimbTop(ns: Nodes, i: nat, k: nat)
    requires Parent(ns, i).None?
    ensures Climb(ns, i, k) == i
  {
  }

  /** Moving `n` under `t` leaves no cycle, provided `n` is not above `t`. */
  lemma MoveKeepsRooted(ns: Nodes, ns': Nodes, n: nat, t: nat, i: nat)
    requires forall j :: j != n ==> Parent(ns', j) == Parent(ns, j)
    requires Parent(ns', n) == Some(t) && Rooted(ns, t) && Rooted(ns, i) && Parent(ns, ROOT).None?
    requires forall k: nat :: Climb(ns, t, k) != n
    ensures Rooted(ns', i)
  {
    var kt: nat :| Climb(ns, t, kt) == ROOT;
    ClimbElsewhere(ns, ns', n, t, kt);
    if k: nat :| Climb(ns, i, k) == n {
      var j := FirstVisit(ns, i, k, n);
      ClimbElsewhere(ns, ns', n, i, j);
      assert Climb(ns', n, 1 + kt) == Climb(ns', t, kt);
      ClimbOn(ns', i, j, 1 + kt);
      assert Climb(ns', i, j + (1 + kt)) == ROOT;
    } else {
      var k: nat :| Climb(ns, i, k) == ROOT;
      ClimbElsewhere(ns, ns', n, i, k);
      assert Climb(ns', i, k) == ROOT;
    }
  }

  /* ---- lists of children ---- */

  function Without(s: seq<nat>, x: nat): seq<nat>
  {
    if s == [] then [] else (if s[0] == x then [] else [s[0]]) + Without(s[1..], x)
  }

  lemma {:induction false} WithoutFacts(s: seq<nat>, x: nat)
    requires Distinct(s)
    ensures Distinct(Without(s, x)) && forall c :: c in Without(s, x) <==> c in s && c != x
  {
    if s != [] {
      WithoutFacts(s[1..], x);
      assert forall c :: c in s <==> c == s[0] || c in s[1..];
      assert s[0] !in s[1..];
    }
  }

  lemma Prepended(s: seq<nat>, x: nat)
    requires Distinct(s) && x !in s
    ensures Distinct([x] + s) && forall c :: c in [x] + s <==> c == x || c in s
  {
  }

  /* ---- what the operations do to the tree ---- */

  function WithChildren(ns: Nodes, p: nat, cs: seq<nat>): Nodes
    requires p in ns
  {
    ns[p := ns[p].(children := cs)]
  }

  /** A new node at the head of its parent's list. */
  function Made(ns: Nodes, i: nat, typ: FileType, name: Name, p: nat): Nodes
    requires p in ns
  {
    WithChildren(ns, p, [i] + ns[p].children)[i := Node(typ, 0, name, Some(p), [], [])]
  }

  /** A node without children, gone from the tree. */
  function Removed(ns: Nodes, p: nat, i: nat): Nodes
    requires p in ns
  {
    map j | j in ns && j != i :: if j == p then ns[p].(children := Without(ns[p].children, i)) else ns[j]
  }

  /** A node taken from one list and put at the head of another, under another name. */
  function Moved(ns: Nodes, n: nat, p: nat, t: nat, name: Name): Nodes
    requires n in ns && p in ns && t in ns
  {
    var a := WithChildren(ns, p, Without(ns[p].children, n));
    var b := a[n := a[n].(name := name, parent := Some(t))];
    WithChildren(b, t, [n] + b[t].children)
  }

  ghost predicate Vacant(ns: Nodes, p: nat, name: Name)
  {
    p in ns && ns[p].typ == Dir && forall c <- ns :: ns[c].parent == Some(p) ==> ns[c].name != name
  }

  lemma MadeOk(ns: Nodes, i: nat, typ: FileType, name: Name, p: nat)
    requires TreeOk(ns) && Vacant(ns, p, name) && i !in ns && i != ROOT
    ensures TreeOk(Made(ns, i, typ, name, p))
  {
    hide ChildrenOk, NamesOk, Made, Rooted;
    var ns' := Made(ns, i, typ, name, p);
    MadeParents(ns, i, typ, name, p);
    MadeChildren(ns, i, typ, name, p);
    MadeNames(ns, i, typ, name, p);
    forall j <- ns' ensures Rooted(ns', j) { MadeRooted(ns, i, typ, name, p, j); }
  }

  lemma MadeParents(ns: Nodes, i: nat, typ: FileType, name: Name, p: nat)
    requires ParentsOk(ns) && p in ns && ns[p].typ == Dir && i !in ns && i != ROOT
    ensures ParentsOk(Made(ns, i, typ, name, p)) && Made(ns, i, typ, name, p).Keys == ns.Keys + {i}
  {
  }

  lemma MadeNodes(ns: Nodes, i: nat, typ: FileType, name: Name, p: nat)
    requires p in ns && i !in ns
    ensures var ns' := Made(ns, i, typ, name, p);
      && ns'.Keys == ns.Keys + {i} && ns'[i] == Node(typ, 0, name, Some(p), [], [])
      && (forall j <- ns :: ns'[j].parent == ns[j].parent && ns'[j].name == ns[j].name && ns'[j].typ == ns[j].typ)
      && (forall j <- ns :: ns'[j].size == ns[j].size && ns'[j].blocks == ns[j].blocks)
      && (forall j <- ns :: ns'[j].children == if j == p then [i] + ns[p].children else ns[j].children)
  {
  }

  lemma MadeChildren(ns: Nodes, i: nat, typ: FileType, name: Name, p: nat)
    requires ParentsOk(ns) && ChildrenOk(ns) && p in ns && i !in ns
    ensures ChildrenOk(Made(ns, i, typ, name, p))
  {
    hide Made, Distinct, ListsChildren;
    MadeNodes(ns, i, typ, name, p);
    var ns' := Made(ns, i, typ, name, p);
    forall q <- ns' ensures ListsChildren(ns', q) { MadeLists(ns, i, typ, name, p, q); }
  }

  lemma MadeLists(ns: Nodes, i: nat, typ: FileType, name: Name, p: nat, q: nat)
    requires ParentsOk(ns) && p in ns && i !in ns && (q == i || (q in ns && ListsChildren(ns, q)))
    ensures q in Made(ns, i, typ, name, p) && ListsChildren(Made(ns, i, typ, name, p), q)
  {
    hide Made;
    MadeNodes(ns, i, typ, name, p);
    if q == p { Prepended(ns[p].children, i); }
  }

  lemma MadeNames(ns: Nodes, i: nat, typ: FileType, name: Name, p: nat)
    requires NamesOk(ns) && Vacant(ns, p, name) && i !in ns
    ensures NamesOk(Made(ns, i, typ, name, p))
  {
  }

  lemma MadeRooted(ns: Nodes, i: nat, typ: FileType, name: Name, p: nat, j: nat)
    requires ParentsOk(ns) && (forall i <- ns :: Rooted(ns, i)) && p in ns && i !in ns && i != ROOT
      && (j in ns || j == i)
    ensures Rooted(Made(ns, i, typ, name, p), j)
  {
    var ns' := Made(ns, i, typ, name, p);
    var from := if j == i then p else j;
    var k: nat :| Climb(ns, from, k) == ROOT;
    NeverOutside(ns, from, i);
    ClimbElsewhere(ns, ns', i, from, k);
    if j == i {
      assert Climb(ns', i, 1 + k) == Climb(ns', p, k);
    }
    assert Climb(ns', j, if j == i then 1 + k else k) == ROOT;
  }

  /** A climb from a node stays among the nodes. */
  lemma NeverOutside(ns: Nodes, from: nat, i: nat)
    requires ParentsOk(ns) && from in ns && i !in ns
    ensures forall k: nat :: Climb(ns, from, k) != i
  {
    forall k: nat ensures Climb(ns, from, k) in ns { StaysInside(ns, from, k); }
  }

  lemma {:induction false} StaysInside(ns: Nodes, from: nat, k: nat)
    requires ParentsOk(ns) && from in ns
    ensures Climb(ns, from, k) in ns
    decreases k
  {
    if k > 0 && Parent(ns, from).Some? { StaysInside(ns, Parent(ns, from).value, k - 1); }
  }

  lemma RemovedOk(ns: Nodes, p: nat, i: nat)
    requires TreeOk(ns) && i in ns && ns[i].parent == Some(p) && ns[i].children == []
    ensures TreeOk(Removed(ns, p, i))
  {
    NobodysParent(ns, p, i);
    hide ChildrenOk, NamesOk, Rooted, Removed;
    RemovedNodes(ns, p, i);
    RemovedParents(ns, p, i);
    RemovedChildren(ns, p, i);
    RemovedNames(ns, p, i);
    forall j <- Removed(ns, p, i) ensures Rooted(Removed(ns, p, i), j) { RemovedRooted(ns, p, i, j); }
  }

  lemma NobodysParent(ns: Nodes, p: nat, i: nat)
    requires ParentsOk(ns) && ChildrenOk(ns) && i in ns && ns[i].parent == Some(p) && ns[i].children == []
    ensures p in ns && p != i && forall c <- ns :: ns[c].parent != Some(i)
  {
    assert ListsChildren(ns, i) && ListsChildren(ns, p);
    forall c <- ns ensures ns[c].parent != Some(i) { assert c !in ns[i].children; }
  }

  lemma RemovedNodes(ns: Nodes, p: nat, i: nat)
    requires i in ns && p in ns && p != i
    ensures var ns' := Removed(ns, p, i);
      && ns'.Keys == ns.Keys - {i}
      && (forall j <- ns' :: j in ns && j != i && ns'[j].parent == ns[j].parent && ns'[j].name == ns[j].name)
      && (forall j <- ns' :: ns'[j].size == ns[j].size && ns'[j].blocks == ns[j].blocks && ns'[j].typ == ns[j].typ)
      && (forall j <- ns' :: j != p ==> ns'[j].children == ns[j].children)
      && p in ns' && ns'[p].children == Without(ns[p].children, i)
  {
    hide Without;
  }

  lemma RemovedParents(ns: Nodes, p: nat, i: nat)
    requires ParentsOk(ns) && i in ns && p in ns && p != i && ns[i].parent == Some(p)
      && (forall c <- ns :: ns[c].parent != Some(i))
    ensures ParentsOk(Removed(ns, p, i))
  {
    hide Removed, Without;
    RemovedNodes(ns, p, i);
  }

  lemma RemovedChildren(ns: Nodes, p: nat, i: nat)
    requires ParentsOk(ns) && ChildrenOk(ns) && i in ns && p in ns && p != i && ns[i].parent == Some(p)
    requires forall c <- ns :: ns[c].parent != Some(i)
    ensures ChildrenOk(Removed(ns, p, i))
  {
    hide Removed, Without, Distinct, ParentsOk;
    RemovedNodes(ns, p, i);
    WithoutFacts(ns[p].children, i);
    var ns' := Removed(ns, p, i);
    forall q <- ns' ensures ListsChildren(ns', q) {
      assert ListsChildren(ns, q);
    }
  }

  lemma RemovedNames(ns: Nodes, p: nat, i: nat)
    requires ParentsOk(ns) && NamesOk(ns) && i in ns && p in ns && p != i && ns[i].parent == Some(p)
    requires forall c <- ns :: ns[c].parent != Some(i)
    ensures NamesOk(Removed(ns, p, i))
  {
    hide Removed, Without;
    RemovedNodes(ns, p, i);
  }

  lemma RemovedRooted(ns: Nodes, p: nat, i: nat, j: nat)
    requires ParentsOk(ns) && i in ns && p in ns && p != i && ns[i].parent == Some(p)
      && (forall c <- ns :: ns[c].parent != Some(i))
    requires Rooted(ns, j) && j in ns && j != i
    ensures Rooted(Removed(ns, p, i), j)
  {
    hide Removed, Without;
    RemovedNodes(ns, p, i);
    var ns' := Removed(ns, p, i);
    var k: nat :| Climb(ns, j, k) == ROOT;
    NotThrough(ns, i, j);
    assert forall m :: m != i ==> Parent(ns', m) == Parent(ns, m);
    ClimbElsewhere(ns, ns', i, j, k);
    assert Climb(ns', j, k) == ROOT;
  }

  /** What is nobody's parent is on no climb but its own. */
  lemma NotThrough(ns: Nodes, i: nat, j: nat)
    requires (forall c <- ns :: ns[c].parent != Some(i)) && j != i
    ensures forall k: nat :: Climb(ns, j, k) != i
  {
    forall k: nat ensures Climb(ns, j, k) != i { NotThroughAt(ns, i, j, k); }
  }

  lemma {:induction false} NotThroughAt(ns: Nodes, i: nat, j: nat, k: nat)
    requires (forall c <- ns :: ns[c].parent != Some(i)) && j != i
    ensures Climb(ns, j, k) != i
    decreases k
  {
    if k > 0 && Parent(ns, j).Some? { NotThroughAt(ns, i, Parent(ns, j).value, k - 1); }
  }

  lemma MovedOk(ns: Nodes, n: nat, p: nat, t: nat, name: Name)
    requires TreeOk(ns) && n in ns && ns[n].parent == Some(p) && t in ns && ns[t].typ == Dir
    requires forall c <- ns :: c != n && ns[c].parent == Some(t) ==> ns[c].name != name
    requires forall k: nat :: Climb(ns, t, k) != n
    ensures TreeOk(Moved(ns, n, p, t, name))
  {
    hide ChildrenOk, NamesOk, Rooted, Moved, ParentsOk, Climb;
    ClimbZero(ns, t);
    ParentNotSelf(ns, n, p);
    var ns' := Moved(ns, n, p, t, name);
    MovedParents(ns, n, p, t, name);
    MovedChildren(ns, n, p, t, name);
    MovedNames(ns, n, p, t, name);
    forall j <- ns' ensures Rooted(ns', j) { MoveKeepsRooted(ns, ns', n, t, j); }
  }

  lemma ClimbZero(ns: Nodes, t: nat)
    ensures Climb(ns, t, 0) == t
  {
  }

  lemma MovedParents(ns: Nodes, n: nat, p: nat, t: nat, name: Name)
    requires ParentsOk(ns) && n in ns && p in ns && t in ns && n != p && n != t && ns[t].typ == Dir
      && ns[n].parent == Some(p)
    ensures var ns' := Moved(ns, n, p, t, name);
      && ParentsOk(ns') && ns'.Keys == ns.Keys && Parent(ns', n) == Some(t) && Parent(ns, ROOT).None?
      && forall j :: j != n ==> Parent(ns', j) == Parent(ns, j)
  {
    hide Moved, Without;
    var ns' := Moved(ns, n, p, t, name);
    MovedAt(ns, n, p, t, name, n);
    forall j
      ensures j in ns' <==> j in ns
      ensures j in ns && j != n ==> ns'[j].parent == ns[j].parent && ns'[j].typ == ns[j].typ
    {
      if j >= 0 { MovedAt(ns, n, p, t, name, j); }
    }
    assert ns'.Keys == ns.Keys;
  }

  lemma ParentNotSelf(ns: Nodes, n: nat, p: nat)
    requires ParentsOk(ns) && Rooted(ns, n) && n in ns && ns[n].parent == Some(p)
    ensures p in ns && p != n
  {
    if p == n {
      var k: nat :| Climb(ns, n, k) == ROOT;
      Circling(ns, n, k);
    }
  }

  lemma {:induction false} Circling(ns: Nodes, n: nat, k: nat)
    requires Parent(ns, n) == Some(n)
    ensures Climb(ns, n, k) == n
  {
    if k > 0 { Circling(ns, n, k - 1); }
  }

  lemma MovedNames(ns: Nodes, n: nat, p: nat, t: nat, name: Name)
    requires NamesOk(ns) && n in ns && p in ns && t in ns && n != p && n != t
    requires forall c <- ns :: c != n && ns[c].parent == Some(t) ==> ns[c].name != name
    ensures NamesOk(Moved(ns, n, p, t, name))
  {
    hide Moved;
    MovedNodes(ns, n, p, t, name);
  }

  lemma MovedNodes(ns: Nodes, n: nat, p: nat, t: nat, name: Name)
    requires n in ns && p in ns && t in ns && n != p && n != t
    ensures var ns' := Moved(ns, n, p, t, name);
      && ns'.Keys == ns.Keys
      && (forall j <- ns :: ns'[j].typ == ns[j].typ && ns'[j].size == ns[j].size && ns'[j].blocks == ns[j].blocks)
      && (forall j <- ns :: ns'[j].parent == if j == n then Some(t) else ns[j].parent)
      && (forall j <- ns :: ns'[j].name == if j == n then name else ns[j].name)
      && (forall j <- ns :: j != p && j != t ==> ns'[j].children == ns[j].children)
      && ns'[t].children == [n] + (if t == p then Without(ns[t].children, n) else ns[t].children)
      && (p != t ==> ns'[p].children == Without(ns[p].children, n))
  {
    hide Without, Moved;
    var ns' := Moved(ns, n, p, t, name);
    forall j: nat ensures j in ns' <==> j in ns { MovedAt(ns, n, p, t, name, j); }
    forall j <- ns
      ensures ns'[j].typ == ns[j].typ && ns'[j].size == ns[j].size && ns'[j].blocks == ns[j].blocks
      ensures ns'[j].parent == (if j == n then Some(t) else ns[j].parent)
      ensures ns'[j].name == (if j == n then name else ns[j].name)
      ensures j != p && j != t ==> ns'[j].children == ns[j].children
    {
      MovedAt(ns, n, p, t, name, j);
    }
    MovedAt(ns, n, p, t, name, t);
    MovedAt(ns, n, p, t, name, p);
  }

  lemma MovedAt(ns: Nodes, n: nat, p: nat, t: nat, name: Name, j: nat)
    requires n in ns && p in ns && t in ns && n != p && n != t
    ensures var ns' := Moved(ns, n, p, t, name);
      && (j in ns' <==> j in ns)
      && (j == n ==> ns'[j] == ns[j].(name := name, parent := Some(t)))
      && (j == t ==> ns'[j] == ns[j].(children := [n] + if t == p then Without(ns[t].children, n) else ns[t].children))
      && (j == p && p != t ==> ns'[j] == ns[j].(children := Without(ns[p].children, n)))
      && (j in ns && j != n && j != p && j != t ==> ns'[j] == ns[j])
  {
    hide Without;
  }

  lemma MovedChildren(ns: Nodes, n: nat, p: nat, t: nat, name: Name)
    requires ParentsOk(ns) && ChildrenOk(ns) && n in ns && ns[n].parent == Some(p) && p in ns && t in ns && n != p
      && n != t
    ensures ChildrenOk(Moved(ns, n, p, t, name))
  {
    hide Moved, Distinct, ListsChildren, Without;
    MovedNodes(ns, n, p, t, name);
    var ns' := Moved(ns, n, p, t, name);
    forall q <- ns' ensures ListsChildren(ns', q) { MovedLists(ns, n, p, t, name, q); }
  }

  lemma MovedLists(ns: Nodes, n: nat, p: nat, t: nat, name: Name, q: nat)
    requires n in ns && ns[n].parent == Some(p) && p in ns && t in ns && n != p && n != t && q in ns
      && ListsChildren(ns, q)
    ensures q in Moved(ns, n, p, t, name) && ListsChildren(Moved(ns, n, p, t, name), q)
  {
    hide Moved, Without;
    MovedNodes(ns, n, p, t, name);
    if q == p { WithoutFacts(ns[p].children, n); }
    if q == t { Prepended(if t == p then Without(ns[t].children, n) else ns[t].children, n); }
  }

  /** Nodes that differ only in sizes and pages. */
  ghost predicate SameShape(ns: Nodes, ns': Nodes)
  {
    && ns'.Keys == ns.Keys
    && forall j <- ns ::
      ns'[j].typ == ns[j].typ && ns'[j].parent == ns[j].parent && ns'[j].name == ns[j].name
      && ns'[j].children == ns[j].children
  }

  lemma SameShapeOk(ns: Nodes, ns': Nodes)
    requires TreeOk(ns) && SameShape(ns, ns')
    ensures TreeOk(ns')
  {
    hide ListsChildren, Rooted;
    forall p <- ns' ensures ListsChildren(ns', p) { SameLists(ns, ns', p); }
    forall i <- ns' ensures Rooted(ns', i) { SameRooted(ns, ns', i); }
  }

  lemma SameLists(ns: Nodes, ns': Nodes, p: nat)
    requires SameShape(ns, ns') && p in ns && ListsChildren(ns, p)
    ensures ListsChildren(ns', p)
  {
  }

  lemma SameRooted(ns: Nodes, ns': Nodes, i: nat)
    requires SameShape(ns, ns') && Rooted(ns, i)
    ensures Rooted(ns', i)
  {
    var k: nat :| Climb(ns, i, k) == ROOT;
    SameClimb(ns, ns', i, k);
  }

  lemma {:induction false} SameClimb(ns: Nodes, ns': Nodes, i: nat, k: nat)
    requires SameShape(ns, ns')
    ensures Climb(ns', i, k) == Climb(ns, i, k)
    decreases k
  {
    if k > 0 && Parent(ns, i).Some? { SameClimb(ns, ns', Parent(ns, i).value, k - 1); }
  }
}
