/** The ACPI namespace (kernel/acpi/aml_ns.c, and aml_ns_create_path of
    kernel/acpi/aml_parse.c): a tree of four-character names, and the rules by which a
    path names a node (section 5.3 of the ACPI Specification). */
module AmlNamespace {

  datatype Option<T> = None | Some(value: T)

  type Seg = s: seq<char> | |s| == 4 witness "____"
  type Path = seq<char>

  datatype Kind = Scope | Device | Method | Region | Mutex | Object

  /** Nodes are known by their place in the namespace; the root is number 0. */
  datatype Node = Node(name: Seg, kind: Kind, parent: Option<nat>, children: seq<nat>)

  type Tree = seq<Node>

  const ROOT: nat := 0

  /** Text up to its terminator. */
  function CStr(text: Path): (r: Path)
    ensures |r| <= |text| && r == text[..|r|] && (|r| < |text| ==> text[|r|] == '\0') && '\0' !in r
  {
    if text == [] || text[0] == '\0' then [] else [text[0]] + CStr(text[1..])
  }

  /** A segment as four characters: cut short, or padded with underscores from where it ends. */
  function Pad(s: Path): Seg
  {
    var t := CStr(if |s| > 4 then s[..4] else s);
    t + seq(4 - |t|, k => '_')
  }

  /* ---- the invariant ---- */

  ghost predicate IsChild(t: Tree, p: nat, k: nat, c: nat)
  {
    p < |t| && k < |t[p].children| && t[p].children[k] == c
  }

  /** Parents come before their children, and every node but the root is among its
      parent's children. */
  ghost predicate ParentsOk(t: Tree)
  {
    && |t| > 0 && t[ROOT].parent == None
    && forall i :: 0 < i < |t| ==> t[i].parent.Some? && t[i].parent.value < i && i in t[t[i].parent.value].children
  }

  ghost predicate ChildrenOk(t: Tree)
  {
    forall p: nat, k: nat, c: nat :: IsChild(t, p, k, c) ==> p < c < |t| && t[c].parent == Some(p)
  }

  ghost predicate NamesDistinct(t: Tree)
    requires ChildrenOk(t)
  {
    forall p: nat, j: nat, k: nat, c: nat, d: nat ::
      IsChild(t, p, j, c) && IsChild(t, p, k, d) && j != k ==> t[c].name != t[d].name
  }

  /** The namespace is a tree in which siblings have different names. */
  ghost predicate Valid(t: Tree) { ParentsOk(t) && ChildrenOk(t) && NamesDistinct(t) }

  /** How far below the root a node is. */
  function Depth(t: Tree, i: nat): nat
    requires Valid(t) && i < |t|
    decreases i
  {
    if i == ROOT then 0 else 1 + Depth(t, t[i].parent.value)
  }

  /* ---- lookup ---- */

  function ChildFrom(t: Tree, cs: seq<nat>, seg: Seg): Option<nat>
  {
    if cs == [] then None
    else if cs[0] < |t| && t[cs[0]].name == seg then Some(cs[0])
    else ChildFrom(t, cs[1..], seg)
  }

  function Child(t: Tree, p: nat, seg: Seg): Option<nat>
  {
    if p < |t| then ChildFrom(t, t[p].children, seg) else None
  }

  function SegLen(p: Path): (n: nat)
    ensures n <= |p| && (n < |p| ==> p[n] == '.') && '.' !in p[..n]
  {
    if p == [] || p[0] == '.' then 0 else 1 + SegLen(p[1..])
  }

  function SkipDot(p: Path): Path { if p != [] && p[0] == '.' then p[1..] else p }

  function SkipDots(p: Path): (q: Path)
    ensures |q| <= |p| && (q != [] ==> q[0] != '.')
  {
    if p != [] && p[0] == '.' then SkipDots(p[1..]) else p
  }

  /** Follow a dotted path down from `at`, with no searching upwards. */
  function WalkDown(t: Tree, at: nat, p: Path): Option<nat>
    decreases |p|
  {
    if p == [] then Some(at)
    else
      var n := SegLen(p);
      var c := Child(t, at, Pad(p[..n]));
      if c.None? then None else WalkDown(t, c.value, SkipDot(p[n..]))
  }

  function Up(t: Tree, at: nat): nat { if at < |t| && t[at].parent.Some? then t[at].parent.value else at }

  /** One level up for each leading caret. */
  function Climb(t: Tree, at: nat, p: Path): nat
    decreases |p|
  {
    if p != [] && p[0] == '^' then Climb(t, Up(t, at), p[1..]) else at
  }

  function AfterCarets(p: Path): (q: Path)
    ensures |q| <= |p| && (q != [] ==> q[0] != '^')
  {
    if p != [] && p[0] == '^' then AfterCarets(p[1..]) else p
  }

  /** The search for a relative name: this scope, then each one around it. */
  function Search(t: Tree, at: nat, p: Path): Option<nat>
    requires Valid(t) && at < |t|
    decreases at
  {
    var n := SegLen(p);
    var hit := Child(t, at, Pad(p[..n]));
    if hit.Some? then WalkDown(t, hit.value, SkipDot(p[n..]))
    else if at == ROOT then None
    else Search(t, t[at].parent.value, p)
  }

  function Lookup(t: Tree, from: Option<nat>, path: Path): Option<nat>
    requires Valid(t) && (from.Some? ==> from.value < |t|)
  {
    var base := if from.Some? then from.value else ROOT;
    if path != [] && path[0] == '\\' then WalkDown(t, ROOT, SkipDots(path[1..]))
    else if path != [] && path[0] == '^' then WalkDown(t, Climb(t, base, path), SkipDot(AfterCarets(path)))
    else Search(t, base, path)
  }

  /* ---- what Child finds ---- */

  lemma {:induction false} ChildFromFinds(t: Tree, cs: seq<nat>, seg: Seg)
    ensures var c := ChildFrom(t, cs, seg);
      if c.Some? then c.value in cs && c.value < |t| && t[c.value].name == seg
      else forall k :: 0 <= k < |cs| && cs[k] < |t| ==> t[cs[k]].name != seg
  {
    if cs != [] { ChildFromFinds(t, cs[1..], seg); }
  }

  /** `Child` finds the one child with that name, if there is one. */
  lemma ChildIff(t: Tree, p: nat, seg: Seg, c: nat)
    requires Valid(t) && p < |t|
    ensures Child(t, p, seg) == Some(c) <==> 0 < c < |t| && t[c].parent == Some(p) && t[c].name == seg
  {
    ChildFromFinds(t, t[p].children, seg);
    var f := Child(t, p, seg);
    if f.Some? {
      var k :| 0 <= k < |t[p].children| && t[p].children[k] == f.value;
      assert IsChild(t, p, k, f.value);
      if 0 < c < |t| && t[c].parent == Some(p) && t[c].name == seg {
        var j :| 0 <= j < |t[p].children| && t[p].children[j] == c;
        assert IsChild(t, p, j, c);
      }
    }
  }

  /* ---- growing ---- */

  /** A namespace only grows: nodes keep their names and places, children are appended,
      and the only kind that ever changes is a plain scope's. */
  ghost predicate Grows(t: Tree, t': Tree)
  {
    && |t| <= |t'|
    && forall i :: 0 <= i < |t| ==>
         && t'[i].name == t[i].name && t'[i].parent == t[i].parent && t[i].children <= t'[i].children
         && (t'[i].kind == t[i].kind || t[i].kind == Scope)
  }

  lemma GrowsRefl(t: Tree)
    ensures Grows(t, t)
  {
  }

  lemma GrowsTrans(t: Tree, u: Tree, w: Tree)
    requires Grows(t, u) && Grows(u, w)
    ensures Grows(t, w)
  {
  }

  lemma ChildStays(t: Tree, t': Tree, p: nat, seg: Seg)
    requires Valid(t) && Valid(t') && Grows(t, t') && p < |t| && Child(t, p, seg).Some?
    ensures Child(t', p, seg) == Child(t, p, seg)
  {
    var c := Child(t, p, seg).value;
    ChildIff(t, p, seg, c);
    ChildIff(t', p, seg, c);
  }

  /** `t` with one more node, the last child of `p`. */
  function Appended(t: Tree, p: nat, seg: Seg, kind: Kind): Tree
    requires p < |t|
  {
    t[p := t[p].(children := t[p].children + [|t|])] + [Node(seg, kind, Some(p), [])]
  }

  lemma AppendedValid(t: Tree, p: nat, seg: Seg, kind: Kind)
    requires Valid(t) && p < |t| && Child(t, p, seg).None?
    ensures Valid(Appended(t, p, seg, kind)) && Grows(t, Appended(t, p, seg, kind))
  {
    hide ParentsOk, ChildrenOk, NamesDistinct;
    AppendedParents(t, p, seg, kind);
    AppendedChildren(t, p, seg, kind);
    AppendedNames(t, p, seg, kind);
  }

  lemma AppendedParents(t: Tree, p: nat, seg: Seg, kind: Kind)
    requires ParentsOk(t) && p < |t|
    ensures ParentsOk(Appended(t, p, seg, kind))
  {
    var t' := Appended(t, p, seg, kind);
    assert t'[p].children[|t[p].children|] == |t| && t'[|t|] == Node(seg, kind, Some(p), []);
    forall i | 0 < i < |t|
      ensures t'[i].parent == t[i].parent && t[i].parent.Some? && t[i].parent.value < i
      ensures i in t'[t[i].parent.value].children
    {
      ListedStill(t, p, seg, kind, t[i].parent.value, i);
    }
  }

  lemma ListedStill(t: Tree, p: nat, seg: Seg, kind: Kind, q: nat, i: nat)
    requires p < |t| && q < |t| && i in t[q].children
    ensures i in Appended(t, p, seg, kind)[q].children
  {
    var k :| 0 <= k < |t[q].children| && t[q].children[k] == i;
    assert Appended(t, p, seg, kind)[q].children[k] == i;
  }

  /** A child in the longer namespace is the new node, or was one before. */
  lemma AppendedChild(t: Tree, p: nat, seg: Seg, kind: Kind, q: nat, k: nat, c: nat)
    requires p < |t| && IsChild(Appended(t, p, seg, kind), q, k, c)
    ensures if q == p && k == |t[p].children| then c == |t| else IsChild(t, q, k, c)
  {
  }

  lemma AppendedChildren(t: Tree, p: nat, seg: Seg, kind: Kind)
    requires ChildrenOk(t) && p < |t|
    ensures ChildrenOk(Appended(t, p, seg, kind))
  {
    var t' := Appended(t, p, seg, kind);
    forall q: nat, k: nat, c: nat | IsChild(t', q, k, c) ensures q < c < |t'| && t'[c].parent == Some(q) {
      AppendedChild(t, p, seg, kind, q, k, c);
    }
  }

  lemma AppendedNames(t: Tree, p: nat, seg: Seg, kind: Kind)
    requires ChildrenOk(t) && NamesDistinct(t) && p < |t| && Child(t, p, seg).None?
    ensures ChildrenOk(Appended(t, p, seg, kind)) && NamesDistinct(Appended(t, p, seg, kind))
  {
    AppendedChildren(t, p, seg, kind);
    var t' := Appended(t, p, seg, kind);
    ChildFromFinds(t, t[p].children, seg);
    hide Appended;
    forall q: nat, j: nat, k: nat, c: nat, d: nat | IsChild(t', q, j, c) && IsChild(t', q, k, d) && j != k
      ensures t'[c].name != t'[d].name
    {
      AppendedChild(t, p, seg, kind, q, j, c);
      AppendedChild(t, p, seg, kind, q, k, d);
      AppendedName(t, p, seg, kind, c);
      AppendedName(t, p, seg, kind, d);
    }
  }

  lemma AppendedName(t: Tree, p: nat, seg: Seg, kind: Kind, c: nat)
    requires p < |t| && c <= |t|
    ensures |Appended(t, p, seg, kind)| == |t| + 1
    ensures Appended(t, p, seg, kind)[c].name == if c == |t| then seg else t[c].name
  {
  }

  lemma KindValid(t: Tree, i: nat, kind: Kind)
    requires Valid(t) && i < |t|
    ensures Valid(t[i := t[i].(kind := kind)])
    ensures t[i].kind == Scope ==> Grows(t, t[i := t[i].(kind := kind)])
  {
    hide ParentsOk, ChildrenOk, NamesDistinct;
    var t' := t[i := t[i].(kind := kind)];
    KindParents(t, i, kind);
    assert forall p: nat, k: nat, c: nat :: IsChild(t', p, k, c) ==> IsChild(t, p, k, c);
    SameChildren(t, t');
  }

  lemma KindParents(t: Tree, i: nat, kind: Kind)
    requires ParentsOk(t) && i < |t|
    ensures ParentsOk(t[i := t[i].(kind := kind)])
  {
  }

  lemma SameChildren(t: Tree, t': Tree)
    requires ChildrenOk(t) && NamesDistinct(t) && |t'| == |t|
    requires forall i :: 0 <= i < |t| ==> t'[i].name == t[i].name && t'[i].parent == t[i].parent
    requires forall p: nat, k: nat, c: nat :: IsChild(t', p, k, c) ==> IsChild(t, p, k, c)
    ensures ChildrenOk(t') && NamesDistinct(t')
  {
    hide IsChild;
  }

  /** The walk aml_ns_create_path makes: one segment more than there are dots. */
  function CreateWalk(t: Tree, at: nat, p: Path): Option<nat>
    decreases |p|
  {
    var n := SegLen(p);
    var c := Child(t, at, Pad(p[..n]));
    if n == |p| || c.None? then c else CreateWalk(t, c.value, p[n + 1..])
  }

  lemma {:induction false} CreateWalkStays(t: Tree, t': Tree, at: nat, p: Path)
    requires Valid(t) && Valid(t') && Grows(t, t') && at < |t| && CreateWalk(t, at, p).Some?
    ensures CreateWalk(t', at, p) == CreateWalk(t, at, p)
    decreases |p|
  {
    var n := SegLen(p);
    var seg := Pad(p[..n]);
    ChildStays(t, t', at, seg);
    if n < |p| {
      ChildIff(t, at, seg, Child(t, at, seg).value);
      CreateWalkStays(t, t', Child(t, at, seg).value, p[n + 1..]);
    }
  }

  function SegCount(p: Path): nat
    decreases |p|
  {
    var n := SegLen(p);
    if n == |p| then 1 else 1 + SegCount(p[n + 1..])
  }

  /** How many nodes creating a path has to make: everything from the first missing on. */
  function Missing(t: Tree, at: nat, p: Path): nat
    decreases |p|
  {
    var n := SegLen(p);
    var c := Child(t, at, Pad(p[..n]));
    if c.None? then SegCount(p) else if n == |p| then 0 else Missing(t, c.value, p[n + 1..])
  }

  function Needs(t: Tree, from: Option<nat>, path: Path): nat
  {
    if CreateBody(path) == [] then 0 else Missing(t, CreateBase(t, from, path), CreateBody(path))
  }

  /** What one segment less leaves missing. */
  lemma MissingStep(u: Tree, t: Tree, at: nat, p: Path)
    requires at < |u|
    requires var seg := Pad(p[..SegLen(p)]);
      if Child(u, at, seg).None? then |t| > |u| ==>
        Child(t, at, seg).Some? && Child(t, at, seg).value < |t| && t[Child(t, at, seg).value].children == []
      else Alike(u, t)
    ensures var n := SegLen(p); var seg := Pad(p[..n]);
      && (Child(u, at, seg).None? ==> Missing(u, at, p) > 0)
      && (Child(u, at, seg).Some? ==> Child(t, at, seg) == Child(u, at, seg))
      && (|t| > |u| || Child(u, at, seg).Some? ==>
            Missing(u, at, p) == (if Child(u, at, seg).None? then 1 else 0) + if n == |p| then 0
              else Missing(t, Child(t, at, seg).value, p[n + 1..]))
  {
    hide Pad;
    var n := SegLen(p);
    var seg := Pad(p[..n]);
    if Child(u, at, seg).Some? {
      ChildFromAlike(u, t, u[at].children, seg);
      if n < |p| { MissingAlike(u, t, Child(u, at, seg).value, p[n + 1..]); }
    }
  }

  lemma {:induction false} MissingAlike(t: Tree, t': Tree, at: nat, p: Path)
    requires Alike(t, t')
    ensures Missing(t', at, p) == Missing(t, at, p)
    decreases |p|
  {
    var n := SegLen(p);
    if at < |t| { ChildFromAlike(t, t', t[at].children, Pad(p[..n])); }
    var c := Child(t, at, Pad(p[..n]));
    if n < |p| && c.Some? { MissingAlike(t, t', c.value, p[n + 1..]); }
  }

  /** Where a path to be created starts from, and what is left of it then. */
  function CreateBase(t: Tree, from: Option<nat>, path: Path): nat
  {
    var base := if from.Some? then from.value else ROOT;
    if path != [] && path[0] == '\\' then ROOT
    else if path != [] && path[0] == '^' then Climb(t, base, path)
    else base
  }

  function CreateBody(path: Path): Path
  {
    if path != [] && path[0] == '\\' then path[1..]
    else if path != [] && path[0] == '^' then SkipDot(AfterCarets(path))
    else path
  }

  lemma {:induction false} ClimbInTree(t: Tree, at: nat, p: Path)
    requires Valid(t) && at < |t|
    ensures Climb(t, at, p) < |t|
    decreases |p|
  {
    if p != [] && p[0] == '^' { ClimbInTree(t, Up(t, at), p[1..]); }
  }

  lemma {:induction false} ClimbStays(t: Tree, t': Tree, at: nat, p: Path)
    requires Valid(t) && Grows(t, t') && at < |t|
    ensures Climb(t', at, p) == Climb(t, at, p)
    decreases |p|
  {
    if p != [] && p[0] == '^' { ClimbStays(t, t', Up(t, at), p[1..]); }
  }

  lemma RootThere(t: Tree)
    requires Valid(t)
    ensures |t| > 0
  {
  }

  lemma UpInTree(t: Tree, at: nat)
    requires Valid(t) && at < |t|
    ensures Up(t, at) < |t|
  {
  }

  /** No node has become of another kind but `r`, and new ones are scopes. */
  ghost predicate KindsKept(t: Tree, t': Tree, r: Option<nat>)
  {
    |t| <= |t'| && forall i :: 0 <= i < |t'| && r != Some(i) ==> t'[i].kind == if i < |t| then t[i].kind else Scope
  }

  lemma NoKinds(t: Tree)
    ensures KindsKept(t, t, None)
  {
  }

  lemma KindsAre(t: Tree, t': Tree)
    requires KindsKept(t, t', None)
    ensures |t| <= |t'| && forall i :: 0 <= i < |t| ==> t'[i].kind == t[i].kind
    ensures forall i :: |t| <= i < |t'| ==> t'[i].kind == Scope
  {
  }

  lemma KindsTrans(t: Tree, u: Tree, t': Tree, r: Option<nat>)
    requires KindsKept(t, u, None) && KindsKept(u, t', r)
    ensures KindsKept(t, t', r)
  {
  }

  class Namespace {
    var nodes: Tree
    var room: nat           // nodes the heap still has memory for

    /** The root alone. */
    constructor (room: nat)
      ensures Valid(nodes) && |nodes| == 1 && this.room == room
    {
      nodes := [Node(['\\', '\0', '\0', '\0'], Scope, None, [])];
      this.room := room;
    }

    method Define(p: nat, name: Path, kind: Kind) returns (r: Option<nat>)
      requires Valid(nodes) && p < |nodes|
      modifies this
      ensures Valid(nodes) && Grows(old(nodes), nodes) && r == Child(nodes, p, Pad(name))
      ensures r.Some? ==> 0 < r.value < |nodes| && nodes[r.value].parent == Some(p) && nodes[r.value].name == Pad(name)
      ensures r.None? <==> Child(old(nodes), p, Pad(name)).None? && old(room) == 0
      ensures r.None? ==> room == 0
      ensures |nodes| == |old(nodes)| + if Child(old(nodes), p, Pad(name)).None? && r.Some? then 1 else 0
      ensures |nodes| + room == |old(nodes)| + old(room)
      ensures KindsKept(old(nodes), nodes, r) && (kind == Scope ==> KindsKept(old(nodes), nodes, None))
      ensures r.Some? ==>
        nodes[r.value].kind == kind || (r.value < |old(nodes)| && nodes[r.value].kind == old(nodes)[r.value].kind)
      ensures if Child(old(nodes), p, Pad(name)).None? then r.Some? ==> nodes[r.value].children == []
              else Alike(old(nodes), nodes)
      ensures r.Some? && kind != Scope ==> nodes[r.value].kind != Scope
    {
      hide Valid, Pad, Child;
      var seg := Pad(name);
      var n := Child(nodes, p, seg);
      if n.Some? {
        ChildIff(nodes, p, seg, n.value);
        if nodes[n.value].kind == Scope && kind != Scope {
          KindValid(nodes, n.value, kind);
          ghost var t := nodes;
          nodes := nodes[n.value := nodes[n.value].(kind := kind)];
          ChildStays(t, nodes, p, seg);
        } else {
          GrowsRefl(nodes);
        }
        return n;
      }
      if room == 0 {
        return None;
      }
      room := room - 1;
      AppendedValid(nodes, p, seg, kind);
      nodes := nodes[p := nodes[p].(children := nodes[p].children + [|nodes|])] + [Node(seg, kind, Some(p), [])];
      ChildIff(nodes, p, seg, |nodes| - 1);
      return Some(|nodes| - 1);
    }

    /** Say what a node is, whatever it was. */
    method SetKind(i: nat, kind: Kind)
      requires Valid(nodes) && i < |nodes|
      modifies this
      ensures Valid(nodes) && nodes == old(nodes)[i := old(nodes)[i].(kind := kind)] && room == old(room)
    {
      KindValid(nodes, i, kind);
      nodes := nodes[i := nodes[i].(kind := kind)];
    }

    /** Create every node along a path, returning the last. */
    method CreatePath(from: Option<nat>, path: Path, kind: Kind) returns (r: Option<nat>)
      requires Valid(nodes) && (from.Some? ==> from.value < |nodes|)
      modifies this
      ensures Valid(nodes) && Grows(old(nodes), nodes)
      ensures r.Some? ==> r.value < |nodes| && r == Created(nodes, from, path)
      ensures (r.Some? <==> old(room) >= Needs(old(nodes), from, path)) && |nodes| + room == |old(nodes)| + old(room)
      ensures KindsKept(old(nodes), nodes, r)
      ensures r.Some? ==>
        nodes[r.value].kind == kind || (r.value < |old(nodes)| && nodes[r.value].kind == old(nodes)[r.value].kind)
      ensures r.Some? ==> room == old(room) - Needs(old(nodes), from, path)
      ensures r.Some? && CreateBody(path) != [] && kind != Scope ==> nodes[r.value].kind != Scope
    {
      hide Valid, CreateWalk;
      ghost var t := nodes;
      GrowsRefl(t);
      RootThere(t);
      var base: nat := if from.Some? then from.value else ROOT;
      var at: nat, p := ROOT, path;
      ClimbInTree(nodes, base, path);
      if p != [] && p[0] == '\\' {
        p := p[1..];
      } else if p != [] && p[0] == '^' {
        at := base;
        while p != [] && p[0] == '^'
          invariant at < |nodes| && nodes == t && room == old(room)
          invariant Climb(t, at, p) == Climb(t, base, path) && AfterCarets(p) == AfterCarets(path)
        {
          UpInTree(nodes, at);
          at := Up(nodes, at);
          p := p[1..];
        }
        if p != [] && p[0] == '.' {
          p := p[1..];
        }
      } else {
        at := base;
      }
      ghost var at0, p0 := at, p;
      assert at0 == CreateBase(t, from, path) && p0 == CreateBody(path);
      if p == [] {
        return Some(at);
      }
      r := CreateFrom(at, p, kind);
      if r.Some? && path != [] && path[0] == '^' { ClimbStays(t, nodes, base, path); }
    }

    method CreateFrom(from: nat, path: Path, kind: Kind) returns (r: Option<nat>)
      requires Valid(nodes) && from < |nodes| && path != []
      modifies this
      ensures Valid(nodes) && Grows(old(nodes), nodes)
      ensures r.Some? ==> r.value < |nodes| && r == CreateWalk(nodes, from, path)
      ensures (r.Some? <==> old(room) >= Missing(old(nodes), from, path)) && |nodes| + room == |old(nodes)| + old(room)
      ensures KindsKept(old(nodes), nodes, r)
      ensures r.Some? ==>
        nodes[r.value].kind == kind || (r.value < |old(nodes)| && nodes[r.value].kind == old(nodes)[r.value].kind)
      ensures r.Some? ==> room == old(room) - Missing(old(nodes), from, path)
      ensures r.Some? && kind != Scope ==> nodes[r.value].kind != Scope
    {
      hide Valid, Grows, Leads, CreateWalk, Child, Pad, Missing, Alike, KindsKept;
      NoKinds(nodes);
      var at: nat, p := from, path;
      ghost var t := nodes;
      GrowsRefl(t);
      LeadsHere(t, from, path);
      while true
        invariant Valid(nodes) && Grows(t, nodes) && at < |nodes| && from < |nodes|
        invariant Leads(nodes, from, path, at, p) && |nodes| + room == |t| + old(room) && KindsKept(t, nodes, None)
        invariant room - Missing(nodes, at, p) == old(room) - Missing(t, from, path)
        decreases |p|
      {
        var len := SegLen(p);
        var last := len == |p|;
        ghost var u := nodes;
        r := Define(at, p[..len], if last then kind else Scope);
        MissingStep(u, nodes, at, p);
        KindsTrans(t, u, nodes, r);
        if !last { KindsTrans(t, u, nodes, None); }
        KindsAre(t, u);
        GrowsTrans(t, u, nodes);
        if r.None? {
          return;
        }
        LeadsStays(u, nodes, from, path, at, p);
        if last {
          LeadsThere(nodes, from, path, at, p);
          CreateWalkOne(nodes, at, p);
          assert p[..len] == p;
          return;
        }
        LeadsOn(nodes, from, path, at, p);
        at, p := r.value, p[len + 1..];
      }
    }
  }

  /** Walking `path` from `from` passes `at` with `p` still to go. */
  ghost predicate Leads(t: Tree, from: nat, path: Path, at: nat, p: Path)
    decreases |path|
  {
    || (at == from && p == path)
    || (var n := SegLen(path);
        var c := Child(t, from, Pad(path[..n]));
        n < |path| && c.Some? && Leads(t, c.value, path[n + 1..], at, p))
  }

  lemma LeadsHere(t: Tree, from: nat, path: Path)
    ensures Leads(t, from, path, from, path)
  {
  }

  lemma CreateWalkOne(t: Tree, at: nat, p: Path)
    requires SegLen(p) == |p|
    ensures CreateWalk(t, at, p) == Child(t, at, Pad(p))
  {
    assert p[..|p|] == p;
  }

  lemma {:induction false} LeadsStays(t: Tree, t': Tree, from: nat, path: Path, at: nat, p: Path)
    requires Valid(t) && Valid(t') && Grows(t, t') && from < |t| && Leads(t, from, path, at, p)
    ensures Leads(t', from, path, at, p)
    decreases |path|
  {
    var n := SegLen(path);
    var seg := Pad(path[..n]);
    if !(at == from && p == path) {
      ChildStays(t, t', from, seg);
      ChildIff(t, from, seg, Child(t, from, seg).value);
      LeadsStays(t, t', Child(t, from, seg).value, path[n + 1..], at, p);
    }
  }

  lemma {:induction false} LeadsThere(t: Tree, from: nat, path: Path, at: nat, p: Path)
    requires Leads(t, from, path, at, p)
    ensures CreateWalk(t, from, path) == CreateWalk(t, at, p)
    decreases |path|
  {
    var n := SegLen(path);
    if !(at == from && p == path) {
      LeadsThere(t, Child(t, from, Pad(path[..n])).value, path[n + 1..], at, p);
    }
  }

  lemma {:induction false} LeadsOn(t: Tree, from: nat, path: Path, at: nat, p: Path)
    requires Leads(t, from, path, at, p) && SegLen(p) < |p| && Child(t, at, Pad(p[..SegLen(p)])).Some?
    ensures Leads(t, from, path, Child(t, at, Pad(p[..SegLen(p)])).value, p[SegLen(p) + 1..])
    decreases |path|
  {
    var n := SegLen(path);
    if !(at == from && p == path) {
      LeadsOn(t, Child(t, from, Pad(path[..n])).value, path[n + 1..], at, p);
    } else {
      var c := Child(t, at, Pad(p[..n])).value;
      assert Leads(t, c, p[n + 1..], c, p[n + 1..]);
    }
  }

  /** The node a path creates, in the namespace that has it. */
  function Created(t: Tree, from: Option<nat>, path: Path): Option<nat>
  {
    if CreateBody(path) == [] then Some(CreateBase(t, from, path))
    else CreateWalk(t, CreateBase(t, from, path), CreateBody(path))
  }

  /** The same tree but for what its nodes are. */
  ghost predicate Alike(t: Tree, t': Tree)
  {
    && |t'| == |t|
    && forall i :: 0 <= i < |t| ==>
      t'[i].name == t[i].name && t'[i].parent == t[i].parent && t'[i].children == t[i].children
  }

  lemma {:induction false} ChildFromAlike(t: Tree, t': Tree, cs: seq<nat>, seg: Seg)
    requires Alike(t, t')
    ensures ChildFrom(t', cs, seg) == ChildFrom(t, cs, seg)
  {
    if cs != [] { ChildFromAlike(t, t', cs[1..], seg); }
  }

  lemma {:induction false} CreateWalkAlike(t: Tree, t': Tree, at: nat, p: Path)
    requires Alike(t, t')
    ensures CreateWalk(t', at, p) == CreateWalk(t, at, p)
    decreases |p|
  {
    var n := SegLen(p);
    if at < |t| { ChildFromAlike(t, t', t[at].children, Pad(p[..n])); }
    var c := Child(t, at, Pad(p[..n]));
    if n < |p| && c.Some? { CreateWalkAlike(t, t', c.value, p[n + 1..]); }
  }

  lemma {:induction false} ClimbAlike(t: Tree, t': Tree, at: nat, p: Path)
    requires Alike(t, t')
    ensures Climb(t', at, p) == Climb(t, at, p)
    decreases |p|
  {
    if p != [] && p[0] == '^' { ClimbAlike(t, t', Up(t, at), p[1..]); }
  }

  /** What a path creates does not depend on what the nodes are. */
  lemma CreatedAlike(t: Tree, t': Tree, from: Option<nat>, path: Path)
    requires Alike(t, t')
    ensures Created(t', from, path) == Created(t, from, path)
  {
    hide CreateWalk, Climb, Alike;
    ClimbAlike(t, t', if from.Some? then from.value else ROOT, path);
    CreateWalkAlike(t, t', CreateBase(t, from, path), CreateBody(path));
  }

  /* ---- lookup after create ---- */

  predicate EndsInDot(p: Path) { p != [] && p[|p| - 1] == '.' }

  /** Paths on which lookup and creation agree: no trailing dot, and no dot after the root. */
  predicate Plain(path: Path)
  {
    && !EndsInDot(CreateBody(path))
    && !(path != [] && path[0] == '\\' && path[1..] != [] && path[1] == '.')
  }

  /** How many names each walk follows. */
  function Steps(p: Path): nat
    decreases |p|
  {
    if p == [] then 0 else 1 + Steps(SkipDot(p[SegLen(p)..]))
  }

  function CreateSteps(p: Path): nat
    decreases |p|
  {
    1 + if SegLen(p) == |p| then 0 else CreateSteps(p[SegLen(p) + 1..])
  }

  lemma RestOf(p: Path)
    requires p != []
    ensures var n := SegLen(p); SkipDot(p[n..]) == if n == |p| then [] else p[n + 1..]
    ensures var n := SegLen(p); n < |p| ==> (EndsInDot(p) <==> p[n + 1..] == [] || EndsInDot(p[n + 1..]))
    ensures SegLen(p) == |p| ==> !EndsInDot(p)
  {
    var n := SegLen(p);
    if n < |p| {
      assert p[n..][1..] == p[n + 1..];
    } else {
      assert p[..n][|p| - 1] == p[|p| - 1];
    }
  }

  lemma {:induction false} StepsCompared(p: Path)
    ensures CreateSteps(p) == Steps(p) + if p == [] || EndsInDot(p) then 1 else 0
    decreases |p|
  {
    hide SegLen, SkipDot, EndsInDot;
    if p == [] {
      NoSteps();
    } else {
      RestOf(p);
      if SegLen(p) < |p| { StepsCompared(p[SegLen(p) + 1..]); }
    }
  }

  lemma NoSteps()
    ensures SegLen([]) == 0
  {
  }

  lemma {:induction false} SkipDotsSteps(p: Path)
    ensures if p != [] && p[0] == '.' then Steps(SkipDots(p)) < Steps(p) else SkipDots(p) == p
    decreases |p|
  {
    if p != [] && p[0] == '.' {
      assert p[0..] == p;
      SkipDotsSteps(p[1..]);
    }
  }

  lemma {:induction false} WalkDownDepth(t: Tree, at: nat, p: Path)
    requires Valid(t) && at < |t| && WalkDown(t, at, p).Some?
    ensures WalkDown(t, at, p).value < |t| && Depth(t, WalkDown(t, at, p).value) == Depth(t, at) + Steps(p)
    decreases |p|
  {
    hide Valid;
    if p != [] {
      var seg := Pad(p[..SegLen(p)]);
      var c := Child(t, at, seg).value;
      ChildIff(t, at, seg, c);
      WalkDownDepth(t, c, SkipDot(p[SegLen(p)..]));
    }
  }

  lemma {:induction false} CreateWalkDepth(t: Tree, at: nat, p: Path)
    requires Valid(t) && at < |t| && CreateWalk(t, at, p).Some?
    ensures CreateWalk(t, at, p).value < |t| && Depth(t, CreateWalk(t, at, p).value) == Depth(t, at) + CreateSteps(p)
    decreases |p|
  {
    hide Valid;
    var seg := Pad(p[..SegLen(p)]);
    var c := Child(t, at, seg).value;
    ChildIff(t, at, seg, c);
    if SegLen(p) < |p| { CreateWalkDepth(t, c, p[SegLen(p) + 1..]); }
  }

  /** On a path without a trailing dot the two walks are one. */
  lemma {:induction false} WalksAgree(t: Tree, at: nat, p: Path)
    requires p != [] && !EndsInDot(p)
    ensures WalkDown(t, at, p) == CreateWalk(t, at, p)
    decreases |p|
  {
    hide Child, Pad, EndsInDot, SkipDot;
    RestOf(p);
    var c := Child(t, at, Pad(p[..SegLen(p)]));
    if SegLen(p) < |p| && c.Some? { WalksAgree(t, c.value, p[SegLen(p) + 1..]); }
  }

  /** Walking down finds what creation made exactly when no dot trails. */
  lemma WalkFindsCreated(t: Tree, at: nat, p: Path)
    requires Valid(t) && at < |t| && p != [] && CreateWalk(t, at, p).Some?
    ensures WalkDown(t, at, p) == CreateWalk(t, at, p) <==> !EndsInDot(p)
  {
    hide Valid, CreateWalk, WalkDown, Depth, Steps, CreateSteps;
    CreateWalkDepth(t, at, p);
    StepsCompared(p);
    if !EndsInDot(p) {
      WalksAgree(t, at, p);
    } else if WalkDown(t, at, p).Some? {
      WalkDownDepth(t, at, p);
    }
  }

  lemma RootedFindsCreated(t: Tree, p: Path)
    requires Valid(t) && p != [] && CreateWalk(t, ROOT, p).Some?
    ensures WalkDown(t, ROOT, SkipDots(p)) == CreateWalk(t, ROOT, p) <==> !EndsInDot(p) && p[0] != '.'
  {
    hide Valid, CreateWalk, WalkDown, Depth, Steps, CreateSteps;
    RootThere(t);
    SkipDotsSteps(p);
    if p[0] != '.' {
      WalkFindsCreated(t, ROOT, p);
    } else {
      CreateWalkDepth(t, ROOT, p);
      StepsCompared(p);
      if WalkDown(t, ROOT, SkipDots(p)).Some? { WalkDownDepth(t, ROOT, SkipDots(p)); }
    }
  }

  /** A relative search for something just created in the scope stops in that scope. */
  lemma SearchStopsHere(t: Tree, at: nat, p: Path)
    requires Valid(t) && at < |t| && p != [] && CreateWalk(t, at, p).Some?
    ensures Search(t, at, p) == WalkDown(t, at, p)
  {
  }

  /** Looking a path up finds the node that creating it made: for every rooted or caret
      path and every non-empty relative one, exactly when the path is plain. */
  lemma LookupFindsCreated(t: Tree, from: Option<nat>, path: Path)
    requires Valid(t) && (from.Some? ==> from.value < |t|) && path != [] && Created(t, from, path).Some?
    ensures Lookup(t, from, path) == Created(t, from, path) <==> Plain(path)
  {
    hide Valid, CreateWalk, WalkDown;
    RootThere(t);
    var base: nat, body := CreateBase(t, from, path), CreateBody(path);
    if path[0] == '^' { ClimbInTree(t, if from.Some? then from.value else ROOT, path); }
    if body == [] {
      WalkNowhere(t, base);
    } else if path[0] == '\\' {
      RootedFindsCreated(t, body);
    } else {
      WalkFindsCreated(t, base, body);
      if path[0] != '^' { SearchStopsHere(t, base, path); }
    }
  }

  lemma WalkNowhere(t: Tree, at: nat)
    ensures WalkDown(t, at, []) == Some(at)
  {
  }

  const ROOT_DOT_A: Path := ['\\', '.', 'A']
  const A_DOT: Path := ['A', '.']

  /** A dot too many.  In a new namespace, creating "\.A" makes a node without a name and one
      called "A" under it, and creating "A." one without a name under "A"; looked up, the same
      path leads somewhere else, or nowhere. */
  method DotTooMany(path: Path) returns (ns: Namespace, made: Option<nat>, found: Option<nat>)
    requires path == ROOT_DOT_A || path == A_DOT
    ensures Valid(ns.nodes) && |ns.nodes| == 3 && made.Some? && made == Created(ns.nodes, None, path)
    ensures found == Lookup(ns.nodes, None, path) && found != made
  {
    hide Valid, Created, Lookup, CreateWalk, Child;
    ns := new Namespace(2);
    TwoSegments(path);
    AllMissing(ns.nodes, CreateBody(path));
    made := ns.CreatePath(None, path, Object);
    found := Lookup(ns.nodes, None, path);
    LookupFindsCreated(ns.nodes, None, path);
  }

  lemma TwoSegments(path: Path)
    requires path == ROOT_DOT_A || path == A_DOT
    ensures !Plain(path) && SegCount(CreateBody(path)) == 2
  {
    if path == ROOT_DOT_A {
      assert path[1..] == ['.', 'A'] && ['.', 'A'][0 + 1..] == ['A'] && SegLen(['A']) == 1;
    } else {
      assert path[1..] == ['.'] && SegLen(['.']) == 0 && SegLen(path) == 1 && path[1 + 1..] == [];
    }
  }

  /** The root of a new namespace has nothing below it. */
  lemma AllMissing(t: Tree, p: Path)
    requires Valid(t) && |t| == 1
    ensures Missing(t, ROOT, p) == SegCount(p)
  {
    if t[ROOT].children != [] { assert IsChild(t, ROOT, 0, t[ROOT].children[0]); }
  }

  /** The empty relative path creates nothing and names the scope itself; looked up, it is
      the name "____", which is the scope only if that is what the scope is called. */
  lemma EmptyPath(t: Tree, at: nat)
    requires Valid(t) && at < |t|
    ensures Created(t, Some(at), []) == Some(at)
    ensures Lookup(t, Some(at), []) == Some(at) <==> at != ROOT && t[at].name == "____" && Child(t, at, "____").None?
  {
    hide Valid, Child;
    var p: Path := [];
    assert Pad(p[..SegLen(p)]) == "____";
    var hit := Child(t, at, "____");
    if hit.Some? {
      ChildIff(t, at, "____", hit.value);
      ParentAbove(t, hit.value);
    } else if at != ROOT {
      ParentAbove(t, at);
      SearchAbove(t, t[at].parent.value, at);
    }
  }

  lemma ParentAbove(t: Tree, i: nat)
    requires Valid(t) && 0 < i < |t|
    ensures t[i].parent.Some? && t[i].parent.value < i
  {
  }

  lemma {:induction false} SearchAbove(t: Tree, up: nat, at: nat)
    requires Valid(t) && up < at < |t|
    ensures Search(t, up, []) == Some(at) ==> t[at].name == "____"
    ensures t[at].parent == Some(up) && t[at].name == "____" ==> Search(t, up, []) == Some(at)
    decreases up
  {
    hide Valid, Child;
    var p: Path := [];
    assert Pad(p[..SegLen(p)]) == "____";
    var hit := Child(t, up, "____");
    ChildIff(t, up, "____", at);
    if hit.None? && up != ROOT {
      ParentAbove(t, up);
      SearchAbove(t, t[up].parent.value, at);
    }
  }

  /** What lookup finds is in the namespace. */
  lemma LookupInTree(t: Tree, from: Option<nat>, path: Path)
    requires Valid(t) && (from.Some? ==> from.value < |t|) && Lookup(t, from, path).Some?
    ensures Lookup(t, from, path).value < |t|
  {
    hide Valid, WalkDown, Search;
    RootThere(t);
    var base: nat := if from.Some? then from.value else ROOT;
    if path != [] && path[0] == '\\' {
      WalkDownDepth(t, ROOT, SkipDots(path[1..]));
    } else if path != [] && path[0] == '^' {
      ClimbInTree(t, base, path);
      WalkDownDepth(t, Climb(t, base, path), SkipDot(AfterCarets(path)));
    } else {
      SearchInTree(t, base, path);
    }
  }

  lemma {:induction false} SearchInTree(t: Tree, at: nat, p: Path)
    requires Valid(t) && at < |t| && Search(t, at, p).Some?
    ensures Search(t, at, p).value < |t|
    decreases at
  {
    hide Valid, WalkDown, Child;
    var seg := Pad(p[..SegLen(p)]);
    var hit := Child(t, at, seg);
    if hit.Some? {
      ChildIff(t, at, seg, hit.value);
      WalkDownDepth(t, hit.value, SkipDot(p[SegLen(p)..]));
    } else if at != ROOT {
      ParentAbove(t, at);
      SearchInTree(t, t[at].parent.value, p);
    }
  }

  /* ---- relative lookup commits to the nearest scope ---- */

  /** The scopes around a node, from the inside out. */
  function Scopes(t: Tree, at: nat): seq<nat>
    requires Valid(t) && at < |t|
    decreases at
  {
    if at == ROOT then [at] else [at] + Scopes(t, t[at].parent.value)
  }

  /** The first of the scopes around `at` with a child of the right name decides: the rest
      of the path is followed from that child, found or not, and no scope further out is
      looked at. */
  lemma {:induction false} NearestScopeDecides(t: Tree, at: nat, p: Path, k: nat)
    requires Valid(t) && at < |t| && k < |Scopes(t, at)|
    requires var seg := Pad(p[..SegLen(p)]);
      && (forall j :: 0 <= j < k ==> Child(t, Scopes(t, at)[j], seg).None?)
      && Child(t, Scopes(t, at)[k], seg).Some?
    ensures Search(t, at, p)
         == WalkDown(t, Child(t, Scopes(t, at)[k], Pad(p[..SegLen(p)])).value, SkipDot(p[SegLen(p)..]))
    decreases at
  {
    hide Valid, Child, Pad, WalkDown;
    if k > 0 {
      assert Scopes(t, at)[0] == at && at != ROOT;
      ParentAbove(t, at);
      var up := t[at].parent.value;
      assert forall j :: 0 <= j < |Scopes(t, up)| ==> Scopes(t, up)[j] == Scopes(t, at)[j + 1];
      NearestScopeDecides(t, up, p, k - 1);
    }
  }

  lemma {:induction false} NoScopeHasIt(t: Tree, at: nat, p: Path)
    requires Valid(t) && at < |t|
    requires forall j :: 0 <= j < |Scopes(t, at)| ==> Child(t, Scopes(t, at)[j], Pad(p[..SegLen(p)])).None?
    ensures Search(t, at, p) == None
    decreases at
  {
    hide Valid, Child, Pad, WalkDown;
    assert Scopes(t, at)[0] == at;
    if at != ROOT {
      ParentAbove(t, at);
      var up := t[at].parent.value;
      assert forall j :: 0 <= j < |Scopes(t, up)| ==> Scopes(t, up)[j] == Scopes(t, at)[j + 1];
      NoScopeHasIt(t, up, p);
    }
  }
}
