/** The ACPI namespace as its absolute paths: which there are, and what a name that is written in
    some scope stands for (section 5.3 of the ACPI Specification).  The tree of kernel/acpi/aml_ns.c
    is one way to keep them. */
module AmlPlaces {
  import opened AmlNamespace

  /** The segments from the root on. */
  type Abs = seq<Seg>

  function PathTo(t: Tree, i: nat): Abs
    requires Valid(t) && i < |t|
    decreases i
  {
    if i == ROOT then [] else PathTo(t, t[i].parent.value) + [t[i].name]
  }

  ghost function Paths(t: Tree): set<Abs>
    requires Valid(t)
  {
    FirstPaths(t, |t|)
  }

  ghost function FirstPaths(t: Tree, n: nat): set<Abs>
    requires Valid(t) && n <= |t|
  {
    set i: nat | i < n :: PathTo(t, i)
  }

  /** Down from a node, segment by segment. */
  function Down(t: Tree, at: nat, segs: Abs): Option<nat>
    decreases |segs|
  {
    if segs == [] then Some(at)
    else
      var c := Child(t, at, segs[0]);
      if c.None? then None else Down(t, c.value, segs[1..])
  }

  /* ---- a node is its path ---- */

  lemma {:induction false} DownIs(t: Tree, at: nat, segs: Abs)
    requires Valid(t) && at < |t| && Down(t, at, segs).Some?
    ensures Down(t, at, segs).value < |t| && PathTo(t, Down(t, at, segs).value) == PathTo(t, at) + segs
    decreases |segs|
  {
    hide Valid, Child;
    if segs != [] {
      var c := Child(t, at, segs[0]).value;
      ChildIff(t, at, segs[0], c);
      DownIs(t, c, segs[1..]);
      assert PathTo(t, c) == PathTo(t, at) + [segs[0]];
      assert PathTo(t, at) + [segs[0]] + segs[1..] == PathTo(t, at) + segs;
    }
  }

  lemma {:induction false} DownMore(t: Tree, at: nat, a: Abs, b: Abs)
    ensures Down(t, at, a + b)
         == if Down(t, at, a).Some? then Down(t, Down(t, at, a).value, b) else None
    decreases |a|
  {
    hide Child;
    if a == [] {
      assert a + b == b;
    } else {
      assert (a + b)[0] == a[0] && (a + b)[1..] == a[1..] + b;
      var c := Child(t, at, a[0]);
      if c.Some? { DownMore(t, c.value, a[1..], b); }
    }
  }

  lemma {:induction false} DownTo(t: Tree, i: nat)
    requires Valid(t) && i < |t|
    ensures Down(t, ROOT, PathTo(t, i)) == Some(i)
    decreases i
  {
    hide Valid, Child;
    if i != ROOT {
      ParentAbove(t, i);
      var p := t[i].parent.value;
      DownTo(t, p);
      ChildIff(t, p, t[i].name, i);
      DownMore(t, ROOT, PathTo(t, p), [t[i].name]);
      assert Down(t, p, [t[i].name]) == Down(t, i, [t[i].name][1..]) == Some(i);
    }
  }

  /** So different nodes have different paths, and there are as many of the one as of the other. */
  lemma OnePath(t: Tree, i: nat, j: nat)
    requires Valid(t) && i < |t| && j < |t| && PathTo(t, i) == PathTo(t, j)
    ensures i == j
  {
    hide Valid, PathTo;
    DownTo(t, i);
    DownTo(t, j);
  }

  lemma AsManyPaths(t: Tree)
    requires Valid(t)
    ensures |Paths(t)| == |t|
  {
    hide Valid, PathTo;
    CountPaths(t, |t|);
  }

  lemma {:induction false} CountPaths(t: Tree, n: nat)
    requires Valid(t) && n <= |t|
    ensures |FirstPaths(t, n)| == n
    decreases n
  {
    hide Valid, PathTo;
    if n > 0 {
      CountPaths(t, n - 1);
      var x := PathTo(t, n - 1);
      forall j: nat | j < n - 1 ensures PathTo(t, j) != x { if PathTo(t, j) == x { OnePath(t, j, n - 1); } }
      assert FirstPaths(t, n) == FirstPaths(t, n - 1) + {x};
    }
  }

  /** A path is there exactly if following it from the root gets somewhere. */
  lemma ThereIff(t: Tree, p: Abs)
    requires Valid(t) && |t| > 0
    ensures p in Paths(t) <==> Down(t, ROOT, p).Some?
  {
    hide Valid, PathTo, Down;
    if p in Paths(t) {
      var i :| 0 <= i < |t| && PathTo(t, i) == p;
      DownTo(t, i);
    }
    if Down(t, ROOT, p).Some? {
      DownIs(t, ROOT, p);
      RootPath(t);
      assert [] + p == p;
    }
  }

  lemma RootPath(t: Tree)
    requires Valid(t)
    ensures |t| > 0 && PathTo(t, ROOT) == [] && [] in Paths(t)
  {
    assert PathTo(t, ROOT) in Paths(t);
  }

  /** The same from any node on. */
  lemma DownIff(t: Tree, at: nat, segs: Abs)
    requires Valid(t) && at < |t|
    ensures PathTo(t, at) + segs in Paths(t) <==> Down(t, at, segs).Some?
  {
    hide Valid, PathTo, Down;
    RootPath(t);
    DownTo(t, at);
    DownMore(t, ROOT, PathTo(t, at), segs);
    ThereIff(t, PathTo(t, at) + segs);
  }

  /** Names above a node are there. */
  lemma {:induction false} PrefixThere(t: Tree, p: Abs, k: nat)
    requires Valid(t) && p in Paths(t) && k <= |p|
    ensures p[..k] in Paths(t)
  {
    hide Valid, PathTo, Down;
    RootPath(t);
    ThereIff(t, p);
    ThereIff(t, p[..k]);
    assert p == p[..k] + p[k..];
    DownMore(t, ROOT, p[..k], p[k..]);
  }

  /* ---- names as they are written ---- */

  /** From the root, or from `up` scopes above this one. */
  datatype Ref = Ref(root: bool, up: nat, segs: Abs)

  function Base(at: Abs, r: Ref): Abs
  {
    if r.root then [] else if r.up <= |at| then at[..|at| - r.up] else []
  }

  /** What a name makes in scope `at`. */
  function Target(at: Abs, r: Ref): Abs { Base(at, r) + r.segs }

  /** Everything from `base` on down to `base + segs`. */
  ghost function Spine(base: Abs, segs: Abs): set<Abs> { set k | 0 < k <= |segs| :: base + segs[..k] }

  /** What a name finds: a bare one is searched for outwards, and the nearest scope that has its first
      segment is the one it is in. */
  ghost function Found(ps: set<Abs>, at: Abs, r: Ref): Option<Abs>
  {
    if r.root || r.up > 0 then (if Target(at, r) in ps then Some(Target(at, r)) else None)
    else if r.segs == [] then None
    else SearchOut(ps, at, r.segs)
  }

  ghost function SearchOut(ps: set<Abs>, at: Abs, segs: Abs): Option<Abs>
    requires segs != []
    decreases |at|
  {
    if at + [segs[0]] in ps then (if at + segs in ps then Some(at + segs) else None)
    else if at == [] then None
    else SearchOut(ps, at[..|at| - 1], segs)
  }

  /* ---- as text ---- */

  /** A segment as bytecode has them: upper case letters, underscores, and digits but in front. */
  predicate SegOk(s: Seg) { LeadOk(s[0]) && forall c <- s :: LeadOk(c) || '0' <= c <= '9' }

  predicate LeadOk(c: char) { 'A' <= c <= 'Z' || c == '_' }

  predicate SegsOk(segs: Abs) { forall s <- segs :: SegOk(s) }

  function Dotted(segs: Abs): Path
  {
    if segs == [] then [] else if |segs| == 1 then segs[0] else segs[0] + ['.'] + Dotted(segs[1..])
  }

  function CaretsOf(n: nat): (p: Path)
    ensures |p| == n && forall k :: 0 <= k < n ==> p[k] == '^'
  {
    seq(n, k => '^')
  }

  function Written(r: Ref): Path { (if r.root then ['\\'] else CaretsOf(r.up)) + Dotted(r.segs) }

  predicate RefOk(r: Ref) { r.segs != [] && SegsOk(r.segs) && (r.root ==> r.up == 0) }

  lemma SegIs(s: Seg)
    requires SegOk(s)
    ensures Pad(s) == s && '.' !in s && '\0' !in s && '^' !in s && '\\' !in s
  {
    assert s[0] in s && s[1] in s && s[2] in s && s[3] in s;
    assert forall c <- s :: c != '\0';
    Unterminated(s);
    assert s[..4] == s;
  }

  lemma {:induction false} Unterminated(text: Path)
    requires '\0' !in text
    ensures CStr(text) == text
  {
    if text != [] { Unterminated(text[1..]); }
  }

  lemma {:induction false} SegLenIs(s: Path, rest: Path)
    requires '.' !in s && (rest == [] || rest[0] == '.')
    ensures SegLen(s + rest) == |s|
  {
    if s == [] {
      assert s + rest == rest;
    } else {
      assert (s + rest)[1..] == s[1..] + rest;
      SegLenIs(s[1..], rest);
    }
  }

  /** The first segment of a dotted path, and the rest. */
  lemma DottedParts(segs: Abs)
    requires segs != [] && SegsOk(segs)
    ensures var d := Dotted(segs);
      && d != [] && SegLen(d) == 4 && Pad(d[..4]) == segs[0] && (|d| == 4 <==> |segs| == 1)
      && (|segs| > 1 ==> d[4 + 1..] == Dotted(segs[1..]) && d[4] == '.')
  {
    hide Pad, SegLen, SegOk;
    var s := segs[0];
    SegIs(s);
    var d := Dotted(segs);
    if |segs| == 1 {
      assert d == s + [];
      SegLenIs(s, []);
    } else {
      var rest := ['.'] + Dotted(segs[1..]);
      assert d == s + rest;
      SegLenIs(s, rest);
      assert d[5..] == Dotted(segs[1..]);
    }
    assert d[..4] == s;
  }

  lemma {:induction false} DottedEnds(segs: Abs)
    requires segs != [] && SegsOk(segs)
    ensures !EndsInDot(Dotted(segs)) && Dotted(segs)[0] !in {'.', '^', '\\'}
    ensures forall c <- Dotted(segs) :: c !in {'^', '\\', '\0'}
  {
    SegIs(segs[0]);
    if |segs| > 1 { DottedEnds(segs[1..]); }
  }

  /** Both ways of walking a path as text are walking its segments. */
  lemma {:induction false} WalkIsDown(t: Tree, at: nat, segs: Abs)
    requires segs != [] && SegsOk(segs)
    ensures CreateWalk(t, at, Dotted(segs)) == Down(t, at, segs) == WalkDown(t, at, Dotted(segs))
    decreases |segs|
  {
    hide Child, Pad, SegLen, Dotted, EndsInDot;
    DottedParts(segs);
    DottedEnds(segs);
    WalksAgree(t, at, Dotted(segs));
    var c := Child(t, at, segs[0]);
    if |segs| > 1 && c.Some? { WalkIsDown(t, c.value, segs[1..]); }
    if |segs| == 1 { assert segs[1..] == []; }
  }

  /** A caret climbs one level, and at the root none. */
  lemma {:induction false} ClimbIs(t: Tree, at: nat, n: nat, rest: Path)
    requires Valid(t) && at < |t| && (rest == [] || rest[0] != '^')
    ensures var i := Climb(t, at, CaretsOf(n) + rest);
      i < |t| && PathTo(t, i) == Base(PathTo(t, at), Ref(false, n, [])) && AfterCarets(CaretsOf(n) + rest) == rest
    decreases n
  {
    hide Valid;
    var p := CaretsOf(n) + rest;
    if n == 0 {
      assert p == rest;
    } else {
      assert p[0] == '^' && p[1..] == CaretsOf(n - 1) + rest;
      UpInTree(t, at);
      ClimbIs(t, Up(t, at), n - 1, rest);
      UpIs(t, at);
    }
  }

  /** One level up is one segment less. */
  lemma UpIs(t: Tree, at: nat)
    requires Valid(t) && at < |t|
    ensures Up(t, at) < |t| && PathTo(t, Up(t, at)) == if at == ROOT then [] else PathTo(t, at)[..|PathTo(t, at)| - 1]
  {
    hide NamesDistinct, ChildrenOk;
    if at != ROOT {
      ParentAbove(t, at);
      assert PathTo(t, at) == PathTo(t, t[at].parent.value) + [t[at].name];
    }
  }

  /** Where a name starts from, and the rest of it. */
  lemma BaseIs(t: Tree, at: nat, r: Ref)
    requires Valid(t) && at < |t| && RefOk(r)
    ensures var i := CreateBase(t, Some(at), Written(r));
      i < |t| && PathTo(t, i) == Base(PathTo(t, at), r) && CreateBody(Written(r)) == Dotted(r.segs)
  {
    hide Valid, PathTo, Dotted, Climb, AfterCarets;
    var d := Dotted(r.segs);
    DottedEnds(r.segs);
    RootPath(t);
    if r.root {
      assert Written(r)[1..] == d;
    } else {
      ClimbIs(t, at, r.up, d);
      ZeroUp(t, at);
      if r.up == 0 { assert Written(r) == d; }
    }
  }

  lemma ZeroUp(t: Tree, at: nat)
    requires Valid(t) && at < |t|
    ensures PathTo(t, at)[..|PathTo(t, at)|] == PathTo(t, at)
  {
  }

  /** Creating a name makes its target. */
  lemma CreatedIs(t: Tree, at: nat, r: Ref)
    requires Valid(t) && at < |t| && RefOk(r) && Created(t, Some(at), Written(r)).Some?
    ensures var c := Created(t, Some(at), Written(r)).value; c < |t| && PathTo(t, c) == Target(PathTo(t, at), r)
  {
    hide Valid, PathTo, Dotted, CreateBase, CreateBody, Written, CreateWalk, Down;
    BaseIs(t, at, r);
    DottedEnds(r.segs);
    var i := CreateBase(t, Some(at), Written(r));
    WalkIsDown(t, i, r.segs);
    DownIs(t, i, r.segs);
  }

  /* ---- looking up ---- */

  lemma {:induction false} SearchIs(t: Tree, at: nat, segs: Abs)
    requires Valid(t) && at < |t| && segs != [] && SegsOk(segs)
    ensures var f, g := Search(t, at, Dotted(segs)), SearchOut(Paths(t), PathTo(t, at), segs);
      if f.Some? then f.value < |t| && g == Some(PathTo(t, f.value)) else g.None?
    decreases at
  {
    hide Valid, PathTo, Dotted, Child, Pad, SegLen, WalkDown, Down, Paths;
    var p, d := PathTo(t, at), Dotted(segs);
    DottedParts(segs);
    OneDown(t, at, segs[0]);
    DownIff(t, at, [segs[0]]);
    DownIff(t, at, segs);
    PathEnds(t, at);
    var hit := Child(t, at, segs[0]);
    if hit.Some? {
      SearchHit(t, at, segs);
      if Down(t, at, segs).Some? { DownIs(t, at, segs); }
    } else if at != ROOT {
      ParentAbove(t, at);
      SearchIs(t, t[at].parent.value, segs);
      UpIs(t, at);
      assert Up(t, at) == t[at].parent.value;
    }
  }

  lemma OneDown(t: Tree, at: nat, seg: Seg)
    ensures Down(t, at, [seg]) == Child(t, at, seg)
  {
    hide Child;
    var c := Child(t, at, seg);
    if c.Some? { assert Down(t, c.value, [seg][1..]) == c; }
  }

  lemma PathEnds(t: Tree, at: nat)
    requires Valid(t) && at < |t|
    ensures PathTo(t, at) == [] <==> at == ROOT
  {
  }

  lemma SearchHit(t: Tree, at: nat, segs: Abs)
    requires Valid(t) && at < |t| && segs != [] && SegsOk(segs) && Child(t, at, segs[0]).Some?
    ensures Search(t, at, Dotted(segs)) == Down(t, at, segs)
  {
    hide Valid, Dotted, Child, Pad, SegLen;
    var d, c := Dotted(segs), Child(t, at, segs[0]).value;
    DottedParts(segs);
    if |segs| == 1 {
      assert segs[1..] == [] && d[4..] == [];
    } else {
      assert SkipDot(d[4..]) == d[5..];
      WalkIsDown(t, c, segs[1..]);
    }
  }

  /** Looking a name up is finding it among the paths. */
  lemma LookupIs(t: Tree, at: nat, r: Ref)
    requires Valid(t) && at < |t| && RefOk(r)
    ensures var f, g := Lookup(t, Some(at), Written(r)), Found(Paths(t), PathTo(t, at), r);
      if f.Some? then f.value < |t| && g == Some(PathTo(t, f.value)) else g.None?
  {
    hide Valid, PathTo, Dotted, WalkDown, Down, Search, SearchOut, Paths, Climb, AfterCarets;
    var w, d := Written(r), Dotted(r.segs);
    DottedEnds(r.segs);
    RootPath(t);
    if !r.root && r.up == 0 {
      assert w == d;
      SearchIs(t, at, r.segs);
    } else {
      var b := if r.root then ROOT else Climb(t, at, w);
      if r.root { assert w[1..] == d; } else { ClimbIs(t, at, r.up, d); }
      WalkIsDown(t, b, r.segs);
      DownIff(t, b, r.segs);
      if Down(t, b, r.segs).Some? { DownIs(t, b, r.segs); }
    }
  }

  /* ---- creating ---- */

  /** Nodes keep their names and places. */
  ghost predicate Keeps(t: Tree, t': Tree)
  {
    |t| <= |t'| && forall i :: 0 <= i < |t| ==> t'[i].name == t[i].name && t'[i].parent == t[i].parent
  }

  lemma {:induction false} PathStays(t: Tree, t': Tree, i: nat)
    requires Valid(t) && Valid(t') && Keeps(t, t') && i < |t|
    ensures PathTo(t', i) == PathTo(t, i)
    decreases i
  {
    hide ChildrenOk, NamesDistinct;
    if i != ROOT { PathStays(t, t', t[i].parent.value); }
  }

  lemma PathsStay(t: Tree, t': Tree)
    requires Valid(t) && Valid(t') && Keeps(t, t')
    ensures Paths(t) <= Paths(t')
  {
    hide Valid, PathTo;
    forall i: nat | i < |t| ensures PathTo(t, i) == PathTo(t', i) { PathStays(t, t', i); }
  }

  lemma {:induction false} SpineSize(base: Abs, segs: Abs)
    ensures |Spine(base, segs)| == |segs|
    decreases |segs|
  {
    if segs == [] {
      assert Spine(base, segs) == {};
    } else {
      SpineFirst(base, segs);
      SpineSize(base + [segs[0]], segs[1..]);
      assert base + [segs[0]] !in Spine(base + [segs[0]], segs[1..]);
    }
  }

  lemma SpineFirst(base: Abs, segs: Abs)
    requires segs != []
    ensures Spine(base, segs) == {base + [segs[0]]} + Spine(base + [segs[0]], segs[1..])
  {
    var b := base + [segs[0]];
    forall k | 0 < k <= |segs| ensures base + segs[..k] in {b} + Spine(b, segs[1..]) {
      if k == 1 {
        assert segs[..1] == [segs[0]];
      } else {
        assert base + segs[..k] == b + segs[1..][..k - 1];
      }
    }
    forall k | 0 < k <= |segs| - 1 ensures b + segs[1..][..k] in Spine(base, segs) {
      assert b + segs[1..][..k] == base + segs[..k + 1];
    }
    assert base + segs[..1] == b;
  }

  /** What creating a path is short of is the part of its spine that is not there. */
  lemma {:induction false} MissingIs(t: Tree, at: nat, segs: Abs)
    requires Valid(t) && at < |t| && segs != [] && SegsOk(segs)
    ensures Missing(t, at, Dotted(segs)) == |Spine(PathTo(t, at), segs) - Paths(t)|
    decreases |segs|
  {
    hide Valid, PathTo, Dotted, Child, Pad, SegLen, Paths, Spine, Down;
    var p, d := PathTo(t, at), Dotted(segs);
    var b := p + [segs[0]];
    DottedParts(segs);
    OneDown(t, at, segs[0]);
    DownIff(t, at, [segs[0]]);
    SpineFirst(p, segs);
    var c := Child(t, at, segs[0]);
    if c.None? {
      SegCountIs(segs);
      SpineSize(p, segs);
      NoneThere(t, p, segs);
      assert Spine(p, segs) - Paths(t) == Spine(p, segs);
    } else {
      DownIs(t, at, [segs[0]]);
      if |segs| == 1 {
        NoSpine(b, segs[1..]);
        assert Spine(p, segs) - Paths(t) == {};
      } else {
        MissingIs(t, c.value, segs[1..]);
        assert Spine(p, segs) - Paths(t) == Spine(b, segs[1..]) - Paths(t);
      }
    }
  }

  lemma NoSpine(base: Abs, segs: Abs)
    requires segs == []
    ensures Spine(base, segs) == {}
  {
  }

  lemma {:induction false} SegCountIs(segs: Abs)
    requires segs != [] && SegsOk(segs)
    ensures SegCount(Dotted(segs)) == |segs|
    decreases |segs|
  {
    hide Dotted, Pad, SegLen;
    DottedParts(segs);
    if |segs| > 1 { SegCountIs(segs[1..]); }
  }

  lemma NoneThere(t: Tree, base: Abs, segs: Abs)
    requires Valid(t) && segs != [] && base + [segs[0]] !in Paths(t)
    ensures Spine(base, segs) !! Paths(t)
  {
    hide Valid, Paths;
    forall k | 0 < k <= |segs| ensures base + segs[..k] !in Paths(t) {
      assert (base + segs[..k])[..|base| + 1] == base + [segs[0]];
      if base + segs[..k] in Paths(t) { PrefixThere(t, base + segs[..k], |base| + 1); }
    }
  }

  lemma NeedsIs(t: Tree, at: nat, r: Ref)
    requires Valid(t) && at < |t| && RefOk(r)
    ensures Needs(t, Some(at), Written(r)) == |Spine(Base(PathTo(t, at), r), r.segs) - Paths(t)|
  {
    hide Valid, PathTo, Dotted, Missing, Spine, Paths, CreateBase, CreateBody, Written;
    BaseIs(t, at, r);
    DottedParts(r.segs);
    MissingIs(t, CreateBase(t, Some(at), Written(r)), r.segs);
  }

  /** A namespace that has grown by what a name was short of, and has it, has grown by its spine. */
  lemma SpineCame(t: Tree, t': Tree, at: nat, r: Ref)
    requires Valid(t) && Valid(t') && Keeps(t, t') && at < |t| && RefOk(r)
    requires Created(t', Some(at), Written(r)).Some? && |t'| == |t| + Needs(t, Some(at), Written(r))
    ensures Paths(t') == Paths(t) + Spine(Base(PathTo(t, at), r), r.segs)
    ensures PathTo(t', at) == PathTo(t, at)
  {
    hide Valid, PathTo, Paths, Spine, Created, Written, Needs, Keeps;
    var base := Base(PathTo(t, at), r);
    var spine := Spine(base, r.segs);
    PathsStay(t, t');
    PathStays(t, t', at);
    NeedsIs(t, at, r);
    CreatedIs(t', at, r);
    var c := Created(t', Some(at), Written(r)).value;
    assert PathTo(t', c) in Paths(t') by { OnPaths(t', c); }
    SpineThere(t', base, r.segs);
    AsManyPaths(t);
    AsManyPaths(t');
    var all := Paths(t) + spine;
    assert all == Paths(t) + (spine - Paths(t));
    assert |all| == |Paths(t)| + |spine - Paths(t)|;
    SameSize(all, Paths(t'));
  }

  lemma OnPaths(t: Tree, i: nat)
    requires Valid(t) && i < |t|
    ensures PathTo(t, i) in Paths(t)
  {
    hide Valid, PathTo;
  }

  lemma SpineThere(t: Tree, base: Abs, segs: Abs)
    requires Valid(t) && base + segs in Paths(t)
    ensures Spine(base, segs) <= Paths(t)
  {
    hide Valid, Paths;
    forall k | 0 < k <= |segs| ensures base + segs[..k] in Paths(t) {
      PrefixThere(t, base + segs, |base| + k);
      assert (base + segs)[..|base| + k] == base + segs[..k];
    }
  }

  lemma SameSize<T>(a: set<T>, b: set<T>)
    requires a <= b && |a| == |b|
    ensures a == b
  {
    assert b == a + (b - a);
  }
}
