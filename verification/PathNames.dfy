/** Absolute path names (kernel/fs/vfs.c): resolving against a working directory, containment
    of one path in another, and the write and read rules built on it. */
module PathNames {
  import opened WfsLayout
  import W = WfsDriver
  import P = WfsPaths

  const NAME_MAX: nat := 27
  const PATH_MAX: nat := 255
  const DEPTHS: nat := 64
  const JOINED: nat := 512
  const SLASH: Byte := 47
  const DOT: Str := [46]
  const DOTDOT: Str := [46, 46]

  /** A C string, without its terminator. */
  type Str = seq<Byte>

  /* ---- components ---- */

  function Step(st: seq<Str>, c: Str): seq<Str>
  {
    if c == DOT then st
    else if c == DOTDOT then (if st == [] then [] else st[..|st| - 1])
    else st + [c]
  }

  /** The stack of components left by ".", ".." and names in turn. */
  function Fold(st: seq<Str>, cs: seq<Str>): seq<Str>
    decreases |cs|
  {
    if cs == [] then st else Fold(Step(st, cs[0]), cs[1..])
  }

  function Spelled(st: seq<Str>): Str
  {
    if st == [] then [] else Spelled(st[..|st| - 1]) + [SLASH] + st[|st| - 1]
  }

  function Render(st: seq<Str>): Str { if st == [] then [SLASH] else Spelled(st) }

  /** There is room for one more component: its own length, the saved depths, the buffer. */
  predicate Takes(st: seq<Str>, c: Str, size: nat)
  {
    c == DOT || c == DOTDOT || (|c| <= NAME_MAX && |st| < DEPTHS && |Spelled(st + [c])| < size)
  }

  predicate Fits(st: seq<Str>, cs: seq<Str>, size: nat)
    decreases |cs|
  {
    cs == [] || (Takes(st, cs[0], size) && Fits(Step(st, cs[0]), cs[1..], size))
  }

  /** The path to walk: absolute as it is, relative after the working directory. */
  function Joined(cwd: Str, path: Str): W.Result<Str>
  {
    if path == [] then W.Err(W.EINVAL)
    else if path[0] == SLASH then (if |path| > PATH_MAX then W.Err(W.ENAMETOOLONG) else W.Ok(path))
    else if |cwd| + 1 + |path| > JOINED - 1 then W.Err(W.ENAMETOOLONG)
    else if cwd == [] || cwd[|cwd| - 1] != SLASH then W.Ok(cwd + [SLASH] + path)
    else W.Ok(cwd + path)
  }

  /** What resolving answers: the components folded and spelled out again, if at every step
      there was room. */
  function Resolved(cwd: Str, path: Str, size: nat): W.Result<Str>
  {
    var j := Joined(cwd, path);
    if j.Err? then W.Err(j.error)
    else if Fits([], P.Split(j.value), size) then W.Ok(Render(Fold([], P.Split(j.value))))
    else W.Err(W.ENAMETOOLONG)
  }

  /* ---- the code ---- */

  method SkipSlashes(s: Str, at: nat) returns (q: nat)
    requires at <= |s|
    ensures at <= q <= |s| && s[q..] == P.SkipSlashes(s[at..])
  {
    q := at;
    while q < |s| && s[q] == SLASH
      invariant at <= q <= |s| && P.SkipSlashes(s[q..]) == P.SkipSlashes(s[at..])
    {
      assert s[q..][1..] == s[q + 1..];
      q := q + 1;
    }
  }

  method SkipName(s: Str, at: nat) returns (q: nat)
    requires at <= |s|
    ensures q == at + P.CompLen(s[at..]) && q <= |s|
  {
    q := at;
    while q < |s| && s[q] != SLASH
      invariant at <= q <= |s| && q + P.CompLen(s[q..]) == at + P.CompLen(s[at..])
    {
      assert s[q..][1..] == s[q + 1..];
      q := q + 1;
    }
  }

  /** The buffer spells the stack, and each saved length is where a name began. */
  ghost predicate Spells(out: seq<Byte>, len: nat, saved: seq<nat>, st: seq<Str>)
  {
    && len < |out| && out[..len] == Render(st) && |saved| == DEPTHS && |st| <= DEPTHS
    && (forall c <- st :: c != []) && forall k :: 0 <= k < |st| ==> saved[k] == |Render(st[..k])|
  }

  /** vfs_resolve, into a buffer of the caller's. */
  method Resolve(cwd: Str, path: Str, out: array<Byte>) returns (r: W.Result<nat>)
    requires out.Length >= 2
    modifies out
    ensures match Resolved(cwd, path, out.Length)
      case Ok(abs) => r == W.Ok(|abs|) && |abs| < out.Length && out[..|abs|] == abs && out[|abs|] == 0
      case Err(e) => r == W.Err(e)
  {
    if path == [] {
      return W.Err(W.EINVAL);
    }
    var joined := path;
    if path[0] == SLASH {
      if |path| > PATH_MAX {
        return W.Err(W.ENAMETOOLONG);
      }
    } else {
      if |cwd| + 1 + |path| > JOINED - 1 {
        return W.Err(W.ENAMETOOLONG);
      }
      joined := cwd;
      if |cwd| == 0 || cwd[|cwd| - 1] != SLASH { joined := joined + [SLASH]; }
      joined := joined + path;
    }
    assert Joined(cwd, path) == W.Ok(joined);
    r := Walk(joined, out);
  }

  /** The walk over the components. */
  method Walk(joined: Str, out: array<Byte>) returns (r: W.Result<nat>)
    requires out.Length >= 2
    modifies out
    ensures !Fits([], P.Split(joined), out.Length) ==> r == W.Err(W.ENAMETOOLONG)
    ensures Fits([], P.Split(joined), out.Length) ==>
      var abs := Render(Fold([], P.Split(joined)));
      r == W.Ok(|abs|) && |abs| < out.Length && out[..|abs|] == abs && out[|abs|] == 0
  {
    hide P.Split, Fits, Fold, Render, Takes, Step, Spells, Spelled;
    var saved: seq<nat> := seq(DEPTHS, k => 0);
    ghost var st: seq<Str> := [];
    out[0] := SLASH;
    var depth: nat, len: nat, q: nat := 0, 1, 0;
    Start(out[..], saved);
    assert joined[0..] == joined;
    while q < |joined|
      invariant q <= |joined| && depth == |st| && Spells(out[..], len, saved, st)
      invariant Fits([], P.Split(joined), out.Length) <==> Fits(st, P.Split(joined[q..]), out.Length)
      invariant Fold([], P.Split(joined)) == Fold(st, P.Split(joined[q..]))
      decreases |joined| - q
    {
      var begin := SkipSlashes(joined, q);
      if begin == |joined| {
        NoneLeft(joined[q..]);
        q := begin;
        break;
      }
      var end := SkipName(joined, begin);
      NextComponent(joined, q, begin, end);
      ghost var c := joined[begin..end];
      FoldNext(st, c, P.Split(joined[end..]), out.Length);
      var comp := end - begin;
      q := end;
      if comp == 1 && joined[begin] == DOT[0] {
        assert c == DOT;
        StepDots(st);
        continue;
      }
      if comp == 2 && joined[begin] == DOT[0] && joined[begin + 1] == DOT[0] {
        assert c == DOTDOT;
        StepDots(st);
        if depth > 0 {
          SpellsLen(out[..], len, saved, st);
          Popped(out[..], len, saved, st);
          depth := depth - 1;
          len := saved[depth];
          st := st[..depth];
        }
        continue;
      }
      SpellsLen(out[..], len, saved, st);
      assert |c| == comp && c[0] == joined[begin] && (comp == 2 ==> c[1] == joined[begin + 1]);
      StepName(st, c, out.Length);
      if comp > NAME_MAX {
        return W.Err(W.ENAMETOOLONG);
      }
      if depth >= DEPTHS {
        return W.Err(W.ENAMETOOLONG);
      }
      if len + (if len > 1 then 1 else 0) + comp + 1 > out.Length {
        return W.Err(W.ENAMETOOLONG);
      }
      ghost var was := out[..];
      var from := len;
      len := AppendName(out, len, joined, begin, comp);
      Pushed(was, from, saved, st, c, out[..], len);
      saved := saved[depth := from];
      depth := depth + 1;
      st := st + [c];
    }
    FoldEnd(st, joined[q..], out.Length);
    SpellsLen(out[..], len, saved, st);
    ghost var was := out[..];
    out[len] := 0;
    assert out[..len] == was[..len];
    r := W.Ok(len);
  }

  /** A separator, unless at the root, and the name. */
  method AppendName(out: array<Byte>, len: nat, joined: Str, begin: nat, comp: nat) returns (len': nat)
    requires len + (if len > 1 then 1 else 0) + comp + 1 <= out.Length && begin + comp <= |joined|
    modifies out
    ensures len' == len + (if len > 1 then 1 else 0) + comp
    ensures out[..len'] == old(out[..len]) + (if len > 1 then [SLASH] else []) + joined[begin..begin + comp]
  {
    var at := len;
    if at > 1 {
      out[at] := SLASH;
      at := at + 1;
    }
    ghost var was := out[..at];
    assert was == old(out[..len]) + (if len > 1 then [SLASH] else []);
    Copy(out, at, joined, begin, comp);
    len' := at + comp;
    assert out[..len'] == out[..][..len'];
  }

  /** memcpy. */
  method Copy(out: array<Byte>, at: nat, from: Str, begin: nat, n: nat)
    requires at + n <= out.Length && begin + n <= |from|
    modifies out
    ensures out[..] == old(out[..at]) + from[begin..begin + n] + old(out[at + n..])
  {
    for k := 0 to n
      invariant out[..at] == old(out[..at]) && out[at + k..] == old(out[at + k..])
      invariant out[at..at + k] == from[begin..begin + k]
    {
      out[at + k] := from[begin + k];
    }
    assert out[..] == out[..at] + out[at..at + n] + out[at + n..];
  }

  lemma Start(out: seq<Byte>, saved: seq<nat>)
    requires |out| >= 2 && out[0] == SLASH && |saved| == DEPTHS
    ensures Spells(out, 1, saved, [])
  {
  }

  lemma NoneLeft(s: Str)
    requires P.SkipSlashes(s) == []
    ensures P.Split(s) == P.Split([]) == []
  {
  }

  lemma NextComponent(s: Str, q: nat, begin: nat, end: nat)
    requires q <= begin < |s| && s[begin..] == P.SkipSlashes(s[q..]) && end == begin + P.CompLen(s[begin..])
      && end <= |s|
    ensures begin < end && P.Split(s[q..]) == [s[begin..end]] + P.Split(s[end..])
  {
    assert s[begin..][..end - begin] == s[begin..end] && s[begin..][end - begin..] == s[end..];
  }

  lemma FoldNext(st: seq<Str>, c: Str, cs: seq<Str>, size: nat)
    ensures Fold(st, [c] + cs) == Fold(Step(st, c), cs)
    ensures Fits(st, [c] + cs, size) <==> Takes(st, c, size) && Fits(Step(st, c), cs, size)
  {
    assert ([c] + cs)[1..] == cs;
  }

  lemma StepDots(st: seq<Str>)
    ensures Step(st, DOT) == st && Step(st, DOTDOT) == if st == [] then [] else st[..|st| - 1]
    ensures forall size :: Takes(st, DOT, size) && Takes(st, DOTDOT, size)
  {
  }

  lemma StepName(st: seq<Str>, c: Str, size: nat)
    requires c != DOT && c != DOTDOT && forall s <- st :: s != []
    ensures Step(st, c) == st + [c]
    ensures Takes(st, c, size) <==>
      |c| <= NAME_MAX && |st| < DEPTHS && |Render(st)| + (if |Render(st)| > 1 then 1 else 0) + |c| + 1 <= size
  {
    SpelledSnoc(st, c);
    SpelledLong(st);
  }

  lemma SpelledSnoc(st: seq<Str>, c: Str)
    ensures Spelled(st + [c]) == Spelled(st) + [SLASH] + c
  {
    assert (st + [c])[..|st|] == st;
  }

  /** Nothing but the root is spelled with one character, if no component is empty. */
  lemma SpelledLong(st: seq<Str>)
    requires forall s <- st :: s != []
    ensures st == [] || |Spelled(st)| > 1
  {
    assert st != [] ==> st[|st| - 1] in st;
  }

  lemma FoldEnd(st: seq<Str>, s: Str, size: nat)
    requires s == []
    ensures Fold(st, P.Split(s)) == st && Fits(st, P.Split(s), size)
  {
  }

  lemma SpellsLen(out: seq<Byte>, len: nat, saved: seq<nat>, st: seq<Str>)
    requires Spells(out, len, saved, st)
    ensures len == |Render(st)| && len < |out| && out[..len] == Render(st) && |saved| == DEPTHS && |st| <= DEPTHS
      && forall c <- st :: c != []
  {
  }

  lemma {:induction false} SpelledPrefix(st: seq<Str>, k: nat)
    requires k <= |st|
    ensures Spelled(st[..k]) <= Spelled(st)
    decreases |st|
  {
    if k < |st| {
      SpelledPrefix(st[..|st| - 1], k);
      assert st[..|st| - 1][..k] == st[..k];
    } else {
      assert st[..k] == st;
    }
  }

  lemma {:induction false} SpelledStarts(st: seq<Str>)
    requires st != []
    ensures Spelled(st) != [] && Spelled(st)[0] == SLASH
  {
    if |st| > 1 {
      SpelledStarts(st[..|st| - 1]);
    } else {
      assert Spelled(st[..|st| - 1]) == [];
    }
  }

  lemma RenderPrefix(st: seq<Str>, k: nat)
    requires k <= |st|
    ensures Render(st[..k]) <= Render(st)
  {
    SpelledPrefix(st, k);
    if st != [] { SpelledStarts(st); }
    assert k == |st| ==> st[..k] == st;
  }

  /** Restoring a saved length takes the last name off. */
  lemma Popped(out: seq<Byte>, len: nat, saved: seq<nat>, st: seq<Str>)
    requires Spells(out, len, saved, st) && st != []
    ensures Spells(out, saved[|st| - 1], saved, st[..|st| - 1])
  {
    hide Render;
    var n := |st| - 1;
    RenderPrefix(st, n);
    assert forall k :: 0 <= k < n ==> st[..n][..k] == st[..k];
    assert out[..saved[n]] == out[..len][..saved[n]];
    assert forall c :: c in st[..n] ==> c in st;
  }

  lemma Pushed(was: seq<Byte>, len: nat, saved: seq<nat>, st: seq<Str>, c: Str, out: seq<Byte>, len': nat)
    requires Spells(was, len, saved, st) && |st| < DEPTHS && c != [] && len' < |out|
    requires out[..len'] == was[..len] + (if len > 1 then [SLASH] else []) + c
    ensures Spells(out, len', saved[|st| := len], st + [c])
  {
    SpelledSnoc(st, c);
    SpelledLong(st);
    assert forall k :: 0 <= k < |st| ==> (st + [c])[..k] == st[..k];
    assert (st + [c])[..|st|] == st;
    assert st != [] ==> was[..len] == Spelled(st);
  }

  /* ---- canonical names ---- */

  /** A component that names something. */
  predicate Plain(c: Str) { c != [] && SLASH !in c && c != DOT && c != DOTDOT }

  predicate Clean(st: seq<Str>) { forall c <- st :: Plain(c) }

  lemma {:induction false} FoldIsClean(st: seq<Str>, cs: seq<Str>, size: nat)
    requires Clean(st) && |st| <= DEPTHS && (forall c <- cs :: c != [] && SLASH !in c) && Fits(st, cs, size)
    requires (forall c <- st :: |c| <= NAME_MAX) && |Render(st)| < size
    ensures Clean(Fold(st, cs)) && |Fold(st, cs)| <= DEPTHS && |Render(Fold(st, cs))| < size
    ensures forall c <- Fold(st, cs) :: |c| <= NAME_MAX
    decreases |cs|
  {
    hide Render, Spelled;
    if cs != [] {
      assert cs[0] in cs;
      StepIsClean(st, cs[0], size);
      assert forall c :: c in cs[1..] ==> c in cs;
      FoldIsClean(Step(st, cs[0]), cs[1..], size);
    }
  }

  lemma StepIsClean(st: seq<Str>, c: Str, size: nat)
    requires Clean(st) && |st| <= DEPTHS && c != [] && SLASH !in c && Takes(st, c, size)
    requires (forall d <- st :: |d| <= NAME_MAX) && |Render(st)| < size
    ensures Clean(Step(st, c)) && |Step(st, c)| <= DEPTHS && |Render(Step(st, c))| < size
    ensures forall d <- Step(st, c) :: |d| <= NAME_MAX
  {
    if c == DOTDOT && st != [] {
      assert forall d :: d in st[..|st| - 1] ==> d in st;
      RenderPrefix(st, |st| - 1);
    }
  }

  /** Splitting at a slash. */
  lemma {:induction false} SplitJoin(a: Str, b: Str)
    ensures P.Split(a + [SLASH] + b) == P.Split(a) + P.Split(b)
    decreases |a|
  {
    hide P.Split, P.CompLen;
    var s := a + [SLASH] + b;
    if a == [] {
      assert s[1..] == b;
      SkipOne(s);
      SplitNothing();
    } else if a[0] == SLASH {
      assert s[1..] == a[1..] + [SLASH] + b;
      SkipOne(s);
      SkipOne(a);
      SplitJoin(a[1..], b);
    } else {
      var n := P.CompLen(a);
      CompStops(a, b);
      FirstComponent(s);
      FirstComponent(a);
      assert s[n..] == a[n..] + [SLASH] + b && s[..n] == a[..n];
      SplitJoin(a[n..], b);
    }
  }

  lemma FirstComponent(s: Str)
    requires s != [] && s[0] != SLASH
    ensures P.CompLen(s) > 0 && P.Split(s) == [s[..P.CompLen(s)]] + P.Split(s[P.CompLen(s)..])
  {
  }

  lemma SplitNothing()
    ensures P.Split([]) == []
  {
  }

  lemma SkipOne(s: Str)
    requires s != [] && s[0] == SLASH
    ensures P.Split(s) == P.Split(s[1..])
  {
    var q := P.SkipSlashes(s);
    assert q == P.SkipSlashes(s[1..]);
  }

  lemma {:induction false} CompStops(a: Str, b: Str)
    ensures P.CompLen(a + [SLASH] + b) == P.CompLen(a)
    decreases |a|
  {
    var s := a + [SLASH] + b;
    if a != [] && a[0] != SLASH {
      assert s[1..] == a[1..] + [SLASH] + b;
      CompStops(a[1..], b);
    }
  }

  lemma {:induction false} CompWhole(c: Str)
    requires SLASH !in c
    ensures P.CompLen(c) == |c|
  {
    if c != [] { CompWhole(c[1..]); }
  }

  lemma SplitOne(c: Str)
    requires c != [] && SLASH !in c
    ensures P.Split(c) == [c]
  {
    CompWhole(c);
    assert c[0] in c;
    assert c[..|c|] == c && c[|c|..] == [];
  }

  /** A clean stack is what its spelling splits into. */
  lemma {:induction false} SplitSpelled(st: seq<Str>)
    requires Clean(st)
    ensures P.Split(Spelled(st)) == st
    decreases |st|
  {
    if st != [] {
      var n := |st| - 1;
      assert st[n] in st;
      SplitSpelled(st[..n]);
      SplitJoin(Spelled(st[..n]), st[n]);
      SplitOne(st[n]);
      assert st == st[..n] + [st[n]];
    }
  }

  lemma SplitRender(st: seq<Str>)
    requires Clean(st)
    ensures P.Split(Render(st)) == st
  {
    hide Spelled;
    if st == [] {
      assert [SLASH] == [] + [SLASH] + [];
      SplitJoin([], []);
    } else {
      SplitSpelled(st);
    }
  }

  /** Two clean stacks spelled the same are the same. */
  lemma RenderInjective(a: seq<Str>, b: seq<Str>)
    requires Clean(a) && Clean(b) && Render(a) == Render(b)
    ensures a == b
  {
    SplitRender(a);
    SplitRender(b);
  }

  lemma {:induction false} FoldAgain(st: seq<Str>, cs: seq<Str>, size: nat)
    requires Clean(cs) && |st| + |cs| <= DEPTHS && (forall c <- cs :: |c| <= NAME_MAX) && |Render(st + cs)| < size
    ensures Fold(st, cs) == st + cs && Fits(st, cs, size)
    decreases |cs|
  {
    if cs != [] {
      assert cs[0] in cs;
      assert st + [cs[0]] + cs[1..] == st + cs;
      RenderPrefix(st + cs, |st| + 1);
      assert (st + cs)[..|st| + 1] == st + [cs[0]];
      FoldAgain(st + [cs[0]], cs[1..], size);
    } else {
      assert st + cs == st;
    }
  }

  /** The stack behind a resolved path. */
  ghost predicate StackOf(st: seq<Str>, abs: Str, size: nat)
  {
    && Clean(st) && |st| <= DEPTHS && (forall c <- st :: |c| <= NAME_MAX)
    && abs == Render(st) && |abs| < size
  }

  /** Whatever resolving answers is the spelling of a stack of plain names: it starts with a
      slash, has no empty, "." or ".." component, and fits the buffer. */
  lemma ResolvedIsClean(cwd: Str, path: Str, size: nat) returns (st: seq<Str>)
    requires size >= 2 && Resolved(cwd, path, size).Ok?
    ensures StackOf(st, Resolved(cwd, path, size).value, size) && P.Split(Resolved(cwd, path, size).value) == st
    ensures Joined(cwd, path).Ok? && st == Fold([], P.Split(Joined(cwd, path).value))
  {
    hide P.Split, Render;
    var cs := P.Split(Joined(cwd, path).value);
    SplitNames(Joined(cwd, path).value);
    RootIsShort();
    FoldIsClean([], cs, size);
    st := Fold([], cs);
    SplitRender(st);
  }

  lemma SplitNames(s: Str)
    ensures forall c <- P.Split(s) :: c != [] && SLASH !in c
  {
  }

  lemma RootIsShort()
    ensures |Render([])| == 1
  {
  }

  /** Resolving again, from anywhere, changes nothing. */
  lemma ResolvedIsFixed(cwd: Str, path: Str, size: nat, cwd': Str)
    requires 2 <= size <= PATH_MAX + 1 && Resolved(cwd, path, size).Ok?
    ensures Resolved(cwd', Resolved(cwd, path, size).value, size) == Resolved(cwd, path, size)
  {
    hide P.Split, Fold, Fits;
    var abs := Resolved(cwd, path, size).value;
    var st := ResolvedIsClean(cwd, path, size);
    if st != [] { SpelledStarts(st); }
    assert abs != [] && abs[0] == SLASH;
    assert [] + st == st;
    FoldAgain([], st, size);
  }

  /** A relative path is folded onto the working directory's own components. */
  lemma RelativeFolds(st: seq<Str>, path: Str, size: nat)
    requires Clean(st) && |st| <= DEPTHS && (forall c <- st :: |c| <= NAME_MAX) && |Render(st)| < size
    requires path != [] && path[0] != SLASH && |Render(st)| + 1 + |path| <= JOINED - 1
    ensures Resolved(Render(st), path, size)
         == if Fits(st, P.Split(path), size) then W.Ok(Render(Fold(st, P.Split(path)))) else W.Err(W.ENAMETOOLONG)
  {
    hide P.Split, Fold, Fits, Spelled;
    var j := Joined(Render(st), path).value;
    if st == [] {
      assert j == [] + [SLASH] + path;
      SplitJoin([], path);
      NoneLeft([]);
    } else {
      SplitSpelled(st);
      SpelledEnds(st);
      assert j == Spelled(st) + [SLASH] + path;
      SplitJoin(Spelled(st), path);
    }
    assert P.Split(j) == st + P.Split(path);
    assert [] + st == st;
    FoldAgain([], st, size);
    FoldOn([], st, P.Split(path), size);
  }

  lemma SpelledEnds(st: seq<Str>)
    requires Clean(st) && st != []
    ensures Spelled(st) != [] && Spelled(st)[|Spelled(st)| - 1] != SLASH
  {
    var c := st[|st| - 1];
    assert c in st;
    assert c[|c| - 1] in c;
  }

  lemma {:induction false} FoldOn(st: seq<Str>, a: seq<Str>, b: seq<Str>, size: nat)
    ensures Fold(st, a + b) == Fold(Fold(st, a), b)
    ensures Fits(st, a + b, size) <==> Fits(st, a, size) && Fits(Fold(st, a), b, size)
    decreases |a|
  {
    if a == [] {
      assert a + b == b;
    } else {
      assert (a + b)[1..] == a[1..] + b && (a + b)[0] == a[0];
      FoldOn(Step(st, a[0]), a[1..], b, size);
    }
  }

  /* ---- containment ---- */

  /** path_within. */
  predicate Within(path: Str, prefix: Str)
  {
    prefix <= path && (|path| == |prefix| || path[|prefix|] == SLASH)
  }

  /** On resolved paths it is the prefix order on components, except that only the root is
      within the root: the root's spelling ends in a slash, and what follows it is a name. */
  lemma WithinIff(a: seq<Str>, b: seq<Str>)
    requires Clean(a) && Clean(b)
    ensures Within(Render(a), Render(b)) <==> b <= a && (b == [] ==> a == [])
  {
    if b == [] {
      if a != [] { NotSlashNext(a); }
    } else {
      if Within(Render(a), Render(b)) {
        WithinCuts(a, b);
      }
      if b <= a {
        assert a[..|b|] == b;
        PrefixWithin(a, |b|);
      }
    }
  }

  /** So "/a" is not within "/", whose components it extends. */
  lemma RootHoldsNothing()
    ensures !Within(Render([[97]]), Render([])) && [] <= [[97]]
  {
    WithinIff([[97]], []);
  }

  lemma {:induction false} NotSlashNext(a: seq<Str>)
    requires Clean(a) && a != []
    ensures |Spelled(a)| > 1 && Spelled(a)[0] == SLASH && Spelled(a)[1] != SLASH
  {
    if |a| == 1 {
      assert Spelled(a[..0]) == [];
      assert a[0] in a && a[0][0] in a[0];
      assert Spelled(a) == [SLASH] + a[0];
    } else {
      NotSlashNext(a[..|a| - 1]);
    }
  }

  lemma {:induction false} PrefixWithin(a: seq<Str>, k: nat)
    requires 0 < k <= |a| && Clean(a)
    ensures Within(Spelled(a), Spelled(a[..k]))
    decreases |a|
  {
    if k < |a| {
      PrefixWithin(a[..|a| - 1], k);
      assert a[..|a| - 1][..k] == a[..k];
    } else {
      assert a[..k] == a;
    }
  }

  /** What follows the prefix is empty or starts at a slash, so the split is the prefix's
      components and more. */
  lemma WithinCuts(a: seq<Str>, b: seq<Str>)
    requires Clean(a) && Clean(b) && b != [] && Within(Render(a), Render(b))
    ensures b <= a
  {
    hide Spelled, P.Split;
    var p, q := Render(a), Render(b);
    SplitRender(a);
    SplitRender(b);
    if |p| != |q| {
      assert p == q + [SLASH] + p[|q| + 1..];
      SplitJoin(q, p[|q| + 1..]);
    } else {
      assert p == q;
    }
  }

  /* ---- the rules on who may write and read ---- */

  const KERNEL: Str := [107, 101, 114, 110, 101, 108]
  const USERCONFIG: Str := [117, 115, 101, 114, 99, 111, 110, 102, 105, 103]
  const APP: Str := [97, 112, 112]
  const SERVICES: Str := [115, 101, 114, 118, 105, 99, 101, 115]
  const RAMDISK: Str := [114, 97, 109, 100, 105, 115, 107]
  const HOME: Str := [104, 111, 109, 101]
  const PASSWORD: Str := [112, 97, 115, 115, 119, 111, 114, 100]

  function Top(c: Str): Str { [SLASH] + c }

  /** strrchr, and the character after. */
  function AfterLastSlash(s: Str): Str
  {
    if s == [] then [] else if s[|s| - 1] == SLASH then [] else AfterLastSlash(s[..|s| - 1]) + [s[|s| - 1]]
  }

  method CountSlashes(s: Str) returns (n: nat)
    ensures n == Slashes(s)
  {
    n := 0;
    for k := 0 to |s|
      invariant n == Slashes(s[..k])
    {
      assert s[..k + 1][..k] == s[..k];
      if s[k] == SLASH { n := n + 1; }
    }
    assert s[..|s|] == s;
  }

  function Slashes(s: Str): nat
  {
    if s == [] then 0 else Slashes(s[..|s| - 1]) + if s[|s| - 1] == SLASH then 1 else 0
  }

  predicate IsPasswordFile(abs: Str)
  {
    Within(abs, Top(USERCONFIG)) && AfterLastSlash(abs) == PASSWORD && Slashes(abs) == 3
  }

  /** Who asks: the uid, the roles, and the account's name if there is one. */
  datatype Caller = Caller(uid: nat, named: bool, name: Str, userEditor: bool, appEditor: bool, sysctlEdit: bool)

  predicate MayRead(p: Caller, abs: Str)
  {
    if p.uid == 0 then true
    else if IsPasswordFile(abs) then false
    else if Within(abs, Top(HOME)) then abs == Top(HOME) || (p.named && Within(abs, Top(HOME) + Top(p.name)))
    else true
  }

  predicate MayWrite(p: Caller, abs: Str)
  {
    if p.uid == 0 then true
    else if Within(abs, Top(KERNEL)) then false
    else if IsPasswordFile(abs) then false
    else if Within(abs, Top(USERCONFIG)) then p.named && p.userEditor
    else if Within(abs, Top(APP)) then p.named && p.appEditor
    else if Within(abs, Top(SERVICES)) then p.named && p.sysctlEdit
    else if Within(abs, Top(RAMDISK)) then true
    else p.named && Within(abs, Top(HOME) + Top(p.name))
  }

  lemma {:induction false} SlashesApp(a: Str, b: Str)
    ensures Slashes(a + b) == Slashes(a) + Slashes(b)
    decreases |b|
  {
    if b == [] {
      assert a + b == a;
    } else {
      assert (a + b)[..|a + b| - 1] == a + b[..|b| - 1];
      SlashesApp(a, b[..|b| - 1]);
    }
  }

  lemma {:induction false} NoSlashes(c: Str)
    requires SLASH !in c
    ensures Slashes(c) == 0
  {
    if c != [] {
      NoSlashes(c[..|c| - 1]);
      assert c[|c| - 1] in c;
    }
  }

  lemma {:induction false} SlashesSpelled(st: seq<Str>)
    requires Clean(st)
    ensures Slashes(Spelled(st)) == |st|
    decreases |st|
  {
    if st != [] {
      var n := |st| - 1;
      assert st[n] in st;
      SlashesSpelled(st[..n]);
      NoSlashes(st[n]);
      SlashesApp(Spelled(st[..n]) + [SLASH], st[n]);
      SlashesApp(Spelled(st[..n]), [SLASH]);
      assert [SLASH][..0] == [];
    }
  }

  lemma {:induction false} LastName(a: Str, c: Str)
    requires SLASH !in c
    ensures AfterLastSlash(a + [SLASH] + c) == c
    decreases |c|
  {
    var s := a + [SLASH] + c;
    if c == [] {
      assert s == a + [SLASH];
    } else {
      assert c[|c| - 1] in c;
      assert s[..|s| - 1] == a + [SLASH] + c[..|c| - 1];
      LastName(a, c[..|c| - 1]);
    }
  }

  /** Exactly the files /userconfig/<name>/password. */
  lemma PasswordFileIff(st: seq<Str>)
    requires Clean(st)
    ensures IsPasswordFile(Render(st)) <==> |st| == 3 && st[0] == USERCONFIG && st[2] == PASSWORD
  {
    hide AfterLastSlash;
    TopWithinIff(st, USERCONFIG);
    if st != [] {
      SlashesSpelled(st);
      assert st[|st| - 1] in st;
      LastName(Spelled(st[..|st| - 1]), st[|st| - 1]);
    }
  }

  lemma TopIs(c: Str)
    ensures Render([c]) == Top(c)
  {
    assert [c][..0] == [] && Spelled([c]) == Spelled([c][..0]) + [SLASH] + c;
  }

  lemma TopWithinIff(st: seq<Str>, c: Str)
    requires Clean(st) && Plain(c)
    ensures Within(Render(st), Top(c)) <==> st != [] && st[0] == c
  {
    hide Spelled, Within;
    TopIs(c);
    WithinIff(st, [c]);
    assert [c] <= st <==> st != [] && st[0] == c;
  }

  lemma HomeWithinIff(st: seq<Str>, name: Str)
    requires Clean(st) && Plain(name)
    ensures Within(Render(st), Top(HOME) + Top(name)) <==> |st| >= 2 && st[0] == HOME && st[1] == name
  {
    hide Within;
    TopIs(HOME);
    assert [HOME, name][..1] == [HOME];
    assert Render([HOME, name]) == Top(HOME) + Top(name);
    WithinIff(st, [HOME, name]);
    assert [HOME, name] <= st <==> |st| >= 2 && st[0] == HOME && st[1] == name;
  }

  /** Where the caller's write permission comes from, by the first component. */
  predicate WriteRule(p: Caller, st: seq<Str>)
  {
    p.uid == 0
    || (st != []
        && !(|st| == 3 && st[0] == USERCONFIG && st[2] == PASSWORD)
        && ((st[0] == USERCONFIG && p.named && p.userEditor)
            || (st[0] == APP && p.named && p.appEditor)
            || (st[0] == SERVICES && p.named && p.sysctlEdit)
            || st[0] == RAMDISK
            || (|st| >= 2 && st[0] == HOME && p.named && st[1] == p.name)))
  }

  predicate ReadRule(p: Caller, st: seq<Str>)
  {
    p.uid == 0
    || (!(|st| == 3 && st[0] == USERCONFIG && st[2] == PASSWORD)
        && (|st| >= 2 && st[0] == HOME ==> p.named && st[1] == p.name))
  }

  /** On any path a caller can name, the tests on the text decide by the components: "..",
      doubled slashes and names that merely begin alike make no difference. */
  lemma RulesAreOnComponents(cwd: Str, path: Str, size: nat, p: Caller)
    requires size >= 2 && Resolved(cwd, path, size).Ok? && Plain(p.name)
    ensures var st := Fold([], P.Split(Joined(cwd, path).value));
      && (MayWrite(p, Resolved(cwd, path, size).value) <==> WriteRule(p, st))
      && (MayRead(p, Resolved(cwd, path, size).value) <==> ReadRule(p, st))
  {
    hide Resolved, Joined, P.Split, Fold, Within, IsPasswordFile, Render;
    var st := ResolvedIsClean(cwd, path, size);
    PasswordFileIff(st);
    TopWithinIff(st, KERNEL);
    TopWithinIff(st, USERCONFIG);
    TopWithinIff(st, APP);
    TopWithinIff(st, SERVICES);
    TopWithinIff(st, RAMDISK);
    TopWithinIff(st, HOME);
    HomeWithinIff(st, p.name);
    HomeItself(st);
  }

  lemma HomeItself(st: seq<Str>)
    requires Clean(st)
    ensures Render(st) == Top(HOME) <==> st == [HOME]
  {
    TopIs(HOME);
    if Render(st) == Top(HOME) { RenderInjective(st, [HOME]); }
  }
}
