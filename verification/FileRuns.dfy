/** The disk's file system and the one in memory, run side by side. */
module FileRuns {
  import opened WfsLayout
  import opened WfsVolume
  import S = FileSpec
  import N = FileNumbers
  import D = WfsRuns
  import V = WfsView
  import M = RamRuns
  import T = WfsTree
  import R = WfsRecords
  import W = RamWalk

  lemma LegalIsGrounded(v: Vol, op: S.Op)
    requires T.IsTree(R.TreeOf(v)) && D.Legal(v, op)
    ensures N.Grounded(V.AbsOf(v), op)
  {
    hide R.TreeOf, T.IsTree, V.AbsOf, V.FilesOf, S.OnDisk, S.IsDirAt;
    match op
    case Create(path, _) =>
      V.ResolveIs(v, path);
      if S.OnDisk(V.AbsOf(v), path).Ok? { V.DirsAre(v, S.OnDisk(V.AbsOf(v), path).value.0); }
    case Rename(_, to) =>
      V.ResolveIs(v, to);
      if S.OnDisk(V.AbsOf(v), to).Ok? { V.DirsAre(v, S.OnDisk(V.AbsOf(v), to).value.0); }
    case _ =>
  }

  /** Told the same by path, and answering the same, a run on a disk and a run in memory hold the
      same files under the same names in every state, each by its own numbers. */
  lemma RunsAgree(vs: seq<Vol>, ms: seq<M.State>, ops: seq<S.Op>, ops': seq<S.Op>, outs: seq<S.Out>, outs': seq<S.Out>,
    rens: seq<N.Ren>, n: nat)
    requires D.History(vs, ops, outs) && M.History(ms, ops', outs')
    requires N.Alongside(D.Views(vs), W.MOUNT, ops, ops', outs, outs', rens)
    requires N.Match(V.AbsOf(vs[0]), M.AbsOf(ms[0].ns, ms[0].ps), rens[0]) && n <= |outs|
    ensures |ms| == |vs| && N.Match(V.AbsOf(vs[n]), M.AbsOf(ms[n].ns, ms[n].ps), rens[n])
  {
    hide N.Match, V.AbsOf, M.AbsOf, D.Legal, M.Legal, S.Did, S.ActOf, N.SameOp, N.SameOut, N.Onward, N.Grounded;
    forall k | 0 <= k < |outs| ensures N.Grounded(D.Views(vs)[k], ops[k]) {
      assert D.Healthy(vs[k]);
      LegalIsGrounded(vs[k], ops[k]);
    }
    N.StoriesMatch(D.Views(vs), M.Views(ms), W.MOUNT, ops, ops', outs, outs', rens, n);
  }
}
