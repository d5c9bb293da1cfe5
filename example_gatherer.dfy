/**
 * The training-data store `ExampleGatherer<T, G>`: an append-only list of groups, one per
 * processed query, each holding (feature pack, target) pairs, optionally the candidate each
 * pair was computed for, and the query's gold value. The store re-exports its contents as
 * learning problems, per-query pairings and line dumps.
 */
module Gathering {
  import opened Basics
  import Sorting

  /**
   * A feature pack, taken as an opaque value: its named feature values and the number of
   * features its kind declares.
   */
  datatype FeaturePack = FeaturePack(values: map<string, real>, featureCount: nat)

  /** A (feature pack, target) pair. */
  type Example = (FeaturePack, real)

  /** The elements of `ss`, list after list. */
  function Flatten<X>(ss: seq<seq<X>>): seq<X>
  {
    if ss == [] then [] else Flatten(ss[..|ss| - 1]) + ss[|ss| - 1]
  }

  /** The sum of the lengths of the lists in `ss`. */
  function TotalSize<X>(ss: seq<seq<X>>): nat
  {
    if ss == [] then 0 else TotalSize(ss[..|ss| - 1]) + |ss[|ss| - 1]|
  }

  /** Where element `j` of list `i` lands once the lists are flattened. */
  function At<X>(ss: seq<seq<X>>, i: nat, j: nat): nat
    requires i <= |ss|
  {
    |Flatten(ss[..i])| + j
  }

  lemma {:induction false} FlattenLength<X>(ss: seq<seq<X>>)
    ensures |Flatten(ss)| == TotalSize(ss)
  {
    if ss != [] {
      FlattenLength(ss[..|ss| - 1]);
    }
  }

  /** Element `j` of list `i` sits at `At(ss, i, j)` of the flattened list. */
  lemma {:induction false} FlattenAt<X>(ss: seq<seq<X>>, i: nat, j: nat)
    requires i < |ss| && j < |ss[i]|
    ensures At(ss, i, j) < |Flatten(ss)| && Flatten(ss)[At(ss, i, j)] == ss[i][j]
  {
    var n := |ss| - 1;
    var init := ss[..n];
    if i < n {
      assert ss[..i] == init[..i];
      FlattenAt(init, i, j);
    } else {
      assert ss[..i] == init;
    }
  }

  /** Every position of the flattened list is element `j` of some list `i`. */
  lemma {:induction false} FlattenCovers<X>(ss: seq<seq<X>>, k: nat)
    requires k < |Flatten(ss)|
    ensures exists i, j :: 0 <= i < |ss| && 0 <= j < |ss[i]| && At(ss, i, j) == k
  {
    var n := |ss| - 1;
    var init := ss[..n];
    assert ss[..n] == init;
    if k < |Flatten(init)| {
      FlattenCovers(init, k);
      var i, j :| 0 <= i < |init| && 0 <= j < |init[i]| && At(init, i, j) == k;
      assert ss[..i] == init[..i];
      assert At(ss, i, j) == k;
    } else {
      assert At(ss, n, k - |Flatten(init)|) == k;
    }
  }

  lemma FlattenSnoc<X>(ss: seq<seq<X>>, s: seq<X>)
    ensures Flatten(ss + [s]) == Flatten(ss) + s
  {
    assert (ss + [s])[..|ss|] == ss;
  }

  /**
   * The feature count after adding the groups `gs` to a new store: `-1` until a group with
   * examples is added, then the count of that group's last pack, for good.
   */
  function LatchedCount(gs: seq<seq<Example>>): int
  {
    if gs == [] then -1
    else
      var before := LatchedCount(gs[..|gs| - 1]);
      var g := gs[|gs| - 1];
      if before < 0 && g != [] then g[|g| - 1].0.featureCount else before
  }

  /** The count is unset exactly while every group added is empty. */
  lemma {:induction false} LatchUnsetIffAllEmpty(gs: seq<seq<Example>>)
    ensures LatchedCount(gs) < 0 <==> forall i :: 0 <= i < |gs| ==> gs[i] == []
    ensures LatchedCount(gs) < 0 ==> LatchedCount(gs) == -1
  {
    if gs != [] {
      var init := gs[..|gs| - 1];
      LatchUnsetIffAllEmpty(init);
      assert forall i :: 0 <= i < |init| ==> init[i] == gs[i];
    }
  }

  /** The count is that of the last pack of the first group with examples, whatever follows it. */
  lemma {:induction false} LatchedByFirstNonEmpty(gs: seq<seq<Example>>, f: nat)
    requires f < |gs| && gs[f] != [] && forall i :: 0 <= i < f ==> gs[i] == []
    ensures LatchedCount(gs) == gs[f][|gs[f]| - 1].0.featureCount
  {
    var init := gs[..|gs| - 1];
    if f < |gs| - 1 {
      LatchedByFirstNonEmpty(init, f);
    } else {
      LatchUnsetIffAllEmpty(init);
    }
  }

  /** A store whose count is set keeps it whatever groups are added next. */
  lemma {:induction false} LatchStable(gs: seq<seq<Example>>, more: seq<seq<Example>>)
    requires LatchedCount(gs) >= 0
    ensures LatchedCount(gs + more) == LatchedCount(gs)
  {
    if more != [] {
      var init := more[..|more| - 1];
      assert (gs + more)[..|gs + more| - 1] == gs + init;
      LatchStable(gs, init);
    } else {
      assert gs + more == gs;
    }
  }

  /** A learning problem: `l` examples, their vectors `x` and their targets `y`. */
  datatype Problem<V> = Problem(l: int, x: seq<V>, y: seq<real>)

  /** The features kept in a pointwise line: all of them, or those whose 1-based index is selected. */
  predicate Keeps(selected: Option<seq<int>>, k: int)
  {
    selected.None? || k in selected.value
  }

  /** The (1-based index, value) pairs of `vect` that `selected` keeps, in index order. */
  function Picked(vect: seq<real>, selected: Option<seq<int>>): seq<(int, real)>
  {
    if vect == [] then []
    else
      var init := Picked(vect[..|vect| - 1], selected);
      if Keeps(selected, |vect|) then init + [(|vect|, vect[|vect| - 1])] else init
  }

  /**
   * The picked pairs are exactly the selected features, each with its value, with strictly
   * ascending indices.
   */
  lemma {:induction false} PickedSpec(vect: seq<real>, selected: Option<seq<int>>)
    ensures forall m :: 0 <= m < |Picked(vect, selected)| ==>
      var (k, v) := Picked(vect, selected)[m]; 1 <= k <= |vect| && v == vect[k - 1] && Keeps(selected, k)
    ensures forall m, n :: 0 <= m < n < |Picked(vect, selected)| ==> Picked(vect, selected)[m].0 < Picked(vect, selected)[n].0
    ensures forall k :: 1 <= k <= |vect| && Keeps(selected, k) ==>
      exists m :: 0 <= m < |Picked(vect, selected)| && Picked(vect, selected)[m].0 == k
  {
    if vect != [] {
      var init := vect[..|vect| - 1];
      PickedSpec(init, selected);
      var p := Picked(init, selected);
      forall k | 1 <= k <= |vect| && Keeps(selected, k)
        ensures exists m :: 0 <= m < |Picked(vect, selected)| && Picked(vect, selected)[m].0 == k
      {
        if k < |vect| {
          var m :| 0 <= m < |p| && p[m].0 == k;
          assert Picked(vect, selected)[m].0 == k;
        } else {
          assert Picked(vect, selected)[|p|].0 == k;
        }
      }
    }
  }

  /** With no selection every feature is kept, in order. */
  lemma {:induction false} PickedAll(vect: seq<real>)
    ensures |Picked(vect, None)| == |vect|
    ensures forall m :: 0 <= m < |vect| ==> Picked(vect, None)[m] == (m + 1, vect[m])
  {
    if vect != [] {
      PickedAll(vect[..|vect| - 1]);
    }
  }

  /** A line of the pointwise dump: the target, the picked features and the group index. */
  datatype PointLine = PointLine(target: real, features: seq<(int, real)>, id: int)

  /** A line of the ranking dump: the rank, the group index and every feature. */
  datatype RankLine = RankLine(rank: int, qid: int, features: seq<(int, real)>)

  function PointLineOf(vect: seq<real>, target: real, id: int, selected: Option<seq<int>>): PointLine
  {
    PointLine(target, Picked(vect, selected), id)
  }

  /** The pointwise lines of group `i`. */
  function GroupPointLines(g: seq<Example>, i: int, norm: FeaturePack -> seq<real>, selected: Option<seq<int>>)
    : (r: seq<PointLine>)
    ensures |r| == |g|
  {
    seq(|g|, j requires 0 <= j < |g| => PointLineOf(norm(g[j].0), g[j].1, i, selected))
  }

  /** The pointwise lines, one list per group. */
  function PointLines(gs: seq<seq<Example>>, norm: FeaturePack -> seq<real>, selected: Option<seq<int>>)
    : (r: seq<seq<PointLine>>)
    ensures |r| == |gs|
  {
    seq(|gs|, i requires 0 <= i < |gs| => GroupPointLines(gs[i], i, norm, selected))
  }

  /**
   * Dense ranks of a list of targets: 1 for the first, then one more each time the target
   * differs from the previous one.
   */
  function DenseRanks(ts: seq<real>): (r: seq<int>)
    ensures |r| == |ts|
  {
    if ts == [] then []
    else
      var init := DenseRanks(ts[..|ts| - 1]);
      if |ts| == 1 then [1]
      else if ts[|ts| - 1] != ts[|ts| - 2] then init + [init[|init| - 1] + 1]
      else init + [init[|init| - 1]]
  }

  /** The first rank is 1 and each rank grows by one exactly where the target changes. */
  lemma {:induction false} DenseRanksSteps(ts: seq<real>)
    ensures ts != [] ==> DenseRanks(ts)[0] == 1
    ensures forall k :: 0 < k < |ts| ==>
      DenseRanks(ts)[k] == DenseRanks(ts)[k - 1] + (if ts[k] != ts[k - 1] then 1 else 0)
  {
    if |ts| > 1 {
      var prev := ts[..|ts| - 1];
      var r := DenseRanks(ts);
      var init := DenseRanks(prev);
      DenseRanksSteps(prev);
      assert r[..|ts| - 1] == init;
      forall k | 0 < k < |ts|
        ensures r[k] == r[k - 1] + (if ts[k] != ts[k - 1] then 1 else 0)
      {
        if k < |ts| - 1 {
          assert r[k] == init[k] && r[k - 1] == init[k - 1];
          assert ts[k] == prev[k] && ts[k - 1] == prev[k - 1];
        }
      }
    }
  }

  /** Non-increasing targets. */
  predicate NonIncreasing(ts: seq<real>)
  {
    forall k, l :: 0 <= k < l < |ts| ==> ts[l] <= ts[k]
  }

  /**
   * On non-increasing targets dense ranks are what a ranking needs: two lines share a rank
   * exactly when they share a target, and a lower target has a larger rank.
   */
  lemma DenseRanksRank(ts: seq<real>, k: nat, l: nat)
    requires NonIncreasing(ts) && k < l < |ts|
    ensures DenseRanks(ts)[k] <= DenseRanks(ts)[l]
    ensures DenseRanks(ts)[k] == DenseRanks(ts)[l] <==> ts[k] == ts[l]
  {
    DenseRanksSteps(ts);
    var m := k;
    while m < l
      invariant k <= m <= l
      invariant DenseRanks(ts)[k] <= DenseRanks(ts)[m]
      invariant DenseRanks(ts)[k] == DenseRanks(ts)[m] <==> ts[k] == ts[m]
    {
      m := m + 1;
    }
  }

  /** The lines of one group of the ranking dump, read from the group in ranked order. */
  function RankedLines(sorted: seq<Example>, qid: int, norm: FeaturePack -> seq<real>): (r: seq<RankLine>)
    ensures |r| == |sorted|
  {
    var ranks := DenseRanks(Targets(sorted));
    seq(|sorted|, k requires 0 <= k < |sorted| => RankLine(ranks[k], qid, Picked(norm(sorted[k].0), None)))
  }

  function Targets(s: seq<Example>): (r: seq<real>)
    ensures |r| == |s| && forall k :: 0 <= k < |s| ==> r[k] == s[k].1
  {
    seq(|s|, k requires 0 <= k < |s| => s[k].1)
  }

  /** Strict order on targets. */
  function RealLess(): (real, real) -> bool
  {
    (a: real, b: real) => a < b
  }

  lemma RealLessIsStrictTotalOrder()
    ensures Sorting.StrictTotalOrder(RealLess())
  {
  }

  /** The 1-based indices of all `n` features; an unset count has no such list. */
  function AllFtrVect(n: int): (r: Option<seq<int>>)
    ensures r.Some? <==> n >= 0
    ensures r.Some? ==> |r.value| == n && forall k :: 0 <= k < n ==> r.value[k] == k + 1
  {
    if n < 0 then None else Some(seq(n, k requires 0 <= k < n => k + 1))
  }

  /** `p` holds one example per pair of `gs`, group-major: its vector and its target. */
  ghost predicate ProblemOf<V>(p: Problem<V>, gs: seq<seq<Example>>, picked: seq<int>, norm: FeaturePack -> seq<real>,
                               encode: (seq<real>, seq<int>) -> V)
  {
    && p.l == TotalSize(gs) && |p.x| == p.l && |p.y| == p.l
    && forall i, j :: 0 <= i < |gs| && 0 <= j < |gs[i]| ==>
         At(gs, i, j) < p.l && p.x[At(gs, i, j)] == encode(norm(gs[i][j].0), picked) && p.y[At(gs, i, j)] == gs[i][j].1
  }

  /** `p` holds one example per pair of the group `g`, in order. */
  ghost predicate GroupProblem<V>(p: Problem<V>, g: seq<Example>, picked: seq<int>, norm: FeaturePack -> seq<real>,
                                   encode: (seq<real>, seq<int>) -> V)
  {
    && p.l == |g| && |p.x| == p.l && |p.y| == p.l
    && forall j :: 0 <= j < |g| ==> p.x[j] == encode(norm(g[j].0), picked) && p.y[j] == g[j].1
  }

  /** The pairing of group `g`: each pair's image under `f` beside its candidate. */
  ghost predicate PairedGroup<X, T>(row: seq<(X, T)>, g: seq<Example>, data: seq<T>, f: Example -> X)
    requires |data| == |g|
  {
    |row| == |g| && forall j :: 0 <= j < |g| ==> row[j] == (f(g[j]), data[j])
  }

  /** Lists with the same shape flatten to the same length. */
  lemma {:induction false} FlattenSameShape<X, Y>(a: seq<seq<X>>, b: seq<seq<Y>>)
    requires |a| == |b| && forall i :: 0 <= i < |a| ==> |a[i]| == |b[i]|
    ensures |Flatten(a)| == |Flatten(b)|
  {
    if a != [] {
      FlattenSameShape(a[..|a| - 1], b[..|b| - 1]);
    }
  }

  /** The lines of one group of the ranking dump, with the order they were taken in. */
  ghost predicate RankedGroup(lines: seq<RankLine>, sorted: seq<Example>, perm: seq<nat>, g: seq<Example>, qid: int,
                              norm: FeaturePack -> seq<real>)
  {
    && Sorting.IsPermutation(perm, |g|) && Sorting.Rearranged(sorted, g, perm)
    && NonIncreasing(Targets(sorted))
    && (forall k, l :: 0 <= k < l < |sorted| && sorted[k].1 == sorted[l].1 ==> perm[k] > perm[l])
    && lines == RankedLines(sorted, qid, norm)
  }

  /**
   * What a reader of one ranked block sees: every line carries the group index, the first
   * rank is 1, and ranks never decrease and grow by at most one from line to line.
   */
  predicate RankShape(lines: seq<RankLine>, qid: int)
  {
    && (forall k :: 0 <= k < |lines| ==> lines[k].qid == qid)
    && (lines != [] ==> lines[0].rank == 1)
    && (forall k :: 0 < k < |lines| ==> lines[k - 1].rank <= lines[k].rank <= lines[k - 1].rank + 1)
  }

  /** Ranked lines have that shape, whatever order the group was put in. */
  lemma RankedLinesShape(sorted: seq<Example>, qid: int, norm: FeaturePack -> seq<real>)
    ensures RankShape(RankedLines(sorted, qid, norm), qid)
  {
    DenseRanksSteps(Targets(sorted));
  }

  /** Where each pair's pointwise line lands in the dump. */
  lemma DumpLayout(gs: seq<seq<Example>>, norm: FeaturePack -> seq<real>, selected: Option<seq<int>>)
    ensures |Flatten(PointLines(gs, norm, selected))| == TotalSize(gs)
    ensures forall i, j :: 0 <= i < |gs| && 0 <= j < |gs[i]| ==>
      At(gs, i, j) < |Flatten(PointLines(gs, norm, selected))| &&
      Flatten(PointLines(gs, norm, selected))[At(gs, i, j)] == PointLineOf(norm(gs[i][j].0), gs[i][j].1, i, selected)
  {
    var all := PointLines(gs, norm, selected);
    FlattenSameShape(all, gs);
    FlattenLength(gs);
    forall i, j | 0 <= i < |gs| && 0 <= j < |gs[i]|
      ensures At(gs, i, j) < |Flatten(all)| && Flatten(all)[At(gs, i, j)] == PointLineOf(norm(gs[i][j].0), gs[i][j].1, i, selected)
    {
      FlattenAt(all, i, j);
      FlattenSameShape(all[..i], gs[..i]);
    }
  }

  /** The ranked lines grow by one line per pair, with the rank of that pair. */
  lemma RankedLinesSnoc(sorted: seq<Example>, k: nat, qid: int, norm: FeaturePack -> seq<real>)
    requires k < |sorted|
    ensures RankedLines(sorted[..k + 1], qid, norm)
      == RankedLines(sorted[..k], qid, norm) + [RankLine(DenseRanks(Targets(sorted))[k], qid, Picked(norm(sorted[k].0), None))]
  {
    var t := Targets(sorted);
    assert Targets(sorted[..k + 1]) == t[..k + 1];
    assert Targets(sorted[..k]) == t[..k];
    DenseRanksPrefix(t, k + 1);
    DenseRanksPrefix(t, k);
  }

  /** The ranks of a prefix are a prefix of the ranks. */
  lemma {:induction false} DenseRanksPrefix(ts: seq<real>, n: nat)
    requires n <= |ts|
    ensures DenseRanks(ts[..n]) == DenseRanks(ts)[..n]
  {
    if n < |ts| {
      var init := ts[..|ts| - 1];
      assert ts[..n] == init[..n];
      DenseRanksPrefix(init, n);
    } else {
      assert ts[..n] == ts;
    }
  }

  /** Keys that no later key exceeds are non-increasing. */
  lemma DescendingTargets(s: seq<Example>)
    requires Sorting.Descending(s, RealLess())
    ensures NonIncreasing(Targets(s))
  {
  }

  class ExampleGatherer<T, G> {
    /** The (pack, target) pairs of each group. */
    var groups: seq<seq<Example>>
    /** The gold value of each group; `None` where none was given. */
    var golds: seq<Option<G>>
    /** The candidate behind each pair of each group; `None` where none was given. */
    var datas: seq<Option<seq<T>>>
    /** The latched feature count, `-1` while unset. */
    var ftrCount: int

    /** The three lists run in parallel, candidates match their group, and the count is latched. */
    ghost predicate Valid()
      reads this
    {
      && |groups| == |golds| == |datas|
      && (forall i :: 0 <= i < |datas| && datas[i].Some? ==> |datas[i].value| == |groups[i]|)
      && ftrCount == LatchedCount(groups)
    }

    constructor ()
      ensures Valid() && groups == [] && golds == [] && datas == [] && ftrCount == -1
    {
      groups, golds, datas, ftrCount := [], [], [], -1;
    }

    /**
     * `addExample(list, groupData, gold)`: a new group. Candidates that do not match the
     * pairs one to one are refused (the source throws) and nothing changes.
     */
    method AddExample(list: seq<Example>, groupData: Option<seq<T>>, gold: Option<G>) returns (ok: bool)
      requires Valid()
      modifies this
      ensures Valid()
      ensures ok <==> groupData.None? || |groupData.value| == |list|
      ensures ok ==> groups == old(groups) + [list] && golds == old(golds) + [gold] && datas == old(datas) + [groupData]
      ensures !ok ==> groups == old(groups) && golds == old(golds) && datas == old(datas) && ftrCount == old(ftrCount)
      ensures old(ftrCount) >= 0 ==> ftrCount == old(ftrCount)
      ensures ok && old(ftrCount) < 0 && list != [] ==> ftrCount == list[|list| - 1].0.featureCount
    {
      if groupData.Some? && |list| != |groupData.value| {
        return false;
      }
      ok := true;
      assert (groups + [list])[..|groups|] == groups;
      datas := datas + [groupData];
      golds := golds + [gold];
      groups := groups + [list];
      if ftrCount < 0 {
        var c := ftrCount;
        for k := 0 to |list|
          invariant c == if k == 0 then ftrCount else list[k - 1].0.featureCount
        {
          c := list[k].0.featureCount;
        }
        ftrCount := c;
      }
    }

    /** `addExample(list)`: a new group with neither candidates nor gold. */
    method AddPlainExample(list: seq<Example>)
      requires Valid()
      modifies this
      ensures Valid()
      ensures groups == old(groups) + [list] && golds == old(golds) + [None] && datas == old(datas) + [None]
    {
      var ok := AddExample(list, None, None);
    }

    /** `getExamplesCount`: the number of pairs over all groups. */
    method ExamplesCount() returns (count: int)
      ensures count == TotalSize(groups) == |Flatten(groups)|
    {
      FlattenLength(groups);
      count := 0;
      for i := 0 to |groups|
        invariant count == TotalSize(groups[..i])
      {
        assert groups[..i + 1][..i] == groups[..i];
        count := count + |groups[i]|;
      }
      assert groups[..|groups|] == groups;
    }

    /** `getPlain`: every pair, group after group, in insertion order. */
    method Plain() returns (res: seq<Example>)
      ensures res == Flatten(groups)
    {
      res := [];
      for i := 0 to |groups|
        invariant res == Flatten(groups[..i])
      {
        ghost var before := res;
        for j := 0 to |groups[i]|
          invariant res == before + groups[i][..j]
        {
          assert groups[i][..j + 1] == groups[i][..j] + [groups[i][j]];
          res := res + [groups[i][j]];
        }
        assert groups[i][..|groups[i]|] == groups[i];
        assert groups[..i + 1] == groups[..i] + [groups[i]];
        FlattenSnoc(groups[..i], groups[i]);
      }
      assert groups[..|groups|] == groups;
    }

    /** `getAllFeaturePacks`: the pack of every pair, group-major, in insertion order. */
    method AllFeaturePacks() returns (packs: seq<FeaturePack>)
      ensures |packs| == TotalSize(groups)
      ensures forall i, j :: 0 <= i < |groups| && 0 <= j < |groups[i]| ==>
        At(groups, i, j) < |packs| && packs[At(groups, i, j)] == groups[i][j].0
    {
      var plain := Plain();
      FlattenLength(groups);
      packs := [];
      for k := 0 to |plain|
        invariant |packs| == k && forall m :: 0 <= m < k ==> packs[m] == plain[m].0
      {
        packs := packs + [plain[k].0];
      }
      forall i, j | 0 <= i < |groups| && 0 <= j < |groups[i]|
        ensures At(groups, i, j) < |packs| && packs[At(groups, i, j)] == groups[i][j].0
      {
        FlattenAt(groups, i, j);
      }
    }

    /** `getFtrCount`: negative exactly while no group with examples has been added. */
    function FtrCount(): (c: int)
      reads this
      requires Valid()
      ensures c < 0 <==> forall i :: 0 <= i < |groups| ==> groups[i] == []
    {
      LatchUnsetIffAllEmpty(groups);
      ftrCount
    }

    /** `createProblem`: the first `|targets|` vectors beside the targets. */
    method CreateProblem<V>(targets: seq<real>, vectors: seq<V>) returns (p: Problem<V>)
      requires |targets| <= |vectors|
      ensures p.l == |targets| && |p.x| == p.l && |p.y| == p.l
      ensures forall i :: 0 <= i < p.l ==> p.x[i] == vectors[i] && p.y[i] == targets[i]
    {
      var l := |targets|;
      var x: seq<V> := [];
      for i := 0 to l
        invariant x == vectors[..i]
      {
        x := x + [vectors[i]];
      }
      var y: seq<real> := [];
      for i := 0 to l
        invariant y == targets[..i]
      {
        y := y + [targets[i]];
      }
      p := Problem(l, x, y);
    }

    /**
     * `generateLibSvmProblem(pickedFtrs, fn)`: one example per stored pair, group-major, its
     * vector encoded from the normalised pack with the picked features.
     */
    method GenerateLibSvmProblem<V>(picked: seq<int>, norm: FeaturePack -> seq<real>, encode: (seq<real>, seq<int>) -> V)
      returns (p: Problem<V>)
      ensures ProblemOf(p, groups, picked, norm, encode)
    {
      var plain := Plain();
      FlattenLength(groups);
      var targets: seq<real> := [];
      var vectors: seq<V> := [];
      for k := 0 to |plain|
        invariant |targets| == |vectors| == k
        invariant forall m :: 0 <= m < k ==> vectors[m] == encode(norm(plain[m].0), picked) && targets[m] == plain[m].1
      {
        vectors := vectors + [encode(norm(plain[k].0), picked)];
        targets := targets + [plain[k].1];
      }
      p := CreateProblem(targets, vectors);
      forall i, j | 0 <= i < |groups| && 0 <= j < |groups[i]|
        ensures At(groups, i, j) < p.l
        ensures p.x[At(groups, i, j)] == encode(norm(groups[i][j].0), picked) && p.y[At(groups, i, j)] == groups[i][j].1
      {
        FlattenAt(groups, i, j);
      }
    }

    /**
     * `generateLibSvmProblem(fn)`: the same with every feature picked. An unset feature count
     * has no list of all features, and there is no problem.
     */
    method GenerateLibSvmProblemAllFeatures<V>(norm: FeaturePack -> seq<real>, encode: (seq<real>, seq<int>) -> V)
      returns (p: Option<Problem<V>>)
      ensures p.None? <==> ftrCount < 0
      ensures p.Some? ==> AllFtrVect(ftrCount).Some? && ProblemOf(p.value, groups, AllFtrVect(ftrCount).value, norm, encode)
    {
      var all := AllFtrVect(ftrCount);
      if all.None? {
        return None;
      }
      var q := GenerateLibSvmProblem(all.value, norm, encode);
      p := Some(q);
    }

    /** `generateLibSvmProblemOnePerInstance`: one problem per group, in group order. */
    method GenerateLibSvmProblemOnePerInstance<V>(picked: seq<int>, norm: FeaturePack -> seq<real>,
                                                  encode: (seq<real>, seq<int>) -> V)
      returns (ps: seq<Problem<V>>)
      ensures |ps| == |groups|
      ensures forall i :: 0 <= i < |groups| ==> GroupProblem(ps[i], groups[i], picked, norm, encode)
    {
      ps := [];
      for i := 0 to |groups|
        invariant |ps| == i
        invariant forall m :: 0 <= m < i ==> GroupProblem(ps[m], groups[m], picked, norm, encode)
      {
        var g := groups[i];
        var targets: seq<real> := [];
        var vectors: seq<V> := [];
        for j := 0 to |g|
          invariant |targets| == |vectors| == j
          invariant forall m :: 0 <= m < j ==> vectors[m] == encode(norm(g[m].0), picked) && targets[m] == g[m].1
        {
          vectors := vectors + [encode(norm(g[j].0), picked)];
          targets := targets + [g[j].1];
        }
        var p := CreateProblem(targets, vectors);
        ps := ps + [p];
      }
    }

    /**
     * The pairing shared by the two `get…OnePerInstance` exports: per group, each pair's image
     * beside its candidate, and the group's gold. A group with pairs but no candidates makes
     * the export fail (the source dereferences the missing list).
     */
    method Pairings<X>(f: Example -> X) returns (r: Option<seq<(seq<(X, T)>, Option<G>)>>)
      requires Valid()
      ensures r.None? <==> exists i :: 0 <= i < |groups| && groups[i] != [] && datas[i].None?
      ensures r.Some? ==> |r.value| == |groups|
      ensures r.Some? ==> forall i :: 0 <= i < |groups| ==>
        && r.value[i].1 == golds[i]
        && (groups[i] == [] ==> r.value[i].0 == [])
        && (groups[i] != [] ==> datas[i].Some? && PairedGroup(r.value[i].0, groups[i], datas[i].value, f))
    {
      var res: seq<(seq<(X, T)>, Option<G>)> := [];
      for i := 0 to |groups|
        invariant |res| == i
        invariant forall m :: 0 <= m < i ==> groups[m] == [] || datas[m].Some?
        invariant forall m :: 0 <= m < i ==>
          && res[m].1 == golds[m]
          && (groups[m] == [] ==> res[m].0 == [])
          && (groups[m] != [] ==> datas[m].Some? && PairedGroup(res[m].0, groups[m], datas[m].value, f))
      {
        var g, gold, data := groups[i], golds[i], datas[i];
        var row: seq<(X, T)> := [];
        if g != [] && data.None? {
          return None;
        }
        for j := 0 to |g|
          invariant |row| == j
          invariant forall m :: 0 <= m < j ==> row[m] == (f(g[m]), data.value[m])
        {
          row := row + [(f(g[j]), data.value[j])];
        }
        res := res + [(row, gold)];
      }
      r := Some(res);
    }

    /** `getDataAndNodesAndGoldOnePerInstance`: per group, each encoded vector beside its candidate. */
    method DataAndNodesAndGoldOnePerInstance<V>(picked: seq<int>, norm: FeaturePack -> seq<real>,
                                                encode: (seq<real>, seq<int>) -> V)
      returns (r: Option<seq<(seq<(V, T)>, Option<G>)>>)
      requires Valid()
      ensures r.None? <==> exists i :: 0 <= i < |groups| && groups[i] != [] && datas[i].None?
      ensures r.Some? ==> |r.value| == |groups|
      ensures r.Some? ==> forall i :: 0 <= i < |groups| ==>
        && r.value[i].1 == golds[i]
        && (groups[i] == [] ==> r.value[i].0 == [])
        && (groups[i] != [] ==> datas[i].Some? && PairedGroup(r.value[i].0, groups[i], datas[i].value, (e: Example) => encode(norm(e.0), picked)))
    {
      r := Pairings((e: Example) => encode(norm(e.0), picked));
    }

    /** `getDataAndFeaturePacksAndGoldOnePerInstance`: per group, each pack beside its candidate. */
    method DataAndFeaturePacksAndGoldOnePerInstance() returns (r: Option<seq<(seq<(FeaturePack, T)>, Option<G>)>>)
      requires Valid()
      ensures r.None? <==> exists i :: 0 <= i < |groups| && groups[i] != [] && datas[i].None?
      ensures r.Some? ==> |r.value| == |groups|
      ensures r.Some? ==> forall i :: 0 <= i < |groups| ==>
        && r.value[i].1 == golds[i]
        && (groups[i] == [] ==> r.value[i].0 == [])
        && (groups[i] != [] ==> datas[i].Some? && PairedGroup(r.value[i].0, groups[i], datas[i].value, (e: Example) => e.0))
    {
      r := Pairings((e: Example) => e.0);
    }

    /** `writeLineLibSvm`: the target, the kept features in index order, and the group index. */
    static method WriteLineLibSvm(vect: seq<real>, gold: real, id: int, selected: Option<seq<int>>) returns (line: PointLine)
      ensures line == PointLineOf(vect, gold, id, selected)
    {
      var feats: seq<(int, real)> := [];
      for ftr := 0 to |vect|
        invariant feats == Picked(vect[..ftr], selected)
      {
        assert vect[..ftr + 1][..ftr] == vect[..ftr];
        if selected.None? || ftr + 1 in selected.value {
          feats := feats + [(ftr + 1, vect[ftr])];
        }
      }
      assert vect[..|vect|] == vect;
      line := PointLine(gold, feats, id);
    }

    /**
     * `dumpExamplesLibSvm(filename, fn, selectedFeatures)`: one line per pair, group-major,
     * tagged with its group index.
     */
    method DumpExamplesLibSvm(norm: FeaturePack -> seq<real>, selected: Option<seq<int>>) returns (lines: seq<PointLine>)
      ensures lines == Flatten(PointLines(groups, norm, selected))
      ensures |lines| == TotalSize(groups)
      ensures forall i, j :: 0 <= i < |groups| && 0 <= j < |groups[i]| ==>
        At(groups, i, j) < |lines| && lines[At(groups, i, j)] == PointLineOf(norm(groups[i][j].0), groups[i][j].1, i, selected)
    {
      var all := PointLines(groups, norm, selected);
      lines := [];
      for i := 0 to |groups|
        invariant lines == Flatten(all[..i])
      {
        ghost var before := lines;
        var g := groups[i];
        for j := 0 to |g|
          invariant lines == before + all[i][..j]
        {
          var line := WriteLineLibSvm(norm(g[j].0), g[j].1, i, selected);
          assert all[i][..j + 1] == all[i][..j] + [line];
          lines := lines + [line];
        }
        assert all[i][..|g|] == all[i];
        assert all[..i + 1] == all[..i] + [all[i]];
        FlattenSnoc(all[..i], all[i]);
      }
      assert all[..|groups|] == all;
      DumpLayout(groups, norm, selected);
    }

    /** `writeLineRankLib`: the rank, the group index and every feature in index order. */
    static method WriteLineRankLib(vect: seq<real>, rank: int, groupId: int) returns (line: RankLine)
      ensures line == RankLine(rank, groupId, Picked(vect, None))
    {
      var feats: seq<(int, real)> := [];
      for ftr := 0 to |vect|
        invariant feats == Picked(vect[..ftr], None)
      {
        assert vect[..ftr + 1][..ftr] == vect[..ftr];
        feats := feats + [(ftr + 1, vect[ftr])];
      }
      assert vect[..|vect|] == vect;
      line := RankLine(rank, groupId, feats);
    }

    /**
     * One group of `dumpExamplesRankLib`: a copy of the group is sorted ascending by target,
     * stably, then reversed; lines then carry dense ranks, counted from 1.
     */
    method RankGroup(groupId: nat, norm: FeaturePack -> seq<real>)
      returns (lines: seq<RankLine>, ghost sorted: seq<Example>, ghost perm: seq<nat>)
      requires groupId < |groups|
      ensures |lines| == |groups[groupId]| && RankShape(lines, groupId)
      ensures RankedGroup(lines, sorted, perm, groups[groupId], groupId, norm)
    {
      var g := groups[groupId];
      var a := new Example[|g|](k requires 0 <= k < |g| => g[k]);
      assert a[..] == g;
      RealLessIsStrictTotalOrder();
      perm := Sorting.SortThenReverse(a, RealLess());
      sorted := a[..];
      DescendingTargets(sorted);
      lines := RankLines(a[..], groupId, norm);
      RankedLinesShape(sorted, groupId, norm);
    }

    /** The rank loop of `dumpExamplesRankLib` over one sorted group. */
    static method RankLines(sorted: seq<Example>, groupId: int, norm: FeaturePack -> seq<real>) returns (lines: seq<RankLine>)
      ensures lines == RankedLines(sorted, groupId, norm)
    {
      ghost var ranks := DenseRanks(Targets(sorted));
      DenseRanksSteps(Targets(sorted));
      var rank := 0;
      var lastVal: Option<real> := None;
      lines := [];
      for k := 0 to |sorted|
        invariant lines == RankedLines(sorted[..k], groupId, norm)
        invariant k == 0 ==> rank == 0 && lastVal == None
        invariant k > 0 ==> rank == ranks[k - 1] && lastVal == Some(sorted[k - 1].1)
      {
        var pair := sorted[k];
        if lastVal != Some(pair.1) {
          lastVal := Some(pair.1);
          rank := rank + 1;
        }
        var line := WriteLineRankLib(norm(pair.0), rank, groupId);
        RankedLinesSnoc(sorted, k, groupId, norm);
        lines := lines + [line];
      }
      assert sorted[..|sorted|] == sorted;
    }

    /** `dumpExamplesRankLib`: the lines of every group, in group order; the file is their concatenation. */
    method DumpExamplesRankLib(norm: FeaturePack -> seq<real>)
      returns (groupLines: seq<seq<RankLine>>, ghost sorteds: seq<seq<Example>>, ghost perms: seq<seq<nat>>)
      ensures |groupLines| == |sorteds| == |perms| == |groups|
      ensures forall i :: 0 <= i < |groups| ==> |groupLines[i]| == |groups[i]| && RankShape(groupLines[i], i)
      ensures forall i :: 0 <= i < |groups| ==> RankedGroup(groupLines[i], sorteds[i], perms[i], groups[i], i, norm)
    {
      groupLines, sorteds, perms := [], [], [];
      for i := 0 to |groups|
        invariant |groupLines| == |sorteds| == |perms| == i
        invariant forall m :: 0 <= m < i ==> |groupLines[m]| == |groups[m]| && RankShape(groupLines[m], m)
        invariant forall m :: 0 <= m < i ==> RankedGroup(groupLines[m], sorteds[m], perms[m], groups[m], m, norm)
      {
        var lines, sorted, perm := RankGroup(i, norm);
        groupLines, sorteds, perms := groupLines + [lines], sorteds + [sorted], perms + [perm];
      }
    }

    /** `getGold`: one gold value per group, in insertion order. */
    function Gold(): (g: seq<Option<G>>)
      reads this
      requires Valid()
      ensures |g| == |groups|
      ensures g == golds
    {
      golds
    }
  }
}
