/**
 * The example-collection loop of `GenerateTrainingAndTest`: for each query of a dataset, up
 * to a limit, the annotator produces feature packs for the enabled stores, and each enabled
 * store gains one group.
 */
module GenerateTraining {
  import opened Basics
  import opened Annotations
  import opened Gathering

  /** The target a presence flag stands for: 1 for present, -1 for absent. */
  function Target(present: bool): (t: real)
    ensures t == 1.0 || t == -1.0
  {
    if present then 1.0 else -1.0
  }

  /** Reads a presence flag back from its target. */
  function Presence(t: real): bool
  {
    t > 0.0
  }

  lemma PresenceOfTarget(present: bool)
    ensures Presence(Target(present)) == present
  {
  }

  /** The pairs of `list` with each flag replaced by its target. */
  function WithTargets(list: seq<(FeaturePack, bool)>): (r: seq<Example>)
    ensures |r| == |list|
  {
    seq(|list|, k requires 0 <= k < |list| => (list[k].0, Target(list[k].1)))
  }

  /** Replacing flags by targets keeps every pack in place and loses no flag. */
  lemma WithTargetsInverse(list: seq<(FeaturePack, bool)>)
    ensures forall k :: 0 <= k < |list| ==>
      WithTargets(list)[k].0 == list[k].0 && Presence(WithTargets(list)[k].1) == list[k].1
  {
    forall k | 0 <= k < |list| ensures Presence(WithTargets(list)[k].1) == list[k].1 {
      PresenceOfTarget(list[k].1);
    }
  }

  /** `goldBoolToDouble`: the pairs in order, `true` as 1.0 and `false` as -1.0. */
  method GoldBoolToDouble(list: seq<(FeaturePack, bool)>) returns (res: seq<Example>)
    ensures res == WithTargets(list)
  {
    res := [];
    for k := 0 to |list|
      invariant res == WithTargets(list[..k])
    {
      res := res + [(list[k].0, if list[k].1 then 1.0 else -1.0)];
    }
    assert list[..|list|] == list;
  }

  /** The number of queries processed: all of them for `-1`, otherwise at most `limit`. */
  function EffectiveLimit(limit: int, size: nat): (n: int)
    ensures n <= size
    ensures limit == -1 ==> n == size
    ensures limit != -1 ==> n <= limit && (n == limit || n == size)
  {
    if limit == -1 then size else Min(limit, size)
  }

  /** How many queries the loop runs over: the effective limit, or none when that is negative. */
  function Processed(limit: int, size: nat): (n: nat)
    ensures n <= size
  {
    Max(0, EffectiveLimit(limit, size))
  }

  /** A query of the dataset with its entity gold and its annotation gold. */
  datatype Instance = Instance(query: string, c2w: set<Tag>, a2w: set<Annotation>)

  /** Which stores are enabled: the annotator is asked only for their lists. */
  datatype Wants = Wants(ef: bool, lb: bool, ar: bool)

  /**
   * What the annotator produces for one query: presence-flagged packs of candidate entities,
   * F1-scored packs of candidate bindings, presence-flagged packs of candidate annotations,
   * each beside its candidates.
   */
  datatype Generated = Generated(
    ef: seq<(FeaturePack, bool)>, efCandidates: seq<Tag>,
    lb: seq<Example>, lbCandidates: seq<set<Annotation>>,
    ar: seq<(FeaturePack, bool)>, arCandidates: seq<Annotation>)

  /** Every list of packs runs beside its list of candidates. */
  predicate Parallel(g: Generated)
  {
    |g.ef| == |g.efCandidates| && |g.lb| == |g.lbCandidates| && |g.ar| == |g.arCandidates|
  }

  /** What the entity store gains from the queries `ds`: one group per query, with the entity gold. */
  function EfAdded(ds: seq<Instance>, generate: (Instance, Wants) -> Generated, w: Wants)
    : (r: (seq<seq<Example>>, seq<Option<seq<Tag>>>, seq<Option<set<Tag>>>))
    ensures |r.0| == |r.1| == |r.2| == |ds|
  {
    if ds == [] then ([], [], [])
    else
      var (gs, cs, ys) := EfAdded(ds[..|ds| - 1], generate, w);
      var inst := ds[|ds| - 1];
      var out := generate(inst, w);
      (gs + [WithTargets(out.ef)], cs + [Some(out.efCandidates)], ys + [Some(inst.c2w)])
  }

  /** What the binding store gains from the queries `ds`: one group per query, with the annotation gold. */
  function LbAdded(ds: seq<Instance>, generate: (Instance, Wants) -> Generated, w: Wants)
    : (r: (seq<seq<Example>>, seq<Option<seq<set<Annotation>>>>, seq<Option<set<Annotation>>>))
    ensures |r.0| == |r.1| == |r.2| == |ds|
  {
    if ds == [] then ([], [], [])
    else
      var (gs, cs, ys) := LbAdded(ds[..|ds| - 1], generate, w);
      var inst := ds[|ds| - 1];
      var out := generate(inst, w);
      (gs + [out.lb], cs + [Some(out.lbCandidates)], ys + [Some(inst.a2w)])
  }

  /** What the annotation store gains from the queries `ds`: one group per query, with the annotation gold. */
  function ArAdded(ds: seq<Instance>, generate: (Instance, Wants) -> Generated, w: Wants)
    : (r: (seq<seq<Example>>, seq<Option<seq<Annotation>>>, seq<Option<set<Annotation>>>))
    ensures |r.0| == |r.1| == |r.2| == |ds|
  {
    if ds == [] then ([], [], [])
    else
      var (gs, cs, ys) := ArAdded(ds[..|ds| - 1], generate, w);
      var inst := ds[|ds| - 1];
      var out := generate(inst, w);
      (gs + [WithTargets(out.ar)], cs + [Some(out.arCandidates)], ys + [Some(inst.a2w)])
  }

  /** Query `i` contributes group `i` to the entity store: its packs, its candidates and its entity gold. */
  lemma {:induction false} EfAddedAt(ds: seq<Instance>, generate: (Instance, Wants) -> Generated, w: Wants, i: nat)
    requires i < |ds|
    ensures EfAdded(ds, generate, w).0[i] == WithTargets(generate(ds[i], w).ef)
    ensures EfAdded(ds, generate, w).1[i] == Some(generate(ds[i], w).efCandidates)
    ensures EfAdded(ds, generate, w).2[i] == Some(ds[i].c2w)
  {
    if i < |ds| - 1 {
      EfAddedAt(ds[..|ds| - 1], generate, w, i);
    }
  }

  /** Query `i` contributes group `i` to each annotation store, with the annotation gold. */
  lemma {:induction false} AnnotationAddedAt(ds: seq<Instance>, generate: (Instance, Wants) -> Generated, w: Wants, i: nat)
    requires i < |ds|
    ensures LbAdded(ds, generate, w).0[i] == generate(ds[i], w).lb
    ensures LbAdded(ds, generate, w).2[i] == Some(ds[i].a2w)
    ensures ArAdded(ds, generate, w).0[i] == WithTargets(generate(ds[i], w).ar)
    ensures ArAdded(ds, generate, w).2[i] == Some(ds[i].a2w)
  {
    if i < |ds| - 1 {
      AnnotationAddedAt(ds[..|ds| - 1], generate, w, i);
    }
  }

  /** `g` holds what it held before, followed by `groups`, `datas` and `golds`. */
  ghost predicate Extended<T, G>(g: ExampleGatherer<T, G>, before: (seq<seq<Example>>, seq<Option<seq<T>>>, seq<Option<G>>),
                                 added: (seq<seq<Example>>, seq<Option<seq<T>>>, seq<Option<G>>))
    reads g
  {
    && g.Valid()
    && g.groups == before.0 + added.0 && g.datas == before.1 + added.1 && g.golds == before.2 + added.2
  }

  lemma ExtendedStep<T, G>(g: ExampleGatherer<T, G>, before: (seq<seq<Example>>, seq<Option<seq<T>>>, seq<Option<G>>),
                           added: (seq<seq<Example>>, seq<Option<seq<T>>>, seq<Option<G>>),
                           group: seq<Example>, data: Option<seq<T>>, gold: Option<G>)
    requires g.Valid()
    requires g.groups == before.0 + added.0 + [group] && g.datas == before.1 + added.1 + [data]
    requires g.golds == before.2 + added.2 + [gold]
    ensures Extended(g, before, (added.0 + [group], added.1 + [data], added.2 + [gold]))
  {
    ConcatAssoc(before.0, added.0, [group]);
    ConcatAssoc(before.1, added.1, [data]);
    ConcatAssoc(before.2, added.2, [gold]);
  }

  /** After the first `i` queries, every enabled store holds what it held before, followed by their groups. */
  ghost predicate Gathered(ef: ExampleGatherer?<Tag, set<Tag>>,
                           lb: ExampleGatherer?<set<Annotation>, set<Annotation>>,
                           ar: ExampleGatherer?<Annotation, set<Annotation>>,
                           ef0: (seq<seq<Example>>, seq<Option<seq<Tag>>>, seq<Option<set<Tag>>>),
                           lb0: (seq<seq<Example>>, seq<Option<seq<set<Annotation>>>>, seq<Option<set<Annotation>>>),
                           ar0: (seq<seq<Example>>, seq<Option<seq<Annotation>>>, seq<Option<set<Annotation>>>),
                           ds: seq<Instance>, generate: (Instance, Wants) -> Generated, w: Wants, i: nat)
    requires i <= |ds|
    reads ef, lb, ar
  {
    && (ef != null ==> Extended(ef, ef0, EfAdded(ds[..i], generate, w)))
    && (lb != null ==> Extended(lb, lb0, LbAdded(ds[..i], generate, w)))
    && (ar != null ==> Extended(ar, ar0, ArAdded(ds[..i], generate, w)))
  }

  /**
   * `gatherExamples`: the first `EffectiveLimit(limit, |ds|)` queries, in order. Each enabled
   * store gains one group per query: the entity store with the entity gold, the two
   * annotation stores with the annotation gold. A disabled store is `null` and gains nothing.
   */
  method GatherExamples(ds: seq<Instance>, generate: (Instance, Wants) -> Generated,
                        ef: ExampleGatherer?<Tag, set<Tag>>,
                        lb: ExampleGatherer?<set<Annotation>, set<Annotation>>,
                        ar: ExampleGatherer?<Annotation, set<Annotation>>,
                        limit: int)
    requires forall w: Wants, i :: 0 <= i < |ds| ==> Parallel(generate(ds[i], w))
    requires ef != null ==> ef.Valid()
    requires lb != null ==> lb.Valid()
    requires ar != null ==> ar.Valid()
    modifies ef, lb, ar
    ensures var n := Processed(limit, |ds|); var w := Wants(ef != null, lb != null, ar != null);
      && (ef != null ==> Extended(ef, old((ef.groups, ef.datas, ef.golds)), EfAdded(ds[..n], generate, w)))
      && (lb != null ==> Extended(lb, old((lb.groups, lb.datas, lb.golds)), LbAdded(ds[..n], generate, w)))
      && (ar != null ==> Extended(ar, old((ar.groups, ar.datas, ar.golds)), ArAdded(ds[..n], generate, w)))
  {
    var n := EffectiveLimit(limit, |ds|);
    var w := Wants(ef != null, lb != null, ar != null);
    ghost var ef0 := if ef != null then (ef.groups, ef.datas, ef.golds) else ([], [], []);
    ghost var lb0 := if lb != null then (lb.groups, lb.datas, lb.golds) else ([], [], []);
    ghost var ar0 := if ar != null then (ar.groups, ar.datas, ar.golds) else ([], [], []);
    assert ds[..0] == [];
    GatherQueries(ef, lb, ar, ef0, lb0, ar0, ds, generate, w, n);
  }

  /** The loop of `gatherExamples` over the first `n` queries. */
  method GatherQueries(ef: ExampleGatherer?<Tag, set<Tag>>,
                       lb: ExampleGatherer?<set<Annotation>, set<Annotation>>,
                       ar: ExampleGatherer?<Annotation, set<Annotation>>,
                       ghost ef0: (seq<seq<Example>>, seq<Option<seq<Tag>>>, seq<Option<set<Tag>>>),
                       ghost lb0: (seq<seq<Example>>, seq<Option<seq<set<Annotation>>>>, seq<Option<set<Annotation>>>),
                       ghost ar0: (seq<seq<Example>>, seq<Option<seq<Annotation>>>, seq<Option<set<Annotation>>>),
                       ds: seq<Instance>, generate: (Instance, Wants) -> Generated, w: Wants, n: int)
    requires n <= |ds|
    requires forall i :: 0 <= i < |ds| ==> Parallel(generate(ds[i], w))
    requires Gathered(ef, lb, ar, ef0, lb0, ar0, ds, generate, w, 0)
    modifies ef, lb, ar
    ensures Gathered(ef, lb, ar, ef0, lb0, ar0, ds, generate, w, Max(0, n))
  {
    var i := 0;
    while i < n
      invariant 0 <= i <= Max(0, n)
      invariant Gathered(ef, lb, ar, ef0, lb0, ar0, ds, generate, w, i)
    {
      GatherQuery(ef, lb, ar, ef0, lb0, ar0, ds, generate, w, i);
      i := i + 1;
    }
  }

  /** One query of `gatherExamples`: each enabled store gains that query's group. */
  method GatherQuery(ef: ExampleGatherer?<Tag, set<Tag>>,
                     lb: ExampleGatherer?<set<Annotation>, set<Annotation>>,
                     ar: ExampleGatherer?<Annotation, set<Annotation>>,
                     ghost ef0: (seq<seq<Example>>, seq<Option<seq<Tag>>>, seq<Option<set<Tag>>>),
                     ghost lb0: (seq<seq<Example>>, seq<Option<seq<set<Annotation>>>>, seq<Option<set<Annotation>>>),
                     ghost ar0: (seq<seq<Example>>, seq<Option<seq<Annotation>>>, seq<Option<set<Annotation>>>),
                     ds: seq<Instance>, generate: (Instance, Wants) -> Generated, w: Wants, i: nat)
    requires i < |ds| && Parallel(generate(ds[i], w))
    requires Gathered(ef, lb, ar, ef0, lb0, ar0, ds, generate, w, i)
    modifies ef, lb, ar
    ensures Gathered(ef, lb, ar, ef0, lb0, ar0, ds, generate, w, i + 1)
  {
    AddEfGroup(ef, ef0, ds, generate, w, i);
    AddLbGroup(lb, lb0, ds, generate, w, i);
    AddArGroup(ar, ar0, ds, generate, w, i);
  }

  /** The entity store's part of one query of `gatherExamples`. */
  method AddEfGroup(g: ExampleGatherer?<Tag, set<Tag>>,
                    ghost before: (seq<seq<Example>>, seq<Option<seq<Tag>>>, seq<Option<set<Tag>>>),
                    ds: seq<Instance>, generate: (Instance, Wants) -> Generated, w: Wants, i: nat)
    requires i < |ds| && Parallel(generate(ds[i], w))
    requires g != null ==> Extended(g, before, EfAdded(ds[..i], generate, w))
    modifies g
    ensures g != null ==> Extended(g, before, EfAdded(ds[..i + 1], generate, w))
  {
    if g == null {
      return;
    }
    var inst := ds[i];
    var out := generate(inst, w);
    assert ds[..i + 1][..i] == ds[..i];
    var vectors := GoldBoolToDouble(out.ef);
    var ok := g.AddExample(vectors, Some(out.efCandidates), Some(inst.c2w));
    ExtendedStep(g, before, EfAdded(ds[..i], generate, w), vectors, Some(out.efCandidates), Some(inst.c2w));
  }

  /** The binding store's part of one query of `gatherExamples`. */
  method AddLbGroup(g: ExampleGatherer?<set<Annotation>, set<Annotation>>,
                    ghost before: (seq<seq<Example>>, seq<Option<seq<set<Annotation>>>>, seq<Option<set<Annotation>>>),
                    ds: seq<Instance>, generate: (Instance, Wants) -> Generated, w: Wants, i: nat)
    requires i < |ds| && Parallel(generate(ds[i], w))
    requires g != null ==> Extended(g, before, LbAdded(ds[..i], generate, w))
    modifies g
    ensures g != null ==> Extended(g, before, LbAdded(ds[..i + 1], generate, w))
  {
    if g == null {
      return;
    }
    var inst := ds[i];
    var out := generate(inst, w);
    assert ds[..i + 1][..i] == ds[..i];
    var vectors := out.lb;
    var ok := g.AddExample(vectors, Some(out.lbCandidates), Some(inst.a2w));
    ExtendedStep(g, before, LbAdded(ds[..i], generate, w), vectors, Some(out.lbCandidates), Some(inst.a2w));
  }

  /** The annotation store's part of one query of `gatherExamples`. */
  method AddArGroup(g: ExampleGatherer?<Annotation, set<Annotation>>,
                    ghost before: (seq<seq<Example>>, seq<Option<seq<Annotation>>>, seq<Option<set<Annotation>>>),
                    ds: seq<Instance>, generate: (Instance, Wants) -> Generated, w: Wants, i: nat)
    requires i < |ds| && Parallel(generate(ds[i], w))
    requires g != null ==> Extended(g, before, ArAdded(ds[..i], generate, w))
    modifies g
    ensures g != null ==> Extended(g, before, ArAdded(ds[..i + 1], generate, w))
  {
    if g == null {
      return;
    }
    var inst := ds[i];
    var out := generate(inst, w);
    assert ds[..i + 1][..i] == ds[..i];
    var vectors := GoldBoolToDouble(out.ar);
    var ok := g.AddExample(vectors, Some(out.arCandidates), Some(inst.a2w));
    ExtendedStep(g, before, ArAdded(ds[..i], generate, w), vectors, Some(out.arCandidates), Some(inst.a2w));
  }
}
