/**
 * Link-back of `SvmIndividualAnnotationLinkBack`: every accepted entity is paired with
 * every query segment, each pair is scored by the best prediction over the entity's
 * feature vectors, and a greedy walk in non-increasing score order keeps the pairs that
 * reach the threshold and overlap nothing kept before them.
 */
module LinkBack {
  import opened Basics
  import opened Annotations
  import Sorting

  /** The annotation of entity `e` on the segment `seg` = (start, end). */
  function AnnotationOf(e: Tag, seg: (int, int)): Annotation
  {
    Annotation(seg.0, seg.1 - seg.0, e.concept)
  }

  /** The annotations of one entity, one per segment, in segment order. */
  function Row(e: Tag, segments: seq<(int, int)>): (r: seq<Annotation>)
  {
    seq(|segments|, j requires 0 <= j < |segments| => AnnotationOf(e, segments[j]))
  }

  /** The cross product of entities and segments, entity-major. */
  function Cross(entities: seq<Tag>, segments: seq<(int, int)>): seq<Annotation>
  {
    if entities == [] then []
    else Cross(entities[..|entities| - 1], segments) + Row(entities[|entities| - 1], segments)
  }

  /** Position of entity `i` on segment `j` in an entity-major layout with `m` segments per entity. */
  function Slot(i: nat, j: nat, m: nat): nat
  {
    i * m + j
  }

  lemma {:induction false} CrossLength(entities: seq<Tag>, segments: seq<(int, int)>)
    ensures |Cross(entities, segments)| == |entities| * |segments|
  {
    if entities != [] {
      var n, m := |entities| - 1, |segments|;
      CrossLength(entities[..n], segments);
      assert |Cross(entities, segments)| == n * m + m;
      assert (n + 1) * m == n * m + m;
    }
  }

  /** The cross product in full: its length, its entity-major layout, and where each entry comes from. */
  lemma CrossLayout(entities: seq<Tag>, segments: seq<(int, int)>)
    ensures |Cross(entities, segments)| == |entities| * |segments|
    ensures forall i, j :: 0 <= i < |entities| && 0 <= j < |segments| ==>
      Slot(i, j, |segments|) < |Cross(entities, segments)| &&
      Cross(entities, segments)[Slot(i, j, |segments|)] == AnnotationOf(entities[i], segments[j])
    ensures forall a :: a in Cross(entities, segments) ==>
      exists i, j :: 0 <= i < |entities| && 0 <= j < |segments| && a == AnnotationOf(entities[i], segments[j])
  {
    CrossLength(entities, segments);
    forall i, j | 0 <= i < |entities| && 0 <= j < |segments|
      ensures Slot(i, j, |segments|) < |Cross(entities, segments)|
      ensures Cross(entities, segments)[Slot(i, j, |segments|)] == AnnotationOf(entities[i], segments[j])
    {
      CrossAt(entities, segments, i, j);
    }
    CrossMembers(entities, segments);
  }

  /** Entry `i * |segments| + j` of the cross product is entity `i` on segment `j`. */
  lemma {:induction false} CrossAt(entities: seq<Tag>, segments: seq<(int, int)>, i: nat, j: nat)
    requires i < |entities| && j < |segments|
    ensures Slot(i, j, |segments|) < |Cross(entities, segments)|
    ensures Cross(entities, segments)[Slot(i, j, |segments|)] == AnnotationOf(entities[i], segments[j])
  {
    var init, n, m := entities[..|entities| - 1], |entities| - 1, |segments|;
    CrossLength(entities, segments);
    CrossLength(init, segments);
    var left, row := Cross(init, segments), Row(entities[n], segments);
    assert Cross(entities, segments) == left + row;
    if i < n {
      CrossAt(init, segments, i, j);
      RowMajorBound(i, j, n, m);
      assert (left + row)[i * m + j] == left[i * m + j];
    } else {
      assert i * m + j == |left| + j;
      assert (left + row)[|left| + j] == row[j];
    }
  }

  lemma RowMajorBound(i': nat, j: nat, i: nat, m: nat)
    requires i' < i && j < m
    ensures i' * m + j < i * m
  {
    assert (i' + 1) * m <= i * m by {
      MulMonotone(i' + 1, i, m);
    }
  }

  lemma MulMonotone(a: nat, b: nat, m: nat)
    requires a <= b
    ensures a * m <= b * m
  {
  }

  /** Every annotation of the cross product is some entity on some segment. */
  lemma {:induction false} CrossMembers(entities: seq<Tag>, segments: seq<(int, int)>)
    ensures forall a :: a in Cross(entities, segments) ==>
      exists i, j :: 0 <= i < |entities| && 0 <= j < |segments| && a == AnnotationOf(entities[i], segments[j])
  {
    if entities != [] {
      var init := entities[..|entities| - 1];
      CrossMembers(init, segments);
      forall a | a in Cross(entities, segments)
        ensures exists i, j :: 0 <= i < |entities| && 0 <= j < |segments| && a == AnnotationOf(entities[i], segments[j])
      {
        if a in Cross(init, segments) {
          var i, j :| 0 <= i < |init| && 0 <= j < |segments| && a == AnnotationOf(init[i], segments[j]);
          assert init[i] == entities[i];
        } else {
          var row := Row(entities[|entities| - 1], segments);
          assert a in row;
          var j :| 0 <= j < |row| && row[j] == a;
        }
      }
    }
  }

  /** `getAnnotations`: one annotation per (entity, segment), entity-major; a segment is a (start, end) pair. */
  method GetAnnotations(entities: seq<Tag>, segments: seq<(int, int)>) returns (anns: seq<Annotation>)
    ensures |anns| == |entities| * |segments|
    ensures forall i, j :: 0 <= i < |entities| && 0 <= j < |segments| ==>
      Slot(i, j, |segments|) < |anns| && anns[Slot(i, j, |segments|)] == AnnotationOf(entities[i], segments[j])
    ensures forall a :: a in anns ==>
      exists i, j :: 0 <= i < |entities| && 0 <= j < |segments| && a == AnnotationOf(entities[i], segments[j])
  {
    anns := [];
    var i := 0;
    while i < |entities|
      invariant 0 <= i <= |entities|
      invariant anns == Cross(entities[..i], segments)
    {
      var j := 0;
      while j < |segments|
        invariant 0 <= j <= |segments|
        invariant anns == Cross(entities[..i], segments) + Row(entities[i], segments[..j])
      {
        anns := anns + [AnnotationOf(entities[i], segments[j])];
        assert Row(entities[i], segments[..j + 1]) == Row(entities[i], segments[..j]) + [AnnotationOf(entities[i], segments[j])];
        j := j + 1;
      }
      assert segments[..j] == segments;
      assert entities[..i + 1][..i] == entities[..i];
      i := i + 1;
    }
    assert entities[..i] == entities;
    CrossLayout(entities, segments);
  }

  /** `s` is the largest prediction over `vs`, or negative infinity when `vs` is empty. */
  ghost predicate IsBestScore<V>(s: Score, a: Annotation, vs: seq<V>, predict: (Annotation, V) -> real)
  {
    && (s.NegInf? <==> |vs| == 0)
    && (s.Fin? ==> (exists j :: 0 <= j < |vs| && predict(a, vs[j]) == s.v)
                   && forall j :: 0 <= j < |vs| ==> predict(a, vs[j]) <= s.v)
  }

  /** The inner loop of `linkBack`: the best predicted score of `a` over its entity's feature vectors. */
  method BestScore<V>(a: Annotation, vs: seq<V>, predict: (Annotation, V) -> real) returns (best: Score)
    ensures IsBestScore(best, a, vs, predict)
  {
    best := NegInf;
    var j := 0;
    while j < |vs|
      invariant 0 <= j <= |vs|
      invariant IsBestScore(best, a, vs[..j], predict)
    {
      var score := predict(a, vs[j]);
      if best.NegInf? || score > best.v {
        best := Fin(score);
      }
      j := j + 1;
    }
    assert vs[..j] == vs;
  }

  /**
   * The scoring loop of `linkBack`: each annotation paired with its best score. The feature
   * vectors of an annotation are looked up by its concept; a concept with no entry is the
   * source's null dereference, and no list is produced.
   */
  method ScoreAnnotations<V>(anns: seq<Annotation>, entityToFtrVects: map<Tag, seq<V>>, predict: (Annotation, V) -> real)
    returns (scored: Option<seq<(Annotation, Score)>>)
    ensures scored.None? <==> exists k :: 0 <= k < |anns| && Tag(anns[k].concept) !in entityToFtrVects
    ensures scored.Some? ==> |scored.value| == |anns| && forall k :: 0 <= k < |anns| ==>
      scored.value[k].0 == anns[k] && IsBestScore(scored.value[k].1, anns[k], entityToFtrVects[Tag(anns[k].concept)], predict)
  {
    var out: seq<(Annotation, Score)> := [];
    var k := 0;
    while k < |anns|
      invariant 0 <= k <= |anns|
      invariant forall k' :: 0 <= k' < k ==> Tag(anns[k'].concept) in entityToFtrVects
      invariant |out| == k && forall k' :: 0 <= k' < k ==>
        out[k'].0 == anns[k'] && IsBestScore(out[k'].1, anns[k'], entityToFtrVects[Tag(anns[k'].concept)], predict)
    {
      var t := Tag(anns[k].concept);
      if t !in entityToFtrVects {
        return None;
      }
      var best := BestScore(anns[k], entityToFtrVects[t], predict);
      out := out + [(anns[k], best)];
      k := k + 1;
    }
    scored := Some(out);
  }

  /** `x` is `a` kept with the score `s`: same position, length and concept. */
  predicate Keeps(x: ScoredAnnotation, a: Annotation, s: Score)
  {
    x.position == a.position && x.length == a.length && x.concept == a.concept && s == Fin(x.score)
  }

  /**
   * What the greedy walk over `sorted` decides, with the order of acceptance made explicit:
   * `stop` is the first index whose score is below the threshold (the walk examines nothing
   * from there on); `accepted[j]` is the annotation kept when index `from[j]` was examined;
   * the result set holds exactly the accepted annotations; no two accepted annotations overlap;
   * and every examined candidate that was not kept overlaps one kept before it.
   */
  ghost predicate GreedyOutcome(sorted: seq<(Annotation, Score)>, threshold: real, res: set<ScoredAnnotation>,
                                accepted: seq<ScoredAnnotation>, from: seq<nat>, stop: nat)
  {
    && stop <= |sorted|
    && (forall k :: 0 <= k < stop ==> !Below(sorted[k].1, threshold))
    && (stop < |sorted| ==> Below(sorted[stop].1, threshold))
    && |from| == |accepted|
    && (forall j :: 0 <= j < |from| ==> from[j] < stop && Keeps(accepted[j], sorted[from[j]].0, sorted[from[j]].1))
    && (forall j1, j2 :: 0 <= j1 < j2 < |from| ==> from[j1] < from[j2])
    && (forall x :: x in res <==> x in accepted)
    && (forall j1, j2 :: 0 <= j1 < j2 < |accepted| ==> !ScoredOverlap(accepted[j1], accepted[j2]))
    && (forall k :: 0 <= k < stop && k !in from ==> Blocked(sorted, accepted, from, k))
  }

  /** The inner loop of `getResult`: does `a` overlap an annotation already in `res`? */
  method OverlapsAny(a: Annotation, res: set<ScoredAnnotation>) returns (overlap: bool)
    ensures overlap <==> exists x :: x in res && Overlaps(a, x)
  {
    overlap := false;
    var rest := res;
    while rest != {} && !overlap
      invariant rest <= res
      invariant overlap ==> exists x :: x in res && Overlaps(a, x)
      invariant !overlap ==> forall x :: x in res && x !in rest ==> !Overlaps(a, x)
      decreases rest
    {
      var ann :| ann in rest;
      if Overlaps(a, ann) {
        overlap := true;
      }
      rest := rest - {ann};
    }
  }

  /** Candidate `k` overlaps an annotation that was accepted from an earlier index. */
  ghost predicate Blocked(sorted: seq<(Annotation, Score)>, accepted: seq<ScoredAnnotation>, from: seq<nat>, k: nat)
    requires k < |sorted|
  {
    exists j :: 0 <= j < |from| && j < |accepted| && from[j] < k && Overlaps(sorted[k].0, accepted[j])
  }

  /** The state of the walk after examining the first `k` candidates, all at or above the threshold. */
  ghost predicate WalkState(sorted: seq<(Annotation, Score)>, threshold: real, k: nat, res: set<ScoredAnnotation>,
                            accepted: seq<ScoredAnnotation>, from: seq<nat>)
  {
    && k <= |sorted|
    && (forall k' :: 0 <= k' < k ==> !Below(sorted[k'].1, threshold))
    && |from| == |accepted|
    && (forall j :: 0 <= j < |from| ==> from[j] < k && Keeps(accepted[j], sorted[from[j]].0, sorted[from[j]].1))
    && (forall j1, j2 :: 0 <= j1 < j2 < |from| ==> from[j1] < from[j2])
    && (forall x :: x in res <==> x in accepted)
    && (forall j1, j2 :: 0 <= j1 < j2 < |accepted| ==> !ScoredOverlap(accepted[j1], accepted[j2]))
    && (forall k' :: 0 <= k' < k && k' !in from ==> Blocked(sorted, accepted, from, k'))
  }

  /** Examining candidate `k` that overlaps an accepted annotation: it is skipped. */
  lemma {:induction false} SkipStep(sorted: seq<(Annotation, Score)>, threshold: real, k: nat, res: set<ScoredAnnotation>,
                 accepted: seq<ScoredAnnotation>, from: seq<nat>)
    requires WalkState(sorted, threshold, k, res, accepted, from)
    requires k < |sorted| && !Below(sorted[k].1, threshold)
    requires exists x :: x in res && Overlaps(sorted[k].0, x)
    ensures WalkState(sorted, threshold, k + 1, res, accepted, from)
  {
    var x :| x in res && Overlaps(sorted[k].0, x);
    var j :| 0 <= j < |accepted| && accepted[j] == x;
    assert from[j] < k && Overlaps(sorted[k].0, accepted[j]);
    assert Blocked(sorted, accepted, from, k);
  }

  /** Examining candidate `k` that overlaps nothing accepted: it is accepted. */
  lemma {:induction false} AcceptStep(sorted: seq<(Annotation, Score)>, threshold: real, k: nat, res: set<ScoredAnnotation>,
                   accepted: seq<ScoredAnnotation>, from: seq<nat>, kept: ScoredAnnotation)
    requires WalkState(sorted, threshold, k, res, accepted, from)
    requires k < |sorted| && !Below(sorted[k].1, threshold)
    requires !exists x :: x in res && Overlaps(sorted[k].0, x)
    requires Keeps(kept, sorted[k].0, sorted[k].1)
    ensures WalkState(sorted, threshold, k + 1, res + {kept}, accepted + [kept], from + [k])
  {
    forall j | 0 <= j < |accepted| ensures !ScoredOverlap(accepted[j], kept) {
      assert accepted[j] in res;
      assert !Overlaps(sorted[k].0, accepted[j]);
    }
    var from', accepted' := from + [k], accepted + [kept];
    forall k' | 0 <= k' < k + 1 && k' !in from' ensures Blocked(sorted, accepted', from', k') {
      assert k' !in from && Blocked(sorted, accepted, from, k');
      var j :| 0 <= j < |from| && j < |accepted| && from[j] < k' && Overlaps(sorted[k'].0, accepted[j]);
      assert from'[j] == from[j] && accepted'[j] == accepted[j];
    }
  }

  /** The loop of `getResult` over the already ordered candidates. */
  method SelectGreedy(sorted: seq<(Annotation, Score)>, threshold: real)
    returns (res: set<ScoredAnnotation>, ghost accepted: seq<ScoredAnnotation>, ghost from: seq<nat>, ghost stop: nat)
    ensures GreedyOutcome(sorted, threshold, res, accepted, from, stop)
    ensures forall x, y :: x in res && y in res && x != y ==> !ScoredOverlap(x, y)
    ensures forall x :: x in res ==> x.score >= threshold
    ensures (forall k :: 0 <= k < |sorted| ==> Below(sorted[k].1, threshold)) ==> res == {}
  {
    res, accepted, from := {}, [], [];
    var k := 0;
    while k < |sorted|
      invariant WalkState(sorted, threshold, k, res, accepted, from)
    {
      var annI, score := sorted[k].0, sorted[k].1;
      if Below(score, threshold) {
        break;
      }
      var overlap := OverlapsAny(annI, res);
      if !overlap {
        var kept := ScoredAnnotation(annI.position, annI.length, annI.concept, score.v);
        AcceptStep(sorted, threshold, k, res, accepted, from, kept);
        res := res + {kept};
        accepted := accepted + [kept];
        from := from + [k];
      } else {
        SkipStep(sorted, threshold, k, res, accepted, from);
      }
      k := k + 1;
    }
    stop := k;
    AcceptedPairwiseDisjoint(res, accepted);
    forall x | x in res ensures x.score >= threshold {
      var j :| 0 <= j < |accepted| && accepted[j] == x;
    }
  }

  lemma AcceptedPairwiseDisjoint(res: set<ScoredAnnotation>, accepted: seq<ScoredAnnotation>)
    requires forall x :: x in res <==> x in accepted
    requires forall j1, j2 :: 0 <= j1 < j2 < |accepted| ==> !ScoredOverlap(accepted[j1], accepted[j2])
    ensures forall x, y :: x in res && y in res && x != y ==> !ScoredOverlap(x, y)
  {
    forall x, y | x in res && y in res && x != y ensures !ScoredOverlap(x, y) {
      var j1 :| 0 <= j1 < |accepted| && accepted[j1] == x;
      var j2 :| 0 <= j2 < |accepted| && accepted[j2] == y;
      if j2 < j1 {
        assert !ScoredOverlap(y, x);
      }
    }
  }

  /**
   * `getResult`: orders the caller's list in place (stable ascending sort by score, then
   * reversed) and runs the greedy walk over it.
   */
  method GetResult(cands: array<(Annotation, Score)>, threshold: real)
    returns (res: set<ScoredAnnotation>, ghost perm: seq<nat>, ghost accepted: seq<ScoredAnnotation>,
             ghost from: seq<nat>, ghost stop: nat)
    modifies cands
    ensures Sorting.IsPermutation(perm, cands.Length) && Sorting.Rearranged(cands[..], old(cands[..]), perm)
    ensures Sorting.Descending(cands[..], ScoreLess)
    ensures forall k, l :: 0 <= k < l < cands.Length && cands[k].1 == cands[l].1 ==> perm[k] > perm[l]
    ensures GreedyOutcome(cands[..], threshold, res, accepted, from, stop)
    ensures forall x, y :: x in res && y in res && x != y ==> !ScoredOverlap(x, y)
    ensures forall x :: x in res ==> x.score >= threshold
    ensures forall k :: stop <= k < cands.Length ==> Below(cands[k].1, threshold)
  {
    ScoreLessIsStrictTotalOrder();
    perm := Sorting.SortThenReverse(cands, ScoreLess);
    res, accepted, from, stop := SelectGreedy(cands[..], threshold);
    forall k | stop < k < cands.Length ensures Below(cands[k].1, threshold) {
      BelowMonotone(cands[stop].1, cands[k].1, threshold);
    }
  }

  /** `x` is some accepted entity on some segment. */
  ghost predicate FromCross(x: ScoredAnnotation, entities: seq<Tag>, segments: seq<(int, int)>)
  {
    exists i, j :: 0 <= i < |entities| && 0 <= j < |segments| && x.concept == entities[i].concept &&
      x.position == segments[j].0 && x.length == segments[j].1 - segments[j].0
  }

  /** Every kept result comes from a candidate, and so from some entity on some segment. */
  lemma {:induction false} ResultsFromCross(entities: seq<Tag>, segments: seq<(int, int)>, anns: seq<Annotation>,
                                            scored: seq<(Annotation, Score)>, sorted: seq<(Annotation, Score)>,
                                            perm: seq<nat>, threshold: real, res: set<ScoredAnnotation>,
                                            accepted: seq<ScoredAnnotation>, from: seq<nat>, stop: nat)
    requires forall a :: a in anns ==>
      exists i, j :: 0 <= i < |entities| && 0 <= j < |segments| && a == AnnotationOf(entities[i], segments[j])
    requires |scored| == |anns| && forall k :: 0 <= k < |anns| ==> scored[k].0 == anns[k]
    requires Sorting.Rearranged(sorted, scored, perm)
    requires GreedyOutcome(sorted, threshold, res, accepted, from, stop)
    ensures forall x :: x in res ==> FromCross(x, entities, segments)
  {
    forall x | x in res ensures FromCross(x, entities, segments) {
      var j :| 0 <= j < |accepted| && accepted[j] == x;
      var k := perm[from[j]];
      assert sorted[from[j]] == scored[k];
      assert anns[k] in anns;
      var i, j' :| 0 <= i < |entities| && 0 <= j' < |segments| && anns[k] == AnnotationOf(entities[i], segments[j']);
    }
  }

  /** Two best scores of the same annotation over the same vectors agree. */
  lemma BestScoreUnique<V>(s1: Score, s2: Score, a: Annotation, vs: seq<V>, predict: (Annotation, V) -> real)
    requires IsBestScore(s1, a, vs, predict) && IsBestScore(s2, a, vs, predict)
    ensures s1 == s2
  {
    if s1.Fin? {
      var j1 :| 0 <= j1 < |vs| && predict(a, vs[j1]) == s1.v;
      var j2 :| 0 <= j2 < |vs| && predict(a, vs[j2]) == s2.v;
      assert s1.v <= s2.v && s2.v <= s1.v;
    }
  }

  /** `x` is entity `i` on segment `j`, kept with that pair's best predicted score. */
  ghost predicate BestScored<V>(x: ScoredAnnotation, entities: seq<Tag>, segments: seq<(int, int)>,
                                entityToFtrVects: map<Tag, seq<V>>, predict: (Annotation, V) -> real)
  {
    exists i, j :: 0 <= i < |entities| && 0 <= j < |segments| && entities[i] in entityToFtrVects &&
      Keeps(x, AnnotationOf(entities[i], segments[j]), Fin(x.score)) &&
      IsBestScore(Fin(x.score), AnnotationOf(entities[i], segments[j]), entityToFtrVects[entities[i]], predict)
  }

  /**
   * The result is what the greedy walk must leave: every (entity, segment) pair whose best
   * score reaches the threshold is either kept with that score, or overlaps a kept annotation
   * whose score is at least as high.
   */
  ghost predicate GreedyMaximal<V>(res: set<ScoredAnnotation>, entities: seq<Tag>, segments: seq<(int, int)>,
                                   entityToFtrVects: map<Tag, seq<V>>, predict: (Annotation, V) -> real, threshold: real)
  {
    forall i, j, s ::
      (0 <= i < |entities| && 0 <= j < |segments| && entities[i] in entityToFtrVects &&
       IsBestScore(s, AnnotationOf(entities[i], segments[j]), entityToFtrVects[entities[i]], predict) &&
       !Below(s, threshold)) ==>
        (exists x :: x in res && Keeps(x, AnnotationOf(entities[i], segments[j]), s)) ||
        (exists x :: x in res && Overlaps(AnnotationOf(entities[i], segments[j]), x) && x.score >= s.v)
  }

  /** The scored candidates as `ScoreAnnotations` leaves them: each annotation with its best score. */
  ghost predicate ScoredAsBest<V>(anns: seq<Annotation>, scored: seq<(Annotation, Score)>,
                                  entityToFtrVects: map<Tag, seq<V>>, predict: (Annotation, V) -> real)
  {
    |scored| == |anns| && forall k :: 0 <= k < |anns| ==>
      scored[k].0 == anns[k] && Tag(anns[k].concept) in entityToFtrVects &&
      IsBestScore(scored[k].1, anns[k], entityToFtrVects[Tag(anns[k].concept)], predict)
  }

  /** Every kept result is some entity on some segment with its best score. */
  lemma {:induction false} ResultsBestScored<V>(entities: seq<Tag>, segments: seq<(int, int)>, anns: seq<Annotation>,
                                                entityToFtrVects: map<Tag, seq<V>>, predict: (Annotation, V) -> real,
                                                scored: seq<(Annotation, Score)>, sorted: seq<(Annotation, Score)>,
                                                perm: seq<nat>, threshold: real, res: set<ScoredAnnotation>,
                                                accepted: seq<ScoredAnnotation>, from: seq<nat>, stop: nat)
    requires forall a :: a in anns ==>
      exists i, j :: 0 <= i < |entities| && 0 <= j < |segments| && a == AnnotationOf(entities[i], segments[j])
    requires ScoredAsBest(anns, scored, entityToFtrVects, predict)
    requires Sorting.Rearranged(sorted, scored, perm)
    requires GreedyOutcome(sorted, threshold, res, accepted, from, stop)
    ensures forall x :: x in res ==> BestScored(x, entities, segments, entityToFtrVects, predict)
  {
    forall x | x in res ensures BestScored(x, entities, segments, entityToFtrVects, predict) {
      var jj :| 0 <= jj < |accepted| && accepted[jj] == x;
      var k := perm[from[jj]];
      assert sorted[from[jj]] == scored[k];
      assert Keeps(x, anns[k], scored[k].1);
      assert anns[k] in anns;
      var i, j :| 0 <= i < |entities| && 0 <= j < |segments| && anns[k] == AnnotationOf(entities[i], segments[j]);
      assert Tag(anns[k].concept) == entities[i];
    }
  }

  /**
   * Greedy maximality: a pair that reaches the threshold sits before the stop index of the
   * walk (scores never increase along it), so it was either accepted or blocked by an
   * annotation accepted earlier, whose score is therefore no lower.
   */
  lemma {:induction false} GreedyIsMaximal<V>(entities: seq<Tag>, segments: seq<(int, int)>, anns: seq<Annotation>,
                                              entityToFtrVects: map<Tag, seq<V>>, predict: (Annotation, V) -> real,
                                              scored: seq<(Annotation, Score)>, sorted: seq<(Annotation, Score)>,
                                              perm: seq<nat>, threshold: real, res: set<ScoredAnnotation>,
                                              accepted: seq<ScoredAnnotation>, from: seq<nat>, stop: nat)
    requires |anns| == |entities| * |segments|
    requires forall i, j :: 0 <= i < |entities| && 0 <= j < |segments| ==>
      Slot(i, j, |segments|) < |anns| && anns[Slot(i, j, |segments|)] == AnnotationOf(entities[i], segments[j])
    requires ScoredAsBest(anns, scored, entityToFtrVects, predict)
    requires Sorting.IsPermutation(perm, |sorted|) && Sorting.Rearranged(sorted, scored, perm)
    requires Sorting.Descending(sorted, ScoreLess)
    requires GreedyOutcome(sorted, threshold, res, accepted, from, stop)
    ensures GreedyMaximal(res, entities, segments, entityToFtrVects, predict, threshold)
  {
    forall i, j, s | 0 <= i < |entities| && 0 <= j < |segments| && entities[i] in entityToFtrVects &&
      IsBestScore(s, AnnotationOf(entities[i], segments[j]), entityToFtrVects[entities[i]], predict) &&
      !Below(s, threshold)
      ensures (exists x :: x in res && Keeps(x, AnnotationOf(entities[i], segments[j]), s)) ||
              (exists x :: x in res && Overlaps(AnnotationOf(entities[i], segments[j]), x) && x.score >= s.v)
    {
      var a := AnnotationOf(entities[i], segments[j]);
      var k := Slot(i, j, |segments|);
      assert anns[k] == a && Tag(a.concept) == entities[i];
      BestScoreUnique(scored[k].1, s, a, entityToFtrVects[entities[i]], predict);
      Sorting.PermutationOnto(perm, |sorted|, k);
      var p :| 0 <= p < |sorted| && perm[p] == k;
      assert sorted[p] == (a, s);
      if p >= stop {
        assert false;
      }
      if p in from {
        var jj :| 0 <= jj < |from| && from[jj] == p;
        assert accepted[jj] in res && Keeps(accepted[jj], a, s);
      } else {
        assert Blocked(sorted, accepted, from, p);
        var jj :| 0 <= jj < |from| && jj < |accepted| && from[jj] < p && Overlaps(sorted[p].0, accepted[jj]);
        assert !ScoreLess(sorted[from[jj]].1, sorted[p].1);
        assert accepted[jj] in res && accepted[jj].score >= s.v;
      }
    }
  }

  /**
   * `linkBack`: every accepted entity on every segment, scored by its best prediction,
   * then selected greedily. A missing entry for an entity that has at least one segment
   * to be scored on is the source's null dereference, and no result is produced.
   */
  method LinkBackAnnotations<V>(entities: seq<Tag>, segments: seq<(int, int)>, entityToFtrVects: map<Tag, seq<V>>,
                                predict: (Annotation, V) -> real, threshold: real)
    returns (result: Option<set<ScoredAnnotation>>)
    ensures result.None? <==> |segments| > 0 && exists i :: 0 <= i < |entities| && entities[i] !in entityToFtrVects
    ensures result.Some? ==> forall x, y :: x in result.value && y in result.value && x != y ==> !ScoredOverlap(x, y)
    ensures result.Some? ==> forall x :: x in result.value ==> x.score >= threshold
    ensures result.Some? ==> forall x :: x in result.value ==> FromCross(x, entities, segments)
    ensures result.Some? ==> forall x :: x in result.value ==> BestScored(x, entities, segments, entityToFtrVects, predict)
    ensures result.Some? ==> GreedyMaximal(result.value, entities, segments, entityToFtrVects, predict, threshold)
  {
    var anns := GetAnnotations(entities, segments);
    var scored := ScoreAnnotations(anns, entityToFtrVects, predict);
    MissingIffMissingEntity(entities, segments, anns, entityToFtrVects);
    if scored.None? {
      return None;
    }
    var s := scored.value;
    var cands := new (Annotation, Score)[|s|](k requires 0 <= k < |s| => s[k]);
    assert cands[..] == s;
    var res, perm, accepted, from, stop := GetResult(cands, threshold);
    ResultsFromCross(entities, segments, anns, s, cands[..], perm, threshold, res, accepted, from, stop);
    assert ScoredAsBest(anns, s, entityToFtrVects, predict);
    ResultsBestScored(entities, segments, anns, entityToFtrVects, predict, s, cands[..], perm, threshold, res, accepted, from, stop);
    GreedyIsMaximal(entities, segments, anns, entityToFtrVects, predict, s, cands[..], perm, threshold, res, accepted, from, stop);
    result := Some(res);
  }

  /** Some annotation's concept is missing from the map exactly when some entity with a segment is missing. */
  lemma MissingIffMissingEntity<V>(entities: seq<Tag>, segments: seq<(int, int)>, anns: seq<Annotation>,
                                   entityToFtrVects: map<Tag, seq<V>>)
    requires |anns| == |entities| * |segments|
    requires forall i, j :: 0 <= i < |entities| && 0 <= j < |segments| ==>
      Slot(i, j, |segments|) < |anns| && anns[Slot(i, j, |segments|)] == AnnotationOf(entities[i], segments[j])
    requires forall a :: a in anns ==>
      exists i, j :: 0 <= i < |entities| && 0 <= j < |segments| && a == AnnotationOf(entities[i], segments[j])
    ensures (exists k :: 0 <= k < |anns| && Tag(anns[k].concept) !in entityToFtrVects)
        <==> |segments| > 0 && exists i :: 0 <= i < |entities| && entities[i] !in entityToFtrVects
  {
    if k :| 0 <= k < |anns| && Tag(anns[k].concept) !in entityToFtrVects {
      assert anns[k] in anns;
      var i, j :| 0 <= i < |entities| && 0 <= j < |segments| && anns[k] == AnnotationOf(entities[i], segments[j]);
      assert entities[i] == Tag(anns[k].concept);
    }
    if |segments| > 0 && exists i :: 0 <= i < |entities| && entities[i] !in entityToFtrVects {
      var i :| 0 <= i < |entities| && entities[i] !in entityToFtrVects;
      var k := Slot(i, 0, |segments|);
      assert anns[k] == AnnotationOf(entities[i], segments[0]);
      assert Tag(anns[k].concept) == entities[i];
    }
  }
}
