/**
 * Entities, annotations and scores shared by the link-back selector, the example
 * gatherer's instantiations and the snippet filters.
 */
module Annotations {
  import opened Basics
  import Sorting

  /** A knowledge-base entity, identified by its Wikipedia concept id. */
  datatype Tag = Tag(concept: int)

  /** A mention of `concept` covering the characters `[position, position + length)`. */
  datatype Annotation = Annotation(position: int, length: int, concept: int)

  /** An annotation together with the confidence that it is correct. */
  datatype ScoredAnnotation = ScoredAnnotation(position: int, length: int, concept: int, score: real)

  /** Offset `o` lies in the half-open span starting at `p` of length `l`. */
  predicate Covers(p: int, l: int, o: int) { p <= o < p + l }

  /** Two half-open spans share at least one offset. */
  predicate SpansOverlap(p1: int, l1: int, p2: int, l2: int)
  {
    Max(p1, p2) < Min(p1 + l1, p2 + l2)
  }

  /** `Annotation.overlaps`, taken as: the two spans share an offset. */
  predicate Overlaps(a: Annotation, x: ScoredAnnotation)
  {
    SpansOverlap(a.position, a.length, x.position, x.length)
  }

  predicate ScoredOverlap(x: ScoredAnnotation, y: ScoredAnnotation)
  {
    SpansOverlap(x.position, x.length, y.position, y.length)
  }

  lemma SpansOverlapIffSharedOffset(p1: int, l1: int, p2: int, l2: int)
    ensures SpansOverlap(p1, l1, p2, l2) <==> exists o :: Covers(p1, l1, o) && Covers(p2, l2, o)
  {
    if SpansOverlap(p1, l1, p2, l2) {
      var o := Max(p1, p2);
      assert Covers(p1, l1, o) && Covers(p2, l2, o);
    }
  }

  /** A Java `double` score as the link-back loop produces it: negative infinity, or a real value. */
  datatype Score = NegInf | Fin(v: real)

  /** The order on scores: negative infinity below every real value. */
  predicate ScoreLess(a: Score, b: Score)
  {
    match (a, b)
    case (NegInf, Fin(_)) => true
    case (Fin(x), Fin(y)) => x < y
    case _ => false
  }

  /** `score < threshold` for a finite threshold. */
  predicate Below(s: Score, threshold: real)
  {
    s.NegInf? || s.v < threshold
  }

  lemma ScoreLessIsStrictTotalOrder()
    ensures Sorting.StrictTotalOrder(ScoreLess)
  {
  }

  /** In a non-increasing list, once a score falls below the threshold every later one does too. */
  lemma BelowMonotone(s: Score, t: Score, threshold: real)
    requires !ScoreLess(s, t) && Below(s, threshold)
    ensures Below(t, threshold)
  {
  }
}
