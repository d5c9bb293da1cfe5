/**
 * The feature-list text of `GenerateModel`: a sorted list of feature indices written as
 * comma-separated blocks, a lone index `a` or a run of consecutive indices `a-b`, and the
 * model file name built from it.
 */
module GenerateModel {
  import opened Basics
  import opened Decimal
  import Sorting

  /** A block of the list: the consecutive values `lo`, `lo + 1`, …, `hi`. */
  datatype Run = Run(lo: int, hi: int)

  /** The values of a block, in ascending order. */
  function Span(lo: int, hi: int): (s: seq<int>)
    requires lo <= hi
    ensures |s| == hi - lo + 1 && s[0] == lo && s[|s| - 1] == hi
    decreases hi - lo
  {
    if lo == hi then [lo] else Span(lo, hi - 1) + [hi]
  }

  /** The values of a list of blocks, block after block. */
  function Expand(runs: seq<Run>): seq<int>
  {
    if runs == [] then []
    else
      var r := runs[|runs| - 1];
      Expand(runs[..|runs| - 1]) + (if r.lo <= r.hi then Span(r.lo, r.hi) else [])
  }

  /**
   * The blocks of `s`, read left to right: a value one above the previous one extends the
   * current block, any other value (a gap or a repeat) opens a new one.
   */
  function Runs(s: seq<int>): (r: seq<Run>)
    ensures |r| <= |s| && (r == [] <==> s == [])
    ensures r != [] ==> r[|r| - 1].hi == s[|s| - 1]
  {
    if s == [] then []
    else
      NextRuns(Runs(s[..|s| - 1]), s[|s| - 1])
  }

  /** Every block holds at least one value. */
  predicate Ordered(rs: seq<Run>)
  {
    forall k :: 0 <= k < |rs| ==> rs[k].lo <= rs[k].hi
  }

  lemma NextRunsOrdered(rs: seq<Run>, x: int)
    requires Ordered(rs)
    ensures Ordered(NextRuns(rs, x))
  {
    if rs != [] && x == rs[|rs| - 1].hi + 1 {
      var pre, r := rs[..|rs| - 1], rs[|rs| - 1];
      assert NextRuns(rs, x) == pre + [Run(r.lo, x)];
      assert Ordered(pre);
    }
  }

  lemma {:induction false} RunsOrdered(s: seq<int>)
    ensures Ordered(Runs(s))
  {
    if s != [] {
      RunsOrdered(s[..|s| - 1]);
      NextRunsOrdered(Runs(s[..|s| - 1]), s[|s| - 1]);
    }
  }

  /** No block could be extended into the next one: each block is a maximal run of consecutive values. */
  ghost predicate Maximal(rs: seq<Run>)
  {
    forall j, k :: 0 <= j < k < |rs| && k == j + 1 ==> rs[k].lo != rs[j].hi + 1
  }

  lemma NextRunsMaximal(rs: seq<Run>, x: int)
    requires Maximal(rs)
    ensures Maximal(NextRuns(rs, x))
  {
    if rs != [] && x == rs[|rs| - 1].hi + 1 {
      var pre, r := rs[..|rs| - 1], rs[|rs| - 1];
      var rs' := pre + [Run(r.lo, x)];
      forall j, k | 0 <= j < k < |rs'| && k == j + 1 ensures rs'[k].lo != rs'[j].hi + 1 {
        assert rs'[j] == rs[j] && rs'[k].lo == rs[k].lo;
      }
    } else {
      var rs' := rs + [Run(x, x)];
      forall j, k | 0 <= j < k < |rs'| && k == j + 1 ensures rs'[k].lo != rs'[j].hi + 1 {
        assert rs'[j] == rs[j];
      }
    }
  }

  /** The blocks of a list are its maximal runs of consecutive values. */
  lemma {:induction false} RunsMaximal(s: seq<int>)
    ensures Maximal(Runs(s))
  {
    if s != [] {
      RunsMaximal(s[..|s| - 1]);
      NextRunsMaximal(Runs(s[..|s| - 1]), s[|s| - 1]);
    }
  }

  /** The blocks after one more value: the last block grows, or a new one opens. */
  function NextRuns(rs: seq<Run>, x: int): seq<Run>
  {
    if rs != [] && x == rs[|rs| - 1].hi + 1 then rs[..|rs| - 1] + [Run(rs[|rs| - 1].lo, x)]
    else rs + [Run(x, x)]
  }

  lemma RunsSnoc(s: seq<int>, x: int)
    ensures Runs(s + [x]) == NextRuns(Runs(s), x)
  {
    assert (s + [x])[..|s|] == s;
  }

  lemma ExpandSnoc(runs: seq<Run>, r: Run)
    requires r.lo <= r.hi
    ensures Expand(runs + [r]) == Expand(runs) + Span(r.lo, r.hi)
  {
    assert (runs + [r])[..|runs|] == runs;
  }

  /** One more value adds exactly that value at the end of the expansion. */
  lemma ExpandNextRuns(rs: seq<Run>, x: int)
    requires Ordered(rs)
    ensures Expand(NextRuns(rs, x)) == Expand(rs) + [x]
  {
    if rs != [] && x == rs[|rs| - 1].hi + 1 {
      var pre, r := rs[..|rs| - 1], rs[|rs| - 1];
      calc {
        Expand(NextRuns(rs, x));
        Expand(pre + [Run(r.lo, x)]);
        { ExpandSnoc(pre, Run(r.lo, x)); }
        Expand(pre) + Span(r.lo, x);
        { ConcatAssoc(Expand(pre), Span(r.lo, r.hi), [x]); }
        Expand(pre) + Span(r.lo, r.hi) + [x];
        { assert pre + [r] == rs; ExpandSnoc(pre, r); }
        Expand(rs) + [x];
      }
    } else {
      ExpandSnoc(rs, Run(x, x));
    }
  }

  /** Cutting the list into blocks loses and adds nothing. */
  lemma {:induction false} ExpandRuns(s: seq<int>)
    ensures Expand(Runs(s)) == s
  {
    if s != [] {
      var init, x := s[..|s| - 1], s[|s| - 1];
      assert init + [x] == s;
      ExpandRuns(init);
      RunsOrdered(init);
      ExpandNextRuns(Runs(init), x);
    }
  }

  /** The pieces the text is written in: a number, a comma or a dash. */
  datatype Token = Num(n: int) | Comma | Dash

  function SpellToken(t: Token): string
  {
    match t
    case Num(n) => IntToString(n)
    case Comma => ","
    case Dash => "-"
  }

  /** The text of a list of pieces. */
  function Spell(ts: seq<Token>): string
  {
    if ts == [] then "" else Spell(ts[..|ts| - 1]) + SpellToken(ts[|ts| - 1])
  }

  /** Writing two lists of pieces one after the other writes their texts one after the other. */
  lemma {:induction false} SpellAppend(a: seq<Token>, b: seq<Token>)
    ensures Spell(a + b) == Spell(a) + Spell(b)
  {
    if b != [] {
      var init, t := b[..|b| - 1], b[|b| - 1];
      assert (a + b)[..|a + b| - 1] == a + init;
      SpellAppend(a, init);
      ConcatAssoc(Spell(a), Spell(init), SpellToken(t));
    } else {
      assert a + b == a;
    }
  }

  lemma SpellPair(ts: seq<Token>, t1: Token, t2: Token)
    ensures Spell(ts + [t1, t2]) == Spell(ts) + (SpellToken(t1) + SpellToken(t2))
  {
    assert ts + [t1, t2] == ts + [t1] + [t2];
    assert (ts + [t1] + [t2])[..|ts| + 1] == ts + [t1];
    assert (ts + [t1])[..|ts|] == ts;
    ConcatAssoc(Spell(ts), SpellToken(t1), SpellToken(t2));
  }

  /** The pieces of one block: `a` alone, or `a-b`. */
  function BlockTokens(r: Run): seq<Token>
  {
    if r.lo == r.hi then [Num(r.lo)] else [Num(r.lo), Dash, Num(r.hi)]
  }

  /** The pieces of the blocks, separated by commas. */
  function RenderTokens(runs: seq<Run>): seq<Token>
  {
    if runs == [] then []
    else if |runs| == 1 then BlockTokens(runs[0])
    else RenderTokens(runs[..|runs| - 1]) + [Comma] + BlockTokens(runs[|runs| - 1])
  }

  /** The text of the blocks. */
  function Render(runs: seq<Run>): string
  {
    Spell(RenderTokens(runs))
  }

  /** The text of one block. */
  function Block(r: Run): string
  {
    Spell(BlockTokens(r))
  }

  lemma BlockText(r: Run)
    ensures Block(r) == if r.lo == r.hi then IntToString(r.lo) else IntToString(r.lo) + "-" + IntToString(r.hi)
  {
    var one := [Num(r.lo)];
    assert one[..0] == [];
    assert Spell(one) == IntToString(r.lo);
    if r.lo != r.hi {
      var three := [Num(r.lo), Dash, Num(r.hi)];
      assert three[..2] == one + [Dash];
      assert (one + [Dash])[..1] == one;
      assert Spell(one + [Dash]) == IntToString(r.lo) + "-";
      assert Spell(three) == IntToString(r.lo) + "-" + IntToString(r.hi);
    }
  }

  /** The blocks with the last one cut back to its first value: what is written while it is still open. */
  function Opened(runs: seq<Run>): (r: seq<Run>)
    ensures |r| == |runs|
  {
    if runs == [] then [] else runs[..|runs| - 1] + [Run(runs[|runs| - 1].lo, runs[|runs| - 1].lo)]
  }

  lemma RenderAppend(runs: seq<Run>, r: Run)
    requires runs != []
    ensures RenderTokens(runs + [r]) == RenderTokens(runs) + [Comma] + BlockTokens(r)
  {
    assert (runs + [r])[..|runs|] == runs;
  }

  /**
   * `getFtrListRepresentation`: sorts the caller's array in place, then writes its blocks.
   * The text is the blocks of the sorted array, so it depends only on which values occur
   * how often (`RepresentationDependsOnMultiset`).
   */
  method FtrListRepresentation(ftrs: array<int>) returns (ftrList: string)
    modifies ftrs
    ensures Sorting.Sorted(ftrs[..]) && multiset(ftrs[..]) == old(multiset(ftrs[..]))
    ensures ftrList == Render(Runs(ftrs[..]))
  {
    Sorting.SortInts(ftrs);
    ftrList := WriteBlocks(ftrs[..]);
  }

  /** The length of the last block. */
  function LastSize(rs: seq<Run>): int
    requires rs != []
  {
    rs[|rs| - 1].hi - rs[|rs| - 1].lo + 1
  }

  /**
   * The state of the writing loop after the first `i` values: the pieces written so far are
   * the blocks of those values, with the last block still open unless every value has been read.
   */
  ghost predicate Written(s: seq<int>, i: int, toks: seq<Token>, lastInserted: int, lastBlockSize: int)
  {
    && 0 <= i <= |s|
    && (i == 0 ==> toks == [] && lastBlockSize == 1)
    && (i > 0 ==> lastInserted == s[i - 1] && Runs(s[..i]) != [] && lastBlockSize == LastSize(Runs(s[..i])))
    && (i == |s| ==> toks == RenderTokens(Runs(s[..i])))
    && (0 < i < |s| ==> toks == RenderTokens(Opened(Runs(s[..i]))))
  }

  /** The loop of `getFtrListRepresentation` over the sorted values. */
  method WriteBlocks(ftrs: seq<int>) returns (ftrList: string)
    ensures ftrList == Render(Runs(ftrs))
  {
    ftrList := "";
    var i := 0;
    var lastInserted := -1;
    var lastBlockSize := 1;
    ghost var toks: seq<Token> := [];
    while i < |ftrs|
      invariant Written(ftrs, i, toks, lastInserted, lastBlockSize)
      invariant ftrList == Spell(toks)
    {
      var current := ftrs[i];
      if i == 0 {
        StepFirst(ftrs, toks, ftrList, current);
        ftrList := ftrList + IntToString(current);
        toks := toks + [Num(current)];
      } else if current == lastInserted + 1 {
        StepContinue(ftrs, i, toks, ftrList, lastInserted, lastBlockSize);
        if i == |ftrs| - 1 {
          ftrList := ftrList + ("-" + IntToString(current));
          toks := toks + [Dash, Num(current)];
        }
        lastBlockSize := lastBlockSize + 1;
      } else {
        StepNewBlock(ftrs, i, toks, ftrList, lastInserted, lastBlockSize);
        if lastBlockSize > 1 {
          ftrList := ftrList + ("-" + IntToString(lastInserted));
          toks := toks + [Dash, Num(lastInserted)];
        }
        ftrList := ftrList + ("," + IntToString(current));
        toks := toks + [Comma, Num(current)];
        lastBlockSize := 1;
      }
      assert Written(ftrs, i + 1, toks, current, lastBlockSize) && ftrList == Spell(toks);
      lastInserted := current;
      i := i + 1;
    }
    assert ftrs[..i] == ftrs;
  }

  lemma StepFirst(s: seq<int>, toks: seq<Token>, text: string, x: int)
    requires s != [] && s[0] == x && toks == [] && text == Spell(toks)
    ensures Written(s, 1, toks + [Num(x)], x, 1)
    ensures text + IntToString(x) == Spell(toks + [Num(x)])
  {
    assert s[..1] == [x];
    FirstBlock(x);
    assert (toks + [Num(x)])[..0] == toks;
  }

  lemma StepContinue(s: seq<int>, i: int, toks: seq<Token>, text: string, lastInserted: int, lastBlockSize: int)
    requires Written(s, i, toks, lastInserted, lastBlockSize) && text == Spell(toks)
    requires 0 < i < |s| && s[i] == lastInserted + 1
    ensures i == |s| - 1 ==> Written(s, i + 1, toks + [Dash, Num(s[i])], s[i], lastBlockSize + 1)
    ensures i < |s| - 1 ==> Written(s, i + 1, toks, s[i], lastBlockSize + 1)
    ensures text + ("-" + IntToString(s[i])) == Spell(toks + [Dash, Num(s[i])])
  {
    ContinueRuns(s, i, toks, lastInserted, lastBlockSize);
    SpellPair(toks, Dash, Num(s[i]));
  }

  /** The pieces after a value that extends the open block. */
  lemma ContinueRuns(s: seq<int>, i: int, toks: seq<Token>, lastInserted: int, lastBlockSize: int)
    requires Written(s, i, toks, lastInserted, lastBlockSize)
    requires 0 < i < |s| && s[i] == lastInserted + 1
    ensures i == |s| - 1 ==> Written(s, i + 1, toks + [Dash, Num(s[i])], s[i], lastBlockSize + 1)
    ensures i < |s| - 1 ==> Written(s, i + 1, toks, s[i], lastBlockSize + 1)
  {
    var x := s[i];
    var rs := Runs(s[..i]);
    assert toks == RenderTokens(Opened(rs));
    assert s[..i][i - 1] == s[i - 1];
    var init, r := rs[..|rs| - 1], rs[|rs| - 1];
    assert init + [r] == rs;
    assert r.hi == lastInserted && lastBlockSize == r.hi - r.lo + 1;
    RunsOrdered(s[..i]);
    assert r.lo <= r.hi;
    ContinueStep(init, r, x);
    var next := init + [Run(r.lo, x)];
    assert Runs(s[..i + 1]) == next by {
      assert s[..i + 1] == s[..i] + [x];
      RunsSnoc(s[..i], x);
    }
    assert LastSize(next) == lastBlockSize + 1;
  }

  lemma StepNewBlock(s: seq<int>, i: int, toks: seq<Token>, text: string, lastInserted: int, lastBlockSize: int)
    requires Written(s, i, toks, lastInserted, lastBlockSize) && text == Spell(toks)
    requires 0 < i < |s| && s[i] != lastInserted + 1
    ensures lastBlockSize > 1 ==>
      && Written(s, i + 1, toks + [Dash, Num(lastInserted)] + [Comma, Num(s[i])], s[i], 1)
      && text + ("-" + IntToString(lastInserted)) + ("," + IntToString(s[i]))
         == Spell(toks + [Dash, Num(lastInserted)] + [Comma, Num(s[i])])
    ensures lastBlockSize <= 1 ==>
      && Written(s, i + 1, toks + [Comma, Num(s[i])], s[i], 1)
      && text + ("," + IntToString(s[i])) == Spell(toks + [Comma, Num(s[i])])
  {
    NewBlockRuns(s, i, toks, lastInserted, lastBlockSize);
    if lastBlockSize > 1 {
      SpellPair(toks, Dash, Num(lastInserted));
      SpellPair(toks + [Dash, Num(lastInserted)], Comma, Num(s[i]));
    } else {
      SpellPair(toks, Comma, Num(s[i]));
    }
  }

  /** The pieces after a value that opens a new block. */
  lemma NewBlockRuns(s: seq<int>, i: int, toks: seq<Token>, lastInserted: int, lastBlockSize: int)
    requires Written(s, i, toks, lastInserted, lastBlockSize)
    requires 0 < i < |s| && s[i] != lastInserted + 1
    ensures lastBlockSize > 1 ==> Written(s, i + 1, toks + [Dash, Num(lastInserted)] + [Comma, Num(s[i])], s[i], 1)
    ensures lastBlockSize <= 1 ==> Written(s, i + 1, toks + [Comma, Num(s[i])], s[i], 1)
  {
    var x := s[i];
    var rs := Runs(s[..i]);
    assert toks == RenderTokens(Opened(rs));
    assert s[..i][i - 1] == s[i - 1];
    var init, r := rs[..|rs| - 1], rs[|rs| - 1];
    assert init + [r] == rs;
    assert r.hi == lastInserted && lastBlockSize == r.hi - r.lo + 1;
    RunsOrdered(s[..i]);
    assert r.lo <= r.hi;
    var next := rs + [Run(x, x)];
    assert Runs(s[..i + 1]) == next by {
      assert s[..i + 1] == s[..i] + [x];
      RunsSnoc(s[..i], x);
      NewBlockOpened(rs, x);
    }
    assert Opened(next) == next by {
      NewBlockOpened(rs, x);
    }
    assert LastSize(next) == 1;
    if lastBlockSize > 1 {
      CloseLong(init, r, x);
      assert RenderTokens(next) == toks + [Dash, Num(lastInserted)] + [Comma, Num(x)];
    } else {
      CloseSingle(init, r, x);
      assert RenderTokens(next) == toks + [Comma, Num(x)];
    }
  }

  /** The first value opens the first block. */
  lemma FirstBlock(x: int)
    ensures Runs([x]) == [Run(x, x)] == Opened([Run(x, x)])
    ensures RenderTokens([Run(x, x)]) == [] + [Num(x)]
  {
    assert [x][..0] == [];
  }

  /** A value extending the open block writes nothing, except `-b` to close it when it is the last value. */
  lemma ContinueStep(init: seq<Run>, r: Run, x: int)
    requires r.lo <= r.hi && x == r.hi + 1
    ensures NextRuns(init + [r], x) == init + [Run(r.lo, x)]
    ensures Opened(init + [Run(r.lo, x)]) == Opened(init + [r])
    ensures RenderTokens(init + [Run(r.lo, x)]) == RenderTokens(Opened(init + [r])) + [Dash, Num(x)]
  {
    OpenedSnoc(init, r);
    OpenedSnoc(init, Run(r.lo, x));
    CloseOpened(init, Run(r.lo, x));
    assert (init + [r])[..|init|] == init;
  }

  /** A value opening a new block is a block of its own, so nothing of it is held back. */
  lemma NewBlockOpened(rs: seq<Run>, x: int)
    requires rs != [] && x != rs[|rs| - 1].hi + 1
    ensures NextRuns(rs, x) == rs + [Run(x, x)]
    ensures Opened(rs + [Run(x, x)]) == rs + [Run(x, x)]
  {
    assert (rs + [Run(x, x)])[..|rs|] == rs;
  }

  lemma OpenedSnoc(init: seq<Run>, r: Run)
    ensures Opened(init + [r]) == init + [Run(r.lo, r.lo)]
  {
    assert (init + [r])[..|init|] == init;
  }

  /** A value opening a new block after a one-value block: only `,x` is written. */
  lemma CloseSingle(init: seq<Run>, r: Run, x: int)
    requires r.lo == r.hi
    ensures RenderTokens(init + [r] + [Run(x, x)]) == RenderTokens(Opened(init + [r])) + [Comma, Num(x)]
  {
    OpenedSnoc(init, r);
    assert Run(r.lo, r.lo) == r;
    RenderAppend(init + [r], Run(x, x));
  }

  /** Closing a longer block adds `-b` to the pieces of its opened form. */
  lemma CloseOpened(init: seq<Run>, r: Run)
    requires r.lo < r.hi
    ensures RenderTokens(init + [Run(r.lo, r.lo)]) + [Dash, Num(r.hi)] == RenderTokens(init + [r])
  {
    if init != [] {
      RenderAppend(init, r);
      RenderAppend(init, Run(r.lo, r.lo));
    } else {
      assert init + [r] == [r];
      assert init + [Run(r.lo, r.lo)] == [Run(r.lo, r.lo)];
    }
  }

  /** A value opening a new block after a longer block: the open block is closed with `-b`, then `,x`. */
  lemma CloseLong(init: seq<Run>, r: Run, x: int)
    requires r.lo < r.hi
    ensures RenderTokens(init + [r] + [Run(x, x)]) == RenderTokens(Opened(init + [r])) + [Dash, Num(r.hi)] + [Comma, Num(x)]
  {
    OpenedSnoc(init, r);
    CloseOpened(init, r);
    RenderAppend(init + [r], Run(x, x));
  }

  /** The text of an empty list is empty; that of a single value is its decimal text. */
  lemma RepresentationSmallCases(x: int)
    ensures Render(Runs([])) == ""
    ensures Render(Runs([x])) == IntToString(x)
  {
    FirstBlock(x);
    assert Render(Runs([x])) == Spell([] + [Num(x)]);
  }

  /** Two sorted arrangements of the same values are written the same way. */
  lemma RepresentationDependsOnMultiset(s: seq<int>, t: seq<int>)
    requires Sorting.Sorted(s) && Sorting.Sorted(t) && multiset(s) == multiset(t)
    ensures Render(Runs(s)) == Render(Runs(t))
  {
    Sorting.SortedUnique(s, t);
  }

  /** The index of the last `c` in `t`, if any. */
  function LastIndexOf(t: string, c: char): (r: Option<nat>)
    ensures r.Some? ==> r.value < |t| && t[r.value] == c && forall k :: r.value < k < |t| ==> t[k] != c
    ensures r.None? ==> forall k :: 0 <= k < |t| ==> t[k] != c
  {
    if t == [] then None
    else if t[|t| - 1] == c then Some(|t| - 1)
    else LastIndexOf(t[..|t| - 1], c)
  }

  /** The index of the first `c` in `t`, if any. */
  function FirstIndexOf(t: string, c: char): (r: Option<nat>)
    ensures r.Some? ==> r.value < |t| && t[r.value] == c && forall k :: 0 <= k < r.value ==> t[k] != c
    ensures r.None? ==> forall k :: 0 <= k < |t| ==> t[k] != c
  {
    if t == [] then None
    else if t[0] == c then Some(0)
    else match FirstIndexOf(t[1..], c)
      case None => None
      case Some(k) => Some(k + 1)
  }

  /** Reads back one block written with non-negative values. */
  function ParseBlock(t: string): Option<Run>
  {
    match FirstIndexOf(t, '-')
    case None =>
      (match ParseNat(t)
       case None => None
       case Some(a) => Some(Run(a, a)))
    case Some(d) =>
      (match (ParseNat(t[..d]), ParseNat(t[d + 1..]))
       case (Some(a), Some(b)) => Some(Run(a, b))
       case _ => None)
  }

  /** Reads back a feature-list text into its blocks. */
  function ParseRanges(t: string): Option<seq<Run>>
  {
    if t == [] then Some([])
    else match LastIndexOf(t, ',')
      case None =>
        (match ParseBlock(t)
         case None => None
         case Some(r) => Some([r]))
      case Some(k) =>
        (match (ParseRanges(t[..k]), ParseBlock(t[k + 1..]))
         case (Some(rs), Some(r)) => if rs == [] then None else Some(rs + [r])
         case _ => None)
  }

  predicate NonNegative(runs: seq<Run>)
  {
    forall k :: 0 <= k < |runs| ==> runs[k].lo >= 0 && runs[k].hi >= 0
  }

  lemma {:induction false} FirstIndexAt(a: string, b: string, c: char)
    requires forall k :: 0 <= k < |a| ==> a[k] != c
    ensures FirstIndexOf(a + [c] + b, c) == Some(|a|)
  {
    var t := a + [c] + b;
    if a != [] {
      assert t[0] == a[0] && t[1..] == a[1..] + [c] + b;
      FirstIndexAt(a[1..], b, c);
    }
  }

  lemma {:induction false} LastIndexAt(a: string, b: string, c: char)
    requires forall k :: 0 <= k < |b| ==> b[k] != c
    ensures LastIndexOf(a + [c] + b, c) == Some(|a|)
  {
    var t := a + [c] + b;
    if b != [] {
      assert t[|t| - 1] == b[|b| - 1] && t[..|t| - 1] == a + [c] + b[..|b| - 1];
      LastIndexAt(a, b[..|b| - 1], c);
    }
  }

  /** The decimal text of a value has neither `-` nor `,` and reads back as a one-value block. */
  lemma ParseSingleBlock(n: nat)
    ensures ParseBlock(NatToString(n)) == Some(Run(n, n))
    ensures forall k :: 0 <= k < |NatToString(n)| ==> NatToString(n)[k] != ',' && NatToString(n)[k] != '-'
  {
    NatToStringDigits(n);
    ParseNatToString(n);
  }

  /** `a-b` reads back as the block from `a` to `b`, and has no comma. */
  lemma ParseRangeBlock(lo: nat, hi: nat)
    ensures ParseBlock(NatToString(lo) + "-" + NatToString(hi)) == Some(Run(lo, hi))
    ensures forall k :: 0 <= k < |NatToString(lo) + "-" + NatToString(hi)| ==> (NatToString(lo) + "-" + NatToString(hi))[k] != ','
  {
    var a, b := NatToString(lo), NatToString(hi);
    ParseSingleBlock(lo);
    ParseSingleBlock(hi);
    FirstIndexAt(a, b, '-');
    var t := a + "-" + b;
    assert t == a + ['-'] + b;
    assert t[..|a|] == a && t[|a| + 1..] == b;
  }

  /** A block with non-negative values reads back as itself, and has no comma. */
  lemma ParseBlockOfBlock(r: Run)
    requires r.lo >= 0 && r.hi >= 0
    ensures ParseBlock(Block(r)) == Some(r)
    ensures forall k :: 0 <= k < |Block(r)| ==> Block(r)[k] != ','
    ensures |Block(r)| > 0
  {
    BlockText(r);
    IntToStringNonNegative(r.lo);
    IntToStringNonNegative(r.hi);
    if r.lo == r.hi {
      ParseSingleBlock(r.lo);
    } else {
      ParseRangeBlock(r.lo, r.hi);
    }
  }

  lemma ParseRangesSnoc(p: string, b: string, rs: seq<Run>, r: Run)
    requires forall k :: 0 <= k < |b| ==> b[k] != ','
    requires ParseRanges(p) == Some(rs) && rs != [] && ParseBlock(b) == Some(r)
    ensures ParseRanges(p + [','] + b) == Some(rs + [r])
  {
    var t := p + [','] + b;
    LastIndexAt(p, b, ',');
    assert t[..|p|] == p && t[|p| + 1..] == b;
  }

  /** Reading the text of non-negative blocks gives the blocks back. */
  lemma {:induction false} ParseRender(runs: seq<Run>)
    requires NonNegative(runs)
    ensures ParseRanges(Render(runs)) == Some(runs)
  {
    if runs == [] {
    } else if |runs| == 1 {
      assert Render(runs) == Block(runs[0]);
      ParseBlockOfBlock(runs[0]);
      assert LastIndexOf(Block(runs[0]), ',') == None;
      assert [runs[0]] == runs;
    } else {
      var init, r := runs[..|runs| - 1], runs[|runs| - 1];
      assert init + [r] == runs;
      ParseRender(init);
      ParseBlockOfBlock(r);
      assert Render(runs) == Render(init) + [','] + Block(r) by {
        RenderAppend(init, r);
        SpellAppend(RenderTokens(init) + [Comma], BlockTokens(r));
        SpellAppend(RenderTokens(init), [Comma]);
        assert [Comma] == [] + [Comma];
      }
      ParseRangesSnoc(Render(init), Block(r), init, r);
    }
  }

  /**
   * The round trip of the feature-list text: for non-negative features, reading the text back
   * and expanding every block gives the sorted features.
   */
  lemma RepresentationRoundTrip(s: seq<int>)
    requires forall k :: 0 <= k < |s| ==> s[k] >= 0
    ensures ParseRanges(Render(Runs(s))).Some?
    ensures Expand(ParseRanges(Render(Runs(s))).value) == s
  {
    RunsWithin(s);
    ParseRender(Runs(s));
    ExpandRuns(s);
  }

  /** Every block starts and ends at a value of the list. */
  lemma {:induction false} RunsWithin(s: seq<int>)
    ensures forall k :: 0 <= k < |Runs(s)| ==> Runs(s)[k].lo in s && Runs(s)[k].hi in s
  {
    if s != [] {
      var init := s[..|s| - 1];
      RunsWithin(init);
      assert forall v :: v in init ==> v in s;
      var rs := Runs(init);
      forall k | 0 <= k < |Runs(s)| ensures Runs(s)[k].lo in s && Runs(s)[k].hi in s {
        if k < |rs| {
          assert rs[k].lo in init;
        }
      }
    }
  }

  const ModelPrefix: string := "models/model_"
  const RLSuffix: string := "_RL"

  /** `getModelFileNameBaseRL`: the ranking model's file name, built on the feature-list text. */
  method ModelFileNameBaseRL(ftrs: array<int>) returns (name: string)
    modifies ftrs
    ensures Sorting.Sorted(ftrs[..]) && multiset(ftrs[..]) == old(multiset(ftrs[..]))
    ensures name == ModelPrefix + Render(Runs(ftrs[..])) + RLSuffix
  {
    var repr := FtrListRepresentation(ftrs);
    name := ModelPrefix + repr + RLSuffix;
  }

  /** The features named by a ranking model's file name, if it is one. */
  function FeaturesOfModelName(name: string): Option<seq<int>>
  {
    if |name| >= |ModelPrefix| + |RLSuffix| && name[..|ModelPrefix|] == ModelPrefix
       && name[|name| - |RLSuffix|..] == RLSuffix
    then
      match ParseRanges(name[|ModelPrefix|..|name| - |RLSuffix|])
      case None => None
      case Some(runs) => Some(Expand(runs))
    else None
  }

  /** A ranking model's file name names exactly its (sorted, non-negative) features. */
  lemma ModelNameRoundTrip(s: seq<int>)
    requires forall k :: 0 <= k < |s| ==> s[k] >= 0
    ensures FeaturesOfModelName(ModelPrefix + Render(Runs(s)) + RLSuffix) == Some(s)
  {
    var repr := Render(Runs(s));
    var name := ModelPrefix + repr + RLSuffix;
    assert name[..|ModelPrefix|] == ModelPrefix;
    assert name[|name| - |RLSuffix|..] == RLSuffix;
    assert name[|ModelPrefix|..|name| - |RLSuffix|] == repr;
    RepresentationRoundTrip(s);
  }
}
