/** Laws of the cycle-notation semantics: inverse, involution, the shape of
    the split, and the derangement test. */
module CycleLaws {
  import opened Outcomes
  import opened Text
  import opened Modular
  import opened Alphabets
  import opened Cycles

  lemma IndexOfDistinct(s: seq<char>, i: int)
    requires NoDup(s) && 0 <= i < |s|
    ensures IndexOf(s, s[i]) == i
  {
  }

  /** Within one duplicate-free cycle, predecessor undoes successor and
      successor undoes predecessor. */
  lemma SuccPred(cyc: seq<char>, p: char)
    requires NoDup(cyc) && p in cyc
    ensures Pred(cyc, Succ(cyc, p)) == p
    ensures Succ(cyc, Pred(cyc, p)) == p
  {
    var k := IndexOf(cyc, p);
    if k != |cyc| - 1 { IndexOfDistinct(cyc, k + 1); } else { IndexOfDistinct(cyc, 0); }
    if k != 0 { IndexOfDistinct(cyc, k - 1); } else { IndexOfDistinct(cyc, |cyc| - 1); }
  }

  /** In a cycle of at most two symbols the successor is the predecessor. */
  lemma SuccIsPredInShortCycle(cyc: seq<char>, p: char)
    requires NoDup(cyc) && p in cyc && |cyc| <= 2
    ensures Succ(cyc, p) == Pred(cyc, p)
  {
    var k := IndexOf(cyc, p);
    assert k == 0 || k == 1;
  }

  /** A cycle of two or more distinct symbols moves every one of them. */
  lemma SuccMoves(cyc: seq<char>, p: char)
    requires NoDup(cyc) && p in cyc && |cyc| >= 2
    ensures Succ(cyc, p) != p
  {
    var k := IndexOf(cyc, p);
    if k != |cyc| - 1 { assert cyc[k] != cyc[k + 1]; } else { assert cyc[0] != cyc[k]; }
  }

  /** The inverse law for disjoint, duplicate-free cycles. */
  lemma CycleInverse(cs: seq<seq<char>>, p: char)
    requires Disjoint(cs)
    requires forall k :: 0 <= k < |cs| ==> NoDup(cs[k])
    ensures InvertIn(cs, PermuteIn(cs, p)) == p
    ensures PermuteIn(cs, InvertIn(cs, p)) == p
  {
    PermuteInFinds(cs, p);
    InvertInFinds(cs, p);
    if k :| 0 <= k < |cs| && p in cs[k] {
      SuccPred(cs[k], p);
      var q, q' := Succ(cs[k], p), Pred(cs[k], p);
      assert forall j :: k < j < |cs| ==> p !in cs[j] && q !in cs[j] && q' !in cs[j];
      PermuteInFinds(cs, p);
      InvertInFinds(cs, p);
      PermuteInFinds(cs, q');
      InvertInFinds(cs, q);
      assert InvertIn(cs, q) == Pred(cs[k], q);
      assert PermuteIn(cs, q') == Succ(cs[k], q');
    }
  }

  /** Cycles of length at most two: forward and inverse lookup agree. */
  lemma ShortCyclesSelfInverse(cs: seq<seq<char>>, p: char)
    requires Disjoint(cs)
    requires forall k :: 0 <= k < |cs| ==> NoDup(cs[k]) && |cs[k]| <= 2
    ensures PermuteIn(cs, p) == InvertIn(cs, p)
  {
    if k :| 0 <= k < |cs| && p in cs[k] {
      SuccIsPredInShortCycle(cs[k], p);
      assert forall j :: k < j < |cs| ==> p !in cs[j];
      PermuteInFinds(cs, p);
      InvertInFinds(cs, p);
    }
  }

  /** The lookup of a symbol of `A` over cycles drawn from `A` stays in `A`. */
  lemma {:induction false} PermuteStaysIn(A: seq<char>, cs: seq<seq<char>>, p: char)
    requires CyclesOver(A, cs) && p in A
    ensures PermuteIn(cs, p) in A && InvertIn(cs, p) in A
  {
    if cs != [] && p !in cs[|cs| - 1] {
      PermuteStaysIn(A, cs[..|cs| - 1], p);
    }
  }

  lemma LastIndexOfDistinct(A: seq<char>, i: int)
    requires NoDup(A) && 0 <= i < |A|
    ensures LastIndex(A, A[i]) == Ok(i)
  {
    LastIndexIsLast(A, A[i], i);
  }

  /** `permute(int)` and `invert(int)` see only the wrapped index. */
  lemma PermIdxWraps(A: seq<char>, text: seq<char>, p: int)
    requires |A| > 0
    ensures PermIdx(A, text, p) == PermIdx(A, text, Wrap(p, |A|))
    ensures InvIdx(A, text, p) == InvIdx(A, text, Wrap(p, |A|))
  {
    WrapInRange(Wrap(p, |A|), |A|);
  }

  /** The inverse law at the index level: for a bijective cycle text over a
      duplicate-free alphabet, `permute` succeeds on every int, and `invert`
      of its answer gives back the wrapped input. */
  lemma PermuteThenInvert(A: seq<char>, text: seq<char>, p: int)
    requires NoDup(A) && |A| > 0 && Bijective(A, text)
    ensures PermIdx(A, text, p).Ok?
    ensures InvIdx(A, text, PermIdx(A, text, p).value) == Ok(Wrap(p, |A|))
  {
    var n := |A|;
    var i := Wrap(p, n);
    LastIndexOfDistinct(A, i);
    if text != [] {
      var cs := Helper(text).value;
      PermuteStaysIn(A, cs, A[i]);
      CycleInverse(cs, A[i]);
      var o := PermuteIn(cs, A[i]);
      var v := LastIndex(A, o).value;
      WrapInRange(v, n);
      assert InvertIn(cs, A[v]) == A[i];
    } else {
      WrapInRange(i, n);
    }
  }

  /** The inverse law in the other order: `permute` undoes `invert`. */
  lemma InvertThenPermute(A: seq<char>, text: seq<char>, c: int)
    requires NoDup(A) && |A| > 0 && Bijective(A, text)
    ensures InvIdx(A, text, c).Ok?
    ensures PermIdx(A, text, InvIdx(A, text, c).value) == Ok(Wrap(c, |A|))
  {
    var n := |A|;
    var i := Wrap(c, n);
    LastIndexOfDistinct(A, i);
    if text != [] {
      var cs := Helper(text).value;
      PermuteStaysIn(A, cs, A[i]);
      CycleInverse(cs, A[i]);
      var o := InvertIn(cs, A[i]);
      var v := LastIndex(A, o).value;
      WrapInRange(v, n);
      assert PermuteIn(cs, A[v]) == A[i];
    } else {
      WrapInRange(i, n);
    }
  }

  /** An involutive cycle text: `permute` and `invert` give the same index. */
  lemma InvolutionAgrees(A: seq<char>, text: seq<char>, p: int)
    requires |A| > 0 && Involutive(A, text)
    ensures PermIdx(A, text, p) == InvIdx(A, text, p)
  {
    if text != [] {
      var cs := Helper(text).value;
      ShortCyclesSelfInverse(cs, A[Wrap(p, |A|)]);
    }
  }

  /** A derangement moves every symbol that lies in one of its disjoint,
      duplicate-free cycles. */
  lemma DerangementMovesCycledSymbols(text: seq<char>, cs: seq<seq<char>>, p: char)
    requires Helper(text) == Ok(cs) && Disjoint(cs)
    requires forall k :: 0 <= k < |cs| ==> NoDup(cs[k])
    requires DerangementText(text) == Ok(true)
    requires exists k :: 0 <= k < |cs| && p in cs[k]
    ensures PermuteIn(cs, p) != p
  {
    var k :| 0 <= k < |cs| && p in cs[k];
    assert |cs[k]| != 1;
    SuccMoves(cs[k], p);
    assert forall j :: k < j < |cs| ==> p !in cs[j];
    PermuteInFinds(cs, p);
  }

  /** A failed derangement test names a one-symbol cycle, and over disjoint
      cycles that symbol is a fixed point. */
  lemma NonDerangementHasFixedPoint(text: seq<char>, cs: seq<seq<char>>)
    requires Helper(text) == Ok(cs) && Disjoint(cs)
    requires DerangementText(text) == Ok(false)
    ensures exists k :: 0 <= k < |cs| && |cs[k]| == 1 && PermuteIn(cs, cs[k][0]) == cs[k][0]
  {
    var k :| 0 <= k < |cs| && |cs[k]| == 1;
    var p := cs[k][0];
    assert forall j :: k < j < |cs| ==> p !in cs[j];
    PermuteInFinds(cs, p);
  }

  /** Empty cycle text passes the derangement test although it moves
      nothing: coverage of the alphabet is not checked. */
  lemma EmptyTextIsDerangement(c: char)
    ensures DerangementText([]) == Ok(true)
    ensures PermuteText([], c) == Ok(c) && InvertText([], c) == Ok(c)
  {
    assert Helper([]) == Ok([[]]);
  }
}
