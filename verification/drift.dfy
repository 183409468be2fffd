// Line-drift bookkeeping for the call and execution phases: where each
// matched joinpoint's before- and after-blocks are written, given the lines
// already inserted for the same aspect.

module Drift {
  import opened Aspects
  import opened Patterns
  import opened Matching

  /** One writeAtLine(fname, line, block) call. */
  datatype Write = Write(line: int, block: string)

  /** Lines a block adds to the file: none for an empty block, which is
      never written. */
  function Cost(block: string): (n: nat)
    ensures n == 0 <==> block == ""
  {
    if block == "" then 0 else Lines(block)
  }

  /** Drift one matched joinpoint adds to its aspect's running counter. */
  function Step(adv: Advice): nat
  {
    Cost(adv.before) + Cost(adv.after)
  }

  /** The drift the k-th matched joinpoint (from 0) of an aspect is placed
      with: one step per earlier match. */
  function DriftAt(adv: Advice, k: nat): nat
  {
    if k == 0 then 0 else DriftAt(adv, k - 1) + Step(adv)
  }

  /** The drift grows linearly: k steps. */
  lemma {:induction false} DriftAtIsMultiple(adv: Advice, k: nat)
    ensures DriftAt(adv, k) == k * Step(adv)
  {
    if k > 0 {
      DriftAtIsMultiple(adv, k - 1);
      assert k * Step(adv) == (k - 1) * Step(adv) + Step(adv);
    }
  }

  /** Number of writes one matched joinpoint causes. */
  function BlockCount(adv: Advice): nat
  {
    (if adv.before != "" then 1 else 0) + (if adv.after != "" then 1 else 0)
  }

  /** Total lines the given writes insert. */
  function TotalCost(ws: seq<Write>): nat
    decreases |ws|
  {
    if ws == [] then 0 else TotalCost(ws[..|ws| - 1]) + Cost(ws[|ws| - 1].block)
  }

  /** The writes for one matched joinpoint when `drift` lines have already
      been inserted for this aspect. At a call, the before-block goes above
      the line of the opening parenthesis and the after-block below it,
      past the before-block's lines. At a function, the before-block goes
      below the opening brace and the after-block above the closing brace,
      a further (its own line count) lines up when results are declared. */
  function MatchWrites(adv: Advice, jp: Joinpoint, drift: int): seq<Write>
  {
    match jp
    case CallJP(lparen) =>
      (if adv.before != "" then [Write(lparen + drift - 1, adv.before)] else [])
      + (if adv.after != "" then [Write(lparen + drift + Cost(adv.before), adv.after)] else [])
    case ExecJP(lbrace, rbrace, hasResults) =>
      (if adv.before != "" then [Write(lbrace + drift, adv.before)] else [])
      + (if adv.after != "" then
           [Write(rbrace + drift + Cost(adv.before) - 1 - (if hasResults then Lines(adv.after) else 0), adv.after)]
         else [])
  }

  /** All writes for one aspect's matched joinpoints, in order: the k-th
      match (from 0) is placed with drift DriftAt(adv, k) = k * Step(adv). */
  function AspectWrites(adv: Advice, jps: seq<Joinpoint>): seq<Write>
    decreases |jps|
  {
    if jps == [] then []
    else AspectWrites(adv, jps[..|jps| - 1]) + MatchWrites(adv, jps[|jps| - 1], DriftAt(adv, |jps| - 1))
  }

  lemma {:induction false} TotalCostConcat(xs: seq<Write>, ys: seq<Write>)
    ensures TotalCost(xs + ys) == TotalCost(xs) + TotalCost(ys)
    decreases |ys|
  {
    if ys == [] {
      assert xs + ys == xs;
    } else {
      var init := ys[..|ys| - 1];
      assert (xs + ys)[..|xs + ys| - 1] == xs + init;
      TotalCostConcat(xs, init);
    }
  }

  lemma MatchWritesCost(adv: Advice, jp: Joinpoint, drift: int)
    ensures TotalCost(MatchWrites(adv, jp, drift)) == Step(adv)
    ensures |MatchWrites(adv, jp, drift)| == BlockCount(adv)
  {
    var ws := MatchWrites(adv, jp, drift);
    if |ws| == 2 {
      assert ws[..1] == [ws[0]];
      assert ws[..1][..0] == [];
    } else if |ws| == 1 {
      assert ws[..0] == [];
    }
  }

  /** One more factor, kept apart so that the nonlinear step is its own
      proof obligation. */
  lemma StepMul(step: nat, n: nat)
    ensures (n + 1) * step == n * step + step
  {
  }

  /** The lines one aspect inserts: Step(adv) per matched joinpoint. */
  lemma {:induction false} AspectWritesCost(adv: Advice, jps: seq<Joinpoint>)
    ensures TotalCost(AspectWrites(adv, jps)) == DriftAt(adv, |jps|)
    decreases |jps|
  {
    if jps != [] {
      var n := |jps| - 1;
      var prev := AspectWrites(adv, jps[..n]);
      var mw := MatchWrites(adv, jps[n], DriftAt(adv, n));
      assert AspectWrites(adv, jps) == prev + mw;
      AspectWritesCost(adv, jps[..n]);
      MatchWritesCost(adv, jps[n], DriftAt(adv, n));
      TotalCostConcat(prev, mw);
    }
  }

  /** The writes one aspect performs: BlockCount(adv) per matched joinpoint;
      empty blocks are never written. */
  lemma {:induction false} AspectWritesCount(adv: Advice, jps: seq<Joinpoint>)
    ensures |AspectWrites(adv, jps)| == |jps| * BlockCount(adv)
    decreases |jps|
  {
    if jps != [] {
      var n := |jps| - 1;
      var prev := AspectWrites(adv, jps[..n]);
      var mw := MatchWrites(adv, jps[n], DriftAt(adv, n));
      assert AspectWrites(adv, jps) == prev + mw;
      AspectWritesCount(adv, jps[..n]);
      MatchWritesCost(adv, jps[n], DriftAt(adv, n));
      StepMul(BlockCount(adv), n);
    }
  }

  /** Each matched joinpoint is placed with a drift equal to the lines of
      every block already written for its aspect, so the drift never
      decreases from one match to the next. */
  lemma DriftIsLinesWritten(adv: Advice, jps: seq<Joinpoint>, k: nat)
    requires k < |jps|
    ensures AspectWrites(adv, jps[..k + 1])
         == AspectWrites(adv, jps[..k]) + MatchWrites(adv, jps[k], TotalCost(AspectWrites(adv, jps[..k])))
    ensures TotalCost(AspectWrites(adv, jps[..k])) <= TotalCost(AspectWrites(adv, jps[..k + 1]))
  {
    var upto := jps[..k + 1];
    assert upto[..k] == jps[..k];
    assert upto[k] == jps[k];
    var prev := AspectWrites(adv, jps[..k]);
    var drift := TotalCost(prev);
    AspectWritesCost(adv, jps[..k]);
    assert drift == DriftAt(adv, k);
    assert AspectWrites(adv, upto) == prev + MatchWrites(adv, jps[k], drift);
    MatchWritesCost(adv, jps[k], drift);
    TotalCostConcat(prev, MatchWrites(adv, jps[k], drift));
  }

  /** The first matched joinpoint of an aspect is placed with no drift. */
  lemma {:induction false} DriftStartsAtZero(adv: Advice, jps: seq<Joinpoint>)
    requires jps != []
    ensures MatchWrites(adv, jps[0], 0) <= AspectWrites(adv, jps)
    decreases |jps|
  {
    var n := |jps| - 1;
    var first := MatchWrites(adv, jps[0], 0);
    var init := AspectWrites(adv, jps[..n]);
    var rest := MatchWrites(adv, jps[n], DriftAt(adv, n));
    assert AspectWrites(adv, jps) == init + rest;
    if n == 0 {
      assert init == [];
      assert DriftAt(adv, n) == 0;
      assert rest == first;
    } else {
      assert jps[..n][0] == jps[0];
      DriftStartsAtZero(adv, jps[..n]);
      PrefixExtend(first, init, rest);
    }
  }

  lemma PrefixExtend(a: seq<Write>, b: seq<Write>, c: seq<Write>)
    requires a <= b
    ensures a <= b + c
  {
    assert (b + c)[..|a|] == b[..|a|];
  }

  /** Every write carries one of the aspect's non-empty blocks. */
  lemma {:induction false} AspectWritesBlocks(adv: Advice, jps: seq<Joinpoint>)
    ensures forall w :: w in AspectWrites(adv, jps) ==>
              w.block != "" && (w.block == adv.before || w.block == adv.after)
    decreases |jps|
  {
    if jps != [] {
      AspectWritesBlocks(adv, jps[..|jps| - 1]);
    }
  }

  predicate Ascending(ws: seq<Write>)
  {
    forall i, j :: 0 <= i < j < |ws| ==> ws[i].line <= ws[j].line
  }

  /** Call joinpoints whose opening parentheses appear in line order. */
  predicate CallsInLineOrder(jps: seq<Joinpoint>)
  {
    (forall i :: 0 <= i < |jps| ==> jps[i].CallJP?) &&
    forall i, j :: 0 <= i < j < |jps| ==> jps[i].lparen <= jps[j].lparen
  }

  /** Lowest and highest line the writes of the k-th call match target. */
  function CallBottom(adv: Advice, lparen: int, k: nat): int
  {
    lparen + DriftAt(adv, k) + (if adv.before != "" then -1 else 0)
  }

  function CallTop(adv: Advice, lparen: int, k: nat): int
  {
    lparen + DriftAt(adv, k) + (if adv.after != "" then Cost(adv.before) else -1)
  }

  lemma CallMatchWritesWithin(adv: Advice, lparen: int, k: nat)
    ensures Ascending(MatchWrites(adv, CallJP(lparen), DriftAt(adv, k)))
    ensures forall w :: w in MatchWrites(adv, CallJP(lparen), DriftAt(adv, k)) ==>
              CallBottom(adv, lparen, k) <= w.line <= CallTop(adv, lparen, k)
  {
  }

  lemma AscendingConcat(xs: seq<Write>, ys: seq<Write>, m: int)
    requires Ascending(xs) && Ascending(ys)
    requires forall w :: w in xs ==> w.line <= m
    requires forall w :: w in ys ==> m <= w.line
    ensures Ascending(xs + ys)
  {
    forall i, j | 0 <= i < j < |xs + ys|
      ensures (xs + ys)[i].line <= (xs + ys)[j].line
    {
      if j < |xs| {
      } else if i < |xs| {
        assert (xs + ys)[i] in xs;
        assert (xs + ys)[j] in ys;
      } else {
        assert (xs + ys)[i] == ys[i - |xs|];
      }
    }
  }

  /** The writes of consecutive call matches in line order do not cross. */
  lemma TopBelowNextBottom(adv: Advice, l1: int, l2: int, k: nat)
    requires l1 <= l2
    ensures CallTop(adv, l1, k) <= CallBottom(adv, l2, k + 1)
  {
  }

  /** When an aspect's call joinpoints come in line order, its writes target
      lines in ascending order: the drift bookkeeping never sends a later
      match above an earlier one. */
  lemma {:induction false} CallWritesAscending(adv: Advice, jps: seq<Joinpoint>)
    requires CallsInLineOrder(jps)
    ensures Ascending(AspectWrites(adv, jps))
    ensures jps != [] ==> forall w :: w in AspectWrites(adv, jps) ==>
              w.line <= CallTop(adv, jps[|jps| - 1].lparen, |jps| - 1)
    decreases |jps|
  {
    if jps != [] {
      var n := |jps| - 1;
      var prefix := jps[..n];
      var last := jps[n];
      assert CallsInLineOrder(prefix);
      CallWritesAscending(adv, prefix);
      CallMatchWritesWithin(adv, last.lparen, n);
      var prev := AspectWrites(adv, prefix);
      var mw := MatchWrites(adv, last, DriftAt(adv, n));
      assert AspectWrites(adv, jps) == prev + mw;
      var m := CallBottom(adv, last.lparen, n);
      if n > 0 {
        var previous := prefix[n - 1];
        assert previous == jps[n - 1];
        TopBelowNextBottom(adv, previous.lparen, last.lparen, n - 1);
      }
      AscendingConcat(prev, mw, m);
    }
  }
}
