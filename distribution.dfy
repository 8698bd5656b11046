/**
  How `ImageProcessor.run` hands the sorted groups to the designers.  With
  `total` groups and `n` designers, `g = total // n` and `e = total % n`;
  group `i` goes to designer `i // (g + 1)` while `i < (g + 1) * e`, and to
  designer `(i - e) // g` after that.  The designers thereby receive
  contiguous blocks of groups, in designer order, the first `e` of them
  one group more than the others.
 */
module Distribution {
  import opened Collections

  /** `current_designer` for the group at index `i`. */
  function DesignerIndex(i: nat, total: nat, n: nat): (d: nat)
    requires n > 0 && i < total
    ensures d < n
  {
    var g := total / n;
    var e := total % n;
    if i < (g + 1) * e then
      FirstBranch(i, total, n);
      i / (g + 1)
    else
      // The else branch divides by g: it is only reached when g > 0.
      SecondBranch(i, total, n);
      (i - e) / g
  }

  /** The two branches of the formula, each under its own test. */
  lemma DesignerIndexBranches(i: nat, total: nat, n: nat)
    requires n > 0 && i < total
    ensures i < (total / n + 1) * (total % n) ==> DesignerIndex(i, total, n) == i / (total / n + 1)
    ensures i >= (total / n + 1) * (total % n) ==>
      total / n > 0 && DesignerIndex(i, total, n) == (i - total % n) / (total / n)
  {
    if i >= (total / n + 1) * (total % n) {
      SecondBranch(i, total, n);
    }
  }

  lemma FirstBranch(i: nat, total: nat, n: nat)
    requires n > 0 && i < (total / n + 1) * (total % n)
    ensures i / (total / n + 1) < n
  {
    var g, e := total / n, total % n;
    DivMod(total, n);
    DivBelow(i, g + 1, e);
  }

  /** When `g == 0` there are fewer groups than designers, `e == total`
      and no index fails the first test. */
  lemma SecondBranch(i: nat, total: nat, n: nat)
    requires n > 0 && i < total && i >= (total / n + 1) * (total % n)
    ensures total / n > 0 && i >= total % n
    ensures (i - total % n) / (total / n) < n
  {
    var g, e := total / n, total % n;
    DivMod(total, n);
    MulAtLeast(g, e);
    assert i - e < g * n;
    DivBelow(i - e, g, n);
  }

  lemma DivMod(x: nat, y: nat)
    requires y > 0
    ensures x == y * (x / y) + x % y && 0 <= x % y < y
  {
  }

  /** `x < y * k` makes `x // y < k`. */
  lemma DivBelow(x: nat, y: nat, k: nat)
    requires y > 0 && x < y * k
    ensures x / y < k
  {
    DivMod(x, y);
    if x / y >= k {
      MulMonotone(k, x / y, y);
    }
  }

  lemma MulMonotone(a: nat, b: nat, c: nat)
    requires a <= b
    ensures a * c <= b * c
  {
  }

  lemma MulAtLeast(g: nat, e: nat)
    ensures (g + 1) * e >= e
  {
  }

  function Min(a: nat, b: nat): nat {
    if a <= b then a else b
  }

  /** The index of the first group of designer `d`. */
  function BlockStart(d: nat, total: nat, n: nat): nat
    requires n > 0
  {
    d * (total / n) + Min(d, total % n)
  }

  /** The group at index `i` goes to the designer whose block holds `i`. */
  lemma IndexInBlock(i: nat, total: nat, n: nat)
    requires n > 0 && i < total
    ensures BlockStart(DesignerIndex(i, total, n), total, n) <= i
    ensures i < BlockStart(DesignerIndex(i, total, n) + 1, total, n)
  {
    var g, e := total / n, total % n;
    if i < (g + 1) * e {
      FirstBlock(i, g, e);
    } else {
      SecondBranch(i, total, n);
      SecondBlock(i, g, e);
    }
  }

  lemma FirstBlock(i: nat, g: nat, e: nat)
    requires i < (g + 1) * e
    ensures var d := i / (g + 1);
      d + 1 <= e && d * g + Min(d, e) <= i < (d + 1) * g + Min(d + 1, e)
  {
    var d := i / (g + 1);
    DivMod(i, g + 1);
    DivBelow(i, g + 1, e);
    assert d * g + d == d * (g + 1);
    assert (d + 1) * g + d + 1 == (d + 1) * (g + 1);
  }

  lemma SecondBlock(i: nat, g: nat, e: nat)
    requires g > 0 && i >= (g + 1) * e
    ensures i >= e
    ensures var d := (i - e) / g;
      d >= e && d * g + Min(d, e) <= i < (d + 1) * g + Min(d + 1, e)
  {
    MulAtLeast(g, e);
    var d := (i - e) / g;
    DivMod(i - e, g);
    if d < e {
      MulMonotone(d + 1, e, g);
    }
  }

  /** Designer `d` gets `g + 1` groups when `d < e` and `g` otherwise. */
  lemma BlockSize(d: nat, total: nat, n: nat)
    requires n > 0
    ensures BlockStart(d + 1, total, n) - BlockStart(d, total, n)
         == if d < total % n then total / n + 1 else total / n
  {
  }

  /** The blocks cover the groups exactly: the first starts at 0 and the
      last ends at `total`. */
  lemma BlocksCover(total: nat, n: nat)
    requires n > 0
    ensures BlockStart(0, total, n) == 0
    ensures BlockStart(n, total, n) == total
  {
    DivMod(total, n);
  }

  lemma BlockStartMonotone(a: nat, b: nat, total: nat, n: nat)
    requires n > 0 && a <= b
    ensures BlockStart(a, total, n) <= BlockStart(b, total, n)
  {
    MulMonotone(a, b, total / n);
  }

  /** The block holding `i` names its designer: only one block does. */
  lemma BlockDeterminesIndex(i: nat, d: nat, total: nat, n: nat)
    requires n > 0 && i < total && d < n
    ensures BlockStart(d, total, n) <= i < BlockStart(d + 1, total, n)
        <==> DesignerIndex(i, total, n) == d
  {
    var k := DesignerIndex(i, total, n);
    IndexInBlock(i, total, n);
    if d < k {
      BlockStartMonotone(d + 1, k, total, n);
    } else if k < d {
      BlockStartMonotone(k + 1, d, total, n);
    }
  }

  /** Later groups never go to earlier designers. */
  lemma IndexMonotone(i: nat, j: nat, total: nat, n: nat)
    requires n > 0 && i <= j < total
    ensures DesignerIndex(i, total, n) <= DesignerIndex(j, total, n)
  {
    var di, dj := DesignerIndex(i, total, n), DesignerIndex(j, total, n);
    IndexInBlock(i, total, n);
    IndexInBlock(j, total, n);
    if dj < di {
      BlockStartMonotone(dj + 1, di, total, n);
    }
  }

  /** `current_designer` for every group index, in group order. */
  function Owners(total: nat, n: nat): (r: seq<nat>)
    requires n > 0
    ensures |r| == total
    ensures forall i :: 0 <= i < total ==> r[i] == DesignerIndex(i, total, n) && r[i] < n
  {
    seq(total, i requires 0 <= i < total => DesignerIndex(i, total, n))
  }

  /** Handing out the groups in order, group `i` appended whole to the
      list of designer `owner[i]`. */
  function Deal<T>(gs: seq<seq<T>>, owner: seq<nat>, n: nat): (r: seq<seq<T>>)
    requires |gs| <= |owner| && forall i :: 0 <= i < |owner| ==> owner[i] < n
    ensures |r| == n
    decreases |gs|
  {
    if |gs| == 0 then seq(n, _ => [])
    else
      var prev := Deal(gs[..|gs| - 1], owner, n);
      var d := owner[|gs| - 1];
      prev[d := prev[d] + gs[|gs| - 1]]
  }

  /** The designers' lists after the first `|gs|` groups. */
  function Placed<T>(gs: seq<seq<T>>, total: nat, n: nat): (r: seq<seq<T>>)
    requires n > 0 && |gs| <= total
    ensures |r| == n
  {
    Deal(gs, Owners(total, n), n)
  }

  /** Handing out group `i`: its designer's list grows by it. */
  lemma PlacedSnoc<T>(gs: seq<seq<T>>, i: nat, total: nat, n: nat)
    requires n > 0 && i < |gs| <= total
    ensures var prev := Placed(gs[..i], total, n);
      var d := DesignerIndex(i, total, n);
      Placed(gs[..i + 1], total, n) == prev[d := prev[d] + gs[i]]
  {
    assert gs[..i + 1][..i] == gs[..i];
  }

  function Clip(x: nat, k: nat): nat {
    if x <= k then x else k
  }

  /** After the first `|gs|` groups, a designer who owns exactly the
      indices `lo..hi` holds those handed out so far, in order. */
  lemma {:induction false} DealRange<T>(gs: seq<seq<T>>, owner: seq<nat>, n: nat, d: nat, lo: nat, hi: nat)
    requires |gs| <= |owner| && forall i :: 0 <= i < |owner| ==> owner[i] < n
    requires d < n && lo <= hi
    requires forall k :: 0 <= k < |owner| ==> (owner[k] == d <==> lo <= k < hi)
    ensures Deal(gs, owner, n)[d] == Flatten(gs[Clip(lo, |gs|)..Clip(hi, |gs|)])
    decreases |gs|
  {
    if |gs| > 0 {
      var k := |gs| - 1;
      var init := gs[..k];
      DealRange(init, owner, n, d, lo, hi);
      var before := init[Clip(lo, k)..Clip(hi, k)];
      SliceStep(gs, lo, hi);
      if lo <= k < hi {
        FlattenSnoc(before, gs[k]);
      }
    }
  }

  /** The slice `lo..hi`, clipped to a sequence, grows by its last element
      exactly when that element's index lies in `lo..hi`. */
  lemma SliceStep<T>(gs: seq<T>, lo: nat, hi: nat)
    requires |gs| > 0 && lo <= hi
    ensures var k := |gs| - 1;
      var before := gs[..k][Clip(lo, k)..Clip(hi, k)];
      gs[Clip(lo, k + 1)..Clip(hi, k + 1)] == if lo <= k < hi then before + [gs[k]] else before
  {
    var k := |gs| - 1;
    if lo <= k < hi {
      assert gs[lo..k + 1] == gs[..k][lo..k] + [gs[k]];
    } else if k < lo {
      assert Clip(lo, k + 1) == k + 1 == Clip(hi, k + 1);
    } else {
      assert gs[lo..hi] == gs[..k][lo..hi];
    }
  }

  /** Designer `d`'s groups are exactly the indices of its block. */
  lemma BlockIsRange(total: nat, n: nat, d: nat)
    requires n > 0 && d < n
    ensures BlockStart(d, total, n) <= BlockStart(d + 1, total, n)
    ensures forall k :: 0 <= k < total ==>
      (DesignerIndex(k, total, n) == d <==> BlockStart(d, total, n) <= k < BlockStart(d + 1, total, n))
  {
    BlockStartMonotone(d, d + 1, total, n);
    forall k | 0 <= k < total
      ensures DesignerIndex(k, total, n) == d <==> BlockStart(d, total, n) <= k < BlockStart(d + 1, total, n)
    {
      BlockDeterminesIndex(k, d, total, n);
    }
  }

  /** Once every group is handed out, designer `d` holds exactly the groups
      of its block, concatenated in order. */
  lemma PlacedBlocks<T>(gs: seq<seq<T>>, total: nat, n: nat, d: nat)
    requires n > 0 && |gs| == total && d < n
    ensures BlockStart(d, total, n) <= BlockStart(d + 1, total, n) <= total
    ensures Placed(gs, total, n)[d]
         == Flatten(gs[BlockStart(d, total, n)..BlockStart(d + 1, total, n)])
  {
    BlocksCover(total, n);
    BlockStartMonotone(d + 1, n, total, n);
    BlockIsRange(total, n, d);
    DealRange(gs, Owners(total, n), n, d, BlockStart(d, total, n), BlockStart(d + 1, total, n));
  }

  lemma {:induction false} PlacedConcat<T>(gs: seq<seq<T>>, total: nat, n: nat, m: nat)
    requires n > 0 && |gs| == total && m <= n
    ensures BlockStart(m, total, n) <= total
    ensures Flatten(Placed(gs, total, n)[..m]) == Flatten(gs[..BlockStart(m, total, n)])
    decreases m
  {
    BlocksCover(total, n);
    BlockStartMonotone(m, n, total, n);
    if m > 0 {
      PlacedConcat(gs, total, n, m - 1);
      PlacedBlocks(gs, total, n, m - 1);
      ConcatStep(Placed(gs, total, n), gs, m, BlockStart(m - 1, total, n), BlockStart(m, total, n));
    }
  }

  /** One more list read, one more block of groups covered. */
  lemma ConcatStep<T>(p: seq<seq<T>>, gs: seq<seq<T>>, m: nat, a: nat, b: nat)
    requires 0 < m <= |p| && a <= b <= |gs|
    requires Flatten(p[..m - 1]) == Flatten(gs[..a]) && p[m - 1] == Flatten(gs[a..b])
    ensures Flatten(p[..m]) == Flatten(gs[..b])
  {
    assert p[..m] == p[..m - 1] + [p[m - 1]];
    FlattenSnoc(p[..m - 1], p[m - 1]);
    assert gs[..b] == gs[..a] + gs[a..b];
    FlattenAppend(gs[..a], gs[a..b]);
  }

  /** The designers' lists, read in designer order, are all the groups'
      files in sorted-group order: nothing is lost or repeated. */
  lemma PlacedFlatten<T>(gs: seq<seq<T>>, total: nat, n: nat)
    requires n > 0 && |gs| == total
    ensures Flatten(Placed(gs, total, n)) == Flatten(gs)
  {
    PlacedConcat(gs, total, n, n);
    BlocksCover(total, n);
    var p := Placed(gs, total, n);
    assert p[..n] == p;
    assert gs[..total] == gs;
  }
}
