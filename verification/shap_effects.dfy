/** Summaries of SHAP interaction values over the observed samples. The
    interaction array (one features-by-features matrix per sample) and the
    model baseline are inputs; the statistics themselves (mean, standard
    deviation, standard error, quantiles) are not modelled: an emitted effect
    cell carries the sample values and the baseline they are computed from. */
module ShapEffects {
  import opened Wrappers
  import opened FeaturePairs

  /** One sample's interaction matrix over n features. */
  predicate IsMatrix(m: seq<seq<real>>, n: nat) {
    |m| == n && forall x :: 0 <= x < n ==> |m[x]| == n
  }

  predicate Fits(b: Block, n: nat) {
    b.lo <= b.hi <= n
  }

  /** row[lo] + ... + row[hi - 1]. */
  function RowSum(row: seq<real>, lo: nat, hi: nat): real
    requires lo <= hi <= |row|
    decreases hi - lo
  {
    if lo == hi then 0.0 else RowSum(row, lo, hi - 1) + row[hi - 1]
  }

  /** `shap_value[i, b1, b2].sum()`: the interaction mass between two blocks. */
  function BlockSum(m: seq<seq<real>>, n: nat, b1: Block, b2: Block): real
    requires IsMatrix(m, n) && Fits(b1, n) && Fits(b2, n)
    decreases b1.hi - b1.lo
  {
    if b1.lo == b1.hi then 0.0
    else BlockSum(m, n, Block(b1.lo, b1.hi - 1), b2) + RowSum(m[b1.hi - 1], b2.lo, b2.hi)
  }

  lemma {:induction false} RowSumSplit(row: seq<real>, lo: nat, mid: nat, hi: nat)
    requires lo <= mid <= hi <= |row|
    ensures RowSum(row, lo, hi) == RowSum(row, lo, mid) + RowSum(row, mid, hi)
    decreases hi - mid
  {
    if mid < hi {
      RowSumSplit(row, lo, mid, hi - 1);
    }
  }

  /** Splitting the first block splits the interaction mass. */
  lemma {:induction false} BlockSumSplitRows(m: seq<seq<real>>, n: nat, lo: nat, mid: nat, hi: nat, b: Block)
    requires IsMatrix(m, n) && lo <= mid <= hi <= n && Fits(b, n)
    ensures BlockSum(m, n, Block(lo, hi), b) == BlockSum(m, n, Block(lo, mid), b) + BlockSum(m, n, Block(mid, hi), b)
    decreases hi - mid
  {
    if mid < hi {
      BlockSumSplitRows(m, n, lo, mid, hi - 1, b);
    }
  }

  /** Splitting the second block splits the interaction mass. */
  lemma {:induction false} BlockSumSplitColumns(m: seq<seq<real>>, n: nat, b: Block, lo: nat, mid: nat, hi: nat)
    requires IsMatrix(m, n) && lo <= mid <= hi <= n && Fits(b, n)
    ensures BlockSum(m, n, b, Block(lo, hi)) == BlockSum(m, n, b, Block(lo, mid)) + BlockSum(m, n, b, Block(mid, hi))
    decreases b.hi - b.lo
  {
    if b.lo < b.hi {
      BlockSumSplitColumns(m, n, Block(b.lo, b.hi - 1), lo, mid, hi);
      RowSumSplit(m[b.hi - 1], lo, mid, hi);
    }
  }

  /** A one-column block pair is a single matrix entry, so a class made of one
      column (the with_* classes) reports that column's interaction itself. */
  lemma BlockSumSingle(m: seq<seq<real>>, n: nat, x: nat, y: nat)
    requires IsMatrix(m, n) && x < n && y < n
    ensures BlockSum(m, n, Block(x, x + 1), Block(y, y + 1)) == m[x][y]
  {
    assert BlockSum(m, n, Block(x, x), Block(y, y + 1)) == 0.0;
    assert RowSum(m[x], y, y + 1) == RowSum(m[x], y, y) + m[x][y];
  }

  /** One row of the importance or effect table: the interaction mass of
      every block pair with replacement, in enumeration order. */
  function PairSums(m: seq<seq<real>>, n: nat, blocks: seq<Block>): (r: seq<real>)
    requires IsMatrix(m, n) && Tiling(blocks, n)
    ensures |r| == |Pairs(|blocks|)|
    ensures forall t :: 0 <= t < |r| ==>
      Pairs(|blocks|)[t].0 <= Pairs(|blocks|)[t].1 < |blocks| &&
      r[t] == BlockSum(m, n, blocks[Pairs(|blocks|)[t].0], blocks[Pairs(|blocks|)[t].1])
  {
    PairsSpec(|blocks|);
    var ps := Pairs(|blocks|);
    seq(|ps|, t requires 0 <= t < |ps| => BlockSum(m, n, blocks[ps[t].0], blocks[ps[t].1]))
  }

  // ---------------------------------------------------------------------
  // The importance row accounts for all interaction mass

  /** SHAP interaction values split each interaction evenly between (a, b)
      and (b, a), so every interaction matrix is symmetric. */
  predicate Symmetric(m: seq<seq<real>>, n: nat)
    requires IsMatrix(m, n)
  {
    forall x, y :: 0 <= x < n && 0 <= y < n ==> m[x][y] == m[y][x]
  }

  /** In a symmetric matrix, a block's mass against one column is that
      column's row sum over the block. */
  lemma {:induction false} BlockSumColumn(m: seq<seq<real>>, n: nat, b: Block, y: nat)
    requires IsMatrix(m, n) && Symmetric(m, n) && Fits(b, n) && y < n
    ensures BlockSum(m, n, b, Block(y, y + 1)) == RowSum(m[y], b.lo, b.hi)
    decreases b.hi - b.lo
  {
    if b.lo < b.hi {
      BlockSumColumn(m, n, Block(b.lo, b.hi - 1), y);
      assert RowSum(m[b.hi - 1], y, y + 1) == RowSum(m[b.hi - 1], y, y) + m[b.hi - 1][y];
    }
  }

  /** In a symmetric matrix, the mass from b1 to b2 is the mass from b2 to b1. */
  lemma {:induction false} BlockSumSymmetric(m: seq<seq<real>>, n: nat, b1: Block, b2: Block)
    requires IsMatrix(m, n) && Symmetric(m, n) && Fits(b1, n) && Fits(b2, n)
    ensures BlockSum(m, n, b1, b2) == BlockSum(m, n, b2, b1)
    decreases b2.hi - b2.lo
  {
    if b2.lo < b2.hi {
      BlockSumSymmetric(m, n, b1, Block(b2.lo, b2.hi - 1));
      BlockSumSplitColumns(m, n, b1, b2.lo, b2.hi - 1, b2.hi);
      BlockSumColumn(m, n, b1, b2.hi - 1);
    } else {
      BlockSumSplitColumns(m, n, b1, b2.lo, b2.lo, b2.lo);
    }
  }

  /** Where block k of a tiling starts: the end of the blocks before it. */
  function Edge(blocks: seq<Block>, k: nat): nat
    requires k <= |blocks|
  {
    if k == 0 then 0 else blocks[k - 1].hi
  }

  lemma TilingEdges(blocks: seq<Block>, n: nat)
    requires Tiling(blocks, n)
    ensures forall k :: 0 <= k < |blocks| ==> blocks[k] == Block(Edge(blocks, k), Edge(blocks, k + 1))
    ensures forall k :: 0 <= k <= |blocks| ==> Edge(blocks, k) <= n
    ensures Edge(blocks, |blocks|) == n
  {
  }

  /** The interaction mass between blocks i and j. */
  function Mass(m: seq<seq<real>>, n: nat, blocks: seq<Block>, i: nat, j: nat): real
    requires IsMatrix(m, n) && Tiling(blocks, n) && i < |blocks| && j < |blocks|
  {
    BlockSum(m, n, blocks[i], blocks[j])
  }

  /** Mass(i, lo) + ... + Mass(i, hi - 1). */
  function RowMass(m: seq<seq<real>>, n: nat, blocks: seq<Block>, i: nat, lo: nat, hi: nat): real
    requires IsMatrix(m, n) && Tiling(blocks, n) && i < |blocks| && hi <= |blocks|
  {
    if hi <= lo then 0.0 else RowMass(m, n, blocks, i, lo, hi - 1) + Mass(m, n, blocks, i, hi - 1)
  }

  /** A row of masses peeled from the front. */
  lemma {:induction false} RowMassFront(m: seq<seq<real>>, n: nat, blocks: seq<Block>, i: nat, lo: nat, hi: nat)
    requires IsMatrix(m, n) && Tiling(blocks, n) && i < |blocks| && lo < hi <= |blocks|
    ensures RowMass(m, n, blocks, i, lo, hi) == Mass(m, n, blocks, i, lo) + RowMass(m, n, blocks, i, lo + 1, hi)
  {
    if lo + 1 < hi {
      RowMassFront(m, n, blocks, i, lo, hi - 1);
    }
  }

  /** Mass(0, j) + ... + Mass(c - 1, j). */
  function ColMass(m: seq<seq<real>>, n: nat, blocks: seq<Block>, c: nat, j: nat): real
    requires IsMatrix(m, n) && Tiling(blocks, n) && c <= |blocks| && j < |blocks|
  {
    if c == 0 then 0.0 else ColMass(m, n, blocks, c - 1, j) + Mass(m, n, blocks, c - 1, j)
  }

  /** The blocks before c together carry the mass of the columns before Edge(c). */
  lemma {:induction false} ColMassSpan(m: seq<seq<real>>, n: nat, blocks: seq<Block>, c: nat, j: nat)
    requires IsMatrix(m, n) && Tiling(blocks, n) && c <= |blocks| && j < |blocks|
    ensures Edge(blocks, c) <= n
    ensures ColMass(m, n, blocks, c, j) == BlockSum(m, n, Block(0, Edge(blocks, c)), blocks[j])
  {
    TilingEdges(blocks, n);
    if c > 0 {
      ColMassSpan(m, n, blocks, c - 1, j);
      BlockSumSplitRows(m, n, 0, Edge(blocks, c - 1), Edge(blocks, c), blocks[j]);
    }
  }

  /** The weighted mass of the block pairs (i, j) with i < c and i <= j < k:
      each diagonal pair once, each other pair twice. */
  function Upper(m: seq<seq<real>>, n: nat, blocks: seq<Block>, c: nat, k: nat): real
    requires IsMatrix(m, n) && Tiling(blocks, n) && c <= k <= |blocks|
  {
    if c == 0 then 0.0
    else Upper(m, n, blocks, c - 1, k) + Mass(m, n, blocks, c - 1, c - 1) + 2.0 * RowMass(m, n, blocks, c - 1, c, k)
  }

  /** One more block adds, for every earlier row block, twice its mass against the new block. */
  lemma {:induction false} UpperExtend(m: seq<seq<real>>, n: nat, blocks: seq<Block>, c: nat, k: nat)
    requires IsMatrix(m, n) && Tiling(blocks, n) && c <= k < |blocks|
    ensures Upper(m, n, blocks, c, k + 1) == Upper(m, n, blocks, c, k) + 2.0 * ColMass(m, n, blocks, c, k)
  {
    if c > 0 {
      UpperExtend(m, n, blocks, c - 1, k);
    }
  }

  /** The weighted mass of the pairs among the first k blocks is the whole
      mass of the square those blocks span. */
  lemma {:induction false} UpperIsSquare(m: seq<seq<real>>, n: nat, blocks: seq<Block>, k: nat)
    requires IsMatrix(m, n) && Symmetric(m, n) && Tiling(blocks, n) && k <= |blocks|
    ensures Edge(blocks, k) <= n
    ensures Upper(m, n, blocks, k, k) == BlockSum(m, n, Block(0, Edge(blocks, k)), Block(0, Edge(blocks, k)))
  {
    TilingEdges(blocks, n);
    if k > 0 {
      var c := k - 1;
      UpperIsSquare(m, n, blocks, c);
      UpperExtend(m, n, blocks, c, c);
      ColMassSpan(m, n, blocks, c, c);
      var p, q := Edge(blocks, c), Edge(blocks, k);
      assert blocks[c] == Block(p, q);
      BlockSumSplitRows(m, n, 0, p, q, Block(0, q));
      BlockSumSplitColumns(m, n, Block(0, p), 0, p, q);
      BlockSumSplitColumns(m, n, Block(p, q), 0, p, q);
      BlockSumSymmetric(m, n, Block(p, q), Block(0, p));
    }
  }

  /** The weight of a pair in the balance: 1 on the diagonal, 2 off it. */
  function Weight(p: (nat, nat)): real {
    if p.0 == p.1 then 1.0 else 2.0
  }

  /** The weighted mass of one block pair; a pair outside the blocks has none. */
  function PairValue(m: seq<seq<real>>, n: nat, blocks: seq<Block>, p: (nat, nat)): real
    requires IsMatrix(m, n) && Tiling(blocks, n)
  {
    if p.0 < |blocks| && p.1 < |blocks| then Weight(p) * Mass(m, n, blocks, p.0, p.1) else 0.0
  }

  /** The weighted mass of a list of block pairs. */
  function PairMass(m: seq<seq<real>>, n: nat, blocks: seq<Block>, ps: seq<(nat, nat)>): real
    requires IsMatrix(m, n) && Tiling(blocks, n)
  {
    if |ps| == 0 then 0.0 else PairValue(m, n, blocks, ps[0]) + PairMass(m, n, blocks, ps[1..])
  }

  lemma {:induction false} PairMassAppend(m: seq<seq<real>>, n: nat, blocks: seq<Block>, a: seq<(nat, nat)>, b: seq<(nat, nat)>)
    requires IsMatrix(m, n) && Tiling(blocks, n)
    ensures PairMass(m, n, blocks, a + b) == PairMass(m, n, blocks, a) + PairMass(m, n, blocks, b)
  {
    if |a| > 0 {
      PairMassAppend(m, n, blocks, a[1..], b);
      assert (a + b)[0] == a[0];
      assert (a + b)[1..] == a[1..] + b;
    } else {
      assert a + b == b;
    }
  }

  /** The pairs (i, j), ..., (i, k - 1) past the diagonal weigh twice their row mass. */
  lemma {:induction false} PairMassRow(m: seq<seq<real>>, n: nat, blocks: seq<Block>, i: nat, j: nat, k: nat)
    requires IsMatrix(m, n) && Tiling(blocks, n) && i < j <= k <= |blocks|
    ensures PairMass(m, n, blocks, PairRow(i, j, k)) == 2.0 * RowMass(m, n, blocks, i, j, k)
    decreases k - j
  {
    if j < k {
      PairMassRow(m, n, blocks, i, j + 1, k);
      RowMassFront(m, n, blocks, i, j, k);
      var row := PairRow(i, j, k);
      assert row[0] == (i, j) && row[1..] == PairRow(i, j + 1, k);
    }
  }

  /** The pairs with first block from c on make up the rest of the balance. */
  lemma {:induction false} PairMassFrom(m: seq<seq<real>>, n: nat, blocks: seq<Block>, c: nat, k: nat)
    requires IsMatrix(m, n) && Tiling(blocks, n) && c <= k <= |blocks|
    ensures PairMass(m, n, blocks, PairsFrom(c, k)) + Upper(m, n, blocks, c, k) == Upper(m, n, blocks, k, k)
    decreases k - c
  {
    if c < k {
      PairMassFrom(m, n, blocks, c + 1, k);
      PairMassRow(m, n, blocks, c, c + 1, k);
      var row := PairRow(c, c, k);
      assert row[0] == (c, c) && row[1..] == PairRow(c, c + 1, k);
      assert PairMass(m, n, blocks, row) == Mass(m, n, blocks, c, c) + 2.0 * RowMass(m, n, blocks, c, c + 1, k);
      PairMassAppend(m, n, blocks, row, PairsFrom(c + 1, k));
    }
  }

  /** The sum of weight(ps[t]) * r[t]: diagonal entries once, the others twice. */
  function Weighted(r: seq<real>, ps: seq<(nat, nat)>): real
    requires |r| == |ps|
  {
    if |r| == 0 then 0.0 else Weight(ps[0]) * r[0] + Weighted(r[1..], ps[1..])
  }

  lemma {:induction false} WeightedIsPairMass(m: seq<seq<real>>, n: nat, blocks: seq<Block>, r: seq<real>, ps: seq<(nat, nat)>)
    requires IsMatrix(m, n) && Tiling(blocks, n) && |r| == |ps|
    requires forall t :: 0 <= t < |ps| ==> ps[t].0 < |blocks| && ps[t].1 < |blocks|
    requires forall t :: 0 <= t < |r| ==> r[t] == Mass(m, n, blocks, ps[t].0, ps[t].1)
    ensures Weighted(r, ps) == PairMass(m, n, blocks, ps)
  {
    if |r| > 0 {
      WeightedIsPairMass(m, n, blocks, r[1..], ps[1..]);
    }
  }

  /** The importance row accounts for all interaction mass: the diagonal
      block pairs once and the others twice add up to the sum of every entry
      of the sample's interaction matrix. */
  lemma PairSumsBalance(m: seq<seq<real>>, n: nat, blocks: seq<Block>)
    requires IsMatrix(m, n) && Symmetric(m, n) && Tiling(blocks, n)
    ensures Weighted(PairSums(m, n, blocks), Pairs(|blocks|)) == BlockSum(m, n, Block(0, n), Block(0, n))
  {
    var k := |blocks|;
    PairMassFrom(m, n, blocks, 0, k);
    WeightedIsPairMass(m, n, blocks, PairSums(m, n, blocks), Pairs(k));
    UpperIsSquare(m, n, blocks, k);
    TilingEdges(blocks, n);
  }

  // ---------------------------------------------------------------------
  // Effect cells

  /** The observed design matrix: one 0/1 row of n columns per sample,
      with one interaction matrix per sample. */
  predicate Samples(x: seq<seq<nat>>, shap: seq<seq<seq<real>>>, n: nat) {
    |shap| == |x| && forall i :: 0 <= i < |x| ==> |x[i]| == n && IsMatrix(shap[i], n)
  }

  /** Both features of the pair are present (for a diagonal pair: the feature is). */
  predicate Active(row: seq<nat>, p: (nat, nat))
    requires p.0 < |row| && p.1 < |row|
  {
    row[p.0] == 1 && row[p.1] == 1
  }

  /** `true_idx`: the samples where the pair is active, in increasing order. */
  function Qualifying(x: seq<seq<nat>>, n: nat, p: (nat, nat)): (idx: seq<nat>)
    requires forall i :: 0 <= i < |x| ==> |x[i]| == n
    requires p.0 < n && p.1 < n
    ensures forall i: nat :: i in idx <==> i < |x| && Active(x[i], p)
    ensures forall a, b :: 0 <= a < b < |idx| ==> idx[a] < idx[b]
  {
    if |x| == 0 then []
    else
      var init := Qualifying(x[..|x| - 1], n, p);
      var last := |x| - 1;
      assert forall a :: 0 <= a < |init| ==> init[a] < last by {
        forall a | 0 <= a < |init| ensures init[a] < last {
          assert init[a] in init;
        }
      }
      if Active(x[last], p) then init + [last] else init
  }

  /** The quantity summarised for one sample: the class's diagonal mass for a
      solo feature; for a pair of classes a and b, (diag a + cross) + (diag b + cross). */
  function SampleValue(m: seq<seq<real>>, n: nat, classes: seq<Block>, p: (nat, nat)): (v: real)
    requires IsMatrix(m, n) && Tiling(classes, n) && p.0 <= p.1 < n
    ensures p.0 == p.1 ==>
      var a := classes[ClassOf(classes, n, p.0)];
      v == BlockSum(m, n, a, a)
    ensures p.0 != p.1 ==>
      var q := ClassPair(classes, n, p);
      v == BlockSum(m, n, classes[q.0], classes[q.0]) + BlockSum(m, n, classes[q.1], classes[q.1])
         + 2.0 * BlockSum(m, n, classes[q.0], classes[q.1])
  {
    var q := ClassPair(classes, n, p);
    var a := classes[q.0];
    var b := classes[q.1];
    if p.0 == p.1 then BlockSum(m, n, a, a)
    else (BlockSum(m, n, a, a) + BlockSum(m, n, a, b)) + (BlockSum(m, n, b, b) + BlockSum(m, n, a, b))
  }

  /** For columns that are classes of their own, the summarised value is the
      column's own interaction entries: m[c][c] for a solo column, and
      m[a][a] + m[b][b] + 2 m[a][b] for a pair. */
  lemma SingletonValue(m: seq<seq<real>>, n: nat, classes: seq<Block>, p: (nat, nat))
    requires IsMatrix(m, n) && Tiling(classes, n) && p.0 <= p.1 < n
    requires classes[ClassOf(classes, n, p.0)] == Block(p.0, p.0 + 1)
    requires classes[ClassOf(classes, n, p.1)] == Block(p.1, p.1 + 1)
    ensures p.0 == p.1 ==> SampleValue(m, n, classes, p) == m[p.0][p.0]
    ensures p.0 != p.1 ==> SampleValue(m, n, classes, p) == m[p.0][p.0] + m[p.1][p.1] + 2.0 * m[p.0][p.1]
  {
    var a, b := classes[ClassOf(classes, n, p.0)], classes[ClassOf(classes, n, p.1)];
    BlockSumSingle(m, n, p.0, p.0);
    BlockSumSingle(m, n, p.1, p.1);
    BlockSumSingle(m, n, p.0, p.1);
    if p.0 == p.1 {
      assert SampleValue(m, n, classes, p) == BlockSum(m, n, a, a);
    } else {
      assert SampleValue(m, n, classes, p) == BlockSum(m, n, a, a) + BlockSum(m, n, b, b) + 2.0 * BlockSum(m, n, a, b);
    }
  }

  /** One emitted row of the effect table, keyed by its column pair (a solo
      row by (c, c)); mean and quantiles are its values' plus `base`. */
  datatype EffectCell = EffectCell(key: (nat, nat), values: seq<real>, base: real)

  /** The values of the qualifying samples, in sample order (`bar[true_idx]`). */
  function CellValues(x: seq<seq<nat>>, shap: seq<seq<seq<real>>>, n: nat, classes: seq<Block>, p: (nat, nat)): (vs: seq<real>)
    requires Samples(x, shap, n) && Tiling(classes, n) && p.0 <= p.1 < n
    ensures |vs| == |Qualifying(x, n, p)|
    ensures forall t :: 0 <= t < |vs| ==>
      Qualifying(x, n, p)[t] < |x| && vs[t] == SampleValue(shap[Qualifying(x, n, p)[t]], n, classes, p)
  {
    var idx := Qualifying(x, n, p);
    assert forall t :: 0 <= t < |idx| ==> idx[t] in idx;
    seq(|idx|, t requires 0 <= t < |idx| => SampleValue(shap[idx[t]], n, classes, p))
  }

  /** One cell: `None` stands for the row of NaNs written when at most one
      sample qualifies. */
  function Cell(x: seq<seq<nat>>, shap: seq<seq<seq<real>>>, n: nat, classes: seq<Block>, p: (nat, nat), base: real): (c: Option<EffectCell>)
    requires Samples(x, shap, n) && Tiling(classes, n) && p.0 <= p.1 < n
    ensures c.Some? <==> |Qualifying(x, n, p)| > 1
    ensures c.Some? ==> c.value.key == p && c.value.base == base && |c.value.values| > 1
  {
    var vs := CellValues(x, shap, n, classes, p);
    if |vs| > 1 then Some(EffectCell(p, vs, base)) else None
  }

  /** The pairs of `combo` are ordered column pairs within range. */
  predicate Candidates(combo: seq<(nat, nat)>, n: nat) {
    forall k :: 0 <= k < |combo| ==> combo[k].0 <= combo[k].1 < n
  }

  /** The cells of the listed `combo` indices after `dropna`. */
  function Summarize(x: seq<seq<nat>>, shap: seq<seq<seq<real>>>, n: nat, classes: seq<Block>,
                     combo: seq<(nat, nat)>, idx: seq<nat>, base: real): (out: seq<EffectCell>)
    requires Samples(x, shap, n) && Tiling(classes, n) && Candidates(combo, n)
    requires forall t :: 0 <= t < |idx| ==> idx[t] < |combo|
    ensures forall c :: c in out ==>
      exists t :: 0 <= t < |idx| && c.key == combo[idx[t]] && Cell(x, shap, n, classes, combo[idx[t]], base) == Some(c)
    ensures forall t :: 0 <= t < |idx| && |Qualifying(x, n, combo[idx[t]])| > 1 ==>
      Cell(x, shap, n, classes, combo[idx[t]], base).value in out
  {
    if |idx| == 0 then []
    else
      var rest := Summarize(x, shap, n, classes, combo, idx[1..], base);
      assert forall t :: 1 <= t < |idx| ==> idx[t] == idx[1..][t - 1];
      assert forall t :: 0 <= t < |idx| - 1 ==> idx[1..][t] == idx[t + 1];
      match Cell(x, shap, n, classes, combo[idx[0]], base)
      case None => rest
      case Some(c) => [c] + rest
  }

  /** `pd.concat([solo_effect, combo_effect])`. */
  function Effect(x: seq<seq<nat>>, shap: seq<seq<seq<real>>>, n: nat, classes: seq<Block>,
                  combo: seq<(nat, nat)>, base: real): (out: seq<EffectCell>)
    requires Samples(x, shap, n) && Tiling(classes, n) && Candidates(combo, n)
  {
    Summarize(x, shap, n, classes, combo, IndicesWhere(combo, true), base)
    + Summarize(x, shap, n, classes, combo, IndicesWhere(combo, false), base)
  }

  /** The summaries of some indices hold a cell for pair p exactly when one
      of the indices lists p and more than one sample qualifies for it. */
  lemma SummarizeSpec(x: seq<seq<nat>>, shap: seq<seq<seq<real>>>, n: nat, classes: seq<Block>,
                      combo: seq<(nat, nat)>, idx: seq<nat>, base: real, p: (nat, nat))
    requires Samples(x, shap, n) && Tiling(classes, n) && Candidates(combo, n)
    requires forall t :: 0 <= t < |idx| ==> idx[t] < |combo|
    requires p.0 <= p.1 < n
    ensures (exists c :: c in Summarize(x, shap, n, classes, combo, idx, base) && c.key == p) <==>
      (exists t :: 0 <= t < |idx| && combo[idx[t]] == p) && |Qualifying(x, n, p)| > 1
    ensures forall c :: c in Summarize(x, shap, n, classes, combo, idx, base) && c.key == p ==>
      c.values == CellValues(x, shap, n, classes, p) && c.base == base
  {
    var out := Summarize(x, shap, n, classes, combo, idx, base);
    if (exists t :: 0 <= t < |idx| && combo[idx[t]] == p) && |Qualifying(x, n, p)| > 1 {
      var t :| 0 <= t < |idx| && combo[idx[t]] == p;
      assert Cell(x, shap, n, classes, p, base).value in out;
    }
  }

  /** A cell is emitted for a candidate pair exactly when more than one sample
      has the feature (or both features) present; it then holds the values of
      exactly those samples. */
  lemma EffectEmitted(x: seq<seq<nat>>, shap: seq<seq<seq<real>>>, n: nat, classes: seq<Block>,
                      combo: seq<(nat, nat)>, base: real, p: (nat, nat))
    requires Samples(x, shap, n) && Tiling(classes, n) && Candidates(combo, n)
    requires p in combo
    ensures (exists c :: c in Effect(x, shap, n, classes, combo, base) && c.key == p) <==>
      |Qualifying(x, n, p)| > 1
    ensures forall c :: c in Effect(x, shap, n, classes, combo, base) && c.key == p ==>
      c.values == CellValues(x, shap, n, classes, p) && c.base == base
  {
    var k :| 0 <= k < |combo| && combo[k] == p;
    var solo := IndicesWhere(combo, true);
    var pairs := IndicesWhere(combo, false);
    SummarizeSpec(x, shap, n, classes, combo, solo, base, p);
    SummarizeSpec(x, shap, n, classes, combo, pairs, base, p);
    if p.0 == p.1 {
      assert k in solo;
    } else {
      assert k in pairs;
    }
  }

  /** Every emitted value comes from a sample in which the feature, or both
      features, are present. */
  lemma EffectValuesFromActiveSamples(x: seq<seq<nat>>, shap: seq<seq<seq<real>>>, n: nat, classes: seq<Block>,
                                      p: (nat, nat), t: nat)
    requires Samples(x, shap, n) && Tiling(classes, n) && p.0 <= p.1 < n
    requires t < |CellValues(x, shap, n, classes, p)|
    ensures Qualifying(x, n, p)[t] < |x| && Active(x[Qualifying(x, n, p)[t]], p)
  {
    var idx := Qualifying(x, n, p);
    assert idx[t] in idx;
  }
}
