/** Column blocks of the encoded design matrix and the feature pairs whose
    SHAP interaction effects are summarised: pairs with replacement
    (`itertools.combinations_with_replacement`), the candidate set `combo`
    that leaves out distinct pairs inside a mutually exclusive one-hot block,
    the column-to-class map `combo2`, and the solo/combo index split. */
module FeaturePairs {

  /** A half-open column range, `slice(lo, hi, 1)`. */
  datatype Block = Block(lo: nat, hi: nat)

  predicate Contains(b: Block, c: nat) {
    b.lo <= c < b.hi
  }

  /** The blocks cover columns [0, n) in order, contiguous, disjoint, none empty. */
  predicate Tiling(blocks: seq<Block>, n: nat) {
    && |blocks| > 0
    && blocks[0].lo == 0
    && blocks[|blocks| - 1].hi == n
    && (forall k :: 0 <= k < |blocks| ==> blocks[k].lo < blocks[k].hi <= n)
    && (forall k :: 0 < k < |blocks| ==> blocks[k - 1].hi == blocks[k].lo)
  }

  /** An earlier block of a tiling ends before a later one starts. */
  lemma {:induction false} TilingOrdered(blocks: seq<Block>, n: nat, j: nat, k: nat)
    requires Tiling(blocks, n)
    requires j < k < |blocks|
    ensures blocks[j].hi <= blocks[k].lo
    decreases k - j
  {
    if j + 1 < k {
      TilingOrdered(blocks, n, j + 1, k);
      assert blocks[j].hi == blocks[j + 1].lo < blocks[j + 1].hi;
    } else {
      assert blocks[k - 1].hi == blocks[k].lo;
    }
  }

  /** The first block, at or after `from`, that contains column `c`. */
  function FindBlock(blocks: seq<Block>, n: nat, c: nat, from: nat): (k: nat)
    requires Tiling(blocks, n) && c < n
    requires from < |blocks| && blocks[from].lo <= c
    ensures from <= k < |blocks| && Contains(blocks[k], c)
    decreases |blocks| - from
  {
    if c < blocks[from].hi || from + 1 == |blocks| then from
    else FindBlock(blocks, n, c, from + 1)
  }

  /** The block (class) of a column: the source's class label list `x`. */
  function ClassOf(blocks: seq<Block>, n: nat, c: nat): (k: nat)
    requires Tiling(blocks, n) && c < n
    ensures k < |blocks| && Contains(blocks[k], c)
    ensures forall j :: 0 <= j < |blocks| && Contains(blocks[j], c) ==> j == k
  {
    var k := FindBlock(blocks, n, c, 0);
    forall j | 0 <= j < |blocks| && Contains(blocks[j], c) ensures j == k {
      if j < k { TilingOrdered(blocks, n, j, k); }
      if k < j { TilingOrdered(blocks, n, k, j); }
    }
    k
  }

  /** The per-column class labels, the list `x` of the scripts: column c
      carries label k exactly when block k contains c. */
  function Labels(blocks: seq<Block>, n: nat): (x: seq<nat>)
    requires Tiling(blocks, n)
    ensures |x| == n
    ensures forall c, k :: 0 <= c < n && 0 <= k < |blocks| ==> (x[c] == k <==> Contains(blocks[k], c))
  {
    seq(n, c requires 0 <= c < n => ClassOf(blocks, n, c))
  }

  /** Class labels never decrease along the columns. */
  lemma ClassOfMonotone(blocks: seq<Block>, n: nat, c1: nat, c2: nat)
    requires Tiling(blocks, n) && c1 <= c2 < n
    ensures ClassOf(blocks, n, c1) <= ClassOf(blocks, n, c2)
  {
    var k1 := ClassOf(blocks, n, c1);
    var k2 := ClassOf(blocks, n, c2);
    if k2 < k1 {
      TilingOrdered(blocks, n, k2, k1);
    }
  }

  // ---------------------------------------------------------------------
  // Pairs with replacement

  /** (i, j), (i, j + 1), ..., (i, n - 1). */
  function PairRow(i: nat, j: nat, n: nat): (r: seq<(nat, nat)>)
    ensures forall p :: p in r <==> p.0 == i && j <= p.1 < n
    ensures |r| == if j <= n then n - j else 0
    decreases n - j
  {
    if j >= n then [] else [(i, j)] + PairRow(i, j + 1, n)
  }

  /** `combinations_with_replacement(range(i, n), 2)` in its own order. */
  function PairsFrom(i: nat, n: nat): (r: seq<(nat, nat)>)
    ensures forall p :: p in r <==> i <= p.0 <= p.1 < n
    decreases n - i
  {
    if i >= n then [] else PairRow(i, i, n) + PairsFrom(i + 1, n)
  }

  /** All pairs (i, j) with i <= j < n. */
  function Pairs(n: nat): seq<(nat, nat)> {
    PairsFrom(0, n)
  }

  /** Lexicographic order on pairs. */
  predicate LexLess(p: (nat, nat), q: (nat, nat)) {
    p.0 < q.0 || (p.0 == q.0 && p.1 < q.1)
  }

  predicate LexSorted(s: seq<(nat, nat)>) {
    forall a, b :: 0 <= a < b < |s| ==> LexLess(s[a], s[b])
  }

  lemma {:induction false} PairRowSorted(i: nat, j: nat, n: nat)
    ensures LexSorted(PairRow(i, j, n))
    decreases n - j
  {
    if j < n {
      PairRowSorted(i, j + 1, n);
      var r := PairRow(i, j, n);
      forall a, b | 0 <= a < b < |r| ensures LexLess(r[a], r[b]) {
        if a > 0 {
          assert r[a] == PairRow(i, j + 1, n)[a - 1] && r[b] == PairRow(i, j + 1, n)[b - 1];
        } else {
          assert r[b] in PairRow(i, j + 1, n);
        }
      }
    }
  }

  /** The enumeration is strictly increasing, hence lists every pair once. */
  lemma {:induction false} PairsFromSorted(i: nat, n: nat)
    ensures LexSorted(PairsFrom(i, n))
    decreases n - i
  {
    if i < n {
      PairRowSorted(i, i, n);
      PairsFromSorted(i + 1, n);
      var row := PairRow(i, i, n);
      var rest := PairsFrom(i + 1, n);
      var r := row + rest;
      forall a, b | 0 <= a < b < |r| ensures LexLess(r[a], r[b]) {
        if b < |row| {
          assert r[a] == row[a] && r[b] == row[b];
        } else if a >= |row| {
          assert r[a] == rest[a - |row|] && r[b] == rest[b - |row|];
        } else {
          assert r[a] == row[a] && r[a] in row;
          assert r[b] == rest[b - |row|] && r[b] in rest;
        }
      }
    }
  }

  /** 0 + 1 + ... + k. */
  function Triangle(k: nat): nat {
    if k == 0 then 0 else k + Triangle(k - 1)
  }

  /** Twice the k-th triangle number is k(k+1). */
  lemma {:induction false} TriangleClosed(k: nat)
    ensures 2 * Triangle(k) == k * (k + 1)
  {
    if k > 0 {
      TriangleClosed(k - 1);
      assert (k - 1) * k + 2 * k == k * (k + 1);
    }
  }

  /** Rows of n - i, n - i - 1, ..., 1 pairs: a triangle number of them. */
  lemma {:induction false} PairsFromCount(i: nat, n: nat)
    requires i <= n
    ensures |PairsFrom(i, n)| == Triangle(n - i)
    decreases n - i
  {
    if i < n {
      PairsFromCount(i + 1, n);
      assert PairsFrom(i, n) == PairRow(i, i, n) + PairsFrom(i + 1, n);
    }
  }

  /** Pairs(n) lists exactly the pairs i <= j < n, each once, n(n+1)/2 of them. */
  lemma PairsSpec(n: nat)
    ensures forall p :: p in Pairs(n) <==> p.0 <= p.1 < n
    ensures LexSorted(Pairs(n))
    ensures 2 * |Pairs(n)| == n * (n + 1)
  {
    PairsFromSorted(0, n);
    PairsFromCount(0, n);
    TriangleClosed(n);
  }

  // ---------------------------------------------------------------------
  // The candidate pairs `combo`

  /** `combinations(columns[b], 2)`: the distinct pairs inside one block. */
  function WithinPairs(b: Block): (r: set<(nat, nat)>)
    ensures forall p :: p in r <==> b.lo <= p.0 < p.1 < b.hi
  {
    set i: nat, j: nat | b.lo <= i < j < b.hi :: (i, j)
  }

  /** `set(b1 + b2 + b3)`: the distinct pairs inside any of the exclusive blocks. */
  function WithinAll(exclusive: seq<Block>): (r: set<(nat, nat)>)
    ensures forall p :: p in r <==> exists k :: 0 <= k < |exclusive| && p in WithinPairs(exclusive[k])
  {
    if |exclusive| == 0 then {}
    else
      var rest := WithinAll(exclusive[1..]);
      assert forall k :: 1 <= k < |exclusive| ==> exclusive[k] == exclusive[1..][k - 1];
      assert forall k :: 0 <= k < |exclusive| - 1 ==> exclusive[1..][k] == exclusive[k + 1];
      WithinPairs(exclusive[0]) + rest
  }

  /** `set(a)`: the pairs with replacement of n columns, as a set. */
  function AllPairs(n: nat): (r: set<(nat, nat)>)
    ensures forall p :: p in r <==> p.0 <= p.1 < n
  {
    set i: nat, j: nat | i <= j < n :: (i, j)
  }

  /** The set holds exactly the enumerated pairs. */
  lemma AllPairsListed(n: nat)
    ensures forall p :: p in AllPairs(n) <==> p in Pairs(n)
  {
    PairsSpec(n);
  }

  /** `set(a).difference(set(b1 + b2 + b3))` over n columns. */
  function ComboSet(n: nat, exclusive: seq<Block>): set<(nat, nat)> {
    AllPairs(n) - WithinAll(exclusive)
  }

  /** Two distinct columns of one exclusive block can never both be 1. */
  predicate Excluded(p: (nat, nat), exclusive: seq<Block>) {
    p.0 != p.1 && exists k :: 0 <= k < |exclusive| && Contains(exclusive[k], p.0) && Contains(exclusive[k], p.1)
  }

  /** A pair is a candidate iff it is ordered, in range, and not two distinct
      columns of one exclusive block. */
  lemma ComboSetSpec(n: nat, exclusive: seq<Block>, p: (nat, nat))
    ensures p in ComboSet(n, exclusive) <==> p.0 <= p.1 < n && !Excluded(p, exclusive)
  {
  }

  /** Every diagonal pair is a candidate. */
  lemma DiagonalKept(n: nat, exclusive: seq<Block>, c: nat)
    requires c < n
    ensures (c, c) in ComboSet(n, exclusive)
  {
    ComboSetSpec(n, exclusive, (c, c));
  }

  /** A pair of distinct columns that no exclusive block holds together is a candidate. */
  lemma CrossPairKept(n: nat, exclusive: seq<Block>, i: nat, j: nat)
    requires i < j < n
    requires forall k :: 0 <= k < |exclusive| ==> !(Contains(exclusive[k], i) && Contains(exclusive[k], j))
    ensures (i, j) in ComboSet(n, exclusive)
  {
    ComboSetSpec(n, exclusive, (i, j));
  }

  /** `list(set(...))`: some listing of the candidate set, each pair once. */
  ghost predicate Lists(combo: seq<(nat, nat)>, s: set<(nat, nat)>) {
    (forall a, b :: 0 <= a < b < |combo| ==> combo[a] != combo[b])
    && (forall p :: p in combo <==> p in s)
  }

  /** Keep the pairs that are not excluded, in order. */
  function DropExcluded(ps: seq<(nat, nat)>, exclusive: seq<Block>): (r: seq<(nat, nat)>)
    ensures forall p :: p in r <==> p in ps && !Excluded(p, exclusive)
    ensures LexSorted(ps) ==> LexSorted(r)
  {
    if |ps| == 0 then []
    else
      var rest := DropExcluded(ps[1..], exclusive);
      assert forall p :: p in ps <==> p == ps[0] || p in ps[1..];
      assert LexSorted(ps) ==> LexSorted(ps[1..]);
      assert LexSorted(ps) ==> forall q :: q in rest ==> LexLess(ps[0], q);
      if Excluded(ps[0], exclusive) then rest else [ps[0]] + rest
  }

  /** One concrete listing of `combo`: the candidates in enumeration order. */
  function ComboList(n: nat, exclusive: seq<Block>): (combo: seq<(nat, nat)>)
    ensures Lists(combo, ComboSet(n, exclusive))
  {
    PairsSpec(n);
    var combo := DropExcluded(Pairs(n), exclusive);
    forall p ensures p in combo <==> p in ComboSet(n, exclusive) {
      ComboSetSpec(n, exclusive, p);
    }
    assert forall a, b :: 0 <= a < b < |combo| ==> LexLess(combo[a], combo[b]);
    combo
  }

  // ---------------------------------------------------------------------
  // Class pairs (`combo2`) and the solo / combo split

  /** `combo2`: the class pair of a candidate column pair. */
  function ClassPair(classes: seq<Block>, n: nat, p: (nat, nat)): (q: (nat, nat))
    requires Tiling(classes, n) && p.0 <= p.1 < n
    ensures q in Pairs(|classes|)
  {
    ClassOfMonotone(classes, n, p.0, p.1);
    PairsSpec(|classes|);
    (ClassOf(classes, n, p.0), ClassOf(classes, n, p.1))
  }

  /** When every class wider than one column is exclusive, the two columns of
      an off-diagonal candidate always belong to two different classes. */
  lemma OffDiagonalSpansClasses(classes: seq<Block>, exclusive: seq<Block>, n: nat, p: (nat, nat))
    requires Tiling(classes, n)
    requires forall k :: 0 <= k < |classes| && classes[k].hi - classes[k].lo > 1 ==> classes[k] in exclusive
    requires p in ComboSet(n, exclusive) && p.0 != p.1
    ensures ClassPair(classes, n, p).0 < ClassPair(classes, n, p).1
  {
    ComboSetSpec(n, exclusive, p);
    var k1 := ClassOf(classes, n, p.0);
    var k2 := ClassOf(classes, n, p.1);
    ClassOfMonotone(classes, n, p.0, p.1);
  }

  /** `np.where(...)[0]`: the indices of `combo` whose pair is diagonal
      (`solo` true) or off-diagonal (`solo` false), in increasing order. */
  function IndicesWhere(combo: seq<(nat, nat)>, solo: bool): (idx: seq<nat>)
    ensures forall k: nat :: k in idx <==> k < |combo| && (combo[k].0 == combo[k].1) == solo
    ensures forall t :: 0 <= t < |idx| ==> idx[t] < |combo|
    ensures forall a, b :: 0 <= a < b < |idx| ==> idx[a] < idx[b]
  {
    if |combo| == 0 then []
    else
      var init := IndicesWhere(combo[..|combo| - 1], solo);
      var last := |combo| - 1;
      assert forall a :: 0 <= a < |init| ==> init[a] in init && init[a] < last;
      if (combo[last].0 == combo[last].1) == solo then init + [last] else init
  }

  /** `solo_idx` and `combo_idx` split the indices of `combo` between them. */
  lemma SoloComboPartition(combo: seq<(nat, nat)>, k: nat)
    requires k < |combo|
    ensures (k in IndicesWhere(combo, true)) != (k in IndicesWhere(combo, false))
    ensures k in IndicesWhere(combo, true) <==> combo[k].0 == combo[k].1
  {
  }
}
