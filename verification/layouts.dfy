/** The fixed column layouts of the two port-risk scripts' design matrices. */
module Layouts {
  import opened FeaturePairs

  // ---------------------------------------------------------------------
  // Transshipment: 5 time-at-sea, 5 carrier-flag, 5 with-flag, 8 with-class
  // and 2 loitering columns.

  const TransColumns: nat := 25

  /** is_tas, is_flag, with_flag, with_gear, loitering: the importance blocks. */
  const TransBlocks: seq<Block> := [Block(0, 5), Block(5, 10), Block(10, 15), Block(15, 23), Block(23, 25)]

  /** The effect classes: is_tas, is_flag, each with_* column on its own, loitering. */
  const TransClasses: seq<Block> := [
    Block(0, 5), Block(5, 10),
    Block(10, 11), Block(11, 12), Block(12, 13), Block(13, 14), Block(14, 15),
    Block(15, 16), Block(16, 17), Block(17, 18), Block(18, 19), Block(19, 20),
    Block(20, 21), Block(21, 22), Block(22, 23),
    Block(23, 25)]

  /** The mutually exclusive one-hot blocks: time at sea, carrier flag, loitering. */
  const TransExclusive: seq<Block> := [Block(0, 5), Block(5, 10), Block(23, 25)]

  /** Both block lists tile the 25 columns. */
  lemma TransTiling()
    ensures Tiling(TransBlocks, TransColumns) && Tiling(TransClasses, TransColumns)
  {
  }

  /** There are 5 * 6 / 2 = 15 importance block pairs and 16 * 17 / 2 = 136
      effect class pairs. */
  lemma TransPairCounts()
    ensures |Pairs(|TransBlocks|)| == 15 && |Pairs(|TransClasses|)| == 136
  {
    PairsSpec(5);
    PairsSpec(16);
  }

  /** The class labels are 0 five times, 1 five times, 2 to 14 once each and
      15 twice. */
  lemma TransLabels()
    ensures |Labels(TransClasses, TransColumns)| == 25
    ensures forall c :: 0 <= c < 5 ==> Labels(TransClasses, TransColumns)[c] == 0
    ensures forall c :: 5 <= c < 10 ==> Labels(TransClasses, TransColumns)[c] == 1
    ensures forall c :: 10 <= c < 23 ==> Labels(TransClasses, TransColumns)[c] == c - 8
    ensures forall c :: 23 <= c < 25 ==> Labels(TransClasses, TransColumns)[c] == 15
  {
    TransTiling();
    var x := Labels(TransClasses, TransColumns);
    forall c | 10 <= c < 23 ensures x[c] == c - 8 {
      assert TransClasses[c - 8] == Block(c, c + 1);
    }
  }

  /** Distinct pairs inside the time-at-sea, carrier-flag and loitering blocks
      are never candidates. */
  lemma TransExclusiveDropped(i: nat, j: nat, k: nat)
    requires k < |TransExclusive| && i < j && Contains(TransExclusive[k], i) && Contains(TransExclusive[k], j)
    ensures (i, j) !in ComboSet(TransColumns, TransExclusive)
  {
    ComboSetSpec(TransColumns, TransExclusive, (i, j));
  }

  /** Every diagonal pair, every pair across two importance blocks, and every
      pair inside the with-flag or with-class ranges is a candidate: the
      with_* columns 10 to 22 are never in a common exclusive block, so for
      instance (10, 14), (15, 22) and (3, 24) are all kept. */
  lemma TransKept(i: nat, j: nat)
    requires i <= j < TransColumns
    requires i == j || !(exists k :: 0 <= k < |TransExclusive| && Contains(TransExclusive[k], i) && Contains(TransExclusive[k], j))
    ensures (i, j) in ComboSet(TransColumns, TransExclusive)
  {
    ComboSetSpec(TransColumns, TransExclusive, (i, j));
  }

  /** Every off-diagonal transshipment candidate joins two different classes,
      so its class pair is an off-diagonal key of the effect table. */
  lemma TransOffDiagonal(p: (nat, nat))
    requires p in ComboSet(TransColumns, TransExclusive) && p.0 != p.1
    ensures (TransTiling(); ClassPair(TransClasses, TransColumns, p).0 < ClassPair(TransClasses, TransColumns, p).1)
  {
    TransTiling();
    forall k | 0 <= k < |TransClasses| && TransClasses[k].hi - TransClasses[k].lo > 1
      ensures TransClasses[k] in TransExclusive
    {
      assert k == 0 || k == 1 || k == 15;
    }
    OffDiagonalSpansClasses(TransClasses, TransExclusive, TransColumns, p);
  }

  // ---------------------------------------------------------------------
  // At sea: 5 flag-group, 9 vessel-class and 5 time-at-sea columns.

  const AtSeaColumns: nat := 19

  /** flag, gear, tas: the importance blocks, the effect classes and the
      exclusive blocks all at once. */
  const AtSeaBlocks: seq<Block> := [Block(0, 5), Block(5, 14), Block(14, 19)]

  /** The three blocks tile the 19 columns. */
  lemma AtSeaTiling()
    ensures Tiling(AtSeaBlocks, AtSeaColumns)
  {
  }

  /** The three blocks give 3 * 4 / 2 = 6 block pairs. */
  lemma AtSeaPairCount()
    ensures |Pairs(|AtSeaBlocks|)| == 6
  {
    PairsSpec(3);
  }

  /** The class labels are the 19-entry list: five flag, nine gear, five tas. */
  lemma AtSeaLabels()
    ensures |Labels(AtSeaBlocks, AtSeaColumns)| == 19
    ensures forall c :: 0 <= c < 5 ==> Labels(AtSeaBlocks, AtSeaColumns)[c] == 0
    ensures forall c :: 5 <= c < 14 ==> Labels(AtSeaBlocks, AtSeaColumns)[c] == 1
    ensures forall c :: 14 <= c < 19 ==> Labels(AtSeaBlocks, AtSeaColumns)[c] == 2
  {
    AtSeaTiling();
  }

  /** Every off-diagonal at-sea candidate spans two different blocks. */
  lemma AtSeaOffDiagonal(p: (nat, nat))
    requires p in ComboSet(AtSeaColumns, AtSeaBlocks) && p.0 != p.1
    ensures ClassPair(AtSeaBlocks, AtSeaColumns, p).0 < ClassPair(AtSeaBlocks, AtSeaColumns, p).1
  {
    AtSeaTiling();
    OffDiagonalSpansClasses(AtSeaBlocks, AtSeaBlocks, AtSeaColumns, p);
  }
}
