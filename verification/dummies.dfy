/** Indicator ("dummy") columns: one-hot encoding of a categorical value and
    the collapse of a count to presence. */
module Dummies {
  import opened Seqs

  /** One indicator column per category: 1 where the value equals that category. */
  function OneHot(v: string, cats: seq<string>): (r: seq<nat>)
    ensures |r| == |cats|
    ensures forall i :: 0 <= i < |cats| ==> r[i] <= 1 && (r[i] == 1 <==> cats[i] == v)
  {
    if |cats| == 0 then []
    else OneHot(v, cats[..|cats| - 1]) + [if cats[|cats| - 1] == v then 1 else 0]
  }

  lemma {:induction false} OneHotSum(v: string, cats: seq<string>)
    ensures Sum(OneHot(v, cats)) == multiset(cats)[v]
  {
    if |cats| > 0 {
      var init := cats[..|cats| - 1];
      assert cats == init + [cats[|cats| - 1]];
      assert OneHot(v, cats)[..|cats| - 1] == OneHot(v, init);
      OneHotSum(v, init);
    }
  }

  lemma {:induction false} SingleOccurrence(v: string, cats: seq<string>)
    requires NoDups(cats) && v in cats
    ensures multiset(cats)[v] == 1
  {
    var k := FirstIndex(cats, v);
    assert cats == cats[..k] + [v] + cats[k + 1..];
    assert v !in cats[k + 1..] by {
      forall j | k + 1 <= j < |cats| ensures cats[j] != v {
        assert cats[k] == v;
      }
    }
  }

  /** A value of a distinct category list lights exactly one of its columns. */
  lemma OneHotExactlyOne(v: string, cats: seq<string>)
    requires NoDups(cats) && v in cats
    ensures Sum(OneHot(v, cats)) == 1
    ensures exists i :: (0 <= i < |cats| && OneHot(v, cats)[i] == 1 &&
      forall j :: 0 <= j < |cats| && j != i ==> OneHot(v, cats)[j] == 0)
  {
    OneHotSum(v, cats);
    SingleOccurrence(v, cats);
    var i := FirstIndex(cats, v);
    assert OneHot(v, cats)[i] == 1;
  }

  /** `(n > 0) * 1`: a count collapsed to presence. */
  function Indicator(n: nat): (b: nat)
    ensures b <= 1 && (b == 1 <==> n > 0)
  {
    if n > 0 then 1 else 0
  }
}
