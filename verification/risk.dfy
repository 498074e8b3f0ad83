/** The port-risk target shared by both port-risk scripts: the four tier counts
    of a trip's port visits, the derived risk score and its three-way class. */
module Risk {

  /** Port visits of one trip by outcome tier: no, low, medium and high risk. */
  datatype Tiers = Tiers(no: nat, low: nat, med: nat, high: nat)

  /** All port visits with a risk assessment (`n_total_to`). */
  function Total(t: Tiers): nat {
    t.no + t.low + t.med + t.high
  }

  /** A trip is observed when at least one of its port visits was assessed. */
  predicate Observed(t: Tiers) {
    Total(t) > 0
  }

  /** The regression target: low/3 + 2*med/3 + high - no, computed exactly. */
  function Score(t: Tiers): (r: real)
    ensures -(t.no as real) <= r <= (t.low + t.med + t.high) as real
    ensures t.no == 0 ==> r >= 0.0
  {
    (t.low as real) / 3.0 + 2.0 * (t.med as real) / 3.0 + t.high as real - t.no as real
  }

  /** The class boundaries `threshold = [0, 2]`. */
  const Low: real := 0.0
  const High: real := 2.0

  /** The three-way class of a score: below 0, in [0, 2), and 2 or more. */
  function Class(score: real): (c: nat)
    ensures c <= 2
    ensures c == 0 <==> score < Low
    ensures c == 1 <==> Low <= score < High
    ensures c == 2 <==> High <= score
  {
    if score < Low then 0 else if score < High then 1 else 2
  }

  /** A score column mapped to its class column, row by row. */
  function Classify(scores: seq<real>): (cs: seq<nat>)
    ensures |cs| == |scores|
    ensures forall i :: 0 <= i < |scores| ==> cs[i] == Class(scores[i])
  {
    if |scores| == 0 then [] else [Class(scores[0])] + Classify(scores[1..])
  }

  /** A higher score never gets a lower class. */
  lemma ClassMonotone(a: real, b: real)
    requires a <= b
    ensures Class(a) <= Class(b)
  {
  }

  /** More low, medium or high visits never lower the score; more
      no-risk visits never raise it. */
  lemma ScoreMonotone(t: Tiers, u: Tiers)
    requires t.low <= u.low && t.med <= u.med && t.high <= u.high && t.no >= u.no
    ensures Score(t) <= Score(u)
    ensures Class(Score(t)) <= Class(Score(u))
  {
    ClassMonotone(Score(t), Score(u));
  }

  /** A trip whose assessed visits are all no-risk is observed, scores
      minus its visit count, and lands in class 0. */
  lemma OnlyNoRisk(t: Tiers)
    requires t.low == 0 && t.med == 0 && t.high == 0 && t.no > 0
    ensures Observed(t)
    ensures Score(t) == -(t.no as real) < 0.0
    ensures Class(Score(t)) == 0
  {
  }
}
