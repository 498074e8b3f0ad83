/** Splitting trips into an observed set (at least one assessed port visit,
    scored from its tier counts) and a to-predict set (scored by the fitted
    model), and attaching the three-way risk class to every scored row. The
    fitted model is a parameter: a prediction for each encoded trip. */
module TripSplit {
  import opened Wrappers
  import opened Risk
  import opened TripEncoding

  /** Where a row's score comes from: the tier counts, or the model. */
  datatype Kind = Obs | Pred

  /** A trip with its risk score. */
  datatype ScoredTrip = ScoredTrip(trip: string, score: real, kind: Kind)

  /** A scored row with its class column. */
  datatype ClassifiedTrip = ClassifiedTrip(trip: string, score: real, kind: Kind, riskClass: nat)

  /** A located record (an encounter or a loitering event) of some trip. */
  datatype Point = Point(trip: string, lon: real, lat: real)

  /** A located record with the risk of its trip. */
  datatype PlacedPoint = PlacedPoint(trip: string, lon: real, lat: real, score: real, riskClass: nat)

  // ---------------------------------------------------------------------
  // Transshipment trips

  /** `foo[n_total_to > 0]` and `foo.drop(obs.index)`: the observed trips and the rest. */
  function SplitObserved(t: seq<EncodedTrip>): (r: (seq<EncodedTrip>, seq<EncodedTrip>))
    ensures forall x :: x in r.0 <==> x in t && Observed(x.tiers)
    ensures forall x :: x in r.1 <==> x in t && !Observed(x.tiers)
  {
    if |t| == 0 then ([], [])
    else
      var rest := SplitObserved(t[1..]);
      assert forall x :: x in t <==> x == t[0] || x in t[1..];
      if Observed(t[0].tiers) then ([t[0]] + rest.0, rest.1) else (rest.0, [t[0]] + rest.1)
  }

  /** Together the two sets hold every trip exactly as often as the table does. */
  lemma {:induction false} SplitObservedPartition(t: seq<EncodedTrip>)
    ensures multiset(SplitObserved(t).0) + multiset(SplitObserved(t).1) == multiset(t)
    ensures |SplitObserved(t).0| + |SplitObserved(t).1| == |t|
  {
    if |t| > 0 {
      SplitObservedPartition(t[1..]);
      assert t == [t[0]] + t[1..];
    }
  }

  /** How a single trip is scored: exactly from its tiers when observed,
      otherwise by the model applied to its feature columns. */
  function ScoreTrip(x: EncodedTrip, predict: seq<nat> -> real): (s: ScoredTrip)
    ensures s.trip == x.trip
    ensures s.kind == Obs <==> Observed(x.tiers)
    ensures Observed(x.tiers) ==> s.score == Score(x.tiers)
    ensures !Observed(x.tiers) ==> s.score == predict(x.features.Columns())
  {
    if Observed(x.tiers) then ScoredTrip(x.trip, Score(x.tiers), Obs)
    else ScoredTrip(x.trip, predict(x.features.Columns()), Pred)
  }

  function ScoreAll(t: seq<EncodedTrip>, predict: seq<nat> -> real): (r: seq<ScoredTrip>)
    ensures |r| == |t| && forall k :: 0 <= k < |t| ==> r[k] == ScoreTrip(t[k], predict)
  {
    if |t| == 0 then [] else [ScoreTrip(t[0], predict)] + ScoreAll(t[1..], predict)
  }

  /** `pd.concat([obs, bar])`: observed rows first, then predicted rows. */
  function Combine(t: seq<EncodedTrip>, predict: seq<nat> -> real): (r: seq<ScoredTrip>)
  {
    var parts := SplitObserved(t);
    ScoreAll(parts.0, predict) + ScoreAll(parts.1, predict)
  }

  lemma {:induction false} CombinePermutes(t: seq<EncodedTrip>, predict: seq<nat> -> real)
    ensures multiset(ScoreAll(SplitObserved(t).0, predict)) + multiset(ScoreAll(SplitObserved(t).1, predict))
         == multiset(ScoreAll(t, predict))
  {
    if |t| > 0 {
      CombinePermutes(t[1..], predict);
      var rest := SplitObserved(t[1..]);
      var head := ScoreTrip(t[0], predict);
      var m0, m1 := multiset(ScoreAll(rest.0, predict)), multiset(ScoreAll(rest.1, predict));
      assert multiset(ScoreAll(t, predict)) == multiset{head} + m0 + m1 by {
        assert ScoreAll(t, predict) == [head] + ScoreAll(t[1..], predict);
      }
      if Observed(t[0].tiers) {
        assert SplitObserved(t) == ([t[0]] + rest.0, rest.1);
        assert ScoreAll([t[0]] + rest.0, predict) == [head] + ScoreAll(rest.0, predict);
        assert multiset(ScoreAll([t[0]] + rest.0, predict)) == multiset{head} + m0;
      } else {
        assert SplitObserved(t) == (rest.0, [t[0]] + rest.1);
        assert ScoreAll([t[0]] + rest.1, predict) == [head] + ScoreAll(rest.1, predict);
        assert multiset(ScoreAll([t[0]] + rest.1, predict)) == multiset{head} + m1;
      }
    }
  }

  /** The combined table is a reordering of the trips, each scored by its own
      rule, so no trip is lost, duplicated or scored by the wrong rule. */
  lemma CombineIsPartition(t: seq<EncodedTrip>, predict: seq<nat> -> real)
    ensures multiset(Combine(t, predict)) == multiset(ScoreAll(t, predict))
    ensures |Combine(t, predict)| == |t|
    ensures forall x :: x in t ==> ScoreTrip(x, predict) in Combine(t, predict)
  {
    CombinePermutes(t, predict);
    SplitObservedPartition(t);
    var c := Combine(t, predict);
    forall x | x in t ensures ScoreTrip(x, predict) in c {
      var k :| 0 <= k < |t| && t[k] == x;
      assert ScoreAll(t, predict)[k] == ScoreTrip(x, predict);
      assert ScoreTrip(x, predict) in multiset(c);
    }
  }

  /** The combined table holds exactly the scored trips: an observed trip
      with its exact tier score, any other trip with the model's prediction. */
  lemma CombineScores(t: seq<EncodedTrip>, predict: seq<nat> -> real)
    ensures forall s :: s in Combine(t, predict) <==> exists x :: x in t && s == ScoreTrip(x, predict)
    ensures forall x :: x in t && Observed(x.tiers) ==> ScoredTrip(x.trip, Score(x.tiers), Obs) in Combine(t, predict)
    ensures forall x :: x in t && !Observed(x.tiers) ==>
      ScoredTrip(x.trip, predict(x.features.Columns()), Pred) in Combine(t, predict)
  {
    CombineIsPartition(t, predict);
    var c := Combine(t, predict);
    var all := ScoreAll(t, predict);
    forall s | s in c ensures exists x :: x in t && s == ScoreTrip(x, predict) {
      assert s in multiset(all);
      var k :| 0 <= k < |all| && all[k] == s;
      assert t[k] in t;
    }
  }

  /** In the combined table the observed rows come first. */
  lemma CombineObservedFirst(t: seq<EncodedTrip>, predict: seq<nat> -> real, k: nat)
    requires k < |Combine(t, predict)|
    ensures Combine(t, predict)[k].kind == Obs <==> k < |SplitObserved(t).0|
  {
    var parts := SplitObserved(t);
    var a := ScoreAll(parts.0, predict);
    var b := ScoreAll(parts.1, predict);
    assert Combine(t, predict) == a + b;
    if k < |a| {
      assert a[k].kind == Obs by {
        assert parts.0[k] in parts.0;
      }
    } else {
      assert b[k - |a|].kind == Pred by {
        assert parts.1[k - |a|] in parts.1;
      }
    }
  }

  /** The score of a trip in a scored table (`foo.risk_score` aligned on trip id). */
  function Lookup(r: seq<ScoredTrip>, trip: string): (s: Option<real>)
    ensures s.None? <==> forall k :: 0 <= k < |r| ==> r[k].trip != trip
    ensures s.Some? ==> exists k :: 0 <= k < |r| && r[k].trip == trip && r[k].score == s.value
  {
    if |r| == 0 then None
    else if r[0].trip == trip then Some(r[0].score)
    else
      var s := Lookup(r[1..], trip);
      assert forall k :: 1 <= k < |r| ==> r[k] == r[1..][k - 1];
      s
  }

  /** Attach each record's trip score and class; records of unscored trips
      are dropped (`dropna(subset=['risk_score'])`). */
  function Place(points: seq<Point>, r: seq<ScoredTrip>): (out: seq<PlacedPoint>)
    ensures |out| <= |points|
    ensures forall q :: q in out ==>
      Point(q.trip, q.lon, q.lat) in points && Lookup(r, q.trip) == Some(q.score) && q.riskClass == Class(q.score)
    ensures forall p :: p in points && Lookup(r, p.trip).Some? ==>
      PlacedPoint(p.trip, p.lon, p.lat, Lookup(r, p.trip).value, Class(Lookup(r, p.trip).value)) in out
  {
    if |points| == 0 then []
    else
      var p := points[0];
      var rest := Place(points[1..], r);
      assert forall x :: x in points <==> x == p || x in points[1..];
      match Lookup(r, p.trip)
      case None => rest
      case Some(s) => [PlacedPoint(p.trip, p.lon, p.lat, s, Class(s))] + rest
  }

  /** `pd.concat([x, y])` of the located encounters and loitering events, with classes. */
  function PlaceAll(encounters: seq<Point>, loiterings: seq<Point>, r: seq<ScoredTrip>): (out: seq<PlacedPoint>)
    ensures forall q :: q in out ==> q.riskClass <= 2 && q.riskClass == Class(q.score)
    ensures forall q :: q in out ==>
      Point(q.trip, q.lon, q.lat) in encounters + loiterings && Lookup(r, q.trip) == Some(q.score)
    ensures forall p :: p in encounters + loiterings && Lookup(r, p.trip).Some? ==>
      PlacedPoint(p.trip, p.lon, p.lat, Lookup(r, p.trip).value, Class(Lookup(r, p.trip).value)) in out
  {
    assert forall p :: p in encounters + loiterings <==> p in encounters || p in loiterings;
    Place(encounters, r) + Place(loiterings, r)
  }

  // ---------------------------------------------------------------------
  // At-sea fishing trips

  /** One fishing trip; an empty string marks a missing attribute. */
  datatype FishingTrip = FishingTrip(
    trip: string,
    ssvid: string,
    flagGroup: string,
    vesselClass: string,
    timeAtSea: string,
    tiers: Tiers)

  predicate HasPredictors(x: FishingTrip) {
    x.flagGroup != "" && x.vesselClass != "" && x.timeAtSea != ""
  }

  /** The rows with a flag group, a vessel class and a time at sea. */
  function WithPredictors(all: seq<FishingTrip>): (r: seq<FishingTrip>)
    ensures forall x :: x in r <==> x in all && HasPredictors(x)
  {
    if |all| == 0 then []
    else
      var rest := WithPredictors(all[1..]);
      assert forall x :: x in all <==> x == all[0] || x in all[1..];
      if HasPredictors(all[0]) then [all[0]] + rest else rest
  }

  /** The rows whose four tier counts sum to more than zero. */
  function ObservedFishing(all: seq<FishingTrip>): (o: seq<FishingTrip>)
    ensures forall x :: x in o <==> x in all && Observed(x.tiers)
  {
    if |all| == 0 then []
    else
      var rest := ObservedFishing(all[1..]);
      assert forall x :: x in all <==> x == all[0] || x in all[1..];
      if Observed(all[0].tiers) then [all[0]] + rest else rest
  }

  /** The vessel classes occurring among some rows. */
  function Classes(rows: seq<FishingTrip>): (cs: set<string>)
    ensures forall c :: c in cs <==> exists x :: x in rows && x.vesselClass == c
  {
    set x | x in rows :: x.vesselClass
  }

  /** The unobserved rows whose vessel class occurs among the observed ones. */
  function ToPredict(all: seq<FishingTrip>, classes: set<string>): (p: seq<FishingTrip>)
    ensures forall x :: x in p <==> x in all && !Observed(x.tiers) && x.vesselClass in classes
  {
    if |all| == 0 then []
    else
      var rest := ToPredict(all[1..], classes);
      assert forall x :: x in all <==> x == all[0] || x in all[1..];
      if !Observed(all[0].tiers) && all[0].vesselClass in classes then [all[0]] + rest else rest
  }

  /** The observed and to-predict sets of the at-sea script. */
  function SplitFishing(all: seq<FishingTrip>): (r: (seq<FishingTrip>, seq<FishingTrip>))
  {
    var usable := WithPredictors(all);
    var obs := ObservedFishing(usable);
    (obs, ToPredict(usable, Classes(obs)))
  }

  /** Observed rows are exactly the usable rows with assessed visits; the
      predicted rows are the other usable rows whose vessel class occurs among
      the observed rows; no row is in both. */
  lemma SplitFishingSpec(all: seq<FishingTrip>, x: FishingTrip)
    ensures x in SplitFishing(all).0 <==> x in all && HasPredictors(x) && Observed(x.tiers)
    ensures x in SplitFishing(all).1 <==>
      x in all && HasPredictors(x) && !Observed(x.tiers) &&
      exists y :: y in SplitFishing(all).0 && y.vesselClass == x.vesselClass
    ensures !(x in SplitFishing(all).0 && x in SplitFishing(all).1)
  {
  }

  /** The scored at-sea table `pd.concat([pred, obs])`: model scores for the
      to-predict rows, then tier scores for the observed rows. */
  function ScoreFishing(obs: seq<FishingTrip>, pred: seq<FishingTrip>, predict: FishingTrip -> real): (r: seq<ScoredTrip>)
    ensures |r| == |pred| + |obs|
    ensures forall k :: 0 <= k < |r| ==> (r[k].kind == Obs <==> k >= |pred|)
    ensures forall k :: 0 <= k < |pred| ==> r[k].trip == pred[k].trip && r[k].score == predict(pred[k])
    ensures forall k :: 0 <= k < |obs| ==> r[|pred| + k].trip == obs[k].trip && r[|pred| + k].score == Score(obs[k].tiers)
  {
    seq(|pred|, k requires 0 <= k < |pred| => ScoredTrip(pred[k].trip, predict(pred[k]), Pred))
    + seq(|obs|, k requires 0 <= k < |obs| => ScoredTrip(obs[k].trip, Score(obs[k].tiers), Obs))
  }

  /** A usable trip with assessed port visits. */
  predicate UsableObserved(all: seq<FishingTrip>, x: FishingTrip) {
    x in all && HasPredictors(x) && Observed(x.tiers)
  }

  /** A usable trip without assessed visits whose vessel class occurs among
      the usable observed trips. */
  predicate UsablePredictable(all: seq<FishingTrip>, x: FishingTrip) {
    x in all && HasPredictors(x) && !Observed(x.tiers) &&
    exists y :: y in all && UsableObserved(all, y) && y.vesselClass == x.vesselClass
  }

  /** Every row of the combined at-sea table comes from the split: an observed
      row is a usable observed trip with its tier score, a predicted row a
      usable predictable trip with the model's score. */
  lemma FishingRowsFromSplit(all: seq<FishingTrip>, predict: FishingTrip -> real)
    ensures forall row :: row in ScoreFishing(SplitFishing(all).0, SplitFishing(all).1, predict) ==>
      if row.kind == Obs then
        exists x :: UsableObserved(all, x) && row.trip == x.trip && row.score == Score(x.tiers)
      else
        exists x :: UsablePredictable(all, x) && row.trip == x.trip && row.score == predict(x)
  {
    var (obs, pred) := SplitFishing(all);
    var r := ScoreFishing(obs, pred, predict);
    forall row | row in r
      ensures if row.kind == Obs then
        exists x :: UsableObserved(all, x) && row.trip == x.trip && row.score == Score(x.tiers)
      else
        exists x :: UsablePredictable(all, x) && row.trip == x.trip && row.score == predict(x)
    {
      var k :| 0 <= k < |r| && r[k] == row;
      if k < |pred| {
        var x := pred[k];
        SplitFishingSpec(all, x);
        var y :| y in obs && y.vesselClass == x.vesselClass;
        SplitFishingSpec(all, y);
        assert UsableObserved(all, y);
        assert UsablePredictable(all, x) && row.trip == x.trip && row.score == predict(x);
      } else {
        var x := obs[k - |pred|];
        SplitFishingSpec(all, x);
        assert r[|pred| + (k - |pred|)] == row;
        assert UsableObserved(all, x) && row.trip == x.trip && row.score == Score(x.tiers);
      }
    }
  }

  /** Each observed row of the combined table carries its tier score. */
  lemma ObservedRowPresent(obs: seq<FishingTrip>, pred: seq<FishingTrip>, predict: FishingTrip -> real, x: FishingTrip)
    requires x in obs
    ensures ScoredTrip(x.trip, Score(x.tiers), Obs) in ScoreFishing(obs, pred, predict)
  {
    var r := ScoreFishing(obs, pred, predict);
    var k :| 0 <= k < |obs| && obs[k] == x;
    assert r[|pred| + k] == ScoredTrip(x.trip, Score(x.tiers), Obs);
  }

  /** Each to-predict row of the combined table carries the model's score. */
  lemma PredictedRowPresent(obs: seq<FishingTrip>, pred: seq<FishingTrip>, predict: FishingTrip -> real, x: FishingTrip)
    requires x in pred
    ensures ScoredTrip(x.trip, predict(x), Pred) in ScoreFishing(obs, pred, predict)
  {
    var r := ScoreFishing(obs, pred, predict);
    var k :| 0 <= k < |pred| && pred[k] == x;
    assert r[k].kind != Obs;
    assert r[k] == ScoredTrip(x.trip, predict(x), Pred);
  }

  /** Conversely every usable observed trip has its tier-scored row, and every
      usable predictable trip its model-scored row. */
  lemma FishingTripsScored(all: seq<FishingTrip>, predict: FishingTrip -> real)
    ensures forall x :: UsableObserved(all, x) ==>
      ScoredTrip(x.trip, Score(x.tiers), Obs) in ScoreFishing(SplitFishing(all).0, SplitFishing(all).1, predict)
    ensures forall x :: UsablePredictable(all, x) ==>
      ScoredTrip(x.trip, predict(x), Pred) in ScoreFishing(SplitFishing(all).0, SplitFishing(all).1, predict)
  {
    var (obs, pred) := SplitFishing(all);
    forall x | UsableObserved(all, x)
      ensures ScoredTrip(x.trip, Score(x.tiers), Obs) in ScoreFishing(obs, pred, predict)
    {
      SplitFishingSpec(all, x);
      ObservedRowPresent(obs, pred, predict, x);
    }
    forall x | UsablePredictable(all, x)
      ensures ScoredTrip(x.trip, predict(x), Pred) in ScoreFishing(obs, pred, predict)
    {
      var y :| y in all && UsableObserved(all, y) && y.vesselClass == x.vesselClass;
      SplitFishingSpec(all, y);
      SplitFishingSpec(all, x);
      PredictedRowPresent(obs, pred, predict, x);
    }
  }

  /** Model scores for some rows: on the observed rows this is the in-sample
      table (the first output), on the to-predict rows the model part of the
      combined table. */
  function Predicted(rows: seq<FishingTrip>, predict: FishingTrip -> real): (r: seq<ScoredTrip>)
    ensures |r| == |rows|
    ensures forall k :: 0 <= k < |rows| ==> r[k].trip == rows[k].trip && r[k].score == predict(rows[k])
  {
    seq(|rows|, k requires 0 <= k < |rows| => ScoredTrip(rows[k].trip, predict(rows[k]), Pred))
  }

  /** The observed scores (the second output table). */
  function ScoreObserved(obs: seq<FishingTrip>): (r: seq<ScoredTrip>)
    ensures |r| == |obs|
    ensures forall k :: 0 <= k < |obs| ==> r[k].trip == obs[k].trip && r[k].score == Score(obs[k].tiers)
  {
    seq(|obs|, k requires 0 <= k < |obs| => ScoredTrip(obs[k].trip, Score(obs[k].tiers), Obs))
  }

  // ---------------------------------------------------------------------
  // The class column, shared by every output table

  /** Add the `risk_class` column to a scored table. */
  function Tabulate(r: seq<ScoredTrip>): (out: seq<ClassifiedTrip>)
    ensures |out| == |r|
    ensures forall k :: 0 <= k < |r| ==>
      out[k].trip == r[k].trip && out[k].score == r[k].score && out[k].kind == r[k].kind
    ensures forall k :: 0 <= k < |r| ==> out[k].riskClass == Classify(ScoresOf(r))[k]
  {
    seq(|r|, k requires 0 <= k < |r| => ClassifiedTrip(r[k].trip, r[k].score, r[k].kind, Class(r[k].score)))
  }

  function ScoresOf(r: seq<ScoredTrip>): (s: seq<real>)
    ensures |s| == |r| && forall k :: 0 <= k < |r| ==> s[k] == r[k].score
  {
    seq(|r|, k requires 0 <= k < |r| => r[k].score)
  }

  /** The combined at-sea table is the model table of the to-predict rows
      followed by the observed table: the to-predict rows are scored by the
      same model as the in-sample table, and every observed row keeps its
      observed score and class. */
  lemma FishingTables(obs: seq<FishingTrip>, pred: seq<FishingTrip>, predict: FishingTrip -> real)
    ensures ScoreFishing(obs, pred, predict) == Predicted(pred, predict) + ScoreObserved(obs)
    ensures forall k :: 0 <= k < |obs| ==>
      Tabulate(ScoreFishing(obs, pred, predict))[|pred| + k] == Tabulate(ScoreObserved(obs))[k]
  {
    var r := ScoreFishing(obs, pred, predict);
    var q := Predicted(pred, predict) + ScoreObserved(obs);
    assert |r| == |q|;
    forall k | 0 <= k < |r| ensures r[k] == q[k] {
      if k < |pred| {
        assert r[k].kind == Pred;
      } else {
        assert r[k].kind == Obs;
      }
    }
  }

  /** Every table's classes lie in {0, 1, 2} and respect score order. */
  lemma TabulateOrdered(r: seq<ScoredTrip>, i: nat, j: nat)
    requires i < |r| && j < |r| && r[i].score <= r[j].score
    ensures Tabulate(r)[i].riskClass <= Tabulate(r)[j].riskClass <= 2
  {
    ClassMonotone(r[i].score, r[j].score);
  }
}
