/** Feature encoding of transshipment trips: every trip becomes one 0/1 row
    made of a one-hot time-at-sea block, a one-hot carrier-flag block, one
    "encountered a vessel with this flag" indicator per neighbour flag group,
    one indicator per neighbour vessel class, and the loitering pair. */
module TripEncoding {
  import opened Wrappers
  import opened Seqs
  import opened Risk
  import opened Dummies

  /** One encounter record as read: the categorical attributes may be missing. */
  datatype Encounter = Encounter(
    trip: string,
    carrierFlag: Option<string>,
    neighborFlag: Option<string>,
    timeAtSea: Option<string>,
    neighborClass: Option<string>,
    tiers: Tiers,
    lon: real,
    lat: real)

  /** An encounter record with all four categorical attributes present. */
  datatype Record = Record(
    trip: string,
    carrierFlag: string,
    neighborFlag: string,
    timeAtSea: string,
    neighborClass: string,
    tiers: Tiers)

  /** One loitering event; `ssvid` is the carrier's identifier, possibly missing. */
  datatype Loitering = Loitering(trip: string, ssvid: Option<string>, lon: real, lat: real)

  /** The two neighbour attributes that become `with_*` indicators. */
  datatype Neighbour = NeighbourFlag | NeighbourClass

  /** One trip of the predictor table: its first record's tier counts and its feature row. */
  datatype EncodedTrip = EncodedTrip(trip: string, tiers: Tiers, features: FeatureRow)

  /** The category lists in column order, each in order of first appearance. */
  datatype Categories = Categories(
    timeAtSea: seq<string>,
    carrierFlags: seq<string>,
    neighborFlags: seq<string>,
    neighborClasses: seq<string>)

  predicate Complete(e: Encounter) {
    e.carrierFlag.Some? && e.neighborFlag.Some? && e.timeAtSea.Some? && e.neighborClass.Some?
  }

  function Strip(e: Encounter): Record
    requires Complete(e)
  {
    Record(e.trip, e.carrierFlag.value, e.neighborFlag.value, e.timeAtSea.value, e.neighborClass.value, e.tiers)
  }

  /** `dropna` on the four categorical attributes. */
  function DropIncomplete(es: seq<Encounter>): (rs: seq<Record>)
    ensures |rs| <= |es|
    ensures forall r :: r in rs <==> exists e :: e in es && Complete(e) && Strip(e) == r
  {
    if |es| == 0 then []
    else
      var rest := DropIncomplete(es[1..]);
      assert forall e :: e in es <==> e == es[0] || e in es[1..];
      if Complete(es[0]) then [Strip(es[0])] + rest else rest
  }

  function TripColumn(rs: seq<Record>): (c: seq<string>)
    ensures |c| == |rs| && forall i :: 0 <= i < |rs| ==> c[i] == rs[i].trip
  {
    seq(|rs|, i requires 0 <= i < |rs| => rs[i].trip)
  }

  /** The value of one neighbour attribute of a record. */
  function NeighbourValue(r: Record, kind: Neighbour): string {
    match kind
    case NeighbourFlag => r.neighborFlag
    case NeighbourClass => r.neighborClass
  }

  /** Every record's time-at-sea tier and carrier flag has exactly one column. */
  predicate Covers(rs: seq<Record>, c: Categories) {
    NoDups(c.timeAtSea) && NoDups(c.carrierFlags) &&
    forall r :: r in rs ==> r.timeAtSea in c.timeAtSea && r.carrierFlag in c.carrierFlags
  }

  /** One attribute of every record, in record order. */
  function Values(rs: seq<Record>, attr: Record -> string): (vs: seq<string>)
    ensures forall r :: r in rs ==> attr(r) in vs
    ensures forall v :: v in vs ==> exists r :: r in rs && attr(r) == v
  {
    if |rs| == 0 then []
    else
      assert forall r :: r in rs <==> r == rs[0] || r in rs[1..];
      [attr(rs[0])] + Values(rs[1..], attr)
  }

  /** The categories of each encoded attribute, as `Series.unique` lists them. */
  function CategoriesOf(rs: seq<Record>): (c: Categories)
    ensures Covers(rs, c)
    ensures forall r :: r in rs ==> r.neighborFlag in c.neighborFlags && r.neighborClass in c.neighborClasses
    ensures NoDups(c.neighborFlags) && NoDups(c.neighborClasses)
    ensures forall v :: v in c.timeAtSea ==> exists r :: r in rs && r.timeAtSea == v
    ensures forall v :: v in c.carrierFlags ==> exists r :: r in rs && r.carrierFlag == v
    ensures forall v :: v in c.neighborFlags ==> exists r :: r in rs && r.neighborFlag == v
    ensures forall v :: v in c.neighborClasses ==> exists r :: r in rs && r.neighborClass == v
  {
    Categories(
      Unique(Values(rs, (r: Record) => r.timeAtSea)),
      Unique(Values(rs, (r: Record) => r.carrierFlag)),
      Unique(Values(rs, (r: Record) => r.neighborFlag)),
      Unique(Values(rs, (r: Record) => r.neighborClass)))
  }

  /** The first record of a trip: `groupby(trip).first()`. */
  function First(rs: seq<Record>, trip: string): (r: Record)
    requires trip in TripColumn(rs)
    ensures r in rs && r.trip == trip
    ensures exists i :: 0 <= i < |rs| && rs[i] == r && forall j :: 0 <= j < i ==> rs[j].trip != trip
  {
    var i := FirstIndex(TripColumn(rs), trip);
    assert forall j :: 0 <= j < i ==> rs[j].trip == TripColumn(rs)[j];
    rs[i]
  }

  /** `dropna` keeps row order: it distributes over concatenation of the table. */
  lemma {:induction false} DropIncompleteAppend(a: seq<Encounter>, b: seq<Encounter>)
    ensures DropIncomplete(a + b) == DropIncomplete(a) + DropIncomplete(b)
    decreases |a|
  {
    if |a| == 0 {
      assert a + b == b;
    } else {
      assert (a + b)[0] == a[0] && (a + b)[1..] == a[1..] + b;
      DropIncompleteAppend(a[1..], b);
    }
  }

  /** A record of the trip with no record of the trip before it is the one `First` picks. */
  lemma FirstAt(rs: seq<Record>, i: nat)
    requires i < |rs| && forall j :: 0 <= j < i ==> rs[j].trip != rs[i].trip
    ensures rs[i].trip in TripColumn(rs) && First(rs, rs[i].trip) == rs[i]
  {
    assert TripColumn(rs)[i] == rs[i].trip;
    var r := First(rs, rs[i].trip);
    var k :| 0 <= k < |rs| && rs[k] == r && forall j :: 0 <= j < k ==> rs[j].trip != rs[i].trip;
    assert k == i;
  }

  /** After `dropna`, the record `groupby(trip).first()` picks for a trip is
      the trip's first complete encounter in file order. */
  lemma FirstComplete(es: seq<Encounter>, k: nat)
    requires k < |es| && Complete(es[k])
    requires forall j :: 0 <= j < k ==> !(es[j].trip == es[k].trip && Complete(es[j]))
    ensures es[k].trip in TripColumn(DropIncomplete(es))
    ensures First(DropIncomplete(es), es[k].trip) == Strip(es[k])
  {
    var e := es[k];
    assert es == es[..k] + [e] + es[k + 1..];
    DropIncompleteAppend(es[..k] + [e], es[k + 1..]);
    DropIncompleteAppend(es[..k], [e]);
    assert DropIncomplete([e]) == [Strip(e)] by {
      assert [e][1..] == [];
    }
    var ra := DropIncomplete(es[..k]);
    var rs := DropIncomplete(es);
    assert rs == ra + [Strip(e)] + DropIncomplete(es[k + 1..]);
    forall j | 0 <= j < |ra|
      ensures rs[j].trip != e.trip
    {
      assert rs[j] == ra[j] && ra[j] in ra;
      var x :| x in es[..k] && Complete(x) && Strip(x) == ra[j];
    }
    assert rs[|ra|] == Strip(e);
    FirstAt(rs, |ra|);
  }

  /** Did the trip meet, in some record, a neighbour whose attribute equals `value`? */
  predicate HasNeighbour(rs: seq<Record>, trip: string, kind: Neighbour, value: string) {
    exists i :: 0 <= i < |rs| && rs[i].trip == trip && NeighbourValue(rs[i], kind) == value
  }

  /** The number of a trip's records whose neighbour attribute equals `value`
      (one summand of `groupby(trip).sum()`). */
  function NeighbourCount(rs: seq<Record>, trip: string, kind: Neighbour, value: string): (n: nat)
    ensures n > 0 <==> HasNeighbour(rs, trip, kind, value)
  {
    if |rs| == 0 then 0
    else
      var rest := NeighbourCount(rs[1..], trip, kind, value);
      assert forall i :: 1 <= i < |rs| ==> rs[i] == rs[1..][i - 1];
      assert forall i :: 0 <= i < |rs[1..]| ==> rs[1..][i] == rs[i + 1];
      (if rs[0].trip == trip && NeighbourValue(rs[0], kind) == value then 1 else 0) + rest
  }

  /** The `with_*` block of one trip for one neighbour attribute. */
  function WithIndicators(rs: seq<Record>, trip: string, kind: Neighbour, values: seq<string>): (r: seq<nat>)
    ensures |r| == |values|
    ensures forall k :: 0 <= k < |values| ==> r[k] <= 1 && (r[k] == 1 <==> HasNeighbour(rs, trip, kind, values[k]))
  {
    seq(|values|, k requires 0 <= k < |values| => Indicator(NeighbourCount(rs, trip, kind, values[k])))
  }

  /** The number of a trip's loitering events with a carrier identifier
      (`groupby(trip).count().ssvid`, absent trips filled with 0). */
  function LoiteringCount(ls: seq<Loitering>, trip: string): (n: nat)
    ensures n > 0 <==> exists i :: 0 <= i < |ls| && ls[i].trip == trip && ls[i].ssvid.Some?
  {
    if |ls| == 0 then 0
    else
      var rest := LoiteringCount(ls[1..], trip);
      assert forall i :: 1 <= i < |ls| ==> ls[i] == ls[1..][i - 1];
      assert forall i :: 0 <= i < |ls[1..]| ==> ls[1..][i] == ls[i + 1];
      (if ls[0].trip == trip && ls[0].ssvid.Some? then 1 else 0) + rest
  }

  /** Does some loitering event of the trip carry a carrier identifier? */
  predicate HasLoitering(ls: seq<Loitering>, trip: string) {
    exists i :: 0 <= i < |ls| && ls[i].trip == trip && ls[i].ssvid.Some?
  }

  /** The feature row of one trip, block by block. */
  datatype FeatureRow = FeatureRow(
    timeAtSea: seq<nat>,
    carrierFlag: seq<nat>,
    withFlag: seq<nat>,
    withClass: seq<nat>,
    loitering: nat,
    noLoitering: nat)
  {
    /** The columns as the model sees them: time at sea, carrier flag,
        with-flag, with-class, loitering, no_loitering. */
    function Columns(): (cols: seq<nat>)
      ensures |cols| == |timeAtSea| + |carrierFlag| + |withFlag| + |withClass| + 2
    {
      timeAtSea + carrierFlag + withFlag + withClass + [loitering, noLoitering]
    }
  }

  /** The feature row of one trip. */
  function EncodeTrip(rs: seq<Record>, ls: seq<Loitering>, c: Categories, trip: string): FeatureRow
    requires trip in TripColumn(rs)
  {
    var first := First(rs, trip);
    var loitering := Indicator(LoiteringCount(ls, trip));
    FeatureRow(
      OneHot(first.timeAtSea, c.timeAtSea),
      OneHot(first.carrierFlag, c.carrierFlags),
      WithIndicators(rs, trip, NeighbourFlag, c.neighborFlags),
      WithIndicators(rs, trip, NeighbourClass, c.neighborClasses),
      loitering,
      1 - loitering)
  }

  /** With categories covering the records, a trip's row has exactly one 1
      among the time-at-sea columns and one among the carrier-flag columns;
      each with_* column is 1 iff the trip met that flag or class; and exactly
      one of the two loitering columns is 1, `loitering` iff the trip loitered. */
  lemma EncodeTripSpec(rs: seq<Record>, ls: seq<Loitering>, c: Categories, trip: string)
    requires trip in TripColumn(rs)
    requires Covers(rs, c)
    ensures var row := EncodeTrip(rs, ls, c, trip);
      && |row.timeAtSea| == |c.timeAtSea| && Sum(row.timeAtSea) == 1
      && (forall k :: 0 <= k < |row.timeAtSea| ==> row.timeAtSea[k] <= 1)
      && |row.carrierFlag| == |c.carrierFlags| && Sum(row.carrierFlag) == 1
      && (forall k :: 0 <= k < |row.carrierFlag| ==> row.carrierFlag[k] <= 1)
      && |row.withFlag| == |c.neighborFlags|
      && (forall k :: 0 <= k < |c.neighborFlags| ==>
            row.withFlag[k] <= 1 && (row.withFlag[k] == 1 <==> HasNeighbour(rs, trip, NeighbourFlag, c.neighborFlags[k])))
      && |row.withClass| == |c.neighborClasses|
      && (forall k :: 0 <= k < |c.neighborClasses| ==>
            row.withClass[k] <= 1 && (row.withClass[k] == 1 <==> HasNeighbour(rs, trip, NeighbourClass, c.neighborClasses[k])))
      && row.loitering + row.noLoitering == 1
      && (row.loitering == 1 <==> HasLoitering(ls, trip))
  {
    var first := First(rs, trip);
    OneHotExactlyOne(first.timeAtSea, c.timeAtSea);
    OneHotExactlyOne(first.carrierFlag, c.carrierFlags);
  }

  /** The predictor row of one trip, with the tier counts of its first record. */
  function EncodeOne(rs: seq<Record>, ls: seq<Loitering>, c: Categories, id: string): EncodedTrip
    requires id in TripColumn(rs)
  {
    EncodedTrip(id, First(rs, id).tiers, EncodeTrip(rs, ls, c, id))
  }

  /** The rows of the listed trips, in list order. */
  function EncodeList(rs: seq<Record>, ls: seq<Loitering>, c: Categories, trips: seq<string>): (t: seq<EncodedTrip>)
    requires forall id :: id in trips ==> id in TripColumn(rs)
    ensures |t| == |trips|
    ensures forall k :: 0 <= k < |trips| ==> t[k].trip == trips[k]
  {
    if |trips| == 0 then []
    else [EncodeOne(rs, ls, c, trips[0])] + EncodeList(rs, ls, c, trips[1..])
  }

  /** Row k of the list is the encoding of trip k. */
  lemma {:induction false} EncodeListRows(rs: seq<Record>, ls: seq<Loitering>, c: Categories, trips: seq<string>)
    requires forall id :: id in trips ==> id in TripColumn(rs)
    ensures forall k :: 0 <= k < |trips| ==> EncodeList(rs, ls, c, trips)[k] == EncodeOne(rs, ls, c, trips[k])
  {
    if |trips| > 0 {
      EncodeListRows(rs, ls, c, trips[1..]);
      var t := EncodeList(rs, ls, c, trips);
      assert t == [EncodeOne(rs, ls, c, trips[0])] + EncodeList(rs, ls, c, trips[1..]);
      forall k | 1 <= k < |trips| ensures t[k] == EncodeOne(rs, ls, c, trips[k]) {
        assert trips[k] == trips[1..][k - 1];
      }
    }
  }

  /** Every trip of a complete record is among the distinct trip ids. */
  lemma TripsListed(rs: seq<Record>)
    ensures forall i :: 0 <= i < |rs| ==> rs[i].trip in Unique(TripColumn(rs))
  {
    forall i | 0 <= i < |rs| ensures rs[i].trip in Unique(TripColumn(rs)) {
      assert TripColumn(rs)[i] == rs[i].trip;
    }
  }

  /** The predictor table built from the complete records over the columns
      of categories `c`: one row per trip, no trip twice, and every trip of
      the records present. */
  function EncodeTrips(rs: seq<Record>, ls: seq<Loitering>, c: Categories): (t: seq<EncodedTrip>)
    ensures forall k, m :: 0 <= k < m < |t| ==> t[k].trip != t[m].trip
    ensures forall i :: 0 <= i < |rs| ==> exists k :: 0 <= k < |t| && t[k].trip == rs[i].trip
    ensures forall k :: 0 <= k < |t| ==> t[k].trip in TripColumn(rs)
  {
    var trips := Unique(TripColumn(rs));
    TripsListed(rs);
    EncodeList(rs, ls, c, trips)
  }

  /** Each row carries the tier counts of its trip's first record and the
      trip's feature row. */
  lemma {:induction false} EncodeTripsRows(rs: seq<Record>, ls: seq<Loitering>, c: Categories)
    ensures forall k :: 0 <= k < |EncodeTrips(rs, ls, c)| ==>
      && EncodeTrips(rs, ls, c)[k].trip in TripColumn(rs)
      && EncodeTrips(rs, ls, c)[k].tiers == First(rs, EncodeTrips(rs, ls, c)[k].trip).tiers
      && EncodeTrips(rs, ls, c)[k].features == EncodeTrip(rs, ls, c, EncodeTrips(rs, ls, c)[k].trip)
  {
    var trips := Unique(TripColumn(rs));
    var t := EncodeTrips(rs, ls, c);
    assert t == EncodeList(rs, ls, c, trips);
    EncodeListRows(rs, ls, c, trips);
    forall k | 0 <= k < |t|
      ensures t[k].trip in TripColumn(rs) && t[k].tiers == First(rs, t[k].trip).tiers
      ensures t[k].features == EncodeTrip(rs, ls, c, t[k].trip)
    {
      assert t[k] == EncodeOne(rs, ls, c, trips[k]);
    }
  }

  /** The predictor table of the script: the categories are those that occur
      among the complete records, so `EncodeTripSpec` applies to every row. */
  function PredictorTable(rs: seq<Record>, ls: seq<Loitering>): seq<EncodedTrip> {
    EncodeTrips(rs, ls, CategoriesOf(rs))
  }

  /** From file to table: after `dropna`, the encoded table (the predictor
      table when `c` is `CategoriesOf` of the complete records) has a row for
      the trip, and every row of the trip carries the tier counts of its first
      complete encounter in file order. */
  lemma PredictorTiers(es: seq<Encounter>, ls: seq<Loitering>, c: Categories, k: nat)
    requires k < |es| && Complete(es[k])
    requires forall j :: 0 <= j < k ==> !(es[j].trip == es[k].trip && Complete(es[j]))
    ensures var t := EncodeTrips(DropIncomplete(es), ls, c);
      (exists m :: 0 <= m < |t| && t[m].trip == es[k].trip) &&
      (forall m :: 0 <= m < |t| && t[m].trip == es[k].trip ==> t[m].tiers == es[k].tiers)
  {
    var rs := DropIncomplete(es);
    var t := EncodeTrips(rs, ls, c);
    FirstComplete(es, k);
    var i := FirstIndex(TripColumn(rs), es[k].trip);
    assert rs[i].trip == es[k].trip;
    assert exists m :: 0 <= m < |t| && t[m].trip == rs[i].trip;
    EncodeTripsRows(rs, ls, c);
    assert Strip(es[k]).tiers == es[k].tiers;
  }
}
