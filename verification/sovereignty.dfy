/** Cleaning of the port-visit rows and the territory-to-sovereign mapping
    that decides whether a visit is foreign: a visit counts when the port's
    sovereign differs from the flag's sovereign. */
module Sovereignty {
  import opened Wrappers
  import opened Seqs

  /** One row of the exclusive-economic-zone table. */
  datatype EezRow = EezRow(eezType: string, territory: string, sovereign: string)

  /** A (territory, sovereign) pair of ISO3 codes. */
  type Pair = (string, string)

  /** Mayotte, Hong Kong, Macau and the Aland Islands, appended by hand. */
  const Additions: seq<Pair> := [("MAC", "CHN"), ("HKG", "CHN"), ("MYT", "FRA"), ("ALA", "FIN")]

  /** A 200-nautical-mile zone of a territory that is not its own sovereign. */
  predicate Dependent(e: EezRow) {
    e.eezType == "200NM" && e.territory != e.sovereign
  }

  /** The pairs of the dependent zones, in table order. */
  function Dependencies(eez: seq<EezRow>): (r: seq<Pair>)
    ensures |r| <= |eez|
    ensures forall p :: p in r <==> exists e :: e in eez && Dependent(e) && p == (e.territory, e.sovereign)
  {
    if |eez| == 0 then []
    else
      var e := eez[0];
      assert forall x :: x in eez <==> x == e || x in eez[1..];
      var rest := Dependencies(eez[1..]);
      if Dependent(e) then [(e.territory, e.sovereign)] + rest else rest
  }

  /** Selecting the dependent zones keeps table order: it distributes over
      concatenation of the table. */
  lemma {:induction false} DependenciesAppend(a: seq<EezRow>, b: seq<EezRow>)
    ensures Dependencies(a + b) == Dependencies(a) + Dependencies(b)
    decreases |a|
  {
    if |a| == 0 {
      assert a + b == b;
    } else {
      assert (a + b)[0] == a[0] && (a + b)[1..] == a[1..] + b;
      DependenciesAppend(a[1..], b);
    }
  }

  /** `pair`: the distinct dependent pairs, in order of their first appearance
      in the table, followed by the four additions. */
  function TerritoryPairs(eez: seq<EezRow>): (r: seq<Pair>)
    ensures |r| >= 4 && r[|r| - 4..] == Additions
    ensures NoDups(r[..|r| - 4])
    ensures forall p :: p in r <==> p in Additions || exists e :: e in eez && Dependent(e) && p == (e.territory, e.sovereign)
    ensures forall i, j :: 0 <= i < j < |r| - 4 ==>
      r[i] in Dependencies(eez) && r[j] in Dependencies(eez) &&
      FirstIndex(Dependencies(eez), r[i]) < FirstIndex(Dependencies(eez), r[j])
  {
    var u := Unique(Dependencies(eez));
    UniqueOrder(Dependencies(eez));
    assert (u + Additions)[..|u|] == u;
    u + Additions
  }

  /** The loop over the pairs for one code: each pair whose territory is the
      original code overwrites the running value. */
  function Overwrite(pairs: seq<Pair>, code: string, current: string): string
  {
    if |pairs| == 0 then current
    else Overwrite(pairs[1..], code, if pairs[0].0 == code then pairs[0].1 else current)
  }

  /** `flag_sovereign` / `port_iso3_sovereign`: the code starts as itself. */
  function Sovereign(pairs: seq<Pair>, code: string): string {
    Overwrite(pairs, code, code)
  }

  /** Reference definition: the sovereign of the last pair naming the code. */
  function LastMatch(pairs: seq<Pair>, code: string): (r: Option<string>)
    ensures r.None? <==> forall i :: 0 <= i < |pairs| ==> pairs[i].0 != code
    ensures r.Some? ==> exists i :: 0 <= i < |pairs| && pairs[i] == (code, r.value) &&
                                    forall j :: i < j < |pairs| ==> pairs[j].0 != code
  {
    if |pairs| == 0 then None
    else
      var last := pairs[|pairs| - 1];
      if last.0 == code then Some(last.1) else LastMatch(pairs[..|pairs| - 1], code)
  }

  /** A match in the later part hides every match before it. */
  lemma {:induction false} LastMatchAppend(a: seq<Pair>, b: seq<Pair>, code: string)
    ensures LastMatch(a + b, code) == if LastMatch(b, code).Some? then LastMatch(b, code) else LastMatch(a, code)
    decreases |b|
  {
    if |b| == 0 {
      assert a + b == a;
    } else {
      assert (a + b)[..|a + b| - 1] == a + b[..|b| - 1];
      LastMatchAppend(a, b[..|b| - 1], code);
    }
  }

  /** The loop agrees with the reference: the last matching pair wins, and a
      code no pair names keeps its running value. */
  lemma {:induction false} OverwriteIsLastMatch(pairs: seq<Pair>, code: string, current: string)
    ensures Overwrite(pairs, code, current) == if LastMatch(pairs, code).Some? then LastMatch(pairs, code).value else current
    decreases |pairs|
  {
    if |pairs| > 0 {
      var next := if pairs[0].0 == code then pairs[0].1 else current;
      OverwriteIsLastMatch(pairs[1..], code, next);
      assert pairs == [pairs[0]] + pairs[1..];
      LastMatchAppend([pairs[0]], pairs[1..], code);
      assert LastMatch([pairs[0]], code) == if pairs[0].0 == code then Some(pairs[0].1) else LastMatch([], code);
    }
  }

  /** A code is mapped to the sovereign of the last pair that names it, and
      kept as it is when no pair names it. */
  lemma SovereignSpec(pairs: seq<Pair>, code: string)
    ensures (forall i :: 0 <= i < |pairs| ==> pairs[i].0 != code) ==> Sovereign(pairs, code) == code
    ensures (exists i :: 0 <= i < |pairs| && pairs[i].0 == code) ==>
      exists i :: 0 <= i < |pairs| && pairs[i] == (code, Sovereign(pairs, code)) &&
        forall j :: i < j < |pairs| ==> pairs[j].0 != code
  {
    OverwriteIsLastMatch(pairs, code, code);
  }

  /** The mapping is applied once: when x maps to y and y itself maps on to
      z, x still maps to y and not to z. */
  lemma AppliedOnce(pairs: seq<Pair>, x: string, y: string, z: string)
    requires LastMatch(pairs, x) == Some(y) && LastMatch(pairs, y) == Some(z)
    ensures Sovereign(pairs, x) == y && Sovereign(pairs, y) == z
  {
    OverwriteIsLastMatch(pairs, x, x);
    OverwriteIsLastMatch(pairs, y, y);
  }

  /** A code named in the later part of the pairs is decided by it. */
  lemma LaterPairsDecide(a: seq<Pair>, b: seq<Pair>, code: string, s: string)
    requires LastMatch(b, code) == Some(s)
    ensures Sovereign(a + b, code) == s
  {
    LastMatchAppend(a, b, code);
    OverwriteIsLastMatch(a + b, code, code);
  }

  /** A pair that no later pair overrides is the last match of its territory. */
  lemma LastMatchAt(pairs: seq<Pair>, i: nat)
    requires i < |pairs| && forall j :: i < j < |pairs| ==> pairs[j].0 != pairs[i].0
    ensures LastMatch(pairs, pairs[i].0) == Some(pairs[i].1)
  {
    var r := LastMatch(pairs, pairs[i].0);
    assert r.Some?;
    var k :| 0 <= k < |pairs| && pairs[k] == (pairs[i].0, r.value) &&
             forall j :: k < j < |pairs| ==> pairs[j].0 != pairs[i].0;
    assert k == i;
  }

  /** Among the distinct pairs in first-appearance order, a pair whose first
      appearance is followed by no pair of its territory is that territory's
      last match. */
  lemma UniqueLastMatch(da: seq<Pair>, p: Pair, db: seq<Pair>)
    requires p !in da && forall q :: q in db ==> q.0 != p.0
    ensures LastMatch(Unique(da + [p] + db), p.0) == Some(p.1)
  {
    var d := da + [p] + db;
    assert d[|da|] == p;
    assert FirstIndex(d, p) == |da|;
    var u := Unique(d);
    UniqueOrder(d);
    assert p in d;
    var i := FirstIndex(u, p);
    forall j | i < j < |u|
      ensures u[j].0 != p.0
    {
      var m := FirstIndex(d, u[j]);
      assert d[m] == db[m - |da| - 1];
    }
    LastMatchAt(u, i);
  }

  /** No added pair names a code outside the four added territories. */
  lemma AdditionsSilent(t: string)
    requires forall q :: q in Additions ==> q.0 != t
    ensures LastMatch(Additions, t).None?
  {
    forall k | 0 <= k < |Additions|
      ensures Additions[k].0 != t
    {
      assert Additions[k] in Additions;
    }
  }

  /** Zone order decides: a dependent zone row whose pair has not appeared
      before, followed by no other zone of its territory, gives the territory
      its sovereign even when earlier rows name another one (zone rows
      (T, A) then (T, B) map T to B). */
  lemma LaterZoneWins(a: seq<EezRow>, e: EezRow, b: seq<EezRow>)
    requires Dependent(e)
    requires forall x :: x in a && Dependent(x) ==> (x.territory, x.sovereign) != (e.territory, e.sovereign)
    requires forall x :: x in b && Dependent(x) ==> x.territory != e.territory
    requires forall q :: q in Additions ==> q.0 != e.territory
    ensures Sovereign(TerritoryPairs(a + [e] + b), e.territory) == e.sovereign
  {
    var t, p := e.territory, (e.territory, e.sovereign);
    DependenciesAppend(a + [e], b);
    DependenciesAppend(a, [e]);
    assert Dependencies([e]) == [p] by {
      assert [e][1..] == [];
    }
    var da, db := Dependencies(a), Dependencies(b);
    UniqueLastMatch(da, p, db);
    var u := Unique(da + [p] + db);
    AdditionsSilent(t);
    LastMatchAppend(u, Additions, t);
    OverwriteIsLastMatch(u + Additions, t, t);
  }

  /** Each hand-added code is named in the added pairs, with its sovereign. */
  lemma AdditionsMatch()
    ensures LastMatch(Additions, "MAC") == Some("CHN") && LastMatch(Additions, "HKG") == Some("CHN")
    ensures LastMatch(Additions, "MYT") == Some("FRA") && LastMatch(Additions, "ALA") == Some("FIN")
  {
    var a := Additions;
    assert a[..3] == [("MAC", "CHN"), ("HKG", "CHN"), ("MYT", "FRA")];
    assert a[..3][..2] == [("MAC", "CHN"), ("HKG", "CHN")];
    assert a[..3][..2][..1] == [("MAC", "CHN")];
    assert LastMatch(a[..3][..2], "MAC") == Some("CHN");
    assert LastMatch(a[..3], "MAC") == Some("CHN");
  }

  /** The hand-added pairs come last, so they decide the four codes whatever
      the zone table says about them. */
  lemma AdditionsWin(eez: seq<EezRow>)
    ensures Sovereign(TerritoryPairs(eez), "MAC") == "CHN"
    ensures Sovereign(TerritoryPairs(eez), "HKG") == "CHN"
    ensures Sovereign(TerritoryPairs(eez), "MYT") == "FRA"
    ensures Sovereign(TerritoryPairs(eez), "ALA") == "FIN"
  {
    var u := Unique(Dependencies(eez));
    assert TerritoryPairs(eez) == u + Additions;
    AdditionsMatch();
    LaterPairsDecide(u, Additions, "MAC", "CHN");
    LaterPairsDecide(u, Additions, "HKG", "CHN");
    LaterPairsDecide(u, Additions, "MYT", "FRA");
    LaterPairsDecide(u, Additions, "ALA", "FIN");
  }

  // ---------------------------------------------------------------------
  // Visit rows.

  /** One port visit as read; absent cells are `None`. */
  datatype Visit = Visit(year: int, port: Option<string>, flag: Option<string>,
                         vesselClass: Option<string>, flagGroup: string, stamped: bool)

  /** A visit with its port, flag and vessel class present. */
  datatype PortCall = PortCall(year: int, port: string, flag: string,
                               vesselClass: string, flagGroup: string, stamped: bool)

  /** A visit is kept when its port is not a 2017 party and port, flag and class are present. */
  predicate Kept(v: Visit, party2017: seq<string>) {
    v.port.Some? && v.port.value !in party2017 && v.flag.Some? && v.vesselClass.Some?
  }

  function ToCall(v: Visit): PortCall
    requires v.port.Some? && v.flag.Some? && v.vesselClass.Some?
  {
    PortCall(v.year, v.port.value, v.flag.value, v.vesselClass.value, v.flagGroup, v.stamped)
  }

  /** The kept visits, in order, as port calls. */
  function Clean(visits: seq<Visit>, party2017: seq<string>): (r: seq<PortCall>)
    ensures |r| <= |visits|
    ensures forall c :: c in r <==> exists v :: v in visits && Kept(v, party2017) && ToCall(v) == c
    ensures forall c :: c in r ==> c.port !in party2017
  {
    if |visits| == 0 then []
    else
      var v := visits[0];
      assert forall x :: x in visits <==> x == v || x in visits[1..];
      var rest := Clean(visits[1..], party2017);
      if Kept(v, party2017) then [ToCall(v)] + rest else rest
  }

  /** A foreign call: port and flag belong to different sovereigns. */
  predicate Foreign(pairs: seq<Pair>, c: PortCall) {
    Sovereign(pairs, c.port) != Sovereign(pairs, c.flag)
  }

  /** `bar`: the foreign calls, each as often as it occurs. */
  function ForeignCalls(calls: seq<PortCall>, pairs: seq<Pair>): (r: seq<PortCall>)
    ensures forall c :: multiset(r)[c] == if Foreign(pairs, c) then multiset(calls)[c] else 0
    ensures forall c :: c in r ==> c.port != c.flag
  {
    Filter(calls, c => Foreign(pairs, c))
  }
}
