/** The port-visit panel: choice of the vessels of interest, visit counts per
    (year, port), the ports seen in both 2015 and 2017, the cut of ports with
    few visits, and the scaled response. */
module VisitPanel {
  import opened Wrappers
  import opened Seqs
  import opened Psma
  import opened Sovereignty

  // ---------------------------------------------------------------------
  // The analysis variable.

  const FishingGear: seq<string> := ["trollers", "trawlers", "squid_jigger", "set_longlines", "set_gillnets",
    "purse_seine", "pots_and_traps", "pole_and_line", "driftnets", "drifting_longlines"]

  const AllClass: seq<string> := FishingGear + ["bunker", "cargo", "specialized_reefer", "tanker"]

  const FlagGroups: seq<string> := ["group1", "group2", "group3", "china", "other"]

  /** A fishing vessel of flag group `g`. */
  predicate OfGroup(c: PortCall, g: string) {
    c.vesselClass in FishingGear && c.flagGroup == g
  }

  /** The calls of interest for `varName`: one vessel class, all fishing gear,
      or the fishing vessels of one flag group; any other name exits. */
  function Select(calls: seq<PortCall>, varName: string): (r: Result<seq<PortCall>>)
    ensures r.Err? <==> varName !in AllClass && varName != "fishing_gear" && varName !in FlagGroups
    ensures r.Err? ==> r.failure == UnknownVariable(varName)
    ensures varName in AllClass ==>
      (r.Ok? && forall c :: multiset(r.value)[c] == if c.vesselClass == varName then multiset(calls)[c] else 0)
    ensures varName == "fishing_gear" ==>
      (r.Ok? && forall c :: multiset(r.value)[c] == if c.vesselClass in FishingGear then multiset(calls)[c] else 0)
    ensures varName in FlagGroups ==>
      (r.Ok? && forall c :: multiset(r.value)[c] == if OfGroup(c, varName) then multiset(calls)[c] else 0)
  {
    assert "fishing_gear" !in AllClass;
    assert forall g :: g in FlagGroups ==> g !in AllClass;
    if varName in AllClass then Ok(Filter(calls, (c: PortCall) => c.vesselClass == varName))
    else
      var fishing := Filter(calls, (c: PortCall) => c.vesselClass in FishingGear);
      if varName == "fishing_gear" then Ok(fishing)
      else if varName in FlagGroups then Ok(Filter(fishing, (c: PortCall) => c.flagGroup == varName))
      else Err(UnknownVariable(varName))
  }

  // ---------------------------------------------------------------------
  // Visit counts per (year, port).

  type Key = (int, string)

  function KeyOf(c: PortCall): Key {
    (c.year, c.port)
  }

  /** Reference count: the calls with key `k` that carry a start timestamp. */
  function Stamped(calls: seq<PortCall>, k: Key): nat {
    if |calls| == 0 then 0
    else
      var c := calls[|calls| - 1];
      Stamped(calls[..|calls| - 1], k) + if KeyOf(c) == k && c.stamped then 1 else 0
  }

  lemma {:induction false} StampedAbsent(calls: seq<PortCall>, k: Key)
    requires forall c :: c in calls ==> KeyOf(c) != k
    ensures Stamped(calls, k) == 0
  {
    if |calls| > 0 {
      assert calls[|calls| - 1] in calls;
      StampedAbsent(calls[..|calls| - 1], k);
    }
  }

  /** A group of the count: its key and its number of non-null timestamps. */
  datatype Tally = Tally(year: int, port: string, visits: nat)

  function TallyKey(x: Tally): Key {
    (x.year, x.port)
  }

  predicate HasKey(t: seq<Tally>, k: Key) {
    exists i :: 0 <= i < |t| && TallyKey(t[i]) == k
  }

  predicate DistinctKeys(t: seq<Tally>) {
    forall i, j :: 0 <= i < j < |t| ==> TallyKey(t[i]) != TallyKey(t[j])
  }

  /** Counts one more call: its group's count goes up when the call is
      stamped, and a new group is opened for a new key. */
  function Add(t: seq<Tally>, c: PortCall): (r: seq<Tally>)
    requires DistinctKeys(t)
    ensures |r| == if HasKey(t, KeyOf(c)) then |t| else |t| + 1
    ensures forall i :: 0 <= i < |t| ==> TallyKey(r[i]) == TallyKey(t[i])
    ensures forall i :: 0 <= i < |t| ==>
      r[i].visits == t[i].visits + if TallyKey(t[i]) == KeyOf(c) && c.stamped then 1 else 0
    ensures !HasKey(t, KeyOf(c)) ==> r[|t|] == Tally(c.year, c.port, if c.stamped then 1 else 0)
  {
    if |t| == 0 then [Tally(c.year, c.port, if c.stamped then 1 else 0)]
    else
      var x := t[0];
      if TallyKey(x) == KeyOf(c) then
        assert HasKey(t, KeyOf(c));
        [Tally(x.year, x.port, x.visits + if c.stamped then 1 else 0)] + t[1..]
      else
        assert HasKey(t, KeyOf(c)) <==> HasKey(t[1..], KeyOf(c)) by {
          if HasKey(t, KeyOf(c)) {
            var i :| 0 <= i < |t| && TallyKey(t[i]) == KeyOf(c);
            assert TallyKey(t[1..][i - 1]) == KeyOf(c);
          }
          if HasKey(t[1..], KeyOf(c)) {
            var i :| 0 <= i < |t[1..]| && TallyKey(t[1..][i]) == KeyOf(c);
            assert TallyKey(t[i + 1]) == KeyOf(c);
          }
        }
        [x] + Add(t[1..], c)
  }

  /** Adding a call keeps the keys distinct and adds its key. */
  lemma AddKeys(t: seq<Tally>, c: PortCall)
    requires DistinctKeys(t)
    ensures DistinctKeys(Add(t, c))
    ensures forall k :: HasKey(Add(t, c), k) <==> HasKey(t, k) || k == KeyOf(c)
  {
    var r := Add(t, c);
    if !HasKey(t, KeyOf(c)) {
      assert TallyKey(r[|t|]) == KeyOf(c);
    }
    forall k | HasKey(r, k) ensures HasKey(t, k) || k == KeyOf(c) {
      var i :| 0 <= i < |r| && TallyKey(r[i]) == k;
      if i < |t| {
        assert TallyKey(t[i]) == k;
      }
    }
    forall k | HasKey(t, k) ensures HasKey(r, k) {
      var i :| 0 <= i < |t| && TallyKey(t[i]) == k;
      assert TallyKey(r[i]) == k;
    }
    if HasKey(t, KeyOf(c)) {
      var i :| 0 <= i < |t| && TallyKey(t[i]) == KeyOf(c);
      assert TallyKey(r[i]) == KeyOf(c);
    }
  }

  /** `groupby(['year', 'port_iso3']).count().start_timestamp`: the groups in
      order of first appearance. */
  function Count(calls: seq<PortCall>): (r: seq<Tally>)
    ensures DistinctKeys(r)
  {
    if |calls| == 0 then []
    else
      var t := Count(calls[..|calls| - 1]);
      AddKeys(t, calls[|calls| - 1]);
      Add(t, calls[|calls| - 1])
  }

  /** There is one group per key that occurs among the calls. */
  lemma {:induction false} CountKeys(calls: seq<PortCall>)
    ensures forall k :: HasKey(Count(calls), k) <==> exists c :: c in calls && KeyOf(c) == k
  {
    if |calls| > 0 {
      var init := calls[..|calls| - 1];
      var c := calls[|calls| - 1];
      assert forall x :: x in calls <==> x in init || x == c;
      CountKeys(init);
      AddKeys(Count(init), c);
    }
  }

  /** Each group holds the number of stamped calls with its key. */
  lemma {:induction false} CountVisits(calls: seq<PortCall>)
    ensures forall i :: 0 <= i < |Count(calls)| ==> Count(calls)[i].visits == Stamped(calls, TallyKey(Count(calls)[i]))
  {
    if |calls| > 0 {
      var init := calls[..|calls| - 1];
      var c := calls[|calls| - 1];
      var t := Count(init);
      CountVisits(init);
      if !HasKey(t, KeyOf(c)) {
        CountKeys(init);
        StampedAbsent(init, KeyOf(c));
      }
    }
  }

  // ---------------------------------------------------------------------
  // The panel rows.

  /** A panel row: visits, PSMA party in 2016, and before (0) or after (1). */
  datatype Cell = Cell(year: int, port: string, visits: nat, psma: nat, after: nat)

  predicate HasCell(cells: seq<Cell>, y: int, p: string) {
    exists i :: 0 <= i < |cells| && cells[i].year == y && cells[i].port == p
  }

  predicate PanelYear(x: Tally) {
    x.year == 2015 || x.year == 2017
  }

  /** Adds the `psma` and `after` columns to a group. */
  function ToCell(x: Tally, party2016: seq<string>): (r: Cell)
    ensures r.year == x.year && r.port == x.port && r.visits == x.visits
    ensures r.psma <= 1 && (r.psma == 1 <==> x.port in party2016)
    ensures r.after <= 1 && (r.after == 0 <==> x.year == 2015)
  {
    Cell(x.year, x.port, x.visits, if x.port in party2016 then 1 else 0, if x.year == 2015 then 0 else 1)
  }

  /** `baz`: the 2015 and 2017 groups with their `psma` and `after` columns. */
  function Aggregate(calls: seq<PortCall>, party2016: seq<string>): (r: seq<Cell>)
    ensures forall i :: 0 <= i < |r| ==> (r[i].year == 2015 || r[i].year == 2017)
    ensures forall i :: 0 <= i < |r| ==> r[i].psma <= 1 && (r[i].psma == 1 <==> r[i].port in party2016)
    ensures forall i :: 0 <= i < |r| ==> r[i].after <= 1 && (r[i].after == 0 <==> r[i].year == 2015)
  {
    var f := Filter(Count(calls), PanelYear);
    assert forall i :: 0 <= i < |f| ==> PanelYear(f[i]) by {
      forall i | 0 <= i < |f| ensures PanelYear(f[i]) {
        assert f[i] in f;
      }
    }
    seq(|f|, i requires 0 <= i < |f| => ToCell(f[i], party2016))
  }

  /** Each row counts the stamped calls with its (year, port) key. */
  lemma {:induction false} AggregateVisits(calls: seq<PortCall>, party2016: seq<string>)
    ensures forall i :: 0 <= i < |Aggregate(calls, party2016)| ==>
      Aggregate(calls, party2016)[i].visits == Stamped(calls, (Aggregate(calls, party2016)[i].year, Aggregate(calls, party2016)[i].port))
  {
    var t := Count(calls);
    var f := Filter(t, PanelYear);
    var r := Aggregate(calls, party2016);
    CountVisits(calls);
    forall i | 0 <= i < |r| ensures r[i].visits == Stamped(calls, (r[i].year, r[i].port)) {
      assert f[i] in t;
    }
  }

  /** There is a row for a (year, port) exactly when the year is 2015 or 2017
      and some call has that year and port. */
  lemma {:induction false} AggregateKeys(calls: seq<PortCall>, party2016: seq<string>)
    ensures forall y, p :: HasCell(Aggregate(calls, party2016), y, p) <==>
      (y == 2015 || y == 2017) && exists c :: c in calls && KeyOf(c) == (y, p)
  {
    var t := Count(calls);
    var f := Filter(t, PanelYear);
    var r := Aggregate(calls, party2016);
    CountKeys(calls);
    forall y, p ensures HasCell(r, y, p) <==> (y == 2015 || y == 2017) && HasKey(t, (y, p)) {
      if HasCell(r, y, p) {
        var i :| 0 <= i < |r| && r[i].year == y && r[i].port == p;
        assert f[i] in t;
      }
      if (y == 2015 || y == 2017) && HasKey(t, (y, p)) {
        var j :| 0 <= j < |t| && TallyKey(t[j]) == (y, p);
        assert t[j] in f;
        var i :| 0 <= i < |f| && f[i] == t[j];
        assert r[i].year == y && r[i].port == p;
      }
    }
  }

  // ---------------------------------------------------------------------
  // Ports seen before and after.

  /** Some row of port `p` has the given `after` value. */
  predicate PortIn(cells: seq<Cell>, p: string, after: nat) {
    exists i :: 0 <= i < |cells| && cells[i].port == p && cells[i].after == after
  }

  /** `keep`: the rows of the ports that have both a before and an after row. */
  function BothYears(cells: seq<Cell>): (r: seq<Cell>)
    ensures forall x :: multiset(r)[x] == if PortIn(cells, x.port, 0) && PortIn(cells, x.port, 1) then multiset(cells)[x] else 0
    ensures forall x :: x in r <==> x in cells && PortIn(cells, x.port, 0) && PortIn(cells, x.port, 1)
    ensures forall x :: x in r ==> PortIn(r, x.port, 0) && PortIn(r, x.port, 1)
  {
    var r := Filter(cells, (x: Cell) => PortIn(cells, x.port, 0) && PortIn(cells, x.port, 1));
    forall x | x in r ensures PortIn(r, x.port, 0) && PortIn(r, x.port, 1) {
      var i :| 0 <= i < |cells| && cells[i].port == x.port && cells[i].after == 0;
      var j :| 0 <= j < |cells| && cells[j].port == x.port && cells[j].after == 1;
      assert cells[i] in r && cells[j] in r;
      var i' :| 0 <= i' < |r| && r[i'] == cells[i];
      var j' :| 0 <= j' < |r| && r[j'] == cells[j];
    }
    r
  }

  // ---------------------------------------------------------------------
  // The cumulative-share cutoff.

  function VisitCounts(cells: seq<Cell>): (r: seq<nat>)
    ensures |r| == |cells| && forall i :: 0 <= i < |r| ==> r[i] == cells[i].visits
  {
    seq(|cells|, i requires 0 <= i < |cells| => cells[i].visits)
  }

  predicate Descending(s: seq<nat>) {
    forall i, j :: 0 <= i < j < |s| ==> s[i] >= s[j]
  }

  /** Inserts `x` before the first element it is not smaller than. */
  function InsertDesc(x: nat, s: seq<nat>): (r: seq<nat>)
    ensures multiset(r) == multiset(s) + multiset{x}
  {
    if |s| == 0 then [x]
    else if x >= s[0] then [x] + s
    else
      assert s == [s[0]] + s[1..];
      [s[0]] + InsertDesc(x, s[1..])
  }

  lemma {:induction false} InsertDescSorted(x: nat, s: seq<nat>)
    requires Descending(s)
    ensures Descending(InsertDesc(x, s))
  {
    if |s| > 0 && x < s[0] {
      var rest := InsertDesc(x, s[1..]);
      InsertDescSorted(x, s[1..]);
      forall j | 0 <= j < |rest| ensures rest[j] <= s[0] {
        assert rest[j] in multiset(rest);
        if rest[j] != x {
          assert rest[j] in s[1..];
        }
      }
    }
  }

  /** `sort_values(ascending=False)` on the counts. */
  function SortDesc(s: seq<nat>): (r: seq<nat>)
    ensures Descending(r) && multiset(r) == multiset(s)
  {
    if |s| == 0 then []
    else
      assert s == s[..|s| - 1] + [s[|s| - 1]];
      InsertDescSorted(s[|s| - 1], SortDesc(s[..|s| - 1]));
      InsertDesc(s[|s| - 1], SortDesc(s[..|s| - 1]))
  }

  /** The cumulative share up to and including position `k` exceeds 95%. */
  predicate Exceeds(s: seq<nat>, k: nat)
    requires k < |s|
  {
    100 * Sum(s[..k + 1]) > 95 * Sum(s)
  }

  /** The first position from `k` on whose cumulative share exceeds 95%. */
  function FirstExceeding(s: seq<nat>, k: nat): (i: nat)
    requires k < |s| && Sum(s) > 0
    requires forall j :: 0 <= j < k ==> !Exceeds(s, j)
    ensures k <= i < |s| && Exceeds(s, i)
    ensures forall j :: 0 <= j < i ==> !Exceeds(s, j)
    decreases |s| - k
  {
    assert k == |s| - 1 ==> Exceeds(s, k) by {
      if k == |s| - 1 {
        assert s[..k + 1] == s;
      }
    }
    if Exceeds(s, k) then k else FirstExceeding(s, k + 1)
  }

  lemma {:induction false} SumZero(s: seq<nat>)
    ensures Sum(s) == 0 <==> forall i :: 0 <= i < |s| ==> s[i] == 0
    ensures Sum(s) >= 0
  {
    if |s| > 0 {
      SumZero(s[..|s| - 1]);
    }
  }

  /** The first position whose share exceeds 95% adds visits of its own. */
  lemma ExceedingIsPositive(s: seq<nat>, k: nat)
    requires k < |s| && Sum(s) > 0
    requires Exceeds(s, k) && forall j :: 0 <= j < k ==> !Exceeds(s, j)
    ensures s[k] > 0
  {
    assert s[..k + 1][..k] == s[..k];
    if k > 0 {
      assert !Exceeds(s, k - 1);
    }
  }

  /** Sorting keeps the elements, so the sorted counts are all zero exactly
      when the counts are. */
  lemma SortedZero(ns: seq<nat>)
    ensures forall x :: x in SortDesc(ns) <==> x in ns
    ensures Sum(SortDesc(ns)) == 0 <==> forall i :: 0 <= i < |ns| ==> ns[i] == 0
    ensures Sum(SortDesc(ns)) >= 0
  {
    var s := SortDesc(ns);
    SumZero(s);
    forall x ensures x in s <==> x in ns {
      assert x in s <==> x in multiset(s);
      assert x in ns <==> x in multiset(ns);
    }
    if forall i :: 0 <= i < |ns| ==> ns[i] == 0 {
      forall i | 0 <= i < |s| ensures s[i] == 0 {
        assert s[i] in ns;
      }
    } else {
      var i :| 0 <= i < |ns| && ns[i] != 0;
      assert ns[i] in s;
    }
  }

  /** `summary.loc[summary.proportion > 0.95, 'n_visits'].values[0]`: the count
      at the first position of the descending counts whose cumulative share
      exceeds 95%. With no visits at all the shares are undefined and the
      selection is empty. */
  function Cutoff(ns: seq<nat>): (r: Result<nat>)
    ensures r.Err? <==> forall i :: 0 <= i < |ns| ==> ns[i] == 0
    ensures r.Err? ==> r.failure == EmptySelection
    ensures r.Ok? ==> r.value > 0 && r.value in ns
  {
    var s := SortDesc(ns);
    SortedZero(ns);
    if Sum(s) == 0 then Err(EmptySelection)
    else
      var k := FirstExceeding(s, 0);
      ExceedingIsPositive(s, k);
      assert s[k] in s;
      Ok(s[k])
  }

  function AtLeast(v: nat): nat -> bool {
    x => x >= v
  }

  function Above(v: nat): nat -> bool {
    x => x > v
  }

  /** The sum of the elements of `s` that pass `p`. */
  function SumWhere(s: seq<nat>, p: nat -> bool): nat {
    if |s| == 0 then 0
    else SumWhere(s[..|s| - 1], p) + (if p(s[|s| - 1]) then s[|s| - 1] else 0)
  }

  /** Summing a filter is summing the elements that pass it. */
  lemma {:induction false} SumWhereFilter(s: seq<nat>, p: nat -> bool)
    ensures Sum(Filter(s, p)) == SumWhere(s, p)
  {
    if |s| > 0 {
      SumWhereFilter(s[..|s| - 1], p);
      var rest, x := Filter(s[..|s| - 1], p), s[|s| - 1];
      if p(x) {
        assert Filter(s, p) == rest + [x];
        assert (rest + [x])[..|rest|] == rest;
      }
    }
  }

  /** The passing elements never sum to more than all of them. */
  lemma {:induction false} SumWhereBound(s: seq<nat>, p: nat -> bool)
    ensures SumWhere(s, p) <= Sum(s)
  {
    if |s| > 0 {
      SumWhereBound(s[..|s| - 1], p);
    }
  }

  /** When every element passes, the passing elements are all of them. */
  lemma {:induction false} SumWhereAll(s: seq<nat>, p: nat -> bool)
    requires forall j :: 0 <= j < |s| ==> p(s[j])
    ensures SumWhere(s, p) == Sum(s)
  {
    if |s| > 0 {
      SumWhereAll(s[..|s| - 1], p);
    }
  }

  /** A prefix never has more passing mass than the whole. */
  lemma {:induction false} SumWherePrefix(s: seq<nat>, n: nat, p: nat -> bool)
    requires n <= |s|
    ensures SumWhere(s[..n], p) <= SumWhere(s, p)
  {
    if n < |s| {
      SumWherePrefix(s[..|s| - 1], n, p);
      assert s[..|s| - 1][..n] == s[..n];
    } else {
      assert s[..n] == s;
    }
  }

  /** When nothing after position `n` passes, only the prefix counts. */
  lemma {:induction false} SumWhereOfPrefix(s: seq<nat>, n: nat, p: nat -> bool)
    requires n <= |s| && forall j :: n <= j < |s| ==> !p(s[j])
    ensures SumWhere(s, p) == SumWhere(s[..n], p)
  {
    if n < |s| {
      SumWhereOfPrefix(s[..|s| - 1], n, p);
      assert s[..|s| - 1][..n] == s[..n];
    } else {
      assert s[..n] == s;
    }
  }

  /** Filters of a permutation have the same sum. */
  lemma FilterSumPermutation(a: seq<nat>, b: seq<nat>, p: nat -> bool)
    requires multiset(a) == multiset(b)
    ensures Sum(Filter(a, p)) == Sum(Filter(b, p))
  {
    assert multiset(Filter(a, p)) == multiset(Filter(b, p));
    SumPermutation(Filter(a, p), Filter(b, p));
  }

  /** On the descending counts, the values from the first exceeding position
      upwards carry more than 95%. */
  lemma SortedShareAtLeast(s: seq<nat>, k: nat)
    requires Descending(s) && k < |s| && Exceeds(s, k)
    ensures 100 * SumWhere(s, AtLeast(s[k])) > 95 * Sum(s)
  {
    SumWhereAll(s[..k + 1], AtLeast(s[k]));
    SumWherePrefix(s, k + 1, AtLeast(s[k]));
  }

  /** On the descending counts, the values strictly above the one at the first
      exceeding position all come before it, so they carry at most 95%. */
  lemma SortedShareAbove(s: seq<nat>, k: nat)
    requires Descending(s) && k < |s| && forall j :: 0 <= j < k ==> !Exceeds(s, j)
    ensures 100 * SumWhere(s, Above(s[k])) <= 95 * Sum(s)
  {
    SumWhereOfPrefix(s, k, Above(s[k]));
    SumWhereBound(s[..k], Above(s[k]));
    SumZero(s);
    if k > 0 {
      assert !Exceeds(s, k - 1);
      assert s[..k - 1 + 1] == s[..k];
    }
  }

  /** The meaning of the cutoff: the counts of at least the cutoff carry more
      than 95% of all visits, and the counts above it carry no more than 95%. */
  lemma CutoffShare(ns: seq<nat>)
    requires Cutoff(ns).Ok?
    ensures 100 * Sum(Filter(ns, AtLeast(Cutoff(ns).value))) > 95 * Sum(ns)
    ensures 100 * Sum(Filter(ns, Above(Cutoff(ns).value))) <= 95 * Sum(ns)
  {
    var s := SortDesc(ns);
    SortedZero(ns);
    var k := FirstExceeding(s, 0);
    var v := s[k];
    assert Cutoff(ns).value == v;
    SumPermutation(s, ns);
    SortedShareAtLeast(s, k);
    SortedShareAbove(s, k);
    SumWhereFilter(s, AtLeast(v));
    SumWhereFilter(s, Above(v));
    FilterSumPermutation(s, ns, AtLeast(v));
    FilterSumPermutation(s, ns, Above(v));
  }

  // ---------------------------------------------------------------------
  // Removal of ports with few visits.

  /** Port `p` has some row below the cutoff. */
  predicate Small(cells: seq<Cell>, p: string, cutoff: nat) {
    exists i :: 0 <= i < |cells| && cells[i].port == p && cells[i].visits < cutoff
  }

  /** `baz[~baz.port_iso3.isin(remove_iso3)]`: drops every row of each port
      that has a row below the cutoff. */
  function RemoveSmall(cells: seq<Cell>, cutoff: nat): (r: seq<Cell>)
    ensures forall x :: multiset(r)[x] == if Small(cells, x.port, cutoff) then 0 else multiset(cells)[x]
    ensures forall x :: x in r <==> x in cells && !Small(cells, x.port, cutoff)
    ensures forall x :: x in r ==> x.visits >= cutoff
    ensures forall x, y :: x in r && y in cells && y.port == x.port ==> y in r
  {
    Filter(cells, (x: Cell) => !Small(cells, x.port, cutoff))
  }

  lemma PortInKept(cells: seq<Cell>, r: seq<Cell>, p: string, a: nat)
    requires PortIn(cells, p, a)
    requires forall y :: y in cells && y.port == p ==> y in r
    ensures PortIn(r, p, a)
  {
    var i :| 0 <= i < |cells| && cells[i].port == p && cells[i].after == a;
    assert cells[i] in r;
    var j :| 0 <= j < |r| && r[j] == cells[i];
  }

  /** Ports seen before and after are still seen before and after. */
  lemma RemoveSmallKeepsPorts(cells: seq<Cell>, cutoff: nat)
    requires forall x :: x in cells ==> PortIn(cells, x.port, 0) && PortIn(cells, x.port, 1)
    ensures forall x :: x in RemoveSmall(cells, cutoff) ==>
      PortIn(RemoveSmall(cells, cutoff), x.port, 0) && PortIn(RemoveSmall(cells, cutoff), x.port, 1)
  {
    var r := RemoveSmall(cells, cutoff);
    forall x | x in r ensures PortIn(r, x.port, 0) && PortIn(r, x.port, 1) {
      PortInKept(cells, r, x.port, 0);
      PortInKept(cells, r, x.port, 1);
    }
  }

  // ---------------------------------------------------------------------
  // The response.

  function Max(ys: seq<nat>): (m: nat)
    requires |ys| > 0
    ensures m in ys && forall i :: 0 <= i < |ys| ==> ys[i] <= m
  {
    if |ys| == 1 then ys[0]
    else
      var m := Max(ys[..|ys| - 1]);
      assert forall i :: 0 <= i < |ys| - 1 ==> ys[i] == ys[..|ys| - 1][i];
      if ys[|ys| - 1] > m then ys[|ys| - 1] else m
  }

  /** One scaled count: a share of the maximum. */
  function Ratio(y: nat, m: nat): (q: real)
    requires 0 < m && y <= m
    ensures 0.0 <= q <= 1.0
    ensures q > 0.0 <==> y > 0
    ensures q == 1.0 <==> y == m
  {
    y as real / m as real
  }

  lemma RatioMonotone(a: nat, b: nat, m: nat)
    requires 0 < m && a <= b <= m
    ensures Ratio(a, m) <= Ratio(b, m)
  {
    var mr := m as real;
    var d := (b - a) as real / mr;
    assert d * mr == b as real - a as real;
    assert (b as real / mr) * mr == b as real;
    assert (a as real / mr) * mr == a as real;
    assert (b as real / mr - a as real / mr) * mr == d * mr;
  }

  /** `Y / np.max(Y)`: `np.max` of nothing raises, and a zero maximum gives
      no usable response. */
  function Scale(ys: seq<nat>): (r: Result<seq<real>>)
    ensures |ys| == 0 <==> r == Err(EmptySelection)
    ensures r == Err(DegenerateScale) <==> |ys| > 0 && forall i :: 0 <= i < |ys| ==> ys[i] == 0
    ensures r.Ok? ==> |r.value| == |ys|
    ensures r.Ok? ==> forall i :: 0 <= i < |ys| ==> 0.0 <= r.value[i] <= 1.0 && (r.value[i] > 0.0 <==> ys[i] > 0)
    ensures r.Ok? ==> forall i :: 0 <= i < |ys| ==> (r.value[i] == 1.0 <==> forall j :: 0 <= j < |ys| ==> ys[j] <= ys[i])
    ensures r.Ok? ==> forall i, j :: 0 <= i < |ys| && 0 <= j < |ys| && ys[i] <= ys[j] ==> r.value[i] <= r.value[j]
  {
    if |ys| == 0 then Err(EmptySelection)
    else
      var m := Max(ys);
      if m == 0 then Err(DegenerateScale)
      else
        var r := seq(|ys|, i requires 0 <= i < |ys| => Ratio(ys[i], m));
        assert forall i, j :: 0 <= i < |ys| && 0 <= j < |ys| && ys[i] <= ys[j] ==> r[i] <= r[j] by {
          forall i, j | 0 <= i < |ys| && 0 <= j < |ys| && ys[i] <= ys[j] ensures r[i] <= r[j] {
            RatioMonotone(ys[i], ys[j], m);
          }
        }
        Ok(r)
  }

  // ---------------------------------------------------------------------
  // The whole preparation.

  /** The model input: the panel rows and the scaled visit counts. */
  datatype Panel = Panel(cells: seq<Cell>, response: seq<real>)

  /** The cutoff, the removal of small ports and the scaled response. */
  function Trim(cells: seq<Cell>): (r: Result<Panel>)
    ensures r.Ok? ==> |r.value.response| == |r.value.cells|
  {
    match Cutoff(VisitCounts(cells))
    case Err(f) => Err(f)
    case Ok(cutoff) =>
      var kept := RemoveSmall(cells, cutoff);
      match Scale(VisitCounts(kept))
      case Err(f) => Err(f)
      case Ok(y) => Ok(Panel(kept, y))
  }

  /** The trimmed rows are input rows with at least one visit, and ports
      seen in both periods stay so. */
  lemma TrimRows(cells: seq<Cell>)
    requires Trim(cells).Ok?
    ensures forall x :: x in Trim(cells).value.cells ==> x in cells && x.visits > 0
    ensures (forall x :: x in cells ==> PortIn(cells, x.port, 0) && PortIn(cells, x.port, 1)) ==>
      forall x :: x in Trim(cells).value.cells ==>
        PortIn(Trim(cells).value.cells, x.port, 0) && PortIn(Trim(cells).value.cells, x.port, 1)
  {
    var cutoff := Cutoff(VisitCounts(cells)).value;
    assert Trim(cells).value.cells == RemoveSmall(cells, cutoff);
    if forall x :: x in cells ==> PortIn(cells, x.port, 0) && PortIn(cells, x.port, 1) {
      RemoveSmallKeepsPorts(cells, cutoff);
    }
  }

  /** The response lies in (0, 1] and reaches 1. */
  lemma TrimResponse(cells: seq<Cell>)
    requires Trim(cells).Ok?
    ensures var y := Trim(cells).value.response;
      (forall i :: 0 <= i < |y| ==> 0.0 < y[i] <= 1.0) && exists i :: 0 <= i < |y| && y[i] == 1.0
  {
    var cutoff := Cutoff(VisitCounts(cells)).value;
    var kept := RemoveSmall(cells, cutoff);
    var ys := VisitCounts(kept);
    assert Trim(cells).value.response == Scale(ys).value;
    forall i | 0 <= i < |ys| ensures ys[i] > 0 {
      assert kept[i] in kept;
    }
    var m := Max(ys);
    var i :| 0 <= i < |ys| && ys[i] == m;
  }

  /** Trimming can only fail on an empty selection: when no row has a visit,
      or when every row of the cut is removed; a zero maximum never occurs. */
  lemma TrimErrors(cells: seq<Cell>)
    ensures Trim(cells).Err? ==> Trim(cells) == Err(EmptySelection)
  {
    if Cutoff(VisitCounts(cells)).Ok? {
      var cutoff := Cutoff(VisitCounts(cells)).value;
      var kept := RemoveSmall(cells, cutoff);
      if |kept| > 0 {
        assert kept[0] in kept;
        assert VisitCounts(kept)[0] > 0;
      }
    }
  }

  /** The cut can remove every port: one dominant row sets the cutoff, and
      its port's other row falls below it. */
  lemma CutEmptiesPanel()
    ensures var cells := [Cell(2015, "A", 100, 0, 0), Cell(2017, "A", 1, 0, 1)];
      Cutoff(VisitCounts(cells)) == Ok(100) && Trim(cells) == Err(EmptySelection)
  {
    var cells := [Cell(2015, "A", 100, 0, 0), Cell(2017, "A", 1, 0, 1)];
    var ns := VisitCounts(cells);
    assert ns == [100, 1];
    assert [100, 1][..1] == [100];
    assert SortDesc([100]) == [100] by {
      assert [100][..0] == [];
    }
    assert SortDesc(ns) == [100, 1] by {
      assert ns[..1] == [100];
      assert InsertDesc(1, [100]) == [100, 1] by {
        assert [100][1..] == [];
      }
    }
    assert Sum([100, 1]) == 101;
    assert Exceeds([100, 1], 0);
    assert Small(cells, "A", 100) by {
      assert cells[1].port == "A" && cells[1].visits < 100;
    }
    assert RemoveSmall(cells, 100) == [] by {
      assert forall x :: x !in RemoveSmall(cells, 100);
    }
  }

  /** The whole panel preparation, from the 2017 party list to the response. */
  function PreparePanel(countries: seq<CountryRow>, visits: seq<Visit>, eez: seq<EezRow>, varName: string): (r: Result<Panel>)
    ensures r.Ok? ==> |r.value.response| == |r.value.cells|
  {
    match Party2017(countries)
    case Err(f) => Err(f)
    case Ok(party2017) =>
      var calls := ForeignCalls(Clean(visits, party2017), TerritoryPairs(eez));
      match Select(calls, varName)
      case Err(f) => Err(f)
      case Ok(selected) => Trim(BothYears(Aggregate(selected, Party2016(countries))))
  }

  /** Trimming rows of 2015 and 2017 with their indicators, of ports seen in
      both years, keeps all of that, leaves only rows with visits, and yields a
      response in (0, 1] that reaches 1. */
  lemma TrimmedPanel(cells: seq<Cell>, party2016: seq<string>)
    requires Trim(cells).Ok?
    requires forall x :: x in cells ==>
      (x.year == 2015 || x.year == 2017) &&
      x.after <= 1 && (x.after == 0 <==> x.year == 2015) &&
      x.psma <= 1 && (x.psma == 1 <==> x.port in party2016)
    requires forall x :: x in cells ==> PortIn(cells, x.port, 0) && PortIn(cells, x.port, 1)
    ensures var p := Trim(cells).value;
      forall x :: x in p.cells ==>
        (x.year == 2015 || x.year == 2017) && x.visits > 0 &&
        x.after <= 1 && (x.after == 0 <==> x.year == 2015) &&
        x.psma <= 1 && (x.psma == 1 <==> x.port in party2016)
    ensures var p := Trim(cells).value;
      forall x :: x in p.cells ==> PortIn(p.cells, x.port, 0) && PortIn(p.cells, x.port, 1)
    ensures var p := Trim(cells).value;
      (forall i :: 0 <= i < |p.response| ==> 0.0 < p.response[i] <= 1.0) &&
      exists i :: 0 <= i < |p.response| && p.response[i] == 1.0
  {
    TrimRows(cells);
    TrimResponse(cells);
  }

  /** A prepared panel holds 2015 and 2017 rows of ports seen in both years,
      with the party and period indicators, at least one visit per row, and
      a response in (0, 1] that reaches 1. */
  lemma PanelSpec(countries: seq<CountryRow>, visits: seq<Visit>, eez: seq<EezRow>, varName: string)
    requires PreparePanel(countries, visits, eez, varName).Ok?
    ensures var p := PreparePanel(countries, visits, eez, varName).value;
      forall x :: x in p.cells ==>
        (x.year == 2015 || x.year == 2017) && x.visits > 0 &&
        x.after <= 1 && (x.after == 0 <==> x.year == 2015) &&
        x.psma <= 1 && (x.psma == 1 <==> x.port in Party2016(countries))
    ensures var p := PreparePanel(countries, visits, eez, varName).value;
      forall x :: x in p.cells ==> PortIn(p.cells, x.port, 0) && PortIn(p.cells, x.port, 1)
    ensures var p := PreparePanel(countries, visits, eez, varName).value;
      (forall i :: 0 <= i < |p.response| ==> 0.0 < p.response[i] <= 1.0) &&
      exists i :: 0 <= i < |p.response| && p.response[i] == 1.0
  {
    var party2017 := Party2017(countries).value;
    var calls := ForeignCalls(Clean(visits, party2017), TerritoryPairs(eez));
    var selected := Select(calls, varName).value;
    var agg := Aggregate(selected, Party2016(countries));
    var both := BothYears(agg);
    assert PreparePanel(countries, visits, eez, varName) == Trim(both);
    assert forall x :: x in both ==> x in agg;
    TrimmedPanel(both, Party2016(countries));
  }

  /** The preparation stops when Denmark is missing from the 2017 list,
      otherwise on an unknown variable, and otherwise only on an empty
      selection. */
  lemma PanelErrors(countries: seq<CountryRow>, visits: seq<Visit>, eez: seq<EezRow>, varName: string)
    ensures PreparePanel(countries, visits, eez, varName) == Err(NotInList("DNK")) <==> "DNK" !in Parties(countries, 2017)
    ensures "DNK" in Parties(countries, 2017) && varName !in AllClass && varName != "fishing_gear" && varName !in FlagGroups ==>
      PreparePanel(countries, visits, eez, varName) == Err(UnknownVariable(varName))
    ensures "DNK" in Parties(countries, 2017) && (varName in AllClass || varName == "fishing_gear" || varName in FlagGroups) ==>
      PreparePanel(countries, visits, eez, varName).Ok? || PreparePanel(countries, visits, eez, varName) == Err(EmptySelection)
  {
    if Party2017(countries).Ok? {
      var party2017 := Party2017(countries).value;
      var calls := ForeignCalls(Clean(visits, party2017), TerritoryPairs(eez));
      if Select(calls, varName).Ok? {
        var selected := Select(calls, varName).value;
        TrimErrors(BothYears(Aggregate(selected, Party2016(countries))));
      }
    }
  }
}
