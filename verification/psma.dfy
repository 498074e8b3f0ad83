/** The lists of Port State Measures Agreement parties by year of entry into
    force, with the manual corrections for Denmark, Greenland and the Faroe
    Islands. Country-name conversion and date parsing happen outside the
    model: each row carries its ISO3 code and its parsed date. */
module Psma {
  import opened Wrappers
  import opened Seqs

  /** A calendar date, compared as (year, month, day). */
  datatype Date = Date(year: int, month: int, day: int)

  predicate ValidDate(d: Date) {
    1 <= d.month <= 12 && 1 <= d.day <= 31
  }

  predicate Before(a: Date, b: Date) {
    a.year < b.year || (a.year == b.year && (a.month < b.month || (a.month == b.month && a.day < b.day)))
  }

  /** `(x >= Timestamp(y, 1, 1)) * (x < Timestamp(y + 1, 1, 1))`. */
  predicate InYear(d: Date, y: int) {
    !Before(d, Date(y, 1, 1)) && Before(d, Date(y + 1, 1, 1))
  }

  /** For a real date, the window [y-01-01, (y+1)-01-01) is just the year y. */
  lemma InYearIsYear(d: Date, y: int)
    requires ValidDate(d)
    ensures InYear(d, y) <==> d.year == y
  {
  }

  /** One row of the treaty table; `blank` marks a row with no values at all. */
  datatype CountryRow = CountryRow(country: string, iso3: string, entry: Option<Date>, blank: bool)

  /** The rows the party lists use: not blank, not the European Union, with a date. */
  predicate Usable(r: CountryRow) {
    !r.blank && r.country != "European Union" && r.entry.Some?
  }

  /** The ISO3 codes of the usable rows whose treaty entered into force in year y. */
  function Parties(rows: seq<CountryRow>, y: int): (r: seq<string>)
    ensures forall c :: c in r <==> exists row :: row in rows && Usable(row) && InYear(row.entry.value, y) && row.iso3 == c
  {
    if |rows| == 0 then []
    else
      var rest := Parties(rows[1..], y);
      assert forall row :: row in rows <==> row == rows[0] || row in rows[1..];
      var row := rows[0];
      if Usable(row) && InYear(row.entry.value, y) then [row.iso3] + rest else rest
  }

  /** `psma_party2016`: the 2016 parties, plus Denmark. */
  function Party2016(rows: seq<CountryRow>): (r: seq<string>)
    ensures "DNK" in r
    ensures forall c :: c in r <==>
      (c == "DNK" || exists row :: row in rows && Usable(row) && InYear(row.entry.value, 2016) && row.iso3 == c)
  {
    Parties(rows, 2016) + ["DNK"]
  }

  /** `psma_party2017`: the 2017 parties with the first Denmark removed and
      Greenland and the Faroe Islands added; removing a Denmark that is not
      listed raises. */
  function Party2017(rows: seq<CountryRow>): (r: Result<seq<string>>)
    ensures r.Err? <==> "DNK" !in Parties(rows, 2017)
    ensures r.Err? ==> r.failure == NotInList("DNK")
    ensures r.Ok? ==> "GRL" in r.value && "FRO" in r.value
    ensures r.Ok? ==> forall c :: c != "DNK" && c != "GRL" && c != "FRO" ==>
      (c in r.value <==> c in Parties(rows, 2017))
    ensures r.Ok? ==> ("DNK" in r.value <==> multiset(Parties(rows, 2017))["DNK"] > 1)
  {
    match RemoveFirst(Parties(rows, 2017), "DNK")
    case Err(f) => Err(f)
    case Ok(rest) =>
      var ps := Parties(rows, 2017);
      assert forall c :: c != "DNK" ==> (c in rest <==> c in ps) by {
        forall c | c != "DNK" ensures c in rest <==> c in ps {
          assert c in rest <==> multiset(rest)[c] > 0;
          assert c in ps <==> multiset(ps)[c] > 0;
        }
      }
      assert "DNK" in rest <==> multiset(rest)["DNK"] > 0;
      Ok(rest + ["GRL", "FRO"])
  }
}
