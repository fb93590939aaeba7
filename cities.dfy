/**
 The city table read from `city_coords.csv`: one row per sampled point, in
 file order, with the city's name and coordinates. Names are not required to
 be unique.
 */
module Cities {
  import opened Values

  datatype Row = Row(city: string, lat: Float, lon: Float)

  /** `city_df.loc[city_df["city"] == city].iloc[0]`: the position of the
      first row whose name is `city`. The lookup fails (pandas raises) when
      no row has that name, so such a row must exist. */
  function FirstIndex(table: seq<Row>, city: string): (i: nat)
    requires exists j :: 0 <= j < |table| && table[j].city == city
    ensures i < |table| && table[i].city == city
    ensures forall j :: 0 <= j < i ==> table[j].city != city
  {
    if table[0].city == city then 0
    else
      var j :| 0 <= j < |table| && table[j].city == city;
      assert table[1..][j - 1].city == city;
      1 + FirstIndex(table[1..], city)
  }

  /** The row whose coordinates are used for the `i`-th row's request. */
  function LookupRow(table: seq<Row>, i: int): Row
    requires 0 <= i < |table|
  {
    table[FirstIndex(table, table[i].city)]
  }

  /** The row the loop looks up for its own `i`-th row is never a later one,
      and is row `i` itself exactly when no earlier row shares its name. */
  lemma LookupOfOwnRow(table: seq<Row>, i: int)
    requires 0 <= i < |table|
    ensures FirstIndex(table, table[i].city) <= i
    ensures FirstIndex(table, table[i].city) == i
        <==> forall j :: 0 <= j < i ==> table[j].city != table[i].city
  {
  }
}
