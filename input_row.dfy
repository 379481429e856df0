// The one-row input frame handed to the price model: a zero for every
// schema column, the six scalar fields written by name, and at most one
// indicator set to 1 in each of the city and locality column groups.

module InputRow {
  import opened Text
  import opened Schema
  import Furnishing

  /** The six columns the builder writes by name. */
  predicate IsScalar(col: string)
  {
    col == "area" || col == "beds" || col == "bathrooms" ||
    col == "balconies" || col == "furnishing" || col == "area_rate"
  }

  /** The values captured by the input form. */
  datatype RawFields = RawFields(
    area: int,
    beds: int,
    bathrooms: int,
    balconies: int,
    furnishing: string,
    areaRate: int,
    city: string,
    locality: string)

  /** The ranges and choices the input widgets allow. */
  predicate WidgetRanges(f: RawFields)
  {
    100 <= f.area <= 10000 &&
    1 <= f.beds <= 5 &&
    1 <= f.bathrooms <= 4 &&
    0 <= f.balconies <= 3 &&
    1 <= f.areaRate <= 500 &&
    Furnishing.IsLabel(f.furnishing)
  }

  /** A schema the builder can fill: no duplicate names, and every scalar
      column present, so that writing one by name never adds a column. */
  predicate WellFormed(schema: seq<string>)
  {
    Distinct(schema) &&
    "area" in schema && "beds" in schema && "bathrooms" in schema &&
    "balconies" in schema && "furnishing" in schema && "area_rate" in schema
  }

  /** The one-hot column groups. */
  predicate IsGroup(prefix: string)
  {
    prefix == CityPrefix || prefix == LocalityPrefix
  }

  /** The category selected for a group. */
  function Selection(f: RawFields, prefix: string): string
    requires IsGroup(prefix)
  {
    if prefix == CityPrefix then f.city else f.locality
  }

  /** The form with the selection of one group replaced by `v`. */
  function WithSelection(f: RawFields, prefix: string, v: string): (g: RawFields)
    requires IsGroup(prefix)
    ensures Selection(g, prefix) == v
  {
    if prefix == CityPrefix then f.(city := v) else f.(locality := v)
  }

  /** What the finished row holds in column `col`: the scalar field of that
      name, 1 for the selected city's and locality's indicator columns, and
      0 for everything else. */
  function Cell(col: string, f: RawFields): int
    requires Furnishing.IsLabel(f.furnishing)
  {
    if col == "area" then f.area
    else if col == "beds" then f.beds
    else if col == "bathrooms" then f.bathrooms
    else if col == "balconies" then f.balconies
    else if col == "furnishing" then Furnishing.Ordinal(f.furnishing)
    else if col == "area_rate" then f.areaRate
    else if col == CityPrefix + f.city || col == LocalityPrefix + f.locality then 1
    else 0
  }

  /** The finished row, one cell per schema column in schema order. */
  function Row(schema: seq<string>, f: RawFields): seq<int>
    requires Furnishing.IsLabel(f.furnishing)
  {
    seq(|schema|, i requires 0 <= i < |schema| => Cell(schema[i], f))
  }

  /** A column of a group is no scalar column and belongs to no other group. */
  lemma GroupsApart(col: string)
    ensures CityPrefix <= col ==> !IsScalar(col) && !(LocalityPrefix <= col)
    ensures LocalityPrefix <= col ==> !IsScalar(col) && !(CityPrefix <= col)
  {
    if CityPrefix <= col {
      assert col[0] == CityPrefix[0] == 'c';
      assert col[1] == 'i';
    }
    if LocalityPrefix <= col {
      assert col[0] == LocalityPrefix[0] == 'l';
    }
  }

  /** Each scalar column holds its field, furnishing as its ordinal rather
      than its label; no indicator write lands on a scalar column. */
  lemma ScalarCells(schema: seq<string>, f: RawFields)
    requires WellFormed(schema) && Furnishing.IsLabel(f.furnishing)
    ensures Row(schema, f)[IndexOf(schema, "area")] == f.area
    ensures Row(schema, f)[IndexOf(schema, "beds")] == f.beds
    ensures Row(schema, f)[IndexOf(schema, "bathrooms")] == f.bathrooms
    ensures Row(schema, f)[IndexOf(schema, "balconies")] == f.balconies
    ensures Row(schema, f)[IndexOf(schema, "furnishing")] == Furnishing.Ordinal(f.furnishing)
    ensures Row(schema, f)[IndexOf(schema, "area_rate")] == f.areaRate
  {
  }

  /** Only the six scalar cells and the two selected indicator cells can be
      nonzero; every other cell keeps its initial 0. */
  lemma OtherCellsZero(schema: seq<string>, f: RawFields)
    requires Furnishing.IsLabel(f.furnishing)
    ensures forall i :: 0 <= i < |schema| && Row(schema, f)[i] != 0 ==>
      IsScalar(schema[i]) || schema[i] == CityPrefix + f.city || schema[i] == LocalityPrefix + f.locality
  {
  }

  /** Inside a group only the selected category's indicator is 1; every other
      column of the group is 0. */
  lemma GroupCells(schema: seq<string>, f: RawFields, prefix: string)
    requires Furnishing.IsLabel(f.furnishing) && IsGroup(prefix)
    ensures forall i :: 0 <= i < |schema| && prefix <= schema[i] ==>
      Row(schema, f)[i] == (if schema[i] == prefix + Selection(f, prefix) then 1 else 0)
  {
    forall i | 0 <= i < |schema| && prefix <= schema[i]
      ensures Row(schema, f)[i] == (if schema[i] == prefix + Selection(f, prefix) then 1 else 0)
    {
      var col := schema[i];
      GroupsApart(col);
      GroupsApart(CityPrefix + f.city);
      GroupsApart(LocalityPrefix + f.locality);
      assert !IsScalar(col);
    }
  }

  /** A selection whose indicator column is not in the schema leaves the whole
      group at 0: a missing category gives the zero vector, not an error. */
  lemma MissingCategoryZero(schema: seq<string>, f: RawFields, prefix: string)
    requires Furnishing.IsLabel(f.furnishing) && IsGroup(prefix)
    requires prefix + Selection(f, prefix) !in schema
    ensures forall i :: 0 <= i < |schema| && prefix <= schema[i] ==> Row(schema, f)[i] == 0
  {
    GroupCells(schema, f, prefix);
  }

  /** A selection whose indicator column is in the schema sets that column to 1,
      and it is the only 1 in its group. */
  lemma SelectedCategoryOne(schema: seq<string>, f: RawFields, prefix: string)
    requires Furnishing.IsLabel(f.furnishing) && IsGroup(prefix) && Distinct(schema)
    requires prefix + Selection(f, prefix) in schema
    ensures Row(schema, f)[IndexOf(schema, prefix + Selection(f, prefix))] == 1
    ensures forall i :: 0 <= i < |schema| && prefix <= schema[i] && Row(schema, f)[i] == 1 ==>
      i == IndexOf(schema, prefix + Selection(f, prefix))
  {
    GroupCells(schema, f, prefix);
    var j := IndexOf(schema, prefix + Selection(f, prefix));
    assert prefix <= schema[j];
  }

  /** Changing one group's selection changes no cell outside that group:
      neither group's write touches a scalar column or the other group. */
  lemma GroupIsolation(schema: seq<string>, f: RawFields, prefix: string, v: string)
    requires Furnishing.IsLabel(f.furnishing) && IsGroup(prefix)
    ensures forall i :: 0 <= i < |schema| && !(prefix <= schema[i]) ==>
      Row(schema, WithSelection(f, prefix, v))[i] == Row(schema, f)[i]
  {
    var g := WithSelection(f, prefix, v);
    forall i | 0 <= i < |schema| && !(prefix <= schema[i])
      ensures Row(schema, g)[i] == Row(schema, f)[i]
    {
      if prefix == CityPrefix {
        assert schema[i] != CityPrefix + v && schema[i] != CityPrefix + f.city;
      } else {
        assert schema[i] != LocalityPrefix + v && schema[i] != LocalityPrefix + f.locality;
      }
    }
  }

  /** Round trip through the drop-down: a group column `prefix + x` whose
      category has no separator is offered as `x`, and selecting `x` sets
      exactly that column of the group. */
  lemma SelectionRoundTrip(schema: seq<string>, f: RawFields, prefix: string, i: nat)
    requires Furnishing.IsLabel(f.furnishing) && IsGroup(prefix) && Distinct(schema)
    requires i < |schema| && prefix <= schema[i] && Sep !in schema[i][|prefix|..]
    requires Selection(f, prefix) == schema[i][|prefix|..]
    ensures Selection(f, prefix) in ExtractDomain(schema, prefix)
    ensures Row(schema, f)[i] == 1
    ensures forall j :: 0 <= j < |schema| && j != i && prefix <= schema[j] ==> Row(schema, f)[j] == 0
  {
    KnownGroupPrefixes();
    CategoryExact(schema[i], prefix);
    ExtractDomainComplete(schema, prefix, i);
    GroupCells(schema, f, prefix);
  }

  /** A group column whose category contains a separator is offered cut
      short, and selecting what is offered never sets that column. */
  lemma TruncatedSelection(schema: seq<string>, f: RawFields, prefix: string, i: nat)
    requires Furnishing.IsLabel(f.furnishing) && IsGroup(prefix)
    requires i < |schema| && prefix <= schema[i] && Sep in schema[i][|prefix|..]
    requires GroupPrefix(prefix) && Selection(f, prefix) == Category(schema[i], prefix)
    ensures Selection(f, prefix) in ExtractDomain(schema, prefix)
    ensures Row(schema, f)[i] == 0
  {
    CategoryTruncated(schema[i], prefix);
    ExtractDomainComplete(schema, prefix, i);
    GroupCells(schema, f, prefix);
  }

  /** With inputs the widgets allow, every cell lies between 0 and 10000. */
  lemma RowBounds(schema: seq<string>, f: RawFields)
    requires WidgetRanges(f)
    ensures forall i :: 0 <= i < |schema| ==> 0 <= Row(schema, f)[i] <= 10000
  {
    forall i | 0 <= i < |schema|
      ensures 0 <= Row(schema, f)[i] <= 10000
    {
      if schema[i] == "furnishing" {
        assert Row(schema, f)[i] == Furnishing.Ordinal(f.furnishing);
      }
    }
  }

  /** Row construction on a worked example. */
  lemma ExampleRow()
    ensures Row(
      ["area", "beds", "bathrooms", "balconies", "furnishing", "area_rate", "city_Pune", "city_Mumbai", "locality_Kothrud"],
      RawFields(900, 2, 2, 1, "Furnished", 50, "Pune", "Kothrud"))
      == [900, 2, 2, 1, 2, 50, 1, 0, 1]
  {
    var f := RawFields(900, 2, 2, 1, "Furnished", 50, "Pune", "Kothrud");
    assert Furnishing.Ordinal("Furnished") == 2 by {
      assert Furnishing.Options[2] == "Furnished";
    }
  }

  /** The same example with a city that has no column: every city cell is 0. */
  lemma ExampleUnknownCity()
    ensures Row(
      ["area", "beds", "bathrooms", "balconies", "furnishing", "area_rate", "city_Pune", "city_Mumbai", "locality_Kothrud"],
      RawFields(900, 2, 2, 1, "Furnished", 50, "Nagpur", "Kothrud"))
      == [900, 2, 2, 1, 2, 50, 0, 0, 1]
  {
    assert "city_Mumbai"[5] != (CityPrefix + "Nagpur")[5];
    assert Furnishing.Ordinal("Furnished") == 2 by {
      assert Furnishing.Options[2] == "Furnished";
    }
  }

  /** A locality whose name contains the separator is offered cut short:
      `locality_Baner_Road` appears as `Baner`. */
  lemma ExampleTruncatedDomain()
    ensures ExtractDomain(["area", "locality_Baner_Road"], LocalityPrefix) == ["Baner"]
  {
    KnownGroupPrefixes();
    ExampleTruncatedCategory();
    var col := "locality_Baner_Road";
    var tail: seq<string> := [col];
    assert tail[1..] == [];
    var schema: seq<string> := ["area", col];
    assert schema[1..] == tail;
    assert !(LocalityPrefix <= "area");
  }

  lemma ExampleTruncatedCategory()
    ensures GroupPrefix(LocalityPrefix) && LocalityPrefix <= "locality_Baner_Road"
    ensures Category("locality_Baner_Road", LocalityPrefix) == "Baner"
  {
    KnownGroupPrefixes();
    var rest := "locality_Baner_Road"[|LocalityPrefix|..];
    assert rest == "Baner_Road";
    TakeUntilFirst(rest, '_', 5);
    assert rest[..5] == "Baner";
  }

  /** Selecting the offered `Baner` leaves the `locality_Baner_Road` cell at 0. */
  lemma ExampleTruncatedSelection()
    ensures Row(["area", "locality_Baner_Road"], RawFields(900, 2, 2, 1, "Unfurnished", 50, "Pune", "Baner")) == [900, 0]
  {
  }

  /** The input frame: the schema's columns and one row of values, which the
      builder overwrites cell by cell. */
  class InputFrame {
    const columns: seq<string>
    const values: array<int>

    ghost predicate Valid()
      reads this
    {
      values.Length == |columns| && Distinct(columns)
    }

    /** A frame with the given columns and a single row of zeros. */
    constructor (columns: seq<string>)
      requires Distinct(columns)
      ensures Valid() && this.columns == columns && fresh(values)
      ensures forall i :: 0 <= i < values.Length ==> values[i] == 0
    {
      this.columns := columns;
      values := new int[|columns|](_ => 0);
    }

    /** Overwrite the cell of an existing column. */
    method SetAt(name: string, v: int)
      requires Valid() && name in columns
      modifies values
      ensures forall i :: 0 <= i < values.Length ==>
        values[i] == if columns[i] == name then v else old(values[i])
    {
      values[IndexOf(columns, name)] := v;
      forall i | 0 <= i < values.Length && columns[i] == name
        ensures i == IndexOf(columns, name)
      {
        IndexOfUnique(columns, i);
      }
    }
  }

  /** Write the six scalar fields into their columns, furnishing as its
      ordinal; no other cell changes. */
  method WriteScalars(frame: InputFrame, f: RawFields)
    requires frame.Valid() && WellFormed(frame.columns) && Furnishing.IsLabel(f.furnishing)
    modifies frame.values
    ensures forall i :: 0 <= i < frame.values.Length ==>
      frame.values[i] == if IsScalar(frame.columns[i]) then Cell(frame.columns[i], f) else old(frame.values[i])
  {
    var furnishingVal := Furnishing.Ordinal(f.furnishing);
    frame.SetAt("area", f.area);
    frame.SetAt("beds", f.beds);
    frame.SetAt("bathrooms", f.bathrooms);
    frame.SetAt("balconies", f.balconies);
    frame.SetAt("furnishing", furnishingVal);
    frame.SetAt("area_rate", f.areaRate);
  }

  /** Build the input row: zeros, then the six scalar fields, then the city
      and locality indicators where those columns exist. */
  method BuildRow(schema: seq<string>, f: RawFields) returns (row: seq<int>)
    requires WellFormed(schema) && Furnishing.IsLabel(f.furnishing)
    ensures |row| == |schema|
    ensures row == Row(schema, f)
  {
    var frame := new InputFrame(schema);
    WriteScalars(frame, f);
    var cityCol := CityPrefix + f.city;
    var localityCol := LocalityPrefix + f.locality;
    GroupsApart(cityCol);
    GroupsApart(localityCol);
    if cityCol in frame.columns {
      frame.SetAt(cityCol, 1);
    }
    if localityCol in frame.columns {
      frame.SetAt(localityCol, 1);
    }
    row := frame.values[..];
  }
}
