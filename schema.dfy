// The model's ordered feature-name list and what is read out of it:
// column lookup by name, and the category domains offered for the
// one-hot column groups.

module Schema {
  import opened Text

  /** The separator between a column group's name and its category. */
  const Sep: char := '_'

  const CityPrefix: string := "city_"
  const LocalityPrefix: string := "locality_"

  /** No column name appears twice. */
  predicate Distinct(schema: seq<string>)
  {
    forall i, j :: 0 <= i < j < |schema| ==> schema[i] != schema[j]
  }

  /** The position of column `name`, found by a linear search from the front. */
  function IndexOf(schema: seq<string>, name: string): (i: nat)
    requires name in schema
    ensures i < |schema| && schema[i] == name
    ensures name !in schema[..i]
  {
    if schema[0] == name then 0
    else
      assert schema == [schema[0]] + schema[1..];
      1 + IndexOf(schema[1..], name)
  }

  /** In a schema without duplicates a column's position is its only position. */
  lemma IndexOfUnique(schema: seq<string>, j: nat)
    requires Distinct(schema) && j < |schema|
    ensures IndexOf(schema, schema[j]) == j
  {
  }

  /** A group prefix is a group name without the separator followed by the
      separator, as `city_` and `locality_` are. */
  predicate GroupPrefix(prefix: string)
  {
    |prefix| >= 1 && prefix[|prefix| - 1] == Sep && Sep !in prefix[..|prefix| - 1]
  }

  lemma KnownGroupPrefixes()
    ensures GroupPrefix(CityPrefix) && GroupPrefix(LocalityPrefix)
  {
    assert CityPrefix[..|CityPrefix| - 1] == "city";
    assert LocalityPrefix[..|LocalityPrefix| - 1] == "locality";
  }

  /** A column that starts with a group prefix splits into at least two
      pieces, and the second is the text after the prefix up to the next
      separator. */
  lemma PrefixedSplit(col: string, prefix: string)
    requires GroupPrefix(prefix) && prefix <= col
    ensures |Split(col, Sep)| >= 2
    ensures Split(col, Sep)[1] == TakeUntil(col[|prefix|..], Sep)
  {
    var name := prefix[..|prefix| - 1];
    var rest := col[|prefix|..];
    assert col == name + [Sep] + rest by {
      assert prefix == name + [Sep];
      assert col == prefix + rest;
    }
    SplitAfterPiece(name, rest, Sep);
  }

  /** `col.split('_')[1]` for a column of the group `prefix`: the category
      the column stands for, cut at any further separator. */
  function Category(col: string, prefix: string): (v: string)
    requires GroupPrefix(prefix) && prefix <= col
    ensures v == TakeUntil(col[|prefix|..], Sep)
    ensures v <= col[|prefix|..] && Sep !in v
  {
    PrefixedSplit(col, prefix);
    Split(col, Sep)[1]
  }

  /** `[col.split('_')[1] for col in schema if col.startswith(prefix)]`:
      one category per column of the group, in schema order. */
  function ExtractDomain(schema: seq<string>, prefix: string): (r: seq<string>)
    requires GroupPrefix(prefix)
    ensures |r| <= |schema|
    ensures forall k :: 0 <= k < |r| ==> Sep !in r[k]
  {
    if schema == [] then []
    else if prefix <= schema[0] then [Category(schema[0], prefix)] + ExtractDomain(schema[1..], prefix)
    else ExtractDomain(schema[1..], prefix)
  }

  /** Extraction works column by column: the domain of a concatenation is the
      concatenation of the domains, so categories keep the schema's order. */
  lemma {:induction false} ExtractDomainAppend(a: seq<string>, b: seq<string>, prefix: string)
    requires GroupPrefix(prefix)
    ensures ExtractDomain(a + b, prefix) == ExtractDomain(a, prefix) + ExtractDomain(b, prefix)
  {
    if a == [] {
      assert a + b == b;
    } else {
      assert (a + b)[0] == a[0];
      assert (a + b)[1..] == a[1..] + b;
      ExtractDomainAppend(a[1..], b, prefix);
    }
  }

  /** Every column of the group contributes its category. */
  lemma {:induction false} ExtractDomainComplete(schema: seq<string>, prefix: string, i: nat)
    requires GroupPrefix(prefix)
    requires i < |schema| && prefix <= schema[i]
    ensures Category(schema[i], prefix) in ExtractDomain(schema, prefix)
  {
    if i > 0 {
      ExtractDomainComplete(schema[1..], prefix, i - 1);
      assert schema[1..][i - 1] == schema[i];
    }
  }

  /** Every extracted category comes from some column of the group. */
  lemma {:induction false} ExtractDomainSound(schema: seq<string>, prefix: string, v: string)
    requires GroupPrefix(prefix)
    requires v in ExtractDomain(schema, prefix)
    ensures exists i :: 0 <= i < |schema| && prefix <= schema[i] && v == Category(schema[i], prefix)
  {
    if prefix <= schema[0] && v == Category(schema[0], prefix) {
      assert 0 < |schema|;
    } else {
      ExtractDomainSound(schema[1..], prefix, v);
      var i :| 0 <= i < |schema[1..]| && prefix <= schema[1..][i] && v == Category(schema[1..][i], prefix);
      assert schema[i + 1] == schema[1..][i];
    }
  }

  /** A schema with no column of the group yields an empty domain. */
  lemma {:induction false} ExtractDomainEmpty(schema: seq<string>, prefix: string)
    requires GroupPrefix(prefix)
    requires forall i :: 0 <= i < |schema| ==> !(prefix <= schema[i])
    ensures ExtractDomain(schema, prefix) == []
  {
    if schema != [] {
      assert !(prefix <= schema[0]);
      ExtractDomainEmpty(schema[1..], prefix);
    }
  }

  /** A column `prefix + x` whose category `x` has no separator is offered as
      `x` itself. */
  lemma CategoryExact(col: string, prefix: string)
    requires GroupPrefix(prefix) && prefix <= col && Sep !in col[|prefix|..]
    ensures Category(col, prefix) == col[|prefix|..]
    ensures prefix + Category(col, prefix) == col
  {
    var rest := col[|prefix|..];
    var v := Category(col, prefix);
    assert col == prefix + rest;
  }

  /** A column whose category contains a separator is offered cut short, and
      the cut category no longer names that column. */
  lemma CategoryTruncated(col: string, prefix: string)
    requires GroupPrefix(prefix) && prefix <= col && Sep in col[|prefix|..]
    ensures |Category(col, prefix)| < |col[|prefix|..]|
    ensures prefix + Category(col, prefix) != col
  {
    var rest := col[|prefix|..];
    var v := Category(col, prefix);
    assert |prefix + v| < |col|;
  }
}
