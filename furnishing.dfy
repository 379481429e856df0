// The furnishing field is encoded as an ordinal, not one-hot: a fixed table
// maps each of the three labels of the furnishing drop-down to a number.

module Furnishing {

  /** The drop-down's labels, in the order they are offered. */
  const Options: seq<string> := ["Unfurnished", "Semi-Furnished", "Furnished"]

  /** The lookup table from label to ordinal. */
  const Table: map<string, int> := map["Unfurnished" := 0, "Semi-Furnished" := 1, "Furnished" := 2]

  /** The labels the table knows; any other label fails the lookup. */
  predicate IsLabel(name: string)
  {
    name in Table
  }

  /** `Table[name]`: the ordinal of a furnishing label, which is the label's
      position among the drop-down's options. */
  function Ordinal(name: string): (v: int)
    requires IsLabel(name)
    ensures 0 <= v < |Options| && Options[v] == name
  {
    Table[name]
  }

  /** The label whose ordinal is `v`. */
  function Label(v: int): (name: string)
    requires 0 <= v < |Options|
    ensures IsLabel(name) && Ordinal(name) == v
  {
    Options[v]
  }

  /** The table accepts exactly the drop-down's options. */
  lemma LabelsAreOptions(name: string)
    ensures IsLabel(name) <==> name in Options
  {
    if name in Options {
      var k :| 0 <= k < |Options| && Options[k] == name;
      assert Label(k) == name;
    }
  }

  /** Different labels get different ordinals, so the encoding loses nothing. */
  lemma OrdinalInjective(a: string, b: string)
    requires IsLabel(a) && IsLabel(b) && Ordinal(a) == Ordinal(b)
    ensures a == b
  {
  }

  /** Decoding an ordinal gives back the label it came from. */
  lemma LabelOrdinal(name: string)
    requires IsLabel(name)
    ensures Label(Ordinal(name)) == name
  {
  }
}
