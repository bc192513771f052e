/** The shape in which `csv.DictReader` hands a correction file to the scripts. */
module Csv {

  /** The header's field names and one dictionary per data row. */
  datatype CsvTable = CsvTable(fieldnames: seq<string>, rows: seq<map<string, string>>)

  /** `DictReader` gives every row a value for every field of the header. */
  predicate WellFormed(t: CsvTable) {
    forall k, f :: 0 <= k < |t.rows| && f in t.fieldnames ==> f in t.rows[k]
  }

  /** The values of one column, in row order. */
  function Column(t: CsvTable, name: string): (c: seq<string>)
    requires WellFormed(t) && name in t.fieldnames
    ensures |c| == |t.rows|
    ensures forall k :: 0 <= k < |c| ==> c[k] == t.rows[k][name]
  {
    seq(|t.rows|, k requires 0 <= k < |t.rows| => t.rows[k][name])
  }
}
