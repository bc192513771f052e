/**
 * `delete-metadata-values.py`: for every value of one CSV column, delete the
 * item values in field `-m` whose text is exactly that value, each value in
 * its own transaction; with `--dry-run`, only count them.
 */
module DeleteMetadataValues {
  import opened Wrappers
  import opened Store
  import opened Csv

  /** A progress line on standard output. */
  datatype Notice = WouldDelete(count: nat, value: string) | Deleted(count: nat, value: string)

  datatype Error = MissingColumn(name: string)

  /** The table after some CSV rows, and the notices printed so far. */
  datatype Run = Run(rows: seq<MetadataValue>, notices: seq<Notice>)

  /**
   * One CSV value. Dry-run and commit select with the same WHERE clause; a
   * notice is printed only for a positive rowcount and only when not quiet.
   */
  function DeleteValue(rows: seq<MetadataValue>, items: set<ObjectId>, field: FieldId, value: string,
                       dryRun: bool, quiet: bool): (r: Run)
    ensures dryRun ==> r.rows == rows
    ensures !dryRun ==> r.rows == Unselected(rows, items, field, {value})
    ensures r.notices == [] <==> quiet || Selected(rows, items, field, value) == []
    ensures r.notices != [] ==> r.notices == [if dryRun then WouldDelete(|Selected(rows, items, field, value)|, value)
                                             else Deleted(|Selected(rows, items, field, value)|, value)]
  {
    var n := |Selected(rows, items, field, value)|;
    Run(if dryRun then rows else Unselected(rows, items, field, {value}),
        if n > 0 && !quiet then [if dryRun then WouldDelete(n, value) else Deleted(n, value)] else [])
  }

  /** The CSV values processed in order, each against the table the previous ones left. */
  function DeleteValues(rows: seq<MetadataValue>, items: set<ObjectId>, field: FieldId, values: seq<string>,
                        dryRun: bool, quiet: bool): Run
  {
    if values == [] then Run(rows, [])
    else
      var before := DeleteValues(rows, items, field, values[..|values| - 1], dryRun, quiet);
      var step := DeleteValue(before.rows, items, field, values[|values| - 1], dryRun, quiet);
      Run(step.rows, before.notices + step.notices)
  }

  /** One more CSV row is one more `DeleteValue` step. */
  lemma DeleteValuesSnoc(rows: seq<MetadataValue>, items: set<ObjectId>, field: FieldId, values: seq<string>,
                         value: string, dryRun: bool, quiet: bool)
    ensures var before := DeleteValues(rows, items, field, values, dryRun, quiet);
            var step := DeleteValue(before.rows, items, field, value, dryRun, quiet);
            DeleteValues(rows, items, field, values + [value], dryRun, quiet) == Run(step.rows, before.notices + step.notices)
  {
    assert (values + [value])[..|values|] == values;
  }

  /** `DeleteValuesSnoc` for the prefixes of one column. */
  lemma DeleteValuesPrefix(rows: seq<MetadataValue>, items: set<ObjectId>, field: FieldId, values: seq<string>,
                           i: nat, dryRun: bool, quiet: bool)
    requires i < |values|
    ensures var before := DeleteValues(rows, items, field, values[..i], dryRun, quiet);
            var step := DeleteValue(before.rows, items, field, values[i], dryRun, quiet);
            DeleteValues(rows, items, field, values[..i + 1], dryRun, quiet) == Run(step.rows, before.notices + step.notices)
  {
    assert values[..i + 1] == values[..i] + [values[i]];
    DeleteValuesSnoc(rows, items, field, values[..i], values[i], dryRun, quiet);
  }

  /**
   * For one value and one table state, the dry-run reports the count that the
   * commit deletes, and the commit removes exactly that many rows.
   */
  lemma DryRunCountIsCommitRowcount(rows: seq<MetadataValue>, items: set<ObjectId>, field: FieldId, value: string, quiet: bool)
    ensures var dry := DeleteValue(rows, items, field, value, true, quiet);
            var commit := DeleteValue(rows, items, field, value, false, quiet);
            && |dry.notices| == |commit.notices|
            && (dry.notices != [] ==> dry.notices[0].count == commit.notices[0].count)
            && |rows| - |commit.rows| == |Selected(rows, items, field, value)|
  {
    UnselectedRemovesSelected(rows, items, field, value);
  }

  /** A dry run over any CSV leaves the table as it was. */
  lemma {:induction false} DryRunChangesNothing(rows: seq<MetadataValue>, items: set<ObjectId>, field: FieldId,
                                                values: seq<string>, quiet: bool)
    ensures DeleteValues(rows, items, field, values, true, quiet).rows == rows
  {
    if values != [] {
      DryRunChangesNothing(rows, items, field, values[..|values| - 1], quiet);
    }
  }

  /**
   * A commit removes exactly the item rows of `field` whose text is one of
   * the CSV values; every other row, non-item owners' rows included, stays
   * in place and in order.
   */
  lemma {:induction false} CommitDeletesExactlyTheMatches(rows: seq<MetadataValue>, items: set<ObjectId>, field: FieldId,
                                                          values: seq<string>, quiet: bool)
    ensures DeleteValues(rows, items, field, values, false, quiet).rows == Unselected(rows, items, field, Values(values))
  {
    if values == [] {
      UnselectedOfAbsentSet(rows, items, field);
    } else {
      var init := values[..|values| - 1];
      CommitDeletesExactlyTheMatches(rows, items, field, init, quiet);
      UnselectedTwice(rows, items, field, Values(init), {values[|values| - 1]});
      ValuesSnoc(values);
    }
  }

  /** The distinct values of a CSV column. */
  function Values(values: seq<string>): (vs: set<string>)
    ensures forall k :: 0 <= k < |values| ==> values[k] in vs
    ensures values == [] ==> vs == {}
  {
    set v | v in values
  }

  /** The values of a column are those before its last row, and the last row's. */
  lemma ValuesSnoc(values: seq<string>)
    requires values != []
    ensures Values(values) == Values(values[..|values| - 1]) + {values[|values| - 1]}
  {
    assert values == values[..|values| - 1] + [values[|values| - 1]];
  }

  /** Deleting no texts keeps every row. */
  lemma {:induction false} UnselectedOfAbsentSet(rows: seq<MetadataValue>, items: set<ObjectId>, field: FieldId)
    ensures Unselected(rows, items, field, {}) == rows
  {
    if rows != [] {
      UnselectedOfAbsentSet(rows[..|rows| - 1], items, field);
      assert rows[..|rows| - 1] + [rows[|rows| - 1]] == rows;
    }
  }

  /** When no value of the CSV matches, a run changes nothing and prints nothing. */
  lemma {:induction false} NoMatchesNoEffect(rows: seq<MetadataValue>, items: set<ObjectId>, field: FieldId,
                                             values: seq<string>, dryRun: bool, quiet: bool)
    requires forall k :: 0 <= k < |values| ==> Selected(rows, items, field, values[k]) == []
    ensures DeleteValues(rows, items, field, values, dryRun, quiet) == Run(rows, [])
  {
    if values != [] {
      NoMatchesNoEffect(rows, items, field, values[..|values| - 1], dryRun, quiet);
      UnselectedOfAbsent(rows, items, field, values[|values| - 1]);
    }
  }

  /** Re-running a committed CSV deletes nothing and prints nothing. */
  lemma RerunIsNoOp(rows: seq<MetadataValue>, items: set<ObjectId>, field: FieldId, values: seq<string>,
                    dryRun: bool, quiet: bool)
    ensures var once := DeleteValues(rows, items, field, values, false, quiet).rows;
            DeleteValues(once, items, field, values, dryRun, quiet) == Run(once, [])
  {
    var once := DeleteValues(rows, items, field, values, false, quiet).rows;
    CommitDeletesExactlyTheMatches(rows, items, field, values, quiet);
    forall k | 0 <= k < |values|
      ensures Selected(once, items, field, values[k]) == []
    {
      SelectedAfterUnselected(rows, items, field, Values(values), values[k]);
    }
    NoMatchesNoEffect(once, items, field, values, dryRun, quiet);
  }

  /**
   * The script's main loop: a missing column stops it before the table is
   * touched; otherwise each CSV row is one `DeleteValue` step.
   */
  method DeleteMetadataValues(store: MetadataStore, csv: CsvTable, column: string, field: FieldId,
                              dryRun: bool, quiet: bool)
    returns (result: Result<seq<Notice>, Error>)
    requires WellFormed(csv)
    modifies store`rows
    ensures column !in csv.fieldnames ==> result == Failure(MissingColumn(column)) && store.rows == old(store.rows)
    ensures column in csv.fieldnames ==>
              result.Success? &&
              Run(store.rows, result.value) == DeleteValues(old(store.rows), store.items, field, Column(csv, column), dryRun, quiet)
  {
    if column !in csv.fieldnames {
      return Failure(MissingColumn(column));
    }
    ghost var values := Column(csv, column);
    var notices: seq<Notice> := [];
    var i := 0;
    while i < |csv.rows|
      invariant 0 <= i <= |csv.rows|
      invariant Run(store.rows, notices) == DeleteValues(old(store.rows), store.items, field, values[..i], dryRun, quiet)
    {
      var value := csv.rows[i][column];
      DeleteValuesPrefix(old(store.rows), store.items, field, values, i, dryRun, quiet);
      if dryRun {
        var selected := store.SelectRows(field, value);
        if |selected| > 0 && !quiet {
          notices := notices + [WouldDelete(|selected|, value)];
        }
      } else {
        var rowcount := store.DeleteRows(field, value);
        if rowcount > 0 && !quiet {
          notices := notices + [Deleted(rowcount, value)];
        }
      }
      i := i + 1;
    }
    assert values[..i] == values;
    return Success(notices);
  }
}
