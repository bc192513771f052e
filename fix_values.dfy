/**
 * `ilri/fix-metadata-values.py`: a CSV of corrections, each a value to find
 * (column `-f`) and its replacement (column `-t`). Each correction rewrites
 * `text_value` of the item values in field `-m` whose text is exactly the
 * value to find, in its own transaction; with `--dry-run`, only counts them.
 */
module FixMetadataValues {
  import opened Wrappers
  import opened Store
  import opened Csv

  /** A progress line: the skips go to standard error under `--debug`, the counts to standard output. */
  datatype Notice =
    | SkippedIdentical(value: string)
    | SkippedSeparator(value: string)
    | WouldFix(count: nat, value: string)
    | Fixed(count: nat, value: string)

  datatype Error = MissingColumn(name: string)

  /** One CSV row: the value to find and its replacement. */
  datatype Correction = Correction(from: string, to: string)

  datatype Run = Run(rows: seq<MetadataValue>, notices: seq<Notice>)

  /** A correction that the script skips before opening a transaction. */
  predicate Skipped(c: Correction) {
    c.from == c.to || '|' in c.to
  }

  /** One correction: the two guards, then the dry-run count or the UPDATE. */
  function FixValue(rows: seq<MetadataValue>, items: set<ObjectId>, field: FieldId, c: Correction,
                    dryRun: bool, quiet: bool, debug: bool): (r: Run)
    ensures Skipped(c) ==> r.rows == rows
    ensures !Skipped(c) && !dryRun ==> r.rows == Retexted(rows, items, field, c.from, c.to)
    ensures !Skipped(c) ==>
              (r.notices == [] <==> quiet || Selected(rows, items, field, c.from) == [])
  {
    if c.from == c.to then
      Run(rows, if debug then [SkippedIdentical(c.from)] else [])
    else if '|' in c.to then
      Run(rows, if debug then [SkippedSeparator(c.to)] else [])
    else
      var n := |Selected(rows, items, field, c.from)|;
      Run(if dryRun then rows else Retexted(rows, items, field, c.from, c.to),
          if n > 0 && !quiet then [if dryRun then WouldFix(n, c.from) else Fixed(n, c.from)] else [])
  }

  /** The corrections processed in order, each against the table the previous ones left. */
  function FixValues(rows: seq<MetadataValue>, items: set<ObjectId>, field: FieldId, cs: seq<Correction>,
                     dryRun: bool, quiet: bool, debug: bool): Run
  {
    if cs == [] then Run(rows, [])
    else
      var before := FixValues(rows, items, field, cs[..|cs| - 1], dryRun, quiet, debug);
      var step := FixValue(before.rows, items, field, cs[|cs| - 1], dryRun, quiet, debug);
      Run(step.rows, before.notices + step.notices)
  }

  lemma FixValuesSnoc(rows: seq<MetadataValue>, items: set<ObjectId>, field: FieldId, cs: seq<Correction>,
                      c: Correction, dryRun: bool, quiet: bool, debug: bool)
    ensures var before := FixValues(rows, items, field, cs, dryRun, quiet, debug);
            var step := FixValue(before.rows, items, field, c, dryRun, quiet, debug);
            FixValues(rows, items, field, cs + [c], dryRun, quiet, debug) == Run(step.rows, before.notices + step.notices)
  {
    assert (cs + [c])[..|cs|] == cs;
  }

  /**
   * A correction with identical values, or with `|` in the replacement, never
   * changes the table, whether committed or not, and prints no count.
   */
  lemma SkippedCorrectionChangesNothing(rows: seq<MetadataValue>, items: set<ObjectId>, field: FieldId, c: Correction,
                                        dryRun: bool, quiet: bool, debug: bool)
    requires Skipped(c)
    ensures var r := FixValue(rows, items, field, c, dryRun, quiet, debug);
            r.rows == rows && forall k :: 0 <= k < |r.notices| ==> r.notices[k].SkippedIdentical? || r.notices[k].SkippedSeparator?
  {
  }

  /**
   * A committed correction sets the text of exactly the selected rows to the
   * replacement: owner, field, place, confidence and id stay, and every row
   * the WHERE clause does not select, non-item rows included, is unchanged.
   */
  lemma CommitRewritesOnlyTheMatches(rows: seq<MetadataValue>, items: set<ObjectId>, field: FieldId, c: Correction,
                                     quiet: bool, debug: bool)
    requires !Skipped(c)
    ensures var after := FixValue(rows, items, field, c, false, quiet, debug).rows;
            |after| == |rows| &&
            forall k :: 0 <= k < |rows| ==>
              if Selects(items, field, c.from, rows[k])
              then after[k].text == c.to && after[k] == rows[k].(text := c.to)
              else after[k] == rows[k]
  {
  }

  /**
   * After a commit no item row of the field still holds the old value, the
   * replacement gained exactly the rewritten rows, and running the same
   * correction again changes nothing and prints nothing.
   */
  lemma CommitThenRerun(rows: seq<MetadataValue>, items: set<ObjectId>, field: FieldId, c: Correction,
                        dryRun: bool, quiet: bool, debug: bool)
    requires !Skipped(c)
    ensures var after := FixValue(rows, items, field, c, false, quiet, debug).rows;
            && Selected(after, items, field, c.from) == []
            && |Selected(after, items, field, c.to)| == |Selected(rows, items, field, c.to)| + |Selected(rows, items, field, c.from)|
            && FixValue(after, items, field, c, dryRun, quiet, debug) == Run(after, [])
  {
    var after := FixValue(rows, items, field, c, false, quiet, debug).rows;
    RetextedCounts(rows, items, field, c.from, c.to);
    RetextedOfAbsent(after, items, field, c.from, c.to);
  }

  /** The dry-run reports the rowcount that the commit of the same correction on the same table has. */
  lemma DryRunCountIsCommitRowcount(rows: seq<MetadataValue>, items: set<ObjectId>, field: FieldId, c: Correction,
                                    quiet: bool, debug: bool)
    requires !Skipped(c) && !quiet && Selected(rows, items, field, c.from) != []
    ensures FixValue(rows, items, field, c, true, quiet, debug).notices == [WouldFix(|Selected(rows, items, field, c.from)|, c.from)]
    ensures FixValue(rows, items, field, c, false, quiet, debug).notices == [Fixed(|Selected(rows, items, field, c.from)|, c.from)]
  {
  }

  /** A dry run over any corrections leaves the table as it was. */
  lemma {:induction false} DryRunChangesNothing(rows: seq<MetadataValue>, items: set<ObjectId>, field: FieldId,
                                                cs: seq<Correction>, quiet: bool, debug: bool)
    ensures FixValues(rows, items, field, cs, true, quiet, debug).rows == rows
  {
    if cs != [] {
      DryRunChangesNothing(rows, items, field, cs[..|cs| - 1], quiet, debug);
    }
  }

  /** The corrections of a CSV with both columns. */
  function Corrections(csv: CsvTable, from: string, to: string): (cs: seq<Correction>)
    requires WellFormed(csv) && from in csv.fieldnames && to in csv.fieldnames
    ensures |cs| == |csv.rows|
    ensures forall k :: 0 <= k < |cs| ==> cs[k] == Correction(csv.rows[k][from], csv.rows[k][to])
  {
    seq(|csv.rows|, k requires 0 <= k < |csv.rows| => Correction(csv.rows[k][from], csv.rows[k][to]))
  }

  /**
   * The script's main loop: both columns must exist before the table is
   * touched; then each CSV row is one `FixValue` step.
   */
  method FixMetadataValues(store: MetadataStore, csv: CsvTable, fromColumn: string, toColumn: string, field: FieldId,
                           dryRun: bool, quiet: bool, debug: bool)
    returns (result: Result<seq<Notice>, Error>)
    requires WellFormed(csv)
    modifies store`rows
    ensures fromColumn !in csv.fieldnames ==> result == Failure(MissingColumn(fromColumn))
    ensures fromColumn in csv.fieldnames && toColumn !in csv.fieldnames ==> result == Failure(MissingColumn(toColumn))
    ensures result.Failure? ==> store.rows == old(store.rows)
    ensures fromColumn in csv.fieldnames && toColumn in csv.fieldnames ==>
              result.Success? &&
              Run(store.rows, result.value)
              == FixValues(old(store.rows), store.items, field, Corrections(csv, fromColumn, toColumn), dryRun, quiet, debug)
  {
    if fromColumn !in csv.fieldnames {
      return Failure(MissingColumn(fromColumn));
    }
    if toColumn !in csv.fieldnames {
      return Failure(MissingColumn(toColumn));
    }
    ghost var cs := Corrections(csv, fromColumn, toColumn);
    var notices: seq<Notice> := [];
    var i := 0;
    while i < |csv.rows|
      invariant 0 <= i <= |csv.rows|
      invariant Run(store.rows, notices) == FixValues(old(store.rows), store.items, field, cs[..i], dryRun, quiet, debug)
    {
      var from, to := csv.rows[i][fromColumn], csv.rows[i][toColumn];
      assert cs[..i + 1] == cs[..i] + [Correction(from, to)];
      FixValuesSnoc(old(store.rows), store.items, field, cs[..i], Correction(from, to), dryRun, quiet, debug);
      i := i + 1;
      if from == to {
        if debug {
          notices := notices + [SkippedIdentical(from)];
        }
        continue;
      }
      if '|' in to {
        if debug {
          notices := notices + [SkippedSeparator(to)];
        }
        continue;
      }
      if dryRun {
        var selected := store.SelectRows(field, from);
        if |selected| > 0 && !quiet {
          notices := notices + [WouldFix(|selected|, from)];
        }
      } else {
        var rowcount := store.UpdateText(field, from, to);
        if rowcount > 0 && !quiet {
          notices := notices + [Fixed(rowcount, from)];
        }
      }
    }
    assert cs[..i] == cs;
    return Success(notices);
  }
}
