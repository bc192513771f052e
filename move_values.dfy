/**
 * `ilri/move-metadata-values.py`: for every line of a text file, move the
 * item values in field `-f` whose text is exactly that line to field `-t`,
 * each line in its own transaction; with `--dry-run`, only count them.
 */
module MoveMetadataValues {
  import opened Store
  import opened Text

  datatype Notice = WouldMove(count: nat, value: string) | Moved(count: nat, value: string)

  datatype Run = Run(rows: seq<MetadataValue>, notices: seq<Notice>)

  /** One value to move, in its own transaction: the dry-run count or the UPDATE, and the notice for a positive rowcount. */
  function MoveText(rows: seq<MetadataValue>, items: set<ObjectId>, from: FieldId, to: FieldId, value: string,
                    dryRun: bool, quiet: bool): (r: Run)
    ensures dryRun ==> r.rows == rows
    ensures !dryRun ==> r.rows == Refielded(rows, items, from, value, to)
    ensures r.notices == [] <==> quiet || Selected(rows, items, from, value) == []
    ensures r.notices != [] ==> r.notices == [if dryRun then WouldMove(|Selected(rows, items, from, value)|, value)
                                             else Moved(|Selected(rows, items, from, value)|, value)]
  {
    var n := |Selected(rows, items, from, value)|;
    Run(if dryRun then rows else Refielded(rows, items, from, value, to),
        if n > 0 && !quiet then [if dryRun then WouldMove(n, value) else Moved(n, value)] else [])
  }

  /**
   * One input line. Only newlines are stripped from it, so the match value
   * keeps any spaces the stored value has.
   */
  function MoveValue(rows: seq<MetadataValue>, items: set<ObjectId>, from: FieldId, to: FieldId, line: string,
                     dryRun: bool, quiet: bool): (r: Run)
    ensures dryRun ==> r.rows == rows
    ensures !dryRun ==> r.rows == Refielded(rows, items, from, StripNewlines(line), to)
    ensures r.notices == [] <==> quiet || Selected(rows, items, from, StripNewlines(line)) == []
  {
    MoveText(rows, items, from, to, StripNewlines(line), dryRun, quiet)
  }

  /** The lines processed in order, each against the table the previous ones left. */
  function MoveValues(rows: seq<MetadataValue>, items: set<ObjectId>, from: FieldId, to: FieldId, lines: seq<string>,
                      dryRun: bool, quiet: bool): Run
  {
    if lines == [] then Run(rows, [])
    else
      var before := MoveValues(rows, items, from, to, lines[..|lines| - 1], dryRun, quiet);
      var step := MoveValue(before.rows, items, from, to, lines[|lines| - 1], dryRun, quiet);
      Run(step.rows, before.notices + step.notices)
  }

  lemma MoveValuesSnoc(rows: seq<MetadataValue>, items: set<ObjectId>, from: FieldId, to: FieldId, lines: seq<string>,
                       line: string, dryRun: bool, quiet: bool)
    ensures var before := MoveValues(rows, items, from, to, lines, dryRun, quiet);
            var step := MoveValue(before.rows, items, from, to, line, dryRun, quiet);
            MoveValues(rows, items, from, to, lines + [line], dryRun, quiet) == Run(step.rows, before.notices + step.notices)
  {
    assert (lines + [line])[..|lines|] == lines;
  }

  /** `MoveValuesSnoc` for the prefixes of one file. */
  lemma MoveValuesPrefix(rows: seq<MetadataValue>, items: set<ObjectId>, from: FieldId, to: FieldId, lines: seq<string>,
                         i: nat, dryRun: bool, quiet: bool)
    requires i < |lines|
    ensures var before := MoveValues(rows, items, from, to, lines[..i], dryRun, quiet);
            var step := MoveText(before.rows, items, from, to, StripNewlines(lines[i]), dryRun, quiet);
            MoveValues(rows, items, from, to, lines[..i + 1], dryRun, quiet) == Run(step.rows, before.notices + step.notices)
  {
    assert lines[..i + 1] == lines[..i] + [lines[i]];
    MoveValuesSnoc(rows, items, from, to, lines[..i], lines[i], dryRun, quiet);
  }

  /** A line read with its newline matches the stored value with all of its spaces. */
  lemma MatchValueKeepsSpaces(value: string)
    requires forall k :: 0 <= k < |value| ==> value[k] != '\n'
    ensures StripNewlines(value + "\n") == value
    ensures StripNewlines(value) == value
  {
    StripNewlinesOfLine(value);
    StripNewlinesKeepsSpaces(value);
  }

  /**
   * A commit changes only the field of the selected rows: text, owner,
   * place, confidence and id stay, and every other row is unchanged.
   */
  lemma CommitMovesOnlyTheMatches(rows: seq<MetadataValue>, items: set<ObjectId>, from: FieldId, to: FieldId, line: string,
                                  quiet: bool)
    ensures var after := MoveValue(rows, items, from, to, line, false, quiet).rows;
            |after| == |rows| &&
            forall k :: 0 <= k < |rows| ==>
              if Selects(items, from, StripNewlines(line), rows[k])
              then after[k] == rows[k].(field := to)
              else after[k] == rows[k]
  {
  }

  /**
   * Between different fields, a commit leaves no item row with the value in
   * the old field, the new field gains exactly the moved rows, and running
   * the line again changes nothing and prints nothing.
   */
  lemma CommitThenRerun(rows: seq<MetadataValue>, items: set<ObjectId>, from: FieldId, to: FieldId, line: string,
                        dryRun: bool, quiet: bool)
    requires from != to
    ensures var value := StripNewlines(line);
            var after := MoveValue(rows, items, from, to, line, false, quiet).rows;
            && Selected(after, items, from, value) == []
            && |Selected(after, items, to, value)| == |Selected(rows, items, to, value)| + |Selected(rows, items, from, value)|
            && MoveValue(after, items, from, to, line, dryRun, quiet) == Run(after, [])
  {
    var value := StripNewlines(line);
    var after := MoveValue(rows, items, from, to, line, false, quiet).rows;
    RefieldedCounts(rows, items, from, value, to);
    RefieldedOfAbsent(after, items, from, value, to);
  }

  /** The dry-run count is the commit's rowcount for the same line and table. */
  lemma DryRunCountIsCommitRowcount(rows: seq<MetadataValue>, items: set<ObjectId>, from: FieldId, to: FieldId, line: string)
    requires Selected(rows, items, from, StripNewlines(line)) != []
    ensures var n := |Selected(rows, items, from, StripNewlines(line))|;
            && MoveValue(rows, items, from, to, line, true, false).notices == [WouldMove(n, StripNewlines(line))]
            && MoveValue(rows, items, from, to, line, false, false).notices == [Moved(n, StripNewlines(line))]
  {
  }

  /** A dry run over any file leaves the table as it was. */
  lemma {:induction false} DryRunChangesNothing(rows: seq<MetadataValue>, items: set<ObjectId>, from: FieldId, to: FieldId,
                                                lines: seq<string>, quiet: bool)
    ensures MoveValues(rows, items, from, to, lines, true, quiet).rows == rows
  {
    if lines != [] {
      DryRunChangesNothing(rows, items, from, to, lines[..|lines| - 1], quiet);
    }
  }

  /** One value in its own transaction: the dry-run SELECT or the UPDATE, and its notice. */
  method MoveLine(store: MetadataStore, value: string, from: FieldId, to: FieldId, dryRun: bool, quiet: bool)
    returns (notices: seq<Notice>)
    modifies store`rows
    ensures Run(store.rows, notices) == MoveText(old(store.rows), store.items, from, to, value, dryRun, quiet)
  {
    notices := [];
    if dryRun {
      var selected := store.SelectRows(from, value);
      if |selected| > 0 && !quiet {
        notices := [WouldMove(|selected|, value)];
      }
    } else {
      var rowcount := store.UpdateField(from, value, to);
      if rowcount > 0 && !quiet {
        notices := [Moved(rowcount, value)];
      }
    }
  }

  /** The script's main loop over the lines of the input file. */
  method MoveMetadataValues(store: MetadataStore, lines: seq<string>, from: FieldId, to: FieldId, dryRun: bool, quiet: bool)
    returns (notices: seq<Notice>)
    modifies store`rows
    ensures Run(store.rows, notices) == MoveValues(old(store.rows), store.items, from, to, lines, dryRun, quiet)
  {
    notices := [];
    var i := 0;
    while i < |lines|
      invariant 0 <= i <= |lines|
      invariant Run(store.rows, notices) == MoveValues(old(store.rows), store.items, from, to, lines[..i], dryRun, quiet)
    {
      MoveValuesPrefix(old(store.rows), store.items, from, to, lines, i, dryRun, quiet);
      var value := StripNewlines(lines[i]);
      var printed := MoveLine(store, value, from, to, dryRun, quiet);
      notices := notices + printed;
      i := i + 1;
    }
    assert lines[..i] == lines;
  }
}
