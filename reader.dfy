/**
 * The line readers shared by the scripts that read a text file of
 * identifiers or addresses: every line is stripped, lines that fail the
 * script's validity test are skipped, and a line already collected is not
 * collected again.
 */
module Reader {
  import opened Text
  import opened Lists

  /** The stripped lines that pass `keep`, each once, in first-occurrence order. */
  function KeptLines(lines: seq<string>, keep: string -> bool): seq<string> {
    Dedup(Filter(keep, MapSeq(Strip, lines)))
  }

  /** One more line: collected when it passes `keep` and was not collected before. */
  lemma KeptLinesSnoc(lines: seq<string>, i: nat, keep: string -> bool)
    requires i < |lines|
    ensures var before := KeptLines(lines[..i], keep);
            var line := Strip(lines[i]);
            KeptLines(lines[..i + 1], keep) == if !keep(line) || line in before then before else before + [line]
  {
    var stripped := MapSeq(Strip, lines[..i]);
    var line := Strip(lines[i]);
    assert lines[..i + 1] == lines[..i] + [lines[i]];
    MapSeqSnoc(Strip, lines[..i], lines[i]);
    FilterSnoc(keep, stripped, line);
    if keep(line) {
      assert Filter(keep, stripped + [line]) == Filter(keep, stripped) + [line];
      DedupSnoc(Filter(keep, stripped), line);
    } else {
      assert Filter(keep, stripped + [line]) == Filter(keep, stripped);
    }
  }

  /** The reading loop: strip, skip what fails `keep`, append what is not yet present. */
  method ReadKeptLines(lines: seq<string>, keep: string -> bool) returns (kept: seq<string>)
    ensures kept == KeptLines(lines, keep)
  {
    kept := [];
    var i := 0;
    while i < |lines|
      invariant 0 <= i <= |lines|
      invariant kept == KeptLines(lines[..i], keep)
    {
      var line := Strip(lines[i]);
      KeptLinesSnoc(lines, i, keep);
      i := i + 1;
      if !keep(line) {
        continue;
      }
      if line !in kept {
        kept := kept + [line];
      }
    }
    assert lines[..i] == lines;
  }

  /**
   * Every collected line passes `keep`, is the stripped form of an input
   * line and is collected once; every input line that strips to a line
   * passing `keep` is collected; the order is that of first occurrence.
   */
  lemma KeptLinesAreValidAndDistinct(lines: seq<string>, keep: string -> bool)
    ensures var kept := KeptLines(lines, keep);
            && NoDuplicates(kept)
            && (forall k :: 0 <= k < |kept| ==> keep(kept[k]) && kept[k] in MapSeq(Strip, lines))
            && (forall k :: 0 <= k < |lines| && keep(Strip(lines[k])) ==> Strip(lines[k]) in kept)
            && forall i, j :: 0 <= i < j < |kept| ==>
                 FirstIndex(Filter(keep, MapSeq(Strip, lines)), kept[i]) < FirstIndex(Filter(keep, MapSeq(Strip, lines)), kept[j])
  {
    var stripped := MapSeq(Strip, lines);
    var valid := Filter(keep, stripped);
    DedupKeepsFirstOccurrenceOrder(valid);
    forall k | 0 <= k < |lines| && keep(Strip(lines[k]))
      ensures Strip(lines[k]) in KeptLines(lines, keep)
    {
      assert stripped[k] == Strip(lines[k]);
    }
  }
}
