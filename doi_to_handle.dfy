/**
 * `ilri/doi-to-handle.py`: read DOIs from a text file, look each one up in
 * the item metadata, and write a CSV row with the item's title and handle.
 *
 * The lookup is defined twice. `LookUp`/`Resolved` is the model the rest of
 * the project uses: each DOI is classified on its own, and a DOI without a
 * unique match gets a row with an empty title and handle. `AsWritten` keeps
 * the script's variable that outlives the loop iteration, which leaves the
 * owner unbound or stale on those paths.
 */
module DoiToHandle {
  import opened Wrappers
  import opened Text
  import opened Lists
  import opened Store

  /** The `metadata_field_id`s the script hard-codes. */
  const TitleField: FieldId := 64
  const HandleField: FieldId := 25
  const DoiField: FieldId := 220

  /** The header of the output CSV. */
  const FieldNames: seq<string> := ["title", "handle", "doi"]

  type Row = map<string, string>

  // ---------------------------------------------------------------------
  // read_dois_from_file
  // ---------------------------------------------------------------------

  /** Each line stripped of whitespace, appended unless already present. */
  method ReadDoisFromFile(lines: seq<string>) returns (dois: seq<string>)
    ensures dois == ReadDois(lines)
  {
    dois := [];
    var i := 0;
    while i < |lines|
      invariant 0 <= i <= |lines|
      invariant dois == ReadDois(lines[..i])
    {
      var line := Strip(lines[i]);
      ReadDoisSnoc(lines, i);
      if line !in dois {
        dois := dois + [line];
      }
      i := i + 1;
    }
    assert lines[..i] == lines;
  }

  /** The DOI list of `read_dois_from_file`. */
  function ReadDois(lines: seq<string>): seq<string> {
    Dedup(MapSeq(Strip, lines))
  }

  lemma ReadDoisSnoc(lines: seq<string>, i: nat)
    requires i < |lines|
    ensures var before := ReadDois(lines[..i]);
            ReadDois(lines[..i + 1]) == if Strip(lines[i]) in before then before else before + [Strip(lines[i])]
  {
    assert lines[..i + 1] == lines[..i] + [lines[i]];
    MapSeqSnoc(Strip, lines[..i], lines[i]);
    DedupSnoc(MapSeq(Strip, lines[..i]), Strip(lines[i]));
  }

  /**
   * The DOI list holds every stripped line once, nothing else, in the order
   * of first occurrence. A blank line is kept (once) as the empty DOI.
   */
  lemma DoisAreDistinctStrippedLines(lines: seq<string>)
    ensures var dois := ReadDois(lines);
            && NoDuplicates(dois)
            && (forall k :: 0 <= k < |lines| ==> Strip(lines[k]) in dois)
            && (forall k :: 0 <= k < |dois| ==> dois[k] in MapSeq(Strip, lines))
            && forall i, j :: 0 <= i < j < |dois| ==>
                 FirstIndex(MapSeq(Strip, lines), dois[i]) < FirstIndex(MapSeq(Strip, lines), dois[j])
  {
    var stripped := MapSeq(Strip, lines);
    DedupKeepsFirstOccurrenceOrder(stripped);
    forall k | 0 <= k < |lines|
      ensures Strip(lines[k]) in Dedup(stripped)
    {
      assert stripped[k] == Strip(lines[k]);
    }
  }

  // ---------------------------------------------------------------------
  // The queries
  // ---------------------------------------------------------------------

  /**
   * `metadata_field_id=220 AND text_value ~* '.*doi.*'`, read as a
   * case-insensitive substring test. Unlike the value scripts, the query
   * does not restrict the owner to items.
   */
  predicate MatchesDoi(doi: string, v: MetadataValue) {
    v.field == DoiField && ContainsIgnoringCase(v.text, doi)
  }

  /** The rows the DOI query returns, in table order. */
  function DoiMatches(table: seq<MetadataValue>, doi: string): (r: seq<MetadataValue>)
    ensures |r| <= |table|
    ensures forall k :: 0 <= k < |r| ==> r[k] in table && MatchesDoi(doi, r[k])
    ensures forall k :: 0 <= k < |table| && MatchesDoi(doi, table[k]) ==> table[k] in r
  {
    if table == [] then []
    else
      var last := table[|table| - 1];
      DoiMatches(table[..|table| - 1], doi) + (if MatchesDoi(doi, last) then [last] else [])
  }

  /** `fetchone()` of `SELECT text_value ... WHERE metadata_field_id=field AND dspace_object_id=owner`, in table order. */
  function FirstText(table: seq<MetadataValue>, field: FieldId, owner: ObjectId): (r: Option<string>)
    ensures r.None? <==> forall k :: 0 <= k < |table| ==> !(table[k].field == field && table[k].owner == owner)
    ensures r.Some? ==> exists k :: 0 <= k < |table| && table[k].field == field && table[k].owner == owner &&
                                    table[k].text == r.value &&
                                    forall j :: 0 <= j < k ==> !(table[j].field == field && table[j].owner == owner)
  {
    if table == [] then None
    else if table[0].field == field && table[0].owner == owner then Some(table[0].text)
    else
      var r := FirstText(table[1..], field, owner);
      assert forall k :: 1 <= k < |table| ==> table[k] == table[1..][k - 1];
      r
  }

  /** How many rows the DOI query returned, as the script branches on `cursor.rowcount`. */
  datatype Lookup = NotFound | Found(owner: ObjectId) | Multiple(count: nat)

  function Classify(matches: seq<MetadataValue>): (c: Lookup)
    ensures c == NotFound <==> |matches| == 0
    ensures c.Found? <==> |matches| == 1
    ensures c.Found? ==> c.owner == matches[0].owner
    ensures c.Multiple? ==> c.count == |matches| && c.count > 1
  {
    if |matches| == 0 then NotFound
    else if |matches| == 1 then Found(matches[0].owner)
    else Multiple(|matches|)
  }

  /** The progress lines. */
  datatype Notice = LookingUp(doi: string) | FoundItem(doi: string, owner: ObjectId) | FoundMultiple(doi: string)
                  | NotFoundNotice(doi: string)

  /**
   * The progress lines for one DOI. The script tests `not args.quiet`
   * together with the row count, so under `--quiet` every DOI prints
   * "Not found".
   */
  function Messages(doi: string, matches: seq<MetadataValue>, quiet: bool): (ns: seq<Notice>)
    ensures |ns| == 2 && ns[0] == LookingUp(doi)
    ensures quiet ==> ns[1] == NotFoundNotice(doi)
    ensures !quiet ==> ns[1] == match Classify(matches)
                                case NotFound => NotFoundNotice(doi)
                                case Found(owner) => FoundItem(doi, owner)
                                case Multiple(_) => FoundMultiple(doi)
  {
    [LookingUp(doi)] +
    if |matches| == 1 && !quiet then [FoundItem(doi, matches[0].owner)]
    else if |matches| > 1 && !quiet then [FoundMultiple(doi)]
    else [NotFoundNotice(doi)]
  }

  function OutputRow(title: string, handle: string, doi: string): (r: Row)
    ensures r.Keys == {"title", "handle", "doi"}
    ensures r["title"] == title && r["handle"] == handle && r["doi"] == doi
  {
    map["title" := title, "handle" := handle, "doi" := doi]
  }

  /** A found item without a title or a handle value: `fetchone()` returns no row and the script stops. */
  datatype Error = MissingTitle(doi: string, owner: ObjectId) | MissingHandle(doi: string, owner: ObjectId)

  // ---------------------------------------------------------------------
  // resolve_dois, each DOI on its own
  // ---------------------------------------------------------------------

  /**
   * The output row of one DOI. A unique match gives the item's first title
   * and handle, and fails when it has none; no match or several give empty
   * ones.
   */
  function LookUp(table: seq<MetadataValue>, doi: string): (r: Result<Row, Error>)
    ensures r.Success? ==> r.value.Keys == {"title", "handle", "doi"} && r.value["doi"] == doi
    ensures |DoiMatches(table, doi)| != 1 ==> r == Success(OutputRow("", "", doi))
    ensures |DoiMatches(table, doi)| == 1 ==>
              (r.Success? <==> FirstText(table, TitleField, DoiMatches(table, doi)[0].owner).Some? &&
                               FirstText(table, HandleField, DoiMatches(table, doi)[0].owner).Some?)
    ensures |DoiMatches(table, doi)| == 1 && r.Success? ==>
              r.value == OutputRow(FirstText(table, TitleField, DoiMatches(table, doi)[0].owner).value,
                                   FirstText(table, HandleField, DoiMatches(table, doi)[0].owner).value, doi)
    ensures r.Failure? ==>
              && |DoiMatches(table, doi)| == 1
              && r.error.owner == DoiMatches(table, doi)[0].owner
              && (r.error.MissingTitle? <==> FirstText(table, TitleField, r.error.owner).None?)
  {
    match Classify(DoiMatches(table, doi))
    case Found(owner) =>
      (match FirstText(table, TitleField, owner)
       case None => Failure(MissingTitle(doi, owner))
       case Some(title) =>
         match FirstText(table, HandleField, owner)
         case None => Failure(MissingHandle(doi, owner))
         case Some(handle) => Success(OutputRow(title, handle, doi)))
    case _ => Success(OutputRow("", "", doi))
  }

  /** The rows written, the progress lines printed, and the error the run stopped at, if any. */
  datatype Output = Output(rows: seq<Row>, notices: seq<Notice>, error: Option<Error>)

  /** What one DOI adds to a run that has not stopped: its progress lines, then its row or its error. */
  function Step(table: seq<MetadataValue>, before: Output, doi: string, quiet: bool): Output {
    var notices := before.notices + Messages(doi, DoiMatches(table, doi), quiet);
    match LookUp(table, doi)
    case Success(row) => Output(before.rows + [row], notices, None)
    case Failure(e) => Output(before.rows, notices, Some(e))
  }

  /** The DOIs in order; the first error stops the run after its progress lines. */
  function Resolved(table: seq<MetadataValue>, dois: seq<string>, quiet: bool): Output {
    if dois == [] then Output([], [], None)
    else
      var before := Resolved(table, dois[..|dois| - 1], quiet);
      if before.error.Some? then before else Step(table, before, dois[|dois| - 1], quiet)
  }

  lemma ResolvedSnoc(table: seq<MetadataValue>, dois: seq<string>, doi: string, quiet: bool)
    ensures var before := Resolved(table, dois, quiet);
            Resolved(table, dois + [doi], quiet) == if before.error.Some? then before else Step(table, before, doi, quiet)
  {
    assert (dois + [doi])[..|dois|] == dois;
  }

  /** `ResolvedSnoc` for the prefixes of one list. */
  lemma ResolvedPrefix(table: seq<MetadataValue>, dois: seq<string>, i: nat, quiet: bool)
    requires i < |dois|
    ensures var before := Resolved(table, dois[..i], quiet);
            Resolved(table, dois[..i + 1], quiet) == if before.error.Some? then before else Step(table, before, dois[i], quiet)
  {
    assert dois[..i + 1] == dois[..i] + [dois[i]];
    ResolvedSnoc(table, dois[..i], dois[i], quiet);
  }

  /** Once the run has stopped after the first `n` DOIs, the remaining ones add nothing. */
  lemma {:induction false} ResolvedStops(table: seq<MetadataValue>, dois: seq<string>, n: nat, quiet: bool)
    requires n <= |dois| && Resolved(table, dois[..n], quiet).error.Some?
    ensures Resolved(table, dois, quiet) == Resolved(table, dois[..n], quiet)
    decreases |dois| - n
  {
    if n < |dois| {
      ResolvedPrefix(table, dois, n, quiet);
      ResolvedStops(table, dois, n + 1, quiet);
    } else {
      assert dois[..n] == dois;
    }
  }

  /**
   * One DOI's effect on the output: a successful lookup appends its row, a
   * failed one records its error, and a stopped run stays as it is.
   */
  lemma ResolvedStep(table: seq<MetadataValue>, dois: seq<string>, quiet: bool)
    requires dois != []
    ensures var before := Resolved(table, dois[..|dois| - 1], quiet);
            var out := Resolved(table, dois, quiet);
            var r := LookUp(table, dois[|dois| - 1]);
            && (before.error.Some? ==> out.rows == before.rows && out.error == before.error)
            && (before.error.None? && r.Success? ==> out.rows == before.rows + [r.value] && out.error.None?)
            && (before.error.None? && r.Failure? ==> out.rows == before.rows && out.error == Some(r.error))
  {
  }

  /**
   * Every row written is the lookup of its own DOI, whatever came before
   * it; a run that stops, stops at the first DOI whose lookup fails.
   */
  predicate RowsMatch(table: seq<MetadataValue>, dois: seq<string>, out: Output) {
    && |out.rows| <= |dois|
    && (forall k :: 0 <= k < |out.rows| ==> LookUp(table, dois[k]) == Success(out.rows[k]))
    && (out.error.None? <==> |out.rows| == |dois|)
    && (out.error.Some? ==> LookUp(table, dois[|out.rows|]) == Failure(out.error.value))
  }

  /** A run's rows are the lookups of its DOIs, up to the first failed one. */
  lemma {:induction false} RowsAreLookUps(table: seq<MetadataValue>, dois: seq<string>, quiet: bool)
    ensures RowsMatch(table, dois, Resolved(table, dois, quiet))
  {
    if dois != [] {
      RowsAreLookUps(table, dois[..|dois| - 1], quiet);
      RowsMatchLast(table, dois, quiet);
    }
  }

  /** The last DOI keeps `RowsMatch`: it adds its row, stops the run, or comes after the stop. */
  lemma RowsMatchLast(table: seq<MetadataValue>, dois: seq<string>, quiet: bool)
    requires dois != []
    requires RowsMatch(table, dois[..|dois| - 1], Resolved(table, dois[..|dois| - 1], quiet))
    ensures RowsMatch(table, dois, Resolved(table, dois, quiet))
  {
    var init := dois[..|dois| - 1];
    var before := Resolved(table, init, quiet);
    var out := Resolved(table, dois, quiet);
    if before.error.None? {
      var r := LookUp(table, dois[|dois| - 1]);
      assert out == Step(table, before, dois[|dois| - 1], quiet);
      if r.Failure? {
        assert out.rows == before.rows && out.error == Some(r.error);
        assert |out.rows| == |init|;
      } else {
        assert out.rows == before.rows + [r.value] && out.error.None?;
      }
      forall k | 0 <= k < |out.rows|
        ensures LookUp(table, dois[k]) == Success(out.rows[k])
      {
        if k < |before.rows| {
          assert dois[k] == init[k] && out.rows[k] == before.rows[k];
          assert LookUp(table, init[k]) == Success(before.rows[k]);
        } else {
          assert k == |dois| - 1 && r == Success(out.rows[k]);
        }
      }
    } else {
      assert out == before;
      assert dois[|out.rows|] == init[|out.rows|];
    }
  }

  /** `--quiet` changes the progress lines only, never the CSV or where the run stops. */
  lemma {:induction false} QuietWritesTheSameRows(table: seq<MetadataValue>, dois: seq<string>)
    ensures Resolved(table, dois, true).rows == Resolved(table, dois, false).rows
    ensures Resolved(table, dois, true).error == Resolved(table, dois, false).error
  {
    if dois != [] {
      QuietWritesTheSameRows(table, dois[..|dois| - 1]);
    }
  }

  /** The progress lines: two per DOI looked up. */
  lemma {:induction false} TwoNoticesPerDoi(table: seq<MetadataValue>, dois: seq<string>, quiet: bool)
    ensures var out := Resolved(table, dois, quiet);
            |out.notices| == 2 * (|out.rows| + if out.error.Some? then 1 else 0)
  {
    if dois != [] {
      TwoNoticesPerDoi(table, dois[..|dois| - 1], quiet);
    }
  }

  /** One DOI in its own transaction: the DOI query, the progress lines, then title and handle of a unique match. */
  method ResolveDoi(store: MetadataStore, doi: string, quiet: bool) returns (notices: seq<Notice>, result: Result<Row, Error>)
    ensures notices == Messages(doi, DoiMatches(store.rows, doi), quiet)
    ensures result == LookUp(store.rows, doi)
  {
    var matches := DoiMatches(store.rows, doi);
    notices := [LookingUp(doi)];
    if |matches| == 1 && !quiet {
      notices := notices + [FoundItem(doi, matches[0].owner)];
    } else if |matches| > 1 && !quiet {
      notices := notices + [FoundMultiple(doi)];
    } else {
      notices := notices + [NotFoundNotice(doi)];
    }
    if |matches| != 1 {
      return notices, Success(OutputRow("", "", doi));
    }
    var owner := matches[0].owner;
    var title := FirstText(store.rows, TitleField, owner);
    if title.None? {
      return notices, Failure(MissingTitle(doi, owner));
    }
    var handle := FirstText(store.rows, HandleField, owner);
    if handle.None? {
      return notices, Failure(MissingHandle(doi, owner));
    }
    result := Success(OutputRow(title.value, handle.value, doi));
  }

  /** One pass of the loop: the lookup and its progress lines, then the row or the stop. */
  method ResolveNext(store: MetadataStore, out: Output, doi: string, quiet: bool) returns (next: Output)
    ensures next == Step(store.rows, out, doi, quiet)
  {
    var notices, result := ResolveDoi(store, doi, quiet);
    if result.Failure? {
      return Output(out.rows, out.notices + notices, Some(result.error));
    }
    return Output(out.rows + [result.value], out.notices + notices, None);
  }

  /** The script's lookup loop, writing one CSV row per DOI. */
  method ResolveDois(store: MetadataStore, dois: seq<string>, quiet: bool) returns (out: Output)
    ensures out == Resolved(store.rows, dois, quiet)
  {
    out := Output([], [], None);
    var i := 0;
    while i < |dois|
      invariant 0 <= i <= |dois|
      invariant out == Resolved(store.rows, dois[..i], quiet)
      invariant out.error.None?
    {
      ResolvedPrefix(store.rows, dois, i, quiet);
      out := ResolveNext(store, out, dois[i], quiet);
      i := i + 1;
      if out.error.Some? {
        ResolvedStops(store.rows, dois, i, quiet);
        return;
      }
    }
    assert dois[..i] == dois;
  }

  // ---------------------------------------------------------------------
  // resolve_dois as written
  // ---------------------------------------------------------------------

  /** The script's `dspace_object_id` variable: assigned only on a unique match with `--quiet` off. */
  datatype Binding = Unbound | Bound(owner: ObjectId)

  datatype AsWrittenError =
    | UnboundOwner(doi: string)          // NameError on the first DOI that does not bind the variable
    | NoTitle(doi: string, owner: ObjectId)
    | NoHandle(doi: string, owner: ObjectId)

  datatype AsWrittenOutput = AsWrittenOutput(rows: seq<Row>, binding: Binding, error: Option<AsWrittenError>)

  /** One DOI as the script runs it: the title and handle come from whatever owner the variable holds. */
  function AsWrittenStep(table: seq<MetadataValue>, out: AsWrittenOutput, doi: string, quiet: bool): AsWrittenOutput {
    var matches := DoiMatches(table, doi);
    var binding := if |matches| == 1 && !quiet then Bound(matches[0].owner) else out.binding;
    match binding
    case Unbound => AsWrittenOutput(out.rows, binding, Some(UnboundOwner(doi)))
    case Bound(owner) =>
      match FirstText(table, TitleField, owner)
      case None => AsWrittenOutput(out.rows, binding, Some(NoTitle(doi, owner)))
      case Some(title) =>
        match FirstText(table, HandleField, owner)
        case None => AsWrittenOutput(out.rows, binding, Some(NoHandle(doi, owner)))
        case Some(handle) => AsWrittenOutput(out.rows + [OutputRow(title, handle, doi)], binding, None)
  }

  function AsWritten(table: seq<MetadataValue>, dois: seq<string>, quiet: bool): (out: AsWrittenOutput)
    ensures |out.rows| <= |dois|
  {
    if dois == [] then AsWrittenOutput([], Unbound, None)
    else
      var before := AsWritten(table, dois[..|dois| - 1], quiet);
      if before.error.Some? then before else AsWrittenStep(table, before, dois[|dois| - 1], quiet)
  }

  /** A table with one item, 7, holding a DOI, a title and a handle; and two DOIs, the second found nowhere. */
  const SampleTable: seq<MetadataValue> := [MetadataValue(1, 7, DoiField, "10.1/a", 0, -1),
                                            MetadataValue(2, 7, TitleField, "A", 0, -1),
                                            MetadataValue(3, 7, HandleField, "10568/1", 0, -1)]
  const SampleDois: seq<string> := ["10.1/a", "10.22/bb"]

  lemma SampleLookUps()
    ensures DoiMatches(SampleTable, "10.1/a") == [SampleTable[0]]
    ensures DoiMatches(SampleTable, "10.22/bb") == []
    ensures FirstText(SampleTable, TitleField, 7) == Some("A")
    ensures FirstText(SampleTable, HandleField, 7) == Some("10568/1")
  {
    var table := SampleTable;
    ContainsIgnoringCaseReflexive("10.1/a");
    assert table[..2][..1] == [table[0]] && table[..2] == table[..|table| - 1];
    assert [table[0]][..0] == [];
    assert DoiMatches([table[0]], "10.1/a") == [table[0]];
    assert |Lower(table[0].text)| == 6;
    assert !MatchesDoi("10.22/bb", table[0]);
    assert DoiMatches([table[0]], "10.22/bb") == [];
    assert DoiMatches(table[..2], "10.22/bb") == [];
    assert table[1..][0] == table[1];
    assert table[1..][1..][0] == table[2];
  }

  /** The first sample DOI as written: found and bound to item 7, except under `--quiet`, which never binds. */
  lemma AsWrittenFirstDoi(quiet: bool)
    ensures AsWritten(SampleTable, ["10.1/a"], quiet)
            == if quiet then AsWrittenOutput([], Unbound, Some(UnboundOwner("10.1/a")))
               else AsWrittenOutput([OutputRow("A", "10568/1", "10.1/a")], Bound(7), None)
  {
    SampleLookUps();
    assert ["10.1/a"][..0] == [];
    assert AsWritten(SampleTable, [], quiet) == AsWrittenOutput([], Unbound, None);
  }

  /**
   * The script writes item 7's title and handle against the second DOI,
   * which no item has; under `--quiet` it stops at the first DOI although
   * that one is found.
   */
  lemma StaleOwnerCounterexample()
    ensures AsWritten(SampleTable, SampleDois, false).rows
            == [OutputRow("A", "10568/1", "10.1/a"), OutputRow("A", "10568/1", "10.22/bb")]
    ensures AsWritten(SampleTable, SampleDois, true).error == Some(UnboundOwner("10.1/a"))
  {
    AsWrittenFirstDoi(false);
    AsWrittenFirstDoi(true);
    AsWrittenSecondDoi();
    assert SampleDois[..1] == ["10.1/a"];
  }

  /** The second sample DOI as written, with the variable still bound to item 7. */
  lemma AsWrittenSecondDoi()
    ensures AsWrittenStep(SampleTable, AsWrittenOutput([OutputRow("A", "10568/1", "10.1/a")], Bound(7), None), "10.22/bb", false)
            == AsWrittenOutput([OutputRow("A", "10568/1", "10.1/a"), OutputRow("A", "10568/1", "10.22/bb")], Bound(7), None)
  {
    SampleLookUps();
  }

  lemma SampleRows()
    ensures LookUp(SampleTable, "10.1/a") == Success(OutputRow("A", "10568/1", "10.1/a"))
    ensures LookUp(SampleTable, "10.22/bb") == Success(OutputRow("", "", "10.22/bb"))
  {
    SampleLookUps();
  }

  /** On the same input the model writes an empty row for the second DOI, with or without `--quiet`. */
  lemma CorrectedSampleRows(quiet: bool)
    ensures Resolved(SampleTable, SampleDois, quiet).rows
            == [OutputRow("A", "10568/1", "10.1/a"), OutputRow("", "", "10.22/bb")]
  {
    FirstSampleRun(quiet);
    SampleRows();
    assert SampleDois[..1] == ["10.1/a"] && SampleDois[1] == "10.22/bb";
    ResolvedStep(SampleTable, SampleDois, quiet);
  }

  lemma FirstSampleRun(quiet: bool)
    ensures Resolved(SampleTable, ["10.1/a"], quiet).rows == [OutputRow("A", "10568/1", "10.1/a")]
    ensures Resolved(SampleTable, ["10.1/a"], quiet).error.None?
  {
    SampleRows();
    assert ["10.1/a"][..0] == [];
    ResolvedStep(SampleTable, ["10.1/a"], quiet);
  }
}
