/**
 * `ilri/resolve-orcids.py`: collect ORCID identifiers from a text file or
 * from the authority Solr core, look each one up in the public ORCID API,
 * and write one line `"<name>: <identifier>"` per resolved identifier.
 *
 * The HTTP services are parameters: `solr` stands for the `orcid_id` values
 * of the Solr response's documents and `api` for the person endpoint,
 * called with the stripped identifier. The name composition is defined
 * twice: `ComposeLine` as the script evidently means it, which the rest of
 * the project uses, and `AsWrittenCompose`, which keeps the script's `line`
 * variable from one identifier to the next.
 */
module ResolveOrcids {
  import opened Wrappers
  import opened Text
  import opened Lists
  import opened Orcid
  import opened Reader

  /** The `"name"` element of an ORCID person record; a `null` sub-element is `None`. */
  datatype NameRecord = NameRecord(creditName: Option<string>, givenNames: Option<string>, familyName: Option<string>)

  /** An API response: the status code and, for 200, the `"name"` element (`None` when it is `null`). */
  datatype Response = Response(status: int, name: Option<NameRecord>)

  const StatusOk: int := 200
  const StatusNotFound: int := 404
  const StatusLocked: int := 409

  const GivenNamesDeactivated: string := "Given Names Deactivated"
  const FamilyNameDeactivated: string := "Family Name Deactivated"

  // ---------------------------------------------------------------------
  // Collecting the identifiers
  // ---------------------------------------------------------------------

  /** `read_identifiers_from_file`: stripped lines that are exactly one identifier (the `^...$` pattern), each once. */
  method ReadIdentifiersFromFile(lines: seq<string>) returns (orcids: seq<string>)
    ensures orcids == KeptLines(lines, IsOrcid)
  {
    orcids := ReadKeptLines(lines, IsOrcid);
  }

  /** Every identifier read from a file is one ORCID identifier, read once; no identifier line is missed. */
  lemma FileIdentifiersAreValidAndDistinct(lines: seq<string>)
    ensures var ids := KeptLines(lines, IsOrcid);
            && NoDuplicates(ids)
            && (forall k :: 0 <= k < |ids| ==> IsOrcid(ids[k]))
            && (forall k :: 0 <= k < |lines| && IsOrcid(Strip(lines[k])) ==> Strip(lines[k]) in ids)
  {
    KeptLinesAreValidAndDistinct(lines, IsOrcid);
  }

  function AddNewline(s: string): string {
    s + "\n"
  }

  lemma AddNewlineInjective(a: string, b: string)
    requires a != b
    ensures AddNewline(a) != AddNewline(b)
  {
    assert AddNewline(a)[..|a|] == a;
    assert AddNewline(b)[..|b|] == b;
  }

  /** The identifiers of `read_identifiers_from_solr`, each once, in the order the documents give them. */
  function SolrIdentifiers(docs: seq<string>): seq<string> {
    Dedup(docs)
  }

  /**
   * `read_identifiers_from_solr`: the documents' identifiers, each once and
   * unvalidated; under `--extract-only` each new one is also written to the
   * output file as a line, and the script ends there.
   */
  method ReadIdentifiersFromSolr(docs: seq<string>, extractOnly: bool) returns (orcids: seq<string>, output: seq<string>)
    ensures orcids == SolrIdentifiers(docs)
    ensures output == if extractOnly then MapSeq(AddNewline, orcids) else []
  {
    orcids := [];
    output := [];
    var i := 0;
    while i < |docs|
      invariant 0 <= i <= |docs|
      invariant orcids == Dedup(docs[..i])
      invariant output == if extractOnly then MapSeq(AddNewline, orcids) else []
    {
      assert docs[..i + 1] == docs[..i] + [docs[i]];
      DedupSnoc(docs[..i], docs[i]);
      if docs[i] !in orcids {
        MapSeqSnoc(AddNewline, orcids, docs[i]);
        orcids := orcids + [docs[i]];
        if extractOnly {
          output := output + [docs[i] + "\n"];
        }
      }
      i := i + 1;
    }
    assert docs[..i] == docs;
  }

  /** Distinct identifiers give distinct lines. */
  lemma MapAddNewlineKeepsDistinct(ids: seq<string>)
    requires NoDuplicates(ids)
    ensures NoDuplicates(MapSeq(AddNewline, ids))
  {
    var out := MapSeq(AddNewline, ids);
    forall i, j | 0 <= i < j < |out|
      ensures out[i] != out[j]
    {
      AddNewlineInjective(ids[i], ids[j]);
    }
  }

  /** Every document's identifier has its line. */
  lemma ExtractOnlyCoversDocuments(docs: seq<string>)
    ensures forall k :: 0 <= k < |docs| ==> AddNewline(docs[k]) in MapSeq(AddNewline, SolrIdentifiers(docs))
  {
    var ids := SolrIdentifiers(docs);
    forall k | 0 <= k < |docs|
      ensures AddNewline(docs[k]) in MapSeq(AddNewline, ids)
    {
      var i :| 0 <= i < |ids| && ids[i] == docs[k];
      assert MapSeq(AddNewline, ids)[i] == AddNewline(docs[k]);
    }
  }

  /** Each line is a document's identifier followed by a newline. */
  lemma ExtractOnlyLinesAreDocuments(docs: seq<string>)
    ensures var out := MapSeq(AddNewline, SolrIdentifiers(docs));
            forall k :: 0 <= k < |out| ==> |out[k]| >= 1 && out[k][|out[k]| - 1] == '\n' && out[k][..|out[k]| - 1] in docs
  {
    var ids := SolrIdentifiers(docs);
    var out := MapSeq(AddNewline, ids);
    forall k | 0 <= k < |out|
      ensures |out[k]| >= 1 && out[k][|out[k]| - 1] == '\n' && out[k][..|out[k]| - 1] in docs
    {
      assert out[k] == ids[k] + "\n";
      assert out[k][..|out[k]| - 1] == ids[k];
    }
  }

  /**
   * The extract-only file holds every identifier of the documents exactly
   * once, one per line, and each of its lines is a document's identifier
   * followed by a newline.
   */
  lemma ExtractOnlyWritesEachIdentifierOnce(docs: seq<string>)
    ensures var out := MapSeq(AddNewline, SolrIdentifiers(docs));
            && NoDuplicates(out)
            && (forall k :: 0 <= k < |docs| ==> AddNewline(docs[k]) in out)
            && forall k :: 0 <= k < |out| ==>
                 |out[k]| >= 1 && out[k][|out[k]| - 1] == '\n' && out[k][..|out[k]| - 1] in docs
  {
    MapAddNewlineKeepsDistinct(SolrIdentifiers(docs));
    ExtractOnlyCoversDocuments(docs);
    ExtractOnlyLinesAreDocuments(docs);
  }

  // ---------------------------------------------------------------------
  // Composing the name
  // ---------------------------------------------------------------------

  /** A name part the script uses: present and not the deactivation marker. */
  predicate Accepted(part: Option<string>, marker: string) {
    part.Some? && part.value != marker
  }

  predicate HasCreditName(n: NameRecord) {
    n.creditName.Some? && n.creditName.value != ""
  }

  /**
   * The name before the emptiness check: a non-blank credit name, else the
   * accepted given names followed by `" "` and the accepted family name.
   */
  function DisplayName(n: NameRecord): (d: string)
    ensures HasCreditName(n) ==> d == n.creditName.value
    ensures !HasCreditName(n) && !Accepted(n.familyName, FamilyNameDeactivated) ==>
              d == if Accepted(n.givenNames, GivenNamesDeactivated) then n.givenNames.value else ""
    ensures !HasCreditName(n) && Accepted(n.familyName, FamilyNameDeactivated) ==>
              d == (if Accepted(n.givenNames, GivenNamesDeactivated) then n.givenNames.value else "") + " " + n.familyName.value
  {
    if HasCreditName(n) then n.creditName.value
    else
      var given := if Accepted(n.givenNames, GivenNamesDeactivated) then n.givenNames.value else "";
      if Accepted(n.familyName, FamilyNameDeactivated) then given + " " + n.familyName.value else given
  }

  /** The output line for a resolved name, or `None` when no name element is usable. */
  function ComposeLine(n: NameRecord, orcid: string): (r: Option<string>)
    ensures r.None? <==> DisplayName(n) == ""
    ensures r.Some? ==> r.value == Strip(DisplayName(n)) + ": " + orcid
  {
    var d := DisplayName(n);
    if d == "" then None else Some(Strip(d) + ": " + orcid)
  }

  /**
   * A credit name, given names or a family name is enough for a line, and
   * the line always ends with `": "` and the identifier.
   */
  lemma ComposeLineCases(n: NameRecord, orcid: string)
    ensures !HasCreditName(n) && !Accepted(n.familyName, FamilyNameDeactivated)
            && !(Accepted(n.givenNames, GivenNamesDeactivated) && n.givenNames.value != "")
            <==> ComposeLine(n, orcid).None?
    ensures ComposeLine(n, orcid).Some? ==>
              var line := ComposeLine(n, orcid).value;
              |line| >= |orcid| + 2 && line[|line| - |orcid| - 2..] == ": " + orcid
  {
    if ComposeLine(n, orcid).Some? {
      var line := ComposeLine(n, orcid).value;
      assert line == Strip(DisplayName(n)) + (": " + orcid);
    }
  }

  /**
   * A line written here is a creator value the ORCID-adding script reads
   * back: searching it finds the identifier, as long as the name holds no
   * identifier-shaped text.
   */
  lemma ComposedLineYieldsIdentifier(n: NameRecord, orcid: string)
    requires IsOrcid(orcid)
    requires forall j :: !OrcidAt(Strip(DisplayName(n)), j)
    requires ComposeLine(n, orcid).Some?
    ensures SearchOrcid(ComposeLine(n, orcid).value) == Some(orcid)
  {
    SearchOrcidOfCreator(Strip(DisplayName(n)), orcid);
  }

  // ---------------------------------------------------------------------
  // resolve_orcid_identifiers
  // ---------------------------------------------------------------------

  /** The lines written to the output file, the lines printed, and whether a request failed. */
  datatype Output = Output(file: seq<string>, screen: seq<string>, failed: Option<int>)

  /** The status the person endpoint answers for an identifier, asked with the stripped identifier. */
  function StatusOf(api: string -> Response, orcid: string): int {
    api(Strip(orcid)).status
  }

  /** The statuses that do not stop the run: 200, and 404 and 409, which skip the identifier. */
  predicate Tolerated(status: int) {
    status == StatusOk || status == StatusNotFound || status == StatusLocked
  }

  /** Identifier `i` is the first whose status stops the run. */
  predicate FirstRejectedAt(api: string -> Response, orcids: seq<string>, i: int) {
    && 0 <= i < |orcids|
    && !Tolerated(StatusOf(api, orcids[i]))
    && forall j :: 0 <= j < i ==> Tolerated(StatusOf(api, orcids[j]))
  }

  /**
   * One identifier: 200 with a name writes its line (printed unless
   * `--quiet`); 200 with a `null` name, 404, 409 and an unusable name skip
   * it; any other status stops the run.
   */
  function ResolveOne(api: string -> Response, orcid: string): Result<Option<string>, int> {
    var response := api(Strip(orcid));
    if response.status == StatusOk then
      match response.name
      case None => Success(None)
      case Some(n) => Success(ComposeLine(n, orcid))
    else if response.status == StatusNotFound || response.status == StatusLocked then Success(None)
    else Failure(response.status)
  }

  /**
   * One identifier fails exactly when its status is not 200, 404 or 409,
   * and the failure carries that status; 404 and 409 give no line; 200
   * with a name gives the composed line.
   */
  lemma ResolveOneOutcome(api: string -> Response, orcid: string)
    ensures ResolveOne(api, orcid).Failure? <==> !Tolerated(StatusOf(api, orcid))
    ensures ResolveOne(api, orcid).Failure? ==> ResolveOne(api, orcid).error == StatusOf(api, orcid)
    ensures StatusOf(api, orcid) == StatusNotFound || StatusOf(api, orcid) == StatusLocked ==> ResolveOne(api, orcid) == Success(None)
    ensures StatusOf(api, orcid) == StatusOk && api(Strip(orcid)).name.Some? ==>
              ResolveOne(api, orcid) == Success(ComposeLine(api(Strip(orcid)).name.value, orcid))
  {
  }

  /** What one identifier's outcome adds to the output. */
  function Step(before: Output, r: Result<Option<string>, int>, quiet: bool): Output {
    match r
    case Failure(status) => Output(before.file, before.screen, Some(status))
    case Success(None) => before
    case Success(Some(line)) => Output(before.file + [line + "\n"], before.screen + (if quiet then [] else [line]), None)
  }

  function Resolved(api: string -> Response, orcids: seq<string>, quiet: bool): Output {
    if orcids == [] then Output([], [], None)
    else
      var before := Resolved(api, orcids[..|orcids| - 1], quiet);
      if before.failed.Some? then before else Step(before, ResolveOne(api, orcids[|orcids| - 1]), quiet)
  }

  lemma ResolvedSnoc(api: string -> Response, orcids: seq<string>, orcid: string, quiet: bool)
    ensures var before := Resolved(api, orcids, quiet);
            Resolved(api, orcids + [orcid], quiet)
            == if before.failed.Some? then before else Step(before, ResolveOne(api, orcid), quiet)
  {
    assert (orcids + [orcid])[..|orcids|] == orcids;
  }

  /** `ResolvedSnoc` for the prefixes of one list. */
  lemma ResolvedPrefix(api: string -> Response, orcids: seq<string>, i: nat, quiet: bool)
    requires i < |orcids|
    ensures var before := Resolved(api, orcids[..i], quiet);
            Resolved(api, orcids[..i + 1], quiet)
            == if before.failed.Some? then before else Step(before, ResolveOne(api, orcids[i]), quiet)
  {
    assert orcids[..i + 1] == orcids[..i] + [orcids[i]];
    ResolvedSnoc(api, orcids[..i], orcids[i], quiet);
  }

  /** Once a request has failed, the remaining identifiers add nothing. */
  lemma {:induction false} ResolvedStops(api: string -> Response, orcids: seq<string>, rest: seq<string>, quiet: bool)
    requires Resolved(api, orcids, quiet).failed.Some?
    ensures Resolved(api, orcids + rest, quiet) == Resolved(api, orcids, quiet)
    decreases |rest|
  {
    if rest == [] {
      assert orcids + rest == orcids;
    } else {
      var init := rest[..|rest| - 1];
      ResolvedStops(api, orcids, init, quiet);
      assert orcids + rest == (orcids + init) + [rest[|rest| - 1]];
      ResolvedSnoc(api, orcids + init, rest[|rest| - 1], quiet);
    }
  }

  /** Every identifier gets 200, 404 or 409, stated one identifier at a time. */
  predicate AllTolerated(api: string -> Response, orcids: seq<string>) {
    orcids == [] || (AllTolerated(api, orcids[..|orcids| - 1]) && Tolerated(StatusOf(api, orcids[|orcids| - 1])))
  }

  lemma {:induction false} AllToleratedMeansEach(api: string -> Response, orcids: seq<string>)
    ensures AllTolerated(api, orcids) <==> forall i :: 0 <= i < |orcids| ==> Tolerated(StatusOf(api, orcids[i]))
  {
    if orcids != [] {
      var init := orcids[..|orcids| - 1];
      AllToleratedMeansEach(api, init);
      assert forall j :: 0 <= j < |init| ==> init[j] == orcids[j];
    }
  }

  lemma {:induction false} NoFailureIffAllTolerated(api: string -> Response, orcids: seq<string>, quiet: bool)
    ensures Resolved(api, orcids, quiet).failed.None? <==> AllTolerated(api, orcids)
  {
    if orcids != [] {
      var init := orcids[..|orcids| - 1];
      var last := orcids[|orcids| - 1];
      NoFailureIffAllTolerated(api, init, quiet);
      var before := Resolved(api, init, quiet);
      if before.failed.None? {
        StepFailure(before, ResolveOne(api, last), quiet);
        ResolveOneOutcome(api, last);
      }
    }
  }

  /** A failed run reports the status of an identifier all of whose predecessors got 200, 404 or 409. */
  lemma {:induction false} FirstRejectedIndex(api: string -> Response, orcids: seq<string>, quiet: bool) returns (i: nat)
    requires Resolved(api, orcids, quiet).failed.Some?
    ensures i < |orcids| && !Tolerated(StatusOf(api, orcids[i])) && AllTolerated(api, orcids[..i])
    ensures Resolved(api, orcids, quiet).failed.value == StatusOf(api, orcids[i])
  {
    var init := orcids[..|orcids| - 1];
    var last := orcids[|orcids| - 1];
    var before := Resolved(api, init, quiet);
    if before.failed.Some? {
      i := FirstRejectedIndex(api, init, quiet);
      assert init[..i] == orcids[..i] && init[i] == orcids[i];
    } else {
      StepFailure(before, ResolveOne(api, last), quiet);
      ResolveOneOutcome(api, last);
      NoFailureIffAllTolerated(api, init, quiet);
      i := |init|;
      assert orcids[..i] == init;
    }
  }

  /**
   * The run fails exactly when some identifier is answered with a status
   * other than 200, 404 and 409, and then it reports the status of the
   * first such identifier.
   */
  lemma FailsAtFirstRejectedStatus(api: string -> Response, orcids: seq<string>, quiet: bool)
    ensures Resolved(api, orcids, quiet).failed.None? <==> forall i :: 0 <= i < |orcids| ==> Tolerated(StatusOf(api, orcids[i]))
    ensures Resolved(api, orcids, quiet).failed.Some? ==>
              exists i :: FirstRejectedAt(api, orcids, i) && Resolved(api, orcids, quiet).failed.value == StatusOf(api, orcids[i])
  {
    NoFailureIffAllTolerated(api, orcids, quiet);
    AllToleratedMeansEach(api, orcids);
    if Resolved(api, orcids, quiet).failed.Some? {
      var i := FirstRejectedIndex(api, orcids, quiet);
      AllToleratedMeansEach(api, orcids[..i]);
      assert forall j :: 0 <= j < i ==> orcids[..i][j] == orcids[j];
      assert FirstRejectedAt(api, orcids, i);
    }
  }

  lemma StepFailure(before: Output, r: Result<Option<string>, int>, quiet: bool)
    ensures Step(before, r, quiet).failed == if r.Failure? then Some(r.error) else if r.value.Some? then None else before.failed
  {
  }

  /** An identifier answered 404 or 409 adds nothing to the run. */
  lemma SkippedStatusAddsNothing(api: string -> Response, orcids: seq<string>, orcid: string, quiet: bool)
    requires StatusOf(api, orcid) == StatusNotFound || StatusOf(api, orcid) == StatusLocked
    ensures Resolved(api, orcids + [orcid], quiet) == Resolved(api, orcids, quiet)
  {
    ResolvedSnoc(api, orcids, orcid, quiet);
    ResolveOneOutcome(api, orcid);
  }

  /** A run that fails on identifier `n - 1` is the run over the first `n` identifiers. */
  lemma ResolvedStopsAt(api: string -> Response, orcids: seq<string>, n: nat, quiet: bool)
    requires n <= |orcids| && Resolved(api, orcids[..n], quiet).failed.Some?
    ensures Resolved(api, orcids, quiet) == Resolved(api, orcids[..n], quiet)
  {
    ResolvedStops(api, orcids[..n], orcids[n..], quiet);
    assert orcids[..n] + orcids[n..] == orcids;
  }

  /**
   * The screen shows exactly the file's lines without their newlines, or
   * nothing under `--quiet`; at most one line per identifier.
   */
  lemma {:induction false} ScreenMirrorsFile(api: string -> Response, orcids: seq<string>, quiet: bool)
    ensures var out := Resolved(api, orcids, quiet);
            && |out.file| <= |orcids|
            && (quiet ==> out.screen == [])
            && (!quiet ==> |out.screen| == |out.file| && forall k :: 0 <= k < |out.file| ==> out.file[k] == out.screen[k] + "\n")
  {
    if orcids != [] {
      var init := orcids[..|orcids| - 1];
      ScreenMirrorsFile(api, init, quiet);
      var before := Resolved(api, init, quiet);
      var r := ResolveOne(api, orcids[|orcids| - 1]);
      if before.failed.None? && r.Success? && r.value.Some? {
        var out := Resolved(api, orcids, quiet);
        assert out.file == before.file + [r.value.value + "\n"];
        assert out.screen == before.screen + if quiet then [] else [r.value.value];
      }
    }
  }

  /** `--quiet` changes what is printed, never what is written or where the run stops. */
  lemma {:induction false} QuietWritesTheSameFile(api: string -> Response, orcids: seq<string>)
    ensures Resolved(api, orcids, true).file == Resolved(api, orcids, false).file
    ensures Resolved(api, orcids, true).failed == Resolved(api, orcids, false).failed
  {
    if orcids != [] {
      QuietWritesTheSameFile(api, orcids[..|orcids| - 1]);
    }
  }

  /** `line` ends with `": "`, the identifier and a newline. */
  predicate NamesIdentifier(line: string, orcid: string) {
    |line| >= |orcid| + 3 && line[|line| - |orcid| - 3..] == ": " + orcid + "\n"
  }

  lemma ComposedLineNamesIdentifier(n: NameRecord, orcid: string)
    requires ComposeLine(n, orcid).Some?
    ensures NamesIdentifier(ComposeLine(n, orcid).value + "\n", orcid)
  {
    var line := ComposeLine(n, orcid).value + "\n";
    assert line == Strip(DisplayName(n)) + (": " + orcid + "\n");
  }

  /**
   * Each identifier adds at most one line to the file, after the lines
   * already written, and that line ends with `": "`, the identifier and a
   * newline.
   */
  lemma WrittenLineNamesIdentifier(api: string -> Response, orcids: seq<string>, orcid: string, quiet: bool)
    ensures var before := Resolved(api, orcids, quiet).file;
            var after := Resolved(api, orcids + [orcid], quiet).file;
            || after == before
            || (|after| == |before| + 1 && after[..|before|] == before && NamesIdentifier(after[|before|], orcid))
  {
    ResolvedSnoc(api, orcids, orcid, quiet);
    var before := Resolved(api, orcids, quiet);
    var r := ResolveOne(api, orcid);
    if before.failed.None? && r.Success? && r.value.Some? {
      var n := api(Strip(orcid)).name.value;
      ComposedLineNamesIdentifier(n, orcid);
      assert (before.file + [r.value.value + "\n"])[..|before.file|] == before.file;
    }
  }

  /** One identifier: the request, the status branches, the composition. */
  method ResolveIdentifier(api: string -> Response, orcid: string) returns (r: Result<Option<string>, int>)
    ensures r == ResolveOne(api, orcid)
  {
    var response := api(Strip(orcid));
    if response.status == StatusOk {
      if response.name.None? {
        return Success(None);
      }
      var n := response.name.value;
      var line: string;
      if n.creditName.Some? && n.creditName.value != "" {
        line := n.creditName.value;
      } else {
        line := "";
        if n.givenNames.Some? && n.givenNames.value != GivenNamesDeactivated {
          line := n.givenNames.value;
        }
        if n.familyName.Some? && n.familyName.value != FamilyNameDeactivated {
          line := line + " " + n.familyName.value;
        }
      }
      if line == "" {
        return Success(None);
      }
      return Success(Some(Strip(line) + ": " + orcid));
    } else if response.status == StatusNotFound || response.status == StatusLocked {
      return Success(None);
    }
    return Failure(response.status);
  }

  /** One pass of the loop: look the identifier up, then record the failure or write and print the line. */
  method ResolveNext(api: string -> Response, out: Output, orcid: string, quiet: bool) returns (next: Output)
    ensures next == Step(out, ResolveOne(api, orcid), quiet)
  {
    var r := ResolveIdentifier(api, orcid);
    if r.Failure? {
      return Output(out.file, out.screen, Some(r.error));
    }
    next := out;
    if r.value.Some? {
      var line := r.value.value;
      var shown := if quiet then [] else [line];
      next := Output(out.file + [line + "\n"], out.screen + shown, None);
    }
  }

  /** The script's lookup loop over the identifiers. */
  method ResolveOrcidIdentifiers(api: string -> Response, orcids: seq<string>, quiet: bool) returns (out: Output)
    ensures out == Resolved(api, orcids, quiet)
  {
    out := Output([], [], None);
    var i := 0;
    while i < |orcids|
      invariant 0 <= i <= |orcids|
      invariant out == Resolved(api, orcids[..i], quiet)
      invariant out.failed.None?
    {
      ResolvedPrefix(api, orcids, i, quiet);
      out := ResolveNext(api, out, orcids[i], quiet);
      i := i + 1;
      if out.failed.Some? {
        ResolvedStopsAt(api, orcids, i, quiet);
        return;
      }
    }
    assert orcids[..i] == orcids;
  }

  // ---------------------------------------------------------------------
  // The name composition as written
  // ---------------------------------------------------------------------

  /** The script's `line` variable: never assigned yet, `None` after a written line, or a string. */
  datatype LineVar = Unbound | NoneValue | Text(s: string)

  /** What the composition does: crash (`NameError` or `TypeError`), skip, or write a line. */
  datatype Composed = Crash | Skip | Emit(line: string)

  /** The composition reads `line` as the previous identifier left it. */
  function AsWrittenCompose(line: LineVar, n: NameRecord, orcid: string): (Composed, LineVar) {
    if HasCreditName(n) then (Emit(Strip(n.creditName.value) + ": " + orcid), NoneValue)
    else
      var first := if Accepted(n.givenNames, GivenNamesDeactivated) then Text(n.givenNames.value) else line;
      if Accepted(n.familyName, FamilyNameDeactivated) && !first.Text? then (Crash, first)
      else
        var joined := if Accepted(n.familyName, FamilyNameDeactivated) then Text(first.s + " " + n.familyName.value) else first;
        match joined
        case Unbound => (Crash, joined)
        case NoneValue => (Skip, joined)
        case Text(s) => if s == "" then (Skip, joined) else (Emit(Strip(s) + ": " + orcid), NoneValue)
  }

  datatype AsWrittenOutput = AsWrittenOutput(file: seq<string>, line: LineVar, crashed: bool, failed: Option<int>)

  function AsWritten(api: string -> Response, orcids: seq<string>): AsWrittenOutput {
    if orcids == [] then AsWrittenOutput([], Unbound, false, None)
    else
      var before := AsWritten(api, orcids[..|orcids| - 1]);
      var orcid := orcids[|orcids| - 1];
      var response := api(Strip(orcid));
      if before.crashed || before.failed.Some? then before
      else if response.status == StatusOk then
        match response.name
        case None => before
        case Some(n) =>
          match AsWrittenCompose(before.line, n, orcid)
          case (Crash, l) => AsWrittenOutput(before.file, l, true, None)
          case (Skip, l) => AsWrittenOutput(before.file, l, false, None)
          case (Emit(text), l) => AsWrittenOutput(before.file + [text + "\n"], l, false, None)
      else if response.status == StatusNotFound || response.status == StatusLocked then before
      else AsWrittenOutput(before.file, before.line, false, Some(response.status))
  }

  /** A person with only a family name. */
  const FamilyOnly: NameRecord := NameRecord(None, None, Some("Orth"))

  const SampleOrcid: string := "0000-0002-1735-7458"

  lemma FamilyOnlyLine()
    ensures DisplayName(FamilyOnly) == " Orth"
    ensures ComposeLine(FamilyOnly, SampleOrcid) == Some("Orth: " + SampleOrcid)
  {
    StripOfLeadingSpace("Orth");
    assert "Orth" + ": " + SampleOrcid == "Orth: " + SampleOrcid;
  }

  /**
   * The script crashes on the first identifier whose record has a family
   * name but no usable given names (`line` is unbound), while the intended
   * composition writes the family name.
   */
  lemma UnboundLineCounterexample(api: string -> Response)
    requires forall s :: api(s) == Response(StatusOk, Some(FamilyOnly))
    ensures AsWritten(api, [SampleOrcid]).crashed && AsWritten(api, [SampleOrcid]).file == []
    ensures Resolved(api, [SampleOrcid], false).file == ["Orth: " + SampleOrcid + "\n"]
  {
    assert [SampleOrcid][..0] == [];
    FamilyOnlyLine();
    assert AsWrittenCompose(Unbound, FamilyOnly, SampleOrcid).0 == Crash;
    assert ResolveOne(api, SampleOrcid) == Success(Some("Orth: " + SampleOrcid));
  }
}
