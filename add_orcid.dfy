/**
 * `ilri/add-orcid-identifiers-csv.py`: a CSV of author names and creator
 * texts ("Name: 0000-0000-0000-0000"). For every item that has the author
 * name in `dc.contributor.author`, the script adds a `cg.creator.id` value
 * with the creator text at the author's place, unless the item already has
 * a creator value holding the same ORCID identifier with confidence -1.
 * Each CSV row is one transaction; with `--dry-run` only the notices remain.
 */
module AddOrcidIdentifiers {
  import opened Wrappers
  import opened Text
  import opened Orcid
  import opened Csv
  import opened Store

  /** `metadata_field_id` 3, `dc.contributor.author`. */
  const AuthorField: FieldId := 3

  /** The confidence of the creator values the script writes and looks for. */
  const NoConfidence: int := -1

  datatype Notice = WouldAdd(text: string, owner: ObjectId) | Adding(text: string, owner: ObjectId)

  datatype Error = MissingColumn(name: string)

  /** One CSV row: the author name and the creator text. */
  datatype Entry = Entry(author: string, creator: string)

  /** A `(dspace_object_id, place)` record of the author query. */
  datatype Record = Record(owner: ObjectId, place: int)

  /** The table together with `metadatavalue_seq`. */
  datatype State = State(rows: seq<MetadataValue>, lastId: int)

  datatype Run = Run(state: State, notices: seq<Notice>)

  /** The owner and place columns of an author query's result. */
  function Records(selected: seq<MetadataValue>): (r: seq<Record>)
    ensures |r| == |selected|
    ensures forall k :: 0 <= k < |r| ==> r[k] == Record(selected[k].owner, selected[k].place)
  {
    seq(|selected|, k requires 0 <= k < |selected| => Record(selected[k].owner, selected[k].place))
  }

  /**
   * The existence check's WHERE clause: a value of `owner`, an item, in the
   * creator field, whose text contains `token` (`LIKE '%' || token || '%'`;
   * an identifier holds no wildcard) and whose confidence is -1.
   */
  predicate Asserts(items: set<ObjectId>, field: FieldId, owner: ObjectId, token: string, v: MetadataValue) {
    v.owner == owner && owner in items && v.field == field && Contains(v.text, token) && v.confidence == NoConfidence
  }

  predicate HasAssertion(rows: seq<MetadataValue>, items: set<ObjectId>, field: FieldId, owner: ObjectId, token: string) {
    exists k | 0 <= k < |rows| :: Asserts(items, field, owner, token, rows[k])
  }

  /** The value the commit inserts for one record, with the id drawn from the sequence. */
  function NewValue(id: int, r: Record, field: FieldId, text: string): MetadataValue {
    MetadataValue(id, r.owner, field, text, r.place, NoConfidence)
  }

  /** One record of the author query: the existence check, then the notice and, on commit, `nextval` and the INSERT. */
  function AddToRecord(st: State, items: set<ObjectId>, field: FieldId, text: string, token: string, r: Record,
                       dryRun: bool): (run: Run)
    ensures HasAssertion(st.rows, items, field, r.owner, token) ==> run == Run(st, [])
    ensures dryRun ==> run.state == st
    ensures !HasAssertion(st.rows, items, field, r.owner, token) ==>
              |run.notices| == 1 && run.notices[0].text == text && run.notices[0].owner == r.owner
    ensures !HasAssertion(st.rows, items, field, r.owner, token) && !dryRun ==>
              run.state.lastId == st.lastId + 1 &&
              run.state.rows == st.rows + [MetadataValue(st.lastId + 1, r.owner, field, text, r.place, NoConfidence)]
  {
    if HasAssertion(st.rows, items, field, r.owner, token) then Run(st, [])
    else if dryRun then Run(st, [WouldAdd(text, r.owner)])
    else Run(State(st.rows + [NewValue(st.lastId + 1, r, field, text)], st.lastId + 1), [Adding(text, r.owner)])
  }

  /** The records in query order, each checked against the table the previous ones left. */
  function AddToRecords(st: State, items: set<ObjectId>, field: FieldId, text: string, token: string, rs: seq<Record>,
                        dryRun: bool): Run
  {
    if rs == [] then Run(st, [])
    else
      var before := AddToRecords(st, items, field, text, token, rs[..|rs| - 1], dryRun);
      var step := AddToRecord(before.state, items, field, text, token, rs[|rs| - 1], dryRun);
      Run(step.state, before.notices + step.notices)
  }

  /**
   * One CSV row: the author query, then the creator text stripped of
   * whitespace; a text without an ORCID identifier skips the row.
   */
  function AddEntry(st: State, items: set<ObjectId>, field: FieldId, e: Entry, dryRun: bool): (r: Run)
    ensures SearchOrcid(Strip(e.creator)).None? ==> r == Run(st, [])
    ensures Selected(st.rows, items, AuthorField, e.author) == [] ==> r == Run(st, [])
  {
    var text := Strip(e.creator);
    match SearchOrcid(text)
    case None => Run(st, [])
    case Some(token) => AddToRecords(st, items, field, text, token, Records(Selected(st.rows, items, AuthorField, e.author)), dryRun)
  }

  /** The CSV rows in order, each against the table the previous ones left. */
  function AddEntries(st: State, items: set<ObjectId>, field: FieldId, es: seq<Entry>, dryRun: bool): Run
  {
    if es == [] then Run(st, [])
    else
      var before := AddEntries(st, items, field, es[..|es| - 1], dryRun);
      var step := AddEntry(before.state, items, field, es[|es| - 1], dryRun);
      Run(step.state, before.notices + step.notices)
  }

  /** The CSV read as entries. */
  function Entries(csv: CsvTable, authorColumn: string, orcidColumn: string): (es: seq<Entry>)
    requires WellFormed(csv) && authorColumn in csv.fieldnames && orcidColumn in csv.fieldnames
    ensures |es| == |csv.rows|
    ensures forall k :: 0 <= k < |es| ==> es[k] == Entry(csv.rows[k][authorColumn], csv.rows[k][orcidColumn])
  {
    seq(|csv.rows|, k requires 0 <= k < |csv.rows| => Entry(csv.rows[k][authorColumn], csv.rows[k][orcidColumn]))
  }

  /**
   * The whole script. A missing column is a `KeyError` on the first CSV row,
   * before anything is written; a CSV without rows reads no column.
   */
  function AddFromCsv(st: State, items: set<ObjectId>, field: FieldId, csv: CsvTable, authorColumn: string,
                      orcidColumn: string, dryRun: bool): (r: Result<Run, Error>)
    requires WellFormed(csv)
    ensures r.Failure? <==> |csv.rows| > 0 && (authorColumn !in csv.fieldnames || orcidColumn !in csv.fieldnames)
    ensures r.Failure? && authorColumn !in csv.fieldnames ==> r.error == MissingColumn(authorColumn)
    ensures r.Success? && |csv.rows| == 0 ==> r.value == Run(st, [])
  {
    if |csv.rows| == 0 then Success(Run(st, []))
    else if authorColumn !in csv.fieldnames then Failure(MissingColumn(authorColumn))
    else if orcidColumn !in csv.fieldnames then Failure(MissingColumn(orcidColumn))
    else Success(AddEntries(st, items, field, Entries(csv, authorColumn, orcidColumn), dryRun))
  }

  lemma AddToRecordsSnoc(st: State, items: set<ObjectId>, field: FieldId, text: string, token: string, rs: seq<Record>,
                         r: Record, dryRun: bool)
    ensures var before := AddToRecords(st, items, field, text, token, rs, dryRun);
            var step := AddToRecord(before.state, items, field, text, token, r, dryRun);
            AddToRecords(st, items, field, text, token, rs + [r], dryRun) == Run(step.state, before.notices + step.notices)
  {
    assert (rs + [r])[..|rs|] == rs;
  }

  lemma AddEntriesSnoc(st: State, items: set<ObjectId>, field: FieldId, es: seq<Entry>, e: Entry, dryRun: bool)
    ensures var before := AddEntries(st, items, field, es, dryRun);
            var step := AddEntry(before.state, items, field, e, dryRun);
            AddEntries(st, items, field, es + [e], dryRun) == Run(step.state, before.notices + step.notices)
  {
    assert (es + [e])[..|es|] == es;
  }

  /** `AddEntriesSnoc` for the prefixes of one CSV. */
  lemma AddEntriesPrefix(st: State, items: set<ObjectId>, field: FieldId, es: seq<Entry>, i: nat, dryRun: bool)
    requires i < |es|
    ensures var before := AddEntries(st, items, field, es[..i], dryRun);
            var step := AddEntry(before.state, items, field, es[i], dryRun);
            AddEntries(st, items, field, es[..i + 1], dryRun) == Run(step.state, before.notices + step.notices)
  {
    assert es[..i + 1] == es[..i] + [es[i]];
    AddEntriesSnoc(st, items, field, es[..i], es[i], dryRun);
  }

  // ---------------------------------------------------------------------
  // What a run may do to the table: append creator values with fresh ids
  // ---------------------------------------------------------------------

  /**
   * `after` is `before` with rows appended and nothing else changed: each
   * new row is a value of `field` with confidence -1, and the new rows carry
   * the ids the sequence handed out, in order.
   */
  predicate Extends(before: State, after: State, field: FieldId) {
    && |before.rows| <= |after.rows|
    && after.rows[..|before.rows|] == before.rows
    && after.lastId == before.lastId + (|after.rows| - |before.rows|)
    && forall k :: |before.rows| <= k < |after.rows| ==>
         after.rows[k].id == before.lastId + 1 + (k - |before.rows|) &&
         after.rows[k].field == field && after.rows[k].confidence == NoConfidence
  }

  lemma ExtendsTransitive(a: State, b: State, c: State, field: FieldId)
    requires Extends(a, b, field) && Extends(b, c, field)
    ensures Extends(a, c, field)
  {
    assert c.rows[..|a.rows|] == c.rows[..|b.rows|][..|a.rows|];
  }

  /** Every id in the table is at most the sequence's last value. */
  predicate IdsDrawn(st: State) {
    forall k :: 0 <= k < |st.rows| ==> st.rows[k].id <= st.lastId
  }

  predicate DistinctIds(rows: seq<MetadataValue>) {
    forall j, k :: 0 <= j < k < |rows| ==> rows[j].id != rows[k].id
  }

  /** Values inserted with ids from the sequence keep the ids unique and behind the sequence. */
  lemma ExtendsKeepsIdsUnique(before: State, after: State, field: FieldId)
    requires Extends(before, after, field) && IdsDrawn(before) && DistinctIds(before.rows)
    ensures IdsDrawn(after) && DistinctIds(after.rows)
  {
    forall k | 0 <= k < |before.rows|
      ensures after.rows[k] == before.rows[k]
    {
      assert after.rows[k] == after.rows[..|before.rows|][k];
    }
  }

  /**
   * A record step appends at most the one value built from the record; a
   * dry run and a record that already has the identifier change nothing.
   */
  lemma {:induction false} AddToRecordsExtends(st: State, items: set<ObjectId>, field: FieldId, text: string, token: string,
                                               rs: seq<Record>, dryRun: bool)
    ensures var after := AddToRecords(st, items, field, text, token, rs, dryRun);
            && Extends(st, after.state, field)
            && (dryRun ==> after.state == st)
            && (!dryRun ==> |after.notices| == |after.state.rows| - |st.rows|)
            && forall k :: |st.rows| <= k < |after.state.rows| ==>
                 after.state.rows[k].text == text &&
                 exists j :: 0 <= j < |rs| && after.state.rows[k].owner == rs[j].owner && after.state.rows[k].place == rs[j].place
  {
    if rs != [] {
      var init := rs[..|rs| - 1];
      var r := rs[|rs| - 1];
      var mid := AddToRecords(st, items, field, text, token, init, dryRun);
      AddToRecordsExtends(st, items, field, text, token, init, dryRun);
      var after := AddToRecord(mid.state, items, field, text, token, r, dryRun);
      assert Extends(mid.state, after.state, field);
      ExtendsTransitive(st, mid.state, after.state, field);
      forall k | |st.rows| <= k < |after.state.rows|
        ensures after.state.rows[k].text == text
        ensures exists j :: 0 <= j < |rs| && after.state.rows[k].owner == rs[j].owner && after.state.rows[k].place == rs[j].place
      {
        if k < |mid.state.rows| {
          assert after.state.rows[k] == mid.state.rows[k];
          var j :| 0 <= j < |init| && mid.state.rows[k].owner == init[j].owner && mid.state.rows[k].place == init[j].place;
          assert rs[j] == init[j];
        } else {
          assert rs[|rs| - 1] == r;
        }
      }
    }
  }

  /** Rows appended behind the table keep every assertion it had. */
  lemma HasAssertionOfExtension(rows: seq<MetadataValue>, longer: seq<MetadataValue>, items: set<ObjectId>,
                                field: FieldId, owner: ObjectId, token: string)
    requires |rows| <= |longer| && longer[..|rows|] == rows
    requires HasAssertion(rows, items, field, owner, token)
    ensures HasAssertion(longer, items, field, owner, token)
  {
    var k :| 0 <= k < |rows| && Asserts(items, field, owner, token, rows[k]);
    assert longer[k] == longer[..|rows|][k];
  }

  /**
   * With the identifier in the creator text, a commit leaves every record's
   * item holding a creator value with that identifier.
   */
  lemma {:induction false} CommitAssertsEveryRecord(st: State, items: set<ObjectId>, field: FieldId, text: string,
                                                    token: string, rs: seq<Record>)
    requires Contains(text, token)
    requires forall j :: 0 <= j < |rs| ==> rs[j].owner in items
    ensures var after := AddToRecords(st, items, field, text, token, rs, false).state;
            forall j :: 0 <= j < |rs| ==> HasAssertion(after.rows, items, field, rs[j].owner, token)
  {
    if rs != [] {
      var init := rs[..|rs| - 1];
      var r := rs[|rs| - 1];
      var mid := AddToRecords(st, items, field, text, token, init, false).state;
      CommitAssertsEveryRecord(st, items, field, text, token, init);
      var after := AddToRecord(mid, items, field, text, token, r, false).state;
      assert |mid.rows| <= |after.rows| && after.rows[..|mid.rows|] == mid.rows;
      forall j | 0 <= j < |rs|
        ensures HasAssertion(after.rows, items, field, rs[j].owner, token)
      {
        if j < |init| {
          assert rs[j] == init[j];
          HasAssertionOfExtension(mid.rows, after.rows, items, field, rs[j].owner, token);
        } else if !HasAssertion(mid.rows, items, field, r.owner, token) {
          assert Asserts(items, field, r.owner, token, after.rows[|mid.rows|]);
        }
      }
    }
  }

  /**
   * An item named several times under the author (two places, say) still
   * gets one new creator value per CSV row: the existence check sees the
   * value inserted for its first record.
   */
  lemma {:induction false} CommitAddsOnePerItem(st: State, items: set<ObjectId>, field: FieldId, text: string,
                                                token: string, rs: seq<Record>)
    requires Contains(text, token)
    requires forall j :: 0 <= j < |rs| ==> rs[j].owner in items
    ensures var after := AddToRecords(st, items, field, text, token, rs, false).state;
            forall j, k :: |st.rows| <= j < k < |after.rows| ==> after.rows[j].owner != after.rows[k].owner
  {
    if rs != [] {
      var init := rs[..|rs| - 1];
      var r := rs[|rs| - 1];
      var mid := AddToRecords(st, items, field, text, token, init, false).state;
      CommitAddsOnePerItem(st, items, field, text, token, init);
      AddToRecordsExtends(st, items, field, text, token, init, false);
      var after := AddToRecord(mid, items, field, text, token, r, false).state;
      if !HasAssertion(mid.rows, items, field, r.owner, token) {
        forall j | |st.rows| <= j < |mid.rows|
          ensures mid.rows[j].owner != r.owner
        {
          var i :| 0 <= i < |init| && mid.rows[j].owner == init[i].owner && mid.rows[j].place == init[i].place;
          assert rs[i] == init[i];
          assert Asserts(items, field, mid.rows[j].owner, token, mid.rows[j]);
        }
        forall j, k | |st.rows| <= j < k < |after.rows|
          ensures after.rows[j].owner != after.rows[k].owner
        {
          assert after.rows[j] == mid.rows[j];
          if k < |mid.rows| {
            assert after.rows[k] == mid.rows[k];
          }
        }
      }
    }
  }

  /** Records whose items all hold the identifier already: nothing is printed or written. */
  lemma {:induction false} AssertedRecordsAreSkipped(st: State, items: set<ObjectId>, field: FieldId, text: string,
                                                     token: string, rs: seq<Record>, dryRun: bool)
    requires forall j :: 0 <= j < |rs| ==> HasAssertion(st.rows, items, field, rs[j].owner, token)
    ensures AddToRecords(st, items, field, text, token, rs, dryRun) == Run(st, [])
  {
    if rs != [] {
      AssertedRecordsAreSkipped(st, items, field, text, token, rs[..|rs| - 1], dryRun);
      assert HasAssertion(st.rows, items, field, rs[|rs| - 1].owner, token);
    }
  }

  // ---------------------------------------------------------------------
  // CSV rows
  // ---------------------------------------------------------------------

  lemma AddEntryExtends(st: State, items: set<ObjectId>, field: FieldId, e: Entry, dryRun: bool)
    ensures var after := AddEntry(st, items, field, e, dryRun);
            Extends(st, after.state, field) && (dryRun ==> after.state == st)
  {
    var text := Strip(e.creator);
    match SearchOrcid(text)
    case None =>
    case Some(token) =>
      AddToRecordsExtends(st, items, field, text, token, Records(Selected(st.rows, items, AuthorField, e.author)), dryRun);
  }

  lemma {:induction false} AddEntriesExtends(st: State, items: set<ObjectId>, field: FieldId, es: seq<Entry>, dryRun: bool)
    ensures Extends(st, AddEntries(st, items, field, es, dryRun).state, field)
  {
    if es != [] {
      var mid := AddEntries(st, items, field, es[..|es| - 1], dryRun).state;
      AddEntriesExtends(st, items, field, es[..|es| - 1], dryRun);
      AddEntryExtends(mid, items, field, es[|es| - 1], dryRun);
      ExtendsTransitive(st, mid, AddEntries(st, items, field, es, dryRun).state, field);
    }
  }

  /** A dry run over any CSV leaves the table and the sequence as they were. */
  lemma {:induction false} DryRunChangesNothing(st: State, items: set<ObjectId>, field: FieldId, es: seq<Entry>)
    ensures AddEntries(st, items, field, es, true).state == st
  {
    if es != [] {
      var mid := AddEntries(st, items, field, es[..|es| - 1], true).state;
      DryRunChangesNothing(st, items, field, es[..|es| - 1]);
      AddEntryExtends(mid, items, field, es[|es| - 1], true);
    }
  }

  /**
   * A run draws one id per inserted value and inserts only creator values
   * with confidence -1 behind the existing rows; ids stay unique.
   */
  lemma CommitDrawsFreshIds(st: State, items: set<ObjectId>, field: FieldId, es: seq<Entry>, dryRun: bool)
    requires IdsDrawn(st) && DistinctIds(st.rows)
    ensures var after := AddEntries(st, items, field, es, dryRun).state;
            && Extends(st, after, field)
            && IdsDrawn(after) && DistinctIds(after.rows)
  {
    var after := AddEntries(st, items, field, es, dryRun).state;
    AddEntriesExtends(st, items, field, es, dryRun);
    ExtendsKeepsIdsUnique(st, after, field);
  }

  /** Every item the author query finds holds the entry's identifier. */
  predicate Settled(st: State, items: set<ObjectId>, field: FieldId, e: Entry) {
    match SearchOrcid(Strip(e.creator))
    case None => true
    case Some(token) =>
      var rs := Records(Selected(st.rows, items, AuthorField, e.author));
      forall j :: 0 <= j < |rs| ==> HasAssertion(st.rows, items, field, rs[j].owner, token)
  }

  /** A settled entry changes nothing and prints nothing. */
  lemma SettledEntryIsSkipped(st: State, items: set<ObjectId>, field: FieldId, e: Entry, dryRun: bool)
    requires Settled(st, items, field, e)
    ensures AddEntry(st, items, field, e, dryRun) == Run(st, [])
  {
    var text := Strip(e.creator);
    match SearchOrcid(text)
    case None =>
    case Some(token) =>
      AssertedRecordsAreSkipped(st, items, field, text, token, Records(Selected(st.rows, items, AuthorField, e.author)), dryRun);
  }

  /** Creator values appended outside the author field leave the author query's result alone. */
  lemma SelectedOfExtension(before: State, after: State, items: set<ObjectId>, field: FieldId, author: string)
    requires field != AuthorField && Extends(before, after, field)
    ensures Selected(after.rows, items, AuthorField, author) == Selected(before.rows, items, AuthorField, author)
  {
    var extra := after.rows[|before.rows|..];
    assert after.rows == before.rows + extra;
    forall k | 0 <= k < |extra|
      ensures !Selects(items, AuthorField, author, extra[k])
    {
      assert extra[k] == after.rows[|before.rows| + k];
    }
    SelectedOfAppend(before.rows, extra, items, AuthorField, author);
  }

  /** Appending creator values keeps an entry settled. */
  lemma SettledPersists(before: State, after: State, items: set<ObjectId>, field: FieldId, e: Entry)
    requires field != AuthorField && Extends(before, after, field)
    requires Settled(before, items, field, e)
    ensures Settled(after, items, field, e)
  {
    match SearchOrcid(Strip(e.creator))
    case None =>
    case Some(token) =>
      SelectedOfExtension(before, after, items, field, e.author);
      var rs := Records(Selected(before.rows, items, AuthorField, e.author));
      forall j | 0 <= j < |rs|
        ensures HasAssertion(after.rows, items, field, rs[j].owner, token)
      {
        HasAssertionOfExtension(before.rows, after.rows, items, field, rs[j].owner, token);
      }
  }

  /** Committing an entry settles it. */
  lemma CommitSettlesEntry(st: State, items: set<ObjectId>, field: FieldId, e: Entry)
    requires field != AuthorField
    ensures Settled(AddEntry(st, items, field, e, false).state, items, field, e)
  {
    var text := Strip(e.creator);
    match SearchOrcid(text)
    case None =>
    case Some(token) =>
      var rs := Records(Selected(st.rows, items, AuthorField, e.author));
      var after := AddEntry(st, items, field, e, false).state;
      forall j | 0 <= j < |rs|
        ensures rs[j].owner in items
      {
        assert Selected(st.rows, items, AuthorField, e.author)[j].owner == rs[j].owner;
      }
      CommitAssertsEveryRecord(st, items, field, text, token, rs);
      AddToRecordsExtends(st, items, field, text, token, rs, false);
      SelectedOfExtension(st, after, items, field, e.author);
  }

  /** Every entry of `es` is settled in `st`. */
  predicate AllSettled(st: State, items: set<ObjectId>, field: FieldId, es: seq<Entry>) {
    es == [] || (AllSettled(st, items, field, es[..|es| - 1]) && Settled(st, items, field, es[|es| - 1]))
  }

  /** `AllSettled` says of each entry that it is settled. */
  lemma {:induction false} AllSettledMeansEach(st: State, items: set<ObjectId>, field: FieldId, es: seq<Entry>)
    ensures AllSettled(st, items, field, es) <==> forall k :: 0 <= k < |es| ==> Settled(st, items, field, es[k])
  {
    if es != [] {
      AllSettledMeansEach(st, items, field, es[..|es| - 1]);
      assert forall k :: 0 <= k < |es| - 1 ==> es[..|es| - 1][k] == es[k];
    }
  }

  /** Appending creator values keeps every settled entry settled. */
  lemma {:induction false} AllSettledPersists(before: State, after: State, items: set<ObjectId>, field: FieldId,
                                              es: seq<Entry>)
    requires field != AuthorField && Extends(before, after, field)
    requires AllSettled(before, items, field, es)
    ensures AllSettled(after, items, field, es)
  {
    if es != [] {
      AllSettledPersists(before, after, items, field, es[..|es| - 1]);
      SettledPersists(before, after, items, field, es[|es| - 1]);
    }
  }

  /** After a commit, every entry of the CSV is settled. */
  lemma {:induction false} CommitSettlesAll(st: State, items: set<ObjectId>, field: FieldId, es: seq<Entry>)
    requires field != AuthorField
    ensures AllSettled(AddEntries(st, items, field, es, false).state, items, field, es)
  {
    if es != [] {
      var init, e := es[..|es| - 1], es[|es| - 1];
      var mid := AddEntries(st, items, field, init, false).state;
      var after := AddEntry(mid, items, field, e, false).state;
      CommitSettlesAll(st, items, field, init);
      AddEntryExtends(mid, items, field, e, false);
      AllSettledPersists(mid, after, items, field, init);
      CommitSettlesEntry(mid, items, field, e);
    }
  }

  /** Entries that are all settled: nothing is printed or written. */
  lemma {:induction false} SettledEntriesAreSkipped(st: State, items: set<ObjectId>, field: FieldId, es: seq<Entry>,
                                                    dryRun: bool)
    requires AllSettled(st, items, field, es)
    ensures AddEntries(st, items, field, es, dryRun) == Run(st, [])
  {
    if es != [] {
      SettledEntriesAreSkipped(st, items, field, es[..|es| - 1], dryRun);
      SettledEntryIsSkipped(st, items, field, es[|es| - 1], dryRun);
    }
  }

  /**
   * Running the same CSV again after a commit adds nothing and prints
   * nothing, as long as the creator field is not the author field.
   */
  lemma RerunIsNoOp(st: State, items: set<ObjectId>, field: FieldId, es: seq<Entry>, dryRun: bool)
    requires field != AuthorField
    ensures var after := AddEntries(st, items, field, es, false).state;
            AddEntries(after, items, field, es, dryRun) == Run(after, [])
  {
    var after := AddEntries(st, items, field, es, false).state;
    CommitSettlesAll(st, items, field, es);
    SettledEntriesAreSkipped(after, items, field, es, dryRun);
  }

  // ---------------------------------------------------------------------
  // What a dry run prints
  // ---------------------------------------------------------------------

  /** One "would add" notice per record whose item lacks the identifier, in query order. */
  function WouldAddNotices(rows: seq<MetadataValue>, items: set<ObjectId>, field: FieldId, text: string, token: string,
                           rs: seq<Record>): (ns: seq<Notice>)
    ensures |ns| <= |rs|
    ensures forall k :: 0 <= k < |ns| ==>
              ns[k].WouldAdd? && ns[k].text == text &&
              exists j :: 0 <= j < |rs| && ns[k].owner == rs[j].owner && !HasAssertion(rows, items, field, rs[j].owner, token)
    ensures forall j :: 0 <= j < |rs| && !HasAssertion(rows, items, field, rs[j].owner, token) ==>
              WouldAdd(text, rs[j].owner) in ns
  {
    if rs == [] then []
    else
      var init := rs[..|rs| - 1];
      var r := rs[|rs| - 1];
      var before := WouldAddNotices(rows, items, field, text, token, init);
      assert forall j :: 0 <= j < |init| ==> init[j] == rs[j];
      before + if HasAssertion(rows, items, field, r.owner, token) then [] else [WouldAdd(text, r.owner)]
  }

  /**
   * A dry run checks every record against the unchanged table, so it prints
   * a "would add" notice for each record whose item lacks the identifier,
   * in order, and nothing else.
   */
  lemma {:induction false} DryRunNotices(st: State, items: set<ObjectId>, field: FieldId, text: string, token: string,
                                         rs: seq<Record>)
    ensures AddToRecords(st, items, field, text, token, rs, true) == Run(st, WouldAddNotices(st.rows, items, field, text, token, rs))
  {
    if rs != [] {
      DryRunNotices(st, items, field, text, token, rs[..|rs| - 1]);
    }
  }

  // ---------------------------------------------------------------------
  // One creator value per item and identifier within a run
  // ---------------------------------------------------------------------

  /**
   * The rows appended since `before` belong to items and hold an identifier,
   * and no item received two of them with the same identifier.
   */
  predicate NewValuesDistinct(before: State, after: State, items: set<ObjectId>) {
    && |before.rows| <= |after.rows|
    && (forall k :: |before.rows| <= k < |after.rows| ==>
          after.rows[k].owner in items && SearchOrcid(after.rows[k].text).Some?)
    && forall j, k :: |before.rows| <= j < k < |after.rows| && after.rows[j].owner == after.rows[k].owner ==>
         SearchOrcid(after.rows[j].text) != SearchOrcid(after.rows[k].text)
  }

  /** The records of one CSV row keep `NewValuesDistinct`: the existence check sees every earlier insert. */
  lemma {:induction false} AddToRecordsKeepsDistinct(st0: State, st: State, items: set<ObjectId>, field: FieldId,
                                                     text: string, token: string, rs: seq<Record>)
    requires Extends(st0, st, field) && NewValuesDistinct(st0, st, items)
    requires SearchOrcid(text) == Some(token)
    requires forall j :: 0 <= j < |rs| ==> rs[j].owner in items
    ensures var after := AddToRecords(st, items, field, text, token, rs, false).state;
            Extends(st0, after, field) && NewValuesDistinct(st0, after, items)
  {
    if rs != [] {
      var init := rs[..|rs| - 1];
      var r := rs[|rs| - 1];
      AddToRecordsKeepsDistinct(st0, st, items, field, text, token, init);
      var mid := AddToRecords(st, items, field, text, token, init, false).state;
      var after := AddToRecord(mid, items, field, text, token, r, false).state;
      if !HasAssertion(mid.rows, items, field, r.owner, token) {
        var v := NewValue(mid.lastId + 1, r, field, text);
        assert after.rows == mid.rows + [v];
        assert Extends(mid, after, field);
        ExtendsTransitive(st0, mid, after, field);
        forall j | |st0.rows| <= j < |mid.rows| && mid.rows[j].owner == v.owner
          ensures SearchOrcid(mid.rows[j].text) != SearchOrcid(v.text)
        {
          assert !Asserts(items, field, r.owner, token, mid.rows[j]);
        }
        forall j, k | |st0.rows| <= j < k < |after.rows| && after.rows[j].owner == after.rows[k].owner
          ensures SearchOrcid(after.rows[j].text) != SearchOrcid(after.rows[k].text)
        {
          assert after.rows[j] == mid.rows[j];
          if k < |mid.rows| {
            assert after.rows[k] == mid.rows[k];
          }
        }
      }
    }
  }

  /** The CSV rows of one run keep `NewValuesDistinct`. */
  lemma {:induction false} AddEntriesKeepsDistinct(st0: State, st: State, items: set<ObjectId>, field: FieldId, es: seq<Entry>)
    requires Extends(st0, st, field) && NewValuesDistinct(st0, st, items)
    ensures var after := AddEntries(st, items, field, es, false).state;
            Extends(st0, after, field) && NewValuesDistinct(st0, after, items)
  {
    if es != [] {
      var e := es[|es| - 1];
      AddEntriesKeepsDistinct(st0, st, items, field, es[..|es| - 1]);
      var mid := AddEntries(st, items, field, es[..|es| - 1], false).state;
      var text := Strip(e.creator);
      if SearchOrcid(text).Some? {
        var rs := Records(Selected(mid.rows, items, AuthorField, e.author));
        AddToRecordsKeepsDistinct(st0, mid, items, field, text, SearchOrcid(text).value, rs);
      }
    }
  }

  /**
   * Within one committed run, no item receives two creator values with the
   * same identifier, even from different CSV rows (two spellings of one
   * author on the same item, say).
   */
  lemma CommitAddsOnePerItemAndIdentifier(st: State, items: set<ObjectId>, field: FieldId, es: seq<Entry>)
    ensures var after := AddEntries(st, items, field, es, false).state;
            forall j, k :: |st.rows| <= j < k < |after.rows| && after.rows[j].owner == after.rows[k].owner ==>
              SearchOrcid(after.rows[j].text) != SearchOrcid(after.rows[k].text)
  {
    assert st.rows[..|st.rows|] == st.rows;
    AddEntriesKeepsDistinct(st, st, items, field, es);
  }

  // ---------------------------------------------------------------------
  // The script
  // ---------------------------------------------------------------------

  /** One record: the existence check, then the notice and, on commit, `nextval` and the INSERT. */
  method ProcessRecord(store: MetadataStore, field: FieldId, text: string, token: string, r: Record, dryRun: bool)
    returns (notices: seq<Notice>)
    modifies store`rows, store`lastId
    ensures Run(State(store.rows, store.lastId), notices)
            == AddToRecord(State(old(store.rows), old(store.lastId)), store.items, field, text, token, r, dryRun)
  {
    notices := [];
    if !HasAssertion(store.rows, store.items, field, r.owner, token) {
      if dryRun {
        notices := [WouldAdd(text, r.owner)];
      } else {
        notices := [Adding(text, r.owner)];
        var id := store.NextVal();
        store.Insert(NewValue(id, r, field, text));
      }
    }
  }

  /** The records of one author query, in order. */
  method ProcessRecords(store: MetadataStore, field: FieldId, text: string, token: string, records: seq<Record>,
                        dryRun: bool)
    returns (notices: seq<Notice>)
    modifies store`rows, store`lastId
    ensures Run(State(store.rows, store.lastId), notices)
            == AddToRecords(State(old(store.rows), old(store.lastId)), store.items, field, text, token, records, dryRun)
  {
    notices := [];
    var j := 0;
    while j < |records|
      invariant 0 <= j <= |records|
      invariant Run(State(store.rows, store.lastId), notices)
                == AddToRecords(State(old(store.rows), old(store.lastId)), store.items, field, text, token, records[..j], dryRun)
    {
      assert records[..j + 1] == records[..j] + [records[j]];
      AddToRecordsSnoc(State(old(store.rows), old(store.lastId)), store.items, field, text, token, records[..j], records[j], dryRun);
      var printed := ProcessRecord(store, field, text, token, records[j], dryRun);
      notices := notices + printed;
      j := j + 1;
    }
    assert records[..j] == records;
  }

  /** One CSV row in its own transaction. */
  method ProcessEntry(store: MetadataStore, field: FieldId, e: Entry, dryRun: bool) returns (notices: seq<Notice>)
    modifies store`rows, store`lastId
    ensures Run(State(store.rows, store.lastId), notices)
            == AddEntry(State(old(store.rows), old(store.lastId)), store.items, field, e, dryRun)
  {
    var selected := store.SelectRows(AuthorField, e.author);
    var text := Strip(e.creator);
    var found := SearchOrcid(text);
    if found.None? {
      return [];
    }
    notices := ProcessRecords(store, field, text, found.value, Records(selected), dryRun);
  }

  /** The CSV rows in order, each in its own transaction. */
  method ProcessEntries(store: MetadataStore, field: FieldId, es: seq<Entry>, dryRun: bool)
    returns (notices: seq<Notice>)
    modifies store`rows, store`lastId
    ensures Run(State(store.rows, store.lastId), notices)
            == AddEntries(State(old(store.rows), old(store.lastId)), store.items, field, es, dryRun)
  {
    notices := [];
    var i := 0;
    while i < |es|
      invariant 0 <= i <= |es|
      invariant Run(State(store.rows, store.lastId), notices)
                == AddEntries(State(old(store.rows), old(store.lastId)), store.items, field, es[..i], dryRun)
    {
      AddEntriesPrefix(State(old(store.rows), old(store.lastId)), store.items, field, es, i, dryRun);
      var printed := ProcessEntry(store, field, es[i], dryRun);
      notices := notices + printed;
      i := i + 1;
    }
    assert es[..i] == es;
  }

  /** The script: the columns are looked up on the first CSV row, then every row is processed. */
  method AddOrcidIdentifiers(store: MetadataStore, csv: CsvTable, authorColumn: string, orcidColumn: string,
                             field: FieldId, dryRun: bool)
    returns (result: Result<seq<Notice>, Error>)
    requires WellFormed(csv)
    modifies store`rows, store`lastId
    ensures var spec := AddFromCsv(State(old(store.rows), old(store.lastId)), store.items, field, csv, authorColumn, orcidColumn, dryRun);
            && (spec.Failure? ==> result == Failure(spec.error) && store.rows == old(store.rows) && store.lastId == old(store.lastId))
            && (spec.Success? ==> result == Success(spec.value.notices) && State(store.rows, store.lastId) == spec.value.state)
  {
    if |csv.rows| == 0 {
      return Success([]);
    }
    if authorColumn !in csv.fieldnames {
      return Failure(MissingColumn(authorColumn));
    }
    if orcidColumn !in csv.fieldnames {
      return Failure(MissingColumn(orcidColumn));
    }
    var notices := ProcessEntries(store, field, Entries(csv, authorColumn, orcidColumn), dryRun);
    return Success(notices);
  }
}
