/**
 * The `metadatavalue` table and the `item` table it is filtered by, with the
 * SQL statements the correction scripts issue against them.
 *
 * Every DELETE, UPDATE and dry-run SELECT of the value scripts uses the same
 * WHERE clause, `dspace_object_id IN (SELECT uuid FROM item) AND
 * metadata_field_id=%s AND text_value=%s`, which is `Selects` below.
 */
module Store {

  /** A `dspace_object_id` (a UUID in the store). */
  type ObjectId = int

  /** A `metadata_field_id` of the metadata field registry. */
  type FieldId = int

  /** One row of `metadatavalue`. */
  datatype MetadataValue = MetadataValue(
    id: int,          // metadata_value_id
    owner: ObjectId,  // dspace_object_id
    field: FieldId,   // metadata_field_id
    text: string,     // text_value
    place: int,       // position among the owner's values of the same field
    confidence: int)

  /** The scripts' common WHERE clause: an item's value in `field` whose text is exactly `text`. */
  predicate Selects(items: set<ObjectId>, field: FieldId, text: string, v: MetadataValue) {
    v.owner in items && v.field == field && v.text == text
  }

  /** The rows the WHERE clause selects, in table order. */
  function Selected(rows: seq<MetadataValue>, items: set<ObjectId>, field: FieldId, text: string): (r: seq<MetadataValue>)
    ensures |r| <= |rows|
    ensures forall k :: 0 <= k < |r| ==> r[k] in rows && Selects(items, field, text, r[k])
    ensures forall k :: 0 <= k < |rows| && Selects(items, field, text, rows[k]) ==> rows[k] in r
  {
    if rows == [] then []
    else
      var last := rows[|rows| - 1];
      Selected(rows[..|rows| - 1], items, field, text) + (if Selects(items, field, text, last) then [last] else [])
  }

  /** An item's value in `field` whose text is one of `texts`. */
  predicate SelectsAny(items: set<ObjectId>, field: FieldId, texts: set<string>, v: MetadataValue) {
    v.owner in items && v.field == field && v.text in texts
  }

  /** The table after `DELETE ... WHERE` for each text of `texts`: the other rows, in table order. */
  function Unselected(rows: seq<MetadataValue>, items: set<ObjectId>, field: FieldId, texts: set<string>): (r: seq<MetadataValue>)
    ensures |r| <= |rows|
    ensures forall k :: 0 <= k < |r| ==> r[k] in rows && !SelectsAny(items, field, texts, r[k])
    ensures forall k :: 0 <= k < |rows| && !SelectsAny(items, field, texts, rows[k]) ==> rows[k] in r
  {
    if rows == [] then []
    else
      var last := rows[|rows| - 1];
      Unselected(rows[..|rows| - 1], items, field, texts) + (if SelectsAny(items, field, texts, last) then [] else [last])
  }

  /** The table after `UPDATE metadatavalue SET text_value=to WHERE ...text_value=from`. */
  function Retexted(rows: seq<MetadataValue>, items: set<ObjectId>, field: FieldId, from: string, to: string): (r: seq<MetadataValue>)
    ensures |r| == |rows|
    ensures forall k :: 0 <= k < |rows| ==>
              r[k] == if Selects(items, field, from, rows[k]) then rows[k].(text := to) else rows[k]
  {
    seq(|rows|, k requires 0 <= k < |rows| =>
      if Selects(items, field, from, rows[k]) then rows[k].(text := to) else rows[k])
  }

  /** The table after `UPDATE metadatavalue SET metadata_field_id=to WHERE ...metadata_field_id=from AND text_value=text`. */
  function Refielded(rows: seq<MetadataValue>, items: set<ObjectId>, from: FieldId, text: string, to: FieldId): (r: seq<MetadataValue>)
    ensures |r| == |rows|
    ensures forall k :: 0 <= k < |rows| ==>
              r[k] == if Selects(items, from, text, rows[k]) then rows[k].(field := to) else rows[k]
  {
    seq(|rows|, k requires 0 <= k < |rows| =>
      if Selects(items, from, text, rows[k]) then rows[k].(field := to) else rows[k])
  }

  /** A DELETE removes exactly as many rows as the dry-run SELECT with the same WHERE clause returns. */
  lemma {:induction false} UnselectedRemovesSelected(rows: seq<MetadataValue>, items: set<ObjectId>, field: FieldId, text: string)
    ensures |Unselected(rows, items, field, {text})| == |rows| - |Selected(rows, items, field, text)|
  {
    if rows != [] {
      UnselectedRemovesSelected(rows[..|rows| - 1], items, field, text);
    }
  }

  /**
   * The `SELECT` and the `DELETE` for one text split the table: every row,
   * with its multiplicity, is either selected or kept.
   */
  lemma {:induction false} SelectedUnselectedPartition(rows: seq<MetadataValue>, items: set<ObjectId>, field: FieldId, text: string)
    ensures multiset(Selected(rows, items, field, text)) + multiset(Unselected(rows, items, field, {text})) == multiset(rows)
  {
    if rows != [] {
      var init := rows[..|rows| - 1];
      var last := rows[|rows| - 1];
      SelectedUnselectedPartition(init, items, field, text);
      PartitionStep(init, last, items, field, text);
      assert rows == init + [last];
    }
  }

  lemma PartitionStep(init: seq<MetadataValue>, last: MetadataValue, items: set<ObjectId>, field: FieldId, text: string)
    requires multiset(Selected(init, items, field, text)) + multiset(Unselected(init, items, field, {text})) == multiset(init)
    ensures multiset(Selected(init + [last], items, field, text)) + multiset(Unselected(init + [last], items, field, {text}))
            == multiset(init + [last])
  {
    SelectedSnoc(init, last, items, field, text);
    UnselectedSnoc(init, last, items, field, {text});
    PartitionSnoc(init, last, Selected(init, items, field, text), Unselected(init, items, field, {text}),
                  Selected(init + [last], items, field, text), Unselected(init + [last], items, field, {text}));
  }

  lemma PartitionSnoc(init: seq<MetadataValue>, last: MetadataValue, a: seq<MetadataValue>, b: seq<MetadataValue>,
                      a': seq<MetadataValue>, b': seq<MetadataValue>)
    requires multiset(a) + multiset(b) == multiset(init)
    requires (a' == a + [last] && b' == b) || (a' == a && b' == b + [last])
    ensures multiset(a') + multiset(b') == multiset(init + [last])
  {
  }

  lemma SelectedSnoc(rows: seq<MetadataValue>, v: MetadataValue, items: set<ObjectId>, field: FieldId, text: string)
    ensures Selected(rows + [v], items, field, text)
            == Selected(rows, items, field, text) + (if Selects(items, field, text, v) then [v] else [])
  {
    assert (rows + [v])[..|rows|] == rows;
  }

  lemma UnselectedSnoc(rows: seq<MetadataValue>, v: MetadataValue, items: set<ObjectId>, field: FieldId, texts: set<string>)
    ensures Unselected(rows + [v], items, field, texts)
            == Unselected(rows, items, field, texts) + (if SelectsAny(items, field, texts, v) then [] else [v])
  {
    assert (rows + [v])[..|rows|] == rows;
  }

  /** Deleting one set of texts after another is deleting both sets at once. */
  lemma {:induction false} UnselectedTwice(rows: seq<MetadataValue>, items: set<ObjectId>, field: FieldId, a: set<string>, b: set<string>)
    ensures Unselected(Unselected(rows, items, field, a), items, field, b) == Unselected(rows, items, field, a + b)
  {
    if rows != [] {
      var p := rows[..|rows| - 1];
      var last := rows[|rows| - 1];
      var ua := Unselected(p, items, field, a);
      UnselectedTwice(p, items, field, a, b);
      assert SelectsAny(items, field, a + b, last) <==> SelectsAny(items, field, a, last) || SelectsAny(items, field, b, last);
      if SelectsAny(items, field, a, last) {
        assert Unselected(rows, items, field, a) == ua;
        assert Unselected(rows, items, field, a + b) == Unselected(p, items, field, a + b);
      } else {
        assert Unselected(rows, items, field, a) == ua + [last];
        UnselectedSnoc(ua, last, items, field, b);
      }
    }
  }

  /** After deleting a text, the WHERE clause for that text selects nothing. */
  lemma {:induction false} SelectedAfterUnselected(rows: seq<MetadataValue>, items: set<ObjectId>, field: FieldId, texts: set<string>, text: string)
    requires text in texts
    ensures Selected(Unselected(rows, items, field, texts), items, field, text) == []
  {
    if rows != [] {
      var p := rows[..|rows| - 1];
      var last := rows[|rows| - 1];
      var u := Unselected(p, items, field, texts);
      SelectedAfterUnselected(p, items, field, texts, text);
      if !SelectsAny(items, field, texts, last) {
        assert Unselected(rows, items, field, texts) == u + [last];
        assert !Selects(items, field, text, last);
        SelectedSnoc(u, last, items, field, text);
      } else {
        assert Unselected(rows, items, field, texts) == u;
      }
    }
  }

  /** Deleting what is not there changes nothing. */
  lemma {:induction false} UnselectedOfAbsent(rows: seq<MetadataValue>, items: set<ObjectId>, field: FieldId, text: string)
    requires Selected(rows, items, field, text) == []
    ensures Unselected(rows, items, field, {text}) == rows
  {
    if rows != [] {
      var p := rows[..|rows| - 1];
      UnselectedOfAbsent(p, items, field, text);
      assert p + [rows[|rows| - 1]] == rows;
    }
  }

  lemma RetextedPrefix(rows: seq<MetadataValue>, items: set<ObjectId>, field: FieldId, from: string, to: string)
    requires rows != []
    ensures Retexted(rows, items, field, from, to)[..|rows| - 1] == Retexted(rows[..|rows| - 1], items, field, from, to)
  {
  }

  lemma RefieldedPrefix(rows: seq<MetadataValue>, items: set<ObjectId>, from: FieldId, text: string, to: FieldId)
    requires rows != []
    ensures Refielded(rows, items, from, text, to)[..|rows| - 1] == Refielded(rows[..|rows| - 1], items, from, text, to)
  {
  }

  /**
   * A text UPDATE with different values: nothing selects the old text
   * afterwards, and the new text gains exactly the rows that had the old one.
   */
  lemma {:induction false} RetextedCounts(rows: seq<MetadataValue>, items: set<ObjectId>, field: FieldId, from: string, to: string)
    requires from != to
    ensures Selected(Retexted(rows, items, field, from, to), items, field, from) == []
    ensures |Selected(Retexted(rows, items, field, from, to), items, field, to)|
            == |Selected(rows, items, field, to)| + |Selected(rows, items, field, from)|
  {
    if rows != [] {
      RetextedPrefix(rows, items, field, from, to);
      RetextedCounts(rows[..|rows| - 1], items, field, from, to);
    }
  }

  /**
   * A field UPDATE between different fields: nothing selects `(from, text)`
   * afterwards, and `(to, text)` gains exactly the rows that were moved.
   */
  lemma {:induction false} RefieldedCounts(rows: seq<MetadataValue>, items: set<ObjectId>, from: FieldId, text: string, to: FieldId)
    requires from != to
    ensures Selected(Refielded(rows, items, from, text, to), items, from, text) == []
    ensures |Selected(Refielded(rows, items, from, text, to), items, to, text)|
            == |Selected(rows, items, to, text)| + |Selected(rows, items, from, text)|
  {
    if rows != [] {
      RefieldedPrefix(rows, items, from, text, to);
      RefieldedCounts(rows[..|rows| - 1], items, from, text, to);
    }
  }

  /** Rows added behind the table that the WHERE clause does not select leave its result alone. */
  lemma {:induction false} SelectedOfAppend(rows: seq<MetadataValue>, extra: seq<MetadataValue>, items: set<ObjectId>, field: FieldId, text: string)
    requires forall k :: 0 <= k < |extra| ==> !Selects(items, field, text, extra[k])
    ensures Selected(rows + extra, items, field, text) == Selected(rows, items, field, text)
    decreases |extra|
  {
    if extra == [] {
      assert rows + extra == rows;
    } else {
      var e := extra[..|extra| - 1];
      assert (rows + extra)[..|rows + extra| - 1] == rows + e;
      SelectedOfAppend(rows, e, items, field, text);
    }
  }

  /** An UPDATE of text whose WHERE clause matches nothing changes nothing. */
  lemma RetextedOfAbsent(rows: seq<MetadataValue>, items: set<ObjectId>, field: FieldId, from: string, to: string)
    requires Selected(rows, items, field, from) == []
    ensures Retexted(rows, items, field, from, to) == rows
  {
  }

  /** An UPDATE of the field whose WHERE clause matches nothing changes nothing. */
  lemma RefieldedOfAbsent(rows: seq<MetadataValue>, items: set<ObjectId>, from: FieldId, text: string, to: FieldId)
    requires Selected(rows, items, from, text) == []
    ensures Refielded(rows, items, from, text, to) == rows
  {
  }

  /** Moving values to the field they are already in changes nothing. */
  lemma RefieldedToSameField(rows: seq<MetadataValue>, items: set<ObjectId>, field: FieldId, text: string)
    ensures Refielded(rows, items, field, text, field) == rows
  {
  }

  /**
   * The store the scripts connect to. `lastId` is the last value drawn from
   * `metadatavalue_seq`; `nextval` draws the one after it.
   */
  class MetadataStore {
    var rows: seq<MetadataValue>
    var items: set<ObjectId>
    var lastId: int

    constructor (rows0: seq<MetadataValue>, items0: set<ObjectId>, lastId0: int)
      ensures rows == rows0 && items == items0 && lastId == lastId0
    {
      rows, items, lastId := rows0, items0, lastId0;
    }

    /** The dry-run `SELECT text_value FROM metadatavalue WHERE ...`: its rows, in table order. */
    method SelectRows(field: FieldId, text: string) returns (result: seq<MetadataValue>)
      ensures result == Selected(rows, items, field, text)
    {
      result := Selected(rows, items, field, text);
    }

    /** `DELETE from metadatavalue WHERE ...`, returning the cursor's rowcount. */
    method DeleteRows(field: FieldId, text: string) returns (rowcount: nat)
      modifies this`rows
      ensures rows == Unselected(old(rows), items, field, {text})
      ensures rowcount == |Selected(old(rows), items, field, text)|
    {
      rowcount := |Selected(rows, items, field, text)|;
      rows := Unselected(rows, items, field, {text});
    }

    /** `UPDATE metadatavalue SET text_value=%s WHERE ...`, returning the cursor's rowcount. */
    method UpdateText(field: FieldId, from: string, to: string) returns (rowcount: nat)
      modifies this`rows
      ensures rows == Retexted(old(rows), items, field, from, to)
      ensures rowcount == |Selected(old(rows), items, field, from)|
    {
      rowcount := |Selected(rows, items, field, from)|;
      rows := Retexted(rows, items, field, from, to);
    }

    /** `UPDATE metadatavalue SET metadata_field_id=%s WHERE ...`, returning the cursor's rowcount. */
    method UpdateField(from: FieldId, text: string, to: FieldId) returns (rowcount: nat)
      modifies this`rows
      ensures rows == Refielded(old(rows), items, from, text, to)
      ensures rowcount == |Selected(old(rows), items, from, text)|
    {
      rowcount := |Selected(rows, items, from, text)|;
      rows := Refielded(rows, items, from, text, to);
    }

    /** `SELECT nextval('metadatavalue_seq')`. */
    method NextVal() returns (id: int)
      modifies this`lastId
      ensures id == old(lastId) + 1 && lastId == id
    {
      lastId := lastId + 1;
      id := lastId;
    }

    /** `INSERT INTO metadatavalue ...`: the new row goes behind the existing ones. */
    method Insert(v: MetadataValue)
      modifies this`rows
      ensures rows == old(rows) + [v]
    {
      rows := rows + [v];
    }
  }
}
