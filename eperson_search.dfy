/**
 * `EPersonSearchUtil`: the SQL text and the parameter array that `findSet`
 * and `search` hand to the database layer for a paginated e-person query.
 *
 * `DatabaseManager.isOracle()` is the parameter `oracle`; the subset
 * `HashSet<Integer>` is its iteration order, a sequence (`None` for `null`).
 * Running the query, the e-person cache and the count query are not part of
 * this model.
 */
module EPersonSearch {
  import opened Wrappers
  import opened Text
  import opened Lists
  import opened Decimal

  /** A value bound to a `?` placeholder. */
  datatype Param = IntParam(i: int) | TextParam(s: string)

  /** What a call produces: the empty result at once, or a query with its parameters. */
  datatype Plan = EmptyResult | Query(sql: string, params: seq<Param>)

  // Sort codes of `EPerson`.
  const SortEmail: int := 1
  const SortLastName: int := 2
  const SortId: int := 3
  const SortNetId: int := 4
  const SortLanguage: int := 5

  // ---------------------------------------------------------------------
  // Fragments of the query text
  // ---------------------------------------------------------------------

  const Placeholder: string := "?"

  const SelectAll: string := "SELECT * FROM " + "eperson_metadata  "
  const InOpen: string := "WHERE eperson_id in ("
  const ListClose: string := ") "
  const SearchHead: string := "SELECT * FROM eperson_metadata " + "WHERE eperson_id = " + Placeholder + " OR "
  const FirstNameLike: string := "LOWER(firstname) LIKE LOWER(" + Placeholder + ")"
  const LastNameLike: string := " OR LOWER(lastname) LIKE LOWER(" + Placeholder + ")"
  const EmailLike: string := " OR LOWER(email) LIKE LOWER(" + Placeholder + ")"
  const NameMatch: string := FirstNameLike + LastNameLike + EmailLike
  const SubsetOpen: string := ") AND eperson_id in ("
  const RowNumWrap: string := "SELECT /*+ FIRST_ROWS(n) */ " + "rec.*, ROWNUM rnum  FROM ("
  const RowNumBound: string := "rec WHERE rownum<=" + Placeholder + " "
  const OffsetWrap: string := "SELECT * FROM ("
  const OffsetBound: string := ") WHERE rnum>" + Placeholder
  const LimitClause: string := " LIMIT " + Placeholder + " "
  const OffsetClause: string := " OFFSET " + Placeholder + " "

  /** The number of placeholders in a query text. */
  function Placeholders(s: string): nat {
    Occurrences(s, '?')
  }

  lemma PlaceholdersAppend(a: string, b: string)
    ensures Placeholders(a + b) == Placeholders(a) + Placeholders(b)
  {
    OccurrencesAppend(a, b, '?');
  }

  /** The `findSet` head holds no placeholder. */
  lemma SelectAllPlaceholders()
    ensures Placeholders(SelectAll) == 0
  {
    PlaceholdersAppend("SELECT * FROM ", "eperson_metadata  ");
  }

  /** The list delimiters hold no placeholder. */
  lemma ListFragmentPlaceholders()
    ensures Placeholders(InOpen) == 0 && Placeholders(ListClose) == 0
    ensures Placeholders(SubsetOpen) == 0 && Placeholders("(") == 0
  {
  }

  /** The `search` head holds the identifier's placeholder. */
  lemma SearchHeadPlaceholders()
    ensures Placeholders(SearchHead) == 1
  {
    PlaceholdersAppend("SELECT * FROM eperson_metadata ", "WHERE eperson_id = ");
    PlaceholdersAppend("SELECT * FROM eperson_metadata " + "WHERE eperson_id = ", Placeholder);
    PlaceholdersAppend("SELECT * FROM eperson_metadata " + "WHERE eperson_id = " + Placeholder, " OR ");
  }

  /** A `LOWER(column) LIKE LOWER(?)` comparison holds one placeholder. */
  lemma LikePlaceholders(left: string)
    requires Placeholders(left) == 0
    ensures Placeholders(left + Placeholder + ")") == 1
  {
    PlaceholdersAppend(left, Placeholder);
    PlaceholdersAppend(left + Placeholder, ")");
  }

  lemma FirstNameLikePlaceholders()
    ensures Placeholders(FirstNameLike) == 1
  {
    LikePlaceholders("LOWER(firstname) LIKE LOWER(");
  }

  lemma LastNameLikePlaceholders()
    ensures Placeholders(LastNameLike) == 1
  {
    LikePlaceholders(" OR LOWER(lastname) LIKE LOWER(");
  }

  lemma EmailLikePlaceholders()
    ensures Placeholders(EmailLike) == 1
  {
    LikePlaceholders(" OR LOWER(email) LIKE LOWER(");
  }

  /** The name match holds three placeholders, one per compared column. */
  lemma NameMatchPlaceholders()
    ensures Placeholders(NameMatch) == 3
  {
    FirstNameLikePlaceholders();
    LastNameLikePlaceholders();
    EmailLikePlaceholders();
    PlaceholdersAppend(FirstNameLike, LastNameLike);
    PlaceholdersAppend(FirstNameLike + LastNameLike, EmailLike);
  }

  /** The row-number wrapper holds no placeholder, the row-number bound one. */
  lemma RowNumPlaceholders()
    ensures Placeholders(RowNumWrap) == 0 && Placeholders(RowNumBound) == 1
  {
    PlaceholdersAppend("SELECT /*+ FIRST_ROWS(n) */ ", "rec.*, ROWNUM rnum  FROM (");
    PlaceholdersAppend("rec WHERE rownum<=", Placeholder);
    PlaceholdersAppend("rec WHERE rownum<=" + Placeholder, " ");
  }

  /** The offset wrapper holds no placeholder, the offset bound one. */
  lemma OffsetWrapPlaceholders()
    ensures Placeholders(OffsetWrap) == 0 && Placeholders(OffsetBound) == 1
  {
    PlaceholdersAppend(") WHERE rnum>", Placeholder);
  }

  /** `LIMIT ?` and `OFFSET ?` hold one placeholder each. */
  lemma ClausePlaceholders()
    ensures Placeholders(LimitClause) == 1 && Placeholders(OffsetClause) == 1
  {
    PlaceholdersAppend(" LIMIT ", Placeholder);
    PlaceholdersAppend(" LIMIT " + Placeholder, " ");
    PlaceholdersAppend(" OFFSET ", Placeholder);
    PlaceholdersAppend(" OFFSET " + Placeholder, " ");
  }

  // ---------------------------------------------------------------------
  // The sort column
  // ---------------------------------------------------------------------

  /** The `switch (sort)`: four codes have their own column, every other code sorts by last name. */
  function SortColumn(sort: int): string {
    if sort == SortId then "eperson_id"
    else if sort == SortEmail then "email"
    else if sort == SortLanguage then "language"
    else if sort == SortNetId then "netid"
    else "lastname"
  }

  /**
   * The five sort codes select five different columns, and any code that is
   * not one of them sorts like `LASTNAME`.
   */
  lemma SortColumnMapping(sort: int)
    ensures SortColumn(SortId) == "eperson_id" && SortColumn(SortEmail) == "email"
    ensures SortColumn(SortLanguage) == "language" && SortColumn(SortNetId) == "netid"
    ensures SortColumn(SortLastName) == "lastname"
    ensures sort !in {SortId, SortEmail, SortLanguage, SortNetId} ==> SortColumn(sort) == SortColumn(SortLastName)
    ensures Placeholders(SortColumn(sort)) == 0
  {
  }

  function OrderBy(sort: int, direction: string): string {
    " ORDER BY " + SortColumn(sort) + " " + direction + " "
  }

  /** The ORDER BY clause adds no placeholder of its own. */
  lemma OrderByPlaceholders(sort: int, direction: string)
    ensures Placeholders(OrderBy(sort, direction)) == Placeholders(direction)
  {
    SortColumnMapping(sort);
    PlaceholdersAppend(" ORDER BY ", SortColumn(sort));
    PlaceholdersAppend(" ORDER BY " + SortColumn(sort), " ");
    PlaceholdersAppend(" ORDER BY " + SortColumn(sort) + " ", direction);
    PlaceholdersAppend(" ORDER BY " + SortColumn(sort) + " " + direction, " ");
  }

  // ---------------------------------------------------------------------
  // The IN list
  // ---------------------------------------------------------------------

  /** The subset's identifiers in decimal, separated by commas, in iteration order. */
  function InList(ids: seq<int>): string {
    if ids == [] then ""
    else if |ids| == 1 then IntToDecimal(ids[0])
    else InList(ids[..|ids| - 1]) + "," + IntToDecimal(ids[|ids| - 1])
  }

  lemma InListSnoc(ids: seq<int>, id: int)
    ensures InList(ids + [id]) == if ids == [] then IntToDecimal(id) else InList(ids) + "," + IntToDecimal(id)
  {
    assert (ids + [id])[..|ids|] == ids;
  }

  /** Python-style `s.split(sep)`: the pieces between the separators, always at least one. */
  function Split(s: string, sep: char): (parts: seq<string>)
    ensures |parts| >= 1
  {
    if s == [] then [""]
    else
      var init := Split(s[..|s| - 1], sep);
      if s[|s| - 1] == sep then init + [""]
      else init[..|init| - 1] + [init[|init| - 1] + [s[|s| - 1]]]
  }

  /** A string without the separator is one piece. */
  lemma {:induction false} SplitOfPlain(s: string, sep: char)
    requires sep !in s
    ensures Split(s, sep) == [s]
  {
    if s != [] {
      SplitOfPlain(s[..|s| - 1], sep);
      assert s[..|s| - 1] + [s[|s| - 1]] == s;
    }
  }

  /** A separator followed by a separator-free tail adds exactly that tail as the last piece. */
  lemma {:induction false} SplitAppend(a: string, sep: char, b: string)
    requires sep !in b
    ensures Split(a + [sep] + b, sep) == Split(a, sep) + [b]
    decreases |b|
  {
    if b == [] {
      assert (a + [sep] + b)[..|a|] == a;
      assert a + [sep] + b == a + [sep];
    } else {
      var b' := b[..|b| - 1];
      SplitAppend(a, sep, b');
      assert (a + [sep] + b)[..|a + [sep] + b| - 1] == a + [sep] + b';
      assert b' + [b[|b| - 1]] == b;
    }
  }

  /** A decimal holds no comma and no placeholder. */
  lemma DecimalIsPlain(n: int)
    ensures ',' !in IntToDecimal(n) && '?' !in IntToDecimal(n)
  {
    var d := IntToDecimal(n);
    forall k | 0 <= k < |d|
      ensures d[k] != ',' && d[k] != '?'
    {
      if k > 0 {
        assert IsDigit(d[k]);
      }
    }
  }

  /**
   * Splitting the IN list at its commas gives back each identifier's
   * decimal, in order: nothing is lost and there is no trailing comma.
   */
  lemma {:induction false} InListSplits(ids: seq<int>)
    requires ids != []
    ensures Split(InList(ids), ',') == MapSeq(IntToDecimal, ids)
  {
    if |ids| == 1 {
      DecimalIsPlain(ids[0]);
      SplitOfPlain(IntToDecimal(ids[0]), ',');
    } else {
      InListSplits(ids[..|ids| - 1]);
      InListSplitsLast(ids);
    }
  }

  /** The last identifier of a longer list adds its decimal as the last piece. */
  lemma InListSplitsLast(ids: seq<int>)
    requires |ids| > 1
    requires Split(InList(ids[..|ids| - 1]), ',') == MapSeq(IntToDecimal, ids[..|ids| - 1])
    ensures Split(InList(ids), ',') == MapSeq(IntToDecimal, ids)
  {
    var last := IntToDecimal(ids[|ids| - 1]);
    DecimalIsPlain(ids[|ids| - 1]);
    assert InList(ids) == InList(ids[..|ids| - 1]) + [','] + last;
    SplitAppend(InList(ids[..|ids| - 1]), ',', last);
  }

  /** Reading the IN list back with `Integer.valueOf` yields the subset, for 32-bit identifiers. */
  lemma InListRoundTrip(ids: seq<int>)
    requires ids != []
    requires forall k :: 0 <= k < |ids| ==> IsInt32(ids[k])
    ensures |Split(InList(ids), ',')| == |ids|
    ensures forall k :: 0 <= k < |ids| ==> ParseInt(Split(InList(ids), ',')[k]) == Some(ids[k])
  {
    InListSplits(ids);
    forall k | 0 <= k < |ids|
      ensures ParseInt(Split(InList(ids), ',')[k]) == Some(ids[k])
    {
      ParseIntOfDecimal(ids[k]);
    }
  }

  /** The IN list adds no placeholder. */
  lemma {:induction false} InListPlaceholders(ids: seq<int>)
    ensures Placeholders(InList(ids)) == 0
  {
    if ids != [] {
      var last := ids[|ids| - 1];
      DecimalIsPlain(last);
      if |ids| > 1 {
        InListPlaceholders(ids[..|ids| - 1]);
        PlaceholdersAppend(InList(ids[..|ids| - 1]), ",");
        PlaceholdersAppend(InList(ids[..|ids| - 1]) + ",", IntToDecimal(last));
      }
    }
  }

  /** One more identifier after the comma that preceded it. */
  lemma InListStep(buf: string, ids: seq<int>, i: nat)
    requires i < |ids|
    ensures buf + InList(ids[..i]) + (if 0 < i then "," else "") + IntToDecimal(ids[i]) == buf + InList(ids[..i + 1])
  {
    assert ids[..i + 1] == ids[..i] + [ids[i]];
    InListSnoc(ids[..i], ids[i]);
  }

  /** The loop over the subset's iterator: each identifier, followed by a comma when another one follows. */
  method AppendInList(buf: string, ids: seq<int>) returns (out: string)
    ensures out == buf + InList(ids)
  {
    out := buf;
    var i := 0;
    while i < |ids|
      invariant 0 <= i <= |ids|
      invariant out == buf + InList(ids[..i]) + (if 0 < i < |ids| then "," else "")
    {
      InListStep(buf, ids, i);
      out := out + IntToDecimal(ids[i]);
      if i + 1 < |ids| {
        out := out + ",";
      }
      i := i + 1;
    }
    assert ids[..i] == ids;
  }

  // ---------------------------------------------------------------------
  // Pagination
  // ---------------------------------------------------------------------

  /**
   * The limit and offset restrictions around a query body: on Oracle the
   * body is wrapped in row-numbering subqueries, elsewhere `LIMIT ?` and
   * `OFFSET ?` are appended.
   */
  function Paged(body: string, limit: int, offset: int, oracle: bool): string {
    if oracle then
      var numbered := if limit > 0 || offset > 0 then RowNumWrap + body + ") " else body;
      var bounded := if limit > 0 then numbered + RowNumBound else numbered;
      if offset > 0 then OffsetWrap + bounded + OffsetBound else bounded
    else
      body + (if limit > 0 then LimitClause else "") + (if offset > 0 then OffsetClause else "")
  }

  /**
   * The pagination parameters: the limit and then the offset, each only
   * when positive; on Oracle with both, the limit becomes the highest row
   * number, `limit + offset`.
   */
  function PageParams(limit: int, offset: int, oracle: bool): seq<Param> {
    var rowLimit := if oracle && limit > 0 && offset > 0 then limit + offset else limit;
    if limit > 0 && offset > 0 then [IntParam(rowLimit), IntParam(offset)]
    else if limit > 0 then [IntParam(limit)]
    else if offset > 0 then [IntParam(offset)]
    else []
  }

  /** The pagination adds exactly one placeholder per pagination parameter. */
  lemma PagedPlaceholders(body: string, limit: int, offset: int, oracle: bool)
    ensures Placeholders(Paged(body, limit, offset, oracle)) == Placeholders(body) + |PageParams(limit, offset, oracle)|
  {
    if oracle {
      RowNumPlaceholders();
      OffsetWrapPlaceholders();
      var numbered := if limit > 0 || offset > 0 then RowNumWrap + body + ") " else body;
      var bounded := if limit > 0 then numbered + RowNumBound else numbered;
      if limit > 0 || offset > 0 {
        PlaceholdersAppend(RowNumWrap, body);
        PlaceholdersAppend(RowNumWrap + body, ") ");
      }
      if limit > 0 {
        PlaceholdersAppend(numbered, RowNumBound);
      }
      if offset > 0 {
        PlaceholdersAppend(OffsetWrap, bounded);
        PlaceholdersAppend(OffsetWrap + bounded, OffsetBound);
      }
    } else {
      ClausePlaceholders();
      var limited := body + (if limit > 0 then LimitClause else "");
      PlaceholdersAppend(body, if limit > 0 then LimitClause else "");
      PlaceholdersAppend(limited, if offset > 0 then OffsetClause else "");
    }
  }

  /**
   * The parameters are the limit, then the offset, each present exactly
   * when positive; the limit parameter is `limit`, or on Oracle with an
   * offset `limit + offset`.
   */
  lemma PageParamsOrder(limit: int, offset: int, oracle: bool)
    ensures var ps := PageParams(limit, offset, oracle);
            && |ps| == (if limit > 0 then 1 else 0) + (if offset > 0 then 1 else 0)
            && (limit > 0 ==> ps[0] == IntParam(if oracle && offset > 0 then limit + offset else limit))
            && (offset > 0 ==> ps[|ps| - 1] == IntParam(offset))
  {
  }

  /** Where the body starts inside the paginated text. */
  function BodyStart(limit: int, offset: int, oracle: bool): nat {
    if oracle then (if offset > 0 then |OffsetWrap| else 0) + (if limit > 0 || offset > 0 then |RowNumWrap| else 0)
    else 0
  }

  /** The query body stays intact inside the paginated text; off Oracle it is a prefix. */
  lemma PagedKeepsBody(body: string, limit: int, offset: int, oracle: bool)
    ensures OccursAt(Paged(body, limit, offset, oracle), body, BodyStart(limit, offset, oracle))
    ensures !oracle ==> BodyStart(limit, offset, oracle) == 0
  {
    var paged := Paged(body, limit, offset, oracle);
    if oracle {
      var numbered := if limit > 0 || offset > 0 then RowNumWrap + body + ") " else body;
      var bounded := if limit > 0 then numbered + RowNumBound else numbered;
      var i := if limit > 0 || offset > 0 then |RowNumWrap| else 0;
      if limit > 0 || offset > 0 {
        OccursBetween(RowNumWrap, body, ") ");
      } else {
        OccursBetween("", body, "");
        assert "" + body + "" == body;
      }
      assert OccursAt(numbered, body, i);
      if limit > 0 {
        OccursBetween("", numbered, RowNumBound);
        assert "" + numbered + RowNumBound == bounded;
        OccursWithin(bounded, numbered, body, 0, i);
      }
      assert OccursAt(bounded, body, i);
      if offset > 0 {
        OccursBetween(OffsetWrap, bounded, OffsetBound);
        OccursWithin(paged, bounded, body, |OffsetWrap|, i);
      }
    } else {
      var tail := (if limit > 0 then LimitClause else "") + (if offset > 0 then OffsetClause else "");
      OccursBetween("", body, tail);
      assert "" + body + tail == paged;
    }
  }

  /** A text occurs right after whatever is put before it. */
  lemma OccursBetween(pre: string, s: string, post: string)
    ensures OccursAt(pre + s + post, s, |pre|)
  {
    assert (pre + s + post)[|pre|..|pre| + |s|] == s;
  }

  /** Three pieces appended after `a` occur right after it. */
  lemma OccursInMiddle(a: string, b1: string, b2: string, b3: string, c: string)
    ensures OccursAt(a + b1 + b2 + b3 + c, b1 + b2 + b3, |a|)
  {
    assert (a + b1 + b2 + b3 + c)[|a|..|a| + |b1 + b2 + b3|] == b1 + b2 + b3;
  }

  /** An occurrence inside an occurrence. */
  lemma OccursWithin(s: string, mid: string, sub: string, j: int, i: int)
    requires OccursAt(s, mid, j) && OccursAt(mid, sub, i)
    ensures OccursAt(s, sub, j + i)
  {
    forall k | 0 <= k < |sub|
      ensures s[j + i + k] == sub[k]
    {
      assert sub[k] == mid[i + k];
      assert mid[i + k] == s[j + i + k];
    }
    assert s[j + i..j + i + |sub|] == sub;
  }

  /**
   * The Oracle/other branch: wraps or appends, and returns the limit as the
   * local `limit` stands afterwards.
   */
  method Paginate(buf: string, limit: int, offset: int, oracle: bool) returns (out: string, rowLimit: int)
    ensures out == Paged(buf, limit, offset, oracle)
    ensures rowLimit == if oracle && limit > 0 && offset > 0 then limit + offset else limit
  {
    out := buf;
    rowLimit := limit;
    if oracle {
      if limit > 0 || offset > 0 {
        out := RowNumWrap + out;
        out := out + ") ";
      }
      if limit > 0 {
        out := out + RowNumBound;
        if offset > 0 {
          rowLimit := limit + offset;
        }
      }
      if offset > 0 {
        out := OffsetWrap + out;
        out := out + OffsetBound;
      }
    } else {
      if limit > 0 {
        out := out + LimitClause;
      }
      if offset > 0 {
        out := out + OffsetClause;
      }
    }
  }

  /** The parameter array: chosen by the limit and offset the caller passed, carrying the row limit. */
  method ParamArray(limit: int, rowLimit: int, offset: int) returns (ps: seq<Param>)
    ensures limit > 0 && offset > 0 ==> ps == [IntParam(rowLimit), IntParam(offset)]
    ensures limit > 0 && offset <= 0 ==> ps == [IntParam(limit)]
    ensures limit <= 0 ==> ps == if offset > 0 then [IntParam(offset)] else []
  {
    ps := [];
    if limit > 0 && offset > 0 {
      ps := [IntParam(rowLimit), IntParam(offset)];
    } else if limit > 0 {
      ps := [IntParam(limit)];
    } else if offset > 0 {
      ps := [IntParam(offset)];
    }
  }

  // ---------------------------------------------------------------------
  // findSet
  // ---------------------------------------------------------------------

  /** The `findSet` text before the ORDER BY clause: everything, or the subset's identifiers only. */
  function FindSetHead(ids: Option<seq<int>>): string {
    if ids.None? then SelectAll else SelectAll + InOpen + InList(ids.value) + ListClose
  }

  function FindSetPlan(sort: int, direction: string, offset: int, limit: int, subset: Option<seq<int>>, oracle: bool): Plan {
    if subset == Some([]) then EmptyResult
    else Query(Paged(FindSetHead(subset) + OrderBy(sort, direction), limit, offset, oracle), PageParams(limit, offset, oracle))
  }

  method FindSet(sort: int, direction: string, offset: int, limit: int, subset: Option<seq<int>>, oracle: bool)
    returns (plan: Plan)
    ensures plan == FindSetPlan(sort, direction, offset, limit, subset, oracle)
  {
    var buf := SelectAll;
    if subset.Some? {
      if subset.value == [] {
        return EmptyResult;
      }
      buf := buf + InOpen;
      buf := AppendInList(buf, subset.value);
      buf := buf + ListClose;
    }
    buf := buf + OrderBy(sort, direction);
    var sql, rowLimit := Paginate(buf, limit, offset, oracle);
    var ps := ParamArray(limit, rowLimit, offset);
    return Query(sql, ps);
  }

  lemma FindSetHeadPlaceholders(ids: Option<seq<int>>)
    ensures Placeholders(FindSetHead(ids)) == 0
  {
    SelectAllPlaceholders();
    ListFragmentPlaceholders();
    if ids.Some? {
      InListPlaceholders(ids.value);
      PlaceholdersAppend(SelectAll, InOpen);
      PlaceholdersAppend(SelectAll + InOpen, InList(ids.value));
      PlaceholdersAppend(SelectAll + InOpen + InList(ids.value), ListClose);
    }
  }

  /**
   * `findSet` answers a non-null empty subset at once and builds a query in
   * every other case; the query has one placeholder per parameter, provided
   * the sort direction holds none.
   */
  lemma FindSetPlaceholders(sort: int, direction: string, offset: int, limit: int, subset: Option<seq<int>>, oracle: bool)
    requires '?' !in direction
    ensures var plan := FindSetPlan(sort, direction, offset, limit, subset, oracle);
            && (plan.EmptyResult? <==> subset == Some([]))
            && (plan.Query? ==> Placeholders(plan.sql) == |plan.params|)
  {
    if subset != Some([]) {
      FindSetHeadPlaceholders(subset);
      OrderByPlaceholders(sort, direction);
      PlaceholdersAppend(FindSetHead(subset), OrderBy(sort, direction));
      PagedPlaceholders(FindSetHead(subset) + OrderBy(sort, direction), limit, offset, oracle);
    }
  }

  /** With a subset, the query selects exactly the subset's identifiers, listed in iteration order. */
  lemma FindSetSelectsSubset(sort: int, direction: string, offset: int, limit: int, ids: seq<int>, oracle: bool)
    requires ids != []
    ensures var plan := FindSetPlan(sort, direction, offset, limit, Some(ids), oracle);
            && plan.Query?
            && Contains(plan.sql, InOpen + InList(ids) + ListClose)
            && Split(InList(ids), ',') == MapSeq(IntToDecimal, ids)
  {
    var filter := InOpen + InList(ids) + ListClose;
    var body := FindSetHead(Some(ids)) + OrderBy(sort, direction);
    PagedKeepsBody(body, limit, offset, oracle);
    OccursInMiddle(SelectAll, InOpen, InList(ids), ListClose, OrderBy(sort, direction));
    OccursWithin(Paged(body, limit, offset, oracle), body, filter, BodyStart(limit, offset, oracle), |SelectAll|);
    InListSplits(ids);
  }

  // ---------------------------------------------------------------------
  // search
  // ---------------------------------------------------------------------

  /** The LIKE pattern: the query, lower-cased, between two wildcards. */
  function LikePattern(query: string): (p: string)
    ensures |p| == |query| + 2 && p[0] == '%' && p[|p| - 1] == '%' && p[1..|p| - 1] == Lower(query)
  {
    "%" + Lower(query) + "%"
  }

  /** The identifier parameter: the query as a 32-bit integer, or -1 when `Integer.valueOf` rejects it. */
  function IdParam(query: string): (id: int)
    ensures ParseInt(query).Some? ==> id == ParseInt(query).value
    ensures ParseInt(query).None? ==> id == -1
  {
    match ParseInt(query)
    case Some(n) => n
    case None => -1
  }

  /** A query that is an identifier's decimal looks that identifier up; a query that is no number looks up -1. */
  lemma IdParamOfDecimal(n: int, query: string)
    requires IsInt32(n)
    requires !IsDecimalSyntax(query)
    ensures IdParam(IntToDecimal(n)) == n
    ensures IdParam(query) == -1
  {
    ParseIntOfDecimal(n);
  }

  function SearchParams(query: string): seq<Param> {
    var p := LikePattern(query);
    [IntParam(IdParam(query)), TextParam(p), TextParam(p), TextParam(p)]
  }

  /** The `search` text before the ORDER BY clause: the name match, restricted to the subset if there is one. */
  function SearchHeadFor(ids: Option<seq<int>>): string {
    if ids.None? then SearchHead + NameMatch
    else SearchHead + "(" + NameMatch + SubsetOpen + InList(ids.value) + ListClose
  }

  function SearchPlan(query: string, sort: int, direction: string, offset: int, limit: int,
                      subset: Option<seq<int>>, oracle: bool): Plan
  {
    if subset == Some([]) then EmptyResult
    else Query(Paged(SearchHeadFor(subset) + OrderBy(sort, direction), limit, offset, oracle),
               SearchParams(query) + PageParams(limit, offset, oracle))
  }

  method Search(query: string, sort: int, direction: string, offset: int, limit: int,
                subset: Option<seq<int>>, oracle: bool)
    returns (plan: Plan)
    ensures plan == SearchPlan(query, sort, direction, offset, limit, subset, oracle)
  {
    var p := "%" + Lower(query) + "%";
    var buf := SearchHead;
    if subset.None? {
      buf := buf + NameMatch;
    } else if subset.value == [] {
      return EmptyResult;
    } else {
      buf := buf + "(" + NameMatch + SubsetOpen;
      buf := AppendInList(buf, subset.value);
      buf := buf + ListClose;
    }
    buf := buf + OrderBy(sort, direction);
    var sql, rowLimit := Paginate(buf, limit, offset, oracle);
    var id: int;
    var parsed := ParseInt(query);
    if parsed.Some? {
      id := parsed.value;
    } else {
      id := -1;
    }
    var page := ParamArray(limit, rowLimit, offset);
    return Query(sql, [IntParam(id), TextParam(p), TextParam(p), TextParam(p)] + page);
  }

  lemma SearchHeadPlaceholders4(ids: Option<seq<int>>)
    ensures Placeholders(SearchHeadFor(ids)) == 4
  {
    ListFragmentPlaceholders();
    SearchHeadPlaceholders();
    NameMatchPlaceholders();
    if ids.None? {
      PlaceholdersAppend(SearchHead, NameMatch);
    } else {
      InListPlaceholders(ids.value);
      PlaceholdersAppend(SearchHead, "(");
      PlaceholdersAppend(SearchHead + "(", NameMatch);
      PlaceholdersAppend(SearchHead + "(" + NameMatch, SubsetOpen);
      PlaceholdersAppend(SearchHead + "(" + NameMatch + SubsetOpen, InList(ids.value));
      PlaceholdersAppend(SearchHead + "(" + NameMatch + SubsetOpen + InList(ids.value), ListClose);
    }
  }

  /**
   * `search` answers a non-null empty subset at once; otherwise its
   * parameters are the identifier, the LIKE pattern three times and the
   * pagination parameters, and the query has one placeholder per
   * parameter, provided the sort direction holds none.
   */
  lemma SearchPlaceholders(query: string, sort: int, direction: string, offset: int, limit: int,
                           subset: Option<seq<int>>, oracle: bool)
    requires '?' !in direction
    ensures var plan := SearchPlan(query, sort, direction, offset, limit, subset, oracle);
            && (plan.EmptyResult? <==> subset == Some([]))
            && (plan.Query? ==>
                  && Placeholders(plan.sql) == |plan.params|
                  && plan.params[..4] == [IntParam(IdParam(query)), TextParam(LikePattern(query)),
                                          TextParam(LikePattern(query)), TextParam(LikePattern(query))]
                  && plan.params[4..] == PageParams(limit, offset, oracle))
  {
    if subset != Some([]) {
      SearchHeadPlaceholders4(subset);
      OrderByPlaceholders(sort, direction);
      PlaceholdersAppend(SearchHeadFor(subset), OrderBy(sort, direction));
      PagedPlaceholders(SearchHeadFor(subset) + OrderBy(sort, direction), limit, offset, oracle);
      var ps := SearchParams(query) + PageParams(limit, offset, oracle);
      assert ps[..4] == SearchParams(query);
      assert ps[4..] == PageParams(limit, offset, oracle);
    }
  }

  // ---------------------------------------------------------------------
  // The parameter array as written
  // ---------------------------------------------------------------------

  /**
   * The parameter array as written: `limit += offset` wraps around in 32-bit
   * arithmetic, and the array is then chosen by the updated `limit`.
   */
  function AsWrittenPageParams(limit: int, offset: int, oracle: bool): seq<Param> {
    var l := if oracle && limit > 0 && offset > 0 then AddInt32(limit, offset) else limit;
    if l > 0 && offset > 0 then [IntParam(l), IntParam(offset)]
    else if l > 0 then [IntParam(l)]
    else if offset > 0 then [IntParam(offset)]
    else []
  }

  /** Without overflow the code as written builds the intended parameters. */
  lemma AsWrittenAgreesWithoutOverflow(limit: int, offset: int, oracle: bool)
    requires IsInt32(limit) && IsInt32(offset) && IsInt32(limit + offset)
    ensures AsWrittenPageParams(limit, offset, oracle) == PageParams(limit, offset, oracle)
  {
  }

  /**
   * On Oracle with `limit = 2147483647` and `offset = 1`, the query has two
   * pagination placeholders but the array as written holds only the offset.
   */
  lemma OverflowCounterexample(body: string)
    ensures Placeholders(Paged(body, MaxInt32, 1, true)) == Placeholders(body) + 2
    ensures AsWrittenPageParams(MaxInt32, 1, true) == [IntParam(1)]
    ensures |PageParams(MaxInt32, 1, true)| == 2
  {
    PagedPlaceholders(body, MaxInt32, 1, true);
    assert AddInt32(MaxInt32, 1) == MinInt32;
  }
}
