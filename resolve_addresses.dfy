/**
 * `ilri/resolve-addresses.py`: read IP addresses from a text file, look each
 * one up in the IPAPI service and, when an AbuseIPDB key is given, in
 * AbuseIPDB as well, and write one CSV row per address.
 *
 * The address syntax check (`ipaddress.ip_address`) is the parameter
 * `valid`; the two HTTP services are the parameters `ipapi` (the address's
 * JSON record) and `abuse` (key and address to the check endpoint's answer).
 */
module ResolveAddresses {
  import opened Wrappers
  import opened Lists
  import opened Decimal
  import opened Reader

  type Row = map<string, string>

  const StatusOk: int := 200

  const IpColumn: string := "ip"
  const OrgColumn: string := "org"
  const AsnColumn: string := "asn"
  const CountryColumn: string := "country"
  const ScoreColumn: string := "abuseConfidenceScore"

  /** The IPAPI answer: its status and, for 200, the `org`, `asn` and `country` members. */
  datatype IpApiResponse = IpApiResponse(status: int, org: string, asn: string, country: string)

  /** The AbuseIPDB answer: its status and, for 200, `data.abuseConfidenceScore`. */
  datatype AbuseResponse = AbuseResponse(status: int, score: int)

  /** A progress line on standard output. */
  datatype Notice = LookingUp(address: string) | LookingUpAbuse(address: string) | HasScore(address: string, score: int)

  // ---------------------------------------------------------------------
  // read_addresses_from_file
  // ---------------------------------------------------------------------

  /** `read_addresses_from_file`: stripped lines that are valid addresses, each once, in file order. */
  method ReadAddressesFromFile(lines: seq<string>, valid: string -> bool) returns (addresses: seq<string>)
    ensures addresses == KeptLines(lines, valid)
  {
    addresses := ReadKeptLines(lines, valid);
  }

  // ---------------------------------------------------------------------
  // Columns and rows
  // ---------------------------------------------------------------------

  /** Python truthiness of `--abuseipdb-api-key`: absent and empty both mean no key. */
  predicate KeyGiven(key: Option<string>) {
    key.Some? && key.value != ""
  }

  /** The CSV header. */
  function FieldNames(key: Option<string>): seq<string> {
    if KeyGiven(key) then [IpColumn, OrgColumn, AsnColumn, CountryColumn, ScoreColumn]
    else [IpColumn, OrgColumn, AsnColumn, CountryColumn]
  }

  /**
   * The header always starts with the four IPAPI columns, in that order;
   * the score column follows exactly when a key is given; no column is
   * named twice.
   */
  lemma FieldNamesShape(key: Option<string>)
    ensures var names := FieldNames(key);
            && |names| >= 4 && names[..4] == [IpColumn, OrgColumn, AsnColumn, CountryColumn]
            && (ScoreColumn in names <==> KeyGiven(key))
            && (KeyGiven(key) ==> |names| == 5 && names[4] == ScoreColumn)
            && (!KeyGiven(key) ==> |names| == 4)
            && NoDuplicates(names)
  {
  }

  /** The row built from a 200 IPAPI answer, before the score is added. */
  function BaseRow(address: string, r: IpApiResponse): Row {
    map[IpColumn := address, OrgColumn := r.org, AsnColumn := r.asn, CountryColumn := r.country]
  }

  /** What one address adds: its progress lines and, unless the IPAPI request failed, its row. */
  datatype Outcome = Outcome(notices: seq<Notice>, row: Option<Row>)

  /**
   * One address: a non-200 IPAPI answer fails the run; otherwise the row is
   * the address and the three members, and with a key the AbuseIPDB score
   * is added when that second request answers 200.
   */
  function Lookup(ipapi: string -> IpApiResponse, abuse: (string, string) -> AbuseResponse,
                  key: Option<string>, address: string): Outcome
  {
    var r := ipapi(address);
    if r.status != StatusOk then Outcome([LookingUp(address)], None)
    else if !KeyGiven(key) then Outcome([LookingUp(address)], Some(BaseRow(address, r)))
    else
      var a := abuse(key.value, address);
      if a.status == StatusOk then
        Outcome([LookingUp(address), LookingUpAbuse(address), HasScore(address, a.score)],
                Some(BaseRow(address, r)[ScoreColumn := IntToDecimal(a.score)]))
      else Outcome([LookingUp(address), LookingUpAbuse(address)], Some(BaseRow(address, r)))
  }

  /** The columns of the header, as a set. */
  function Columns(key: Option<string>): set<string> {
    set c | c in FieldNames(key)
  }

  /**
   * A row exists exactly when IPAPI answers 200; it holds the address and
   * the answer's members under their columns, it has the score column
   * exactly when a key is given and AbuseIPDB answers 200, and then the
   * cell reads back as the score; it has no column outside the header, so
   * the CSV writer accepts it.
   */
  lemma LookupRow(ipapi: string -> IpApiResponse, abuse: (string, string) -> AbuseResponse,
                  key: Option<string>, address: string)
    ensures var o := Lookup(ipapi, abuse, key, address);
            var r := ipapi(address);
            && (o.row.Some? <==> r.status == StatusOk)
            && (o.row.Some? ==>
                  var row := o.row.value;
                  && row.Keys <= Columns(key)
                  && row.Keys >= {IpColumn, OrgColumn, AsnColumn, CountryColumn}
                  && row[IpColumn] == address && row[OrgColumn] == r.org
                  && row[AsnColumn] == r.asn && row[CountryColumn] == r.country
                  && (ScoreColumn in row <==> KeyGiven(key) && abuse(key.value, address).status == StatusOk)
                  && (ScoreColumn in row && IsInt32(abuse(key.value, address).score) ==>
                        ParseInt(row[ScoreColumn]) == Some(abuse(key.value, address).score)))
  {
    var o := Lookup(ipapi, abuse, key, address);
    if o.row.Some? && ScoreColumn in o.row.value && IsInt32(abuse(key.value, address).score) {
      ParseIntOfDecimal(abuse(key.value, address).score);
    }
  }

  /** Without a key, each address is looked up in IPAPI only. */
  lemma LookupWithoutKey(ipapi: string -> IpApiResponse, abuse: (string, string) -> AbuseResponse,
                         key: Option<string>, address: string)
    requires !KeyGiven(key)
    ensures Lookup(ipapi, abuse, key, address).notices == [LookingUp(address)]
    ensures Lookup(ipapi, abuse, key, address).row.None? ||
            ScoreColumn !in Lookup(ipapi, abuse, key, address).row.value
  {
  }

  // ---------------------------------------------------------------------
  // resolve_addresses
  // ---------------------------------------------------------------------

  /** The rows written after the header, the progress lines, and whether the run exited on a failed request. */
  datatype Output = Output(rows: seq<Row>, notices: seq<Notice>, failed: bool)

  /** What one more address adds to a run that has not failed. */
  function Step(before: Output, o: Outcome): Output {
    match o.row
    case None => Output(before.rows, before.notices + o.notices, true)
    case Some(row) => Output(before.rows + [row], before.notices + o.notices, false)
  }

  /** The addresses in order, each against the run so far; the first failed request ends the run. */
  function Resolved(ipapi: string -> IpApiResponse, abuse: (string, string) -> AbuseResponse,
                    key: Option<string>, addresses: seq<string>): Output
  {
    if addresses == [] then Output([], [], false)
    else
      var before := Resolved(ipapi, abuse, key, addresses[..|addresses| - 1]);
      if before.failed then before else Step(before, Lookup(ipapi, abuse, key, addresses[|addresses| - 1]))
  }

  lemma ResolvedPrefix(ipapi: string -> IpApiResponse, abuse: (string, string) -> AbuseResponse,
                       key: Option<string>, addresses: seq<string>, i: nat)
    requires i < |addresses|
    ensures var before := Resolved(ipapi, abuse, key, addresses[..i]);
            Resolved(ipapi, abuse, key, addresses[..i + 1])
            == if before.failed then before else Step(before, Lookup(ipapi, abuse, key, addresses[i]))
  {
    assert addresses[..i + 1][..i] == addresses[..i];
  }

  /** After the exit, the remaining addresses add nothing. */
  lemma {:induction false} ResolvedStops(ipapi: string -> IpApiResponse, abuse: (string, string) -> AbuseResponse,
                                         key: Option<string>, addresses: seq<string>, n: nat)
    requires n <= |addresses| && Resolved(ipapi, abuse, key, addresses[..n]).failed
    ensures Resolved(ipapi, abuse, key, addresses) == Resolved(ipapi, abuse, key, addresses[..n])
    decreases |addresses| - n
  {
    if n < |addresses| {
      ResolvedPrefix(ipapi, abuse, key, addresses, n);
      ResolvedStops(ipapi, abuse, key, addresses, n + 1);
    } else {
      assert addresses[..n] == addresses;
    }
  }

  /**
   * The rows are the lookups of the addresses before the first one whose
   * IPAPI request fails, in order; the run exits exactly when some request
   * fails, and then no row is written for it or for anything after it.
   */
  predicate RowsMatch(ipapi: string -> IpApiResponse, abuse: (string, string) -> AbuseResponse,
                      key: Option<string>, addresses: seq<string>, out: Output)
  {
    && |out.rows| <= |addresses|
    && (forall k :: 0 <= k < |out.rows| ==>
          ipapi(addresses[k]).status == StatusOk && Lookup(ipapi, abuse, key, addresses[k]).row == Some(out.rows[k]))
    && (!out.failed ==> |out.rows| == |addresses|)
    && (out.failed ==> |out.rows| < |addresses| && ipapi(addresses[|out.rows|]).status != StatusOk)
  }

  /** A run's rows are the successful lookups of its addresses, up to the first failure. */
  lemma {:induction false} RowsAreLookups(ipapi: string -> IpApiResponse, abuse: (string, string) -> AbuseResponse,
                                          key: Option<string>, addresses: seq<string>)
    ensures RowsMatch(ipapi, abuse, key, addresses, Resolved(ipapi, abuse, key, addresses))
  {
    if addresses != [] {
      RowsAreLookups(ipapi, abuse, key, addresses[..|addresses| - 1]);
      RowsMatchLast(ipapi, abuse, key, addresses);
    }
  }

  /** The last address keeps `RowsMatch`: it adds its row, fails the run, or comes after the failure. */
  lemma RowsMatchLast(ipapi: string -> IpApiResponse, abuse: (string, string) -> AbuseResponse,
                      key: Option<string>, addresses: seq<string>)
    requires addresses != []
    requires var init := addresses[..|addresses| - 1];
             RowsMatch(ipapi, abuse, key, init, Resolved(ipapi, abuse, key, init))
    ensures RowsMatch(ipapi, abuse, key, addresses, Resolved(ipapi, abuse, key, addresses))
  {
    var init := addresses[..|addresses| - 1];
    var before := Resolved(ipapi, abuse, key, init);
    var out := Resolved(ipapi, abuse, key, addresses);
    if !before.failed {
      forall k | 0 <= k < |out.rows|
        ensures ipapi(addresses[k]).status == StatusOk && Lookup(ipapi, abuse, key, addresses[k]).row == Some(out.rows[k])
      {
        if k < |before.rows| {
          assert addresses[k] == init[k];
        }
      }
    } else {
      assert addresses[|out.rows|] == init[|out.rows|];
    }
  }

  /**
   * With distinct addresses, as the reader delivers them, no address gets
   * two rows; every row fits the header.
   */
  lemma RowsFitHeaderAndAreDistinct(ipapi: string -> IpApiResponse, abuse: (string, string) -> AbuseResponse,
                                    key: Option<string>, addresses: seq<string>)
    requires NoDuplicates(addresses)
    ensures var out := Resolved(ipapi, abuse, key, addresses);
            && (forall k :: 0 <= k < |out.rows| ==> IpColumn in out.rows[k] && out.rows[k].Keys <= Columns(key))
            && forall i, j :: 0 <= i < j < |out.rows| ==> out.rows[i][IpColumn] != out.rows[j][IpColumn]
  {
    var out := Resolved(ipapi, abuse, key, addresses);
    RowsAreLookups(ipapi, abuse, key, addresses);
    forall k | 0 <= k < |out.rows|
      ensures IpColumn in out.rows[k] && out.rows[k].Keys <= Columns(key) && out.rows[k][IpColumn] == addresses[k]
    {
      LookupRow(ipapi, abuse, key, addresses[k]);
    }
  }

  /** Without a key, only IPAPI is asked: every progress line is an IPAPI lookup. */
  lemma {:induction false} NoKeyNoAbuseLookups(ipapi: string -> IpApiResponse, abuse: (string, string) -> AbuseResponse,
                                               key: Option<string>, addresses: seq<string>)
    requires !KeyGiven(key)
    ensures forall k :: 0 <= k < |Resolved(ipapi, abuse, key, addresses).notices| ==>
              Resolved(ipapi, abuse, key, addresses).notices[k].LookingUp?
  {
    if addresses != [] {
      var init := addresses[..|addresses| - 1];
      NoKeyNoAbuseLookups(ipapi, abuse, key, init);
      LookupWithoutKey(ipapi, abuse, key, addresses[|addresses| - 1]);
      var before := Resolved(ipapi, abuse, key, init);
      var out := Resolved(ipapi, abuse, key, addresses);
      if !before.failed {
        assert out.notices == before.notices + [LookingUp(addresses[|addresses| - 1])];
        forall k | 0 <= k < |out.notices|
          ensures out.notices[k].LookingUp?
        {
          if k < |before.notices| {
            assert out.notices[k] == before.notices[k];
          }
        }
      }
    }
  }

  /** One address: the IPAPI request, the optional AbuseIPDB request, the row. */
  method ResolveAddress(ipapi: string -> IpApiResponse, abuse: (string, string) -> AbuseResponse,
                        key: Option<string>, address: string) returns (o: Outcome)
    ensures o == Lookup(ipapi, abuse, key, address)
  {
    var notices := [LookingUp(address)];
    var request := ipapi(address);
    if request.status != StatusOk {
      return Outcome(notices, None);
    }
    var row := map[IpColumn := address, OrgColumn := request.org, AsnColumn := request.asn, CountryColumn := request.country];
    if KeyGiven(key) {
      notices := notices + [LookingUpAbuse(address)];
      var check := abuse(key.value, address);
      if check.status == StatusOk {
        notices := notices + [HasScore(address, check.score)];
        row := row[ScoreColumn := IntToDecimal(check.score)];
      }
    }
    return Outcome(notices, Some(row));
  }

  /** One pass of the loop: look the address up, then write its row or exit. */
  method ResolveNext(ipapi: string -> IpApiResponse, abuse: (string, string) -> AbuseResponse,
                     key: Option<string>, out: Output, address: string) returns (next: Output)
    ensures next == Step(out, Lookup(ipapi, abuse, key, address))
  {
    var o := ResolveAddress(ipapi, abuse, key, address);
    if o.row.None? {
      return Output(out.rows, out.notices + o.notices, true);
    }
    return Output(out.rows + [o.row.value], out.notices + o.notices, false);
  }

  /** `resolve_addresses`: the header, then one row per address until a request fails. */
  method ResolveAddressList(ipapi: string -> IpApiResponse, abuse: (string, string) -> AbuseResponse,
                            key: Option<string>, addresses: seq<string>)
    returns (header: seq<string>, out: Output)
    ensures header == FieldNames(key)
    ensures out == Resolved(ipapi, abuse, key, addresses)
  {
    if KeyGiven(key) {
      header := [IpColumn, OrgColumn, AsnColumn, CountryColumn, ScoreColumn];
    } else {
      header := [IpColumn, OrgColumn, AsnColumn, CountryColumn];
    }
    out := Output([], [], false);
    var i := 0;
    while i < |addresses|
      invariant 0 <= i <= |addresses|
      invariant out == Resolved(ipapi, abuse, key, addresses[..i])
      invariant !out.failed
    {
      ResolvedPrefix(ipapi, abuse, key, addresses, i);
      out := ResolveNext(ipapi, abuse, key, out, addresses[i]);
      i := i + 1;
      if out.failed {
        ResolvedStops(ipapi, abuse, key, addresses, i);
        return;
      }
    }
    assert addresses[..i] == addresses;
  }
}
