/**
 * The page's record cache (`recordsCache`), its reload from the web app
 * (`loadRecords`) and the spreadsheet export. The network round trip is a
 * parameter: a `Response` says what `fetch` and `response.json()` produced.
 */
module Store {
  import opened Wrappers
  import opened Records
  import opened Charts
  import opened Ordering

  /**
   * The parsed body of a successful GET: a JSON array of records, or some
   * other JSON object (the web app reports its own errors that way).
   */
  datatype Body = RecordArray(records: seq<Record>) | NotAnArray

  /**
   * The GET: `Failed` covers a rejected `fetch`, a status outside 200-299
   * and a body that is not JSON, since each of them throws before the cache
   * is touched.
   */
  datatype Response = Failed | Received(body: Body)

  /** What `recordsCache` holds. */
  datatype CacheValue = ArrayCache(records: seq<Record>) | NonArrayCache

  const SheetName := "휴식공간기록"
  const WorkbookFile := "my_relaxation_space_records.xlsx"

  /** What a click on the export button does. */
  datatype ExportOutcome =
    | NothingToExport
    | Workbook(sheet: string, file: string, rows: seq<Record>)
      /** The sheet library is handed a value that is not an array. */
    | NonArrayExported

  predicate DeliversRecords(response: Response) {
    response.Received? && response.body.RecordArray?
  }

  /**
   * The export click. An object that is not an array has no `length`, so
   * `length === 0` is false for it and the export goes ahead.
   */
  function ExportOf(c: CacheValue): (outcome: ExportOutcome)
    ensures outcome == NothingToExport <==> c == ArrayCache([])
    ensures outcome.Workbook? <==> c.ArrayCache? && c.records != []
    ensures outcome.Workbook? ==>
      outcome.sheet == SheetName && outcome.file == WorkbookFile && outcome.rows == c.records
  {
    match c
    case ArrayCache(records) =>
      if |records| == 0 then NothingToExport else Workbook(SheetName, WorkbookFile, records)
    case NonArrayCache => NonArrayExported
  }

  /**
   * `loadRecords` as written: the parsed body goes into the cache before
   * the `Array.isArray` check rejects it.
   */
  function CacheAfterLoadAsWritten(c: CacheValue, response: Response): (c': CacheValue)
    ensures response == Received(NotAnArray) ==> c' == NonArrayCache
    ensures response.Failed? ==> c' == c
    ensures DeliversRecords(response) ==> c' == ArrayCache(SortNewestFirst(response.body.records))
  {
    match response
    case Failed => c
    case Received(RecordArray(records)) => ArrayCache(SortNewestFirst(records))
    case Received(NotAnArray) => NonArrayCache
  }

  /**
   * The intended reload: only an array of records replaces the cache, and
   * it is kept newest first.
   */
  function CacheAfterLoad(c: CacheValue, response: Response): (c': CacheValue)
    ensures DeliversRecords(response) ==>
      c' == ArrayCache(SortNewestFirst(response.body.records))
    ensures !DeliversRecords(response) ==> c' == c
  {
    if DeliversRecords(response) then ArrayCache(SortNewestFirst(response.body.records)) else c
  }

  /** The cache after the page starts empty and then reloads once per response. */
  function CacheAfterLoads(responses: seq<Response>): CacheValue {
    if responses == [] then ArrayCache([])
    else CacheAfterLoad(CacheAfterLoads(responses[..|responses| - 1]), responses[|responses| - 1])
  }

  function CacheAfterLoadsAsWritten(responses: seq<Response>): CacheValue {
    if responses == [] then ArrayCache([])
    else CacheAfterLoadAsWritten(CacheAfterLoadsAsWritten(responses[..|responses| - 1]), responses[|responses| - 1])
  }

  /**
   * However the reloads went, the intended cache is an array kept newest
   * first, so the export either refuses or writes exactly those records.
   */
  lemma {:induction false} CacheStaysSortedArray(responses: seq<Response>)
    ensures CacheAfterLoads(responses).ArrayCache?
    ensures NewestFirst(CacheAfterLoads(responses).records)
    ensures !ExportOf(CacheAfterLoads(responses)).NonArrayExported?
  {
    if responses != [] {
      CacheStaysSortedArray(responses[..|responses| - 1]);
      var last := responses[|responses| - 1];
      if DeliversRecords(last) {
        SortNewestFirstSpec(last.body.records);
      }
    }
  }

  /**
   * As written, one error reply from the web app on a page with no records
   * leaves a non-array in the cache, and the export's emptiness guard lets
   * it through; the intended reload keeps the empty array and the guard
   * refuses.
   */
  lemma ExportGuardBypassed()
    ensures ExportOf(CacheAfterLoadsAsWritten([Received(NotAnArray)])) == NonArrayExported
    ensures ExportOf(CacheAfterLoads([Received(NotAnArray)])) == NothingToExport
  {
    assert [Received(NotAnArray)][..0] == [];
  }

  /** The two reloads agree whenever the web app never answers with a non-array. */
  lemma {:induction false} AsWrittenAgreesWithoutErrorReplies(responses: seq<Response>)
    requires forall i :: 0 <= i < |responses| ==> responses[i] != Received(NotAnArray)
    ensures CacheAfterLoadsAsWritten(responses) == CacheAfterLoads(responses)
  {
    if responses != [] {
      AsWrittenAgreesWithoutErrorReplies(responses[..|responses| - 1]);
    }
  }

  /** The parsed records in a new array, sorted newest first in place. */
  method SortedCopy(records: seq<Record>) returns (a: array<Record>)
    ensures fresh(a)
    ensures a[..] == SortNewestFirst(records)
  {
    a := new Record[|records|](i requires 0 <= i < |records| => records[i]);
    assert a[..] == records;
    SortInPlace(a);
  }

  /** `forEach(addRecordToDOM)`: one listing row per record, in order. */
  method ListRows(records: seq<Record>) returns (listing: seq<Row>)
    ensures listing == Rows(records)
  {
    listing := [];
    var i := 0;
    while i < |records|
      invariant 0 <= i <= |records|
      invariant |listing| == i
      invariant forall k :: 0 <= k < i ==> listing[k] == RowOf(records[k])
    {
      listing := listing + [RowOf(records[i])];
      i := i + 1;
    }
    var rows := Rows(records);
    assert |rows| == |listing| && forall k :: 0 <= k < |rows| ==> rows[k] == listing[k];
  }

  /** The page: its cache, the listing it shows, and its two charts. */
  class Page {
    var cache: array<Record>
    /** The rows of the record listing, top to bottom. */
    var listing: seq<Row>
    /** Whether the listing shows the load-failure message instead. */
    var showsError: bool
    /** The charts drawn by the latest successful load, if any. */
    var dashboard: Option<Dashboard>

    ghost predicate Valid()
      reads this, cache
    {
      NewestFirst(cache[..])
    }

    /** `let recordsCache = [];` before the first load. */
    constructor ()
      ensures Valid()
      ensures cache.Length == 0 && listing == [] && !showsError && dashboard == None
    {
      cache := new Record[0];
      listing := [];
      showsError := false;
      dashboard := None;
    }

    /**
     * `loadRecords`, with the non-array reply rejected before it reaches
     * the cache. A load that delivers records replaces the cache with them
     * newest first, lists one row per record in that order and redraws
     * both charts; any other load shows the error message and keeps the
     * cache and the charts.
     */
    method Load(response: Response)
      requires Valid()
      modifies this
      ensures Valid()
      ensures ArrayCache(cache[..]) == CacheAfterLoad(ArrayCache(old(cache[..])), response)
      ensures DeliversRecords(response) ==>
        fresh(cache) && listing == Rows(cache[..]) && !showsError &&
        dashboard == Some(Render(cache[..]))
      ensures !DeliversRecords(response) ==>
        cache == old(cache) && listing == [] && showsError && dashboard == old(dashboard)
    {
      if DeliversRecords(response) {
        var a := SortedCopy(response.body.records);
        SortNewestFirstSpec(response.body.records);
        cache := a;
        listing := ListRows(a[..]);
        showsError := false;
        dashboard := Some(Render(a[..]));
      } else {
        listing := [];
        showsError := true;
      }
    }

    /** The export click on the current cache. */
    method Export() returns (outcome: ExportOutcome)
      ensures outcome == ExportOf(ArrayCache(cache[..]))
      ensures outcome == NothingToExport <==> cache.Length == 0
      ensures outcome != NothingToExport ==> outcome == Workbook(SheetName, WorkbookFile, cache[..])
    {
      if cache.Length == 0 {
        outcome := NothingToExport;
      } else {
        outcome := Workbook(SheetName, WorkbookFile, cache[..]);
      }
    }
  }
}
