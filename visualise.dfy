/** The report of visualise.py: one pass over the rows of `converted_archives`
    that sums the recorded savings, counts processed archives and sorts every
    row into exactly one status bucket. */
module Visualise {
  import opened Wrappers
  import opened Text
  import opened MigrateDb

  // The names of the `ConversionStatus` enumeration, in declaration order.
  const ProcessedSavedSpace := "PROCESSED_SAVED_SPACE"
  const ProcessedNoSpaceSaved := "PROCESSED_NO_SPACE_SAVED"
  const AlreadyJxl := "ALREADY_JXL_NO_CONVERTIBLES"
  const NoJpgPngFound := "NO_JPG_PNG_FOUND"
  const NoImagesRecognized := "NO_IMAGES_RECOGNIZED"
  const ContainOtherFormats := "CONTAIN_OTHER_FORMATS"
  const Failed := "failed"
  const UnknownStatus := "unknown_status"

  const EnumNames: seq<string> :=
    [ProcessedSavedSpace, ProcessedNoSpaceSaved, AlreadyJxl, NoJpgPngFound, NoImagesRecognized, ContainOtherFormats]

  /** The keys of `status_counts` in insertion order, which is also the order of the printed table. */
  const BucketOrder: seq<string> := EnumNames + [Failed, UnknownStatus]

  /** One row of the query: its path, `bytes_saved` and `status`, either of which may be NULL. */
  datatype Row = Row(path: string, bytesSaved: Option<int>, status: Option<string>)

  /** `bytes_saved`, with NULL read as 0. */
  function SavedOrZero(r: Row): int
  {
    if r.bytesSaved.Some? then r.bytesSaved.value else 0
  }

  predicate IsProcessedRow(r: Row)
  {
    r.status == Some("processed")
  }

  /** The `status_counts` key a row's status is counted under. */
  function Bucket(status: Option<string>): (b: string)
    ensures b in BucketOrder
    ensures status.Some? && status.value in BucketOrder ==> b == status.value
    ensures b == UnknownStatus <==> status.None? || status.value !in EnumNames + [Failed]
  {
    if status == Some(AlreadyJxl) then AlreadyJxl
    else if status == Some(ContainOtherFormats) || status == Some(NoJpgPngFound)
         || status == Some(NoImagesRecognized) then status.value
    else if status == Some(Failed) then Failed
    else if status.Some? && status.value in BucketOrder then status.value
    else UnknownStatus
  }

  /** `'processed'`, the status the converter writes, is not a bucket name. */
  lemma ProcessedIsUnknown()
    ensures Bucket(Some("processed")) == UnknownStatus
  {
  }

  /** The overall total: every row's savings, NULL as 0. */
  function OverallSaved(rows: seq<Row>): int
  {
    if rows == [] then 0 else OverallSaved(rows[..|rows| - 1]) + SavedOrZero(rows[|rows| - 1])
  }

  /** The number of rows whose status is exactly `'processed'`. */
  function ProcessedCount(rows: seq<Row>): (n: nat)
    ensures n <= |rows|
  {
    if rows == [] then 0
    else ProcessedCount(rows[..|rows| - 1]) + (if IsProcessedRow(rows[|rows| - 1]) then 1 else 0)
  }

  /** The savings of processed rows that saved a positive amount. */
  function PositiveSaved(rows: seq<Row>): (s: int)
    ensures s >= 0
    ensures s > 0 ==> ProcessedCount(rows) > 0
  {
    if rows == [] then 0
    else
      var r := rows[|rows| - 1];
      PositiveSaved(rows[..|rows| - 1]) + (if IsProcessedRow(r) && SavedOrZero(r) > 0 then SavedOrZero(r) else 0)
  }

  /** The number of rows counted under bucket `b`. */
  function BucketCount(rows: seq<Row>, b: string): (n: nat)
    ensures n <= |rows|
  {
    if rows == [] then 0
    else BucketCount(rows[..|rows| - 1], b) + (if Bucket(rows[|rows| - 1].status) == b then 1 else 0)
  }

  /** The eight bucket counts added up. */
  function AllBuckets(rows: seq<Row>): nat
  {
    BucketCount(rows, ProcessedSavedSpace) + BucketCount(rows, ProcessedNoSpaceSaved)
    + BucketCount(rows, AlreadyJxl) + BucketCount(rows, NoJpgPngFound)
    + BucketCount(rows, NoImagesRecognized) + BucketCount(rows, ContainOtherFormats)
    + BucketCount(rows, Failed) + BucketCount(rows, UnknownStatus)
  }

  /** Every row lands in exactly one bucket, so the buckets add up to the number of rows. */
  lemma {:induction false} BucketsPartitionRows(rows: seq<Row>)
    ensures AllBuckets(rows) == |rows|
    decreases |rows|
  {
    if rows != [] {
      BucketsPartitionRows(rows[..|rows| - 1]);
    }
  }

  /** The two dedicated counters of the loop body: archives already in JPEG XL,
      and archives holding other formats. */
  method CountKind(jxlCount: nat, otherCount: nat, status: Option<string>) returns (jxl: nat, other: nat)
    ensures jxl == jxlCount + (if Bucket(status) == AlreadyJxl then 1 else 0)
    ensures other == otherCount + (if Bucket(status) == ContainOtherFormats then 1 else 0)
                     + (if Bucket(status) == NoJpgPngFound then 1 else 0)
                     + (if Bucket(status) == NoImagesRecognized then 1 else 0)
  {
    jxl, other := jxlCount, otherCount;
    if status == Some(AlreadyJxl) {
      jxl := jxl + 1;
    } else if status == Some(ContainOtherFormats) || status == Some(NoJpgPngFound)
              || status == Some(NoImagesRecognized) {
      other := other + 1;
    }
  }

  /** The `status_counts` update of one row: the if-chain of the loop body. */
  method CountStatus(counts: map<string, nat>, status: Option<string>) returns (next: map<string, nat>)
    requires forall b :: b in counts <==> b in BucketOrder
    ensures forall b :: b in next <==> b in BucketOrder
    ensures forall b :: b in next ==> next[b] == counts[b] + (if Bucket(status) == b then 1 else 0)
  {
    if status == Some(AlreadyJxl) {
      next := counts[AlreadyJxl := counts[AlreadyJxl] + 1];
    } else if status == Some(ContainOtherFormats) || status == Some(NoJpgPngFound)
              || status == Some(NoImagesRecognized) {
      next := counts[status.value := counts[status.value] + 1];
    } else if status == Some(Failed) {
      next := counts[Failed := counts[Failed] + 1];
    } else if status.Some? && status.value in counts {
      next := counts[status.value := counts[status.value] + 1];
    } else {
      next := counts[UnknownStatus := counts[UnknownStatus] + 1];
    }
  }

  /** How each of the totals above grows when the prefix `rows[..i]` gains one row. */
  lemma ExtendByOne(rows: seq<Row>, i: nat)
    requires i < |rows|
    ensures OverallSaved(rows[..i + 1]) == OverallSaved(rows[..i]) + SavedOrZero(rows[i])
    ensures ProcessedCount(rows[..i + 1]) == ProcessedCount(rows[..i]) + (if IsProcessedRow(rows[i]) then 1 else 0)
    ensures PositiveSaved(rows[..i + 1]) == PositiveSaved(rows[..i])
              + (if IsProcessedRow(rows[i]) && SavedOrZero(rows[i]) > 0 then SavedOrZero(rows[i]) else 0)
    ensures forall b :: BucketCount(rows[..i + 1], b) == BucketCount(rows[..i], b) + (if Bucket(rows[i].status) == b then 1 else 0)
  {
    assert rows[..i + 1][..i] == rows[..i];
  }

  /** The statistics of `analyze_conversion_data`. */
  datatype Summary = Summary(
    overall: int,
    fromConverted: int,
    jxlCount: nat,
    otherCount: nat,
    processedCount: nat,
    statusCounts: map<string, nat>)

  /** The accumulators before the first row: zeros, and a zero for every bucket. */
  const EmptySummary := Summary(0, 0, 0, 0, 0, map b | b in BucketOrder :: 0)

  /** `s` holds the statistics of `rows`. */
  ghost predicate Summarizes(rows: seq<Row>, s: Summary)
  {
    && s.overall == OverallSaved(rows)
    && s.processedCount == ProcessedCount(rows)
    && s.fromConverted == PositiveSaved(rows)
    && s.jxlCount == BucketCount(rows, AlreadyJxl)
    && s.otherCount == BucketCount(rows, ContainOtherFormats) + BucketCount(rows, NoJpgPngFound)
                       + BucketCount(rows, NoImagesRecognized)
    && (forall b :: b in s.statusCounts <==> b in BucketOrder)
    && (forall b :: b in s.statusCounts ==> s.statusCounts[b] == BucketCount(rows, b))
  }

  /** `next` is `s` after counting one more row. */
  ghost predicate RowAdded(s: Summary, row: Row, next: Summary)
  {
    && next.overall == s.overall + SavedOrZero(row)
    && next.processedCount == s.processedCount + (if IsProcessedRow(row) then 1 else 0)
    && next.fromConverted == s.fromConverted + (if IsProcessedRow(row) && SavedOrZero(row) > 0 then SavedOrZero(row) else 0)
    && next.jxlCount == s.jxlCount + (if Bucket(row.status) == AlreadyJxl then 1 else 0)
    && next.otherCount == s.otherCount + (if Bucket(row.status) == ContainOtherFormats then 1 else 0)
                          + (if Bucket(row.status) == NoJpgPngFound then 1 else 0)
                          + (if Bucket(row.status) == NoImagesRecognized then 1 else 0)
    && (forall b :: b in next.statusCounts <==> b in BucketOrder)
    && (forall b :: b in next.statusCounts ==>
          b in s.statusCounts && next.statusCounts[b] == s.statusCounts[b] + (if Bucket(row.status) == b then 1 else 0))
  }

  /** The body of `for row in data`. */
  method CountRow(s: Summary, row: Row) returns (next: Summary)
    requires forall b :: b in s.statusCounts <==> b in BucketOrder
    ensures RowAdded(s, row, next)
  {
    var status := row.status;
    var bytesSaved := if row.bytesSaved.Some? then row.bytesSaved.value else 0;
    var overall := s.overall + bytesSaved;
    var processedCount, fromConverted := s.processedCount, s.fromConverted;
    if status == Some("processed") {
      processedCount := processedCount + 1;
      if bytesSaved > 0 {
        fromConverted := fromConverted + bytesSaved;
      }
    }
    var jxlCount, otherCount := CountKind(s.jxlCount, s.otherCount, status);
    var counts := CountStatus(s.statusCounts, status);
    next := Summary(overall, fromConverted, jxlCount, otherCount, processedCount, counts);
  }

  /** No rows: the empty statistics. */
  lemma SummarizesNothing()
    ensures Summarizes([], EmptySummary)
  {
  }

  /** Counting row `i` turns the statistics of `rows[..i]` into those of `rows[..i + 1]`. */
  lemma SummarizesStep(rows: seq<Row>, i: nat, s: Summary, next: Summary)
    requires i < |rows| && Summarizes(rows[..i], s) && RowAdded(s, rows[i], next)
    ensures Summarizes(rows[..i + 1], next)
  {
    ExtendByOne(rows, i);
  }

  /** Each of the eight bucket names is a key of `status_counts`. */
  lemma BucketNamesListed()
    ensures ProcessedSavedSpace in BucketOrder && ProcessedNoSpaceSaved in BucketOrder
    ensures AlreadyJxl in BucketOrder && NoJpgPngFound in BucketOrder
    ensures NoImagesRecognized in BucketOrder && ContainOtherFormats in BucketOrder
    ensures Failed in BucketOrder && UnknownStatus in BucketOrder
  {
    assert BucketOrder[6] == Failed && BucketOrder[7] == UnknownStatus;
  }

  /** The statistics of all rows, spelled out; the eight buckets add up to the row count. */
  lemma SummarizesAll(rows: seq<Row>, s: Summary)
    requires Summarizes(rows, s)
    ensures s.overall == OverallSaved(rows)
    ensures s.processedCount == ProcessedCount(rows)
    ensures s.fromConverted == PositiveSaved(rows) && s.fromConverted >= 0
    ensures s.jxlCount == BucketCount(rows, AlreadyJxl)
    ensures s.otherCount == BucketCount(rows, ContainOtherFormats) + BucketCount(rows, NoJpgPngFound)
                            + BucketCount(rows, NoImagesRecognized)
    ensures forall b :: b in s.statusCounts <==> b in BucketOrder
    ensures forall b :: b in s.statusCounts ==> s.statusCounts[b] == BucketCount(rows, b)
    ensures s.statusCounts[ProcessedSavedSpace] + s.statusCounts[ProcessedNoSpaceSaved]
            + s.statusCounts[AlreadyJxl] + s.statusCounts[NoJpgPngFound]
            + s.statusCounts[NoImagesRecognized] + s.statusCounts[ContainOtherFormats]
            + s.statusCounts[Failed] + s.statusCounts[UnknownStatus] == |rows|
  {
    BucketsPartitionRows(rows);
    BucketNamesListed();
  }

  /** The `for row in data` loop of `analyze_conversion_data`. */
  method AnalyzeRows(rows: seq<Row>) returns (s: Summary)
    ensures s.overall == OverallSaved(rows)
    ensures s.processedCount == ProcessedCount(rows)
    ensures s.fromConverted == PositiveSaved(rows) && s.fromConverted >= 0
    ensures s.jxlCount == BucketCount(rows, AlreadyJxl)
    ensures s.otherCount == BucketCount(rows, ContainOtherFormats) + BucketCount(rows, NoJpgPngFound)
                            + BucketCount(rows, NoImagesRecognized)
    ensures forall b :: b in s.statusCounts <==> b in BucketOrder
    ensures forall b :: b in s.statusCounts ==> s.statusCounts[b] == BucketCount(rows, b)
    ensures s.statusCounts[ProcessedSavedSpace] + s.statusCounts[ProcessedNoSpaceSaved]
            + s.statusCounts[AlreadyJxl] + s.statusCounts[NoJpgPngFound]
            + s.statusCounts[NoImagesRecognized] + s.statusCounts[ContainOtherFormats]
            + s.statusCounts[Failed] + s.statusCounts[UnknownStatus] == |rows|
  {
    s := EmptySummary;
    SummarizesNothing();
    var i := 0;
    while i < |rows|
      invariant 0 <= i <= |rows|
      invariant Summarizes(rows[..i], s)
    {
      var next := CountRow(s, rows[i]);
      SummarizesStep(rows, i, s, next);
      s := next;
      i := i + 1;
    }
    assert rows[..i] == rows;
    SummarizesAll(rows, s);
  }

  /** How the overall total is printed: as space saved, or as an increase by
      the (positive) negated total. */
  datatype SpaceLine = Saved(bytes: nat) | Increased(bytes: nat)

  function SpaceReport(total: int): (r: SpaceLine)
    ensures r.Saved? <==> total >= 0
    ensures r.Increased? ==> r.bytes > 0
  {
    if total >= 0 then Saved(total) else Increased(-total)
  }

  /** The signed amount a printed line stands for. */
  function SignedAmount(line: SpaceLine): int
  {
    match line
    case Saved(b) => b
    case Increased(b) => 0 - b
  }

  /** The printed line determines the total it was made from. */
  lemma SpaceReportFaithful(total: int)
    ensures SignedAmount(SpaceReport(total)) == total
  {
  }

  /** The columns `analyze_conversion_data` selects, in the order of its query. */
  const SelectedColumns: seq<string> :=
    ["path", "original_size", "final_size", "bytes_saved", "percent_saved", "status"]

  /** The database file: whether it exists, the columns of `converted_archives`
      (None when there is no such table), and the rows the query returns. */
  datatype DbFile = DbFile(present: bool, columns: Option<seq<string>>, rows: seq<Row>)

  /** `get_db_connection`: no connection when the file is missing. */
  function GetDbConnection(db: DbFile): (conn: Option<DbFile>)
    ensures conn.None? <==> !db.present
    ensures conn.Some? ==> conn.value == db
  {
    if !db.present then None else Some(db)
  }

  /** `PRAGMA table_info(converted_archives)`: the field names, none for a missing table. */
  function TableFields(db: DbFile): (fields: seq<string>)
    ensures db.columns.Some? ==> fields == db.columns.value
    ensures db.columns.None? ==> fields == []
  {
    if db.columns.Some? then db.columns.value else []
  }

  /** The query runs iff the table exists and every selected column names one
      of its columns, compared without regard to ASCII case as SQLite does. */
  predicate QueryRuns(columns: Option<seq<string>>)
  {
    columns.Some? && forall i :: 0 <= i < |SelectedColumns| ==> HasColumnNamed(columns.value, SelectedColumns[i])
  }

  /** The table `cbzxl.py` creates has only `path`, so the query fails on it. */
  lemma PathOnlyTableFails()
    ensures !QueryRuns(Some(["path"]))
  {
    assert |Lower("path")| != |Lower(SelectedColumns[1])|;
  }

  /** Adding `dominant_type` to that table does not make the query run either. */
  lemma MigratedPathTableFails()
    ensures !QueryRuns(Some(Migrated(["path"])))
  {
    var m := Migrated(["path"]);
    assert !HasColumnNamed(["path"], DominantType) by {
      assert |Lower("path")| != |Lower(DominantType)|;
    }
    assert m == ["path", DominantType];
    assert !HasColumnNamed(m, SelectedColumns[1]) by {
      assert |Lower(m[0])| != |Lower(SelectedColumns[1])|;
      assert Lower(m[1])[0] != Lower(SelectedColumns[1])[0];
    }
  }

  /** A table that holds each selected column by its own name answers the query. */
  lemma {:induction false} SelectedColumnsSuffice(columns: seq<string>)
    requires forall i :: 0 <= i < |SelectedColumns| ==> SelectedColumns[i] in columns
    ensures QueryRuns(Some(columns))
  {
    forall i | 0 <= i < |SelectedColumns|
      ensures HasColumnNamed(columns, SelectedColumns[i])
    {
      var j :| 0 <= j < |columns| && columns[j] == SelectedColumns[i];
      assert Lower(columns[j]) == Lower(SelectedColumns[i]);
    }
  }

  /** The rows of the printed breakdown: `status_counts.items()`, whose keys
      were inserted in the order of `BucketOrder`. */
  method StatusTable(counts: map<string, nat>) returns (table: seq<(string, nat)>)
    requires forall b :: b in BucketOrder ==> b in counts
    ensures |table| == |BucketOrder|
    ensures forall i :: 0 <= i < |table| ==> table[i] == (BucketOrder[i], counts[BucketOrder[i]])
  {
    table := [];
    var i := 0;
    while i < |BucketOrder|
      invariant 0 <= i <= |BucketOrder|
      invariant |table| == i
      invariant forall k :: 0 <= k < i ==> table[k] == (BucketOrder[k], counts[BucketOrder[k]])
    {
      table := table + [(BucketOrder[i], counts[BucketOrder[i]])];
      i := i + 1;
    }
  }

  /** What `analyze_conversion_data` ends with; every outcome after the
      connection carries the printed field list. */
  datatype Report =
    | NoDatabase
    | QueryError(fields: seq<string>)
    | NoData(fields: seq<string>)
    | Statistics(fields: seq<string>, recorded: nat, summary: Summary, space: SpaceLine,
                 table: seq<(string, nat)>, ratioShown: bool)

  /** `analyze_conversion_data`: no statistics without a database, when the
      query fails, or without rows; otherwise the row count, the loop's
      summary, the space line, the breakdown table in order, and whether the
      ratio line is printed (at least one archive is already JPEG XL or holds
      other formats). */
  method AnalyzeConversionData(db: DbFile) returns (r: Report)
    ensures r.NoDatabase? <==> !db.present
    ensures r.QueryError? <==> db.present && !QueryRuns(db.columns)
    ensures r.NoData? <==> db.present && QueryRuns(db.columns) && db.rows == []
    ensures !r.NoDatabase? ==> r.fields == TableFields(db)
    ensures r.Statistics? ==>
      && r.recorded == |db.rows| > 0
      && r.summary.overall == OverallSaved(db.rows)
      && r.summary.fromConverted == PositiveSaved(db.rows)
      && r.summary.processedCount == ProcessedCount(db.rows)
      && r.summary.jxlCount == BucketCount(db.rows, AlreadyJxl)
      && r.summary.otherCount == BucketCount(db.rows, ContainOtherFormats) + BucketCount(db.rows, NoJpgPngFound)
                                 + BucketCount(db.rows, NoImagesRecognized)
      && r.space == SpaceReport(OverallSaved(db.rows))
      && (forall b :: b in r.summary.statusCounts ==> r.summary.statusCounts[b] == BucketCount(db.rows, b))
      && |r.table| == |BucketOrder|
      && (forall i :: 0 <= i < |r.table| ==> r.table[i] == (BucketOrder[i], BucketCount(db.rows, BucketOrder[i])))
      && (r.ratioShown <==> BucketCount(db.rows, AlreadyJxl) > 0 || r.summary.otherCount > 0)
  {
    var conn := GetDbConnection(db);
    if conn.None? {
      return NoDatabase;
    }
    var fields := TableFields(conn.value);
    if !QueryRuns(conn.value.columns) {
      return QueryError(fields);
    }
    var data := conn.value.rows;
    if data == [] {
      return NoData(fields);
    }
    var summary := AnalyzeRows(data);
    var table := StatusTable(summary.statusCounts);
    r := Statistics(fields, |data|, summary, SpaceReport(summary.overall), table,
                    summary.jxlCount > 0 || summary.otherCount > 0);
  }
}
