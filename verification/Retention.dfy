/**
 * The log lake: rows of observability_logs (routes-logs.ts) that point into
 * the raw files (log-storage.ts), and the retention sweep (log-operations.ts).
 */
module Retention {
  import opened Lines
  import opened Options
  import opened LogStore
  import opened Sets
  import Calendar

  const SUFFIX := "logs.ndjson"

  /** A row: its timestamp column in microseconds, the record it was made from, and the pointer to its raw line. */
  datatype Row = Row(ts: int, record: LogRecord, pointer: Pointer)

  /** The column rounds to the nearest microsecond; ties may go either way. */
  predicate IsColumn(ts: int, at: real) { -0.5 <= ts as real - 1000.0 * at <= 0.5 }

  function Column(at: real): (ts: int)
    ensures IsColumn(ts, at)
  {
    (1000.0 * at + 0.5).Floor
  }

  /** The row holds the rounded time of its record, and points into the file of its record's day. */
  predicate Keyed(row: Row) {
    row.record.at.Some? && IsColumn(row.ts, row.record.at.value) && row.pointer.key == KeyOf(row.record, SUFFIX)
  }

  /** The row is keyed and its pointer reads its own line. */
  predicate RowOk(files: Files, row: Row) {
    Keyed(row) && ReadAt(files, row.pointer) == Some(row.record.json + [10])
  }

  /** The millisecond that Date sees. */
  function Millisecond(row: Row): int
    requires Keyed(row)
  {
    row.record.at.value.Floor
  }

  // ------------------------------------------------------------- partitions

  /** Date.UTC(year, month - 1, day + 1) of the parts of a time is the start of the next day. */
  lemma PartitionEnd(t: int)
    ensures var p := DayParts(t);
            Calendar.MS_PER_DAY * Calendar.MakeDay(p.year, p.month - 1, p.day + 1)
            == Calendar.MS_PER_DAY * (Calendar.Day(t) + 1)
  {
    var d := Calendar.Day(t);
    Calendar.MakeDayInvertsParts(d);
    Calendar.MakeDayNext(Calendar.YearOf(d), Calendar.MonthOf(d), Calendar.DateOf(d));
    hide Calendar.MakeDay, Calendar.YearOf, Calendar.MonthOf, Calendar.DateOf;
  }

  /** A partition is removed exactly when every time of its day lies before the cutoff. */
  lemma ExpiredIffDayOver(t: int, cutoff: int)
    ensures Expired(DayParts(t), cutoff) <==>
              1000 <= DayParts(t).year <= 9999 && forall u :: Calendar.Day(u) == Calendar.Day(t) ==> u < cutoff
  {
    PartitionEnd(t);
    var d := Calendar.Day(t);
    var last := Calendar.MS_PER_DAY * (d + 1) - 1;
    assert Calendar.Day(last) == d;
    hide DayParts;
    if Calendar.MS_PER_DAY * (d + 1) <= cutoff {
      forall u | Calendar.Day(u) == d ensures u < cutoff {}
    }
  }

  /** Which rows survive a prune: those whose day directory is not over. */
  lemma RowSurvivesIff(files: Files, row: Row, cutoff: int)
    requires RowOk(files, row)
    ensures RowOk(Kept(files, cutoff), row) <==> !Expired(DayParts(Millisecond(row)), cutoff)
  {
    hide Expired, DayParts, IsColumn;
    assert |row.record.json + [10]| > 0;
  }

  /** The end of the day in whose directory the row's line lies. */
  function DayEnd(row: Row): int
    requires Keyed(row)
  {
    Calendar.MS_PER_DAY * (Calendar.Day(Millisecond(row)) + 1)
  }

  /** The column was rounded up to the midnight that ends the row's day, and that midnight is the cutoff. */
  predicate Stranded(row: Row, cutoff: int) {
    Keyed(row) && row.ts == 1000 * cutoff && DayEnd(row) == cutoff && 1000 <= DayParts(Millisecond(row)).year <= 9999
  }

  lemma BeforeDayEnd(row: Row)
    requires Keyed(row)
    ensures row.record.at.value < DayEnd(row) as real && row.ts <= 1000 * DayEnd(row)
  {
    var m := Millisecond(row);
    assert row.record.at.value < (m + 1) as real;
    assert m + 1 <= DayEnd(row);
    assert row.ts as real < (1000 * DayEnd(row) + 1) as real;
  }

  /** Among the rows that the DELETE statements leave, exactly the stranded ones lose their day directory. */
  lemma StrandedIff(row: Row, cutoff: int)
    requires Keyed(row) && 1000 * cutoff <= row.ts
    ensures Expired(DayParts(Millisecond(row)), cutoff) <==> Stranded(row, cutoff)
  {
    BeforeDayEnd(row);
    PartitionEnd(Millisecond(row));
    hide DayParts, Calendar.MakeDay;
  }

  /**
   * A row is stranded exactly when its time is less than a microsecond before the cutoff, a midnight, and rounds up
   * to it.
   */
  lemma StrandedMeans(row: Row, cutoff: int)
    requires Keyed(row) && 1000 <= DayParts(Millisecond(row)).year <= 9999
    ensures Stranded(row, cutoff) <==>
              cutoff % Calendar.MS_PER_DAY == 0 && row.ts == 1000 * cutoff && row.record.at.value < cutoff as real
  {
    hide DayParts;
    BeforeDayEnd(row);
    var at, m := row.record.at.value, Millisecond(row);
    if row.ts == 1000 * cutoff && at < cutoff as real && cutoff % Calendar.MS_PER_DAY == 0 {
      assert m < cutoff;
      assert at >= (cutoff - 1) as real;
      assert m == cutoff - 1;
    }
  }

  /**
   * A record of the last ten-thousandth of a millisecond of a day is stranded when the cutoff is the end of that day.
   */
  lemma LastInstantIsStranded(d: int, segment: string, json: Bytes, offset: nat, bytes: nat)
    requires 1000 <= DayParts(Calendar.MS_PER_DAY * (d + 1) - 1).year <= 9999
    ensures var cutoff := Calendar.MS_PER_DAY * (d + 1);
            var r := LogRecord(Some(cutoff as real - 0.0001), 0, segment, json);
            Stranded(Row(Column(cutoff as real - 0.0001), r, Pointer(KeyOf(r, SUFFIX), offset, bytes)), cutoff)
  {
    hide DayParts;
    var cutoff := Calendar.MS_PER_DAY * (d + 1);
    var at := cutoff as real - 0.0001;
    assert at.Floor == cutoff - 1;
    assert Column(at) == 1000 * cutoff;
  }

  /** A time of whole microseconds is never stranded. */
  lemma MicrosecondsAreSafe(row: Row, cutoff: int)
    requires Keyed(row) && row.ts as real == 1000.0 * row.record.at.value
    ensures !Stranded(row, cutoff)
  {
    BeforeDayEnd(row);
    hide DayParts;
  }

  /**
   * At every step of the prune, with any part of the expired days gone, a row the DELETEs left is intact unless
   * stranded.
   */
  lemma EveryStepKeepsRow(files: Files, row: Row, cutoff: int, gone: set<Partition>)
    requires RowOk(files, row) && 1000 * cutoff <= row.ts && !Stranded(row, cutoff)
    requires forall p :: p in gone ==> Expired(p, cutoff)
    ensures RowOk(Without(files, gone), row)
  {
    StrandedIff(row, cutoff);
    hide Expired, DayParts, Stranded;
  }

  // ---------------------------------------------------------------- the lake

  predicate AllKeyed(rows: map<nat, Row>) { forall id <- rows :: Keyed(rows[id]) }

  /** The rows whose pointer does not read their own line. */
  function Dangling(files: Files, rows: map<nat, Row>): set<nat> { set id | id in rows && !RowOk(files, rows[id]) }

  /** Rows that a sweep deletes. */
  function Old(rows: map<nat, Row>, cutoff: int): set<nat> {
    set id | id in rows && rows[id].ts < 1000 * cutoff
  }

  /** Exactly the rows from a time on are kept, as they are. */
  predicate Keeps(rows: map<nat, Row>, rest: map<nat, Row>, from: int) {
    && (forall id <- rest :: id in rows && rest[id] == rows[id])
    && (forall id <- rows :: id in rest <==> rows[id].ts >= from)
  }

  lemma KeepsRest(rows: map<nat, Row>, cutoff: int)
    ensures Keeps(rows, rows - Old(rows, cutoff), 1000 * cutoff)
  {
  }

  /** n oldest of the given rows. */
  ghost predicate AreOldest(rows: map<nat, Row>, from: set<nat>, doomed: set<nat>, n: nat) {
    && doomed <= from <= rows.Keys && |doomed| == (if |from| < n then |from| else n)
    && forall a, b :: a in doomed && b in from - doomed ==> rows[a].ts <= rows[b].ts
  }

  lemma OldMinus(rows: map<nat, Row>, gone: set<nat>, cutoff: int)
    ensures Old(rows - gone, cutoff) == Old(rows, cutoff) - gone
  {
  }

  /** Of all rows before the cutoff at the start, those in gone are deleted, and counted. */
  predicate Deleted(start: map<nat, Row>, all: set<nat>, gone: set<nat>, rows: map<nat, Row>, count: nat) {
    gone <= all && rows == start - gone && count == |gone|
  }

  lemma AfterDelete(start: map<nat, Row>, all: set<nat>, gone: set<nat>, rows: map<nat, Row>, count: nat,
                    doomed: set<nat>, cutoff: int)
    requires Deleted(start, all, gone, rows, count) && all == Old(start, cutoff) && doomed <= Old(rows, cutoff)
    ensures Deleted(start, all, gone + doomed, rows - doomed, count + |doomed|)
    ensures |gone + doomed| == |gone| + |doomed| <= |all|
    ensures doomed == Old(rows, cutoff) ==> gone + doomed == all && Old(rows - doomed, cutoff) == {}
  {
    OldMinus(start, gone, cutoff);
    OldMinus(rows, doomed, cutoff);
    hide Old;
    assert rows - doomed == start - (gone + doomed);
    CardinalityMonotone(gone + doomed, all);
  }

  lemma NoneDeleted(start: map<nat, Row>, all: set<nat>)
    ensures Deleted(start, all, {}, start, 0)
  {
  }

  lemma DeletedAll(start: map<nat, Row>, all: set<nat>, gone: set<nat>, rows: map<nat, Row>, count: nat)
    requires Deleted(start, all, gone, rows, count) && gone == all
    ensures rows == start - all && count == |all|
  {
  }

  lemma FewerRows(files: Files, rows: map<nat, Row>, gone: set<nat>)
    ensures AllKeyed(rows) ==> AllKeyed(rows - gone)
    ensures Dangling(files, rows - gone) == Dangling(files, rows) - gone
  {
    hide RowOk, Keyed;
  }

  class LogLake {
    var rows: map<nat, Row>
    const storage: FilesystemLogStorage
    const batch: nat

    predicate Valid()
      reads this, storage
    {
      100 <= batch <= 100_000 && AllKeyed(rows)
    }

    constructor (storage: FilesystemLogStorage, batch: nat)
      requires 100 <= batch <= 100_000
      ensures Valid() && rows == map[] && this.storage == storage && this.batch == batch
    {
      this.storage, this.batch, rows := storage, batch, map[];
    }

    /** ingestLogs: write the batch, then insert one row per record, paired with its pointer by index. */
    method Ingest(logs: seq<LogRecord>, ids: seq<nat>) returns (pointers: seq<Pointer>)
      requires Valid() && |ids| == |logs|
      requires forall i :: 0 <= i < |logs| ==> logs[i].at.Some? && ids[i] !in rows
      requires forall i, j :: 0 <= i < j < |ids| ==> ids[i] != ids[j]
      modifies this`rows, storage
      ensures Valid()
      ensures Written(old(storage.files), logs, SUFFIX, storage.files, pointers)
      ensures rows == WithRows(old(rows), logs, ids, pointers, |logs|)
      ensures Dangling(storage.files, rows) <= Dangling(old(storage.files), old(rows))
    {
      hide RowOk, Keyed, Written, AllKeyed, Dangling, WithRows, Column, IsColumn;
      pointers := storage.WriteBatch(logs);
      ghost var files, was := old(storage.files), Dangling(old(storage.files), old(rows));
      AppendKeepsRows(files, logs, storage.files, pointers, rows);
      WithRowsStep(rows, logs, ids, pointers, 0);
      var i := 0;
      while i < |logs|
        invariant 0 <= i <= |logs| && AllKeyed(rows) && Dangling(storage.files, rows) <= was
        invariant Written(files, logs, SUFFIX, storage.files, pointers)
        invariant rows == WithRows(old(rows), logs, ids, pointers, i)
      {
        var row := Row(Column(logs[i].at.value), logs[i], pointers[i]);
        PointerIsGood(files, logs, storage.files, pointers, i);
        OneMoreRow(storage.files, rows, ids[i], row);
        WithRowsStep(old(rows), logs, ids, pointers, i);
        rows := rows[ids[i] := row];
        i := i + 1;
      }
    }

    /**
     * runLogRetentionSweep with no ingest in between: the rows that dangle afterwards are those that did, and the
     * stranded ones.
     */
    method Sweep(now: int, retentionDays: nat) returns (deletedRows: nat, deletedPartitions: nat)
      requires Valid()
      modifies this`rows, storage
      ensures Valid()
      ensures Keeps(old(rows), rows, 1000 * (now - retentionDays * 86_400_000))
      ensures var cutoff := now - retentionDays * Calendar.MS_PER_DAY;
              && rows == old(rows) - Old(old(rows), cutoff)
              && deletedRows == |Old(old(rows), cutoff)|
              && storage.files == Kept(old(storage.files), cutoff)
              && deletedPartitions == |set p | p in Partitions(old(storage.files)) && Expired(p, cutoff)|
              && Dangling(storage.files, rows) == AfterSweep(Dangling(old(storage.files), old(rows)), rows, cutoff)
    {
      var cutoff := now - retentionDays * Calendar.MS_PER_DAY;
      hide Old, RowOk, Keyed, AllKeyed, Dangling, Expired, Partitions, Kept;
      ghost var was := Dangling(storage.files, rows);
      KeepsRest(rows, cutoff);
      deletedRows := DeleteRows(cutoff);
      PruneStrands(storage.files, rows, cutoff);
      SurvivingDangle(was, old(rows), Old(old(rows), cutoff), cutoff);
      deletedPartitions := storage.PruneBefore(cutoff);
    }

    /** The loop of DELETE statements; none of them makes a row dangle. */
    method DeleteRows(cutoff: int) returns (deletedRows: nat)
      requires Valid()
      modifies this`rows
      ensures rows == old(rows) - Old(old(rows), cutoff) && Old(rows, cutoff) == {}
      ensures deletedRows == |Old(old(rows), cutoff)|
      ensures Dangling(storage.files, rows) == Dangling(storage.files, old(rows)) - Old(old(rows), cutoff)
      ensures Valid()
    {
      deletedRows := 0;
      ghost var start, all, gone := rows, Old(rows, cutoff), {};
      NoneDeleted(start, all);
      FewerRows(storage.files, start, all);
      hide *;
      while true
        invariant Valid()
        invariant Deleted(start, all, gone, rows, deletedRows)
        decreases |all| - |gone|
      {
        ghost var before := rows;
        var doomed := DeleteOldest(cutoff);
        AfterDelete(start, all, gone, before, deletedRows, doomed, cutoff);
        deletedRows, gone := deletedRows + |doomed|, gone + doomed;
        if |doomed| < batch {
          DeletedAll(start, all, gone, rows, deletedRows);
          break;
        }
      }
    }

    /** One DELETE statement: the oldest rows before the cutoff, at most a batch of them. */
    method DeleteOldest(cutoff: int) returns (doomed: set<nat>)
      requires Valid()
      modifies this`rows
      ensures AreOldest(old(rows), Old(old(rows), cutoff), doomed, batch)
      ensures doomed <= Old(old(rows), cutoff)
      ensures |doomed| < batch ==> doomed == Old(old(rows), cutoff)
      ensures rows == old(rows) - doomed
      ensures Dangling(storage.files, rows) == Dangling(storage.files, old(rows)) - doomed
      ensures Valid()
    {
      hide AllKeyed, Dangling;
      var from := Old(rows, cutoff);
      doomed := {};
      while doomed != from && |doomed| < batch
        invariant rows == old(rows) && doomed <= from && |doomed| <= batch
        invariant forall a, b :: a in doomed && b in from - doomed ==> rows[a].ts <= rows[b].ts
        decreases |from| - |doomed|
      {
        var next := FirstOf(from - doomed);
        CardinalityMonotone(doomed + {next}, from);
        doomed := doomed + {next};
      }
      CardinalityMonotone(doomed, from);
      FewerRows(storage.files, rows, doomed);
      rows := rows - doomed;
    }

    /** A row with the smallest timestamp. */
    method FirstOf(ids: set<nat>) returns (id: nat)
      requires ids != {} && ids <= rows.Keys
      ensures id in ids && forall b :: b in ids ==> rows[id].ts <= rows[b].ts
    {
      id :| id in ids;
      var rest := ids - {id};
      while rest != {}
        invariant id in ids && rest <= ids
        invariant forall b :: b in ids - rest ==> rows[id].ts <= rows[b].ts
      {
        var other :| other in rest;
        if rows[other].ts < rows[id].ts {
          id := other;
        }
        rest := rest - {other};
      }
    }
  }

  /** The table after the inserts of the first i records, paired with their pointers by index. */
  function WithRows(rows: map<nat, Row>, logs: seq<LogRecord>, ids: seq<nat>, ps: seq<Pointer>, i: nat): map<nat, Row>
    requires i <= |logs| == |ids| <= |ps| && forall j :: 0 <= j < |logs| ==> logs[j].at.Some?
  {
    if i == 0 then rows
    else WithRows(rows, logs, ids, ps, i - 1)[ids[i - 1] := Row(Column(logs[i - 1].at.value), logs[i - 1], ps[i - 1])]
  }

  lemma WithRowsStep(rows: map<nat, Row>, logs: seq<LogRecord>, ids: seq<nat>, ps: seq<Pointer>, i: nat)
    requires i <= |logs| == |ids| <= |ps| && forall j :: 0 <= j < |logs| ==> logs[j].at.Some?
    ensures WithRows(rows, logs, ids, ps, 0) == rows
    ensures i < |logs| ==>
              var row := Row(Column(logs[i].at.value), logs[i], ps[i]);
              WithRows(rows, logs, ids, ps, i + 1) == WithRows(rows, logs, ids, ps, i)[ids[i] := row]
  {
  }

  lemma OneMoreRow(files: Files, rows: map<nat, Row>, id: nat, row: Row)
    requires AllKeyed(rows) && RowOk(files, row)
    ensures AllKeyed(rows[id := row]) && Dangling(files, rows[id := row]) <= Dangling(files, rows)
  {
    assert Keyed(row);
    hide RowOk, Keyed;
  }

  /** Of the surviving rows, those that dangled before and the stranded ones. */
  function AfterSweep(dangled: set<nat>, rows: map<nat, Row>, cutoff: int): set<nat> {
    set id | id in rows && (id in dangled || Stranded(rows[id], cutoff))
  }

  lemma SurvivingDangle(dangled: set<nat>, rows: map<nat, Row>, gone: set<nat>, cutoff: int)
    ensures AfterSweep(dangled - gone, rows - gone, cutoff) == AfterSweep(dangled, rows - gone, cutoff)
  {
    hide Stranded;
  }

  lemma PruneStrands(files: Files, rows: map<nat, Row>, cutoff: int)
    requires AllKeyed(rows) && Old(rows, cutoff) == {}
    ensures Dangling(Kept(files, cutoff), rows) == AfterSweep(Dangling(files, rows), rows, cutoff)
  {
    forall id | id in rows
      ensures RowOk(Kept(files, cutoff), rows[id]) <==> RowOk(files, rows[id]) && !Stranded(rows[id], cutoff)
    {
      assert id !in Old(rows, cutoff);
      PrunedRow(files, rows[id], cutoff);
    }
    hide RowOk, Stranded, Kept;
  }

  lemma PrunedRow(files: Files, row: Row, cutoff: int)
    requires Keyed(row) && 1000 * cutoff <= row.ts
    ensures RowOk(Kept(files, cutoff), row) <==> RowOk(files, row) && !Stranded(row, cutoff)
  {
    StrandedIff(row, cutoff);
    hide Expired, DayParts, IsColumn, Stranded, DayEnd;
    if RowOk(files, row) {
      RowSurvivesIff(files, row, cutoff);
    } else {
      assert |row.record.json + [10]| > 0;
    }
  }

  lemma AppendKeepsRows(files: Files, logs: seq<LogRecord>, files': Files, ps: seq<Pointer>, rows: map<nat, Row>)
    requires Written(files, logs, SUFFIX, files', ps)
    ensures Dangling(files', rows) <= Dangling(files, rows) && |ps| == |logs|
  {
    forall id | id in rows && RowOk(files, rows[id]) ensures RowOk(files', rows[id]) {
      RowAppended(files, logs, files', ps, rows[id]);
    }
  }

  lemma RowAppended(files: Files, logs: seq<LogRecord>, files': Files, ps: seq<Pointer>, row: Row)
    requires Written(files, logs, SUFFIX, files', ps) && RowOk(files, row)
    ensures RowOk(files', row)
  {
    hide Keyed, LineFor, KeyOf, Upto;
    var p, k := row.pointer, row.pointer.key;
    assert Content(files', k) == Content(files, k) + Upto(logs, SUFFIX, k, |logs|);
    hide Written, Content;
    SliceOfPrefix(Content(files, k), Content(files', k), p.offset, p.offset + p.bytes);
  }

  lemma PointerIsGood(files: Files, logs: seq<LogRecord>, files': Files, ps: seq<Pointer>, i: nat)
    requires Written(files, logs, SUFFIX, files', ps) && i < |logs| && logs[i].at.Some?
    ensures i < |ps| && RowOk(files', Row(Column(logs[i].at.value), logs[i], ps[i]))
  {
    WrittenAt(files, logs, SUFFIX, files', ps, i);
    PointerInBatch(files, logs, SUFFIX, files', ps, i);
    hide Written, LineFor, Upto, ReadAt;
  }
}
