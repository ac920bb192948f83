/**
 Dimension counts per hour and host. The names of a dimension without a natural bound are limited to
 300 an hour and the rest share one name; no request is lost by that.
 */
module StatDims {
  import opened Folds
  import opened Sets
  import opened StatTotals

  const COUNTRY := 1
  const PROVINCE := 2
  const OS := 3
  const BROWSER := 4
  const STATUS := 5
  const REFERER_HOST := 6
  const REFERER_URL := 7
  const PATH := 8

  const KEY_LIMIT := 300
  const OTHER := "__other__"

  predicate Unbounded(kind: int) { kind == REFERER_HOST || kind == REFERER_URL || kind == PATH }

  /** Every request has a value in these dimensions. */
  predicate Always(kind: int) {
    kind == COUNTRY || kind == OS || kind == BROWSER || kind == STATUS || kind == PATH
  }

  datatype ColumnKey = ColumnKey(start: int, host: string, kind: int)
  datatype DimKey = DimKey(column: ColumnKey, key: string)
  datatype DimAgg = DimAgg(cnt: int, blocked: int) {
    function Plus(o: DimAgg): DimAgg { DimAgg(cnt + o.cnt, blocked + o.blocked) }

    /** The counter of all requests, or the counter of the refused ones. */
    function Get(refused: bool): int { if refused then blocked else cnt }
  }
  const NO_DIM := DimAgg(0, 0)

  type DimTable = map<DimKey, DimAgg>
  type Tracker = map<ColumnKey, set<string>>

  /** The stored counts and the names already seen, which outlive a batch. */
  datatype Dims = Dims(table: DimTable, tracker: Tracker)

  /** One call of `AccumulateDim`. */
  datatype DimEvent = DimEvent(column: ColumnKey, key: string, blocked: bool)

  function DimCell(m: DimTable, k: DimKey): DimAgg {
    if k in m then m[k] else NO_DIM
  }

  function PutDim(m: DimTable, k: DimKey, row: DimAgg): DimTable { m[k := DimCell(m, k).Plus(row)] }

  /** One request counted under `k`. */
  function CreditDim(m: DimTable, k: DimKey, blocked: bool): DimTable {
    PutDim(m, k, DimAgg(1, One(blocked)))
  }

  // ---------------------------------------------------------------- the name limit

  /** The tracker holds names of one hour at a time. */
  ghost predicate OneHour(tracker: Tracker) {
    forall a, b :: a in tracker && b in tracker ==> a.start == b.start
  }

  /** The tracker once `column` is about to be used: another hour's names are dropped. */
  ghost function Opened(tracker: Tracker, column: ColumnKey): Tracker {
    if column in tracker then tracker
    else if exists c <- tracker :: c.start != column.start then map[column := {}]
    else tracker[column := {}]
  }

  /** The name under which `key` is stored. */
  ghost function StoredKey(tracker: Tracker, column: ColumnKey, key: string): string {
    if !Unbounded(column.kind) then key
    else
      var names := Opened(tracker, column)[column];
      if key in names || |names| < KEY_LIMIT then key else OTHER
  }

  ghost function NextTracker(tracker: Tracker, column: ColumnKey, key: string): Tracker {
    if !Unbounded(column.kind) then tracker
    else
      var ready := Opened(tracker, column);
      if |ready[column]| < KEY_LIMIT then ready[column := ready[column] + {key}] else ready
  }

  lemma TrackerStaysInOneHour(tracker: Tracker, column: ColumnKey, key: string)
    requires OneHour(tracker)
    ensures OneHour(NextTracker(tracker, column, key))
  {
  }

  // ---------------------------------------------------------------- recording

  ghost function RecordDim(d: Dims, ev: DimEvent): Dims {
    Dims(CreditDim(d.table, DimKey(ev.column, StoredKey(d.tracker, ev.column, ev.key)), ev.blocked),
         NextTracker(d.tracker, ev.column, ev.key))
  }

  ghost function RecordDims(d: Dims, evs: seq<DimEvent>): Dims { Fold(RecordDim, d, evs) }

  /** The upsert at one key: pointwise addition. */
  ghost predicate DimUpsertedAt(store: DimTable, batch: DimTable, result: DimTable, j: DimKey) {
    && (j in result <==> j in store || j in batch)
    && DimCell(result, j) == DimCell(store, j).Plus(DimCell(batch, j))
  }

  /** `result` is `store` after the rows of `batch` were upserted. */
  ghost predicate DimsUpserted(store: DimTable, batch: DimTable, result: DimTable) {
    forall j {:trigger DimUpsertedAt(store, batch, result, j)} :: DimUpsertedAt(store, batch, result, j)
  }

  lemma UpsertIsUnique(store: DimTable, batch: DimTable, r: DimTable, s: DimTable)
    requires DimsUpserted(store, batch, r) && DimsUpserted(store, batch, s)
    ensures r == s
  {
    forall j ensures (j in r <==> j in s) && DimCell(r, j) == DimCell(s, j) {
      assert DimUpsertedAt(store, batch, r, j) && DimUpsertedAt(store, batch, s, j);
    }
    forall j | j in r ensures r[j] == s[j] { assert DimCell(r, j) == DimCell(s, j); }
  }

  lemma PlusAssociates(a: DimAgg, b: DimAgg, c: DimAgg)
    ensures a.Plus(b).Plus(c) == a.Plus(b.Plus(c))
  {
  }

  lemma UpsertTheKey(store: DimTable, batch: DimTable, result: DimTable, k: DimKey, blocked: bool)
    requires DimUpsertedAt(store, batch, result, k)
    ensures DimUpsertedAt(store, CreditDim(batch, k, blocked), CreditDim(result, k, blocked), k)
  {
    PlusAssociates(DimCell(store, k), DimCell(batch, k), DimAgg(1, One(blocked)));
  }

  lemma PutDimElsewhere(m: DimTable, k: DimKey, row: DimAgg, j: DimKey)
    requires j != k
    ensures (j in PutDim(m, k, row) <==> j in m) && DimCell(PutDim(m, k, row), j) == DimCell(m, j)
  {
  }

  lemma OtherCellsStay(m: DimTable, k: DimKey, blocked: bool, j: DimKey)
    requires j != k
    ensures (j in CreditDim(m, k, blocked) <==> j in m) && DimCell(CreditDim(m, k, blocked), j) == DimCell(m, j)
  {
    PutDimElsewhere(m, k, DimAgg(1, One(blocked)), j);
  }

  lemma UpsertAnotherKey(store: DimTable, batch: DimTable, result: DimTable, k: DimKey, blocked: bool, j: DimKey)
    requires DimUpsertedAt(store, batch, result, j) && j != k
    ensures DimUpsertedAt(store, CreditDim(batch, k, blocked), CreditDim(result, k, blocked), j)
  {
    OtherCellsStay(batch, k, blocked, j);
    OtherCellsStay(result, k, blocked, j);
  }

  lemma UpsertAnyKey(store: DimTable, batch: DimTable, result: DimTable, k: DimKey, blocked: bool, j: DimKey)
    requires DimUpsertedAt(store, batch, result, j)
    ensures DimUpsertedAt(store, CreditDim(batch, k, blocked), CreditDim(result, k, blocked), j)
  {
    if j == k {
      UpsertTheKey(store, batch, result, k, blocked);
    } else {
      UpsertAnotherKey(store, batch, result, k, blocked, j);
    }
  }

  lemma UpsertOneDim(store: DimTable, batch: DimTable, result: DimTable, k: DimKey, blocked: bool)
    requires DimsUpserted(store, batch, result)
    ensures DimsUpserted(store, CreditDim(batch, k, blocked), CreditDim(result, k, blocked))
  {
    forall j ensures DimUpsertedAt(store, CreditDim(batch, k, blocked), CreditDim(result, k, blocked), j) {
      assert DimUpsertedAt(store, batch, result, j);
      UpsertAnyKey(store, batch, result, k, blocked, j);
    }
  }

  /** One key of the upsert loop; the keys in `todo` are still as in `store`. */
  ghost predicate DimLoopAt(store: DimTable, rows: DimTable, todo: set<DimKey>, m: DimTable, j: DimKey) {
    if j in todo then (j in m <==> j in store) && DimCell(m, j) == DimCell(store, j)
    else DimUpsertedAt(store, rows, m, j)
  }

  lemma DimLoopStep(store: DimTable, rows: DimTable, todo: set<DimKey>, m: DimTable, k: DimKey, j: DimKey)
    requires k in todo && k in rows && DimLoopAt(store, rows, todo, m, j)
    ensures DimLoopAt(store, rows, todo - {k}, PutDim(m, k, rows[k]), j)
  {
    if j != k { PutDimElsewhere(m, k, rows[k], j); }
  }

  /** Collecting a batch and upserting it is the same as recording straight into the store. */
  lemma {:induction false} DimUpsertCommutes(store: DimTable, tracker: Tracker, evs: seq<DimEvent>)
    ensures var batch, whole := RecordDims(Dims(map[], tracker), evs), RecordDims(Dims(store, tracker), evs);
      batch.tracker == whole.tracker && DimsUpserted(store, batch.table, whole.table)
  {
    if evs == [] {
      forall j ensures DimUpsertedAt(store, map[], store, j) {}
    } else {
      var front, ev := evs[..|evs| - 1], evs[|evs| - 1];
      DimUpsertCommutes(store, tracker, front);
      var batch, whole := RecordDims(Dims(map[], tracker), front), RecordDims(Dims(store, tracker), front);
      UpsertOneDim(store, batch.table, whole.table,
        DimKey(ev.column, StoredKey(batch.tracker, ev.column, ev.key)), ev.blocked);
    }
  }

  // ---------------------------------------------------------------- what a request records

  function Event(e: Entry, host: string, kind: int, key: string): DimEvent {
    DimEvent(ColumnKey(Start(HOUR, e.ts), host, kind), key, e.blocked != 0)
  }

  function GeoEvents(e: Entry, host: string): seq<DimEvent> {
    [Event(e, host, COUNTRY, e.country)] +
    if e.province != "" then [Event(e, host, PROVINCE, e.province)] else []
  }

  function AgentEvents(e: Entry, host: string): seq<DimEvent> {
    [Event(e, host, OS, e.os), Event(e, host, BROWSER, e.browser)]
  }

  function RequestEvents(e: Entry, host: string): seq<DimEvent> {
    [Event(e, host, STATUS, e.statusText), Event(e, host, PATH, e.path)]
  }

  function RefererEvents(e: Entry, host: string): seq<DimEvent> {
    if e.refererHost != "" then
      [Event(e, host, REFERER_HOST, e.refererHost), Event(e, host, REFERER_URL, e.refererUrl)]
    else []
  }

  function HostEvents(e: Entry, host: string): seq<DimEvent> {
    (GeoEvents(e, host) + AgentEvents(e, host)) + (RequestEvents(e, host) + RefererEvents(e, host))
  }

  function EntryEvents(e: Entry): seq<DimEvent> { HostEvents(e, e.host) + HostEvents(e, "") }

  ghost function EventsOf(log: seq<Entry>): seq<DimEvent> { FlatMap(EntryEvents, log) }

  /** What one request adds to the chosen counter. */
  function Gain(blocked: bool, refused: bool): int { if refused then One(blocked) else 1 }

  ghost function CountColumn(evs: seq<DimEvent>, column: ColumnKey, refused: bool): int {
    if evs == [] then 0
    else
      var ev := evs[|evs| - 1];
      CountColumn(evs[..|evs| - 1], column, refused) + if ev.column == column then Gain(ev.blocked, refused) else 0
  }

  lemma {:induction false} CountColumnConcat(a: seq<DimEvent>, b: seq<DimEvent>, column: ColumnKey, refused: bool)
    ensures CountColumn(a + b, column, refused) == CountColumn(a, column, refused) + CountColumn(b, column, refused)
  {
    if b == [] {
      assert a + b == a;
    } else {
      CountColumnConcat(a, b[..|b| - 1], column, refused);
      assert (a + b)[..|a + b| - 1] == a + b[..|b| - 1];
    }
  }

  lemma {:induction false} CountNone(evs: seq<DimEvent>, column: ColumnKey, refused: bool)
    requires forall ev <- evs :: ev.column != column
    ensures CountColumn(evs, column, refused) == 0
  {
    if evs != [] { CountNone(evs[..|evs| - 1], column, refused); }
  }

  lemma CountOne(evs: seq<DimEvent>, column: ColumnKey, refused: bool, i: nat)
    requires i < |evs| && evs[i].column == column
    requires forall j :: 0 <= j < |evs| && j != i ==> evs[j].column != column
    ensures CountColumn(evs, column, refused) == Gain(evs[i].blocked, refused)
  {
    var a, b := evs[..i + 1], evs[i + 1..];
    assert evs == a + b;
    CountColumnConcat(a, b, column, refused);
    CountNone(b, column, refused);
    CountNone(a[..i], column, refused);
  }

  function Measure(refused: bool): Column { if refused then Blocked else Requests }

  /** Where each always-recorded dimension stands among the events of a request. */
  function Position(e: Entry, kind: int): nat
    requires Always(kind)
  {
    var p := if e.province != "" then 1 else 0;
    if kind == COUNTRY then 0 else if kind == OS then p + 1 else if kind == BROWSER then p + 2
    else if kind == STATUS then p + 3 else p + 4
  }

  lemma PositionIsUnique(e: Entry, host: string, kind: int)
    requires Always(kind)
    ensures var evs, i := HostEvents(e, host), Position(e, kind);
      && i < |evs| && evs[i].column.kind == kind
      && forall j :: 0 <= j < |evs| && j != i ==> evs[j].column.kind != kind
  {
  }

  lemma EventsShareRow(e: Entry, host: string)
    ensures forall ev <- HostEvents(e, host) ::
              ev.column.start == Start(HOUR, e.ts) && ev.column.host == host && ev.blocked == (e.blocked != 0)
  {
  }

  /** In an always-recorded dimension a request counts exactly once for each of its rows. */
  lemma RequestCountsOnce(e: Entry, host: string, column: ColumnKey, refused: bool)
    requires Always(column.kind)
    ensures CountColumn(HostEvents(e, host), column, refused) ==
            if Start(HOUR, e.ts) == column.start && host == column.host then Amount(e, Measure(refused)) else 0
  {
    var evs := HostEvents(e, host);
    EventsShareRow(e, host);
    PositionIsUnique(e, host, column.kind);
    if Start(HOUR, e.ts) == column.start && host == column.host {
      var i := Position(e, column.kind);
      assert evs[i] in evs && evs[i].column == column;
      CountOne(evs, column, refused, i);
    } else {
      CountNone(evs, column, refused);
    }
  }

  lemma {:induction false} ColumnCountsRequests(log: seq<Entry>, column: ColumnKey, refused: bool)
    requires Always(column.kind)
    ensures CountColumn(EventsOf(log), column, refused) ==
            Total(log, Measure(refused), HOUR, column.start, column.host)
  {
    if log != [] {
      var e := log[|log| - 1];
      ColumnCountsRequests(log[..|log| - 1], column, refused);
      CountColumnConcat(EventsOf(log[..|log| - 1]), EntryEvents(e), column, refused);
      CountColumnConcat(HostEvents(e, e.host), HostEvents(e, ""), column, refused);
      RequestCountsOnce(e, e.host, column, refused);
      RequestCountsOnce(e, "", column, refused);
    }
  }

  // ---------------------------------------------------------------- sums over the stored names

  /** The count stored under one name of a column. */
  function Stored(table: DimTable, column: ColumnKey, name: string, refused: bool): int {
    DimCell(table, DimKey(column, name)).Get(refused)
  }

  ghost function SumOver(table: DimTable, column: ColumnKey, names: set<string>, refused: bool): int {
    if names == {} then 0
    else
      var n :| n in names;
      Stored(table, column, n, refused) + SumOver(table, column, names - {n}, refused)
  }

  /** The sum does not depend on the order in which names are taken. */
  lemma {:induction false} SumOverTake(table: DimTable, column: ColumnKey, names: set<string>, refused: bool, n: string)
    requires n in names
    ensures SumOver(table, column, names, refused) ==
            Stored(table, column, n, refused) + SumOver(table, column, names - {n}, refused)
    decreases |names|
  {
    var m :| m in names && SumOver(table, column, names, refused) ==
      Stored(table, column, m, refused) + SumOver(table, column, names - {m}, refused);
    if m != n {
      SumOverTake(table, column, names - {m}, refused, n);
      SumOverTake(table, column, names - {n}, refused, m);
      assert names - {m} - {n} == names - {n} - {m};
    }
  }

  lemma {:induction false} SumOverAgrees(a: DimTable, b: DimTable, column: ColumnKey, names: set<string>, refused: bool)
    requires forall n <- names :: Stored(a, column, n, refused) == Stored(b, column, n, refused)
    ensures SumOver(a, column, names, refused) == SumOver(b, column, names, refused)
    decreases |names|
  {
    if names != {} {
      var n :| n in names;
      SumOverTake(a, column, names, refused, n);
      SumOverTake(b, column, names, refused, n);
      SumOverAgrees(a, b, column, names - {n}, refused);
    }
  }

  lemma CellAfterCredit(table: DimTable, k: DimKey, blocked: bool, j: DimKey, refused: bool)
    ensures DimCell(CreditDim(table, k, blocked), j).Get(refused) == DimCell(table, j).Get(refused) +
              if j == k then Gain(blocked, refused) else 0
  {
  }

  lemma StoredAfterCredit(table: DimTable, k: DimKey, blocked: bool, column: ColumnKey, n: string, refused: bool)
    ensures Stored(CreditDim(table, k, blocked), column, n, refused) == Stored(table, column, n, refused) +
              if DimKey(column, n) == k then Gain(blocked, refused) else 0
  {
    CellAfterCredit(table, k, blocked, DimKey(column, n), refused);
  }

  lemma SumAfterCredit(table: DimTable, k: DimKey, blocked: bool, names: set<string>, refused: bool)
    requires k.key in names
    ensures SumOver(CreditDim(table, k, blocked), k.column, names, refused) ==
            SumOver(table, k.column, names, refused) + Gain(blocked, refused)
  {
    var next, rest := CreditDim(table, k, blocked), names - {k.key};
    forall n <- names ensures n != k.key ==>
        Stored(next, k.column, n, refused) == Stored(table, k.column, n, refused) {
      StoredAfterCredit(table, k, blocked, k.column, n, refused);
    }
    SumOverAgrees(table, next, k.column, rest, refused);
    SumOverTake(next, k.column, names, refused, k.key);
    SumOverTake(table, k.column, names, refused, k.key);
    StoredAfterCredit(table, k, blocked, k.column, k.key, refused);
  }

  lemma SumElsewhere(table: DimTable, k: DimKey, blocked: bool, column: ColumnKey, names: set<string>, refused: bool)
    requires k.column != column
    ensures SumOver(CreditDim(table, k, blocked), column, names, refused) == SumOver(table, column, names, refused)
  {
    var next := CreditDim(table, k, blocked);
    forall n <- names ensures Stored(table, column, n, refused) == Stored(next, column, n, refused) {
      StoredAfterCredit(table, k, blocked, column, n, refused);
    }
    SumOverAgrees(table, next, column, names, refused);
  }

  /** `names` contains every name stored in the column. */
  ghost predicate Covering(table: DimTable, column: ColumnKey, names: set<string>) {
    forall n :: DimKey(column, n) in table ==> n in names
  }

  /** What recording one event does to the sum over the names of a column. */
  lemma SumAfterOne(d: Dims, ev: DimEvent, column: ColumnKey, names: set<string>, refused: bool)
    requires Covering(RecordDim(d, ev).table, column, names)
    ensures SumOver(RecordDim(d, ev).table, column, names, refused) ==
            SumOver(d.table, column, names, refused) + if ev.column == column then Gain(ev.blocked, refused) else 0
  {
    var k := DimKey(ev.column, StoredKey(d.tracker, ev.column, ev.key));
    assert RecordDim(d, ev).table == CreditDim(d.table, k, ev.blocked);
    if ev.column == column {
      assert k in RecordDim(d, ev).table && DimKey(column, k.key) == k;
      SumAfterCredit(d.table, k, ev.blocked, names, refused);
    } else {
      SumElsewhere(d.table, k, ev.blocked, column, names, refused);
    }
  }

  /** A recording takes no name out of the table. */
  lemma CoveringBefore(d: Dims, ev: DimEvent, column: ColumnKey, names: set<string>)
    requires Covering(RecordDim(d, ev).table, column, names)
    ensures Covering(d.table, column, names)
  {
  }

  lemma {:induction false} SumAfterAll(d: Dims, evs: seq<DimEvent>, column: ColumnKey, names: set<string>, refused: bool)
    requires Covering(RecordDims(d, evs).table, column, names)
    ensures SumOver(RecordDims(d, evs).table, column, names, refused) ==
            SumOver(d.table, column, names, refused) + CountColumn(evs, column, refused)
  {
    if evs != [] {
      var front, ev := evs[..|evs| - 1], evs[|evs| - 1];
      CoveringBefore(RecordDims(d, front), ev, column, names);
      SumAfterAll(d, front, column, names, refused);
      SumAfterOne(RecordDims(d, front), ev, column, names, refused);
    }
  }

  lemma {:induction false} CoveringAtFirst(d: Dims, evs: seq<DimEvent>, column: ColumnKey, names: set<string>)
    requires Covering(RecordDims(d, evs).table, column, names)
    ensures Covering(d.table, column, names)
  {
    if evs != [] {
      var front, ev := evs[..|evs| - 1], evs[|evs| - 1];
      CoveringBefore(RecordDims(d, front), ev, column, names);
      CoveringAtFirst(d, front, column, names);
    }
  }

  ghost predicate ColumnOk(table: DimTable, log: seq<Entry>, column: ColumnKey, names: set<string>, refused: bool) {
    Always(column.kind) && Covering(table, column, names) ==>
      SumOver(table, column, names, refused) == Total(log, Measure(refused), HOUR, column.start, column.host)
  }

  /** In each always-recorded dimension the names, `__other__` included, add up to the hour's requests. */
  ghost predicate ColumnsOk(table: DimTable, log: seq<Entry>) {
    forall column, names, refused {:trigger ColumnOk(table, log, column, names, refused)} ::
      ColumnOk(table, log, column, names, refused)
  }

  /** Conservation holds whatever the tracker remembers. */
  lemma ColumnsAfterBatch(d: Dims, log: seq<Entry>, batch: seq<Entry>)
    requires ColumnsOk(d.table, log)
    ensures ColumnsOk(RecordDims(d, EventsOf(batch)).table, log + batch)
  {
    var next := RecordDims(d, EventsOf(batch)).table;
    forall column, names, refused ensures ColumnOk(next, log + batch, column, names, refused) {
      if Always(column.kind) && Covering(next, column, names) {
        CoveringAtFirst(d, EventsOf(batch), column, names);
        SumAfterAll(d, EventsOf(batch), column, names, refused);
        assert ColumnOk(d.table, log, column, names, refused);
        ColumnCountsRequests(batch, column, refused);
        TotalConcat(log, batch, Measure(refused), HOUR, column.start, column.host);
      }
    }
  }

  // ---------------------------------------------------------------- the limit itself

  /** The names stored in the column, without the overflow name. */
  ghost function NamesOf(table: DimTable, column: ColumnKey): set<string> {
    set k <- table | k.column == column && k.key != OTHER :: k.key
  }

  lemma NameIsStored(table: DimTable, column: ColumnKey, n: string)
    ensures n in NamesOf(table, column) <==> n != OTHER && DimKey(column, n) in table
  {
    if n != OTHER && DimKey(column, n) in table {
      assert DimKey(column, n).key == n;
    }
  }

  /** No name of the column other than the overflow name lies outside `names`. */
  ghost predicate NamedWithin(table: DimTable, column: ColumnKey, names: set<string>) {
    forall n :: n != OTHER && DimKey(column, n) in table ==> n in names
  }

  /** The limit for one column, seen from hour `hour` on. */
  ghost predicate ColumnLimited(d: Dims, hour: int, column: ColumnKey) {
    && (column in d.tracker ==> Bounds(d.table, column, d.tracker[column]))
    && (column.start >= hour && column !in d.tracker ==> NamedWithin(d.table, column, {}))
    && exists names :: Bounds(d.table, column, names)
  }

  ghost predicate Bounds(table: DimTable, column: ColumnKey, names: set<string>) {
    NamedWithin(table, column, names) && |names| <= KEY_LIMIT
  }

  /** The tracker holds names of one hour, not after `hour`. */
  ghost predicate TrackerUpTo(tracker: Tracker, hour: int) {
    OneHour(tracker) && forall c <- tracker :: c.start <= hour
  }

  ghost predicate Limited(d: Dims, hour: int) {
    && TrackerUpTo(d.tracker, hour)
    && forall column: ColumnKey {:trigger ColumnLimited(d, hour, column)} ::
         Unbounded(column.kind) ==> ColumnLimited(d, hour, column)
  }

  lemma NamedAfterCredit(table: DimTable, k: DimKey, blocked: bool, names: set<string>)
    requires NamedWithin(table, k.column, names) && (k.key == OTHER || k.key in names)
    ensures NamedWithin(CreditDim(table, k, blocked), k.column, names)
  {
    var next := CreditDim(table, k, blocked);
    forall n | n != OTHER && DimKey(k.column, n) in next ensures n in names {
      assert DimKey(k.column, n) == k ==> n == k.key;
    }
  }

  lemma NamedElsewhere(table: DimTable, k: DimKey, blocked: bool, column: ColumnKey, names: set<string>)
    requires NamedWithin(table, column, names) && k.column != column
    ensures NamedWithin(CreditDim(table, k, blocked), column, names)
  {
    var next := CreditDim(table, k, blocked);
    forall n | n != OTHER && DimKey(column, n) in next ensures n in names {
      assert DimKey(column, n).column == column;
    }
  }

  /** The names open for a column grow to hold the stored name, within the limit. */
  lemma TrackerOfOwnColumn(tracker: Tracker, column: ColumnKey, key: string)
    requires Unbounded(column.kind) && |Opened(tracker, column)[column]| <= KEY_LIMIT
    ensures var next, stored := NextTracker(tracker, column, key), StoredKey(tracker, column, key);
      && column in next && Opened(tracker, column)[column] <= next[column] && |next[column]| <= KEY_LIMIT
      && (stored == OTHER || stored in next[column])
  {
    var names := Opened(tracker, column)[column];
    assert key in names ==> names + {key} == names;
  }

  lemma TrackerOfOtherColumn(tracker: Tracker, hour: int, used: ColumnKey, key: string, column: ColumnKey)
    requires TrackerUpTo(tracker, hour) && hour <= used.start && column != used
    ensures var next := NextTracker(tracker, used, key);
      && (column in next ==> column in tracker && next[column] == tracker[column])
      && (column.start >= used.start && column !in next ==> column !in tracker)
  {
  }

  lemma TrackerMovesOn(tracker: Tracker, hour: int, used: ColumnKey, key: string)
    requires TrackerUpTo(tracker, hour) && hour <= used.start
    ensures TrackerUpTo(NextTracker(tracker, used, key), used.start)
  {
  }

  lemma OpenedNames(d: Dims, hour: int, column: ColumnKey)
    requires ColumnLimited(d, hour, column) && hour <= column.start
    ensures Bounds(d.table, column, Opened(d.tracker, column)[column])
  {
  }

  lemma BoundsAfterCredit(table: DimTable, k: DimKey, blocked: bool, names: set<string>, wider: set<string>)
    requires Bounds(table, k.column, names) && names <= wider && |wider| <= KEY_LIMIT
    requires k.key == OTHER || k.key in wider
    ensures Bounds(CreditDim(table, k, blocked), k.column, wider)
  {
    assert NamedWithin(table, k.column, wider);
    NamedAfterCredit(table, k, blocked, wider);
  }

  lemma OwnColumnStep(d: Dims, hour: int, ev: DimEvent)
    requires Unbounded(ev.column.kind) && ColumnLimited(d, hour, ev.column) && hour <= ev.column.start
    ensures ColumnLimited(RecordDim(d, ev), ev.column.start, ev.column)
  {
    var column := ev.column;
    var names, k := Opened(d.tracker, column)[column], DimKey(column, StoredKey(d.tracker, column, ev.key));
    OpenedNames(d, hour, column);
    TrackerOfOwnColumn(d.tracker, column, ev.key);
    BoundsAfterCredit(d.table, k, ev.blocked, names, NextTracker(d.tracker, column, ev.key)[column]);
  }

  lemma BoundsElsewhere(table: DimTable, k: DimKey, blocked: bool, column: ColumnKey, names: set<string>)
    requires k.column != column
    ensures NamedWithin(table, column, names) ==> NamedWithin(CreditDim(table, k, blocked), column, names)
    ensures Bounds(table, column, names) ==> Bounds(CreditDim(table, k, blocked), column, names)
  {
    if NamedWithin(table, column, names) { NamedElsewhere(table, k, blocked, column, names); }
  }

  lemma OtherColumnStep(d: Dims, hour: int, ev: DimEvent, column: ColumnKey)
    requires TrackerUpTo(d.tracker, hour) && ColumnLimited(d, hour, column) && hour <= ev.column.start
    requires column != ev.column
    ensures ColumnLimited(RecordDim(d, ev), ev.column.start, column)
  {
    var k := DimKey(ev.column, StoredKey(d.tracker, ev.column, ev.key));
    TrackerOfOtherColumn(d.tracker, hour, ev.column, ev.key, column);
    if column in d.tracker { BoundsElsewhere(d.table, k, ev.blocked, column, d.tracker[column]); }
    BoundsElsewhere(d.table, k, ev.blocked, column, {});
    var bound :| Bounds(d.table, column, bound);
    BoundsElsewhere(d.table, k, ev.blocked, column, bound);
  }

  /** From `hour` on, the hours of the limited dimensions never go back. */
  ghost predicate HoursInOrder(evs: seq<DimEvent>, hour: int) {
    && (forall ev <- evs :: Unbounded(ev.column.kind) ==> hour <= ev.column.start)
    && forall i, j :: 0 <= i < j < |evs| && Unbounded(evs[i].column.kind) && Unbounded(evs[j].column.kind) ==>
         evs[i].column.start <= evs[j].column.start
  }

  ghost function LastHour(evs: seq<DimEvent>, hour: int): int {
    if evs == [] then hour
    else if Unbounded(evs[|evs| - 1].column.kind) then evs[|evs| - 1].column.start
    else LastHour(evs[..|evs| - 1], hour)
  }

  lemma {:induction false} LastHourIsBefore(evs: seq<DimEvent>, hour: int, bound: int)
    requires hour <= bound && forall ev <- evs :: Unbounded(ev.column.kind) ==> ev.column.start <= bound
    ensures LastHour(evs, hour) <= bound
  {
    if evs != [] { LastHourIsBefore(evs[..|evs| - 1], hour, bound); }
  }

  lemma LimitedStep(d: Dims, hour: int, ev: DimEvent)
    requires Limited(d, hour) && Unbounded(ev.column.kind) && hour <= ev.column.start
    ensures Limited(RecordDim(d, ev), ev.column.start)
  {
    TrackerMovesOn(d.tracker, hour, ev.column, ev.key);
    forall column: ColumnKey | Unbounded(column.kind) ensures ColumnLimited(RecordDim(d, ev), ev.column.start, column) {
      assert ColumnLimited(d, hour, column);
      if column == ev.column {
        OwnColumnStep(d, hour, ev);
      } else {
        OtherColumnStep(d, hour, ev, column);
      }
    }
  }

  /** Recording in a dimension without a limit leaves the limited ones alone. */
  lemma BoundedStep(d: Dims, hour: int, ev: DimEvent)
    requires Limited(d, hour) && !Unbounded(ev.column.kind)
    ensures Limited(RecordDim(d, ev), hour)
  {
    var k := DimKey(ev.column, StoredKey(d.tracker, ev.column, ev.key));
    forall column: ColumnKey | Unbounded(column.kind) ensures ColumnLimited(RecordDim(d, ev), hour, column) {
      assert ColumnLimited(d, hour, column);
      if column in d.tracker { BoundsElsewhere(d.table, k, ev.blocked, column, d.tracker[column]); }
      BoundsElsewhere(d.table, k, ev.blocked, column, {});
      var bound :| Bounds(d.table, column, bound);
      BoundsElsewhere(d.table, k, ev.blocked, column, bound);
    }
  }

  lemma {:induction false} LimitedAfterAll(d: Dims, hour: int, evs: seq<DimEvent>)
    requires Limited(d, hour) && HoursInOrder(evs, hour)
    ensures Limited(RecordDims(d, evs), LastHour(evs, hour))
  {
    if evs != [] {
      var front, ev := evs[..|evs| - 1], evs[|evs| - 1];
      assert forall e <- front :: e in evs;
      LimitedAfterAll(d, hour, front);
      if Unbounded(ev.column.kind) {
        assert ev in evs;
        LastHourIsBefore(front, hour, ev.column.start);
        LimitedStep(RecordDims(d, front), LastHour(front, hour), ev);
      } else {
        BoundedStep(RecordDims(d, front), LastHour(front, hour), ev);
      }
    }
  }

  /** What a run that starts with nothing has recorded. */
  ghost function Recorded(evs: seq<DimEvent>): Dims { RecordDims(Dims(map[], map[]), evs) }

  /** While hours never go back, a column stores at most 300 names besides the overflow name. */
  lemma NamesAreLimited(evs: seq<DimEvent>, hour: int, column: ColumnKey)
    requires Unbounded(column.kind) && HoursInOrder(evs, hour)
    ensures |NamesOf(Recorded(evs).table, column)| <= KEY_LIMIT
  {
    var start := Dims(map[], map[]);
    forall c ensures ColumnLimited(start, hour, c) { assert Bounds(start.table, c, {}); }
    LimitedAfterAll(start, hour, evs);
    assert ColumnLimited(Recorded(evs), LastHour(evs, hour), column);
    var bound :| Bounds(Recorded(evs).table, column, bound);
    forall n <- NamesOf(Recorded(evs).table, column) ensures n in bound {
      NameIsStored(Recorded(evs).table, column, n);
    }
    SubsetIsSmaller(NamesOf(Recorded(evs).table, column), bound);
  }

  // ---------------------------------------------------------------- when the limit is passed

  lemma NamesAfterCredit(table: DimTable, k: DimKey, blocked: bool, column: ColumnKey)
    ensures NamesOf(CreditDim(table, k, blocked), column) ==
            NamesOf(table, column) + if k.column == column && k.key != OTHER then {k.key} else {}
  {
    var next := CreditDim(table, k, blocked);
    forall n ensures n in NamesOf(next, column) <==>
        n in NamesOf(table, column) || (k.column == column && k.key != OTHER && n == k.key) {
      NameIsStored(next, column, n);
      NameIsStored(table, column, n);
      assert DimKey(column, n) == k <==> k.column == column && n == k.key;
    }
  }

  /** The tracker knows the name, or fewer than 300 names of the column. */
  ghost predicate Admits(tracker: Tracker, column: ColumnKey, key: string) {
    column !in tracker || |tracker[column]| < KEY_LIMIT || key in tracker[column]
  }

  /** The recording brings a new name to a column with 300 stored names, and the tracker lets it through. */
  ghost predicate Overflows(d: Dims, ev: DimEvent) {
    var names := NamesOf(d.table, ev.column);
    && Unbounded(ev.column.kind) && |names| >= KEY_LIMIT
    && Adds(names, ev.key) && Admits(d.tracker, ev.column, ev.key)
  }

  /** The recording stores a name that was not stored before. */
  predicate Adds(names: set<string>, stored: string) { stored != OTHER && stored !in names }

  lemma AdmittedIsStored(tracker: Tracker, column: ColumnKey, key: string)
    requires Unbounded(column.kind)
    ensures StoredKey(tracker, column, key) == if Admits(tracker, column, key) then key else OTHER
  {
  }

  lemma InsertCounts(names: set<string>, stored: string)
    ensures |names + if stored != OTHER then {stored} else {}| == if Adds(names, stored) then |names| + 1 else |names|
  {
    if stored != OTHER && stored in names {
      assert names + {stored} == names;
    }
    assert names + {} == names;
  }

  lemma NamesElsewhere(d: Dims, ev: DimEvent, column: ColumnKey)
    requires ev.column != column
    ensures NamesOf(RecordDim(d, ev).table, column) == NamesOf(d.table, column)
  {
    NamesAfterCredit(d.table, DimKey(ev.column, StoredKey(d.tracker, ev.column, ev.key)), ev.blocked, column);
  }

  /** What one recording makes of the names of its column. */
  lemma NamesAfterRecord(d: Dims, ev: DimEvent)
    requires Unbounded(ev.column.kind)
    ensures var names := NamesOf(d.table, ev.column);
      |NamesOf(RecordDim(d, ev).table, ev.column)| ==
        if Adds(names, ev.key) && Admits(d.tracker, ev.column, ev.key) then |names| + 1 else |names|
  {
    var stored := StoredKey(d.tracker, ev.column, ev.key);
    NamesAfterCredit(d.table, DimKey(ev.column, stored), ev.blocked, ev.column);
    InsertCounts(NamesOf(d.table, ev.column), stored);
    AdmittedIsStored(d.tracker, ev.column, ev.key);
  }

  ghost predicate ColumnWithin(d: Dims, column: ColumnKey) {
    Unbounded(column.kind) ==> |NamesOf(d.table, column)| <= KEY_LIMIT
  }

  ghost predicate WithinLimit(d: Dims) {
    forall column {:trigger ColumnWithin(d, column)} :: ColumnWithin(d, column)
  }

  lemma WithinFromCounts(d: Dims, next: Dims, ev: DimEvent)
    requires var names := NamesOf(d.table, ev.column);
      |NamesOf(next.table, ev.column)| ==
        if Adds(names, ev.key) && Admits(d.tracker, ev.column, ev.key) then |names| + 1 else |names|
    requires Unbounded(ev.column.kind)
    ensures ColumnWithin(next, ev.column) <==> ColumnWithin(d, ev.column) && !Overflows(d, ev)
  {
  }

  lemma OwnColumnAfterRecord(d: Dims, ev: DimEvent)
    ensures ColumnWithin(RecordDim(d, ev), ev.column) <==> ColumnWithin(d, ev.column) && !Overflows(d, ev)
  {
    if Unbounded(ev.column.kind) {
      NamesAfterRecord(d, ev);
      WithinFromCounts(d, RecordDim(d, ev), ev);
    }
  }

  /** A recording takes a column past the limit exactly when it overflows. */
  lemma LimitAfterRecord(d: Dims, ev: DimEvent)
    ensures WithinLimit(RecordDim(d, ev)) <==> WithinLimit(d) && !Overflows(d, ev)
  {
    var next := RecordDim(d, ev);
    OwnColumnAfterRecord(d, ev);
    forall column | column != ev.column ensures ColumnWithin(next, column) <==> ColumnWithin(d, column) {
      NamesElsewhere(d, ev, column);
    }
    assert WithinLimit(next) ==> ColumnWithin(next, ev.column);
    assert WithinLimit(d) ==> ColumnWithin(d, ev.column);
  }

  /** The recording at `i` overflows. */
  ghost predicate OverflowsAt(d: Dims, evs: seq<DimEvent>, i: nat)
    requires i < |evs|
  {
    Overflows(RecordDims(d, evs[..i]), evs[i])
  }

  ghost predicate NoneOverflows(d: Dims, evs: seq<DimEvent>) {
    forall i :: 0 <= i < |evs| ==> !OverflowsAt(d, evs, i)
  }

  lemma NoneOverflowsNext(d: Dims, evs: seq<DimEvent>, ev: DimEvent)
    ensures NoneOverflows(d, evs + [ev]) <==> NoneOverflows(d, evs) && !Overflows(RecordDims(d, evs), ev)
  {
    var all := evs + [ev];
    TakeAll(evs);
    forall i | 0 <= i < |evs| ensures OverflowsAt(d, all, i) == OverflowsAt(d, evs, i) {
      assert all[..i] == evs[..i];
    }
    assert all[..|evs|] == evs;
    assert OverflowsAt(d, all, |evs|) == Overflows(RecordDims(d, evs), ev);
  }

  /**
   Over a run from any state, with nothing stored, after a restart or after lost batches, every limited column
   keeps to 300 names exactly when it did at the start and no recording overflows.
   */
  lemma {:induction false} LimitHoldsIff(d: Dims, evs: seq<DimEvent>)
    ensures WithinLimit(RecordDims(d, evs)) <==> WithinLimit(d) && NoneOverflows(d, evs)
  {
    if evs != [] {
      var front, ev := evs[..|evs| - 1], evs[|evs| - 1];
      assert evs == front + [ev];
      LimitHoldsIff(d, front);
      LimitAfterRecord(RecordDims(d, front), ev);
      FoldSnoc(RecordDim, d, front, ev);
      NoneOverflowsNext(d, front, ev);
    }
  }

  // ---------------------------------------------------------------- a run past the limit

  /** A path of `i + 1` slashes. */
  function Name(i: nat): (s: string)
    ensures |s| == i + 1 && s != OTHER
  {
    var s := seq(i + 1, _ => '/');
    assert s[0] != OTHER[0];
    s
  }

  ghost function FirstNames(n: nat): (names: set<string>)
    ensures |names| == n && forall s <- names :: |s| <= n && s != OTHER
  {
    if n == 0 then {} else FirstNames(n - 1) + {Name(n - 1)}
  }

  /** Requests like `e` for the first `n` paths. */
  function Visits(e: Entry, n: nat): seq<Entry> {
    if n == 0 then [] else Visits(e, n - 1) + [e.(path := Name(n - 1))]
  }

  function PathColumn(e: Entry, host: string): ColumnKey { ColumnKey(Start(HOUR, e.ts), host, PATH) }

  lemma RowsOfRequest(e: Entry, host: string)
    ensures forall ev <- HostEvents(e, host) :: ev.column.start == Start(HOUR, e.ts) && ev.column.host == host
    ensures forall ev <- HostEvents(e, host) :: ev.column.kind == PATH ==> ev.key == e.path
  {
    EventsShareRow(e, host);
    forall ev | ev in HostEvents(e, host) && ev.column.kind == PATH ensures ev.key == e.path {
      PositionIsUnique(e, host, PATH);
    }
  }

  /** What one request records: all in its hour, its path and nothing else under the paths. */
  lemma PathOfRequest(e: Entry, host: string)
    requires host == e.host || host == ""
    ensures forall ev <- EntryEvents(e) :: ev.column.start == Start(HOUR, e.ts)
    ensures OneName(EntryEvents(e), PathColumn(e, host), e.path) && Uses(EntryEvents(e), PathColumn(e, host))
  {
    RowsOfRequest(e, e.host);
    RowsOfRequest(e, "");
    PositionIsUnique(e, host, PATH);
    EventsShareRow(e, host);
    var ev := HostEvents(e, host)[Position(e, PATH)];
    assert ev in HostEvents(e, host) && ev in EntryEvents(e);
  }

  /** The names of the column are known, and the tracker is in its hour. */
  ghost predicate Filling(d: Dims, column: ColumnKey, names: set<string>) {
    && NamesOf(d.table, column) == names
    && (if column in d.tracker then d.tracker[column] == names else names == {})
    && forall c <- d.tracker :: c.start == column.start
  }

  lemma FillingOwn(d: Dims, column: ColumnKey, names: set<string>, ev: DimEvent)
    requires Filling(d, column, names) && Unbounded(column.kind) && ev.column == column && ev.key != OTHER
    requires |names + {ev.key}| <= KEY_LIMIT
    ensures Filling(RecordDim(d, ev), column, names + {ev.key})
  {
    AddCounts(names, ev.key);
    assert ev.key in names ==> names + {ev.key} == names;
    assert StoredKey(d.tracker, column, ev.key) == ev.key;
    NamesAfterCredit(d.table, DimKey(column, ev.key), ev.blocked, column);
  }

  lemma TrackerKeepsColumn(tracker: Tracker, column: ColumnKey, used: ColumnKey, key: string)
    requires used != column && used.start == column.start && forall c <- tracker :: c.start == column.start
    ensures var next := NextTracker(tracker, used, key);
      && (column in next <==> column in tracker) && (column in tracker ==> next[column] == tracker[column])
      && forall c <- next :: c.start == column.start
  {
  }

  lemma FillingOther(d: Dims, column: ColumnKey, names: set<string>, ev: DimEvent)
    requires Filling(d, column, names) && ev.column != column && ev.column.start == column.start
    ensures Filling(RecordDim(d, ev), column, names)
  {
    NamesElsewhere(d, ev, column);
    TrackerKeepsColumn(d.tracker, column, ev.column, ev.key);
  }

  /** All recordings in the column are of one name. */
  ghost predicate OneName(evs: seq<DimEvent>, column: ColumnKey, key: string) {
    forall ev <- evs :: ev.column == column ==> ev.key == key
  }

  ghost predicate Uses(evs: seq<DimEvent>, column: ColumnKey) { exists ev :: ev in evs && ev.column == column }

  lemma {:induction false} FillingAll(d: Dims, column: ColumnKey, names: set<string>, evs: seq<DimEvent>, key: string)
    requires Filling(d, column, names) && Unbounded(column.kind) && OneName(evs, column, key) && key != OTHER
    requires |names + {key}| <= KEY_LIMIT && forall ev <- evs :: ev.column.start == column.start
    ensures Filling(RecordDims(d, evs), column, if Uses(evs, column) then names + {key} else names)
  {
    if evs != [] {
      var front, ev := evs[..|evs| - 1], evs[|evs| - 1];
      assert evs == front + [ev];
      FillingAll(d, column, names, front, key);
      var known := if Uses(front, column) then names + {key} else names;
      if ev.column == column {
        assert ev in evs && known + {key} == names + {key};
        FillingOwn(RecordDims(d, front), column, known, ev);
      } else {
        assert Uses(evs, column) <==> Uses(front, column);
        FillingOther(RecordDims(d, front), column, known, ev);
      }
      FoldSnoc(RecordDim, d, front, ev);
    }
  }

  /** What requests record from nothing. */
  ghost function Served(log: seq<Entry>): Dims { Recorded(EventsOf(log)) }

  lemma ServeOneMore(log: seq<Entry>, e: Entry)
    ensures Served(log + [e]) == RecordDims(Served(log), EntryEvents(e))
  {
    assert (log + [e])[..|log|] == log;
    FoldConcat(RecordDim, Dims(map[], map[]), EventsOf(log), EntryEvents(e));
  }

  lemma FillingVisit(log: seq<Entry>, e: Entry, host: string, names: set<string>)
    requires (host == e.host || host == "") && Filling(Served(log), PathColumn(e, host), names)
    requires e.path != OTHER && |names + {e.path}| <= KEY_LIMIT
    ensures Filling(Served(log + [e]), PathColumn(e, host), names + {e.path})
  {
    ServeOneMore(log, e);
    PathOfRequest(e, host);
    FillingAll(Served(log), PathColumn(e, host), names, EntryEvents(e), e.path);
  }

  lemma SameColumn(e: Entry, host: string, path: string)
    ensures PathColumn(e.(path := path), host) == PathColumn(e, host)
  {
  }

  lemma NextName(n: nat)
    ensures FirstNames(n + 1) == FirstNames(n) + {Name(n)} && |FirstNames(n) + {Name(n)}| == n + 1
  {
    assert |FirstNames(n + 1)| == n + 1;
  }

  lemma FilledNext(e: Entry, host: string, n: nat, column: ColumnKey)
    requires (host == e.host || host == "") && n < KEY_LIMIT && column == PathColumn(e, host)
    requires Filling(Served(Visits(e, n)), column, FirstNames(n))
    ensures Filling(Served(Visits(e, n + 1)), column, FirstNames(n + 1))
  {
    NextName(n);
    SameColumn(e, host, Name(n));
    FillingVisit(Visits(e, n), e.(path := Name(n)), host, FirstNames(n));
  }

  lemma {:induction false} Filled(e: Entry, host: string, n: nat, column: ColumnKey)
    requires (host == e.host || host == "") && n <= KEY_LIMIT && column == PathColumn(e, host)
    ensures Filling(Served(Visits(e, n)), column, FirstNames(n))
  {
    if n == 0 {
      assert NamesOf(map[], column) == {};
    } else {
      Filled(e, host, n - 1, column);
      FilledNext(e, host, n - 1, column);
    }
  }

  /** Recordings of another hour leave the names of a column alone. */
  lemma {:induction false} OtherHourLeavesNames(d: Dims, column: ColumnKey, evs: seq<DimEvent>)
    requires forall ev <- evs :: ev.column.start != column.start
    ensures NamesOf(RecordDims(d, evs).table, column) == NamesOf(d.table, column)
  {
    if evs != [] {
      var front, ev := evs[..|evs| - 1], evs[|evs| - 1];
      assert evs == front + [ev];
      OtherHourLeavesNames(d, column, front);
      NamesElsewhere(RecordDims(d, front), ev, column);
      FoldSnoc(RecordDim, d, front, ev);
    }
  }

  /** A recording of another column does not bring a column into the tracker. */
  lemma NotTrackedByOthers(d: Dims, column: ColumnKey, ev: DimEvent)
    requires ev.column != column && column !in d.tracker
    ensures column !in RecordDim(d, ev).tracker
  {
  }

  lemma OtherHourForgets(d: Dims, column: ColumnKey, ev: DimEvent)
    requires Unbounded(ev.column.kind) && ev.column !in d.tracker && ev.column.start != column.start
    requires column in d.tracker
    ensures column !in RecordDim(d, ev).tracker
  {
  }

  /** The tracker is in the hour of the column and does not know `other`, or has forgotten the column. */
  lemma {:induction false} OtherHourOpens(d: Dims, column: ColumnKey, evs: seq<DimEvent>)
    requires forall c <- d.tracker :: c.start == column.start
    requires forall ev <- evs :: ev.column.start != column.start
    requires exists ev :: ev in evs && Unbounded(ev.column.kind)
    ensures column !in RecordDims(d, evs).tracker
  {
    var front, ev := evs[..|evs| - 1], evs[|evs| - 1];
    assert evs == front + [ev];
    FoldSnoc(RecordDim, d, front, ev);
    if e :| e in front && Unbounded(e.column.kind) {
      OtherHourOpens(d, column, front);
      NotTrackedByOthers(RecordDims(d, front), column, ev);
    } else {
      BoundedLeaveTracker(d, front);
      if column in d.tracker { OtherHourForgets(RecordDims(d, front), column, ev); }
    }
  }

  lemma {:induction false} BoundedLeaveTracker(d: Dims, evs: seq<DimEvent>)
    requires forall ev <- evs :: !Unbounded(ev.column.kind)
    ensures RecordDims(d, evs).tracker == d.tracker
  {
    if evs != [] {
      var front, ev := evs[..|evs| - 1], evs[|evs| - 1];
      assert evs == front + [ev];
      BoundedLeaveTracker(d, front);
      FoldSnoc(RecordDim, d, front, ev);
    }
  }

  /** Recordings of one name add nothing but that name. */
  lemma {:induction false} OneNameAtMost(d: Dims, column: ColumnKey, evs: seq<DimEvent>, key: string)
    requires OneName(evs, column, key)
    ensures NamesOf(d.table, column) <= NamesOf(RecordDims(d, evs).table, column) <= NamesOf(d.table, column) + {key}
  {
    if evs != [] {
      var front, ev := evs[..|evs| - 1], evs[|evs| - 1];
      assert evs == front + [ev];
      OneNameAtMost(d, column, front, key);
      var before := RecordDims(d, front);
      var stored := StoredKey(before.tracker, ev.column, ev.key);
      NamesAfterCredit(before.table, DimKey(ev.column, stored), ev.blocked, column);
      FoldSnoc(RecordDim, d, front, ev);
    }
  }

  /** A column the tracker does not know takes the first name that comes. */
  lemma {:induction false} FirstNameIsStored(d: Dims, column: ColumnKey, evs: seq<DimEvent>, key: string)
    requires Unbounded(column.kind) && column !in d.tracker && OneName(evs, column, key) && key != OTHER
    ensures if Uses(evs, column) then key in NamesOf(RecordDims(d, evs).table, column)
            else column !in RecordDims(d, evs).tracker
  {
    if evs != [] {
      var front, ev := evs[..|evs| - 1], evs[|evs| - 1];
      assert evs == front + [ev];
      FirstNameIsStored(d, column, front, key);
      var before := RecordDims(d, front);
      var stored := StoredKey(before.tracker, ev.column, ev.key);
      NamesAfterCredit(before.table, DimKey(ev.column, stored), ev.blocked, column);
      FoldSnoc(RecordDim, d, front, ev);
      if ev.column == column {
        assert ev in evs;
        if !Uses(front, column) { AdmittedIsStored(before.tracker, column, ev.key); }
      } else {
        assert Uses(evs, column) <==> Uses(front, column);
        if !Uses(front, column) { NotTrackedByOthers(before, column, ev); }
      }
    }
  }

  /** A request of another hour leaves the names of the column alone and makes the tracker forget them. */
  lemma AwayVisit(log: seq<Entry>, away: Entry, column: ColumnKey)
    requires Start(HOUR, away.ts) != column.start && forall c <- Served(log).tracker :: c.start == column.start
    ensures NamesOf(Served(log + [away]).table, column) == NamesOf(Served(log).table, column)
    ensures column !in Served(log + [away]).tracker
  {
    ServeOneMore(log, away);
    PathOfRequest(away, "");
    OtherHourLeavesNames(Served(log), column, EntryEvents(away));
    OtherHourOpens(Served(log), column, EntryEvents(away));
  }

  lemma TakesOneName(d: Dims, column: ColumnKey, evs: seq<DimEvent>, key: string)
    requires Unbounded(column.kind) && column !in d.tracker && key != OTHER && OneName(evs, column, key) && Uses(evs, column)
    ensures NamesOf(RecordDims(d, evs).table, column) == NamesOf(d.table, column) + {key}
  {
    OneNameAtMost(d, column, evs, key);
    FirstNameIsStored(d, column, evs, key);
  }

  /** A request whose column is not tracked stores its path whatever is stored there. */
  lemma BackVisit(log: seq<Entry>, e: Entry, host: string)
    requires (host == e.host || host == "") && PathColumn(e, host) !in Served(log).tracker && e.path != OTHER
    ensures NamesOf(Served(log + [e]).table, PathColumn(e, host)) ==
            NamesOf(Served(log).table, PathColumn(e, host)) + {e.path}
  {
    ServeOneMore(log, e);
    PathOfRequest(e, host);
    TakesOneName(Served(log), PathColumn(e, host), EntryEvents(e), e.path);
  }

  /**
   An hour that comes back starts its names over: after requests for 300 paths, one request in another hour
   makes room for a path too many, both for the host and in the total.
   */
  lemma ReturningHourPassesTheLimit(e: Entry, away: Entry, host: string) returns (log: seq<Entry>)
    requires Start(HOUR, away.ts) != Start(HOUR, e.ts) && (host == e.host || host == "")
    ensures log == Visits(e, KEY_LIMIT) + [away] + [e.(path := Name(KEY_LIMIT))]
    ensures |NamesOf(Served(log).table, PathColumn(e, host))| == KEY_LIMIT + 1
  {
    var first, back := Visits(e, KEY_LIMIT), e.(path := Name(KEY_LIMIT));
    Filled(e, host, KEY_LIMIT, PathColumn(e, host));
    AwayVisit(first, away, PathColumn(e, host));
    SameColumn(e, host, back.path);
    BackVisit(first + [away], back, host);
    AddCounts(FirstNames(KEY_LIMIT), back.path);
    log := first + [away] + [back];
  }
}
