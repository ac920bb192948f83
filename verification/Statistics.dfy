/**
 `StatisticsBackgroundService`: batches of requests are counted in dictionaries and written in one
 transaction. However the stream is cut into batches, and whichever batches are lost, the stored
 tables are the counts over the stored log.
 */
module Statistics {
  import opened Folds
  import opened StatTotals
  import opened StatDims
  import opened StatUniques

  /** The service's durable tables and its memory as one value. */
  datatype Db = Db(log: seq<Entry>, buckets: Buckets, dims: Dims, uniques: Uniques)

  ghost function AfterBatch(db: Db, entries: seq<Entry>): Db {
    Db(db.log + entries, CreditAll(db.buckets, FactsOf(entries)), RecordDims(db.dims, EventsOf(entries)),
       RecordUniques(db.uniques, RowsOf(entries)))
  }

  ghost function Batches(db: Db, batches: seq<seq<Entry>>): Db { Fold(AfterBatch, db, batches) }

  lemma BucketsJoin(m: Buckets, a: seq<Entry>, b: seq<Entry>)
    ensures CreditAll(CreditAll(m, FactsOf(a)), FactsOf(b)) == CreditAll(m, FactsOf(a + b))
  {
    FlatMapConcat(EntryFacts, a, b);
    FoldConcat(CreditFact, m, FactsOf(a), FactsOf(b));
  }

  lemma DimsJoin(d: Dims, a: seq<Entry>, b: seq<Entry>)
    ensures RecordDims(RecordDims(d, EventsOf(a)), EventsOf(b)) == RecordDims(d, EventsOf(a + b))
  {
    FlatMapConcat(EntryEvents, a, b);
    FoldConcat(RecordDim, d, EventsOf(a), EventsOf(b));
  }

  lemma UniquesJoin(u: Uniques, a: seq<Entry>, b: seq<Entry>)
    ensures RecordUniques(RecordUniques(u, RowsOf(a)), RowsOf(b)) == RecordUniques(u, RowsOf(a + b))
  {
    FlatMapConcat(EntryRows, a, b);
    FoldConcat(RecordUnique, u, RowsOf(a), RowsOf(b));
  }

  function Same(entries: seq<Entry>): seq<Entry> { entries }

  /** Any way of cutting the stream into batches ends in the same tables and the same memory. */
  lemma {:induction false} SplitDoesNotMatter(db: Db, batches: seq<seq<Entry>>)
    ensures Batches(db, batches) == AfterBatch(db, FlatMap(Same, batches))
  {
    if batches == [] {
      assert db.log + [] == db.log;
    } else {
      var front, last := batches[..|batches| - 1], batches[|batches| - 1];
      SplitDoesNotMatter(db, front);
      var stream := FlatMap(Same, front);
      BucketsJoin(db.buckets, stream, last);
      DimsJoin(db.dims, stream, last);
      UniquesJoin(db.uniques, stream, last);
      ConcatAssociates(db.log, stream, last);
    }
  }

  /** What holds between any two batches; `lost` tells whether a batch was lost. */
  ghost predicate Sound(db: Db, lost: bool) {
    && OneHour(db.dims.tracker)
    && BucketsOk(db.buckets, db.log)
    && ColumnsOk(db.dims.table, db.log)
    && (!lost ==> SkippedStored(db.uniques) && db.uniques.rows == SetOf(RowsOf(db.log)))
  }

  /** The collections of one batch: log rows, bucket rows, dimension rows and unique rows. */
  datatype Batch = Batch(rows: seq<Entry>, buckets: Buckets, dims: DimTable, uniques: set<UniqueRow>)

  /** Every counter grows by one exactly when the request is of its kind, and the time by its duration. */
  ghost predicate Grows(was: Agg, row: Agg, e: Entry) {
    && row.requests == was.requests + 1 && row.elapsedSum == was.elapsedSum + e.elapsedMs
    && row.pageViews == was.pageViews + One(e.isPage)
    && row.blocked == was.blocked + One(e.blocked != 0)
    && row.blocked403 == was.blocked403 + One(e.blocked != 0 && e.blocked != RATE_LIMIT)
    && row.blocked429 == was.blocked429 + One(e.blocked == RATE_LIMIT)
    && row.blockedBot == was.blockedBot + One(e.blocked == BOT_CHALLENGE)
    && row.status2xx == was.status2xx + One(200 <= e.status <= 299)
    && row.status3xx == was.status3xx + One(300 <= e.status <= 399)
    && row.status4xx == was.status4xx + One(400 <= e.status <= 499)
    && row.status5xx == was.status5xx + One(500 <= e.status <= 599)
  }

  lemma AggGrows(was: Agg, e: Entry)
    ensures Grows(was, was.Plus(AggOf(e)), e)
  {
  }

  class Service {
    // tables
    var log: seq<Entry>
    var buckets: Buckets
    var dims: DimTable
    var uniques: set<UniqueRow>
    // memory
    var tracker: Tracker
    var seen: Seen
    /** Whether a batch was lost. */
    ghost var lost: bool

    ghost function Value(): Db
      reads this
    {
      Db(log, buckets, Dims(dims, tracker), Uniques(uniques, seen))
    }

    ghost predicate Valid()
      reads this
    {
      Sound(Value(), lost)
    }

    constructor ()
      ensures Valid() && log == [] && !lost
    {
      log, buckets, dims, uniques, tracker, seen, lost := [], map[], map[], {}, map[], map[], false;
      new;
      forall k, c ensures BucketOk(map[], [], k, c) {}
      forall column, names, refused ensures ColumnOk(map[], [], column, names, refused) {
        EmptySum(column, names, refused);
      }
    }

    static method AccumulateBucket(rows: Buckets, key: BucketKey, e: Entry) returns (next: Buckets)
      ensures next == Credit(rows, key, AggOf(e))
      ensures forall k :: k != key ==> (k in next <==> k in rows) && Cell(next, k) == Cell(rows, k)
      ensures Grows(Cell(rows, key), Cell(next, key), e)
    {
      var isBlocked := e.blocked != 0;
      var agg := Cell(rows, key);
      agg := agg.(requests := agg.requests + 1);
      if e.isPage { agg := agg.(pageViews := agg.pageViews + 1); }
      if isBlocked {
        agg := agg.(blocked := agg.blocked + 1);
        if e.blocked == RATE_LIMIT {
          agg := agg.(blocked429 := agg.blocked429 + 1);
        } else {
          agg := agg.(blocked403 := agg.blocked403 + 1);
        }
        if e.blocked == BOT_CHALLENGE { agg := agg.(blockedBot := agg.blockedBot + 1); }
      }
      match e.status / 100 {
        case 2 => agg := agg.(status2xx := agg.status2xx + 1);
        case 3 => agg := agg.(status3xx := agg.status3xx + 1);
        case 4 => agg := agg.(status4xx := agg.status4xx + 1);
        case 5 => agg := agg.(status5xx := agg.status5xx + 1);
        case _ =>
      }
      agg := agg.(elapsedSum := agg.elapsedSum + e.elapsedMs);
      next := rows[key := agg];
      AggGrows(Cell(rows, key), e);
    }

    method LimitDimKey(column: ColumnKey, key: string) returns (stored: string)
      requires OneHour(tracker)
      modifies this`tracker
      ensures stored == StoredKey(old(tracker), column, key) && tracker == NextTracker(old(tracker), column, key)
      ensures stored == if Unbounded(column.kind) && column in old(tracker) && key !in old(tracker)[column] &&
                           |old(tracker)[column]| >= KEY_LIMIT then OTHER else key
      ensures OneHour(tracker)
    {
      TrackerStaysInOneHour(tracker, column, key);
      if !Unbounded(column.kind) { return key; }
      if column !in tracker {
        if |tracker| > 0 {
          var first :| first in tracker;
          if first.start != column.start { tracker := map[]; }
        }
        tracker := tracker[column := {}];
      }
      assert tracker == Opened(old(tracker), column);
      var names := tracker[column];
      if key in names {
        assert names + {key} == names && tracker[column := names] == tracker;
        return key;
      }
      if |names| >= KEY_LIMIT { return OTHER; }
      tracker := tracker[column := names + {key}];
      return key;
    }

    method AccumulateDim(rows: DimTable, ev: DimEvent) returns (next: DimTable)
      requires OneHour(tracker)
      modifies this`tracker
      ensures OneHour(tracker) && Dims(next, tracker) == RecordDim(Dims(rows, old(tracker)), ev)
    {
      var stored := LimitDimKey(ev.column, ev.key);
      next := CreditDim(rows, DimKey(ev.column, stored), ev.blocked);
    }

    /** Makes room for a day that is not there yet. */
    method Open(day: int)
      modifies this`seen
      ensures seen == OpenDay(old(seen), day)
    {
      if day !in seen {
        seen := map d | d in seen && d >= day - 1 :: seen[d];
        seen := seen[day := map[]];
      }
    }

    method AccumulateUnique(rows: set<UniqueRow>, r: UniqueRow) returns (next: set<UniqueRow>)
      modifies this`seen
      ensures Uniques(next, seen) == RecordUnique(Uniques(rows, old(seen)), r)
    {
      Open(r.day);
      ghost var ready := seen;
      if r.who !in seen[r.day] { seen := seen[r.day := seen[r.day][r.who := {}]]; }
      var hashes := seen[r.day][r.who];
      assert hashes == HashesOf(old(seen), r.day, r.who);
      next := rows;
      if |hashes| >= SEEN_LIMIT {
        next := rows + {r};
      } else if r.hash in hashes {
        assert hashes + {r.hash} == hashes;
      } else {
        seen := seen[r.day := seen[r.day][r.who := hashes + {r.hash}]];
        next := rows + {r};
      }
      assert seen[r.day] ==
        ready[r.day][r.who := if |hashes| < SEEN_LIMIT then hashes + {r.hash} else hashes];
      assert seen == NextSeen(old(seen), r);
    }

    /** The bucket rows of one request for `host`. */
    static method AccumulateBuckets(rows: Buckets, e: Entry, host: string) returns (next: Buckets)
      ensures next == CreditAll(rows, HostFacts(e, host))
    {
      var minute := BucketKey(MINUTE, e.ts / 60 * 60, host);
      var hour := BucketKey(HOUR, e.ts / 3600 * 3600, host);
      next := AccumulateBucket(rows, minute, e);
      next := AccumulateBucket(next, hour, e);
      TwoSteps(CreditFact, rows, (minute, AggOf(e)), (hour, AggOf(e)));
    }

    method AccumulateGeo(rows: DimTable, e: Entry, host: string) returns (next: DimTable)
      requires OneHour(tracker)
      modifies this`tracker
      ensures OneHour(tracker) && Dims(next, tracker) == RecordDims(Dims(rows, old(tracker)), GeoEvents(e, host))
    {
      ghost var start, evs := Dims(rows, tracker), GeoEvents(e, host);
      FoldNext(RecordDim, start, evs, 0);
      next := AccumulateDim(rows, Event(e, host, COUNTRY, e.country));
      if e.province != "" {
        FoldNext(RecordDim, start, evs, 1);
        next := AccumulateDim(next, Event(e, host, PROVINCE, e.province));
      }
      TakeAll(evs);
    }

    method AccumulateAgent(rows: DimTable, e: Entry, host: string) returns (next: DimTable)
      requires OneHour(tracker)
      modifies this`tracker
      ensures OneHour(tracker) && Dims(next, tracker) == RecordDims(Dims(rows, old(tracker)), AgentEvents(e, host))
    {
      TwoSteps(RecordDim, Dims(rows, tracker), Event(e, host, OS, e.os), Event(e, host, BROWSER, e.browser));
      next := AccumulateDim(rows, Event(e, host, OS, e.os));
      next := AccumulateDim(next, Event(e, host, BROWSER, e.browser));
    }

    method AccumulateRequest(rows: DimTable, e: Entry, host: string) returns (next: DimTable)
      requires OneHour(tracker)
      modifies this`tracker
      ensures OneHour(tracker) && Dims(next, tracker) == RecordDims(Dims(rows, old(tracker)), RequestEvents(e, host))
    {
      TwoSteps(RecordDim, Dims(rows, tracker), Event(e, host, STATUS, e.statusText), Event(e, host, PATH, e.path));
      next := AccumulateDim(rows, Event(e, host, STATUS, e.statusText));
      next := AccumulateDim(next, Event(e, host, PATH, e.path));
    }

    method AccumulateReferer(rows: DimTable, e: Entry, host: string) returns (next: DimTable)
      requires OneHour(tracker)
      modifies this`tracker
      ensures OneHour(tracker) && Dims(next, tracker) == RecordDims(Dims(rows, old(tracker)), RefererEvents(e, host))
    {
      next := rows;
      if e.refererHost != "" {
        TwoSteps(RecordDim, Dims(rows, tracker),
          Event(e, host, REFERER_HOST, e.refererHost), Event(e, host, REFERER_URL, e.refererUrl));
        next := AccumulateDim(next, Event(e, host, REFERER_HOST, e.refererHost));
        next := AccumulateDim(next, Event(e, host, REFERER_URL, e.refererUrl));
      }
    }

    /** The dimension rows of one request for `host`. */
    method AccumulateDims(rows: DimTable, e: Entry, host: string) returns (next: DimTable)
      requires OneHour(tracker)
      modifies this`tracker
      ensures OneHour(tracker) && Dims(next, tracker) == RecordDims(Dims(rows, old(tracker)), HostEvents(e, host))
    {
      ghost var start := Dims(rows, tracker);
      next := AccumulateGeo(rows, e, host);
      next := AccumulateAgent(next, e, host);
      FoldConcat(RecordDim, start, GeoEvents(e, host), AgentEvents(e, host));
      ghost var middle := Dims(next, tracker);
      next := AccumulateRequest(next, e, host);
      next := AccumulateReferer(next, e, host);
      FoldConcat(RecordDim, middle, RequestEvents(e, host), RefererEvents(e, host));
      FoldConcat(RecordDim, start, GeoEvents(e, host) + AgentEvents(e, host),
        RequestEvents(e, host) + RefererEvents(e, host));
    }

    /** The unique rows of one request for `host`. */
    method AccumulateUniques(rows: set<UniqueRow>, e: Entry, host: string) returns (next: set<UniqueRow>)
      modifies this`seen
      ensures Uniques(next, seen) == RecordUniques(Uniques(rows, old(seen)), HostRows(e, host))
    {
      ghost var start, rs := Uniques(rows, seen), HostRows(e, host);
      FoldNext(RecordUnique, start, rs, 0);
      next := AccumulateUnique(rows, UniqueRow(e.day, HostKind(host, IP), e.ipHash));
      FoldNext(RecordUnique, start, rs, 1);
      next := AccumulateUnique(next, UniqueRow(e.day, HostKind(host, VISITOR), e.visitorHash));
      if e.blocked != 0 {
        FoldNext(RecordUnique, start, rs, 2);
        next := AccumulateUnique(next, UniqueRow(e.day, HostKind(host, BLOCKED_IP), e.ipHash));
      }
      TakeAll(rs);
    }

    /** The batch and the memory hold what `db` says. */
    ghost predicate Holds(batch: Batch, db: Db)
      reads this
    {
      && batch.rows == db.log && batch.buckets == db.buckets && batch.dims == db.dims.table
      && tracker == db.dims.tracker && batch.uniques == db.uniques.rows && seen == db.uniques.seen
    }

    /** Everything recorded for one request and one host. */
    method AccumulateHost(batch: Batch, e: Entry, host: string, ghost db: Db) returns (next: Batch)
      requires OneHour(tracker) && Holds(batch, db)
      modifies this`tracker, this`seen
      ensures OneHour(tracker) && Holds(next, AfterHost(db, e, host))
    {
      var buckets := AccumulateBuckets(batch.buckets, e, host);
      var dims := AccumulateDims(batch.dims, e, host);
      var uniques := AccumulateUniques(batch.uniques, e, host);
      next := Batch(batch.rows, buckets, dims, uniques);
    }

    /** A request is counted for its host and for the empty host. */
    method Accumulate(batch: Batch, e: Entry, ghost db: Db) returns (next: Batch)
      requires OneHour(tracker) && Holds(batch, db)
      modifies this`tracker, this`seen
      ensures OneHour(tracker) && Holds(next, AfterBatch(db, [e]))
    {
      BothHostsBuckets(db.buckets, e);
      BothHostsDims(db.dims, e);
      BothHostsUniques(db.uniques, e);
      ghost var logged := db.(log := db.log + [e]);
      next := AccumulateHost(batch.(rows := batch.rows + [e]), e, e.host, logged);
      next := AccumulateHost(next, e, "", AfterHost(logged, e, e.host));
    }

    /** The loop over a batch. */
    method AccumulateAll(entries: seq<Entry>, ghost db: Db) returns (batch: Batch)
      requires OneHour(tracker) && Holds(Batch([], map[], map[], {}), db)
      modifies this`tracker, this`seen
      ensures OneHour(tracker) && Holds(batch, AfterBatch(db, entries))
    {
      TakeAll(entries);
      NothingChanges(db);
      batch := Batch([], map[], map[], {});
      for i := 0 to |entries|
        invariant OneHour(tracker) && Holds(batch, AfterBatch(db, entries[..i]))
      {
        batch := Accumulate(batch, entries[i], AfterBatch(db, entries[..i]));
        BucketsJoin(db.buckets, entries[..i], [entries[i]]);
        DimsJoin(db.dims, entries[..i], [entries[i]]);
        UniquesJoin(db.uniques, entries[..i], [entries[i]]);
        ConcatAssociates(db.log, entries[..i], [entries[i]]);
        TakeNext(entries, i);
      }
    }

    method UpsertBuckets(rows: Buckets)
      modifies this`buckets
      ensures Upserted(old(buckets), rows, buckets)
    {
      var todo := rows.Keys;
      ghost var store := buckets;
      while todo != {}
        invariant todo <= rows.Keys
        invariant forall j {:trigger LoopAt(store, rows, todo, buckets, j)} :: LoopAt(store, rows, todo, buckets, j)
      {
        var k :| k in todo;
        forall j ensures LoopAt(store, rows, todo - {k}, Credit(buckets, k, rows[k]), j) {
          LoopStep(store, rows, todo, buckets, k, j);
        }
        buckets := Credit(buckets, k, rows[k]);
        todo := todo - {k};
      }
      forall j ensures UpsertedAt(store, rows, buckets, j) { assert LoopAt(store, rows, todo, buckets, j); }
    }

    method UpsertDims(rows: DimTable)
      modifies this`dims
      ensures DimsUpserted(old(dims), rows, dims)
    {
      var todo := rows.Keys;
      ghost var store := dims;
      while todo != {}
        invariant todo <= rows.Keys
        invariant forall j {:trigger DimLoopAt(store, rows, todo, dims, j)} :: DimLoopAt(store, rows, todo, dims, j)
      {
        var k :| k in todo;
        forall j ensures DimLoopAt(store, rows, todo - {k}, PutDim(dims, k, rows[k]), j) {
          DimLoopStep(store, rows, todo, dims, k, j);
        }
        dims := PutDim(dims, k, rows[k]);
        todo := todo - {k};
      }
      forall j ensures DimUpsertedAt(store, rows, dims, j) { assert DimLoopAt(store, rows, todo, dims, j); }
    }

    /** The transaction. */
    method Commit(batch: Batch)
      modifies this`log, this`buckets, this`dims, this`uniques
      ensures log == old(log) + batch.rows && uniques == old(uniques) + batch.uniques
      ensures Upserted(old(buckets), batch.buckets, buckets) && DimsUpserted(old(dims), batch.dims, dims)
    {
      log := log + batch.rows;
      UpsertBuckets(batch.buckets);
      UpsertDims(batch.dims);
      uniques := uniques + batch.uniques;
    }

    /** Collects a batch and commits it or loses it; the memory changes either way. */
    method Transact(entries: seq<Entry>, commits: bool)
      requires OneHour(tracker)
      modifies this
      ensures Value() == (if commits then AfterBatch(old(Value()), entries) else AfterLoss(old(Value()), entries))
      ensures lost == old(lost)
    {
      ghost var before := Value();
      var batch := AccumulateAll(entries, Blank(before));
      // what was collected from nothing is what the transaction has to add
      TakeAll(entries);
      UpsertCommutes(before.buckets, FactsOf(entries));
      DimUpsertCommutes(before.dims.table, before.dims.tracker, EventsOf(entries));
      UniquesFromNothing(before.uniques, RowsOf(entries));
      if commits {
        Commit(batch);
        ghost var whole := AfterBatch(before, entries);
        StatTotals.UpsertIsUnique(before.buckets, batch.buckets, buckets, whole.buckets);
        StatDims.UpsertIsUnique(before.dims.table, batch.dims, dims, whole.dims.table);
      }
    }

    /** Writes a batch, or loses it; whatever happened before, what is stored stays sound. */
    method WriteBatch(entries: seq<Entry>, commits: bool)
      requires Valid()
      modifies this
      ensures Valid()
      ensures commits ==> Value() == AfterBatch(old(Value()), entries) && lost == old(lost)
      ensures !commits ==> Value() == AfterLoss(old(Value()), entries)
    {
      ghost var before := Value();
      Transact(entries, commits);
      if commits {
        CommittedBatchKeeps(before, entries, lost);
      } else {
        TrackerKeepsOneHour(before.dims, EventsOf(entries));
        lost := true;
      }
    }
  }

  lemma NothingChanges(db: Db)
    ensures AfterBatch(db, []) == db
  {
    TakeAll(db.log);
  }

  /** The memory of a lost batch stays, its rows do not. */
  ghost function AfterLoss(db: Db, entries: seq<Entry>): Db {
    var whole := AfterBatch(db, entries);
    Db(db.log, db.buckets, Dims(db.dims.table, whole.dims.tracker), Uniques(db.uniques.rows, whole.uniques.seen))
  }

  ghost function AfterHost(db: Db, e: Entry, host: string): Db {
    Db(db.log, CreditAll(db.buckets, HostFacts(e, host)), RecordDims(db.dims, HostEvents(e, host)),
       RecordUniques(db.uniques, HostRows(e, host)))
  }

  lemma BothHostsBuckets(m: Buckets, e: Entry)
    ensures CreditAll(CreditAll(m, HostFacts(e, e.host)), HostFacts(e, "")) == CreditAll(m, FactsOf([e]))
  {
    FlatMapOne(EntryFacts, e);
    FoldConcat(CreditFact, m, HostFacts(e, e.host), HostFacts(e, ""));
  }

  lemma BothHostsDims(d: Dims, e: Entry)
    ensures RecordDims(RecordDims(d, HostEvents(e, e.host)), HostEvents(e, "")) == RecordDims(d, EventsOf([e]))
  {
    FlatMapOne(EntryEvents, e);
    FoldConcat(RecordDim, d, HostEvents(e, e.host), HostEvents(e, ""));
  }

  lemma BothHostsUniques(u: Uniques, e: Entry)
    ensures RecordUniques(RecordUniques(u, HostRows(e, e.host)), HostRows(e, "")) == RecordUniques(u, RowsOf([e]))
  {
    FlatMapOne(EntryRows, e);
    FoldConcat(RecordUnique, u, HostRows(e, e.host), HostRows(e, ""));
  }

  /** Nothing stored yet, the memory as in `db`. */
  ghost function Blank(db: Db): Db { Db([], map[], Dims(map[], db.dims.tracker), Uniques({}, db.uniques.seen)) }

  lemma UniquesFromNothing(u: Uniques, rs: seq<UniqueRow>)
    ensures var batch, whole := RecordUniques(Uniques({}, u.seen), rs), RecordUniques(u, rs);
      whole.rows == u.rows + batch.rows && whole.seen == batch.seen
  {
    UniquesCommute(u.rows, Uniques({}, u.seen), rs);
    assert u.rows + {} == u.rows;
  }

  lemma {:induction false} TrackerKeepsOneHour(d: Dims, evs: seq<DimEvent>)
    requires OneHour(d.tracker)
    ensures OneHour(RecordDims(d, evs).tracker)
  {
    if evs != [] {
      var front, ev := evs[..|evs| - 1], evs[|evs| - 1];
      TrackerKeepsOneHour(d, front);
      TrackerStaysInOneHour(RecordDims(d, front).tracker, ev.column, ev.key);
    }
  }

  /** A committed batch keeps every table a count over the log. */
  lemma CommittedBatchKeeps(db: Db, entries: seq<Entry>, lost: bool)
    requires Sound(db, lost)
    ensures Sound(AfterBatch(db, entries), lost)
  {
    TrackerKeepsOneHour(db.dims, EventsOf(entries));
    BucketsAfterBatch(db.buckets, db.log, entries);
    ColumnsAfterBatch(db.dims, db.log, entries);
    if !lost {
      UniquesAreExact(db.uniques, RowsOf(entries));
      FlatMapConcat(EntryRows, db.log, entries);
      assert SetOf(RowsOf(db.log) + RowsOf(entries)) == SetOf(RowsOf(db.log)) + SetOf(RowsOf(entries));
    }
  }

  // ---------------------------------------------------------------- what readers of the tables rely on

  /** The first `n` stored minutes of an hour. */
  ghost function StoredMinutes(m: Buckets, c: Column, hour: nat, host: string, n: nat): int {
    if n == 0 then 0
    else
      StoredMinutes(m, c, hour, host, n - 1) + Cell(m, BucketKey(MINUTE, hour + 60 * (n - 1), host)).Get(c)
  }

  lemma {:induction false} StoredMinutesAreCounted(db: Db, lost: bool, c: Column, hour: nat, host: string, n: nat)
    requires Sound(db, lost)
    ensures StoredMinutes(db.buckets, c, hour, host, n) == Minutes(db.log, c, hour, host, n)
  {
    if n > 0 {
      StoredMinutesAreCounted(db, lost, c, hour, host, n - 1);
      assert BucketOk(db.buckets, db.log, BucketKey(MINUTE, hour + 60 * (n - 1), host), c);
    }
  }

  /** Stored tables agree with each other, lost batches or not. */
  lemma StoredHourAgrees(db: Db, lost: bool, hour: nat, host: string, c: Column)
    requires Sound(db, lost) && hour % 3600 == 0
    ensures var row := Cell(db.buckets, BucketKey(HOUR, hour, host));
      && row.Get(c) == StoredMinutes(db.buckets, c, hour, host, 60)
      && row.blocked == row.blocked403 + row.blocked429 && 0 <= row.blockedBot <= row.blocked403
  {
    var k := BucketKey(HOUR, hour, host);
    HourIsSumOfMinutes(db.log, c, hour, host);
    StoredMinutesAreCounted(db, lost, c, hour, host, 60);
    BlockedSplits(db.log, HOUR, hour, host);
    assert BucketOk(db.buckets, db.log, k, c) && BucketOk(db.buckets, db.log, k, Blocked);
    assert BucketOk(db.buckets, db.log, k, Blocked403) && BucketOk(db.buckets, db.log, k, Blocked429);
    assert BucketOk(db.buckets, db.log, k, BlockedBot);
  }

  /** The names of a dimension that every request has add up to the hour row, refused requests too. */
  lemma StoredDimsAddUp(db: Db, lost: bool, column: ColumnKey, names: set<string>, refused: bool)
    requires Sound(db, lost) && Always(column.kind) && Covering(db.dims.table, column, names)
    ensures SumOver(db.dims.table, column, names, refused) ==
            Cell(db.buckets, BucketKey(HOUR, column.start, column.host)).Get(Measure(refused))
  {
    assert ColumnOk(db.dims.table, db.log, column, names, refused);
    assert BucketOk(db.buckets, db.log, BucketKey(HOUR, column.start, column.host), Measure(refused));
  }

  lemma {:induction false} EmptySum(column: ColumnKey, names: set<string>, refused: bool)
    ensures SumOver(map[], column, names, refused) == 0
    decreases |names|
  {
    if names != {} {
      var n :| n in names;
      SumOverTake(map[], column, names, refused, n);
      EmptySum(column, names - {n}, refused);
    }
  }
}
