/**
 What the stored statistics mean to their readers, without the functions that compute them: counters as
 numbers of requests, names of a dimension as numbers of requests with that value, unique rows as the
 visitors that were there.
 */
module StatMeaning {
  import opened Folds
  import opened StatTotals
  import opened StatDims
  import opened StatUniques
  import opened Statistics

  // ---------------------------------------------------------------- the requests of a row

  /** The time lies in the minute or hour that starts at `start`. */
  predicate Within(granularity: int, start: int, ts: nat) {
    var width := if granularity == MINUTE then 60 else 3600;
    start % width == 0 && start <= ts < start + width
  }

  lemma StartIsWithin(granularity: int, start: int, ts: nat)
    ensures Start(granularity, ts) == start <==> Within(granularity, start, ts)
  {
    if granularity == MINUTE { MultipleBelow(60, start, ts); } else { MultipleBelow(3600, start, ts); }
  }

  lemma MultipleBelow(width: nat, start: int, ts: nat)
    requires width == 60 || width == 3600
    ensures ts / width * width == start <==> start % width == 0 && start <= ts < start + width
  {
    var q := start / width;
    if start % width == 0 && start <= ts < start + width {
      assert start == q * width;
      assert ts / width == q;
    }
  }

  /** How often a row counts a request: for its host, for all hosts, and twice for all when it has no host. */
  function Times(e: Entry, k: BucketKey): nat {
    if !Within(k.granularity, k.start, e.ts) then 0
    else (if e.host == k.host then 1 else 0) + (if k.host == "" then 1 else 0)
  }

  ghost function Copies(e: Entry, n: nat): seq<Entry> {
    if n == 0 then [] else Copies(e, n - 1) + [e]
  }

  /** The requests that a row counts, each as often as it does. */
  ghost function Shown(log: seq<Entry>, k: BucketKey): seq<Entry> {
    if log == [] then []
    else Shown(log[..|log| - 1], k) + Copies(log[|log| - 1], Times(log[|log| - 1], k))
  }

  ghost function Count(es: seq<Entry>, p: Entry -> bool): nat {
    if es == [] then 0 else Count(es[..|es| - 1], p) + if p(es[|es| - 1]) then 1 else 0
  }

  ghost function Milliseconds(es: seq<Entry>): int {
    if es == [] then 0 else Milliseconds(es[..|es| - 1]) + es[|es| - 1].elapsedMs
  }

  predicate IsPage(e: Entry) { e.isPage }
  predicate Refused(e: Entry) { e.blocked != 0 }
  predicate RateLimited(e: Entry) { e.blocked == RATE_LIMIT }
  predicate Challenged(e: Entry) { e.blocked == BOT_CHALLENGE }
  predicate Forbidden(e: Entry) { Refused(e) && !RateLimited(e) }
  predicate Success(e: Entry) { 200 <= e.status <= 299 }
  predicate Redirect(e: Entry) { 300 <= e.status <= 399 }
  predicate ClientError(e: Entry) { 400 <= e.status <= 499 }
  predicate ServerError(e: Entry) { 500 <= e.status <= 599 }

  lemma CountAppend(es: seq<Entry>, e: Entry, p: Entry -> bool)
    ensures Count(es + [e], p) == Count(es, p) + (if p(e) then 1 else 0)
    ensures Milliseconds(es + [e]) == Milliseconds(es) + e.elapsedMs
  {
    assert (es + [e])[..|es|] == es;
  }

  function Sum(amount: int, n: nat): int {
    if n == 0 then 0 else Sum(amount, n - 1) + amount
  }

  lemma {:induction false} CountCopies(es: seq<Entry>, e: Entry, n: nat, p: Entry -> bool)
    ensures |Copies(e, n)| == n
    ensures Count(es + Copies(e, n), p) == Count(es, p) + Sum(if p(e) then 1 else 0, n)
    ensures Milliseconds(es + Copies(e, n)) == Milliseconds(es) + Sum(e.elapsedMs, n)
  {
    if n == 0 {
      assert es + [] == es;
    } else {
      CountCopies(es, e, n - 1, p);
      CountAppend(es + Copies(e, n - 1), e, p);
      assert es + Copies(e, n) == es + Copies(e, n - 1) + [e];
    }
  }

  lemma {:induction false} SumOfOnes(n: nat)
    ensures Sum(1, n) == n && Sum(0, n) == 0
  {
    if n > 0 { SumOfOnes(n - 1); }
  }

  lemma ShareIsSum(e: Entry, k: BucketKey, c: Column)
    ensures (if Start(k.granularity, e.ts) == k.start then Share(e, c, k.host) else 0) == Sum(Amount(e, c), Times(e, k))
  {
    StartIsWithin(k.granularity, k.start, e.ts);
    var a := Amount(e, c);
    assert Sum(a, 0) == 0 && Sum(a, 1) == a && Sum(a, 2) == a + a;
  }

  /** A column that a request adds one to exactly when it has property `p` counts the requests with that property. */
  lemma {:induction false} TotalIsCount(log: seq<Entry>, k: BucketKey, c: Column, p: Entry -> bool)
    requires forall e :: Amount(e, c) == if p(e) then 1 else 0
    ensures Total(log, c, k.granularity, k.start, k.host) == Count(Shown(log, k), p)
  {
    if log != [] {
      var front, e := log[..|log| - 1], log[|log| - 1];
      TotalIsCount(front, k, c, p);
      ShareIsSum(e, k, c);
      CountCopies(Shown(front, k), e, Times(e, k), p);
      assert Amount(e, c) == if p(e) then 1 else 0;
    }
  }

  lemma RequestsGrow(es: seq<Entry>, e: Entry, k: BucketKey)
    ensures |es + Copies(e, Times(e, k))| == |es| + Sum(Amount(e, Requests), Times(e, k))
    ensures Milliseconds(es + Copies(e, Times(e, k))) == Milliseconds(es) + Sum(Amount(e, ElapsedSum), Times(e, k))
  {
    CountCopies(es, e, Times(e, k), IsPage);
    SumOfOnes(Times(e, k));
  }

  lemma {:induction false} RequestsAndTime(log: seq<Entry>, k: BucketKey)
    ensures Total(log, Requests, k.granularity, k.start, k.host) == |Shown(log, k)|
    ensures Total(log, ElapsedSum, k.granularity, k.start, k.host) == Milliseconds(Shown(log, k))
  {
    if log != [] {
      var front, e := log[..|log| - 1], log[|log| - 1];
      RequestsAndTime(front, k);
      ShareIsSum(e, k, Requests);
      ShareIsSum(e, k, ElapsedSum);
      RequestsGrow(Shown(front, k), e, k);
    }
  }

  lemma ColumnMeans(db: Db, lost: bool, k: BucketKey, c: Column, p: Entry -> bool)
    requires Sound(db, lost) && (k.granularity == MINUTE || k.granularity == HOUR)
    requires forall e :: Amount(e, c) == if p(e) then 1 else 0
    ensures Cell(db.buckets, k).Get(c) == Count(Shown(db.log, k), p)
  {
    assert BucketOk(db.buckets, db.log, k, c);
    TotalIsCount(db.log, k, c, p);
  }

  lemma StatusesMean(db: Db, lost: bool, k: BucketKey)
    requires Sound(db, lost) && (k.granularity == MINUTE || k.granularity == HOUR)
    ensures var row, es := Cell(db.buckets, k), Shown(db.log, k);
      && row.status2xx == Count(es, Success) && row.status3xx == Count(es, Redirect)
      && row.status4xx == Count(es, ClientError) && row.status5xx == Count(es, ServerError)
  {
    ColumnMeans(db, lost, k, Status2xx, Success);
    ColumnMeans(db, lost, k, Status3xx, Redirect);
    ColumnMeans(db, lost, k, Status4xx, ClientError);
    ColumnMeans(db, lost, k, Status5xx, ServerError);
  }

  lemma RefusalsMean(db: Db, lost: bool, k: BucketKey)
    requires Sound(db, lost) && (k.granularity == MINUTE || k.granularity == HOUR)
    ensures var row, es := Cell(db.buckets, k), Shown(db.log, k);
      && row.blocked == Count(es, Refused) && row.blocked403 == Count(es, Forbidden)
      && row.blocked429 == Count(es, RateLimited) && row.blockedBot == Count(es, Challenged)
  {
    ColumnMeans(db, lost, k, Blocked, Refused);
    ColumnMeans(db, lost, k, Blocked403, Forbidden);
    ColumnMeans(db, lost, k, Blocked429, RateLimited);
    ColumnMeans(db, lost, k, BlockedBot, Challenged);
  }

  /** After any batches, lost ones included, every counter of a row is a plain count over its requests. */
  lemma StoredCountersMean(db: Db, lost: bool, k: BucketKey)
    requires Sound(db, lost) && (k.granularity == MINUTE || k.granularity == HOUR)
    ensures var row, es := Cell(db.buckets, k), Shown(db.log, k);
      && row.requests == |es| && row.pageViews == Count(es, IsPage)
      && row.blocked == Count(es, Refused) && row.blocked403 == Count(es, Forbidden)
      && row.blocked429 == Count(es, RateLimited) && row.blockedBot == Count(es, Challenged)
      && row.status2xx == Count(es, Success) && row.status3xx == Count(es, Redirect)
      && row.status4xx == Count(es, ClientError) && row.status5xx == Count(es, ServerError)
      && row.elapsedSum == Milliseconds(es)
  {
    RequestsAndTime(db.log, k);
    assert BucketOk(db.buckets, db.log, k, Requests) && BucketOk(db.buckets, db.log, k, ElapsedSum);
    ColumnMeans(db, lost, k, PageViews, IsPage);
    RefusalsMean(db, lost, k);
    StatusesMean(db, lost, k);
  }

  // ---------------------------------------------------------------- names of a dimension

  /** The request has this value in the dimension; a request without a province or referer has none there. */
  predicate Carries(e: Entry, kind: int, n: string) {
    || (kind == COUNTRY && n == e.country)
    || (kind == PROVINCE && n == e.province && e.province != "")
    || (kind == OS && n == e.os)
    || (kind == BROWSER && n == e.browser)
    || (kind == STATUS && n == e.statusText)
    || (kind == PATH && n == e.path)
    || (kind == REFERER_HOST && n == e.refererHost && e.refererHost != "")
    || (kind == REFERER_URL && n == e.refererUrl && e.refererHost != "")
  }

  predicate Counts(e: Entry, kind: int, n: string, refused: bool) {
    Carries(e, kind, n) && (refused ==> e.blocked != 0)
  }

  /** How many of the requests have this value, or were refused with it. */
  ghost function Named(es: seq<Entry>, kind: int, n: string, refused: bool): nat {
    Count(es, CountsUnder(kind, n, refused))
  }

  function CountsUnder(kind: int, n: string, refused: bool): Entry -> bool {
    (e: Entry) => Counts(e, kind, n, refused)
  }

  lemma {:induction false} OnesOrNothing(b: bool, times: nat)
    ensures Sum(if b then 1 else 0, times) == if b then times else 0
  {
    if times > 0 { OnesOrNothing(b, times - 1); }
  }

  lemma NamedCopies(es: seq<Entry>, e: Entry, times: nat, kind: int, n: string, refused: bool)
    ensures Named(es + Copies(e, times), kind, n, refused) ==
            Named(es, kind, n, refused) + if Counts(e, kind, n, refused) then times else 0
  {
    CountCopies(es, e, times, CountsUnder(kind, n, refused));
    OnesOrNothing(Counts(e, kind, n, refused), times);
  }

  /** What the recordings add under one name of a column when no name is replaced. */
  ghost function UnderName(evs: seq<DimEvent>, k: DimKey, refused: bool): int {
    if evs == [] then 0
    else
      var ev := evs[|evs| - 1];
      UnderName(evs[..|evs| - 1], k, refused) + if DimKey(ev.column, ev.key) == k then Gain(ev.blocked, refused) else 0
  }

  lemma {:induction false} UnderNameConcat(a: seq<DimEvent>, b: seq<DimEvent>, k: DimKey, refused: bool)
    ensures UnderName(a + b, k, refused) == UnderName(a, k, refused) + UnderName(b, k, refused)
  {
    if b == [] {
      assert a + b == a;
    } else {
      UnderNameConcat(a, b[..|b| - 1], k, refused);
      assert (a + b)[..|a + b| - 1] == a + b[..|b| - 1];
    }
  }

  /** What one recording adds under a name. */
  function Worth(e: Entry, host: string, kind: int, key: string, k: DimKey, refused: bool): int {
    if k == DimKey(ColumnKey(Start(HOUR, e.ts), host, kind), key) then Gain(e.blocked != 0, refused) else 0
  }

  lemma OneEvent(e: Entry, host: string, kind: int, key: string, k: DimKey, refused: bool)
    ensures UnderName([Event(e, host, kind, key)], k, refused) == Worth(e, host, kind, key, k, refused)
  {
    assert [Event(e, host, kind, key)][..0] == [];
  }

  lemma TwoEvents(e: Entry, host: string, kind1: int, key1: string, kind2: int, key2: string, k: DimKey, refused: bool)
    ensures UnderName([Event(e, host, kind1, key1), Event(e, host, kind2, key2)], k, refused) ==
            Worth(e, host, kind1, key1, k, refused) + Worth(e, host, kind2, key2, k, refused)
  {
    UnderNameConcat([Event(e, host, kind1, key1)], [Event(e, host, kind2, key2)], k, refused);
    OneEvent(e, host, kind1, key1, k, refused);
    OneEvent(e, host, kind2, key2, k, refused);
    assert [Event(e, host, kind1, key1)] + [Event(e, host, kind2, key2)] ==
      [Event(e, host, kind1, key1), Event(e, host, kind2, key2)];
  }

  lemma GeoWorth(e: Entry, host: string, k: DimKey, refused: bool)
    ensures UnderName(GeoEvents(e, host), k, refused) == Worth(e, host, COUNTRY, e.country, k, refused) +
            if e.province != "" then Worth(e, host, PROVINCE, e.province, k, refused) else 0
  {
    OneEvent(e, host, COUNTRY, e.country, k, refused);
    assert [Event(e, host, COUNTRY, e.country)] + [] == [Event(e, host, COUNTRY, e.country)];
    if e.province != "" {
      UnderNameConcat([Event(e, host, COUNTRY, e.country)], [Event(e, host, PROVINCE, e.province)], k, refused);
      OneEvent(e, host, PROVINCE, e.province, k, refused);
    }
  }

  lemma RefererWorth(e: Entry, host: string, k: DimKey, refused: bool)
    ensures UnderName(RefererEvents(e, host), k, refused) ==
            if e.refererHost != "" then
              Worth(e, host, REFERER_HOST, e.refererHost, k, refused) + Worth(e, host, REFERER_URL, e.refererUrl, k, refused)
            else 0
  {
    if e.refererHost != "" {
      TwoEvents(e, host, REFERER_HOST, e.refererHost, REFERER_URL, e.refererUrl, k, refused);
    }
  }

  /** The row of `host` gets one for the value that the request has in the dimension of the column. */
  lemma HostWorth(e: Entry, host: string, k: DimKey, refused: bool)
    ensures UnderName(HostEvents(e, host), k, refused) ==
            if Start(HOUR, e.ts) == k.column.start && host == k.column.host && Counts(e, k.column.kind, k.key, refused)
            then 1 else 0
  {
    UnderNameConcat(GeoEvents(e, host), AgentEvents(e, host), k, refused);
    UnderNameConcat(RequestEvents(e, host), RefererEvents(e, host), k, refused);
    UnderNameConcat(GeoEvents(e, host) + AgentEvents(e, host), RequestEvents(e, host) + RefererEvents(e, host), k, refused);
    GeoWorth(e, host, k, refused);
    TwoEvents(e, host, OS, e.os, BROWSER, e.browser, k, refused);
    TwoEvents(e, host, STATUS, e.statusText, PATH, e.path, k, refused);
    RefererWorth(e, host, k, refused);
  }

  ghost function HourRow(column: ColumnKey): BucketKey { BucketKey(HOUR, column.start, column.host) }

  lemma {:induction false} EventsAreNamed(log: seq<Entry>, k: DimKey, refused: bool)
    ensures UnderName(EventsOf(log), k, refused) == Named(Shown(log, HourRow(k.column)), k.column.kind, k.key, refused)
  {
    if log != [] {
      var front, e := log[..|log| - 1], log[|log| - 1];
      EventsAreNamed(front, k, refused);
      UnderNameConcat(EventsOf(front), EntryEvents(e), k, refused);
      UnderNameConcat(HostEvents(e, e.host), HostEvents(e, ""), k, refused);
      HostWorth(e, e.host, k, refused);
      HostWorth(e, "", k, refused);
      StartIsWithin(HOUR, k.column.start, e.ts);
      NamedCopies(Shown(front, HourRow(k.column)), e, Times(e, HourRow(k.column)), k.column.kind, k.key, refused);
    }
  }

  /** Recording stores a value under itself, unless the dimension is limited; then it may go to the overflow name. */
  lemma {:induction false} StoredAfterAll(d: Dims, evs: seq<DimEvent>, k: DimKey, refused: bool)
    ensures var now, before := Stored(RecordDims(d, evs).table, k.column, k.key, refused), Stored(d.table, k.column, k.key, refused);
      && (!Unbounded(k.column.kind) ==> now == before + UnderName(evs, k, refused))
      && (k.key != OTHER ==> before <= now <= before + UnderName(evs, k, refused))
  {
    if evs != [] {
      var front, ev := evs[..|evs| - 1], evs[|evs| - 1];
      StoredAfterAll(d, front, k, refused);
      StoredAfterOne(RecordDims(d, front), ev, k, refused);
    }
  }

  lemma StoredAfterOne(d: Dims, ev: DimEvent, k: DimKey, refused: bool)
    ensures var now, before := Stored(RecordDim(d, ev).table, k.column, k.key, refused), Stored(d.table, k.column, k.key, refused);
      var gain := if DimKey(ev.column, ev.key) == k then Gain(ev.blocked, refused) else 0;
      && (!Unbounded(k.column.kind) ==> now == before + gain)
      && (k.key != OTHER ==> before <= now <= before + gain)
  {
    StoredAfterCredit(d.table, DimKey(ev.column, StoredKey(d.tracker, ev.column, ev.key)), ev.blocked, k.column, k.key, refused);
  }

  ghost predicate NameOk(table: DimTable, log: seq<Entry>, k: DimKey, refused: bool) {
    var stored, named :=
      Stored(table, k.column, k.key, refused), Named(Shown(log, HourRow(k.column)), k.column.kind, k.key, refused);
    && (!Unbounded(k.column.kind) ==> stored == named)
    && (k.key != OTHER ==> 0 <= stored <= named)
  }

  /**
   In a dimension without a limit the count stored under a name is the number of requests of the hour with
   that value; in a limited one it is never more, the overflow name apart.
   */
  ghost predicate NamesOk(table: DimTable, log: seq<Entry>) {
    forall k, refused {:trigger NameOk(table, log, k, refused)} :: NameOk(table, log, k, refused)
  }

  lemma {:induction false} CountConcat(a: seq<Entry>, b: seq<Entry>, p: Entry -> bool)
    ensures Count(a + b, p) == Count(a, p) + Count(b, p)
  {
    if b == [] {
      assert a + b == a;
    } else {
      CountConcat(a, b[..|b| - 1], p);
      assert (a + b)[..|a + b| - 1] == a + b[..|b| - 1];
    }
  }

  lemma {:induction false} ShownConcat(a: seq<Entry>, b: seq<Entry>, k: BucketKey)
    ensures Shown(a + b, k) == Shown(a, k) + Shown(b, k)
  {
    if b == [] {
      assert a + b == a;
    } else {
      ShownConcat(a, b[..|b| - 1], k);
      assert (a + b)[..|a + b| - 1] == a + b[..|b| - 1];
    }
  }

  /** The empty tables are in order, and every batch keeps them so, whatever the memory of names holds. */
  lemma NamesAfterBatch(d: Dims, log: seq<Entry>, batch: seq<Entry>)
    ensures NamesOk(map[], [])
    ensures NamesOk(d.table, log) ==> NamesOk(RecordDims(d, EventsOf(batch)).table, log + batch)
  {
    if NamesOk(d.table, log) {
      forall k, refused ensures NameOk(RecordDims(d, EventsOf(batch)).table, log + batch, k, refused) {
        assert NameOk(d.table, log, k, refused);
        NameAfterBatch(d, log, batch, k, refused);
      }
    }
  }

  lemma NameAfterBatch(d: Dims, log: seq<Entry>, batch: seq<Entry>, k: DimKey, refused: bool)
    requires NameOk(d.table, log, k, refused)
    ensures NameOk(RecordDims(d, EventsOf(batch)).table, log + batch, k, refused)
  {
    StoredAfterAll(d, EventsOf(batch), k, refused);
    EventsAreNamed(batch, k, refused);
    ShownConcat(log, batch, HourRow(k.column));
    CountConcat(Shown(log, HourRow(k.column)), Shown(batch, HourRow(k.column)), CountsUnder(k.column.kind, k.key, refused));
  }

  // ---------------------------------------------------------------- unique rows

  /** The request was there on that day for that host, or for all, as the kind of row tells. */
  predicate Witness(e: Entry, r: UniqueRow) {
    && r.day == e.day && (r.who.host == e.host || r.who.host == "")
    && ((r.who.kind == IP && r.hash == e.ipHash) || (r.who.kind == VISITOR && r.hash == e.visitorHash) ||
        (r.who.kind == BLOCKED_IP && e.blocked != 0 && r.hash == e.ipHash))
  }

  lemma EntryRowsMean(e: Entry, r: UniqueRow)
    ensures r in EntryRows(e) <==> Witness(e, r)
  {
    HostRowsMean(e, e.host, r);
    HostRowsMean(e, "", r);
  }

  lemma HostRowsMean(e: Entry, host: string, r: UniqueRow)
    ensures r in HostRows(e, host) <==> r.who.host == host && Witness(e.(host := host), r)
  {
  }

  lemma {:induction false} RowsMean(log: seq<Entry>, r: UniqueRow)
    ensures r in RowsOf(log) <==> exists e <- log :: Witness(e, r)
  {
    if log != [] {
      var front, e := log[..|log| - 1], log[|log| - 1];
      RowsMean(front, r);
      EntryRowsMean(e, r);
      assert log == front + [e];
      assert RowsOf(log) == RowsOf(front) + EntryRows(e);
    }
  }

  /** While no batch was lost, a row is stored exactly when some stored request is a witness of it. */
  lemma StoredUniquesMean(db: Db, r: UniqueRow)
    requires Sound(db, false)
    ensures r in db.uniques.rows <==> exists e <- db.log :: Witness(e, r)
  {
    RowsMean(db.log, r);
  }
}
