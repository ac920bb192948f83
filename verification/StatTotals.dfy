/**
 Statistics tables as values: per-minute and per-hour counters, dimension counts and daily unique
 rows. Every table is proved to be a plain count over the stored request log.
 */
module StatTotals {
  import opened Folds

  const MINUTE := 1
  const HOUR := 2

  /** A collected request; the fields from `country` on come from the enrichment lookups. */
  datatype Entry = Entry(
    ts: nat, host: string, path: string, status: int, elapsedMs: int, blocked: nat, isPage: bool,
    country: string, province: string, os: string, browser: string, statusText: string,
    refererHost: string, refererUrl: string, day: int, ipHash: int, visitorHash: int)

  const RATE_LIMIT := 2
  const BOT_CHALLENGE := 5

  // ---------------------------------------------------------------- counters

  datatype Column =
    | Requests | PageViews | Blocked | Blocked403 | Blocked429 | BlockedBot
    | Status2xx | Status3xx | Status4xx | Status5xx | ElapsedSum

  datatype Agg = Agg(
    requests: int, pageViews: int, blocked: int, blocked403: int, blocked429: int, blockedBot: int,
    status2xx: int, status3xx: int, status4xx: int, status5xx: int, elapsedSum: int)
  {
    function Plus(o: Agg): Agg {
      Agg(requests + o.requests, pageViews + o.pageViews, blocked + o.blocked, blocked403 + o.blocked403,
          blocked429 + o.blocked429, blockedBot + o.blockedBot, status2xx + o.status2xx, status3xx + o.status3xx,
          status4xx + o.status4xx, status5xx + o.status5xx, elapsedSum + o.elapsedSum)
    }

    function Get(c: Column): int {
      match c
      case Requests => requests
      case PageViews => pageViews
      case Blocked => blocked
      case Blocked403 => blocked403
      case Blocked429 => blocked429
      case BlockedBot => blockedBot
      case Status2xx => status2xx
      case Status3xx => status3xx
      case Status4xx => status4xx
      case Status5xx => status5xx
      case ElapsedSum => elapsedSum
    }
  }

  const NONE := Agg(0, 0, 0, 0, 0, 0, 0, 0, 0, 0, 0)

  function One(b: bool): int { if b then 1 else 0 }

  /** What one request adds to each counter. */
  function AggOf(e: Entry): Agg {
    var b := e.blocked != 0;
    Agg(1, One(e.isPage), One(b), One(b && e.blocked != RATE_LIMIT), One(e.blocked == RATE_LIMIT),
        One(e.blocked == BOT_CHALLENGE), One(e.status / 100 == 2), One(e.status / 100 == 3),
        One(e.status / 100 == 4), One(e.status / 100 == 5), e.elapsedMs)
  }

  datatype BucketKey = BucketKey(granularity: int, start: int, host: string)
  type Buckets = map<BucketKey, Agg>
  type Fact = (BucketKey, Agg)

  function Start(granularity: int, ts: nat): nat {
    if granularity == MINUTE then ts / 60 * 60 else ts / 3600 * 3600
  }

  function Cell(m: Buckets, k: BucketKey): Agg {
    if k in m then m[k] else NONE
  }

  function Credit(m: Buckets, k: BucketKey, a: Agg): Buckets {
    m[k := Cell(m, k).Plus(a)]
  }

  ghost function CreditFact(m: Buckets, f: Fact): Buckets { Credit(m, f.0, f.1) }

  ghost function CreditAll(m: Buckets, facts: seq<Fact>): Buckets { Fold(CreditFact, m, facts) }

  /** The upsert at one key: pointwise addition. */
  ghost predicate UpsertedAt(store: Buckets, batch: Buckets, result: Buckets, j: BucketKey) {
    && (j in result <==> j in store || j in batch)
    && Cell(result, j) == Cell(store, j).Plus(Cell(batch, j))
  }

  /** `result` is `store` after the rows of `batch` were upserted. */
  ghost predicate Upserted(store: Buckets, batch: Buckets, result: Buckets) {
    forall j {:trigger UpsertedAt(store, batch, result, j)} :: UpsertedAt(store, batch, result, j)
  }

  lemma UpsertIsUnique(store: Buckets, batch: Buckets, r: Buckets, s: Buckets)
    requires Upserted(store, batch, r) && Upserted(store, batch, s)
    ensures r == s
  {
    forall k ensures (k in r <==> k in s) && Cell(r, k) == Cell(s, k) {
      assert UpsertedAt(store, batch, r, k) && UpsertedAt(store, batch, s, k);
    }
    forall k | k in r ensures r[k] == s[k] { assert Cell(r, k) == Cell(s, k); }
  }

  lemma PlusAssociates(a: Agg, b: Agg, c: Agg)
    ensures a.Plus(b).Plus(c) == a.Plus(b.Plus(c))
  {
  }

  lemma UpsertTheKey(store: Buckets, batch: Buckets, result: Buckets, k: BucketKey, a: Agg)
    requires UpsertedAt(store, batch, result, k)
    ensures UpsertedAt(store, Credit(batch, k, a), Credit(result, k, a), k)
  {
    PlusAssociates(Cell(store, k), Cell(batch, k), a);
  }

  lemma OtherCellsStay(m: Buckets, k: BucketKey, a: Agg, j: BucketKey)
    requires j != k
    ensures (j in Credit(m, k, a) <==> j in m) && Cell(Credit(m, k, a), j) == Cell(m, j)
  {
  }

  lemma UpsertAnotherKey(store: Buckets, batch: Buckets, result: Buckets, k: BucketKey, a: Agg, j: BucketKey)
    requires UpsertedAt(store, batch, result, j) && j != k
    ensures UpsertedAt(store, Credit(batch, k, a), Credit(result, k, a), j)
  {
    OtherCellsStay(batch, k, a, j);
    OtherCellsStay(result, k, a, j);
  }

  lemma UpsertOne(store: Buckets, batch: Buckets, result: Buckets, k: BucketKey, a: Agg)
    requires Upserted(store, batch, result)
    ensures Upserted(store, Credit(batch, k, a), Credit(result, k, a))
  {
    forall j ensures UpsertedAt(store, Credit(batch, k, a), Credit(result, k, a), j) {
      assert UpsertedAt(store, batch, result, j);
      if j == k {
        UpsertTheKey(store, batch, result, k, a);
      } else {
        UpsertAnotherKey(store, batch, result, k, a, j);
      }
    }
  }

  /** One key of the upsert loop; the keys in `todo` are still as in `store`. */
  ghost predicate LoopAt(store: Buckets, rows: Buckets, todo: set<BucketKey>, m: Buckets, j: BucketKey) {
    if j in todo then (j in m <==> j in store) && Cell(m, j) == Cell(store, j)
    else UpsertedAt(store, rows, m, j)
  }

  lemma LoopStep(store: Buckets, rows: Buckets, todo: set<BucketKey>, m: Buckets, k: BucketKey, j: BucketKey)
    requires k in todo && k in rows && LoopAt(store, rows, todo, m, j)
    ensures LoopAt(store, rows, todo - {k}, Credit(m, k, rows[k]), j)
  {
    if j != k { OtherCellsStay(m, k, rows[k], j); }
  }

  /** Collecting a batch first and upserting it later is the same as counting straight into the store. */
  lemma {:induction false} UpsertCommutes(store: Buckets, facts: seq<Fact>)
    ensures Upserted(store, CreditAll(map[], facts), CreditAll(store, facts))
  {
    if facts == [] {
      forall k ensures UpsertedAt(store, map[], store, k) {}
    } else {
      var front := facts[..|facts| - 1];
      var (k, a) := facts[|facts| - 1];
      UpsertCommutes(store, front);
      UpsertOne(store, CreditAll(map[], front), CreditAll(store, front), k, a);
    }
  }

  lemma ColumnsAdd(a: Agg, b: Agg, c: Column)
    ensures a.Plus(b).Get(c) == a.Get(c) + b.Get(c) && NONE.Get(c) == 0
  {
  }

  /** What one request adds to column `c`. */
  function Amount(e: Entry, c: Column): int { AggOf(e).Get(c) }

  ghost function SumFacts(facts: seq<Fact>, k: BucketKey, c: Column): int {
    if facts == [] then 0
    else
      var f := facts[|facts| - 1];
      SumFacts(facts[..|facts| - 1], k, c) + if f.0 == k then f.1.Get(c) else 0
  }

  lemma CellOfCredit(m: Buckets, j: BucketKey, a: Agg, k: BucketKey, c: Column)
    ensures Cell(Credit(m, j, a), k).Get(c) == Cell(m, k).Get(c) + if j == k then a.Get(c) else 0
  {
    ColumnsAdd(Cell(m, j), a, c);
  }

  lemma {:induction false} CellOfCreditAll(m: Buckets, facts: seq<Fact>, k: BucketKey, c: Column)
    ensures Cell(CreditAll(m, facts), k).Get(c) == Cell(m, k).Get(c) + SumFacts(facts, k, c)
  {
    if facts != [] {
      var front, f := facts[..|facts| - 1], facts[|facts| - 1];
      CellOfCreditAll(m, front, k, c);
      CellOfCredit(CreditAll(m, front), f.0, f.1, k, c);
    }
  }

  lemma {:induction false} SumFactsConcat(a: seq<Fact>, b: seq<Fact>, k: BucketKey, c: Column)
    ensures SumFacts(a + b, k, c) == SumFacts(a, k, c) + SumFacts(b, k, c)
  {
    if b == [] {
      assert a + b == a;
    } else {
      SumFactsConcat(a, b[..|b| - 1], k, c);
      assert (a + b)[..|a + b| - 1] == a + b[..|b| - 1];
    }
  }

  /** Each request is counted for its own host and again for the empty host, the row of all hosts. */
  function HostFacts(e: Entry, host: string): seq<Fact> {
    [(BucketKey(MINUTE, Start(MINUTE, e.ts), host), AggOf(e)), (BucketKey(HOUR, Start(HOUR, e.ts), host), AggOf(e))]
  }

  function EntryFacts(e: Entry): seq<Fact> { HostFacts(e, e.host) + HostFacts(e, "") }

  ghost function FactsOf(log: seq<Entry>): seq<Fact> { FlatMap(EntryFacts, log) }

  // ---------------------------------------------------------------- what the counters mean

  /** What `e` adds to the row of `host`: once for its own host and once in the total row. */
  function Share(e: Entry, c: Column, host: string): int {
    (if e.host == host then Amount(e, c) else 0) + if host == "" then Amount(e, c) else 0
  }

  /** Column `c` of bucket `start` for `host`, counted over the log. */
  ghost function Total(log: seq<Entry>, c: Column, g: int, start: int, host: string): int {
    if log == [] then 0
    else
      var e := log[|log| - 1];
      Total(log[..|log| - 1], c, g, start, host) + if Start(g, e.ts) == start then Share(e, c, host) else 0
  }

  lemma {:induction false} TotalConcat(a: seq<Entry>, b: seq<Entry>, c: Column, g: int, start: int, host: string)
    ensures Total(a + b, c, g, start, host) == Total(a, c, g, start, host) + Total(b, c, g, start, host)
  {
    if b == [] {
      assert a + b == a;
    } else {
      TotalConcat(a, b[..|b| - 1], c, g, start, host);
      assert (a + b)[..|a + b| - 1] == a + b[..|b| - 1];
    }
  }

  lemma SumOfHostFacts(e: Entry, host: string, k: BucketKey, c: Column)
    requires k.granularity == MINUTE || k.granularity == HOUR
    ensures SumFacts(HostFacts(e, host), k, c) ==
            if Start(k.granularity, e.ts) == k.start && host == k.host then Amount(e, c) else 0
  {
    var facts := HostFacts(e, host);
    assert facts[..1] == [facts[0]] && facts[..1][..0] == [];
    assert SumFacts(facts[..1], k, c) == if facts[0].0 == k then Amount(e, c) else 0;
  }

  lemma {:induction false} SumFactsIsTotal(log: seq<Entry>, k: BucketKey, c: Column)
    requires k.granularity == MINUTE || k.granularity == HOUR
    ensures SumFacts(FactsOf(log), k, c) == Total(log, c, k.granularity, k.start, k.host)
  {
    if log != [] {
      var e := log[|log| - 1];
      SumFactsIsTotal(log[..|log| - 1], k, c);
      SumFactsConcat(FactsOf(log[..|log| - 1]), EntryFacts(e), k, c);
      SumFactsConcat(HostFacts(e, e.host), HostFacts(e, ""), k, c);
      SumOfHostFacts(e, e.host, k, c);
      SumOfHostFacts(e, "", k, c);
    }
  }

  ghost predicate BucketOk(m: Buckets, log: seq<Entry>, k: BucketKey, c: Column) {
    k.granularity == MINUTE || k.granularity == HOUR ==>
      Cell(m, k).Get(c) == Total(log, c, k.granularity, k.start, k.host)
  }

  /** Every stored counter is the count over the stored log. */
  ghost predicate BucketsOk(m: Buckets, log: seq<Entry>) {
    forall k, c {:trigger BucketOk(m, log, k, c)} :: BucketOk(m, log, k, c)
  }

  lemma BucketsAfterBatch(m: Buckets, log: seq<Entry>, batch: seq<Entry>)
    requires BucketsOk(m, log)
    ensures BucketsOk(CreditAll(m, FactsOf(batch)), log + batch)
  {
    forall k, c ensures BucketOk(CreditAll(m, FactsOf(batch)), log + batch, k, c) {
      assert BucketOk(m, log, k, c);
      if k.granularity == MINUTE || k.granularity == HOUR {
        CellOfCreditAll(m, FactsOf(batch), k, c);
        SumFactsIsTotal(batch, k, c);
        TotalConcat(log, batch, c, k.granularity, k.start, k.host);
      }
    }
  }

  // ---------------------------------------------------------------- conservation

  /** The first `n` minutes of the hour that starts at `hour`. */
  ghost function Minutes(log: seq<Entry>, c: Column, hour: nat, host: string, n: nat): int {
    if n == 0 then 0 else Minutes(log, c, hour, host, n - 1) + Total(log, c, MINUTE, hour + 60 * (n - 1), host)
  }

  lemma MinutesAreApart(ts: nat, hour: nat, n: nat)
    requires hour % 3600 == 0 && n > 0
    ensures Start(MINUTE, ts) == hour + 60 * (n - 1) <==>
            hour <= Start(MINUTE, ts) < hour + 60 * n && !(hour <= Start(MINUTE, ts) < hour + 60 * (n - 1))
  {
    var g := hour / 3600 * 60;
    assert hour == 60 * g;
    SixtiesAreApart(ts / 60, g, n);
  }

  lemma SixtiesAreApart(m: int, g: int, n: int)
    ensures 60 * m == 60 * g + 60 * (n - 1) <==>
            60 * g <= 60 * m < 60 * g + 60 * n && !(60 * g <= 60 * m < 60 * g + 60 * (n - 1))
    requires n > 0
  {
  }

  lemma {:induction false} MinutesStep(log: seq<Entry>, c: Column, hour: nat, host: string, n: nat)
    requires log != [] && hour % 3600 == 0
    ensures var e := log[|log| - 1];
      Minutes(log, c, hour, host, n) == Minutes(log[..|log| - 1], c, hour, host, n) +
        if hour <= Start(MINUTE, e.ts) < hour + 60 * n then Share(e, c, host) else 0
  {
    if n > 0 {
      MinutesStep(log, c, hour, host, n - 1);
      MinutesAreApart(log[|log| - 1].ts, hour, n);
    }
  }

  lemma HourOfMinute(ts: nat)
    ensures Start(HOUR, ts) <= Start(MINUTE, ts) < Start(HOUR, ts) + 3600
  {
    var m, t := ts / 60, ts / 3600;
    assert t == m / 60;
  }

  lemma MinuteInHour(ts: nat, hour: nat)
    requires hour % 3600 == 0
    ensures hour <= Start(MINUTE, ts) < hour + 3600 <==> Start(HOUR, ts) == hour
  {
    HourOfMinute(ts);
    var h, t := hour / 3600, ts / 3600;
    assert hour == h * 3600 && Start(HOUR, ts) == t * 3600;
  }

  lemma {:induction false} NoMinutes(c: Column, hour: nat, host: string, n: nat)
    ensures Minutes([], c, hour, host, n) == 0
  {
    if n > 0 { NoMinutes(c, hour, host, n - 1); }
  }

  /** Each hour is the sum of its sixty minutes, in every column. */
  lemma {:induction false} HourIsSumOfMinutes(log: seq<Entry>, c: Column, hour: nat, host: string)
    requires hour % 3600 == 0
    ensures Minutes(log, c, hour, host, 60) == Total(log, c, HOUR, hour, host)
  {
    if log == [] {
      NoMinutes(c, hour, host, 60);
    } else {
      HourIsSumOfMinutes(log[..|log| - 1], c, hour, host);
      MinutesStep(log, c, hour, host, 60);
      MinuteInHour(log[|log| - 1].ts, hour);
    }
  }

  /** Refusals split into 403 and 429; bot challenges are among the former. */
  lemma {:induction false} BlockedSplits(log: seq<Entry>, g: int, start: int, host: string)
    ensures Total(log, Blocked, g, start, host) ==
            Total(log, Blocked403, g, start, host) + Total(log, Blocked429, g, start, host)
    ensures 0 <= Total(log, BlockedBot, g, start, host) <= Total(log, Blocked403, g, start, host)
    ensures 0 <= Total(log, Blocked, g, start, host) <= Total(log, Requests, g, start, host)
  {
    if log != [] { BlockedSplits(log[..|log| - 1], g, start, host); }
  }

  ghost predicate Distinct(hosts: seq<string>) {
    forall i, j :: 0 <= i < j < |hosts| ==> hosts[i] != hosts[j]
  }

  /** `hosts` lists the hosts of the log, without the empty one. */
  ghost predicate Covers(hosts: seq<string>, log: seq<Entry>) {
    "" !in hosts && Distinct(hosts) && forall e <- log :: e.host != "" ==> e.host in hosts
  }

  ghost function SumOverHosts(log: seq<Entry>, c: Column, g: int, start: int, hosts: seq<string>): int {
    if hosts == [] then 0
    else SumOverHosts(log, c, g, start, hosts[..|hosts| - 1]) + Total(log, c, g, start, hosts[|hosts| - 1])
  }

  /** Column `c` of the entries of the bucket whose host is empty. */
  ghost function Hostless(log: seq<Entry>, c: Column, g: int, start: int): int {
    if log == [] then 0
    else
      var e := log[|log| - 1];
      Hostless(log[..|log| - 1], c, g, start) + if Start(g, e.ts) == start && e.host == "" then Amount(e, c) else 0
  }

  lemma {:induction false} SumOverHostsStep(log: seq<Entry>, c: Column, g: int, start: int, hosts: seq<string>)
    requires log != [] && "" !in hosts && Distinct(hosts)
    ensures var e := log[|log| - 1];
      SumOverHosts(log, c, g, start, hosts) == SumOverHosts(log[..|log| - 1], c, g, start, hosts) +
        if Start(g, e.ts) == start && e.host in hosts then Amount(e, c) else 0
  {
    if hosts != [] {
      var front, last := hosts[..|hosts| - 1], hosts[|hosts| - 1];
      assert hosts == front + [last] && last in hosts;
      SumOverHostsStep(log, c, g, start, front);
    }
  }

  lemma {:induction false} NoHosts(c: Column, g: int, start: int, hosts: seq<string>)
    ensures SumOverHosts([], c, g, start, hosts) == 0
  {
    if hosts != [] { NoHosts(c, g, start, hosts[..|hosts| - 1]); }
  }

  /** The total row is the sum over the hosts, plus the requests without a host, twice. */
  lemma {:induction false} TotalRowSplits(log: seq<Entry>, c: Column, g: int, start: int, hosts: seq<string>)
    requires Covers(hosts, log)
    ensures Total(log, c, g, start, "") ==
            SumOverHosts(log, c, g, start, hosts) + Hostless(log, c, g, start) + Hostless(log, c, g, start)
  {
    if log == [] {
      NoHosts(c, g, start, hosts);
    } else {
      var front, e := log[..|log| - 1], log[|log| - 1];
      assert log == front + [e] && e in log;
      TotalRowSplits(front, c, g, start, hosts);
      SumOverHostsStep(log, c, g, start, hosts);
    }
  }

  /** No hostless entry adds nothing; any adds at least one request. */
  lemma {:induction false} HostlessIsNothing(log: seq<Entry>, c: Column, g: int, start: int)
    ensures Hostless(log, Requests, g, start) >= 0
    ensures Hostless(log, Requests, g, start) == 0 <==> forall e <- log :: Start(g, e.ts) == start ==> e.host != ""
    ensures Hostless(log, Requests, g, start) == 0 ==> Hostless(log, c, g, start) == 0
  {
    if log != [] {
      var front, e := log[..|log| - 1], log[|log| - 1];
      assert log == front + [e];
      HostlessIsNothing(front, c, g, start);
    }
  }

  /** The total row is the sum over the hosts exactly when every request of the bucket has a host. */
  lemma TotalRowIsSumOverHosts(log: seq<Entry>, g: int, start: int, hosts: seq<string>)
    requires Covers(hosts, log)
    ensures (forall c :: Total(log, c, g, start, "") == SumOverHosts(log, c, g, start, hosts)) <==>
            forall e <- log :: Start(g, e.ts) == start ==> e.host != ""
  {
    HostlessIsNothing(log, Requests, g, start);
    TotalRowSplits(log, Requests, g, start, hosts);
    if Hostless(log, Requests, g, start) == 0 {
      forall c ensures Total(log, c, g, start, "") == SumOverHosts(log, c, g, start, hosts) {
        TotalRowSplits(log, c, g, start, hosts);
        HostlessIsNothing(log, c, g, start);
      }
    } else {
      assert Total(log, Requests, g, start, "") != SumOverHosts(log, Requests, g, start, hosts);
    }
  }
}
