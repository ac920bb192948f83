/**
 Daily unique visitors and addresses: the in-memory set that saves writes, and the stored rows.
 */
module StatUniques {
  import opened Folds
  import opened Sets
  import opened StatTotals

  const IP := 1
  const VISITOR := 2
  const BLOCKED_IP := 3
  const SEEN_LIMIT := 500_000

  datatype HostKind = HostKind(host: string, kind: int)
  datatype UniqueRow = UniqueRow(day: int, who: HostKind, hash: int)

  /** Per day, a number like 20240131, the hashes already written. */
  type Seen = map<int, map<HostKind, set<int>>>

  datatype Uniques = Uniques(rows: set<UniqueRow>, seen: Seen)

  /**
   The memory once `day` is about to be used: a new day drops the days numbered below `day - 1`. That
   number is the day before only within a month, so on the first of a month every earlier day is dropped.
   */
  ghost function OpenDay(seen: Seen, day: int): Seen {
    if day in seen then seen
    else (map d | d in seen && d >= day - 1 :: seen[d])[day := map[]]
  }

  ghost function HashesOf(seen: Seen, day: int, who: HostKind): set<int> {
    if day in seen && who in seen[day] then seen[day][who] else {}
  }

  /** The row is taken for written already: it is remembered and the memory is not full. */
  ghost predicate Skips(seen: Seen, r: UniqueRow) {
    var hashes := HashesOf(seen, r.day, r.who);
    r.hash in hashes && |hashes| < SEEN_LIMIT
  }

  ghost function NextSeen(seen: Seen, r: UniqueRow): Seen {
    var ready := OpenDay(seen, r.day);
    var hashes := HashesOf(seen, r.day, r.who);
    ready[r.day := ready[r.day][r.who := if |hashes| < SEEN_LIMIT then hashes + {r.hash} else hashes]]
  }

  ghost function RecordUnique(u: Uniques, r: UniqueRow): Uniques {
    Uniques(if Skips(u.seen, r) then u.rows else u.rows + {r}, NextSeen(u.seen, r))
  }

  ghost function RecordUniques(u: Uniques, rs: seq<UniqueRow>): Uniques { Fold(RecordUnique, u, rs) }

  // ---------------------------------------------------------------- what a request records

  function HostRows(e: Entry, host: string): seq<UniqueRow> {
    [UniqueRow(e.day, HostKind(host, IP), e.ipHash), UniqueRow(e.day, HostKind(host, VISITOR), e.visitorHash)] +
    if e.blocked != 0 then [UniqueRow(e.day, HostKind(host, BLOCKED_IP), e.ipHash)] else []
  }

  function EntryRows(e: Entry): seq<UniqueRow> { HostRows(e, e.host) + HostRows(e, "") }

  ghost function RowsOf(log: seq<Entry>): seq<UniqueRow> { FlatMap(EntryRows, log) }

  ghost function SetOf(rs: seq<UniqueRow>): set<UniqueRow> { set r | r in rs }

  // ---------------------------------------------------------------- the memory only saves writes

  /** Whatever the memory would skip is stored. */
  ghost predicate SkippedStored(u: Uniques) {
    forall r {:trigger Skips(u.seen, r)} :: Skips(u.seen, r) ==> r in u.rows
  }

  lemma InsertIsLarger(s: set<int>, x: int)
    ensures |s| <= |s + {x}|
  {
    SubsetIsSmaller(s, s + {x});
  }

  /** Recording a row makes the memory skip no other row it did not skip before. */
  lemma SkipsNext(seen: Seen, r: UniqueRow, q: UniqueRow)
    requires Skips(NextSeen(seen, r), q)
    ensures q == r || Skips(seen, q)
  {
    if q.day == r.day && q.who == r.who && q.hash != r.hash {
      InsertIsLarger(HashesOf(seen, r.day, r.who), r.hash);
    }
  }

  lemma RecordUniqueStores(u: Uniques, r: UniqueRow)
    requires SkippedStored(u)
    ensures SkippedStored(RecordUnique(u, r)) && RecordUnique(u, r).rows == u.rows + {r}
  {
    forall q | Skips(NextSeen(u.seen, r), q) ensures q in u.rows + {r} { SkipsNext(u.seen, r, q); }
  }

  /** While everything the memory skips is stored, exactly the rows of the requests are stored. */
  lemma {:induction false} UniquesAreExact(u: Uniques, rs: seq<UniqueRow>)
    requires SkippedStored(u)
    ensures SkippedStored(RecordUniques(u, rs)) && RecordUniques(u, rs).rows == u.rows + SetOf(rs)
  {
    if rs != [] {
      var front, r := rs[..|rs| - 1], rs[|rs| - 1];
      UniquesAreExact(u, front);
      RecordUniqueStores(RecordUniques(u, front), r);
      assert rs == front + [r];
      assert SetOf(rs) == SetOf(front) + {r};
    }
  }

  /** Every stream of rows to come is stored. */
  ghost predicate StoresAll(u: Uniques) {
    forall rs {:trigger RecordUniques(u, rs)} :: RecordUniques(u, rs).rows == u.rows + SetOf(rs)
  }

  lemma RecordOne(u: Uniques, r: UniqueRow)
    ensures RecordUniques(u, [r]) == RecordUnique(u, r) && SetOf([r]) == {r}
  {
    FoldSnoc(RecordUnique, u, [], r);
    assert [] + [r] == [r];
    assert forall q :: q in SetOf([r]) <==> q == r;
  }

  /** From any state, whatever it went through: all that comes is stored exactly when all that would be skipped is. */
  lemma StoresAllIff(u: Uniques)
    ensures StoresAll(u) <==> SkippedStored(u)
  {
    if SkippedStored(u) {
      forall rs ensures RecordUniques(u, rs).rows == u.rows + SetOf(rs) { UniquesAreExact(u, rs); }
    } else {
      var r :| Skips(u.seen, r) && r !in u.rows;
      RecordOne(u, r);
      assert r in SetOf([r]) && r !in RecordUniques(u, [r]).rows;
    }
  }

  /** Collecting rows in a batch and inserting them later is the same as inserting each at once. */
  lemma {:induction false} UniquesCommute(store: set<UniqueRow>, u: Uniques, rs: seq<UniqueRow>)
    ensures var batch, whole := RecordUniques(u, rs), RecordUniques(Uniques(store + u.rows, u.seen), rs);
      whole.seen == batch.seen && whole.rows == store + batch.rows
  {
    if rs != [] {
      var front, r := rs[..|rs| - 1], rs[|rs| - 1];
      UniquesCommute(store, u, front);
      var batch := RecordUniques(u, front);
      assert (store + batch.rows) + {r} == store + (batch.rows + {r});
    }
  }

  // ---------------------------------------------------------------- lost batches

  /** What a lost batch leaves: the store as it was, the memory of after the batch. */
  ghost function WithoutBatch(u: Uniques, batch: seq<UniqueRow>): Uniques {
    Uniques(u.rows, RecordUniques(u, batch).seen)
  }

  /** After a batch is lost, all that comes is stored exactly when no row of the batch is skipped that is not stored. */
  lemma LostBatchIff(u: Uniques, batch: seq<UniqueRow>)
    requires SkippedStored(u)
    ensures StoresAll(WithoutBatch(u, batch)) <==>
            forall r <- batch :: Skips(RecordUniques(u, batch).seen, r) ==> r in u.rows
  {
    UniquesAreExact(u, batch);
    StoresAllIff(WithoutBatch(u, batch));
    assert RecordUniques(u, batch).rows == u.rows + SetOf(batch);
  }

  /** A row no more than a day number ahead does not make the memory drop the day of `r`. */
  lemma MemoryGrows(seen: Seen, q: UniqueRow, r: UniqueRow)
    requires q.day <= r.day + 1
    ensures HashesOf(seen, r.day, r.who) <= HashesOf(NextSeen(seen, q), r.day, r.who)
  {
  }

  /** Nothing of `rs` drops the day of `r`. */
  predicate KeepsDay(rs: seq<UniqueRow>, r: UniqueRow) {
    forall q <- rs :: q.day <= r.day + 1
  }

  lemma {:induction false} MemoryGrowsOn(u: Uniques, rs: seq<UniqueRow>, r: UniqueRow)
    requires KeepsDay(rs, r)
    ensures HashesOf(u.seen, r.day, r.who) <= HashesOf(RecordUniques(u, rs).seen, r.day, r.who)
  {
    if rs != [] {
      var front, q := rs[..|rs| - 1], rs[|rs| - 1];
      MemoryGrowsOn(u, front, r);
      assert q in rs;
      MemoryGrows(RecordUniques(u, front).seen, q, r);
    }
  }

  ghost predicate HasRoom(seen: Seen, r: UniqueRow) { |HashesOf(seen, r.day, r.who)| < SEEN_LIMIT }

  /** What was recorded is skipped from then on, while its day is kept and the memory has room. */
  lemma {:induction false} RecordedIsSkipped(u: Uniques, rs: seq<UniqueRow>, r: UniqueRow)
    requires r in rs && KeepsDay(rs, r) && HasRoom(RecordUniques(u, rs).seen, r)
    ensures Skips(RecordUniques(u, rs).seen, r)
  {
    var front, q := rs[..|rs| - 1], rs[|rs| - 1];
    var before := RecordUniques(u, front).seen;
    assert q in rs;
    MemoryGrows(before, q, r);
    SubsetIsSmaller(HashesOf(before, r.day, r.who), HashesOf(NextSeen(before, q), r.day, r.who));
    if q != r {
      assert rs == front + [q];
      RecordedIsSkipped(u, front, r);
    }
  }

  lemma {:induction false} SkippedStaysOut(u: Uniques, rs: seq<UniqueRow>, r: UniqueRow)
    requires Skips(u.seen, r) && r !in u.rows
    requires KeepsDay(rs, r) && HasRoom(RecordUniques(u, rs).seen, r)
    ensures r !in RecordUniques(u, rs).rows
  {
    if rs != [] {
      var front, q := rs[..|rs| - 1], rs[|rs| - 1];
      var before := RecordUniques(u, front);
      assert q in rs;
      MemoryGrows(before.seen, q, r);
      SubsetIsSmaller(HashesOf(before.seen, r.day, r.who), HashesOf(NextSeen(before.seen, q), r.day, r.who));
      SkippedStaysOut(u, front, r);
      MemoryGrowsOn(u, front, r);
      assert Skips(before.seen, r);
    }
  }

  /**
   Any new row of any lost batch stays out of the store however often it comes again, while its day is
   kept and the memory has room.
   */
  lemma LostBatchLosesItsRows(u: Uniques, batch: seq<UniqueRow>, later: seq<UniqueRow>, r: UniqueRow)
    requires r in batch && r !in u.rows && KeepsDay(batch, r) && KeepsDay(later, r)
    requires HasRoom(RecordUniques(WithoutBatch(u, batch), later).seen, r)
    ensures r !in RecordUniques(WithoutBatch(u, batch), later).rows
  {
    var lost := WithoutBatch(u, batch);
    MemoryGrowsOn(lost, later, r);
    SubsetIsSmaller(HashesOf(lost.seen, r.day, r.who), HashesOf(RecordUniques(lost, later).seen, r.day, r.who));
    RecordedIsSkipped(u, batch, r);
    SkippedStaysOut(lost, later, r);
  }
}
