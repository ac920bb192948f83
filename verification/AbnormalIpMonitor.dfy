/**
 `AbnormalIpMonitor`: a ring of twelve five-second buckets per IP, proved to agree with counting the
 full history of errors, and an eviction rule that never drops an IP the panel would show.
 */
module AbnormalIpMonitor {
  const ABNORMAL_THRESHOLD := 20
  const BUCKET_SECONDS := 5
  const BUCKET_COUNT := 12
  const TICKS_PER_SECOND := 10_000_000
  const UNIX_EPOCH_TICKS := 621_355_968_000_000_000
  const ABNORMAL_RETENTION := 30 * 60 * TICKS_PER_SECOND
  const ENTRY_TTL := 24 * 3600 * TICKS_PER_SECOND
  const PRESSURE_IDLE_EVICTION := 10 * 60 * TICKS_PER_SECOND

  /** A clock reading in 100 ns ticks, not before 1970. */
  type Ticks = t: int | t >= UNIX_EPOCH_TICKS witness UNIX_EPOCH_TICKS

  /** Unix seconds divided by the bucket length. */
  function BucketKey(now: Ticks): nat {
    (now - UNIX_EPOCH_TICKS) / TICKS_PER_SECOND / BUCKET_SECONDS
  }

  /** A bucket is five seconds long, counted from 1970. */
  lemma BucketIsFiveSeconds(now: Ticks, k: nat)
    ensures BucketKey(now) == k <==>
      UNIX_EPOCH_TICKS + 50_000_000 * k <= now < UNIX_EPOCH_TICKS + 50_000_000 * (k + 1)
  {
  }

  // ---------------------------------------------------------------- what the ring stands for

  /** Number of events with bucket key `k`. */
  function CountKey(history: seq<Ticks>, k: int): nat {
    if history == [] then 0
    else CountKey(history[..|history| - 1], k) + if BucketKey(history[|history| - 1]) == k then 1 else 0
  }

  /** Number of events whose bucket key lies in the window of twelve buckets that ends at `key`. */
  function WindowCount(history: seq<Ticks>, key: int): nat {
    if history == [] then 0
    else
      var k := BucketKey(history[|history| - 1]);
      WindowCount(history[..|history| - 1], key) + if key - (BUCKET_COUNT - 1) <= k <= key then 1 else 0
  }

  /** The last time the window reached the threshold, 0 if never. */
  function LastAbnormal(history: seq<Ticks>): int {
    if history == [] then 0
    else
      var last := history[|history| - 1];
      if WindowCount(history, BucketKey(last)) >= ABNORMAL_THRESHOLD then last
      else LastAbnormal(history[..|history| - 1])
  }

  predicate Nondecreasing(history: seq<Ticks>) {
    forall i, j :: 0 <= i < j < |history| ==> history[i] <= history[j]
  }

  /** The tick fields of an entry are what the history says. */
  ghost predicate TicksSound(history: seq<Ticks>, total: int, firstSeen: int, lastSeen: int, lastAbnormal: int) {
    && Nondecreasing(history)
    && total == |history|
    && firstSeen == (if history == [] then 0 else history[0])
    && lastSeen == (if history == [] then 0 else history[|history| - 1])
    && lastAbnormal == LastAbnormal(history)
  }

  lemma TicksAfterRecord(h: seq<Ticks>, total: int, firstSeen: int, lastSeen: int, lastAbnormal: int, now: Ticks)
    requires TicksSound(h, total, firstSeen, lastSeen, lastAbnormal) && forall e <- h :: e <= now
    ensures TicksSound(h + [now], total + 1, if firstSeen == 0 then now else firstSeen, now,
              if WindowCount(h + [now], BucketKey(now)) >= ABNORMAL_THRESHOLD then now else lastAbnormal)
  {
    assert (h + [now])[..|h|] == h;
    assert forall i :: 0 <= i < |h| ==> h[i] in h;
  }

  /** The one key of the window ending at `key` that lives in slot `i`. */
  function KeyOfSlot(key: int, i: nat): int
    requires i < BUCKET_COUNT
  {
    key - (key - i) % BUCKET_COUNT
  }

  lemma KeyOfSlotIsUnique(key: int, k: int, i: nat)
    requires i < BUCKET_COUNT
    ensures key - (BUCKET_COUNT - 1) <= KeyOfSlot(key, i) <= key && KeyOfSlot(key, i) % BUCKET_COUNT == i
    ensures key - (BUCKET_COUNT - 1) <= k <= key ==> (k == KeyOfSlot(key, i) <==> k % BUCKET_COUNT == i)
  {
  }

  function SumOfSlots(history: seq<Ticks>, key: int, n: nat): nat
    requires n <= BUCKET_COUNT
  {
    if n == 0 then 0 else SumOfSlots(history, key, n - 1) + CountKey(history, KeyOfSlot(key, n - 1))
  }

  lemma {:induction false} SumOfSlotsStep(history: seq<Ticks>, key: int, n: nat)
    requires n <= BUCKET_COUNT && history != []
    ensures var k := BucketKey(history[|history| - 1]);
      SumOfSlots(history, key, n) == SumOfSlots(history[..|history| - 1], key, n) +
        if key - (BUCKET_COUNT - 1) <= k <= key && k % BUCKET_COUNT < n then 1 else 0
  {
    if n > 0 {
      SumOfSlotsStep(history, key, n - 1);
      KeyOfSlotIsUnique(key, BucketKey(history[|history| - 1]), n - 1);
    }
  }

  /** The twelve slots partition the window. */
  lemma {:induction false} SlotsPartitionWindow(history: seq<Ticks>, key: int)
    ensures SumOfSlots(history, key, BUCKET_COUNT) == WindowCount(history, key)
  {
    if history == [] {
      EmptySum(key, BUCKET_COUNT);
    } else {
      SlotsPartitionWindow(history[..|history| - 1], key);
      SumOfSlotsStep(history, key, BUCKET_COUNT);
    }
  }

  lemma {:induction false} EmptySum(key: int, n: nat)
    requires n <= BUCKET_COUNT
    ensures SumOfSlots([], key, n) == 0
  {
    if n > 0 { EmptySum(key, n - 1); }
  }

  // ---------------------------------------------------------------- slots

  /** A slot holds the newest key of its residue with the number of its events, or it was never used. */
  predicate SlotOk(history: seq<Ticks>, i: nat, key: int, count: int) {
    if count == 0 then key == 0 && forall e <- history :: BucketKey(e) % BUCKET_COUNT != i
    else
      && key % BUCKET_COUNT == i && count == CountKey(history, key)
      && forall e <- history :: BucketKey(e) % BUCKET_COUNT == i ==> BucketKey(e) <= key
  }

  lemma {:induction false} CountIsPositiveIffSeen(history: seq<Ticks>, k: int)
    ensures CountKey(history, k) > 0 <==> exists e <- history :: BucketKey(e) == k
  {
    if history != [] {
      var front, last := history[..|history| - 1], history[|history| - 1];
      CountIsPositiveIffSeen(front, k);
      assert history == front + [last];
      assert forall e :: e in history <==> e in front || e == last;
    }
  }

  /** What one slot contributes to the window is the count of its key in the window. */
  lemma SlotContribution(history: seq<Ticks>, i: nat, key: int, count: int, now: int)
    requires i < BUCKET_COUNT && SlotOk(history, i, key, count)
    requires forall e <- history :: BucketKey(e) <= now
    ensures (if key < now - (BUCKET_COUNT - 1) then 0 else count) == CountKey(history, KeyOfSlot(now, i))
  {
    var w := KeyOfSlot(now, i);
    KeyOfSlotIsUnique(now, key, i);
    CountIsPositiveIffSeen(history, w);
    CountIsPositiveIffSeen(history, key);
  }

  /** Recording an event updates its slot: a stale key is replaced and its count restarted. */
  lemma SlotAfterRecord(history: seq<Ticks>, i: nat, key: int, count: int, now: Ticks)
    requires i < BUCKET_COUNT && SlotOk(history, i, key, count) && count >= 0
    requires forall e <- history :: e <= now
    ensures var k := BucketKey(now);
      if k % BUCKET_COUNT != i then SlotOk(history + [now], i, key, count)
      else SlotOk(history + [now], i, k, (if key == k then count else 0) + 1)
  {
    var k := BucketKey(now);
    var h := history + [now];
    assert h[..|history|] == history;
    CountIsPositiveIffSeen(history, k);
    CountIsPositiveIffSeen(history, key);
    forall e | e in history ensures BucketKey(e) <= k { KeysFollowTime(e, now); }
    assert forall e :: e in h <==> e in history || e == now;
    assert CountKey(h, k) == CountKey(history, k) + 1;
    assert key != k ==> CountKey(h, key) == CountKey(history, key);
  }

  /** The ring as two sequences. */
  ghost predicate RingSound(history: seq<Ticks>, keys: seq<int>, counts: seq<int>) {
    && |keys| == |counts| == BUCKET_COUNT
    && forall i :: 0 <= i < BUCKET_COUNT ==> counts[i] >= 0 && SlotOk(history, i, keys[i], counts[i])
  }

  lemma RingAfterRecord(history: seq<Ticks>, keys: seq<int>, counts: seq<int>, now: Ticks)
    requires RingSound(history, keys, counts) && forall e <- history :: e <= now
    ensures var k := BucketKey(now); var i := k % BUCKET_COUNT;
      RingSound(history + [now], keys[i := k], counts[i := (if keys[i] == k then counts[i] else 0) + 1])
  {
    forall i | 0 <= i < BUCKET_COUNT
      ensures var k := BucketKey(now);
        if k % BUCKET_COUNT != i then SlotOk(history + [now], i, keys[i], counts[i])
        else SlotOk(history + [now], i, k, (if keys[i] == k then counts[i] else 0) + 1)
    {
      SlotAfterRecord(history, i, keys[i], counts[i], now);
    }
  }

  lemma KeysFollowTime(a: Ticks, b: Ticks)
    requires a <= b
    ensures BucketKey(a) <= BucketKey(b)
  {
    var x, y := (a - UNIX_EPOCH_TICKS) / TICKS_PER_SECOND, (b - UNIX_EPOCH_TICKS) / TICKS_PER_SECOND;
    assert x <= y;
  }

  lemma KeysUpTo(history: seq<Ticks>, now: Ticks)
    requires forall e <- history :: e <= now
    ensures forall e <- history + [now] :: BucketKey(e) <= BucketKey(now)
  {
    forall e | e in history ensures BucketKey(e) <= BucketKey(now) { KeysFollowTime(e, now); }
  }

  /** A window that is not empty contains an event. */
  lemma {:induction false} SomeEventInWindow(history: seq<Ticks>, key: int) returns (i: nat)
    requires WindowCount(history, key) > 0
    ensures i < |history| && key - (BUCKET_COUNT - 1) <= BucketKey(history[i]) <= key
  {
    i := |history| - 1;
    var k := BucketKey(history[i]);
    if !(key - (BUCKET_COUNT - 1) <= k <= key) {
      i := SomeEventInWindow(history[..|history| - 1], key);
    }
  }

  /** Events in the window are less than sixty seconds old. */
  lemma WindowIsShort(e: Ticks, now: Ticks)
    requires BucketKey(e) >= BucketKey(now) - (BUCKET_COUNT - 1)
    ensures now - e < BUCKET_COUNT * BUCKET_SECONDS * TICKS_PER_SECOND
  {
  }

  // ---------------------------------------------------------------- moments of trouble

  /** With event `j` the window reached the threshold. */
  ghost predicate AbnormalMoment(history: seq<Ticks>, j: nat) {
    j < |history| && WindowCount(history[..j + 1], BucketKey(history[j])) >= ABNORMAL_THRESHOLD
  }

  lemma SamePrefix(history: seq<Ticks>, j: nat)
    requires j + 1 < |history|
    ensures AbnormalMoment(history, j) <==> AbnormalMoment(history[..|history| - 1], j)
  {
    assert history[..j + 1] == history[..|history| - 1][..j + 1];
  }

  /** No moment of trouble is later than the remembered time. */
  lemma {:induction false} MomentsAreRemembered(history: seq<Ticks>, j: nat)
    requires Nondecreasing(history) && AbnormalMoment(history, j)
    ensures history[j] <= LastAbnormal(history)
  {
    if j == |history| - 1 {
      assert history[..j + 1] == history;
    } else {
      SamePrefix(history, j);
      MomentsAreRemembered(history[..|history| - 1], j);
    }
  }

  /** The remembered time, if any, is that of a moment of trouble. */
  lemma {:induction false} RememberedMoment(history: seq<Ticks>) returns (j: nat)
    requires LastAbnormal(history) != 0
    ensures AbnormalMoment(history, j) && history[j] == LastAbnormal(history)
  {
    var n := |history| - 1;
    if WindowCount(history, BucketKey(history[n])) >= ABNORMAL_THRESHOLD {
      assert history[..n + 1] == history;
      j := n;
    } else {
      j := RememberedMoment(history[..n]);
      SamePrefix(history, j);
    }
  }

  // ---------------------------------------------------------------- one IP

  class IpEntry {
    const bucketKeys: array<int>
    const bucketCounts: array<int>
    var total: int
    var firstSeen: int
    var lastSeen: int
    var lastAbnormal: int
    ghost var history: seq<Ticks>

    /** The ring alone agrees with the history. */
    ghost predicate RingOk()
      reads this`history, bucketKeys, bucketCounts
    {
      && bucketKeys.Length == BUCKET_COUNT && bucketCounts.Length == BUCKET_COUNT && bucketKeys != bucketCounts
      && RingSound(history, bucketKeys[..], bucketCounts[..])
    }

    ghost predicate Valid()
      reads this, bucketKeys, bucketCounts
    {
      RingOk() && TicksSound(history, total, firstSeen, lastSeen, lastAbnormal)
    }

    constructor ()
      ensures Valid() && history == [] && fresh(bucketKeys) && fresh(bucketCounts)
    {
      bucketKeys := new int[BUCKET_COUNT](_ => 0);
      bucketCounts := new int[BUCKET_COUNT](_ => 0);
      total, firstSeen, lastSeen, lastAbnormal, history := 0, 0, 0, 0, [];
    }

    /** The ring agrees with counting the full history. */
    method GetWindowErrorCount(now: int) returns (sum: int)
      requires RingOk() && forall e <- history :: BucketKey(e) <= now
      ensures sum == WindowCount(history, now)
    {
      var minKey := now - (BUCKET_COUNT - 1);
      sum := 0;
      for i := 0 to BUCKET_COUNT
        invariant sum == SumOfSlots(history, now, i)
      {
        SlotContribution(history, i, bucketKeys[..][i], bucketCounts[..][i], now);
        if bucketKeys[i] >= minKey {
          sum := sum + bucketCounts[i];
        }
      }
      SlotsPartitionWindow(history, now);
    }

    method IncrementBucket(now: Ticks)
      requires bucketKeys.Length == BUCKET_COUNT && bucketCounts.Length == BUCKET_COUNT && bucketKeys != bucketCounts
      modifies bucketKeys, bucketCounts
      ensures var i := BucketKey(now) % BUCKET_COUNT;
        && bucketKeys[..] == old(bucketKeys[..])[i := BucketKey(now)]
        && bucketCounts[..] ==
             old(bucketCounts[..])[i := (if old(bucketKeys[i]) == BucketKey(now) then old(bucketCounts[i]) else 0) + 1]
    {
      var index := BucketKey(now) % BUCKET_COUNT;
      if bucketKeys[index] != BucketKey(now) {
        bucketKeys[index] := BucketKey(now);
        bucketCounts[index] := 0;
      }
      bucketCounts[index] := bucketCounts[index] + 1;
    }

    /** The ring part of `Record`: the new bucket, then the window it ends. */
    method CountEvent(now: Ticks) returns (windowCount: int)
      requires RingOk() && forall e <- history :: e <= now
      modifies this`history, bucketKeys, bucketCounts
      ensures RingOk() && history == old(history) + [now]
      ensures windowCount == WindowCount(history, BucketKey(now))
    {
      ghost var before := history;
      RingAfterRecord(history, bucketKeys[..], bucketCounts[..], now);
      IncrementBucket(now);
      history := history + [now];
      KeysUpTo(before, now);
      windowCount := GetWindowErrorCount(BucketKey(now));
    }

    method Record(now: Ticks)
      requires Valid() && forall e <- history :: e <= now
      modifies this, bucketKeys, bucketCounts
      ensures Valid() && history == old(history) + [now]
    {
      ghost var before := history;
      TicksAfterRecord(history, total, firstSeen, lastSeen, lastAbnormal, now);
      total := total + 1;
      if firstSeen == 0 { firstSeen := now; }
      lastSeen := now;
      var windowCount := CountEvent(now);
      if windowCount >= ABNORMAL_THRESHOLD {
        lastAbnormal := now;
      }
      assert history == before + [now] && RingOk();
    }

    /** What the panel shows at time `now`, in terms of the history alone. */
    ghost predicate IsAbnormal(now: Ticks)
      reads this
    {
      || WindowCount(history, BucketKey(now)) >= ABNORMAL_THRESHOLD
      || (LastAbnormal(history) != 0 && now - LastAbnormal(history) <= ABNORMAL_RETENTION)
    }

    /** The decision of `TrySnapshot`. */
    method TrySnapshot(now: Ticks) returns (abnormal: bool, windowCount: int)
      requires Valid() && forall e <- history :: e <= now
      ensures abnormal <==> IsAbnormal(now)
      ensures windowCount == WindowCount(history, BucketKey(now))
    {
      forall e | e in history ensures BucketKey(e) <= BucketKey(now) { KeysFollowTime(e, now); }
      windowCount := GetWindowErrorCount(BucketKey(now));
      abnormal := windowCount >= ABNORMAL_THRESHOLD ||
        (lastAbnormal != 0 && now - lastAbnormal <= ABNORMAL_RETENTION);
    }

    predicate CanEvict(now: Ticks, idle: int)
      reads this
    {
      && lastSeen != 0
      && now - lastSeen >= idle
      && (lastAbnormal == 0 || now - lastAbnormal > ABNORMAL_RETENTION)
    }

    /** Idle for the limit, and no moment of trouble within the retention. */
    ghost predicate Stale(now: Ticks, idle: int)
      reads this
    {
      && history != [] && now - history[|history| - 1] >= idle
      && forall j: nat :: AbnormalMoment(history, j) ==> now - history[j] > ABNORMAL_RETENTION
    }

    /** Exactly the stale entries are evictable. */
    lemma EvictableIffStale(now: Ticks, idle: int)
      requires Valid()
      ensures CanEvict(now, idle) <==> Stale(now, idle)
    {
      forall j: nat | AbnormalMoment(history, j) ensures history[j] <= LastAbnormal(history) {
        MomentsAreRemembered(history, j);
      }
      if LastAbnormal(history) != 0 {
        var j := RememberedMoment(history);
      }
    }

    /** An IP that the panel would show is never evicted, at any idle limit of at least the window length. */
    lemma ShownIsNotEvictable(now: Ticks, idle: int)
      requires Valid() && (forall e <- history :: e <= now) && IsAbnormal(now)
      requires idle >= BUCKET_COUNT * BUCKET_SECONDS * TICKS_PER_SECOND
      ensures !CanEvict(now, idle)
    {
      if WindowCount(history, BucketKey(now)) >= ABNORMAL_THRESHOLD {
        var i := SomeEventInWindow(history, BucketKey(now));
        WindowIsShort(history[i], now);
        assert history[i] <= history[|history| - 1];
      }
    }
  }

  // ---------------------------------------------------------------- all IPs

  class Monitor {
    var entries: map<string, IpEntry>

    ghost predicate Valid(now: Ticks)
      reads this, entries.Values, set e <- entries.Values :: e.bucketKeys, set e <- entries.Values :: e.bucketCounts
    {
      forall ip <- entries :: entries[ip].Valid() && forall e <- entries[ip].history :: e <= now
    }

    /** Drops idle entries; whatever the panel would show stays. */
    method Cleanup(now: Ticks, idle: int)
      requires Valid(now) && idle >= BUCKET_COUNT * BUCKET_SECONDS * TICKS_PER_SECOND
      modifies this
      ensures entries == map ip | ip in old(entries) && !old(entries)[ip].CanEvict(now, idle) :: old(entries)[ip]
      ensures forall ip <- old(entries) :: ip in entries <==> !old(entries)[ip].Stale(now, idle)
      ensures forall ip <- old(entries) :: old(entries)[ip].IsAbnormal(now) ==> ip in entries
    {
      forall ip | ip in entries ensures entries[ip].CanEvict(now, idle) <==> entries[ip].Stale(now, idle) {
        entries[ip].EvictableIffStale(now, idle);
      }
      forall ip | ip in entries && entries[ip].IsAbnormal(now) ensures !entries[ip].CanEvict(now, idle) {
        entries[ip].ShownIsNotEvictable(now, idle);
      }
      entries := map ip | ip in entries && !entries[ip].CanEvict(now, idle) :: entries[ip];
    }
  }
}
