/**
 The TCP side of `StreamProxyManager`: the one-way pump, the choice of an upstream and the fail-over
 connection loop.
 */
module StreamForwarding {
  import opened Sets

  type Byte = b: int | 0 <= b < 256

  const BUFFER_SIZE := 64 * 1024

  // ---------------------------------------------------------------- the pump

  /** One receive: some bytes, the end of the stream, or an error or cancellation. */
  datatype Receive = Data(bytes: seq<Byte>) | Eof | Failed

  /** One send: how many bytes the socket took, or an error or cancellation. */
  datatype Send = Sent(n: nat) | Broken

  ghost predicate FitsBuffer(receives: seq<Receive>) {
    forall r <- receives :: r.Data? ==> 1 <= |r.bytes| <= BUFFER_SIZE
  }

  /** The bytes of the first `n` receives. */
  ghost function Read(receives: seq<Receive>, n: nat): seq<Byte>
    requires n <= |receives|
  {
    if n == 0 then []
    else Read(receives, n - 1) + if receives[n - 1].Data? then receives[n - 1].bytes else []
  }

  /** The receives are data up to the end of the stream at `n`. */
  ghost predicate EndsAt(receives: seq<Receive>, n: nat) {
    n < |receives| && receives[n].Eof? && forall i :: 0 <= i < n ==> receives[i].Data?
  }

  /** A socket takes at least one and at most all of the offered bytes. */
  function Taken(n: nat, offered: nat): (k: nat)
    requires offered > 0
    ensures 1 <= k <= offered
  {
    if n == 0 then 1 else if n > offered then offered else n
  }

  lemma OneEnd(receives: seq<Receive>, i: nat)
    requires i <= |receives| && (i < |receives| ==> receives[i].Failed?) && forall j :: 0 <= j < i ==> receives[j].Data?
    ensures !exists m :: EndsAt(receives, m)
  {
  }

  /** The send loop: what arrives is a prefix of the buffer's first `read` bytes, all of them unless a send breaks. */
  method SendAll(buffer: array<Byte>, read: nat, send: nat -> Send, first: nat)
    returns (arrived: seq<Byte>, broken: bool, sends: nat)
    requires read <= buffer.Length
    ensures arrived <= buffer[..read] && (!broken ==> arrived == buffer[..read])
    ensures broken ==> sends >= first && send(sends).Broken?
  {
    sends, broken := first, false;
    var sent := 0;
    arrived := [];
    while sent < read
      invariant 0 <= sent <= read && arrived == buffer[..sent] && sends >= first
    {
      if send(sends).Broken? { return arrived, true, sends; }
      var k := Taken(send(sends).n, read - sent);
      arrived := arrived + buffer[sent..sent + k];
      sent := sent + k;
      sends := sends + 1;
    }
  }

  /**
   What is delivered is a prefix of what was read. The other side is told the end exactly when the end
   was read after every byte before it was delivered; without errors that always happens.
   */
  method Pump(receives: seq<Receive>, send: nat -> Send)
    returns (delivered: seq<Byte>, halfClosed: bool, ghost n: nat)
    requires FitsBuffer(receives)
    ensures n <= |receives| && forall i :: 0 <= i < n ==> receives[i].Data?
    ensures delivered <= Read(receives, n)
    ensures halfClosed ==> EndsAt(receives, n) && delivered == Read(receives, n)
    ensures (forall k :: send(k).Sent?) && (exists m :: EndsAt(receives, m)) ==> halfClosed
  {
    var buffer := new Byte[BUFFER_SIZE](_ => 0);
    delivered, halfClosed, n := [], false, 0;
    var i, sends := 0, 0;
    while i < |receives|
      invariant n == i <= |receives| && forall j :: 0 <= j < i ==> receives[j].Data?
      invariant delivered == Read(receives, i) && !halfClosed
    {
      if receives[i].Failed? {
        OneEnd(receives, i);
        return;
      }
      if receives[i].Eof? {
        halfClosed := true;
        return;
      }
      assert receives[i] in receives;
      var read := |receives[i].bytes|;
      forall j | 0 <= j < read { buffer[j] := receives[i].bytes[j]; }
      assert buffer[..read] == receives[i].bytes;
      n := i + 1;
      var arrived, broken, next := SendAll(buffer, read, send, sends);
      delivered := delivered + arrived;
      if broken { return; }
      sends := next;
      i := i + 1;
    }
    OneEnd(receives, i);
  }

  // ---------------------------------------------------------------- round robin

  const WORD := 0x1_0000_0000

  /** A 32-bit signed counter. */
  type Int32 = x: int | -0x8000_0000 <= x < 0x8000_0000

  /** `Interlocked.Increment`, which wraps. */
  function Increment(x: Int32): Int32 { if x == 0x7fff_ffff then -0x8000_0000 else x + 1 }

  /** The cast to an unsigned word. */
  function Unsigned(x: Int32): (u: nat)
    ensures u < WORD
  {
    if x < 0 then x + WORD else x
  }

  function Pick(x: Int32, count: int): (i: nat)
    requires count > 0
    ensures i < count
  {
    Unsigned(x) % count
  }

  /** The counter after `n` increments. */
  function Advanced(x: Int32, n: nat): Int32 {
    if n == 0 then x else Increment(Advanced(x, n - 1))
  }

  /** Seen as an unsigned word the counter just goes up; the sign change in the middle is invisible. */
  lemma {:induction false} UnsignedCountsUp(x: Int32, n: nat)
    requires n < WORD
    ensures Unsigned(Advanced(x, n)) == if Unsigned(x) + n < WORD then Unsigned(x) + n else Unsigned(x) + n - WORD
  {
    if n > 0 { UnsignedCountsUp(x, n - 1); }
  }

  lemma MultiplesAreFar(k: int, count: int)
    requires count > 0
    ensures (k >= 1 ==> k * count >= count) && (k <= -1 ==> k * count <= -count) && (k == 0 ==> k * count == 0)
  {
  }

  lemma ModIsUnique(x: int, count: int, q: int, r: int)
    requires count > 0 && 0 <= r < count && x == q * count + r
    ensures x % count == r
  {
    var p := x / count;
    assert x == p * count + x % count;
    assert (p - q) * count == r - x % count;
    MultiplesAreFar(p - q, count);
  }

  /** A difference below `count` keeps residues apart. */
  lemma ResiduesApart(x: nat, y: nat, count: int)
    requires count > 0 && x < y < x + count
    ensures x % count != y % count
  {
    var k := y / count - x / count;
    assert k * count == (y - y % count) - (x - x % count);
    MultiplesAreFar(k, count);
  }

  /** The `n`-th pick after the counter stood at `x`. */
  function PickAt(x: Int32, n: nat, count: int): nat
    requires count > 0
  {
    Pick(Advanced(x, n), count)
  }

  /** The next `count` picks are all different. */
  ghost predicate PicksDiffer(x: Int32, count: int)
    requires count > 0
  {
    forall i, j :: 1 <= i < j <= count ==> PickAt(x, i, count) != PickAt(x, j, count)
  }

  /** Without the wrap of the word, `count` consecutive picks are a permutation, across the signed overflow too. */
  lemma SmoothWindow(x: Int32, count: int)
    requires 0 < count && Unsigned(x) + count < WORD
    ensures PicksDiffer(x, count)
  {
    forall i, j | 1 <= i < j <= count ensures PickAt(x, i, count) != PickAt(x, j, count) {
      UnsignedCountsUp(x, i);
      UnsignedCountsUp(x, j);
      ResiduesApart(Unsigned(x) + i, Unsigned(x) + j, count);
    }
  }

  /** Right after the wrap, as for the first picks of every runner, the picks are 0, 1, 2 and so on. */
  lemma FreshWindow(x: Int32, count: int)
    requires 0 < count < WORD && Unsigned(x) + 1 == WORD
    ensures PicksDiffer(x, count)
  {
    forall i, j | 1 <= i < j <= count ensures PickAt(x, i, count) != PickAt(x, j, count) {
      UnsignedCountsUp(x, i);
      UnsignedCountsUp(x, j);
      ResiduesApart(i - 1, j - 1, count);
    }
  }

  /** The window of the next `count` picks contains the wrap of the whole word. */
  predicate Wraps(x: Int32, count: int) {
    1 < count < WORD && Unsigned(x) + 1 < WORD <= Unsigned(x) + count
  }

  lemma WrapIsSmooth(x: Int32, count: int)
    requires Wraps(x, count) && WORD % count == 0
    ensures PicksDiffer(x, count)
  {
    forall i, j | 1 <= i < j <= count ensures PickAt(x, i, count) != PickAt(x, j, count) {
      PickAfterWrap(x, i, count);
      PickAfterWrap(x, j, count);
      ResiduesApart(Unsigned(x) + i, Unsigned(x) + j, count);
    }
  }

  lemma Distribute(a: int, b: int, c: int)
    ensures (a + b) * c == a * c + b * c
  {
  }

  lemma PickAfterWrap(x: Int32, n: nat, count: int)
    requires 1 < count < WORD && WORD % count == 0 && n < WORD
    ensures PickAt(x, n, count) == (Unsigned(x) + n) % count
  {
    UnsignedCountsUp(x, n);
    var u := Unsigned(x) + n;
    if u >= WORD {
      var q, w := (u - WORD) / count, WORD / count;
      Distribute(q, w, count);
      ModIsUnique(u, count, q + w, (u - WORD) % count);
    }
  }

  /** A pick `k` places before the wrap, and one `v` places after it. */
  lemma PickBefore(x: Int32, n: nat, k: nat, count: int, w: int, v: nat)
    requires count > 0 && n < WORD && Unsigned(x) + n == WORD - k && k >= 1 && WORD - k == w * count + v && v < count
    ensures PickAt(x, n, count) == v
  {
    UnsignedCountsUp(x, n);
    ModIsUnique(WORD - k, count, w, v);
  }

  lemma PickPast(x: Int32, n: nat, count: int, v: nat)
    requires count > 0 && n < WORD && Unsigned(x) + n == WORD + v && v < count
    ensures PickAt(x, n, count) == v
  {
    UnsignedCountsUp(x, n);
    ModIsUnique(v, count, 0, v);
  }

  /** One residue comes twice, once on each side of the wrap. */
  lemma WrapCollides(x: Int32, count: int)
    requires Wraps(x, count) && WORD % count != 0
    ensures !PicksDiffer(x, count)
  {
    var before, r, w := WORD - 1 - Unsigned(x), WORD % count, WORD / count;
    assert WORD == w * count + r && 0 < r < count;
    var v := (if r < count - before then r else count - before) - 1;
    var k := r - v;
    var i, j := before + 1 - k, before + 1 + v;
    PickBefore(x, i, k, count, w, v);
    PickPast(x, j, count, v);
    assert 1 <= i < j <= count;
  }

  /** The next `count` picks. */
  ghost function Picks(x: Int32, count: nat): (s: seq<nat>)
    requires count > 0
    ensures |s| == count && forall i :: 0 <= i < count ==> s[i] == PickAt(x, i + 1, count) && s[i] < count
  {
    seq(count, i requires 0 <= i < count => PickAt(x, i + 1, count))
  }

  /** The next `count` picks visit every upstream. */
  ghost predicate VisitsAll(x: Int32, count: nat)
    requires count > 0
  {
    forall u: nat :: u < count ==> u in Picks(x, count)
  }

  /** They do exactly when no two of them are the same. */
  lemma VisitsAllIffDifferent(x: Int32, count: nat)
    requires count > 0
    ensures VisitsAll(x, count) <==> PicksDiffer(x, count)
  {
    var picks := Picks(x, count);
    DistinctCoversAll(picks);
    if Distinct(picks) {
      forall i, j | 1 <= i < j <= count ensures PickAt(x, i, count) != PickAt(x, j, count) {
        assert picks[i - 1] != picks[j - 1];
      }
    }
  }

  /**
   From any counter, the one every runner starts with included, the next `count` picks visit every upstream,
   and so each exactly once, exactly when the window does not cross the wrap of the word, or starts at it, or
   `count` divides the word.
   */
  lemma PicksAreAPermutationIff(x: Int32, count: int)
    requires 0 < count < WORD
    ensures VisitsAll(x, count) <==> PicksDiffer(x, count)
    ensures VisitsAll(x, count) <==>
            Unsigned(x) + 1 == WORD || Unsigned(x) + count < WORD || WORD % count == 0
  {
    VisitsAllIffDifferent(x, count);
    if Unsigned(x) + 1 == WORD {
      FreshWindow(x, count);
    } else if Unsigned(x) + count < WORD {
      SmoothWindow(x, count);
    } else if WORD % count == 0 {
      WrapIsSmooth(x, count);
    } else {
      WrapCollides(x, count);
    }
  }

  // ---------------------------------------------------------------- choosing and connecting

  datatype Balancing = RoundRobin | Random | LeastConnections

  class Runner {
    var roundRobin: Int32
    const upstreamConnections: array<int>

    constructor (count: nat)
      ensures roundRobin == -1 && upstreamConnections.Length == count && fresh(upstreamConnections)
      ensures forall i :: 0 <= i < count ==> upstreamConnections[i] == 0
    {
      roundRobin := -1;
      upstreamConnections := new int[count](_ => 0);
    }

    /** `random` is what the random generator would give. */
    method SelectUpstreamIndex(balancing: Balancing, random: nat) returns (index: nat)
      requires upstreamConnections.Length > 0 ==> random < upstreamConnections.Length
      modifies this`roundRobin
      ensures upstreamConnections.Length > 0 ==> index < upstreamConnections.Length
      ensures upstreamConnections.Length <= 1 ==> index == 0
      ensures upstreamConnections.Length > 1 ==>
        match balancing
        case RoundRobin => index == PickAt(old(roundRobin), 1, upstreamConnections.Length)
        case Random => index == random
        case LeastConnections =>
          (forall i :: 0 <= i < upstreamConnections.Length ==> upstreamConnections[index] <= upstreamConnections[i]) &&
          forall i :: 0 <= i < index ==> upstreamConnections[index] < upstreamConnections[i]
      ensures roundRobin == if upstreamConnections.Length > 1 && balancing.RoundRobin? then Increment(old(roundRobin))
                            else old(roundRobin)
    {
      var count := upstreamConnections.Length;
      if count <= 1 { return 0; }
      match balancing {
        case Random => return random;
        case LeastConnections =>
          index := 0;
          var min := upstreamConnections[0];
          for i := 1 to count
            invariant index < i && min == upstreamConnections[index]
            invariant forall j :: 0 <= j < i ==> min <= upstreamConnections[j]
            invariant forall j :: 0 <= j < index ==> min < upstreamConnections[j]
          {
            var c := upstreamConnections[i];
            if c < min {
              min, index := c, i;
            }
          }
        case RoundRobin =>
          roundRobin := Increment(roundRobin);
          assert Advanced(old(roundRobin), 0) == old(roundRobin);
          return Unsigned(roundRobin) % count;
      }
    }

    /**
     Starts at the selected upstream and goes round once: the first reachable one is taken and counted,
     and before giving up every upstream was tried exactly once.
     */
    method ConnectUpstream(start: nat, reachable: nat -> bool) returns (index: int, tried: seq<nat>)
      requires upstreamConnections.Length > 0 ==> start < upstreamConnections.Length
      modifies upstreamConnections
      ensures forall t <- tried :: t < upstreamConnections.Length
      ensures forall i, j :: 0 <= i < j < |tried| ==> tried[i] != tried[j]
      ensures index == -1 ==>
        (forall u: nat :: u < upstreamConnections.Length ==> u in tried && !reachable(u)) &&
        upstreamConnections[..] == old(upstreamConnections[..])
      ensures index != -1 ==>
        0 <= index < upstreamConnections.Length && reachable(index) && |tried| > 0 && tried[|tried| - 1] == index &&
        (forall i :: 0 <= i < |tried| - 1 ==> !reachable(tried[i])) &&
        upstreamConnections[..] == old(upstreamConnections[..])[index := old(upstreamConnections[index]) + 1]
      ensures tried != [] ==> tried[0] == start
    {
      var count := upstreamConnections.Length;
      tried := [];
      for attempt := 0 to count
        invariant |tried| == attempt
        invariant forall i :: 0 <= i < attempt ==> tried[i] == RoundAt(start, i, count) && !reachable(tried[i])
        invariant upstreamConnections[..] == old(upstreamConnections[..])
      {
        index := (start + attempt) % count;
        RoundIs(start, attempt, count);
        tried := tried + [index];
        if reachable(index) {
          upstreamConnections[index] := upstreamConnections[index] + 1;
          return;
        }
      }
      index := -1;
      forall u: nat | u < count ensures u in tried && !reachable(u) {
        var i := if u >= start then u - start else u + count - start;
        assert tried[i] == u;
      }
    }
  }

  /** Upstream `i` places after `start`, going round. */
  function RoundAt(start: nat, i: nat, count: nat): int {
    if start + i < count then start + i else start + i - count
  }

  lemma RoundIs(start: nat, i: nat, count: nat)
    requires start < count && i < count
    ensures (start + i) % count == RoundAt(start, i, count)
  {
    if start + i < count {
      ModIsUnique(start + i, count, 0, start + i);
    } else {
      ModIsUnique(start + i, count, 1, start + i - count);
    }
  }
}
