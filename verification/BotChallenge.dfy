/**
 Signed tokens and one-shot challenges of `BotProtectionService`. JSON and HMAC are parameters; nothing
 is assumed of HMAC.
 */
module BotChallenge {
  import opened JwsConvert
  import opened Text
  import opened Wrappers

  // ---------------------------------------------------------------- signed tokens

  datatype Codec<!T> = Codec(
    json: T -> seq<Byte>,
    parse: seq<Byte> -> Option<T>,
    hmac: (seq<Byte>, seq<Byte>) -> seq<Byte>,
    isWhite: char -> bool)

  const KEY_LENGTH := 32

  function Sign<T>(c: Codec<T>, key: seq<Byte>, value: T): string {
    if |key| < KEY_LENGTH then ""
    else EncodeTrimmed(c.json(value)) + "." + EncodeTrimmed(c.hmac(key, c.json(value)))
  }

  function TryReadSigned<T>(c: Codec<T>, key: seq<Byte>, encoded: string): Option<T> {
    if Blank(encoded, c.isWhite) || |key| < KEY_LENGTH then None
    else
      var separator := IndexOf(encoded, '.');
      if separator <= 0 || separator == |encoded| - 1 then None
      else
        var payload, signature := DecodeFilled(encoded[..separator]), DecodeFilled(encoded[separator + 1..]);
        if payload == None || signature == None then None
        else if signature.value != c.hmac(key, payload.value) then None
        else c.parse(payload.value)
  }

  /** The first dot of two encodings joined by a dot is the one that joins them. */
  lemma SplitsAtTheDot(a: string, b: string)
    requires '.' !in a
    ensures var s := a + "." + b;
      IndexOf(s, '.') == |a| && s[..|a|] == a && s[|a| + 1..] == b
  {
    FirstIndex(a + "." + b, '.', |a|);
  }

  lemma DecodeFilledInverts(bytes: seq<Byte>)
    ensures DecodeFilled(EncodeTrimmed(bytes)) == Some(bytes)
  {
    EncodersAgree(bytes);
    RoundTrip(bytes);
    DecodersRefuseTheSame(Encode(bytes));
  }

  /** Reading any two encodings joined by a dot. */
  lemma ReadJoined<T>(c: Codec<T>, key: seq<Byte>, payload: seq<Byte>, signature: seq<Byte>)
    requires |key| >= KEY_LENGTH && payload != [] && signature != [] && !c.isWhite('.')
    ensures TryReadSigned(c, key, EncodeTrimmed(payload) + "." + EncodeTrimmed(signature)) ==
            if signature == c.hmac(key, payload) then c.parse(payload) else None
  {
    var a, b := EncodeTrimmed(payload), EncodeTrimmed(signature);
    EncodersAgree(payload);
    EncodersAgree(signature);
    SplitsAtTheDot(a, b);
    assert (a + "." + b)[|a|] == '.';
    DecodeFilledInverts(payload);
    DecodeFilledInverts(signature);
  }

  /**
   A signed value that survives JSON reads back exactly under a key of at least 32 bytes; under a shorter
   one no text at all is accepted.
   */
  lemma SignedReadsBack<T>(c: Codec<T>, key: seq<Byte>, value: T)
    requires !c.isWhite('.')
    requires c.parse(c.json(value)) == Some(value) && c.json(value) != [] && c.hmac(key, c.json(value)) != []
    ensures TryReadSigned(c, key, Sign(c, key, value)) == if |key| >= KEY_LENGTH then Some(value) else None
    ensures |key| < KEY_LENGTH ==> forall text :: TryReadSigned(c, key, text) == None
  {
    if |key| >= KEY_LENGTH { ReadJoined(c, key, c.json(value), c.hmac(key, c.json(value))); }
  }

  /** Another payload under the signature of `value` is read only if the two have the same HMAC. */
  lemma OtherPayloadNeedsCollision<T>(c: Codec<T>, key: seq<Byte>, value: T, payload: seq<Byte>)
    requires |key| >= KEY_LENGTH && !c.isWhite('.') && payload != [] && c.hmac(key, c.json(value)) != []
    requires TryReadSigned(c, key, EncodeTrimmed(payload) + "." + EncodeTrimmed(c.hmac(key, c.json(value)))).Some?
    ensures c.hmac(key, payload) == c.hmac(key, c.json(value))
  {
    ReadJoined(c, key, payload, c.hmac(key, c.json(value)));
  }

  // ---------------------------------------------------------------- one call after another

  /** A nonce belongs to one signed state, so it has one expiry. */
  type Nonce = string

  class Challenges {
    const expires: Nonce -> int
    var consumed: map<Nonce, int>
    /** Nonces consumed so far, and the latest clock reading. */
    ghost var used: set<Nonce>
    ghost var clock: int

    ghost predicate Valid()
      reads this
    {
      && (forall n <- consumed :: n in used && consumed[n] == expires(n))
      && forall n <- used :: n in consumed || expires(n) < clock
    }

    constructor (expires: Nonce -> int)
      ensures Valid() && used == {}
    {
      this.expires := expires;
      consumed, used, clock := map[], {}, 0;
    }

    method Cleanup(now: int)
      modifies this`consumed
      ensures consumed == map n | n in old(consumed) && old(consumed)[n] >= now :: old(consumed)[n]
    {
      var todo := consumed.Keys;
      while todo != {}
        invariant todo <= old(consumed).Keys
        invariant consumed == map n | n in old(consumed) && (n in todo || old(consumed)[n] >= now) :: old(consumed)[n]
      {
        var n :| n in todo;
        if consumed[n] < now { consumed := consumed - {n}; }
        todo := todo - {n};
      }
    }

    /**
     The clock is read when the state is checked and again before the clean-up. A nonce that was used
     before is accepted exactly when it expires between the two readings.
     */
    method TryConsume(nonce: Nonce, first: int, second: int) returns (ok: bool)
      requires Valid() && clock <= first <= second
      modifies this
      ensures Valid() && clock == second
      ensures ok <==> first <= expires(nonce) && (nonce !in old(used) || expires(nonce) < second)
      ensures used == if ok then old(used) + {nonce} else old(used)
      ensures first == second && nonce in old(used) ==> !ok
    {
      clock := second;
      if first > expires(nonce) { return false; }
      Cleanup(second);
      ok := nonce !in consumed;
      if ok {
        consumed := consumed[nonce := expires(nonce)];
        used := used + {nonce};
      }
    }
  }

  // ---------------------------------------------------------------- calls that overlap

  datatype Call = Checked(nonce: Nonce) | Cleaning(nonce: Nonce, now: int) | Finished(accepted: bool)

  datatype Accept = Accept(nonce: Nonce, time: int)

  datatype State = State(clock: int, consumed: set<Nonce>, calls: map<int, Call>, accepts: seq<Accept>)

  datatype Action =
    | Tick(to: int)
    | Check(call: int, nonce: Nonce)     // reads the clock and finds the state not expired
    | ReadClock(call: int)
    | Forget(call: int, nonce: Nonce)    // removes an entry that expired before that reading
    | TryAdd(call: int)

  ghost predicate Enabled(s: State, expires: Nonce -> int, a: Action) {
    match a
    case Tick(to) => to >= s.clock
    case Check(c, n) => c !in s.calls && s.clock <= expires(n)
    case ReadClock(c) => c in s.calls && s.calls[c].Checked?
    case Forget(c, n) => c in s.calls && s.calls[c].Cleaning? && expires(n) < s.calls[c].now
    case TryAdd(c) => c in s.calls && s.calls[c].Cleaning?
  }

  ghost function Apply(s: State, expires: Nonce -> int, a: Action): State
    requires Enabled(s, expires, a)
  {
    match a
    case Tick(to) => s.(clock := to)
    case Check(c, n) => s.(calls := s.calls[c := Checked(n)])
    case ReadClock(c) => s.(calls := s.calls[c := Cleaning(s.calls[c].nonce, s.clock)])
    case Forget(c, n) => s.(consumed := s.consumed - {n})
    case TryAdd(c) =>
      var n := s.calls[c].nonce;
      if n in s.consumed then s.(calls := s.calls[c := Finished(false)])
      else s.(calls := s.calls[c := Finished(true)], consumed := s.consumed + {n},
              accepts := s.accepts + [Accept(n, s.clock)])
  }

  /** No nonce is accepted again before it expired. */
  ghost predicate OncePerLifetime(accepts: seq<Accept>, expires: Nonce -> int) {
    forall i, j :: 0 <= i < j < |accepts| && accepts[i].nonce == accepts[j].nonce ==>
      accepts[j].time > expires(accepts[j].nonce)
  }

  ghost predicate Inv(s: State, expires: Nonce -> int) {
    && (forall c <- s.calls :: s.calls[c].Cleaning? ==> s.calls[c].now <= s.clock)
    && (forall a <- s.accepts :: a.nonce in s.consumed || expires(a.nonce) < s.clock)
    && OncePerLifetime(s.accepts, expires)
  }

  lemma StepKeeps(s: State, expires: Nonce -> int, a: Action)
    requires Inv(s, expires) && Enabled(s, expires, a)
    ensures Inv(Apply(s, expires, a), expires)
  {
    var t := Apply(s, expires, a);
    forall i, j | 0 <= i < j < |t.accepts| && t.accepts[i].nonce == t.accepts[j].nonce
      ensures t.accepts[j].time > expires(t.accepts[j].nonce)
    {
      if j == |s.accepts| { assert s.accepts[i] in s.accepts; }
    }
  }

  ghost predicate Run(states: seq<State>, expires: Nonce -> int, actions: seq<Action>) {
    && |states| == |actions| + 1
    && states[0].consumed == {} && states[0].calls == map[] && states[0].accepts == []
    && forall i {:trigger StepAt(states, expires, actions, i)} :: 0 <= i < |actions| ==> StepAt(states, expires, actions, i)
  }

  ghost predicate StepAt(states: seq<State>, expires: Nonce -> int, actions: seq<Action>, i: nat)
    requires |states| == |actions| + 1
  {
    i < |actions| && Enabled(states[i], expires, actions[i]) && states[i + 1] == Apply(states[i], expires, actions[i])
  }

  lemma {:induction false} RunKeepsInv(states: seq<State>, expires: Nonce -> int, actions: seq<Action>, i: nat)
    requires Run(states, expires, actions) && i < |states|
    ensures Inv(states[i], expires)
  {
    if i > 0 {
      RunKeepsInv(states, expires, actions, i - 1);
      assert StepAt(states, expires, actions, i - 1);
      StepKeeps(states[i - 1], expires, actions[i - 1]);
    }
  }

  /** However calls overlap, at most one call is let through with a nonce until the nonce has expired. */
  lemma AcceptedOnceWhileValid(states: seq<State>, expires: Nonce -> int, actions: seq<Action>, n: nat, i: nat, j: nat)
    requires Run(states, expires, actions) && n < |states|
    requires i < |states[n].accepts| && j < |states[n].accepts|
    requires states[n].accepts[i].nonce == states[n].accepts[j].nonce
    requires states[n].accepts[i].time <= expires(states[n].accepts[i].nonce)
    requires states[n].accepts[j].time <= expires(states[n].accepts[j].nonce)
    ensures i == j
  {
    RunKeepsInv(states, expires, actions, n);
  }

  // ---------------------------------------------------------------- when a nonce is accepted again

  /** Step `j` tries to add nonce `n`. */
  ghost predicate AddsAt(states: seq<State>, actions: seq<Action>, j: nat, n: Nonce)
    requires |states| == |actions| + 1
  {
    j < |actions| && actions[j].TryAdd? && actions[j].call in states[j].calls &&
    states[j].calls[actions[j].call].Cleaning? && states[j].calls[actions[j].call].nonce == n
  }

  ghost predicate AcceptsAt(states: seq<State>, actions: seq<Action>, j: nat, n: Nonce)
    requires |states| == |actions| + 1
  {
    AddsAt(states, actions, j, n) && actions[j].call in states[j + 1].calls &&
    states[j + 1].calls[actions[j].call] == Finished(true)
  }

  /** Step `k` removes nonce `n`. */
  predicate ForgetsAt(actions: seq<Action>, k: nat, n: Nonce) {
    k < |actions| && actions[k].Forget? && actions[k].nonce == n
  }

  /** Nonce `n` was accepted at `i` and not removed before `j`. */
  ghost predicate HeldSince(states: seq<State>, actions: seq<Action>, i: nat, j: nat, n: Nonce)
    requires |states| == |actions| + 1
  {
    i < j && AcceptsAt(states, actions, i, n) && forall k :: i < k < j ==> !ForgetsAt(actions, k, n)
  }

  lemma {:induction false} ConsumedIsHeld(states: seq<State>, expires: Nonce -> int, actions: seq<Action>, j: nat, n: Nonce)
    requires Run(states, expires, actions) && j < |states|
    ensures n in states[j].consumed <==> exists i :: 0 <= i < j && HeldSince(states, actions, i, j, n)
  {
    if j > 0 {
      ConsumedIsHeld(states, expires, actions, j - 1, n);
      assert StepAt(states, expires, actions, j - 1);
      if AcceptsAt(states, actions, j - 1, n) {
        assert HeldSince(states, actions, j - 1, j, n);
      } else if ForgetsAt(actions, j - 1, n) {
        assert forall i :: 0 <= i < j ==> !HeldSince(states, actions, i, j, n);
      } else {
        assert n in states[j].consumed <==> n in states[j - 1].consumed;
        if n in states[j].consumed {
          var i :| 0 <= i < j - 1 && HeldSince(states, actions, i, j - 1, n);
          assert HeldSince(states, actions, i, j, n);
        } else {
          forall i | 0 <= i < j ensures !HeldSince(states, actions, i, j, n) {
            if i < j - 1 { assert !HeldSince(states, actions, i, j - 1, n); }
          }
        }
      }
    }
  }

  /** A nonce is accepted exactly when it was removed after every time it was accepted before. */
  lemma AcceptedIff(states: seq<State>, expires: Nonce -> int, actions: seq<Action>, j: nat, n: Nonce)
    requires Run(states, expires, actions) && AddsAt(states, actions, j, n)
    ensures AcceptsAt(states, actions, j, n) <==>
            forall i :: 0 <= i < j && AcceptsAt(states, actions, i, n) ==> exists k :: i < k < j && ForgetsAt(actions, k, n)
  {
    ConsumedIsHeld(states, expires, actions, j, n);
    assert StepAt(states, expires, actions, j);
    assert AcceptsAt(states, actions, j, n) <==> n !in states[j].consumed;
    forall i | 0 <= i < j
      ensures HeldSince(states, actions, i, j, n) <==>
              AcceptsAt(states, actions, i, n) && !exists k :: i < k < j && ForgetsAt(actions, k, n) {}
  }

  lemma {:induction false} ClockGoesOn(states: seq<State>, expires: Nonce -> int, actions: seq<Action>, i: nat, j: nat)
    requires Run(states, expires, actions) && i <= j < |states|
    ensures states[i].clock <= states[j].clock
    decreases j
  {
    if i < j {
      ClockGoesOn(states, expires, actions, i, j - 1);
      assert StepAt(states, expires, actions, j - 1);
    }
  }

  /** Removal follows a reading of the clock past the expiry. */
  lemma RemovedAfterExpiry(states: seq<State>, expires: Nonce -> int, actions: seq<Action>, k: nat, n: Nonce)
    requires Run(states, expires, actions) && ForgetsAt(actions, k, n)
    ensures expires(n) < states[k].clock
  {
    RunKeepsInv(states, expires, actions, k);
    assert StepAt(states, expires, actions, k);
  }

  /** A call under way was checked before, in time. */
  lemma {:induction false} WasChecked(states: seq<State>, expires: Nonce -> int, actions: seq<Action>, j: nat, c: int)
    returns (h: nat)
    requires Run(states, expires, actions) && j < |states| && c in states[j].calls && !states[j].calls[c].Finished?
    ensures h < j && actions[h] == Check(c, states[j].calls[c].nonce)
    ensures states[h].clock <= expires(states[j].calls[c].nonce)
  {
    h := j - 1;
    assert StepAt(states, expires, actions, j - 1);
    if !(actions[j - 1].Check? && actions[j - 1].call == c) {
      h := WasChecked(states, expires, actions, j - 1, c);
    }
  }

  /** A call that is let through with a nonce used before was checked in time and adds after the expiry. */
  lemma SecondAcceptStraddles(states: seq<State>, expires: Nonce -> int, actions: seq<Action>, i: nat, j: nat, n: Nonce)
    returns (h: nat, k: nat)
    requires Run(states, expires, actions) && i < j && AcceptsAt(states, actions, i, n) && AcceptsAt(states, actions, j, n)
    ensures h < j && actions[h] == Check(actions[j].call, n)
    ensures i < k < j && ForgetsAt(actions, k, n)
    ensures states[h].clock <= expires(n) < states[k].clock <= states[j].clock
  {
    AcceptedIff(states, expires, actions, j, n);
    k :| i < k < j && ForgetsAt(actions, k, n);
    RemovedAfterExpiry(states, expires, actions, k, n);
    ClockGoesOn(states, expires, actions, k, j);
    h := WasChecked(states, expires, actions, j, actions[j].call);
  }

  /** Each call reads the clock once: its second reading shows what the first one did. */
  ghost predicate OneReading(states: seq<State>, actions: seq<Action>)
    requires |states| == |actions| + 1
  {
    forall h, k :: 0 <= h < k < |actions| && actions[h].Check? && actions[k] == ReadClock(actions[h].call) ==>
                     states[h].clock == states[k].clock
  }

  // a run with one reading a call: "n" expires at 5, "m" at 9
  const LIVES: Nonce -> int := n => if n == "n" then 5 else 9
  const R0 := State(5, {}, map[], [])
  const R1 := State(5, {}, map[1 := Checked("n")], [])
  const R2 := State(5, {}, map[1 := Cleaning("n", 5)], [])
  const R3 := State(5, {"n"}, map[1 := Finished(true)], [Accept("n", 5)])
  const R4 := State(5, {"n"}, map[1 := Finished(true), 2 := Checked("n")], [Accept("n", 5)])
  const R5 := State(5, {"n"}, map[1 := Finished(true), 2 := Cleaning("n", 5)], [Accept("n", 5)])
  const R6 := R5.(clock := 6)
  const R7 := R6.(calls := R5.calls[3 := Checked("m")])
  const R8 := R6.(calls := R5.calls[3 := Cleaning("m", 6)])
  const R9 := R8.(consumed := {})
  const R10 := State(6, {"n"}, R8.calls[2 := Finished(true)], [Accept("n", 5), Accept("n", 6)])

  ghost predicate StepIs(s: State, a: Action, t: State) { Enabled(s, LIVES, a) && t == Apply(s, LIVES, a) }

  lemma FirstCallAdds()
    ensures StepIs(R0, Check(1, "n"), R1) && StepIs(R1, ReadClock(1), R2) && StepIs(R2, TryAdd(1), R3)
  {
  }

  lemma SecondCallReads()
    ensures StepIs(R3, Check(2, "n"), R4) && StepIs(R4, ReadClock(2), R5) && StepIs(R5, Tick(6), R6)
  {
  }

  lemma ThirdCallForgets()
    ensures StepIs(R6, Check(3, "m"), R7) && StepIs(R7, ReadClock(3), R8) && StepIs(R8, Forget(3, "n"), R9)
  {
    assert {"n"} - {"n"} == {};
  }

  lemma SecondCallAdds()
    ensures StepIs(R9, TryAdd(2), R10)
  {
  }

  /**
   Where calls overlap, one reading a call is not enough: a call that read the clock in time may add after
   another call, reading later, removed the nonce.
   */
  lemma OneReadingIsNotEnough() returns (states: seq<State>, expires: Nonce -> int, actions: seq<Action>)
    ensures Run(states, expires, actions) && OneReading(states, actions)
    ensures states[|actions|].accepts == [Accept("n", 5), Accept("n", 6)]
  {
    expires := LIVES;
    actions := [Check(1, "n"), ReadClock(1), TryAdd(1), Check(2, "n"), ReadClock(2),
                Tick(6), Check(3, "m"), ReadClock(3), Forget(3, "n"), TryAdd(2)];
    states := [R0, R1, R2, R3, R4, R5, R6, R7, R8, R9, R10];
    FirstCallAdds();
    SecondCallReads();
    ThirdCallForgets();
    SecondCallAdds();
  }

  /** A call that checked in time and adds late is let through although another call was before. */
  lemma LateCallIsLetThrough() returns (states: seq<State>, actions: seq<Action>)
    ensures Run(states, n => 5, actions) && states[|actions|].accepts == [Accept("n", 5), Accept("n", 6)]
  {
    var e := (n: Nonce) => 5;
    actions := [Check(1, "n"), Check(2, "n"), ReadClock(1), TryAdd(1), Tick(6), ReadClock(2), Forget(2, "n"), TryAdd(2)];
    var s0 := State(5, {}, map[], []);
    var s1 := Apply(s0, e, actions[0]);
    var s2 := Apply(s1, e, actions[1]);
    var s3 := Apply(s2, e, actions[2]);
    var s4 := Apply(s3, e, actions[3]);
    var s5 := Apply(s4, e, actions[4]);
    var s6 := Apply(s5, e, actions[5]);
    var s7 := Apply(s6, e, actions[6]);
    var s8 := Apply(s7, e, actions[7]);
    states := [s0, s1, s2, s3, s4, s5, s6, s7, s8];
  }
}
