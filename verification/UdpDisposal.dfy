/**
 Disposal of a port forward against its UDP sessions: which sessions its loop over the table removes, and
 exactly which ones stay for good.
 */
module UdpDisposal {
  import opened Sets
  import opened Wrappers
  import opened UdpSessions

  /** Nobody is in the middle of anything. */
  ghost predicate AtRest(s: State) {
    && (forall c <- s.creators :: s.creators[c].phase == Done || s.creators[c].phase == Stranded)
    && (forall c <- s.creators :: s.creators[c].relay != Running)
    && (forall r <- s.cleaners :: s.cleaners[r].Finished?)
  }

  lemma StepOfRun(states: seq<State>, max: int, actions: seq<Action>, i: nat)
    requires Run(states, max, actions) && i < |actions|
    ensures StepIs(states[i], max, actions[i], states[i + 1]) && Inv(states[i], max) && Inv(states[i + 1], max)
  {
    assert StepAt(states, max, actions, i);
    RunKeepsInv(states, max, actions, i);
    RunKeepsInv(states, max, actions, i + 1);
  }

  // ---------------------------------------------------------------- what a session goes through

  /** A record only moves on: a clean-up, a stranding and the start of a relay are for good. */
  predicate MovedOn(rec: Creator, next: Creator) {
    && (rec.fate != Kept ==> next.fate != Kept)
    && (rec.phase == Stranded ==> next.phase == Stranded)
    && (rec.relay != NotStarted ==> next.relay != NotStarted)
  }

  lemma CreatorMovesOn(rec: Creator, over: bool, connected: bool, taken: bool, sourceDisposed: bool)
    ensures MovedOn(rec, CreatorStep(rec, over, connected, taken, sourceDisposed).0)
  {
  }

  lemma CleanerMovesOn(rec: Creator, r: Cleaner, p: CleanerPhase, listed: bool)
    requires !p.Finished?
    ensures MovedOn(rec, CleanerStep(rec, r, p, listed).0)
  {
  }

  lemma RecordAfterAdvance(s: State, max: int, a: Action, t: State, c: Id)
    requires StepIs(s, max, a, t) && a.Advance? && c in s.creators
    ensures c in t.creators && MovedOn(s.creators[c], t.creators[c])
  {
    var rec := s.creators[a.c];
    CreatorMovesOn(rec, s.count + 1 > max, a.connected, rec.address in s.table, s.sourceDisposed);
  }

  lemma RecordAfterProceed(s: State, max: int, a: Action, t: State, c: Id)
    requires StepIs(s, max, a, t) && a.Proceed? && c in s.creators
    ensures c in t.creators && MovedOn(s.creators[c], t.creators[c])
  {
    var d := s.cleaners[a.r].id;
    CleanerMovesOn(s.creators[d], a.r, s.cleaners[a.r], Listed(s, d));
  }

  lemma RecordAfterOthers(s: State, max: int, a: Action, t: State, c: Id)
    requires StepIs(s, max, a, t) && !a.Advance? && !a.Proceed? && c in s.creators
    ensures c in t.creators && MovedOn(s.creators[c], t.creators[c])
  {
  }

  lemma RecordsMoveOn(s: State, max: int, a: Action, t: State, c: Id)
    requires StepIs(s, max, a, t) && c in s.creators
    ensures c in t.creators && MovedOn(s.creators[c], t.creators[c])
  {
    if a.Advance? {
      RecordAfterAdvance(s, max, a, t, c);
    } else if a.Proceed? {
      RecordAfterProceed(s, max, a, t, c);
    } else {
      RecordAfterOthers(s, max, a, t, c);
    }
  }

  lemma ListedMovesOn(s: State, max: int, a: Action, t: State, c: Id)
    requires Inv(s, max) && Inv(t, max) && StepIs(s, max, a, t) && WasListed(s, c)
    ensures WasListed(t, c)
  {
    RecordsMoveOn(s, max, a, t, c);
    if !Listed(t, c) && s.creators[c].fate == Kept {
      assert CreatorOk(s, c);
      ListingEnds(s, max, a, c);
    }
  }

  lemma {:induction false} RecordsMoveOnLater(states: seq<State>, max: int, actions: seq<Action>, i: nat, j: nat, c: Id)
    requires Run(states, max, actions) && i <= j < |states| && c in states[i].creators
    ensures c in states[j].creators && MovedOn(states[i].creators[c], states[j].creators[c])
    decreases j
  {
    if i < j {
      RecordsMoveOnLater(states, max, actions, i, j - 1, c);
      StepOfRun(states, max, actions, j - 1);
      RecordsMoveOn(states[j - 1], max, actions[j - 1], states[j], c);
    }
  }

  lemma {:induction false} WasListedLater(states: seq<State>, max: int, actions: seq<Action>, i: nat, j: nat, c: Id)
    requires Run(states, max, actions) && i <= j < |states| && WasListed(states[i], c)
    ensures WasListed(states[j], c)
    decreases j
  {
    if i < j {
      WasListedLater(states, max, actions, i, j - 1, c);
      StepOfRun(states, max, actions, j - 1);
      ListedMovesOn(states[j - 1], max, actions[j - 1], states[j], c);
    }
  }

  // ---------------------------------------------------------------- the loop of disposal

  /** A call of `RemoveUdpSession` that has not removed the session yet. */
  predicate StillRemoving(s: State, r: Cleaner, c: Id) {
    r in s.cleaners && (s.cleaners[r] == Checking(c) || s.cleaners[r] == Removing(c))
  }

  /** A session the loop found is still to come, or in its present call, or gone. */
  ghost predicate FoundOk(s: State, c: Id) {
    && (s.sweep.NotBegun? ==> !s.sourceDisposed)
    && (s.sweep.Begun? && c in s.sweep.found ==>
      && WasListed(s, c)
      && (s.creators[c].fate != Kept || (!s.sourceDisposed && c in s.sweep.todo) ||
          (!s.sourceDisposed && s.sweep.current.Some? && StillRemoving(s, s.sweep.current.value, c))))
  }

  /** The call under way takes the session out, or finds it gone. */
  lemma FoundProceed(s: State, max: int, r: Cleaner, t: State, c: Id)
    requires Inv(s, max) && Inv(t, max) && StepIs(s, max, Proceed(r), t) && StillRemoving(s, r, c)
    ensures StillRemoving(t, r, c) || (c in t.creators && t.creators[c].fate != Kept)
  {
    assert CleanerOk(s, r) && CreatorOk(s, c);
    var (next, e, q) := CleanerStep(s.creators[c], r, s.cleaners[r], Listed(s, c));
    AffectOwn(s, max, c, next, e);
  }

  lemma OtherCallsStay(s: State, max: int, a: Action, t: State, r: Cleaner, c: Id)
    requires StepIs(s, max, a, t) && a != Proceed(r) && StillRemoving(s, r, c)
    ensures StillRemoving(t, r, c)
  {
  }

  /** Only the steps of disposal touch the loop. */
  lemma LoopIsItsOwn(s: State, max: int, a: Action, t: State)
    requires StepIs(s, max, a, t) && !(a.BeginSweep? || a.Visit? || a.Skip? || a.DisposeSource?)
    ensures t.sweep == s.sweep && t.sourceDisposed == s.sourceDisposed
  {
  }

  lemma FoundByOthers(s: State, max: int, a: Action, t: State, c: Id)
    requires Inv(s, max) && Inv(t, max) && StepIs(s, max, a, t) && FoundOk(s, c) && s.sweep.Begun? && c in s.sweep.found
    requires !(a.BeginSweep? || a.Visit? || a.Skip? || a.DisposeSource?)
    ensures FoundOk(t, c)
  {
    LoopIsItsOwn(s, max, a, t);
    ListedMovesOn(s, max, a, t, c);
    RecordsMoveOn(s, max, a, t, c);
    if s.sweep.current.Some? && StillRemoving(s, s.sweep.current.value, c) {
      if a == Proceed(s.sweep.current.value) {
        FoundProceed(s, max, a.r, t, c);
      } else {
        OtherCallsStay(s, max, a, t, s.sweep.current.value, c);
      }
    }
  }

  lemma FoundByLoop(s: State, max: int, a: Action, t: State, c: Id)
    requires StepIs(s, max, a, t) && FoundOk(s, c) && s.sweep.Begun? && c in s.sweep.found
    requires a.Visit? || a.Skip? || a.DisposeSource?
    ensures FoundOk(t, c)
  {
    assert t.creators == s.creators && t.table == s.table;
  }

  lemma FoundStep(s: State, max: int, a: Action, t: State, c: Id)
    requires Inv(s, max) && Inv(t, max) && StepIs(s, max, a, t) && FoundOk(s, c)
    ensures FoundOk(t, c)
  {
    if a.BeginSweep? {
      assert t.creators == s.creators && t.table == s.table;
    } else if s.sweep.Begun? && c in s.sweep.found {
      if a.Visit? || a.Skip? || a.DisposeSource? {
        FoundByLoop(s, max, a, t, c);
      } else {
        FoundByOthers(s, max, a, t, c);
      }
    } else if !(a.Visit? || a.Skip? || a.DisposeSource?) {
      LoopIsItsOwn(s, max, a, t);
    }
  }

  lemma {:induction false} FoundInRun(states: seq<State>, max: int, actions: seq<Action>, i: nat, c: Id)
    requires Run(states, max, actions) && i < |states|
    ensures FoundOk(states[i], c)
  {
    if i > 0 {
      FoundInRun(states, max, actions, i - 1, c);
      StepOfRun(states, max, actions, i - 1);
      FoundStep(states[i - 1], max, actions[i - 1], states[i], c);
    }
  }

  // ---------------------------------------------------------------- events of a run

  /** Step `k` puts session `c` into the table. */
  ghost predicate AddsAt(states: seq<State>, actions: seq<Action>, k: nat, c: Id)
    requires |states| == |actions| + 1
  {
    k < |actions| && actions[k].Advance? && actions[k].c == c && !WasListed(states[k], c) && WasListed(states[k + 1], c)
  }

  /** Step `k` starts the relay of session `c` and meets the disposed token source. */
  ghost predicate StartThrowsAt(states: seq<State>, actions: seq<Action>, k: nat, c: Id)
    requires |states| == |actions| + 1
  {
    k < |actions| && actions[k].Advance? && actions[k].c == c && c in states[k].creators &&
    states[k].creators[c].phase == Added && states[k].sourceDisposed
  }

  /** Step `k` calls `RemoveUdpSession` for session `c`, from the loop of disposal or elsewhere. */
  predicate CleansAt(actions: seq<Action>, k: nat, c: Id) {
    k < |actions| && ((actions[k].Clean? && actions[k].c == c) || (actions[k].Visit? && actions[k].c == c))
  }

  lemma ProceedAddsNothing(s: State, max: int, a: Action, t: State, c: Id)
    requires Inv(s, max) && StepIs(s, max, a, t) && a.Proceed? && !WasListed(s, c)
    ensures !WasListed(t, c)
  {
    var d := s.cleaners[a.r].id;
    assert CleanerOk(s, a.r);
    var (next, e, q) := CleanerStep(s.creators[d], a.r, s.cleaners[a.r], Listed(s, d));
    assert c != d;
    assert e != List && e != CountUp;
  }

  lemma AdvanceAddsItsOwn(s: State, max: int, a: Action, t: State, c: Id)
    requires StepIs(s, max, a, t) && a.Advance? && a.c != c && !WasListed(s, c)
    ensures !WasListed(t, c)
  {
  }

  lemma BeginAddsNothing(s: State, max: int, a: Action, t: State, c: Id)
    requires Inv(s, max) && StepIs(s, max, a, t) && a.Begin? && !WasListed(s, c)
    ensures !WasListed(t, c)
  {
    if a.address in s.table { assert TableOk(s, a.address); }
  }

  lemma OthersAddNothing(s: State, max: int, a: Action, t: State, c: Id)
    requires StepIs(s, max, a, t) && !a.Begin? && !a.Advance? && !a.Proceed? && !WasListed(s, c)
    ensures !WasListed(t, c)
  {
  }

  lemma AddingStep(s: State, max: int, a: Action, t: State, c: Id)
    requires Inv(s, max) && StepIs(s, max, a, t) && WasListed(t, c) && !WasListed(s, c)
    ensures a.Advance? && a.c == c
  {
    if a.Advance? {
      if a.c != c { AdvanceAddsItsOwn(s, max, a, t, c); }
    } else if a.Begin? {
      BeginAddsNothing(s, max, a, t, c);
    } else if a.Proceed? {
      ProceedAddsNothing(s, max, a, t, c);
    } else {
      OthersAddNothing(s, max, a, t, c);
    }
  }

  /** A session that is or was in the table was added at some step. */
  lemma {:induction false} WasAdded(states: seq<State>, max: int, actions: seq<Action>, i: nat, c: Id) returns (k: nat)
    requires Run(states, max, actions) && i < |states| && WasListed(states[i], c)
    ensures k < i && AddsAt(states, actions, k, c)
  {
    k := i - 1;
    if WasListed(states[k], c) {
      k := WasAdded(states, max, actions, i - 1, c);
    } else {
      StepOfRun(states, max, actions, k);
      AddingStep(states[k], max, actions[k], states[i], c);
    }
  }

  predicate IsStranded(s: State, c: Id) { c in s.creators && s.creators[c].phase == Stranded }

  lemma ProceedStrandsNothing(s: State, max: int, a: Action, t: State, c: Id)
    requires StepIs(s, max, a, t) && a.Proceed? && !IsStranded(s, c)
    ensures !IsStranded(t, c)
  {
  }

  lemma AdvanceStrands(s: State, max: int, a: Action, t: State, c: Id)
    requires StepIs(s, max, a, t) && a.Advance? && IsStranded(t, c) && !IsStranded(s, c)
    ensures a.c == c && s.creators[c].phase == Added && s.sourceDisposed
  {
  }

  lemma OthersStrandNothing(s: State, max: int, a: Action, t: State, c: Id)
    requires StepIs(s, max, a, t) && !a.Advance? && !a.Proceed? && !IsStranded(s, c)
    ensures !IsStranded(t, c)
  {
  }

  lemma StrandingStep(s: State, max: int, a: Action, t: State, c: Id)
    requires StepIs(s, max, a, t) && IsStranded(t, c) && !IsStranded(s, c)
    ensures a.Advance? && a.c == c && c in s.creators && s.creators[c].phase == Added && s.sourceDisposed
  {
    if a.Advance? {
      AdvanceStrands(s, max, a, t, c);
    } else if a.Proceed? {
      ProceedStrandsNothing(s, max, a, t, c);
    } else {
      OthersStrandNothing(s, max, a, t, c);
    }
  }

  lemma {:induction false} WasStranded(states: seq<State>, max: int, actions: seq<Action>, i: nat, c: Id) returns (k: nat)
    requires Run(states, max, actions) && i < |states| && c in states[i].creators && states[i].creators[c].phase == Stranded
    ensures k < i && StartThrowsAt(states, actions, k, c)
  {
    k := i - 1;
    if c in states[k].creators && states[k].creators[c].phase == Stranded {
      k := WasStranded(states, max, actions, i - 1, c);
    } else {
      StepOfRun(states, max, actions, k);
      StrandingStep(states[k], max, actions[k], states[i], c);
    }
  }

  lemma LoopStep(s: State, max: int, a: Action, t: State)
    requires StepIs(s, max, a, t) && t.sweep.Begun?
    ensures a == BeginSweep ==> t.sweep.found == Sessions(s)
    ensures a != BeginSweep ==> s.sweep.Begun? && s.sweep.found == t.sweep.found
  {
    if !(a.BeginSweep? || a.Visit? || a.Skip? || a.DisposeSource?) { LoopIsItsOwn(s, max, a, t); }
  }

  /** The loop began at some step and found what was in the table then. */
  lemma {:induction false} LoopBegan(states: seq<State>, max: int, actions: seq<Action>, i: nat) returns (b: nat)
    requires Run(states, max, actions) && i < |states| && states[i].sweep.Begun?
    ensures b < i && actions[b] == BeginSweep && states[i].sweep.found == Sessions(states[b])
  {
    b := i - 1;
    StepOfRun(states, max, actions, b);
    LoopStep(states[b], max, actions[b], states[i]);
    if actions[b] != BeginSweep { b := LoopBegan(states, max, actions, i - 1); }
  }

  /** Everything the loop found is gone when the token source is disposed. */
  lemma FoundIsGone(states: seq<State>, max: int, actions: seq<Action>, b: nat, i: nat, c: Id)
    requires Run(states, max, actions) && b <= i < |states| && b < |actions| && actions[b] == BeginSweep
    requires Listed(states[b], c) && states[i].sourceDisposed
    ensures !Listed(states[i], c)
  {
    FoundInRun(states, max, actions, i, c);
    var b' := LoopBegan(states, max, actions, i);
    OneLoop(states, max, actions, b, b');
    RunKeepsInv(states, max, actions, i);
    assert CreatorOk(states[i], c);
  }

  lemma {:induction false} LoopGoesOn(states: seq<State>, max: int, actions: seq<Action>, i: nat, j: nat)
    requires Run(states, max, actions) && i <= j < |states| && states[i].sweep.Begun?
    ensures states[j].sweep.Begun?
    decreases j
  {
    if i < j {
      LoopGoesOn(states, max, actions, i, j - 1);
      StepOfRun(states, max, actions, j - 1);
      LoopStays(states[j - 1], max, actions[j - 1], states[j]);
    }
  }

  lemma LoopStays(s: State, max: int, a: Action, t: State)
    requires StepIs(s, max, a, t) && s.sweep.Begun?
    ensures t.sweep.Begun?
  {
    if !(a.BeginSweep? || a.Visit? || a.Skip? || a.DisposeSource?) { LoopIsItsOwn(s, max, a, t); }
  }

  lemma OneLoop(states: seq<State>, max: int, actions: seq<Action>, b: nat, d: nat)
    requires Run(states, max, actions) && b < |actions| && d < |actions| && actions[b] == actions[d] == BeginSweep
    ensures b == d
  {
    StepOfRun(states, max, actions, b);
    StepOfRun(states, max, actions, d);
    if b < d { LoopGoesOn(states, max, actions, b + 1, d); }
    if d < b { LoopGoesOn(states, max, actions, d + 1, b); }
  }

  /** Session `c` is gone or `RemoveUdpSession` is at work on it. */
  ghost predicate Touched(s: State, c: Id) {
    (c in s.creators && s.creators[c].fate != Kept) || exists r :: StillRemoving(s, r, c)
  }

  lemma TouchingStep(s: State, max: int, a: Action, t: State, c: Id)
    requires Inv(s, max) && StepIs(s, max, a, t) && Touched(t, c) && !Touched(s, c)
    ensures (a.Clean? || a.Visit? || a.EndRelay?) && a.c == c
  {
    if Quiet(a) {
      QuietTouches(s, max, a, t, c);
    } else {
      match a
      case Begin(_, _) => BeginTouchesNothing(s, max, a, t, c);
      case Advance(_, _) => AdvanceTouchesNothing(s, max, a, t, c);
      case Proceed(_) => ProceedTouchesNothing(s, max, a, t, c);
      case EndRelay(d, _) => if d != c { EndRelayTouchesItsOwn(s, max, a, t, c); }
    }
  }

  lemma CallsAreOld(s: State, t: State, c: Id)
    requires t.cleaners == s.cleaners && !Touched(s, c)
    ensures forall r :: !StillRemoving(t, r, c)
  {
    forall r ensures !StillRemoving(t, r, c) { assert !StillRemoving(s, r, c); }
  }

  lemma QuietTouches(s: State, max: int, a: Action, t: State, c: Id)
    requires Quiet(a) && StepIs(s, max, a, t) && Touched(t, c) && !Touched(s, c)
    ensures (a.Clean? || a.Visit?) && a.c == c
  {
    QuietStep(s, max, a);
    var r :| StillRemoving(t, r, c);
    assert !StillRemoving(s, r, c);
  }

  lemma BeginTouchesNothing(s: State, max: int, a: Action, t: State, c: Id)
    requires a.Begin? && StepIs(s, max, a, t) && !Touched(s, c)
    ensures !Touched(t, c)
  {
    CallsAreOld(s, t, c);
  }

  lemma AdvanceTouchesNothing(s: State, max: int, a: Action, t: State, c: Id)
    requires a.Advance? && StepIs(s, max, a, t) && !Touched(s, c)
    ensures !Touched(t, c)
  {
    var rec := s.creators[a.c];
    CreatorStepKeepsFate(rec, s.count + 1 > max, a.connected, rec.address in s.table, s.sourceDisposed);
    CallsAreOld(s, t, c);
  }

  lemma EndRelayTouchesItsOwn(s: State, max: int, a: Action, t: State, c: Id)
    requires a.EndRelay? && a.c != c && StepIs(s, max, a, t) && !Touched(s, c)
    ensures !Touched(t, c)
  {
    forall r ensures !StillRemoving(t, r, c) { assert !StillRemoving(s, r, c); }
  }

  lemma ProceedTouchesNothing(s: State, max: int, a: Action, t: State, c: Id)
    requires Inv(s, max) && StepIs(s, max, a, t) && a.Proceed? && !Touched(s, c)
    ensures !Touched(t, c)
  {
    assert CleanerOk(s, a.r) && !StillRemoving(s, a.r, c);
    assert s.cleaners[a.r].id != c;
    forall x ensures !StillRemoving(t, x, c) { assert !StillRemoving(s, x, c); }
  }

  /** A session is removed, or about to be, only after `RemoveUdpSession` was called for it. */
  lemma {:induction false} WasCalled(states: seq<State>, max: int, actions: seq<Action>, i: nat, c: Id) returns (k: nat)
    requires Run(states, max, actions) && i < |states| && Touched(states[i], c)
    ensures k < i && (CleansAt(actions, k, c) || (actions[k].EndRelay? && actions[k].c == c))
  {
    k := i - 1;
    if Touched(states[k], c) {
      k := WasCalled(states, max, actions, i - 1, c);
    } else {
      StepOfRun(states, max, actions, k);
      TouchingStep(states[k], max, actions[k], states[i], c);
    }
  }

  /** Once called, `RemoveUdpSession` is at work on the session until that is gone. */
  lemma {:induction false} CallTakesEffect(states: seq<State>, max: int, actions: seq<Action>, k: nat, i: nat, c: Id)
    requires Run(states, max, actions) && CleansAt(actions, k, c) && k < i < |states|
    ensures StillRemoving(states[i], actions[k].r, c) || (c in states[i].creators && states[i].creators[c].fate != Kept)
    decreases i
  {
    StepOfRun(states, max, actions, i - 1);
    var s, a, t := states[i - 1], actions[i - 1], states[i];
    if k < i - 1 {
      CallTakesEffect(states, max, actions, k, i - 1, c);
      if StillRemoving(s, actions[k].r, c) {
        if a == Proceed(actions[k].r) {
          FoundProceed(s, max, a.r, t, c);
        } else {
          OtherCallsStay(s, max, a, t, actions[k].r, c);
        }
      } else {
        RecordsMoveOn(s, max, a, t, c);
      }
    }
  }

  // ---------------------------------------------------------------- what is left

  /**
   The session came into the table after the loop of disposal began, its relay met the disposed token source,
   and `RemoveUdpSession` was never called for it.
   */
  ghost predicate TooLate(states: seq<State>, actions: seq<Action>, i: nat, c: Id)
    requires |states| == |actions| + 1
  {
    && (exists b, k :: 0 <= b < k < i && b < |actions| && actions[b] == BeginSweep && AddsAt(states, actions, k, c))
    && (exists k :: 0 <= k < i && StartThrowsAt(states, actions, k, c))
    && (forall k :: 0 <= k < i ==> !CleansAt(actions, k, c))
  }

  /** At rest a session that is still listed is stranded. */
  lemma LeftIsStranded(states: seq<State>, max: int, actions: seq<Action>, i: nat, c: Id)
    requires Run(states, max, actions) && i < |states| && AtRest(states[i]) && Listed(states[i], c)
    ensures states[i].creators[c].phase == Stranded && states[i].creators[c].fate == Kept
  {
    RunKeepsInv(states, max, actions, i);
    assert CreatorOk(states[i], c) && OwnedOk(states[i], c);
  }

  lemma LeftIsTooLate(states: seq<State>, max: int, actions: seq<Action>, i: nat, c: Id)
    requires Run(states, max, actions) && i < |states| && AtRest(states[i]) && Listed(states[i], c)
    ensures TooLate(states, actions, i, c)
  {
    LeftIsStranded(states, max, actions, i, c);
    var k := WasStranded(states, max, actions, i, c);
    forall n | 0 <= n < i ensures !CleansAt(actions, n, c) {
      if CleansAt(actions, n, c) { CallTakesEffect(states, max, actions, n, i, c); }
    }
    FoundInRun(states, max, actions, k, c);
    var b := LoopBegan(states, max, actions, k);
    var a := WasAdded(states, max, actions, i, c);
    if a < b {
      WasListedLater(states, max, actions, a + 1, b, c);
      RecordsMoveOnLater(states, max, actions, b, i, c);
      FoundIsGone(states, max, actions, b, k, c);
      ListedIsKeptBefore(states, max, actions, k, i, c);
    }
    assert b < a;
  }

  /** A session that is listed later was not gone before. */
  lemma ListedIsKeptBefore(states: seq<State>, max: int, actions: seq<Action>, k: nat, i: nat, c: Id)
    requires Run(states, max, actions) && k <= i < |states| && WasListed(states[k], c) && Listed(states[i], c)
    ensures Listed(states[k], c)
  {
    RecordsMoveOnLater(states, max, actions, k, i, c);
    RunKeepsInv(states, max, actions, i);
    assert CreatorOk(states[i], c);
  }

  lemma ThrowingStep(s: State, max: int, a: Action, t: State, c: Id)
    requires StepIs(s, max, a, t) && a.Advance? && a.c == c && s.creators[c].phase == Added && s.sourceDisposed
    ensures c in t.creators && t.creators[c].phase == Stranded
  {
  }

  lemma TooLateIsLeft(states: seq<State>, max: int, actions: seq<Action>, i: nat, c: Id)
    requires Run(states, max, actions) && i < |states| && TooLate(states, actions, i, c)
    ensures Listed(states[i], c)
  {
    var k :| 0 <= k < i && StartThrowsAt(states, actions, k, c);
    StepOfRun(states, max, actions, k);
    ThrowingStep(states[k], max, actions[k], states[k + 1], c);
    RecordsMoveOnLater(states, max, actions, k + 1, i, c);
    RunKeepsInv(states, max, actions, i);
    assert CreatorOk(states[i], c);
    if states[i].creators[c].fate != Kept {
      assert Touched(states[i], c);
      var n := WasCalled(states, max, actions, i, c);
      EndedRelayHadStarted(states, max, actions, n, i, c);
    }
  }

  lemma EndedRelayHadStarted(states: seq<State>, max: int, actions: seq<Action>, n: nat, i: nat, c: Id)
    requires Run(states, max, actions) && n < i < |states| && actions[n].EndRelay? && actions[n].c == c
    ensures c in states[i].creators && states[i].creators[c].phase != Stranded
  {
    StepOfRun(states, max, actions, n);
    RecordsMoveOnLater(states, max, actions, n, i, c);
    RunKeepsInv(states, max, actions, i);
    assert CreatorOk(states[i], c);
  }

  /**
   At rest a session is left in the table exactly when it was added after the loop of disposal began, the start
   of its relay met the disposed token source, and nothing called `RemoveUdpSession` for it.
   */
  lemma LeftIff(states: seq<State>, max: int, actions: seq<Action>, i: nat, c: Id)
    requires Run(states, max, actions) && i < |states| && AtRest(states[i])
    ensures Listed(states[i], c) <==> TooLate(states, actions, i, c)
  {
    if TooLate(states, actions, i, c) {
      TooLateIsLeft(states, max, actions, i, c);
    } else if Listed(states[i], c) {
      LeftIsTooLate(states, max, actions, i, c);
    }
  }

  lemma TicketAtRest(states: seq<State>, max: int, actions: seq<Action>, i: nat, c: Id)
    requires Run(states, max, actions) && i < |states| && AtRest(states[i]) && c in states[i].tickets
    ensures Listed(states[i], c)
  {
    RunKeepsInv(states, max, actions, i);
    assert CreatorOk(states[i], c) && OwnedOk(states[i], c);
  }

  lemma SomeListed(s: State, max: int) returns (c: Id)
    requires Inv(s, max) && s.table != map[]
    ensures Listed(s, c)
  {
    var k :| k in s.table;
    assert TableOk(s, k);
    c := s.table[k];
  }

  /** At rest the table is empty and the counter back at zero exactly when no session came too late. */
  lemma NothingLeftIff(states: seq<State>, max: int, actions: seq<Action>, i: nat)
    requires Run(states, max, actions) && i < |states| && AtRest(states[i])
    ensures states[i].table == map[] && states[i].count == 0 <==> forall c :: !TooLate(states, actions, i, c)
  {
    var s := states[i];
    RunKeepsInv(states, max, actions, i);
    forall c ensures TooLate(states, actions, i, c) <==> Listed(s, c) { LeftIff(states, max, actions, i, c); }
    if s.table != map[] {
      var c := SomeListed(s, max);
      assert TooLate(states, actions, i, c);
    } else if |s.tickets| > 0 {
      var c := Pick(s.tickets);
      TicketAtRest(states, max, actions, i, c);
    }
  }

  /** Only disposal of the runner strands sessions. */
  lemma {:induction false} StrandedAfterDisposal(states: seq<State>, max: int, actions: seq<Action>, i: nat, c: Id)
    requires Run(states, max, actions) && i < |states| && c in states[i].creators
    requires states[i].creators[c].phase == Stranded
    ensures states[i].sourceDisposed
  {
    if i > 0 {
      StepOfRun(states, max, actions, i - 1);
      var s := states[i - 1];
      SourceStaysDisposed(s, max, actions[i - 1], states[i]);
      if c in s.creators && s.creators[c].phase == Stranded {
        StrandedAfterDisposal(states, max, actions, i - 1, c);
      } else {
        StrandingStep(s, max, actions[i - 1], states[i], c);
      }
    }
  }

  lemma SourceStaysDisposed(s: State, max: int, a: Action, t: State)
    requires StepIs(s, max, a, t)
    ensures s.sourceDisposed ==> t.sourceDisposed
  {
    if !(a.BeginSweep? || a.Visit? || a.Skip? || a.DisposeSource?) { LoopIsItsOwn(s, max, a, t); }
  }

  /** A session that is in the table when the loop of disposal begins is never left. */
  lemma SweptIsNeverLeft(states: seq<State>, max: int, actions: seq<Action>, b: nat, i: nat, c: Id)
    requires Run(states, max, actions) && b < i < |states| && actions[b] == BeginSweep && Listed(states[b], c)
    requires AtRest(states[i])
    ensures !Listed(states[i], c)
  {
    if Listed(states[i], c) {
      LeftIsStranded(states, max, actions, i, c);
      StrandedAfterDisposal(states, max, actions, i, c);
      FoundIsGone(states, max, actions, b, i, c);
    }
  }

  // the states of a run with one session: its creator's phase, and how far disposal has come
  function Stage(address: Address, phase: Phase, listed: bool, cancelled: bool, sweep: Sweep, disposed: bool): State {
    var held: set<Id> := if phase == Counting then {} else {0};
    State(if phase == Counting then 0 else 1, if listed then map[address := 0] else map[],
          map[0 := Creator(address, phase, NotStarted, Kept, 0, 0)], map[], cancelled, sweep, disposed, held, held)
  }

  lemma StagesOfCreation(address: Address)
    ensures StepIs(Init, 1, Begin(0, address), Stage(address, Counting, false, false, NotBegun, false))
    ensures StepIs(Stage(address, Counting, false, false, NotBegun, false), 1, Advance(0, true),
                   Stage(address, Connecting, false, false, NotBegun, false))
    ensures StepIs(Stage(address, Connecting, false, false, NotBegun, false), 1, Advance(0, true),
                   Stage(address, Made, false, false, NotBegun, false))
  {
  }

  lemma StagesOfDisposal(address: Address)
    ensures StepIs(Stage(address, Made, false, false, NotBegun, false), 1, Cancel,
                   Stage(address, Made, false, true, NotBegun, false))
    ensures StepIs(Stage(address, Made, false, true, NotBegun, false), 1, BeginSweep,
                   Stage(address, Made, false, true, Begun({}, {}, None), false))
    ensures StepIs(Stage(address, Added, true, true, Begun({}, {}, None), false), 1, DisposeSource,
                   Stage(address, Added, true, true, Begun({}, {}, None), true))
  {
    assert Sessions(Stage(address, Made, false, true, NotBegun, false)) == {};
  }

  lemma StagesOfAdding(address: Address)
    ensures StepIs(Stage(address, Made, false, true, Begun({}, {}, None), false), 1, Advance(0, true),
                   Stage(address, Added, true, true, Begun({}, {}, None), false))
    ensures StepIs(Stage(address, Added, true, true, Begun({}, {}, None), true), 1, Advance(0, true),
                   Stage(address, Stranded, true, true, Begun({}, {}, None), true))
  {
  }

  /** A session made while disposal goes over the empty table, and added before the token source is disposed of. */
  lemma DisposalCanStrand(address: Address) returns (states: seq<State>, actions: seq<Action>)
    ensures Run(states, 1, actions) && AtRest(states[|actions|])
    ensures states[|actions|].table == map[address := 0] && states[|actions|].count == 1
  {
    actions := [Begin(0, address), Advance(0, true), Advance(0, true), Cancel, BeginSweep, Advance(0, true),
                DisposeSource, Advance(0, true)];
    states := [Init, Stage(address, Counting, false, false, NotBegun, false),
               Stage(address, Connecting, false, false, NotBegun, false),
               Stage(address, Made, false, false, NotBegun, false), Stage(address, Made, false, true, NotBegun, false),
               Stage(address, Made, false, true, Begun({}, {}, None), false),
               Stage(address, Added, true, true, Begun({}, {}, None), false),
               Stage(address, Added, true, true, Begun({}, {}, None), true),
               Stage(address, Stranded, true, true, Begun({}, {}, None), true)];
    StagesOfCreation(address);
    StagesOfDisposal(address);
    StagesOfAdding(address);
  }
}
