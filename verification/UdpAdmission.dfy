/**
 What the session table is for: a datagram from a new address below the limit gets a session, and the
 session relays until somebody cleans it up.
 */
module UdpAdmission {
  import opened Sets
  import opened UdpSessions
  import opened Wrappers

  /** The counting step of a creator goes on to connect exactly when the limit has room, and takes a ticket either way. */
  lemma AdmittedIff(states: seq<State>, max: int, actions: seq<Action>, i: nat, c: Id, connected: bool)
    requires Run(states, max, actions) && i < |actions| && StepAt(states, max, actions, i)
    requires actions[i] == Advance(c, connected) && states[i].creators[c].phase == Counting
    ensures var s, t := states[i], states[i + 1];
      && c in t.creators && t.count == s.count + 1
      && (t.creators[c].phase == Connecting <==> s.count < max)
      && (t.creators[c].phase == Over <==> s.count >= max)
  {
  }

  /** Where an undisturbed creator can stand. */
  predicate OnCourse(rec: Creator) {
    && rec.fate == Kept
    && (rec.phase == Counting || rec.phase == Connecting || rec.phase == Made || rec.phase == Added ==> rec.relay == NotStarted)
    && (rec.phase == Counting || rec.phase == Connecting || rec.phase == Made || rec.phase == Added ||
        (rec.phase == Done && rec.relay == Running))
  }

  /** Nobody else has the address, nobody cleans the session up, the runner is not disposed. */
  ghost predicate Calm(s: State, c: Id, address: Address) {
    && !s.sourceDisposed
    && (forall d {:trigger s.creators[d]} :: d in s.creators && d != c ==> s.creators[d].address != address)
    && (forall r {:trigger s.cleaners[r]} :: r in s.cleaners && !s.cleaners[r].Finished? ==> s.cleaners[r].id != c)
    && (c in s.creators ==>
          && s.creators[c].address == address && OnCourse(s.creators[c])
          && (Listed(s, c) <==> s.creators[c].phase == Added || s.creators[c].phase == Done))
  }

  /** The step keeps away from the session; when it is its own, the limit has room and the connection succeeds. */
  predicate Spares(s: State, max: int, a: Action, c: Id, address: Address) {
    match a
    case Begin(d, other) => (d == c <==> other == address)
    case Advance(d, connected) => d == c && c in s.creators ==>
      (s.creators[c].phase == Counting ==> s.count < max) && (s.creators[c].phase == Connecting ==> connected)
    case EndRelay(d, _) => d != c
    case Clean(_, d) => d != c
    case Visit(_, d) => d != c
    case DisposeSource => false
    case _ => true
  }

  lemma BeginStaysCalm(s: State, max: int, d: Id, other: Address, c: Id, address: Address)
    requires Inv(s, max) && Calm(s, c, address) && Enabled(s, Begin(d, other)) && Spares(s, max, Begin(d, other), c, address)
    ensures Calm(Apply(s, max, Begin(d, other)), c, address)
  {
    if address in s.table { assert TableOk(s, address); }
  }

  lemma OwnStepStaysCalm(s: State, max: int, connected: bool, c: Id, address: Address)
    requires Inv(s, max) && Calm(s, c, address) && Enabled(s, Advance(c, connected))
    requires Spares(s, max, Advance(c, connected), c, address)
    ensures Calm(Apply(s, max, Advance(c, connected)), c, address)
  {
    if address in s.table { assert TableOk(s, address); }
  }

  lemma OtherEffectStaysCalm(s: State, max: int, d: Id, rec: Creator, e: Effect, c: Id, address: Address)
    requires Calm(s, c, address) && Fits(s, d, rec, e) && d != c
    ensures Calm(Affect(s, max, d, rec, e), c, address)
  {
    if c in s.creators { AffectLeavesOthers(s, max, d, rec, e, c); }
  }

  lemma AdvanceFits(s: State, max: int, d: Id, connected: bool)
    requires Inv(s, max) && Enabled(s, Advance(d, connected))
    ensures var rec := s.creators[d];
      var (next, e) := CreatorStep(rec, s.count + 1 > max, connected, rec.address in s.table, s.sourceDisposed);
      Fits(s, d, next, e)
  {
    var rec := s.creators[d];
    var over, taken := s.count + 1 > max, rec.address in s.table;
    var (next, e) := CreatorStep(rec, over, connected, taken, s.sourceDisposed);
    assert CreatorOk(s, d) && OwnedOk(s, d);
    CreatorStepOk(rec, Listed(s, d), d in s.tickets, d in s.admitted, over, connected, taken, s.sourceDisposed);
    OwnAfterAdvance(s, max, d, next, e);
  }

  lemma NoteStaysCalm(t: State, u: State, r: Cleaner, c: Id, address: Address)
    requires Calm(t, c, address) && r in u.cleaners && u == t.(cleaners := t.cleaners[r := u.cleaners[r]])
    requires !u.cleaners[r].Finished? ==> u.cleaners[r].id != c
    ensures Calm(u, c, address)
  {
  }

  lemma ProceedStaysCalm(s: State, max: int, r: Cleaner, c: Id, address: Address)
    requires Inv(s, max) && Calm(s, c, address) && Enabled(s, Proceed(r))
    ensures Calm(Apply(s, max, Proceed(r)), c, address)
  {
    var d := s.cleaners[r].id;
    var (next, e, q) := CleanerStep(s.creators[d], r, s.cleaners[r], Listed(s, d));
    OwnAfterProceed(s, max, r);
    OtherEffectStaysCalm(s, max, d, next, e, c, address);
    NoteStaysCalm(Affect(s, max, d, next, e), Apply(s, max, Proceed(r)), r, c, address);
  }

  lemma EndRelayStaysCalm(s: State, max: int, d: Id, r: Cleaner, c: Id, address: Address)
    requires Calm(s, c, address) && Enabled(s, EndRelay(d, r)) && d != c
    ensures Calm(Apply(s, max, EndRelay(d, r)), c, address)
  {
  }

  lemma CalmStep(s: State, max: int, a: Action, c: Id, address: Address)
    requires Inv(s, max) && Calm(s, c, address) && Enabled(s, a) && Spares(s, max, a, c, address)
    ensures Calm(Apply(s, max, a), c, address)
  {
    match a
    case Begin(d, other) => BeginStaysCalm(s, max, d, other, c, address);
    case Advance(d, connected) =>
      if d == c {
        OwnStepStaysCalm(s, max, connected, c, address);
      } else {
        AdvanceFits(s, max, d, connected);
        var rec := s.creators[d];
        var next := CreatorStep(rec, s.count + 1 > max, connected, rec.address in s.table, s.sourceDisposed);
        OtherEffectStaysCalm(s, max, d, next.0, next.1, c, address);
      }
    case EndRelay(d, r) => EndRelayStaysCalm(s, max, d, r, c, address);
    case Clean(r, _) => NoteStaysCalm(s, Apply(s, max, a), r, c, address);
    case Proceed(r) => ProceedStaysCalm(s, max, r, c, address);
    case Visit(r, d) => NoteStaysCalm(s, s.(cleaners := s.cleaners[r := Checking(d)]), r, c, address);
    case _ =>
  }

  ghost predicate SparedRun(states: seq<State>, max: int, actions: seq<Action>, c: Id, address: Address) {
    Run(states, max, actions) && forall i {:trigger StepAt(states, max, actions, i)} ::
      0 <= i < |actions| ==> Spares(states[i], max, actions[i], c, address)
  }

  lemma {:induction false} StaysCalm(states: seq<State>, max: int, actions: seq<Action>, i: nat, c: Id, address: Address)
    requires SparedRun(states, max, actions, c, address) && i < |states|
    ensures Calm(states[i], c, address)
  {
    if i > 0 {
      StaysCalm(states, max, actions, i - 1, c, address);
      RunKeepsInv(states, max, actions, i - 1);
      assert StepAt(states, max, actions, i - 1);
      CalmStep(states[i - 1], max, actions[i - 1], c, address);
    }
  }

  /** The steps a creator has left until its relay runs. */
  function StepsLeft(p: Phase): nat {
    match p
    case Counting => 4
    case Connecting => 3
    case Made => 2
    case Added => 1
    case _ => 0
  }

  /**
   In every interleaving a creator that alone has its address, finds room and a connection, and is left alone
   gets its session into the table and its relay running; until then its own step is possible and brings it nearer.
   */
  lemma UndisturbedSessionRelays(states: seq<State>, max: int, actions: seq<Action>, i: nat, c: Id, address: Address)
    requires SparedRun(states, max, actions, c, address) && i < |states| && c in states[i].creators
    ensures var s := states[i]; var rec := s.creators[c];
      && (rec.phase == Done ==> address in s.table && s.table[address] == c && rec.relay == Running && rec.fate == Kept)
      && (rec.phase != Done && s.count < max ==>
            && Enabled(s, Advance(c, true)) && c in Apply(s, max, Advance(c, true)).creators
            && StepsLeft(Apply(s, max, Advance(c, true)).creators[c].phase) < StepsLeft(rec.phase))
  {
    StaysCalm(states, max, actions, i, c, address);
    RunKeepsInv(states, max, actions, i);
    var s := states[i];
    if address in s.table { assert TableOk(s, address); }
  }
}
