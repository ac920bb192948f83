/**
 The UDP session table of `StreamProxyManager` as a transition system: creators of sessions, the relay
 of each session, everybody who cleans a session up, and disposal of the runner, in any interleaving
 of their atomic operations.
 */
module UdpSessions {
  import opened Sets
  import opened Wrappers

  /** A client address. */
  type Address(==)

  /** A creator and the session it makes, if it gets that far, share one name. */
  type Id = int

  /** One call of `RemoveUdpSession`. */
  type Cleaner = int

  datatype Phase =
    | Counting                  // no session was found; about to increment the counter
    | Over                      // above the limit; about to decrement it
    | Connecting                // holds a reservation
    | Failed                    // the connection failed; about to decrement
    | Made                      // has a session; about to add it to the table
    | Lost                      // another session was there; about to dispose its own
    | LostDisposed              // about to decrement
    | Added                     // in the table; about to start the relay
    | Stranded                  // the token source was disposed: starting the relay threw
    | Done

  datatype Relay = NotStarted | Running | Ended

  /** Who took the session out of the table, and how far the clean-up has come. */
  datatype Fate = Kept | Dropping(cleaner: Cleaner) | Disposing(cleaner: Cleaner) | Released

  datatype Creator = Creator(address: Address, phase: Phase, relay: Relay, fate: Fate, disposals: int, releases: int)

  datatype CleanerPhase = Checking(id: Id) | Removing(id: Id) | Removed(id: Id) | Disposed(id: Id) | Finished

  /** The loop over the table in `Dispose`: what it found when it began, what is still to come, and its present call. */
  datatype Sweep = NotBegun | Begun(found: set<Id>, todo: set<Id>, current: Option<Cleaner>)

  datatype State = State(
    count: int,                        // _udpSessionCount
    table: map<Address, Id>,           // _udpSessions
    creators: map<Id, Creator>,
    cleaners: map<Cleaner, CleanerPhase>,
    cancelled: bool,
    sweep: Sweep,
    sourceDisposed: bool,
    tickets: set<Id>,                  // history: who has incremented and not been decremented
    admitted: set<Id>)                 // history: those of them that were within the limit

  datatype Action =
    | Begin(c: Id, address: Address)
    | Advance(c: Id, connected: bool)  // the next step of a creator
    | EndRelay(c: Id, r: Cleaner)      // the relay loop ends and removes its session
    | Clean(r: Cleaner, c: Id)         // the idle sweep or a failed send removes a session
    | Proceed(r: Cleaner)              // the next step of a cleaner
    | Cancel                           // disposal of the runner: first the token,
    | BeginSweep                       // then the loop over the table begins,
    | Visit(r: Cleaner, c: Id)         // removes a session it meets,
    | Skip(c: Id)                      // or passes over one that is gone by now,
    | DisposeSource                    // and the token source goes last

  const Init := State(0, map[], map[], map[], false, NotBegun, false, {}, {})

  predicate Listed(s: State, c: Id) {
    c in s.creators && s.creators[c].address in s.table && s.table[s.creators[c].address] == c
  }

  /** The loop of disposal is between two of its calls. */
  predicate BetweenVisits(s: State) {
    s.sweep.Begun? && !s.sourceDisposed &&
    (s.sweep.current.Some? ==> s.sweep.current.value in s.cleaners && s.cleaners[s.sweep.current.value].Finished?)
  }

  /** A session that is in the table, or was. */
  predicate WasListed(s: State, c: Id) {
    c in s.creators && (Listed(s, c) || s.creators[c].fate != Kept)
  }

  predicate Enabled(s: State, a: Action) {
    match a
    case Begin(c, _) => c !in s.creators
    case Advance(c, _) => c in s.creators && s.creators[c].phase != Done && s.creators[c].phase != Stranded
    case EndRelay(c, r) => c in s.creators && s.creators[c].relay == Running && r !in s.cleaners
    case Clean(r, c) => r !in s.cleaners && WasListed(s, c)
    case Proceed(r) => r in s.cleaners && !s.cleaners[r].Finished? && s.cleaners[r].id in s.creators
    case Cancel => true
    case BeginSweep => s.cancelled && s.sweep.NotBegun?
    case Visit(r, c) => BetweenVisits(s) && r !in s.cleaners && WasListed(s, c) && (c in s.sweep.todo || Listed(s, c))
    case Skip(c) => BetweenVisits(s) && c in s.sweep.todo && !Listed(s, c)
    case DisposeSource => BetweenVisits(s) && s.sweep.todo == {}
  }

  function Sessions(s: State): set<Id> { set c | c in s.creators && Listed(s, c) }

  // ---------------------------------------------------------------- steps

  /** What a step does to the counter and the table on behalf of one session. */
  datatype Effect = Nothing | CountUp | CountDown | List | Unlist

  function Affect(s: State, max: int, c: Id, rec: Creator, e: Effect): State {
    s.(creators := s.creators[c := rec],
       count := if e == CountUp then s.count + 1 else if e == CountDown then s.count - 1 else s.count,
       tickets := if e == CountUp then s.tickets + {c} else if e == CountDown then s.tickets - {c} else s.tickets,
       admitted := if e == CountUp && s.count + 1 <= max then s.admitted + {c}
                   else if e == CountDown then s.admitted - {c} else s.admitted,
       table := if e == List then s.table[rec.address := c] else if e == Unlist then s.table - {rec.address} else s.table)
  }

  /** The next step of a creator. */
  function CreatorStep(rec: Creator, over: bool, connected: bool, taken: bool, sourceDisposed: bool): (Creator, Effect) {
    match rec.phase
    case Counting => (rec.(phase := if over then Over else Connecting), CountUp)
    case Over => (rec.(phase := Done), CountDown)
    case Connecting => (rec.(phase := if connected then Made else Failed), Nothing)
    case Failed => (rec.(phase := Done), CountDown)
    case Made => if taken then (rec.(phase := Lost), Nothing) else (rec.(phase := Added), List)
    case Lost => (rec.(phase := LostDisposed, disposals := rec.disposals + 1), Nothing)
    case LostDisposed => (rec.(phase := Done, releases := rec.releases + 1), CountDown)
    case Added => if sourceDisposed then (rec.(phase := Stranded), Nothing)
                  else (rec.(phase := Done, relay := Running), Nothing)
    case Stranded => (rec, Nothing)
    case Done => (rec, Nothing)
  }

  /** The next step of a cleaner; the pair (address, session) is removed only when that very session is stored. */
  function CleanerStep(rec: Creator, r: Cleaner, p: CleanerPhase, listed: bool): (Creator, Effect, CleanerPhase)
    requires !p.Finished?
  {
    match p
    case Checking(c) => (rec, Nothing, if listed then Removing(c) else Finished)
    case Removing(c) =>
      if listed then (rec.(fate := Dropping(r)), Unlist, Removed(c)) else (rec, Nothing, Finished)
    case Removed(c) => (rec.(fate := Disposing(r), disposals := rec.disposals + 1), Nothing, Disposed(c))
    case Disposed(c) => (rec.(fate := Released, releases := rec.releases + 1), CountDown, Finished)
  }

  function Apply(s: State, max: int, a: Action): State
    requires Enabled(s, a)
  {
    match a
    case Begin(c, address) =>
      var phase := if address in s.table then Done else Counting;
      s.(creators := s.creators[c := Creator(address, phase, NotStarted, Kept, 0, 0)])
    case Advance(c, connected) =>
      var rec := s.creators[c];
      var next := CreatorStep(rec, s.count + 1 > max, connected, rec.address in s.table, s.sourceDisposed);
      Affect(s, max, c, next.0, next.1)
    case EndRelay(c, r) =>
      s.(creators := s.creators[c := s.creators[c].(relay := Ended)], cleaners := s.cleaners[r := Checking(c)])
    case Clean(r, c) => s.(cleaners := s.cleaners[r := Checking(c)])
    case Proceed(r) =>
      var c := s.cleaners[r].id;
      var next := CleanerStep(s.creators[c], r, s.cleaners[r], Listed(s, c));
      Affect(s, max, c, next.0, next.1).(cleaners := s.cleaners[r := next.2])
    case Cancel => s.(cancelled := true)
    case BeginSweep => s.(sweep := Begun(Sessions(s), Sessions(s), None))
    case Visit(r, c) =>
      s.(cleaners := s.cleaners[r := Checking(c)], sweep := Begun(s.sweep.found, s.sweep.todo - {c}, Some(r)))
    case Skip(c) => s.(sweep := s.sweep.(todo := s.sweep.todo - {c}))
    case DisposeSource => s.(sourceDisposed := true)
  }

  // ---------------------------------------------------------------- invariant

  /** A creator in this phase holds a reservation. */
  predicate Reserving(p: Phase) {
    p == Over || p == Connecting || p == Failed || p == Made || p == Lost || p == LostDisposed
  }

  predicate HasBeenListed(p: Phase) { p == Added || p == Stranded || p == Done }

  /** A session that was in the table is still there, or one cleaner works on it, or it is released. */
  ghost predicate RecordOk(r: Creator, listed: bool, ticket: bool, admitted: bool) {
    && (ticket <==> Reserving(r.phase) || listed || r.fate.Dropping? || r.fate.Disposing?)
    && (admitted <==> ticket && r.phase != Over)
    && (r.fate != Kept ==> HasBeenListed(r.phase) && !listed)
    && (listed ==> HasBeenListed(r.phase))
    && (r.phase == Added || r.phase == Stranded || r.relay != NotStarted ==> listed || r.fate != Kept)
    && (r.relay != NotStarted ==> r.phase == Done)
    && (listed && r.phase == Done ==> r.relay != NotStarted)
    && (r.phase == Counting ==> !listed && r.fate == Kept)
    && r.disposals == (if r.fate.Disposing? || r.phase == LostDisposed || r.releases == 1 then 1 else 0)
    && 0 <= r.releases <= 1 && (r.fate == Released ==> r.releases == 1)
    && (r.releases == 1 ==> !listed && (r.fate == Released || (r.fate == Kept && r.phase == Done)))
  }

  ghost predicate CreatorOk(s: State, c: Id)
    requires c in s.creators
  {
    RecordOk(s.creators[c], Listed(s, c), c in s.tickets, c in s.admitted)
  }

  /** Only the cleaner that removed a session disposes and uncounts it. */
  ghost predicate CleanerOk(s: State, r: Cleaner)
    requires r in s.cleaners
  {
    match s.cleaners[r]
    case Checking(c) => c in s.creators && (Listed(s, c) || s.creators[c].fate != Kept)
    case Removing(c) => c in s.creators && (Listed(s, c) || s.creators[c].fate != Kept)
    case Removed(c) => c in s.creators && s.creators[c].fate == Dropping(r)
    case Disposed(c) => c in s.creators && s.creators[c].fate == Disposing(r)
    case Finished => true
  }

  /** A session taken out of the table has its cleaner; a relay that has ended left its session to one. */
  ghost predicate OwnedOk(s: State, c: Id)
    requires c in s.creators
  {
    var rec := s.creators[c];
    && (rec.fate.Dropping? ==> rec.fate.cleaner in s.cleaners && s.cleaners[rec.fate.cleaner] == Removed(c))
    && (rec.fate.Disposing? ==> rec.fate.cleaner in s.cleaners && s.cleaners[rec.fate.cleaner] == Disposed(c))
    && (rec.relay == Ended && Listed(s, c) ==>
          exists r :: r in s.cleaners && (s.cleaners[r] == Checking(c) || s.cleaners[r] == Removing(c)))
  }

  ghost predicate TableOk(s: State, address: Address)
    requires address in s.table
  {
    var c := s.table[address];
    c in s.creators && s.creators[c].address == address
  }

  ghost predicate CountOk(s: State, max: int) {
    && s.count == |s.tickets|
    && s.admitted <= s.tickets <= s.creators.Keys
    && |s.admitted| <= max
  }

  ghost predicate Inv(s: State, max: int) {
    && CountOk(s, max)
    && (forall c {:trigger CreatorOk(s, c)} :: c in s.creators ==> CreatorOk(s, c))
    && (forall c {:trigger OwnedOk(s, c)} :: c in s.creators ==> OwnedOk(s, c))
    && (forall k {:trigger TableOk(s, k)} :: k in s.table ==> TableOk(s, k))
    && (forall r {:trigger CleanerOk(s, r)} :: r in s.cleaners ==> CleanerOk(s, r))
  }

  // ---------------------------------------------------------------- steps keep it

  /** An effect is allowed when it fits what the session holds. */
  ghost predicate Fits(s: State, c: Id, rec: Creator, e: Effect) {
    && c in s.creators && rec.address == s.creators[c].address
    && (e == CountUp ==> c !in s.tickets)
    && (e == CountDown ==> c in s.tickets)
    && (e == List ==> rec.address !in s.table)
    && (e == Unlist ==> Listed(s, c))
  }

  lemma AffectCounts(s: State, max: int, c: Id, rec: Creator, e: Effect)
    requires CountOk(s, max) && Fits(s, c, rec, e)
    ensures CountOk(Affect(s, max, c, rec, e), max)
  {
    SubsetIsSmaller(s.admitted, s.tickets);
    AddCounts(s.tickets, c);
    AddCounts(s.admitted, c);
    RemoveCounts(s.tickets, c);
    RemoveCounts(s.admitted, c);
  }

  /** An effect for one session leaves every other session alone. */
  lemma AffectLeavesOthers(s: State, max: int, c: Id, rec: Creator, e: Effect, d: Id)
    requires Fits(s, c, rec, e) && d in s.creators && d != c
    ensures var t := Affect(s, max, c, rec, e);
      && d in t.creators && t.creators[d] == s.creators[d] && t.cleaners == s.cleaners
      && (Listed(t, d) <==> Listed(s, d)) && (d in t.tickets <==> d in s.tickets) && (d in t.admitted <==> d in s.admitted)
  {
  }

  lemma AffectOwn(s: State, max: int, c: Id, rec: Creator, e: Effect)
    requires Fits(s, c, rec, e)
    ensures var t := Affect(s, max, c, rec, e);
      && c in t.creators && t.creators[c] == rec && t.cleaners == s.cleaners
      && (Listed(t, c) <==> e == List || (Listed(s, c) && e != Unlist))
      && (c in t.tickets <==> e == CountUp || (c in s.tickets && e != CountDown))
      && (c in t.admitted <==> if e == CountUp then c in s.admitted || s.count + 1 <= max
                               else c in s.admitted && e != CountDown)
  {
  }

  lemma AffectTable(s: State, max: int, c: Id, rec: Creator, e: Effect, k: Address)
    requires Fits(s, c, rec, e) && k in Affect(s, max, c, rec, e).table && (k in s.table ==> TableOk(s, k))
    ensures TableOk(Affect(s, max, c, rec, e), k)
  {
  }

  /** What the next record and the effect of a creator's step have to do with the record before. */
  ghost predicate CreatorEffect(rec: Creator, next: Creator, e: Effect, listed: bool, ticket: bool, admitted: bool,
                                over: bool, taken: bool) {
    && next.address == rec.address && next.fate == rec.fate && (next.relay == Ended ==> rec.relay == Ended)
    && (e == CountUp ==> !ticket) && (e == CountDown ==> ticket) && e != Unlist
    && (e == List ==> !taken && next.relay == NotStarted)
    && RecordOk(next, listed || e == List, e == CountUp || (ticket && e != CountDown),
                if e == CountUp then admitted || !over else admitted && e != CountDown)
  }

  /** The record of a creator after its own step. */
  lemma CreatorStepOk(rec: Creator, listed: bool, ticket: bool, admitted: bool, over: bool, connected: bool, taken: bool,
                      sourceDisposed: bool)
    requires RecordOk(rec, listed, ticket, admitted) && rec.phase != Done && rec.phase != Stranded
    ensures var (next, e) := CreatorStep(rec, over, connected, taken, sourceDisposed);
      CreatorEffect(rec, next, e, listed, ticket, admitted, over, taken)
  {
  }

  /** The record of a session after a step of one of its cleaners. */
  lemma CleanerStepOk(rec: Creator, listed: bool, ticket: bool, admitted: bool, r: Cleaner, p: CleanerPhase)
    requires RecordOk(rec, listed, ticket, admitted) && !p.Finished?
    requires (p.Removed? ==> rec.fate == Dropping(r)) && (p.Disposed? ==> rec.fate == Disposing(r))
    ensures var (next, e, q) := CleanerStep(rec, r, p, listed);
      && next.address == rec.address && e != CountUp && e != List && (e == CountDown ==> ticket) && (e == Unlist ==> listed)
      && RecordOk(next, listed && e != Unlist, ticket && e != CountDown, admitted && e != CountDown)
  {
  }

  lemma OthersKeep(s: State, max: int, c: Id, rec: Creator, e: Effect)
    requires Inv(s, max) && Fits(s, c, rec, e)
    ensures var t := Affect(s, max, c, rec, e);
      forall d {:trigger CreatorOk(t, d)} {:trigger OwnedOk(t, d)} ::
        d in t.creators && d != c ==> d in s.creators && CreatorOk(t, d) && OwnedOk(t, d)
  {
    var t := Affect(s, max, c, rec, e);
    forall d | d in t.creators && d != c ensures d in s.creators && CreatorOk(t, d) && OwnedOk(t, d) {
      AffectLeavesOthers(s, max, c, rec, e, d);
      assert CreatorOk(s, d) && OwnedOk(s, d);
    }
  }

  lemma TableKeeps(s: State, max: int, c: Id, rec: Creator, e: Effect)
    requires Inv(s, max) && Fits(s, c, rec, e)
    ensures var t := Affect(s, max, c, rec, e);
      forall k {:trigger TableOk(t, k)} :: k in t.table ==> TableOk(t, k)
  {
    var t := Affect(s, max, c, rec, e);
    forall k | k in t.table ensures TableOk(t, k) {
      assert k in s.table ==> TableOk(s, k);
      AffectTable(s, max, c, rec, e, k);
    }
  }

  /** The cleaners that have not removed anything, or work on another session, do not notice. */
  lemma CleanersKeep(s: State, max: int, c: Id, rec: Creator, e: Effect, r: Cleaner)
    requires Inv(s, max) && Fits(s, c, rec, e) && r in s.cleaners
    requires !s.cleaners[r].Finished? && s.cleaners[r].id == c && (s.cleaners[r].Removed? || s.cleaners[r].Disposed?) ==>
               rec.fate == s.creators[c].fate
    requires Listed(s, c) || s.creators[c].fate != Kept ==> (Listed(s, c) && e != Unlist) || rec.fate != Kept
    ensures CleanerOk(Affect(s, max, c, rec, e), r)
  {
    assert CleanerOk(s, r);
    AffectOwn(s, max, c, rec, e);
    if !s.cleaners[r].Finished? && s.cleaners[r].id != c { AffectLeavesOthers(s, max, c, rec, e, s.cleaners[r].id); }
  }

  /** A step of a creator leaves the fate of its session alone, and so all cleaners. */
  lemma CleanersStay(s: State, max: int, c: Id, rec: Creator, e: Effect)
    requires Inv(s, max) && Fits(s, c, rec, e) && rec.fate == s.creators[c].fate && e != Unlist
    ensures var t := Affect(s, max, c, rec, e); forall r {:trigger CleanerOk(t, r)} :: r in t.cleaners ==> CleanerOk(t, r)
  {
    var t := Affect(s, max, c, rec, e);
    forall r | r in t.cleaners ensures CleanerOk(t, r) { CleanersKeep(s, max, c, rec, e, r); }
  }

  lemma OwnAfterAdvance(s: State, max: int, c: Id, next: Creator, e: Effect)
    requires c in s.creators && CreatorOk(s, c) && OwnedOk(s, c)
    requires CreatorEffect(s.creators[c], next, e, Listed(s, c), c in s.tickets, c in s.admitted, s.count + 1 > max,
                           s.creators[c].address in s.table)
    ensures Fits(s, c, next, e)
    ensures var t := Affect(s, max, c, next, e); CreatorOk(t, c) && OwnedOk(t, c)
  {
    AffectOwn(s, max, c, next, e);
  }

  lemma CreatorEffectKeeps(s: State, max: int, c: Id, next: Creator, e: Effect)
    requires Inv(s, max) && c in s.creators
    requires CreatorEffect(s.creators[c], next, e, Listed(s, c), c in s.tickets, c in s.admitted, s.count + 1 > max,
                           s.creators[c].address in s.table)
    ensures Inv(Affect(s, max, c, next, e), max)
  {
    assert CreatorOk(s, c) && OwnedOk(s, c);
    OwnAfterAdvance(s, max, c, next, e);
    RestKeeps(s, max, c, next, e);
    CleanersStay(s, max, c, next, e);
  }

  lemma AdvanceKeeps(s: State, max: int, c: Id, connected: bool)
    requires Inv(s, max) && Enabled(s, Advance(c, connected))
    ensures Inv(Apply(s, max, Advance(c, connected)), max)
  {
    var rec := s.creators[c];
    var over, taken := s.count + 1 > max, rec.address in s.table;
    var (next, e) := CreatorStep(rec, over, connected, taken, s.sourceDisposed);
    assert CreatorOk(s, c);
    CreatorStepOk(rec, Listed(s, c), c in s.tickets, c in s.admitted, over, connected, taken, s.sourceDisposed);
    CreatorEffectKeeps(s, max, c, next, e);
  }

  /** What an effect for one session keeps, except for that session and the cleaners. */
  lemma RestKeeps(s: State, max: int, c: Id, rec: Creator, e: Effect)
    requires Inv(s, max) && Fits(s, c, rec, e)
    ensures var t := Affect(s, max, c, rec, e);
      && CountOk(t, max)
      && (forall d {:trigger CreatorOk(t, d)} {:trigger OwnedOk(t, d)} ::
            d in t.creators && d != c ==> d in s.creators && CreatorOk(t, d) && OwnedOk(t, d))
      && (forall k {:trigger TableOk(t, k)} :: k in t.table ==> TableOk(t, k))
  {
    AffectCounts(s, max, c, rec, e);
    OthersKeep(s, max, c, rec, e);
    TableKeeps(s, max, c, rec, e);
  }

  lemma CreatorStepKeepsFate(rec: Creator, over: bool, connected: bool, taken: bool, sourceDisposed: bool)
    ensures var (next, e) := CreatorStep(rec, over, connected, taken, sourceDisposed);
      next.fate == rec.fate && (next.relay == Ended ==> rec.relay == Ended) && e != Unlist &&
      (e == List ==> next.relay == rec.relay && rec.phase == Made)
  {
  }

  lemma OwnAfterProceed(s: State, max: int, r: Cleaner)
    requires Inv(s, max) && Enabled(s, Proceed(r))
    ensures var c := s.cleaners[r].id;
      var (next, e, q) := CleanerStep(s.creators[c], r, s.cleaners[r], Listed(s, c));
      Fits(s, c, next, e) && CreatorOk(Affect(s, max, c, next, e), c)
  {
    var c, p := s.cleaners[r].id, s.cleaners[r];
    var (next, e, q) := CleanerStep(s.creators[c], r, p, Listed(s, c));
    assert CreatorOk(s, c) && CleanerOk(s, r);
    CleanerStepOk(s.creators[c], Listed(s, c), c in s.tickets, c in s.admitted, r, p);
    AffectOwn(s, max, c, next, e);
  }

  /** Apart from the session and its cleaner, only the note of the cleaner changes. */
  lemma RestAfterNote(t: State, u: State, max: int, r: Cleaner, c: Id)
    requires r in t.cleaners && !t.cleaners[r].Finished? && t.cleaners[r].id == c
    requires r in u.cleaners && u == t.(cleaners := t.cleaners[r := u.cleaners[r]])
    requires CountOk(t, max) && forall k {:trigger TableOk(t, k)} :: k in t.table ==> TableOk(t, k)
    requires c in t.creators ==> CreatorOk(t, c)
    requires forall d {:trigger CreatorOk(t, d)} {:trigger OwnedOk(t, d)} ::
               d in t.creators && d != c ==> CreatorOk(t, d) && OwnedOk(t, d)
    ensures CountOk(u, max) && forall k {:trigger TableOk(u, k)} :: k in u.table ==> TableOk(u, k)
    ensures forall d {:trigger CreatorOk(u, d)} :: d in u.creators ==> CreatorOk(u, d)
    ensures forall d {:trigger OwnedOk(u, d)} :: d in u.creators && d != c ==> OwnedOk(u, d)
  {
    forall d | d in u.creators && d != c ensures OwnedOk(u, d) {
      assert OwnedOk(t, d);
      OwnedElsewhere(t, u, r, c, d);
    }
    forall d | d in u.creators ensures CreatorOk(u, d) { assert CreatorOk(t, d); }
    forall k | k in u.table ensures TableOk(u, k) { assert TableOk(t, k); }
  }

  lemma ProceedKeeps(s: State, max: int, r: Cleaner)
    requires Inv(s, max) && Enabled(s, Proceed(r))
    ensures Inv(Apply(s, max, Proceed(r)), max)
  {
    var c := s.cleaners[r].id;
    var (next, e, q) := CleanerStep(s.creators[c], r, s.cleaners[r], Listed(s, c));
    var t, u := Affect(s, max, c, next, e), Apply(s, max, Proceed(r));
    OwnAfterProceed(s, max, r);
    RestKeeps(s, max, c, next, e);
    RestAfterNote(t, u, max, r, c);
    OwnedByCleaner(s, max, r);
    forall x | x in u.cleaners ensures CleanerOk(u, x) { CleanerAfterProceed(s, max, r, x); }
  }

  lemma CleanerAfterProceed(s: State, max: int, r: Cleaner, x: Cleaner)
    requires Inv(s, max) && Enabled(s, Proceed(r)) && x in Apply(s, max, Proceed(r)).cleaners
    ensures CleanerOk(Apply(s, max, Proceed(r)), x)
  {
    var c, p := s.cleaners[r].id, s.cleaners[r];
    var (next, e, q) := CleanerStep(s.creators[c], r, p, Listed(s, c));
    assert CreatorOk(s, c) && CleanerOk(s, r);
    CleanerStepOk(s.creators[c], Listed(s, c), c in s.tickets, c in s.admitted, r, p);
    if x != r {
      assert CleanerOk(s, x);
      CleanersKeep(s, max, c, next, e, x);
      assert CleanerOk(Affect(s, max, c, next, e), x);
    } else {
      AffectOwn(s, max, c, next, e);
    }
  }

  lemma OwnedElsewhere(t: State, u: State, r: Cleaner, c: Id, d: Id)
    requires d in t.creators && OwnedOk(t, d) && d != c && r in t.cleaners && !t.cleaners[r].Finished? && t.cleaners[r].id == c
    requires r in u.cleaners && u == t.(cleaners := t.cleaners[r := u.cleaners[r]])
    ensures OwnedOk(u, d)
  {
    if t.creators[d].relay == Ended && Listed(t, d) {
      var x :| x in t.cleaners && (t.cleaners[x] == Checking(d) || t.cleaners[x] == Removing(d));
      assert x in u.cleaners && u.cleaners[x] == t.cleaners[x];
    }
  }

  lemma OwnedByCleaner(s: State, max: int, r: Cleaner)
    requires Inv(s, max) && Enabled(s, Proceed(r))
    ensures OwnedOk(Apply(s, max, Proceed(r)), s.cleaners[r].id)
  {
    var c := s.cleaners[r].id;
    assert CreatorOk(s, c) && OwnedOk(s, c) && CleanerOk(s, r);
    var (next, e, q) := CleanerStep(s.creators[c], r, s.cleaners[r], Listed(s, c));
    AffectOwn(s, max, c, next, e);
    var u := Apply(s, max, Proceed(r));
    if next.relay == Ended && Listed(u, c) {
      var x :| x in s.cleaners && (s.cleaners[x] == Checking(c) || s.cleaners[x] == Removing(c));
      assert u.cleaners[x] == Checking(c) || u.cleaners[x] == Removing(c);
    }
  }

  lemma BeginKeeps(s: State, max: int, c: Id, address: Address)
    requires Inv(s, max) && Enabled(s, Begin(c, address))
    ensures Inv(Apply(s, max, Begin(c, address)), max)
  {
    var t := Apply(s, max, Begin(c, address));
    if address in s.table { assert TableOk(s, address); }
    forall d | d in t.creators ensures CreatorOk(t, d) && OwnedOk(t, d) {
      if d != c { assert CreatorOk(s, d) && OwnedOk(s, d); }
    }
    forall k | k in t.table ensures TableOk(t, k) { assert TableOk(s, k); }
    forall r | r in t.cleaners ensures CleanerOk(t, r) { assert CleanerOk(s, r); }
  }

  lemma EndRelayRecords(s: State, max: int, c: Id, r: Cleaner, d: Id)
    requires Inv(s, max) && Enabled(s, EndRelay(c, r)) && d in s.creators
    ensures var t := Apply(s, max, EndRelay(c, r)); CreatorOk(t, d) && OwnedOk(t, d)
  {
    var t := Apply(s, max, EndRelay(c, r));
    assert t.cleaners[r] == Checking(c);
    assert CreatorOk(s, d) && OwnedOk(s, d);
    if d != c { FreshCleaner(s, t, r, d); }
  }

  lemma EndRelayCleaners(s: State, max: int, c: Id, r: Cleaner, x: Cleaner)
    requires Inv(s, max) && Enabled(s, EndRelay(c, r)) && x in Apply(s, max, EndRelay(c, r)).cleaners
    ensures CleanerOk(Apply(s, max, EndRelay(c, r)), x)
  {
    assert CreatorOk(s, c);
    if x != r { assert CleanerOk(s, x); }
  }

  lemma EndRelayKeeps(s: State, max: int, c: Id, r: Cleaner)
    requires Inv(s, max) && Enabled(s, EndRelay(c, r))
    ensures Inv(Apply(s, max, EndRelay(c, r)), max)
  {
    var t := Apply(s, max, EndRelay(c, r));
    forall d | d in t.creators ensures CreatorOk(t, d) && OwnedOk(t, d) { EndRelayRecords(s, max, c, r, d); }
    forall k | k in t.table ensures TableOk(t, k) { assert TableOk(s, k); }
    forall x | x in t.cleaners ensures CleanerOk(t, x) { EndRelayCleaners(s, max, c, r, x); }
  }

  lemma FreshCleaner(s: State, t: State, r: Cleaner, d: Id)
    requires d in s.creators && OwnedOk(s, d) && r !in s.cleaners && r in t.cleaners
    requires t.cleaners == s.cleaners[r := t.cleaners[r]] && d in t.creators && t.creators[d] == s.creators[d]
    requires Listed(t, d) <==> Listed(s, d)
    ensures OwnedOk(t, d)
  {
    if s.creators[d].relay == Ended && Listed(s, d) {
      var x :| x in s.cleaners && (s.cleaners[x] == Checking(d) || s.cleaners[x] == Removing(d));
      assert x in t.cleaners && t.cleaners[x] == s.cleaners[x];
    }
  }

  lemma CleanKeeps(s: State, max: int, r: Cleaner, c: Id)
    requires Inv(s, max) && Enabled(s, Clean(r, c))
    ensures Inv(Apply(s, max, Clean(r, c)), max)
  {
    var t := Apply(s, max, Clean(r, c));
    forall d | d in t.creators ensures CreatorOk(t, d) && OwnedOk(t, d) {
      assert CreatorOk(s, d) && OwnedOk(s, d);
      FreshCleaner(s, t, r, d);
    }
    forall k | k in t.table ensures TableOk(t, k) { assert TableOk(s, k); }
    forall x | x in t.cleaners ensures CleanerOk(t, x) {
      if x != r { assert CleanerOk(s, x); }
    }
  }

  /** Where disposal stands matters to no session. */
  lemma DisposalKeeps(s: State, t: State, max: int)
    requires Inv(s, max) && t == s.(cancelled := t.cancelled, sweep := t.sweep, sourceDisposed := t.sourceDisposed)
    ensures Inv(t, max)
  {
    forall d | d in t.creators ensures CreatorOk(t, d) && OwnedOk(t, d) { assert CreatorOk(s, d) && OwnedOk(s, d); }
    forall k | k in t.table ensures TableOk(t, k) { assert TableOk(s, k); }
    forall x | x in t.cleaners ensures CleanerOk(t, x) { assert CleanerOk(s, x); }
  }

  lemma StepKeeps(s: State, max: int, a: Action)
    requires Inv(s, max) && Enabled(s, a)
    ensures Inv(Apply(s, max, a), max)
  {
    match a
    case Begin(c, address) => BeginKeeps(s, max, c, address);
    case Advance(c, connected) => AdvanceKeeps(s, max, c, connected);
    case EndRelay(c, r) => EndRelayKeeps(s, max, c, r);
    case Clean(r, c) => CleanKeeps(s, max, r, c);
    case Proceed(r) => ProceedKeeps(s, max, r);
    case Visit(r, c) =>
      CleanKeeps(s, max, r, c);
      DisposalKeeps(Apply(s, max, Clean(r, c)), Apply(s, max, a), max);
    case Cancel => DisposalKeeps(s, Apply(s, max, a), max);
    case BeginSweep => DisposalKeeps(s, Apply(s, max, a), max);
    case Skip(_) => DisposalKeeps(s, Apply(s, max, a), max);
    case DisposeSource => DisposalKeeps(s, Apply(s, max, a), max);
  }

  // ---------------------------------------------------------------- over whole runs

  /** The step from `s` to `t` is the one that `a` makes. */
  ghost predicate StepIs(s: State, max: int, a: Action, t: State) {
    Enabled(s, a) && t == Apply(s, max, a)
  }

  ghost predicate StepAt(states: seq<State>, max: int, actions: seq<Action>, i: nat)
    requires |states| == |actions| + 1
  {
    i < |actions| && StepIs(states[i], max, actions[i], states[i + 1])
  }

  ghost predicate Run(states: seq<State>, max: int, actions: seq<Action>) {
    && max > 0
    && |states| == |actions| + 1
    && states[0] == Init
    && forall i {:trigger StepAt(states, max, actions, i)} :: 0 <= i < |actions| ==> StepAt(states, max, actions, i)
  }

  lemma {:induction false} RunKeepsInv(states: seq<State>, max: int, actions: seq<Action>, i: nat)
    requires Run(states, max, actions) && i < |states|
    ensures Inv(states[i], max)
  {
    if i > 0 {
      RunKeepsInv(states, max, actions, i - 1);
      assert StepAt(states, max, actions, i - 1);
      StepKeeps(states[i - 1], max, actions[i - 1]);
    }
  }

  /** Creators that hold a reservation, within the limit or above it. */
  ghost function Reservations(s: State): set<Id> { set c | c in s.creators && Reserving(s.creators[c].phase) }

  /** Creators about to take back an increment above the limit. */
  ghost function Overshoots(s: State): set<Id> { set c | c in s.creators && s.creators[c].phase == Over }

  /** Sessions taken out of the table and not yet uncounted. */
  ghost function Releasing(s: State): set<Id> {
    set c | c in s.creators && (s.creators[c].fate.Dropping? || s.creators[c].fate.Disposing?)
  }

  lemma {:induction false} TableSize(table: map<Address, Id>, ids: set<Id>)
    requires forall k, l :: k in table && l in table && table[k] == table[l] ==> k == l
    requires forall k <- table :: table[k] in ids
    requires forall c <- ids :: exists k :: k in table && table[k] == c
    ensures |ids| == |table|
    decreases |ids|
  {
    if |ids| == 0 {
      assert forall k <- table :: table[k] in ids;
      assert table.Keys == {};
    } else {
      var c := Pick(ids);
      var k :| k in table && table[k] == c;
      var rest := table - {k};
      forall d | d in ids - {c} ensures exists l :: l in rest && rest[l] == d {
        var l :| l in table && table[l] == d;
        assert l in rest && rest[l] == d;
      }
      TableSize(rest, ids - {c});
      assert table.Keys == rest.Keys + {k};
      assert |table.Keys| == |rest.Keys| + 1;
    }
  }

  lemma SessionsAreTheTable(s: State, max: int)
    requires Inv(s, max)
    ensures |Sessions(s)| == |s.table|
  {
    forall k | k in s.table ensures s.table[k] in s.creators && s.creators[s.table[k]].address == k { assert TableOk(s, k); }
    forall c | c in Sessions(s) ensures exists k :: k in s.table && s.table[k] == c {
      assert s.creators[c].address in s.table;
    }
    TableSize(s.table, Sessions(s));
  }

  /** Every ticket is of exactly one of the three kinds. */
  lemma TicketKinds(s: State, max: int)
    requires Inv(s, max)
    ensures s.tickets == Reservations(s) + Sessions(s) + Releasing(s)
    ensures Reservations(s) !! Sessions(s) && (Reservations(s) + Sessions(s)) !! Releasing(s)
  {
    forall c ensures c in s.tickets <==> c in Reservations(s) || c in Sessions(s) || c in Releasing(s) {
      if c in s.creators { assert CreatorOk(s, c); }
    }
    forall c | c in s.creators
      ensures !(c in Reservations(s) && c in Sessions(s)) && !((c in Reservations(s) || c in Sessions(s)) && c in Releasing(s))
    {
      assert CreatorOk(s, c);
    }
  }

  lemma AdmittedAndOver(s: State, max: int)
    requires Inv(s, max)
    ensures s.tickets == s.admitted + Overshoots(s) && s.admitted !! Overshoots(s)
  {
    forall c ensures (c in s.tickets <==> c in s.admitted || c in Overshoots(s)) && !(c in s.admitted && c in Overshoots(s)) {
      if c in s.creators { assert CreatorOk(s, c); }
    }
  }

  /**
   At every step the counter is the number of reservations in flight, of sessions in the table and of
   sessions being released; without the increments about to be undone it never exceeds the limit.
   */
  lemma CountIsExact(states: seq<State>, max: int, actions: seq<Action>, i: nat)
    requires Run(states, max, actions) && i < |states|
    ensures var s := states[i];
      && s.count == |Reservations(s)| + |s.table| + |Releasing(s)|
      && s.count - |Overshoots(s)| <= max
  {
    RunKeepsInv(states, max, actions, i);
    TicketKinds(states[i], max);
    AdmittedAndOver(states[i], max);
    SessionsAreTheTable(states[i], max);
  }

  /** A session is never disposed or uncounted twice, and neither happens while it is in the table. */
  lemma DisposedAndUncountedOnce(states: seq<State>, max: int, actions: seq<Action>, i: nat, c: Id)
    requires Run(states, max, actions) && i < |states| && c in states[i].creators
    ensures var rec := states[i].creators[c];
      && 0 <= rec.releases <= rec.disposals <= 1
      && (Listed(states[i], c) ==> rec.disposals == 0 && rec.releases == 0)
      && (rec.fate == Released ==> rec.disposals == 1 && rec.releases == 1)
  {
    RunKeepsInv(states, max, actions, i);
    assert CreatorOk(states[i], c);
  }

  /** A cleaner of that very session takes it out of the table. */
  ghost predicate RemovesOwn(s: State, a: Action, c: Id) {
    a.Proceed? && a.r in s.cleaners && s.cleaners[a.r] == Removing(c)
  }

  /** Only its own cleaner takes a session out of the table: a stale clean-up spares the successor. */
  lemma {:induction false} OnlyOwnCleanerRemoves(states: seq<State>, max: int, actions: seq<Action>, i: nat, j: nat, c: Id)
    returns (n: nat)
    requires Run(states, max, actions) && i < j < |states|
    requires Listed(states[i], c) && !Listed(states[j], c)
    ensures i <= n < j && RemovesOwn(states[n], actions[n], c)
    decreases j
  {
    n := j - 1;
    var listed := Listed(states[n], c);
    if listed {
      RunEnds(states, max, actions, n, c);
    } else {
      n := OnlyOwnCleanerRemoves(states, max, actions, i, n, c);
    }
  }

  lemma RunEnds(states: seq<State>, max: int, actions: seq<Action>, n: nat, c: Id)
    requires Run(states, max, actions) && n < |actions| && Listed(states[n], c) && !Listed(states[n + 1], c)
    ensures RemovesOwn(states[n], actions[n], c)
  {
    RunKeepsInv(states, max, actions, n);
    assert StepAt(states, max, actions, n);
    ListingEnds(states[n], max, actions[n], c);
  }

  /** The steps that touch neither sessions nor the table. */
  predicate Quiet(a: Action) {
    a.Clean? || a.Cancel? || a.BeginSweep? || a.Visit? || a.Skip? || a.DisposeSource?
  }

  lemma QuietStep(s: State, max: int, a: Action)
    requires Enabled(s, a) && Quiet(a)
    ensures var t := Apply(s, max, a); t.creators == s.creators && t.table == s.table
  {
  }

  lemma ListingLastsInAdvance(s: State, max: int, d: Id, connected: bool, c: Id)
    requires Enabled(s, Advance(d, connected)) && Listed(s, c)
    ensures Listed(Apply(s, max, Advance(d, connected)), c)
  {
  }

  lemma ListingLasts(s: State, max: int, a: Action, c: Id)
    requires Enabled(s, a) && Listed(s, c) && !a.Proceed?
    ensures Listed(Apply(s, max, a), c)
  {
    if Quiet(a) {
      QuietStep(s, max, a);
    } else if a.Advance? {
      ListingLastsInAdvance(s, max, a.c, a.connected, c);
    }
  }

  lemma ListingEnds(s: State, max: int, a: Action, c: Id)
    requires Inv(s, max) && Enabled(s, a) && Listed(s, c) && !Listed(Apply(s, max, a), c)
    ensures RemovesOwn(s, a, c)
  {
    if a.Proceed? {
      ProceedEndsListing(s, max, a.r, c);
    } else {
      ListingLasts(s, max, a, c);
    }
  }

  lemma ProceedEndsListing(s: State, max: int, r: Cleaner, c: Id)
    requires Enabled(s, Proceed(r)) && Listed(s, c) && !Listed(Apply(s, max, Proceed(r)), c)
    ensures s.cleaners[r] == Removing(c)
  {
    var d := s.cleaners[r].id;
    var (rec, e, q) := CleanerStep(s.creators[d], r, s.cleaners[r], Listed(s, d));
    assert e != CountUp && e != List;
  }
}
