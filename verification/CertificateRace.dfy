/**
 The handshake of CertificateCache in two steps: the certificate is looked up, and later, when it is read
 from its file, cached. Changes of the table may fall between.
 */
module CertificateRace {
  import opened Wrappers
  import opened CertificateCache

  /** A handshake that has found its certificate object and not cached it yet. */
  datatype Pending = Pending(host: string, cert: int)

  datatype Racing = Racing(s: State, pending: map<int, Pending>)

  datatype Act =
    | Change(a: Action)                            // any operation but a handshake
    | Lookup(call: int, name: string, key: string)
    | Store(call: int)

  /** The content the file of the object has now goes into the cache unless the host has an entry. */
  function Stored(s: State, p: Pending): State
    requires p.cert in s.objects
  {
    if p.host in s.cache then s else s.(cache := s.cache[p.host := s.objects[p.cert].pfx])
  }

  /** A replacement of all certificates does not destroy the objects that handshakes still hold. */
  ghost predicate May(c: Chars, r: Racing, act: Act) {
    match act
    case Change(a) =>
      !a.Handshake? && Enabled(c, r.s, a) &&
      (a.Replace? ==> forall call <- r.pending :: r.pending[call].cert in a.objects)
    case Lookup(call, name, key) => call !in r.pending && Enabled(c, r.s, Handshake(name, key))
    case Store(call) => call in r.pending && r.pending[call].cert in r.s.objects
  }

  ghost function Next(c: Chars, r: Racing, act: Act): Racing
    requires May(c, r, act)
  {
    match act
    case Change(a) => r.(s := Apply(c, r.s, a))
    case Lookup(call, name, key) => r.(pending := r.pending[call := Pending(Normalize(c, name), r.s.table[key])])
    case Store(call) => Racing(Stored(r.s, r.pending[call]), r.pending - {call})
  }

  // ---------------------------------------------------------------- one late caching

  /** The host would get the same content now. */
  ghost predicate StillServes(c: Chars, s: State, p: Pending)
    requires p.cert in s.objects
  {
    exists k :: Answers(c, s.table, p.host, k) && s.table[k] in s.objects &&
                s.objects[s.table[k]].pfx == s.objects[p.cert].pfx
  }

  /** The caching changes nothing, or caches what the host would get now. */
  ghost predicate GoodStore(c: Chars, s: State, p: Pending)
    requires p.cert in s.objects
  {
    p.host in s.cache || StillServes(c, s, p)
  }

  lemma OtherHostsStay(c: Chars, s: State, p: Pending, h: string)
    requires p.cert in s.objects && p.host !in s.cache && h in s.cache && HostOk(c, s, h)
    ensures h in Stored(s, p).cache && HostOk(c, Stored(s, p), h)
  {
    assert Stored(s, p).cache[h] == s.cache[h];
  }

  /** A late caching keeps the agreement exactly when it is good. */
  lemma StoreAgreesIff(c: Chars, s: State, p: Pending)
    requires Agree(c, s) && IsHost(c, p.host) && p.cert in s.objects
    ensures Agree(c, Stored(s, p)) <==> GoodStore(c, s, p)
  {
    var t := Stored(s, p);
    if p.host !in s.cache {
      assert HostOk(c, t, p.host) <==> StillServes(c, s, p);
      forall h | h in s.cache ensures HostOk(c, t, h) {
        assert HostOk(c, s, h);
        OtherHostsStay(c, s, p, h);
      }
      forall h | h in t.cache && h != p.host ensures HostOk(c, t, h) {}
    }
  }

  // ---------------------------------------------------------------- whole runs

  ghost predicate StepAt(c: Chars, states: seq<Racing>, acts: seq<Act>, i: nat)
    requires |states| == |acts| + 1
  {
    i < |acts| && May(c, states[i], acts[i]) && states[i + 1] == Next(c, states[i], acts[i])
  }

  ghost predicate Race(c: Chars, states: seq<Racing>, acts: seq<Act>) {
    && |states| == |acts| + 1 && states[0].s.cache == map[] && states[0].pending == map[] && Aligned(c, states[0].s)
    && forall i {:trigger StepAt(c, states, acts, i)} :: 0 <= i < |acts| ==> StepAt(c, states, acts, i)
  }

  /** No change of the run leaves an old key behind. */
  ghost predicate CleanRace(c: Chars, states: seq<Racing>, acts: seq<Act>)
    requires |states| == |acts| + 1
  {
    forall i :: 0 <= i < |acts| && acts[i].Change? ==> !LeavesOldKey(c, states[i].s, acts[i].a)
  }

  /** The handshakes hold existing objects for real host names. */
  ghost predicate PendingOk(c: Chars, r: Racing) {
    forall call <- r.pending :: IsHost(c, r.pending[call].host) && r.pending[call].cert in r.s.objects
  }

  lemma ObjectsStay(c: Chars, r: Racing, a: Action, o: int)
    requires May(c, r, Change(a)) && o in r.s.objects && (a.Replace? ==> o in a.objects)
    ensures o in Apply(c, r.s, a).objects
  {
  }

  lemma PendingStays(c: Chars, r: Racing, act: Act)
    requires Sane(c) && PendingOk(c, r) && May(c, r, act)
    ensures PendingOk(c, Next(c, r, act))
  {
    match act
    case Change(a) =>
      forall call | call in r.pending ensures r.pending[call].cert in Apply(c, r.s, a).objects {
        ObjectsStay(c, r, a, r.pending[call].cert);
      }
    case Lookup(_, name, _) => HostIsNormalized(c, name);
    case Store(_) =>
  }

  lemma AlignedStays(c: Chars, r: Racing, act: Act)
    requires Sane(c) && Agree(c, r.s) && Aligned(c, r.s) && May(c, r, act)
    requires act.Change? ==> !LeavesOldKey(c, r.s, act.a)
    ensures Aligned(c, Next(c, r, act).s) && (!act.Store? ==> Agree(c, Next(c, r, act).s))
  {
    if act.Change? { StepKeeps(c, r.s, act.a); }
  }

  /** The caching at step `i`, if that is one, is good. */
  ghost predicate GoodAt(c: Chars, states: seq<Racing>, acts: seq<Act>, i: nat)
    requires |states| == |acts| + 1 && i < |acts|
  {
    acts[i].Store? && May(c, states[i], acts[i]) ==> GoodStore(c, states[i].s, states[i].pending[acts[i].call])
  }

  lemma OneStep(c: Chars, states: seq<Racing>, acts: seq<Act>, i: nat)
    requires Sane(c) && Race(c, states, acts) && CleanRace(c, states, acts) && i < |acts|
    requires Agree(c, states[i].s) && Aligned(c, states[i].s) && PendingOk(c, states[i])
    ensures Aligned(c, states[i + 1].s) && PendingOk(c, states[i + 1])
    ensures Agree(c, states[i + 1].s) <==> GoodAt(c, states, acts, i)
  {
    assert StepAt(c, states, acts, i);
    AlignedStays(c, states[i], acts[i]);
    PendingStays(c, states[i], acts[i]);
    if acts[i].Store? { StoreAgreesIff(c, states[i].s, states[i].pending[acts[i].call]); }
  }

  /** While all cachings so far were good, the cache agrees with the table. */
  lemma {:induction false} AgreesWhileGood(c: Chars, states: seq<Racing>, acts: seq<Act>, i: nat)
    requires Sane(c) && Race(c, states, acts) && CleanRace(c, states, acts) && i <= |acts|
    requires forall j :: 0 <= j < i ==> GoodAt(c, states, acts, j)
    ensures Agree(c, states[i].s) && Aligned(c, states[i].s) && PendingOk(c, states[i])
  {
    if i > 0 {
      AgreesWhileGood(c, states, acts, i - 1);
      OneStep(c, states, acts, i - 1);
    }
  }

  lemma FirstBad(c: Chars, states: seq<Racing>, acts: seq<Act>) returns (i: nat)
    requires |states| == |acts| + 1 && exists j :: 0 <= j < |acts| && !GoodAt(c, states, acts, j)
    ensures i < |acts| && !GoodAt(c, states, acts, i) && forall j :: 0 <= j < i ==> GoodAt(c, states, acts, j)
  {
    i := 0;
    while GoodAt(c, states, acts, i)
      invariant i < |acts| && forall j :: 0 <= j < i ==> GoodAt(c, states, acts, j)
      decreases |acts| - i
    {
      var j :| 0 <= j < |acts| && !GoodAt(c, states, acts, j);
      assert j > i;
      i := i + 1;
    }
  }

  /**
   However changes fall between the two steps of handshakes: the cache agrees with the table throughout a run
   exactly when every caching finds its host cached or its certificate still the one the host would get.
   */
  lemma RaceAgreesIff(c: Chars, states: seq<Racing>, acts: seq<Act>)
    requires Sane(c) && Race(c, states, acts) && CleanRace(c, states, acts)
    ensures (forall i :: 0 <= i < |states| ==> Agree(c, states[i].s)) <==>
            forall i :: 0 <= i < |acts| ==> GoodAt(c, states, acts, i)
  {
    if forall i :: 0 <= i < |acts| ==> GoodAt(c, states, acts, i) {
      forall i | 0 <= i < |states| ensures Agree(c, states[i].s) { AgreesWhileGood(c, states, acts, i); }
    } else {
      var i := FirstBad(c, states, acts);
      AgreesWhileGood(c, states, acts, i);
      OneStep(c, states, acts, i);
      assert !Agree(c, states[i + 1].s);
    }
  }

  // ---------------------------------------------------------------- an upload in between

  /** Key `k` has to do with host `h`. */
  ghost predicate Relevant(c: Chars, h: string, k: string) {
    Fold(c, k) == h || Wildcard(h) == Some(Fold(c, k))
  }

  /** `k` is the one key of the table that has to do with the host. */
  ghost predicate OnlyKey(c: Chars, s: State, h: string, k: string) {
    k in s.table && Relevant(c, h, k) && forall j <- s.table :: Relevant(c, h, j) ==> j == k
  }

  /** The upload is of the certificate behind the key, which is its domain so far. */
  lemma UploadedHere(c: Chars, s: State, h: string, k: string, a: Action)
    requires Sane(c) && Aligned(c, s) && IsHost(c, h) && OnlyKey(c, s, h, k)
    requires a.Upload? && Enabled(c, s, a) && !LeavesOldKey(c, s, a) && a.id in s.config && s.config[a.id] == s.table[k]
    ensures s.table[k] in s.objects && s.objects[s.table[k]].domain == k && (SameDomain(c, k, a.domain) ==> a.domain == k)
  {
    RelevantKeyServes(c, h, k);
  }

  lemma UploadUncaches(c: Chars, s: State, h: string, k: string, a: Action)
    requires Sane(c) && Aligned(c, s) && IsHost(c, h) && OnlyKey(c, s, h, k)
    requires a.Upload? && Enabled(c, s, a) && !LeavesOldKey(c, s, a) && a.id in s.config && s.config[a.id] == s.table[k]
    ensures h !in Apply(c, s, a).cache
  {
    UploadedHere(c, s, h, k, a);
    KeyDropsHost(c, h, k);
  }

  /**
   A handshake looked up the certificate of the only key for its host, and that certificate is uploaded again
   before it is cached: the caching is good exactly when the new domain still has to do with the host.
   */
  lemma UploadBetweenIff(c: Chars, s: State, h: string, k: string, a: Action)
    requires Sane(c) && Aligned(c, s) && IsHost(c, h) && OnlyKey(c, s, h, k)
    requires a.Upload? && Enabled(c, s, a) && !LeavesOldKey(c, s, a) && a.id in s.config && s.config[a.id] == s.table[k]
    ensures s.table[k] in Apply(c, s, a).objects
    ensures GoodStore(c, Apply(c, s, a), Pending(h, s.table[k])) <==> Relevant(c, h, a.domain)
  {
    var t, o := Apply(c, s, a), s.table[k];
    UploadedHere(c, s, h, k, a);
    UploadUncaches(c, s, h, k, a);
    forall j | j in t.table && Relevant(c, h, j) ensures j == a.domain {}
    assert t.table[a.domain] == o;
    if Relevant(c, h, a.domain) {
      assert Answers(c, t.table, h, a.domain);
    } else {
      forall j ensures !Answers(c, t.table, h, j) {}
    }
  }

  /** The upload renames no certificate from or to a domain that has to do with the host. */
  ghost predicate Unrelated(c: Chars, s: State, h: string, a: Action)
    requires a.Upload?
  {
    && !Relevant(c, h, a.domain)
    && (a.id in s.config && s.config[a.id] in s.objects ==> !Relevant(c, h, s.objects[s.config[a.id]].domain))
  }

  lemma UnrelatedKeysStay(c: Chars, s: State, h: string, a: Action, j: string)
    requires a.Upload? && Enabled(c, s, a) && Unrelated(c, s, h, a) && Relevant(c, h, j)
    ensures var t := Apply(c, s, a).table; (j in t <==> j in s.table) && (j in t ==> t[j] == s.table[j])
  {
    OtherKeysStay(c, s, a, j);
  }

  lemma OtherKeysStay(c: Chars, s: State, a: Action, j: string)
    requires a.Upload? && Enabled(c, s, a) && j != a.domain
    requires a.id in s.config && s.config[a.id] in s.objects ==> j != s.objects[s.config[a.id]].domain
    ensures var t := Apply(c, s, a).table; (j in t <==> j in s.table) && (j in t ==> t[j] == s.table[j])
  {
  }

  lemma SameKeysSameAnswer(c: Chars, s: Table, t: Table, h: string, k: string)
    requires forall j :: Relevant(c, h, j) ==> (j in t <==> j in s) && (j in t ==> t[j] == s[j])
    ensures Answers(c, s, h, k) <==> Answers(c, t, h, k)
  {
    forall j ensures ExactKey(c, t, h, j) <==> ExactKey(c, s, h, j) { assert Fold(c, j) == h ==> Relevant(c, h, j); }
    assert Wildcard(h) == Some(Fold(c, k)) ==> Relevant(c, h, k);
  }

  /** An upload of another certificate, between domains that have nothing to do with the host, keeps a caching good. */
  lemma UnrelatedUploadKeeps(c: Chars, s: State, p: Pending, k: string, a: Action)
    requires p.cert in s.objects && Answers(c, s.table, p.host, k) && s.table[k] == p.cert
    requires a.Upload? && Enabled(c, s, a) && Target(s, a.id, a.n) != p.cert && Unrelated(c, s, p.host, a)
    ensures p.cert in Apply(c, s, a).objects && StillServes(c, Apply(c, s, a), p)
  {
    var t := Apply(c, s, a);
    forall j | Relevant(c, p.host, j)
      ensures (j in t.table <==> j in s.table) && (j in t.table ==> t.table[j] == s.table[j])
    {
      UnrelatedKeysStay(c, s, p.host, a, j);
    }
    SameKeysSameAnswer(c, s.table, t.table, p.host, k);
  }
}
