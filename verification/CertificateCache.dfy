/**
 The certificate cache of the TLS handshake against the certificate table of `CertService`: every
 change of the table invalidates the hosts whose answer it changes.
 */
module CertificateCache {
  import opened Sets
  import opened Text
  import opened Wrappers

  /** Case folding and white space; folding leaves the signs of a pattern alone. */
  datatype Chars = Chars(fold: char -> char, isWhite: char -> bool)

  ghost predicate Sane(c: Chars) {
    && (forall x :: c.fold(c.fold(x)) == c.fold(x))
    && (forall x :: c.isWhite(c.fold(x)) == c.isWhite(x))
    && c.fold('.') == '.' && c.fold('*') == '*' && !c.isWhite('*')
  }

  function Fold(c: Chars, s: string): string { FoldWith(s, c.fold) }

  /** What a host name is turned into before it is looked up. */
  function Normalize(c: Chars, s: string): string { Fold(c, Trim(s, c.isWhite)) }

  /** A normalized host name. */
  ghost predicate IsHost(c: Chars, h: string) {
    h != "" && Fold(c, h) == h && !c.isWhite(h[0]) && !c.isWhite(h[|h| - 1])
  }

  /** The wildcard that covers a host, if its first label and its rest are not empty. */
  function Wildcard(h: string): Option<string> {
    var index := IndexOf(h, '.');
    if 0 < index < |h| - 1 then Some("*." + h[index + 1..]) else None
  }

  // ---------------------------------------------------------------- which certificate a host gets

  /** Two certificate objects are never the same number. */
  datatype Cert = Cert(domain: string, pfx: int)

  /** The table from domains to certificate objects; a key matches without regard to case. */
  type Table = map<string, int>

  ghost predicate ExactKey(c: Chars, table: Table, h: string, k: string) { k in table && Fold(c, k) == h }

  ghost predicate WildKey(c: Chars, table: Table, h: string, k: string) {
    k in table && Wildcard(h) == Some(Fold(c, k))
  }

  /** Key `k` answers for host `h`: an exact key, or, without any, one for the wildcard over one label. */
  ghost predicate Answers(c: Chars, table: Table, h: string, k: string) {
    ExactKey(c, table, h, k) || (WildKey(c, table, h, k) && forall j :: !ExactKey(c, table, h, j))
  }

  lemma WildcardIsFolded(c: Chars, h: string)
    requires Sane(c) && Fold(c, h) == h
    ensures Wildcard(h).Some? ==> Fold(c, Wildcard(h).value) == Wildcard(h).value
  {
    var index := IndexOf(h, '.');
    if 0 < index < |h| - 1 {
      var w := "*." + h[index + 1..];
      forall i | 0 <= i < |w| ensures Fold(c, w)[i] == w[i] {
        if i >= 2 { assert w[i] == h[index - 1 + i]; }
      }
    }
  }

  lemma HostIsNormalized(c: Chars, domain: string)
    requires Sane(c) && !Blank(domain, c.isWhite)
    ensures IsHost(c, Normalize(c, domain))
  {
    TrimmedIsNotEmpty(c, domain);
    var t := Trim(domain, c.isWhite);
    assert forall i :: 0 <= i < |t| ==> c.fold(c.fold(t[i])) == c.fold(t[i]);
    assert Fold(c, Fold(c, t)) == Fold(c, t);
  }

  lemma TrimmedIsNotEmpty(c: Chars, s: string)
    requires !Blank(s, c.isWhite)
    ensures Trim(s, c.isWhite) != ""
  {
    TrimStartKeepsBlack(c, s);
    TrimEndKeepsBlack(c, TrimStart(s, c.isWhite));
  }

  lemma {:induction false} TrimStartKeepsBlack(c: Chars, s: string)
    requires !Blank(s, c.isWhite)
    ensures !Blank(TrimStart(s, c.isWhite), c.isWhite)
  {
    if s != "" && c.isWhite(s[0]) {
      var i :| 0 <= i < |s| && !c.isWhite(s[i]);
      assert s[1..][i - 1] == s[i];
      TrimStartKeepsBlack(c, s[1..]);
    }
  }

  lemma {:induction false} TrimEndKeepsBlack(c: Chars, s: string)
    requires !Blank(s, c.isWhite)
    ensures TrimEnd(s, c.isWhite) != ""
  {
    if s != "" && c.isWhite(s[|s| - 1]) {
      var i :| 0 <= i < |s| && !c.isWhite(s[i]);
      assert s[..|s| - 1][i] == s[i];
      TrimEndKeepsBlack(c, s[..|s| - 1]);
    }
  }

  /** The host is one label, a dot and the rest. */
  predicate OneLabel(h: string, first: string, rest: string) {
    h == first + ['.'] + rest && first != "" && rest != "" && '.' !in first
  }

  /** The key, case aside, is a star in place of the first label of the host. */
  ghost predicate StarFor(c: Chars, h: string, k: string) {
    exists first, rest :: OneLabel(h, first, rest) && Fold(c, k) == ['*', '.'] + rest
  }

  lemma LabelIsCut(h: string, first: string, rest: string)
    requires OneLabel(h, first, rest)
    ensures IndexOf(h, '.') == |first| && 0 < |first| < |h| - 1 && first == h[..|first|] && rest == h[|first| + 1..]
  {
    CutGivesIndex(first, '.', rest);
  }

  lemma WildcardFromStar(c: Chars, h: string, k: string)
    requires StarFor(c, h, k)
    ensures Wildcard(h) == Some(Fold(c, k))
  {
    var first, rest :| OneLabel(h, first, rest) && Fold(c, k) == ['*', '.'] + rest;
    LabelIsCut(h, first, rest);
    assert "*." == ['*', '.'];
  }

  lemma StarFromWildcard(c: Chars, h: string, k: string)
    requires Wildcard(h) == Some(Fold(c, k))
    ensures StarFor(c, h, k)
  {
    var i := IndexOf(h, '.');
    IndexGivesCut(h, '.');
    assert "*." == ['*', '.'];
    assert OneLabel(h, h[..i], h[i + 1..]);
  }

  lemma WildcardIsStar(c: Chars, h: string, k: string)
    ensures Wildcard(h) == Some(Fold(c, k)) <==> StarFor(c, h, k)
  {
    if StarFor(c, h, k) { WildcardFromStar(c, h, k); }
    if Wildcard(h) == Some(Fold(c, k)) { StarFromWildcard(c, h, k); }
  }

  /** The key of the certificate a host gets: its own name, or, without that, a star for its first label; case aside. */
  ghost predicate CertKey(c: Chars, table: Table, h: string, k: string) {
    k in table && (Fold(c, k) == h || (StarFor(c, h, k) && forall j <- table :: Fold(c, j) != h))
  }

  lemma AnswersIsCertKey(c: Chars, table: Table, h: string, k: string)
    ensures Answers(c, table, h, k) <==> CertKey(c, table, h, k)
  {
    WildcardIsStar(c, h, k);
    if forall j :: !ExactKey(c, table, h, j) {
      forall j | j in table ensures Fold(c, j) != h { assert !ExactKey(c, table, h, j); }
    }
  }

  lemma SameRest(c: Chars, k: string, r: string, rest: string)
    requires Fold(c, k) == ['*', '.'] + r && Fold(c, k) == ['*', '.'] + rest
    ensures r == rest
  {
    assert r == Fold(c, k)[2..] == rest;
  }

  /** A key for `*.rest`, case aside, answers for a host without an exact key exactly when the host is one label before `rest`. */
  lemma StarAnswersIff(c: Chars, table: Table, h: string, k: string, rest: string)
    requires k in table && Fold(c, k) == ['*', '.'] + rest && forall j <- table :: Fold(c, j) != h
    ensures CertKey(c, table, h, k) <==> exists first :: OneLabel(h, first, rest)
  {
    if CertKey(c, table, h, k) {
      var first, r :| OneLabel(h, first, r) && Fold(c, k) == ['*', '.'] + r;
      SameRest(c, k, r, rest);
    }
  }

  /** A star stands for one label, not for two. */
  lemma StarIsOneLabel(c: Chars, h: string, k: string, front: string, second: string, rest: string)
    requires Fold(c, k) == ['*', '.'] + rest && OneLabel(h, front, second + ['.'] + rest)
    ensures !StarFor(c, h, k)
  {
    if StarFor(c, h, k) {
      var first, r :| OneLabel(h, first, r) && Fold(c, k) == ['*', '.'] + r;
      SameRest(c, k, r, rest);
      LabelIsCut(h, first, rest);
      LabelIsCut(h, front, second + ['.'] + rest);
      assert false;
    }
  }

  /** One loop over the table, in whatever order it is enumerated. */
  method FindKey(c: Chars, table: Table, name: string) returns (found: Option<string>)
    requires Fold(c, name) == name
    ensures found.None? ==> forall k <- table :: Fold(c, k) != name
    ensures found.Some? ==> found.value in table && Fold(c, found.value) == name
  {
    var todo := table.Keys;
    while todo != {}
      invariant todo <= table.Keys && forall k :: k in table && k !in todo ==> Fold(c, k) != name
    {
      var k :| k in todo;
      if Fold(c, k) == Fold(c, name) { return Some(k); }
      todo := todo - {k};
    }
    return None;
  }

  /** The exact name first, then the wildcard over one label. */
  method GetCert(c: Chars, table: Table, domain: string) returns (found: Option<int>)
    requires Sane(c)
    ensures !Blank(domain, c.isWhite) && found.None? ==> forall k :: !Answers(c, table, Normalize(c, domain), k)
    ensures found.Some? ==> exists k :: Answers(c, table, Normalize(c, domain), k) && table[k] == found.value
    ensures Blank(domain, c.isWhite) ==> found.None?
    ensures !Blank(domain, c.isWhite) && found.None? ==> forall k :: !CertKey(c, table, Normalize(c, domain), k)
    ensures found.Some? ==> exists k :: CertKey(c, table, Normalize(c, domain), k) && table[k] == found.value
  {
    if Blank(domain, c.isWhite) { return None; }
    var host := Normalize(c, domain);
    HostIsNormalized(c, domain);
    forall k ensures Answers(c, table, host, k) <==> CertKey(c, table, host, k) { AnswersIsCertKey(c, table, host, k); }
    var key := FindKey(c, table, host);
    if key.Some? {
      assert Answers(c, table, host, key.value);
      return Some(table[key.value]);
    }
    var index := IndexOf(host, '.');
    if 0 < index < |host| - 1 {
      WildcardIsFolded(c, host);
      key := FindKey(c, table, "*." + host[index + 1..]);
      if key.Some? {
        assert Answers(c, table, host, key.value);
        return Some(table[key.value]);
      }
    }
    return None;
  }

  // ---------------------------------------------------------------- invalidation

  /** `InvalidateCertificate(domain)` drops the entry of host `h`. */
  predicate Drops(c: Chars, domain: string, h: string) {
    !Blank(domain, c.isWhite) &&
    var n := Normalize(c, domain);
    if |n| >= 2 && n[0] == '*' && n[1] == '.' then
      h == n || (|h| >= |n| - 1 && h[|h| - (|n| - 1)..] == n[1..])
    else h == n
  }

  /** Exactly the host of the domain is dropped, and for a wildcard everything that ends like it. */
  lemma DropsIff(c: Chars, domain: string, h: string)
    requires !Blank(domain, c.isWhite)
    ensures Drops(c, domain, h) <==> h == Normalize(c, domain) || EndsLike(h, Normalize(c, domain))
  {
    var n := Normalize(c, domain);
    if EndsLike(h, n) { EndsLikeDrops(h, n); }
    if Drops(c, domain, h) && h != n { DropsEndLike(h, n); }
  }

  /** The name is a wildcard, and the host ends in the dot and the rest of it. */
  ghost predicate EndsLike(h: string, name: string) {
    exists front, rest :: name == ['*', '.'] + rest && h == front + ['.'] + rest
  }

  lemma EndsLikeDrops(h: string, n: string)
    requires EndsLike(h, n)
    ensures |n| >= 2 && n[0] == '*' && n[1] == '.' && |h| >= |n| - 1 && h[|h| - (|n| - 1)..] == n[1..]
  {
    var front, rest :| n == ['*', '.'] + rest && h == front + ['.'] + rest;
    assert n[1..] == ['.'] + rest && h[|front|..] == ['.'] + rest;
  }

  lemma DropsEndLike(h: string, n: string)
    requires |n| >= 2 && n[0] == '*' && n[1] == '.' && |h| >= |n| - 1 && h[|h| - (|n| - 1)..] == n[1..]
    ensures EndsLike(h, n)
  {
    var front, rest := h[..|h| - (|n| - 1)], n[2..];
    assert n == ['*', '.'] + rest && n[1..] == ['.'] + rest;
    assert h == front + n[1..];
    assert h == front + ['.'] + rest;
  }

  method InvalidateCertificate(c: Chars, cache: map<string, int>, domain: string) returns (next: map<string, int>)
    ensures next == map h | h in cache && !Drops(c, domain, h) :: cache[h]
  {
    if Blank(domain, c.isWhite) { return cache; }
    var normalized := Normalize(c, domain);
    next := cache;
    if |normalized| >= 2 && normalized[0] == '*' && normalized[1] == '.' {
      var todo := cache.Keys;
      while todo != {}
        invariant todo <= cache.Keys && next == map h | h in cache && (h in todo || !Drops(c, domain, h)) :: cache[h]
      {
        var host :| host in todo;
        var suffix := normalized[1..];
        if host == normalized || (|host| >= |suffix| && host[|host| - |suffix|..] == suffix) {
          next := next - {host};
        }
        todo := todo - {host};
      }
      return;
    }
    next := next - {normalized};
  }

  /** Some host name may ask for the key: it has no white space around it. */
  ghost predicate CanServe(c: Chars, k: string) { IsHost(c, Fold(c, k)) }

  lemma RelevantKeyServes(c: Chars, h: string, k: string)
    requires Sane(c) && IsHost(c, h)
    requires Fold(c, k) == h || Wildcard(h) == Some(Fold(c, k))
    ensures CanServe(c, k)
  {
    if Fold(c, k) != h {
      WildcardIsFolded(c, h);
      var w := Wildcard(h).value;
      assert w[|w| - 1] == h[|h| - 1] && w[0] == '*';
    }
  }

  lemma KeyIsItsOwnHost(c: Chars, k: string)
    requires Sane(c) && CanServe(c, k)
    ensures !Blank(k, c.isWhite) && Normalize(c, k) == Fold(c, k)
  {
    var h := Fold(c, k);
    assert h[0] == c.fold(k[0]) && h[|h| - 1] == c.fold(k[|k| - 1]);
    assert Trim(k, c.isWhite) == k;
  }

  /** A key that has to do with a host is dropped with it. */
  lemma KeyDropsHost(c: Chars, h: string, k: string)
    requires Sane(c) && IsHost(c, h)
    requires Fold(c, k) == h || Wildcard(h) == Some(Fold(c, k))
    ensures Drops(c, k, h)
  {
    RelevantKeyServes(c, h, k);
    KeyIsItsOwnHost(c, k);
    if Fold(c, k) != h {
      var index := IndexOf(h, '.');
      assert Fold(c, k)[1..] == "." + h[index + 1..] == h[index..];
    }
  }

  // ---------------------------------------------------------------- the whole state

  datatype State = State(
    objects: map<int, Cert>,       // certificate objects; `pfx` stands for the file they name
    config: map<string, int>,      // certificate id to object
    table: Table,                  // CertWebApplications
    cache: map<string, int>)       // host to the loaded certificate

  /** Every cached certificate is the one of a key that answers for the host now. */
  ghost predicate HostOk(c: Chars, s: State, h: string)
    requires h in s.cache
  {
    IsHost(c, h) && exists k :: Answers(c, s.table, h, k) && s.table[k] in s.objects && s.objects[s.table[k]].pfx == s.cache[h]
  }

  ghost predicate Agree(c: Chars, s: State) {
    forall h {:trigger HostOk(c, s, h)} :: h in s.cache ==> HostOk(c, s, h)
  }

  /** Every certificate of the configuration is an object of its own. */
  ghost predicate OwnObjects(s: State) {
    && (forall id <- s.config :: s.config[id] in s.objects)
    && forall i, j :: i in s.config && j in s.config && i != j ==> s.config[i] != s.config[j]
  }

  /** A key that some host may ask for is the domain of its object. */
  ghost predicate Aligned(c: Chars, s: State) {
    && OwnObjects(s)
    && (forall k <- s.table :: s.table[k] in s.objects)
    && forall k <- s.table :: CanServe(c, k) ==> s.objects[s.table[k]].domain == k
  }

  function Invalidate(c: Chars, s: State, domain: string): State {
    s.(cache := map h | h in s.cache && !Drops(c, domain, h) :: s.cache[h])
  }

  datatype Action =
    | Handshake(name: string, key: string)             // key: where the enumeration found the certificate
    | Upload(id: string, domain: string, pfx: int, n: int)
    | Delete(id: string)
    | ValidateDns(id: string, pfx: int)
    | Create(id: string, cert: Cert, n: int)
    | Put(id: string, cert: Cert, n: int)
    | Replace(config: map<string, int>, table: Table, objects: map<int, Cert>)

  /** `OrdinalIgnoreCase` equality of the two domains of an upload. */
  predicate SameDomain(c: Chars, a: string, b: string) { Fold(c, a) == Fold(c, b) }

  /** No other certificate of the configuration has the domain. */
  ghost predicate DomainFree(s: State, id: string, domain: string) {
    forall other <- s.config :: other != id && s.config[other] in s.objects ==> s.objects[s.config[other]].domain != domain
  }

  ghost predicate Enabled(c: Chars, s: State, a: Action) {
    match a
    case Handshake(name, key) => !Blank(name, c.isWhite) && Answers(c, s.table, Normalize(c, name), key) && s.table[key] in s.objects
    case Upload(id, domain, _, n) => !Blank(domain, c.isWhite) && n !in s.objects && DomainFree(s, id, domain)
    case Delete(id) => id in s.config && s.config[id] in s.objects
    case ValidateDns(id, _) => id in s.config && s.config[id] in s.objects
    case Create(id, cert, n) => !Blank(cert.domain, c.isWhite) && n !in s.objects && DomainFree(s, "", cert.domain)
    case Put(id, cert, n) => !Blank(cert.domain, c.isWhite) && n !in s.objects && DomainFree(s, id, cert.domain)
    case Replace(config, table, objects) => Aligned(c, State(objects, config, table, map[]))
  }

  /** The object an upload writes: the one of that id, or a new one. */
  function Target(s: State, id: string, n: int): int { if id in s.config then s.config[id] else n }

  /** The domain the uploaded certificate had before, when it is really another one. */
  function Renamed(c: Chars, s: State, id: string, domain: string): Option<string> {
    if id in s.config && s.config[id] in s.objects && !SameDomain(c, s.objects[s.config[id]].domain, domain)
    then Some(s.objects[s.config[id]].domain) else None
  }

  /** The old domain is removed and invalidated if it is another one, then the new one is stored and invalidated. */
  function AfterUpload(c: Chars, s: State, id: string, domain: string, pfx: int, n: int): State {
    var target, old' := Target(s, id, n), Renamed(c, s, id, domain);
    State(s.objects[target := Cert(domain, pfx)], s.config[id := target],
          (if old'.Some? then s.table - {old'.value} else s.table)[domain := target],
          map h | h in s.cache && !(old'.Some? && Drops(c, old'.value, h)) && !Drops(c, domain, h) :: s.cache[h])
  }

  ghost function DropAll(c: Chars, cache: map<string, int>, domains: set<string>): map<string, int> {
    map h | h in cache && (forall d <- domains :: !Drops(c, d, h)) :: cache[h]
  }

  ghost function Apply(c: Chars, s: State, a: Action): State
    requires Enabled(c, s, a)
  {
    match a
    case Handshake(name, key) =>
      var h := Normalize(c, name);
      if h in s.cache then s else s.(cache := s.cache[h := s.objects[s.table[key]].pfx])
    case Upload(id, domain, pfx, n) => AfterUpload(c, s, id, domain, pfx, n)
    case Delete(id) =>
      var domain := s.objects[s.config[id]].domain;
      Invalidate(c, s.(config := s.config - {id}, table := s.table - {domain}), domain)
    case ValidateDns(id, pfx) =>
      var o := s.config[id];
      var domain := s.objects[o].domain;
      Invalidate(c, s.(objects := s.objects[o := Cert(domain, pfx)], table := s.table[domain := o]), domain)
    case Create(id, cert, n) => s.(objects := s.objects[n := cert], config := s.config[id := n])
    case Put(id, cert, n) =>
      var updated := if id in s.config then s.(objects := s.objects[n := cert], config := s.config[id := n]) else s;
      Invalidate(c, updated, cert.domain)
    case Replace(config, table, objects) =>
      State(objects, config, table, DropAll(c, s.cache, s.table.Keys + table.Keys))
  }

  // ---------------------------------------------------------------- agreement

  /** The two states give a host the same answer with the same content. */
  ghost predicate SameFor(c: Chars, s: State, t: State, h: string) {
    forall k :: Fold(c, k) == h || Wildcard(h) == Some(Fold(c, k)) ==>
      && (k in s.table <==> k in t.table)
      && (k in s.table && s.table[k] in s.objects ==>
            t.table[k] == s.table[k] && t.table[k] in t.objects && t.objects[t.table[k]].pfx == s.objects[s.table[k]].pfx)
  }

  lemma SameAnswer(c: Chars, s: State, t: State, h: string)
    requires h in s.cache && h in t.cache && t.cache[h] == s.cache[h] && HostOk(c, s, h) && SameFor(c, s, t, h)
    ensures HostOk(c, t, h)
  {
    var k :| Answers(c, s.table, h, k) && s.table[k] in s.objects && s.objects[s.table[k]].pfx == s.cache[h];
    forall j ensures ExactKey(c, t.table, h, j) <==> ExactKey(c, s.table, h, j) {}
    assert WildKey(c, t.table, h, k) <==> WildKey(c, s.table, h, k);
    assert Answers(c, t.table, h, k);
  }

  /** A change confined to `keys`, all of them invalidated, keeps the agreement. */
  lemma ConfinedChangeKeeps(c: Chars, s: State, t: State, keys: set<string>)
    requires Sane(c) && Agree(c, s)
    requires forall k :: k !in keys && CanServe(c, k) ==> (k in s.table <==> k in t.table)
    requires forall k :: k !in keys && CanServe(c, k) && k in s.table && s.table[k] in s.objects ==>
               t.table[k] == s.table[k] && t.table[k] in t.objects && t.objects[t.table[k]].pfx == s.objects[s.table[k]].pfx
    requires forall h <- t.cache :: h in s.cache && t.cache[h] == s.cache[h] && forall k <- keys :: !Drops(c, k, h)
    ensures Agree(c, t)
  {
    forall h | h in t.cache ensures HostOk(c, t, h) {
      assert HostOk(c, s, h);
      forall k | Fold(c, k) == h || Wildcard(h) == Some(Fold(c, k)) ensures k !in keys && CanServe(c, k) {
        KeyDropsHost(c, h, k);
        RelevantKeyServes(c, h, k);
      }
      SameAnswer(c, s, t, h);
    }
  }

  /** An upload that changes nothing but the case of the domain. */
  predicate CaseOnlyRename(c: Chars, s: State, a: Action) {
    a.Upload? && a.id in s.config && s.config[a.id] in s.objects &&
    s.objects[s.config[a.id]].domain != a.domain && SameDomain(c, s.objects[s.config[a.id]].domain, a.domain)
  }

  /** Such an upload while the old key is in the table and leads to the uploaded certificate. */
  ghost predicate LeavesOldKey(c: Chars, s: State, a: Action) {
    CaseOnlyRename(c, s, a) &&
    var previous := s.objects[s.config[a.id]].domain;
    CanServe(c, previous) && previous in s.table && s.table[previous] == s.config[a.id]
  }

  lemma RenamingUploadAgrees(c: Chars, s: State, a: Action)
    requires Sane(c) && Agree(c, s) && Aligned(c, s) && a.Upload? && Enabled(c, s, a) && !CaseOnlyRename(c, s, a)
    ensures Agree(c, Apply(c, s, a))
  {
    var t, target := Apply(c, s, a), Target(s, a.id, a.n);
    var previous := if a.id in s.config then {s.objects[s.config[a.id]].domain} else {};
    forall k | k in s.table && CanServe(c, k) && k !in previous ensures s.table[k] != target {
      assert s.objects[s.table[k]].domain == k;
    }
    var keys := previous + {a.domain};
    forall k | k !in keys ensures (k in s.table <==> k in t.table) && (k in s.table ==> t.table[k] == s.table[k]) {}
    forall h | h in t.cache ensures forall k <- keys :: !Drops(c, k, h) {}
    ConfinedChangeKeeps(c, s, t, keys);
  }

  lemma RenamingUploadAligns(c: Chars, s: State, a: Action)
    requires Aligned(c, s) && a.Upload? && Enabled(c, s, a) && !CaseOnlyRename(c, s, a)
    ensures Aligned(c, Apply(c, s, a))
  {
    var t, target := Apply(c, s, a), Target(s, a.id, a.n);
    forall k | k in t.table && CanServe(c, k) ensures t.objects[t.table[k]].domain == k {
      if k in s.table && k != a.domain { assert s.objects[s.table[k]].domain == k; }
    }
  }

  /** A case-only rename is harmless while the old key does not lead to the uploaded certificate. */
  lemma HarmlessRenameKeeps(c: Chars, s: State, a: Action)
    requires Sane(c) && Agree(c, s) && Aligned(c, s) && Enabled(c, s, a) && CaseOnlyRename(c, s, a) && !LeavesOldKey(c, s, a)
    ensures Agree(c, Apply(c, s, a)) && Aligned(c, Apply(c, s, a))
  {
    var t, target := Apply(c, s, a), s.config[a.id];
    forall k | k in s.table && CanServe(c, k) ensures s.table[k] != target {
      assert s.objects[s.table[k]].domain == k;
    }
    ConfinedChangeKeeps(c, s, t, {a.domain});
  }

  lemma UploadKeeps(c: Chars, s: State, a: Action)
    requires Sane(c) && Agree(c, s) && Aligned(c, s) && a.Upload? && Enabled(c, s, a) && !LeavesOldKey(c, s, a)
    ensures Agree(c, Apply(c, s, a)) && Aligned(c, Apply(c, s, a))
  {
    if CaseOnlyRename(c, s, a) {
      HarmlessRenameKeeps(c, s, a);
    } else {
      RenamingUploadAgrees(c, s, a);
      RenamingUploadAligns(c, s, a);
    }
  }

  lemma DeleteKeeps(c: Chars, s: State, a: Action)
    requires Sane(c) && Agree(c, s) && Aligned(c, s) && a.Delete? && Enabled(c, s, a)
    ensures Agree(c, Apply(c, s, a)) && Aligned(c, Apply(c, s, a))
  {
    ConfinedChangeKeeps(c, s, Apply(c, s, a), {s.objects[s.config[a.id]].domain});
  }

  lemma ValidateKeeps(c: Chars, s: State, a: Action)
    requires Sane(c) && Agree(c, s) && Aligned(c, s) && a.ValidateDns? && Enabled(c, s, a)
    ensures Agree(c, Apply(c, s, a)) && Aligned(c, Apply(c, s, a))
  {
    var o := s.config[a.id];
    var domain := s.objects[o].domain;
    forall k | k in s.table && CanServe(c, k) && k != domain ensures s.table[k] != o { assert s.objects[s.table[k]].domain == k; }
    ConfinedChangeKeeps(c, s, Apply(c, s, a), {domain});
  }

  lemma EditKeeps(c: Chars, s: State, a: Action)
    requires Sane(c) && Agree(c, s) && Aligned(c, s) && (a.Create? || a.Put?) && Enabled(c, s, a)
    ensures Agree(c, Apply(c, s, a)) && Aligned(c, Apply(c, s, a))
  {
    ConfinedChangeKeeps(c, s, Apply(c, s, a), {});
  }

  lemma ReplaceKeeps(c: Chars, s: State, a: Action)
    requires Sane(c) && Agree(c, s) && Aligned(c, s) && a.Replace? && Enabled(c, s, a)
    ensures Agree(c, Apply(c, s, a)) && Aligned(c, Apply(c, s, a))
  {
    var t := Apply(c, s, a);
    ConfinedChangeKeeps(c, s, t, s.table.Keys + t.table.Keys);
  }

  lemma HandshakeKeeps(c: Chars, s: State, a: Action)
    requires Sane(c) && Agree(c, s) && Aligned(c, s) && a.Handshake? && Enabled(c, s, a)
    ensures Agree(c, Apply(c, s, a)) && Aligned(c, Apply(c, s, a))
  {
    var t := Apply(c, s, a);
    HostIsNormalized(c, a.name);
    forall h | h in t.cache ensures HostOk(c, t, h) {
      if h in s.cache { assert HostOk(c, s, h); }
    }
  }

  /**
   After an upload the domain leads to the new certificate and no cached one is left for it, so the next
   handshake that finds this key gets the new content; the old domain of the certificate is gone, other keys stay.
   */
  lemma UploadTakesEffect(c: Chars, s: State, a: Action)
    requires Sane(c) && a.Upload? && Enabled(c, s, a) && CanServe(c, a.domain)
    ensures var t := Apply(c, s, a); var h := Fold(c, a.domain);
      && a.domain in t.table && t.table[a.domain] in t.objects && t.objects[t.table[a.domain]] == Cert(a.domain, a.pfx)
      && a.id in t.config && t.config[a.id] == t.table[a.domain] && h !in t.cache
      && (Enabled(c, t, Handshake(a.domain, a.domain)) && h in Apply(c, t, Handshake(a.domain, a.domain)).cache
            && Apply(c, t, Handshake(a.domain, a.domain)).cache[h] == a.pfx)
    ensures var t := Apply(c, s, a);
      forall k :: k != a.domain ==>
        if a.id in s.config && s.config[a.id] in s.objects && k == s.objects[s.config[a.id]].domain && Fold(c, k) != Fold(c, a.domain)
        then k !in t.table
        else (k in t.table <==> k in s.table) && (k in s.table ==> t.table[k] == s.table[k])
  {
    KeyIsItsOwnHost(c, a.domain);
    KeyDropsHost(c, Fold(c, a.domain), a.domain);
    HostIsNormalized(c, a.domain);
  }

  /** After a deletion neither the certificate nor its domain nor a cached certificate of that host is left. */
  lemma DeleteTakesEffect(c: Chars, s: State, a: Action)
    requires Sane(c) && a.Delete? && Enabled(c, s, a)
    ensures var t := Apply(c, s, a); var domain := s.objects[s.config[a.id]].domain;
      && a.id !in t.config && domain !in t.table && (CanServe(c, domain) ==> Fold(c, domain) !in t.cache)
      && (forall id :: id != a.id ==> (id in t.config <==> id in s.config) && (id in s.config ==> t.config[id] == s.config[id]))
      && (forall k :: k != domain ==> (k in t.table <==> k in s.table) && (k in s.table ==> t.table[k] == s.table[k]))
      && (forall h :: h in t.cache <==> h in s.cache && !Drops(c, domain, h))
  {
    var domain := s.objects[s.config[a.id]].domain;
    if CanServe(c, domain) { KeyDropsHost(c, Fold(c, domain), domain); }
  }

  lemma StepKeeps(c: Chars, s: State, a: Action)
    requires Sane(c) && Agree(c, s) && Aligned(c, s) && Enabled(c, s, a) && !LeavesOldKey(c, s, a)
    ensures Agree(c, Apply(c, s, a)) && Aligned(c, Apply(c, s, a))
  {
    match a
    case Handshake(_, _) => HandshakeKeeps(c, s, a);
    case Upload(_, _, _, _) => UploadKeeps(c, s, a);
    case Delete(_) => DeleteKeeps(c, s, a);
    case ValidateDns(_, _) => ValidateKeeps(c, s, a);
    case Create(_, _, _) => EditKeeps(c, s, a);
    case Put(_, _, _) => EditKeeps(c, s, a);
    case Replace(_, _, _) => ReplaceKeeps(c, s, a);
  }

  ghost predicate StepIs(c: Chars, s: State, a: Action, t: State) {
    Enabled(c, s, a) && Apply(c, s, a) == t
  }

  ghost predicate Steps(c: Chars, states: seq<State>, actions: seq<Action>) {
    |states| == |actions| + 1 && forall i :: 0 <= i < |actions| ==> StepIs(c, states[i], actions[i], states[i + 1])
  }

  ghost predicate Run(c: Chars, states: seq<State>, actions: seq<Action>) {
    Steps(c, states, actions) && states[0].cache == map[] && Aligned(c, states[0])
  }

  /** None of the first `n` steps leaves an old key behind. */
  ghost predicate CleanSteps(c: Chars, states: seq<State>, actions: seq<Action>, n: nat)
    requires n <= |actions| < |states|
  {
    forall j :: 0 <= j < n ==> !LeavesOldKey(c, states[j], actions[j])
  }

  lemma {:induction false} AgreementGoesOn(c: Chars, states: seq<State>, actions: seq<Action>, i: nat)
    requires Sane(c) && Steps(c, states, actions) && i < |states| && CleanSteps(c, states, actions, i)
    requires Agree(c, states[0]) && Aligned(c, states[0])
    ensures Agree(c, states[i]) && Aligned(c, states[i])
  {
    if i > 0 {
      AgreementGoesOn(c, states, actions, i - 1);
      assert StepIs(c, states[i - 1], actions[i - 1], states[i]);
      StepKeeps(c, states[i - 1], actions[i - 1]);
    }
  }

  /** In every run that leaves no old key behind, every cached certificate is the one its host would get now. */
  lemma CacheAgrees(c: Chars, states: seq<State>, actions: seq<Action>, i: nat)
    requires Sane(c) && Run(c, states, actions) && i < |states| && CleanSteps(c, states, actions, i)
    ensures Agree(c, states[i]) && Aligned(c, states[i])
  {
    AgreementGoesOn(c, states, actions, i);
  }

  // ---------------------------------------------------------------- an old key left behind

  /** A key a host may ask for leads to the certificate of `id`, which meanwhile has the domain in another case. */
  ghost predicate LeftBehind(c: Chars, s: State, id: string, k: string) {
    && id in s.config && s.config[id] in s.objects
    && k in s.table && s.table[k] == s.config[id] && CanServe(c, k)
    && s.objects[s.config[id]].domain != k && SameDomain(c, s.objects[s.config[id]].domain, k)
  }

  lemma {:induction false} FreshNumber(used: set<int>) returns (n: int)
    ensures forall u <- used :: u < n
  {
    if |used| == 0 {
      n := 0;
    } else {
      var u := Pick(used);
      var m := FreshNumber(used - {u});
      n := if m > u then m else u + 1;
      assert forall v <- used :: v == u || v in used - {u};
    }
  }

  ghost function PfxFiles(s: State): set<int> { set o <- s.objects :: s.objects[o].pfx }

  /** The domain is another one than that of `id` or of any certificate, and invalidating it spares `h`. */
  ghost predicate Elsewhere(c: Chars, s: State, id: string, b: string, h: string)
    requires id in s.config && s.config[id] in s.objects
  {
    !Blank(b, c.isWhite) && DomainFree(s, id, b) && !Drops(c, b, h) && !SameDomain(c, s.objects[s.config[id]].domain, b)
  }

  /** First the certificate moves to another domain: the key stays, its host is not cached. */
  lemma MoveAway(c: Chars, s: State, id: string, k: string, b: string, p: int, n: int) returns (t: State)
    requires Sane(c) && LeftBehind(c, s, id, k) && n !in s.objects && Elsewhere(c, s, id, b, Fold(c, k))
    ensures StepIs(c, s, Upload(id, b, p, n), t) && !LeavesOldKey(c, s, Upload(id, b, p, n))
    ensures t.objects == s.objects[s.config[id] := Cert(b, p)] && t.config == s.config
    ensures k in t.table && t.table[k] == s.config[id] && b in t.table && t.table[b] == s.config[id]
    ensures Fold(c, k) !in t.cache
  {
    KeyDropsHost(c, Fold(c, k), s.objects[s.config[id]].domain);
    t := AfterUpload(c, s, id, b, p, n);
    assert s.config[id := s.config[id]] == s.config;
  }

  /** Then the host asks and caches what the key leads to. */
  lemma AskAgain(c: Chars, s: State, k: string) returns (t: State)
    requires Sane(c) && CanServe(c, k) && k in s.table && s.table[k] in s.objects && Fold(c, k) !in s.cache
    ensures StepIs(c, s, Handshake(k, k), t)
    ensures t == s.(cache := s.cache[Fold(c, k) := s.objects[s.table[k]].pfx])
  {
    KeyIsItsOwnHost(c, k);
    assert ExactKey(c, s.table, Fold(c, k), k);
    t := Apply(c, s, Handshake(k, k));
  }

  /** A new certificate for the other domain leaves the host with the one before. */
  lemma UploadAgain(c: Chars, s: State, id: string, b: string, h: string, p: int, n: int) returns (t: State)
    requires id in s.config && s.config[id] in s.objects && s.objects[s.config[id]].domain == b
    requires b in s.table && s.table[b] == s.config[id]
    requires !Blank(b, c.isWhite) && DomainFree(s, id, b) && !Drops(c, b, h) && n !in s.objects && h in s.cache
    ensures StepIs(c, s, Upload(id, b, p, n), t) && !LeavesOldKey(c, s, Upload(id, b, p, n))
    ensures t.objects == s.objects[s.config[id] := Cert(b, p)] && h in t.cache && t.cache[h] == s.cache[h]
  {
    t := AfterUpload(c, s, id, b, p, n);
  }

  lemma NoSuchFile(c: Chars, s: State, h: string)
    requires h in s.cache && forall o <- s.objects :: s.objects[o].pfx != s.cache[h]
    ensures !Agree(c, s)
  {
    forall k | Answers(c, s.table, h, k) && s.table[k] in s.objects
      ensures s.objects[s.table[k]].pfx != s.cache[h]
    {
      var o := s.table[k];
      assert o in s.objects;
    }
    assert !HostOk(c, s, h);
  }

  lemma OldFileIsGone(s: State, t: State, v: State, o: int, first: Cert, second: Cert)
    requires t.objects == s.objects[o := first] && v.objects == t.objects[o := second]
    requires first.pfx != second.pfx && first.pfx !in PfxFiles(s)
    ensures forall q <- v.objects :: v.objects[q].pfx != first.pfx
  {
    assert v.objects == s.objects[o := second];
    FileIsGone(s, v, o, second, first.pfx);
  }

  lemma ThreeSteps(c: Chars, states: seq<State>, actions: seq<Action>)
    requires |states| == 4 && |actions| == 3
    requires StepIs(c, states[0], actions[0], states[1]) && StepIs(c, states[1], actions[1], states[2])
    requires StepIs(c, states[2], actions[2], states[3])
    requires !LeavesOldKey(c, states[0], actions[0]) && !actions[1].Upload? && !LeavesOldKey(c, states[2], actions[2])
    ensures Steps(c, states, actions) && CleanSteps(c, states, actions, 3)
  {
  }

  lemma FileIsGone(s: State, t: State, o: int, cert: Cert, p: int)
    requires t.objects == s.objects[o := cert] && cert.pfx != p && p !in PfxFiles(s)
    ensures forall q <- t.objects :: t.objects[q].pfx != p
  {
    forall q | q in t.objects ensures t.objects[q].pfx != p {
      if q != o { assert s.objects[q].pfx in PfxFiles(s); }
    }
  }

  /** From an old key left behind, moving on to any unrelated domain and renewing there leaves the host stale. */
  lemma OldKeyGoesStale(c: Chars, s: State, id: string, k: string, b: string)
    returns (states: seq<State>, actions: seq<Action>)
    requires Sane(c) && OwnObjects(s) && LeftBehind(c, s, id, k) && Elsewhere(c, s, id, b, Fold(c, k))
    ensures Steps(c, states, actions) && states[0] == s && |actions| == 3 && CleanSteps(c, states, actions, 3)
    ensures !Agree(c, states[3])
  {
    var n := FreshNumber(s.objects.Keys);
    var p := FreshNumber(PfxFiles(s));
    var t := MoveAway(c, s, id, k, b, p, n);
    var u := AskAgain(c, t, k);
    var v := UploadAgain(c, u, id, b, Fold(c, k), p + 1, n);
    OldFileIsGone(s, t, v, s.config[id], Cert(b, p), Cert(b, p + 1));
    NoSuchFile(c, v, Fold(c, k));
    states, actions := [s, t, u, v], [Upload(id, b, p, n), Handshake(k, k), Upload(id, b, p + 1, n)];
    ThreeSteps(c, states, actions);
  }

  /** A domain longer than the host and all certificates' domains. */
  lemma SomewhereElse(c: Chars, s: State, id: string, h: string) returns (b: string)
    requires Sane(c) && id in s.config && s.config[id] in s.objects
    ensures Elsewhere(c, s, id, b, h)
  {
    var lengths := set o <- s.objects :: |s.objects[o].domain|;
    var n := FreshNumber(lengths + {|h|, 2});
    assert |h| in lengths + {|h|, 2} && 2 in lengths + {|h|, 2};
    b := seq(n, _ => '*');
    assert b[0] == '*' && b[1] == '*';
    forall o | o in s.objects ensures |s.objects[o].domain| < |b| {
      assert |s.objects[o].domain| in lengths + {|h|, 2};
    }
    LongStar(c, b, h);
  }

  lemma LongStar(c: Chars, b: string, h: string)
    requires Sane(c) && |b| >= 2 && (forall i :: 0 <= i < |b| ==> b[i] == '*') && |h| < |b|
    ensures !Blank(b, c.isWhite) && !Drops(c, b, h)
  {
    assert !c.isWhite(b[0]) && !c.isWhite(b[|b| - 1]);
    assert Trim(b, c.isWhite) == b;
    assert Normalize(c, b)[1] == '*';
  }

  /** Whatever happens from here, as long as no old key is left behind, the cache agrees with the table. */
  ghost predicate StaysAgreed(c: Chars, s: State) {
    forall states, actions :: Steps(c, states, actions) && states[0] == s && CleanSteps(c, states, actions, |actions|) ==>
                                Agree(c, states[|actions|])
  }

  /** An upload spoils the cache exactly when it changes the case of a domain whose old key stays behind. */
  lemma UploadIsSafeIff(c: Chars, s: State, a: Action)
    requires Sane(c) && Agree(c, s) && Aligned(c, s) && a.Upload? && Enabled(c, s, a)
    ensures Aligned(c, Apply(c, s, a)) <==> !LeavesOldKey(c, s, a)
    ensures StaysAgreed(c, Apply(c, s, a)) <==> !LeavesOldKey(c, s, a)
  {
    var t := Apply(c, s, a);
    if LeavesOldKey(c, s, a) {
      var k := s.objects[s.config[a.id]].domain;
      assert LeftBehind(c, t, a.id, k);
      var b := SomewhereElse(c, t, a.id, Fold(c, k));
      var states, actions := OldKeyGoesStale(c, t, a.id, k, b);
      assert !Agree(c, states[|actions|]);
    } else {
      UploadKeeps(c, s, a);
      forall states, actions | Steps(c, states, actions) && states[0] == t && CleanSteps(c, states, actions, |actions|)
        ensures Agree(c, states[|actions|])
      {
        AgreementGoesOn(c, states, actions, |actions|);
      }
    }
  }

  // the states of a run with a case-only rename
  const S0 := State(map[], map[], map[], map[])
  const S1 := State(map[0 := Cert("A", 1)], map["1" := 0], map["A" := 0], map[])
  const S2 := State(map[0 := Cert("a", 2)], map["1" := 0], map["A" := 0, "a" := 0], map[])
  const S3 := State(map[0 := Cert("b", 3)], map["1" := 0], map["A" := 0, "b" := 0], map[])
  const S4 := S3.(cache := map["a" := 3])
  const S5 := S4.(objects := map[0 := Cert("b", 4)])

  /** Folds only the letter A. */
  const LETTERS := Chars(x => if x == 'A' then 'a' else x, x => x == ' ')

  lemma FirstUpload()
    ensures StepIs(LETTERS, S0, Upload("1", "A", 1, 0), S1) && !CaseOnlyRename(LETTERS, S0, Upload("1", "A", 1, 0))
  {
    SingleLetters();
  }

  lemma RenameAllowed()
    ensures Enabled(LETTERS, S1, Upload("1", "a", 2, 1)) && CaseOnlyRename(LETTERS, S1, Upload("1", "a", 2, 1))
  {
    SingleLetters();
  }

  lemma RenameResult()
    ensures AfterUpload(LETTERS, S1, "1", "a", 2, 1) == S2
  {
    SingleLetters();
  }

  lemma Rename()
    ensures StepIs(LETTERS, S1, Upload("1", "a", 2, 1), S2) && CaseOnlyRename(LETTERS, S1, Upload("1", "a", 2, 1))
  {
    RenameAllowed();
    RenameResult();
  }

  lemma RealRenameAllowed()
    ensures Enabled(LETTERS, S2, Upload("1", "b", 3, 1)) && !CaseOnlyRename(LETTERS, S2, Upload("1", "b", 3, 1))
  {
    SingleLetters();
  }

  lemma RealRenameResult()
    ensures AfterUpload(LETTERS, S2, "1", "b", 3, 1) == S3
  {
    SingleLetters();
    assert S2.table - {"a"} == map["A" := 0];
  }

  lemma RealRename()
    ensures StepIs(LETTERS, S2, Upload("1", "b", 3, 1), S3) && !CaseOnlyRename(LETTERS, S2, Upload("1", "b", 3, 1))
  {
    RealRenameAllowed();
    RealRenameResult();
  }

  lemma LaterHandshake()
    ensures StepIs(LETTERS, S3, Handshake("a", "A"), S4)
  {
    SingleLetters();
    assert ExactKey(LETTERS, S3.table, "a", "A");
  }

  lemma LaterUpload()
    ensures StepIs(LETTERS, S4, Upload("1", "b", 4, 1), S5) && !CaseOnlyRename(LETTERS, S4, Upload("1", "b", 4, 1))
  {
    LaterUploadResult();
    LaterUploadAllowed();
  }

  lemma LaterUploadAllowed()
    ensures Enabled(LETTERS, S4, Upload("1", "b", 4, 1))
  {
    SingleLetters();
  }

  lemma LaterUploadResult()
    ensures AfterUpload(LETTERS, S4, "1", "b", 4, 1) == S5
  {
    var saved := S4.(objects := map[0 := Cert("b", 4)]);
    assert S4.objects[0 := Cert("b", 4)] == saved.objects && S4.config["1" := 0] == S4.config;
    assert S4.table["b" := 0] == S4.table;
    OtherHostStays(S5);
  }

  lemma OtherHostStays(s: State)
    requires s.cache == map["a" := 3]
    ensures Invalidate(LETTERS, s, "b") == s
  {
    SingleLetters();
    assert !Drops(LETTERS, "b", "a");
  }

  lemma CachedIsStale()
    ensures !Agree(LETTERS, S5)
  {
    assert !HostOk(LETTERS, S5, "a");
  }

  /** After a case-only rename the old key stays, and a later upload leaves its host with an old certificate. */
  lemma CaseOnlyRenameLeavesStale() returns (states: seq<State>, actions: seq<Action>)
    ensures Sane(LETTERS) && Run(LETTERS, states, actions) && |states| == 6 && !Agree(LETTERS, states[5])
    ensures forall j :: 0 <= j < 5 ==> (CaseOnlyRename(LETTERS, states[j], actions[j]) <==> j == 1)
  {
    states := [S0, S1, S2, S3, S4, S5];
    actions := [Upload("1", "A", 1, 0), Upload("1", "a", 2, 1), Upload("1", "b", 3, 1), Handshake("a", "A"),
                Upload("1", "b", 4, 1)];
    RunOfFive(states, actions);
  }

  lemma RunOfFive(states: seq<State>, actions: seq<Action>)
    requires states == [S0, S1, S2, S3, S4, S5]
    requires actions == [Upload("1", "A", 1, 0), Upload("1", "a", 2, 1), Upload("1", "b", 3, 1), Handshake("a", "A"),
                         Upload("1", "b", 4, 1)]
    ensures Run(LETTERS, states, actions) && !Agree(LETTERS, states[5])
    ensures forall j :: 0 <= j < 5 ==> (CaseOnlyRename(LETTERS, states[j], actions[j]) <==> j == 1)
  {
    forall i | 0 <= i < 5
      ensures StepIs(LETTERS, states[i], actions[i], states[i + 1]) && (CaseOnlyRename(LETTERS, states[i], actions[i]) <==> i == 1)
    {
      if i == 0 { FirstUpload(); } else if i == 1 { Rename(); } else if i == 2 { RealRename(); }
      else if i == 3 { LaterHandshake(); } else { LaterUpload(); }
    }
    CachedIsStale();
  }

  lemma SingleLetters()
    ensures var c := LETTERS;
      && Fold(c, "A") == Fold(c, "a") == Normalize(c, "A") == Normalize(c, "a") == "a"
      && Fold(c, "b") == Normalize(c, "b") == "b"
      && !Blank("A", c.isWhite) && !Blank("a", c.isWhite) && !Blank("b", c.isWhite)
  {
    var c := LETTERS;
    assert !c.isWhite("A"[0]) && !c.isWhite("a"[0]) && !c.isWhite("b"[0]);
  }
}
