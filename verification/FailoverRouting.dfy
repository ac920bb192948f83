/**
 `ClusterRequestFailoverMiddleware`: the sorted route table, the match, the shuffle and the retry loop.
 */
module FailoverRouting {
  import opened Folds
  import opened Text
  import opened Wrappers

  /** Case folding, white space and the segment test of ASP.NET request paths. */
  datatype Rules = Rules(fold: char -> char, isWhite: char -> bool, startsWithSegments: (string, string) -> bool)

  datatype Domain = Domain(id: string, enabledCluster: bool, path: string, hosts: seq<string>)

  datatype Entry = Entry(domain: Domain, routePath: string, hostPriority: int)

  function Same(r: Rules, a: string, b: string): bool {
    FoldWith(a, r.fold) == FoldWith(b, r.fold)
  }

  /** One host pattern against the host of a request. */
  predicate PatternMatches(r: Rules, pattern: string, host: string) {
    !Blank(pattern, r.isWhite) &&
    (pattern == "*" || Same(r, pattern, host) ||
     (|pattern| >= 2 && pattern[0] == '*' && pattern[1] == '.' && |host| >= |pattern| - 1 &&
      Same(r, host[|host| - (|pattern| - 1)..], pattern[1..])))
  }

  /** The host, case aside, ends in a dot and the rest. */
  ghost predicate EndsIn(r: Rules, host: string, rest: string) {
    exists front, tail :: host == front + tail && Same(r, tail, ['.'] + rest)
  }

  /**
   What each kind of pattern accepts: the star every host, a star and a dot the hosts that end in the dot and
   the rest, any other name itself; case aside.
   */
  lemma PatternMeans(r: Rules, pattern: string, host: string)
    ensures pattern == "*" && !r.isWhite('*') ==> PatternMatches(r, pattern, host)
    ensures pattern != "*" && !(['*', '.'] <= pattern) && !Blank(pattern, r.isWhite) ==>
      (PatternMatches(r, pattern, host) <==> Same(r, pattern, host))
    ensures ['*', '.'] <= pattern && !r.isWhite('*') ==>
      (PatternMatches(r, pattern, host) <==> Same(r, pattern, host) || EndsIn(r, host, pattern[2..]))
    ensures Blank(pattern, r.isWhite) ==> !PatternMatches(r, pattern, host)
  {
    if pattern != "" && pattern[0] == '*' && !r.isWhite('*') { assert !r.isWhite(pattern[0]); }
    if ['*', '.'] <= pattern {
      assert pattern[1..] == ['.'] + pattern[2..];
      if EndsIn(r, host, pattern[2..]) { EndsInMatches(r, host, pattern); }
      if |host| >= |pattern| - 1 {
        var front, tail := host[..|host| - (|pattern| - 1)], host[|host| - (|pattern| - 1)..];
        assert host == front + tail;
      }
    }
  }

  lemma EndsInMatches(r: Rules, host: string, pattern: string)
    requires ['*', '.'] <= pattern && EndsIn(r, host, pattern[2..])
    ensures |host| >= |pattern| - 1 && Same(r, host[|host| - (|pattern| - 1)..], pattern[1..])
  {
    var front, tail :| host == front + tail && Same(r, tail, ['.'] + pattern[2..]);
    assert pattern[1..] == ['.'] + pattern[2..];
    assert |tail| == |FoldWith(tail, r.fold)| == |pattern| - 1;
    assert host[|front|..] == tail;
  }

  predicate HostMatches(r: Rules, d: Domain, host: string) {
    |d.hosts| == 0 || exists p <- d.hosts :: PatternMatches(r, p, host)
  }

  method MatchHost(r: Rules, d: Domain, host: string) returns (matches: bool)
    ensures matches <==> HostMatches(r, d, host)
  {
    if |d.hosts| == 0 { return true; }
    for i := 0 to |d.hosts|
      invariant forall j :: 0 <= j < i ==> !PatternMatches(r, d.hosts[j], host)
    {
      if PatternMatches(r, d.hosts[i], host) {
        assert d.hosts[i] in d.hosts;
        return true;
      }
    }
    return false;
  }

  function NormalizeRoutePath(r: Rules, path: string): string {
    if Blank(path, r.isWhite) || path == "/" then "/" else "/" + Trim(Trim(path, r.isWhite), c => c == '/')
  }

  predicate IsSlash(c: char) { c == '/' }

  /** One slash before the path without the white space and then without the slashes around it. */
  lemma RoutePathMeans(r: Rules, path: string)
    requires !r.isWhite('/')
    ensures exists t, u :: Core(path, t, r.isWhite) && Core(t, u, IsSlash) && NormalizeRoutePath(r, path) == ['/'] + u
  {
    var t := Trim(path, r.isWhite);
    var u := Trim(t, c => c == '/');
    TrimIsCore(path, r.isWhite);
    TrimIsCore(t, c => c == '/');
    CoreOfSlashes(t, u);
    assert "/" + u == ['/'] + u && "/" == ['/'] + "";
    if Blank(path, r.isWhite) {
      BlankHasNoCore(path, t, r.isWhite);
      BlankHasNoCore(t, u, IsSlash);
    } else if path == "/" {
      assert Core("/", "", IsSlash) by { assert "/" == "" + "" + "/" && Blank("/", IsSlash); }
      CoreIsUnique(t, u, "", IsSlash);
    }
  }

  lemma CoreOfSlashes(t: string, u: string)
    requires Core(t, u, c => c == '/')
    ensures Core(t, u, IsSlash)
  {
    var before, after :| t == before + u + after && Blank(before, c => c == '/') && Blank(after, c => c == '/');
    assert Blank(before, IsSlash) && Blank(after, IsSlash);
  }

  predicate PathMatches(r: Rules, e: Entry, path: string) {
    e.routePath == "/" || r.startsWithSegments(path, e.routePath)
  }

  predicate Serves(r: Rules, e: Entry, host: string, path: string) {
    HostMatches(r, e.domain, host) && PathMatches(r, e, path)
  }

  // ---------------------------------------------------------------- building the table

  predicate HasWildcard(d: Domain) { exists p <- d.hosts :: '*' in p }
  predicate HasExact(d: Domain) { exists p <- d.hosts :: '*' !in p }

  function Priority(d: Domain): int {
    if HasExact(d) then 2 else if HasWildcard(d) then 1 else 0
  }

  /** Some exact host, else some wildcard, else no host at all. */
  lemma PriorityMeans(d: Domain)
    ensures Priority(d) == 2 <==> exists p <- d.hosts :: '*' !in p
    ensures Priority(d) == 1 <==> d.hosts != [] && forall p <- d.hosts :: '*' in p
    ensures Priority(d) == 0 <==> d.hosts == []
  {
    if d.hosts != [] { assert d.hosts[0] in d.hosts; }
  }

  function EntryOf(r: Rules, d: Domain): Entry {
    Entry(d, NormalizeRoutePath(r, d.path), Priority(d))
  }

  /** The order of the table: exact hosts before wildcards, then longer paths first. */
  predicate Outranks(a: Entry, b: Entry) {
    a.hostPriority > b.hostPriority || (a.hostPriority == b.hostPriority && |a.routePath| > |b.routePath|)
  }

  ghost predicate Ranked(entries: seq<Entry>) {
    forall i, j :: 0 <= i < j < |entries| ==> !Outranks(entries[j], entries[i])
  }

  lemma OutranksIsAnOrder(a: Entry, b: Entry, c: Entry)
    ensures !Outranks(a, a)
    ensures !Outranks(b, a) && !Outranks(c, b) ==> !Outranks(c, a)
  {
  }

  lemma InsertKeepsElements<T>(s: seq<T>, k: nat, e: T)
    requires k <= |s|
    ensures multiset(s[..k] + [e] + s[k..]) == multiset(s) + multiset{e}
  {
    assert s == s[..k] + s[k..];
  }

  lemma InsertKeepsRank(s: seq<Entry>, k: nat, e: Entry)
    requires Ranked(s) && k <= |s|
    requires (k > 0 ==> !Outranks(e, s[k - 1])) && (k < |s| ==> !Outranks(s[k], e))
    ensures Ranked(s[..k] + [e] + s[k..])
  {
    var t := s[..k] + [e] + s[k..];
    forall i, j | 0 <= i < j < |t| ensures !Outranks(t[j], t[i]) {
      if i < k && j == k && k > 0 { OutranksIsAnOrder(s[i], s[k - 1], e); }
      if i == k {
        assert t[j] == s[j - 1];
        OutranksIsAnOrder(e, s[k], s[j - 1]);
      }
    }
  }

  method InsertRanked(sorted: seq<Entry>, e: Entry) returns (next: seq<Entry>)
    requires Ranked(sorted)
    ensures Ranked(next) && multiset(next) == multiset(sorted) + multiset{e}
  {
    var k := |sorted|;
    while k > 0 && Outranks(e, sorted[k - 1])
      invariant 0 <= k <= |sorted| && (k < |sorted| ==> Outranks(e, sorted[k]))
    {
      k := k - 1;
    }
    InsertKeepsElements(sorted, k, e);
    InsertKeepsRank(sorted, k, e);
    next := sorted[..k] + [e] + sorted[k..];
  }

  /** `List.Sort` with the comparison of the table; it may leave entries of equal rank in any order. */
  method Sort(entries: seq<Entry>) returns (sorted: seq<Entry>)
    ensures Ranked(sorted) && multiset(sorted) == multiset(entries)
  {
    sorted := [];
    for i := 0 to |entries|
      invariant Ranked(sorted) && multiset(sorted) == multiset(entries[..i])
    {
      sorted := InsertRanked(sorted, entries[i]);
      TakeNext(entries, i);
    }
    TakeAll(entries);
  }

  /** What the loop of `Build` collects, before sorting. */
  function Collected(r: Rules, domains: seq<Domain>): seq<Entry> {
    if domains == [] then []
    else
      Collected(r, domains[..|domains| - 1]) +
      if domains[|domains| - 1].enabledCluster then [EntryOf(r, domains[|domains| - 1])] else []
  }

  lemma CollectedNext(r: Rules, domains: seq<Domain>, i: nat)
    requires i < |domains|
    ensures Collected(r, domains[..i + 1]) ==
            Collected(r, domains[..i]) + if domains[i].enabledCluster then [EntryOf(r, domains[i])] else []
  {
    assert domains[..i + 1][..i] == domains[..i];
  }

  lemma {:induction false} NothingCollectedIff(r: Rules, domains: seq<Domain>)
    ensures Collected(r, domains) == [] <==> !exists d <- domains :: d.enabledCluster
  {
    if domains != [] {
      var front, last := domains[..|domains| - 1], domains[|domains| - 1];
      assert domains == front + [last];
      NothingCollectedIff(r, front);
    }
  }

  method Collect(r: Rules, domains: seq<Domain>) returns (entries: seq<Entry>)
    ensures entries == Collected(r, domains)
  {
    entries := [];
    for i := 0 to |domains|
      invariant entries == Collected(r, domains[..i])
    {
      CollectedNext(r, domains, i);
      if domains[i].enabledCluster {
        entries := entries + [EntryOf(r, domains[i])];
      }
    }
    TakeAll(domains);
  }

  /** The table: `serverEnabled` is whether the server exists and has fail-over switched on. */
  method Build(r: Rules, serverEnabled: bool, domains: seq<Domain>) returns (enabled: bool, entries: seq<Entry>)
    ensures enabled <==> serverEnabled && exists d <- domains :: d.enabledCluster
    ensures if enabled then IsTable(r, domains, entries) else entries == []
  {
    if !serverEnabled { return false, []; }
    entries := Collect(r, domains);
    NothingCollectedIff(r, domains);
    if entries == [] { return false, []; }
    entries := Sort(entries);
    enabled := true;
  }

  /** `List.Sort` is not stable, so any ranked permutation may be the table. */
  ghost predicate IsTable(r: Rules, domains: seq<Domain>, entries: seq<Entry>) {
    Ranked(entries) && multiset(entries) == multiset(Collected(r, domains))
  }

  lemma {:induction false} CollectedMembers(r: Rules, domains: seq<Domain>, e: Entry)
    ensures e in Collected(r, domains) <==> exists d <- domains :: d.enabledCluster && e == EntryOf(r, d)
  {
    if domains != [] {
      var front, last := domains[..|domains| - 1], domains[|domains| - 1];
      assert domains == front + [last];
      CollectedMembers(r, front, e);
    }
  }

  lemma TableMembers(r: Rules, domains: seq<Domain>, entries: seq<Entry>, e: Entry)
    requires IsTable(r, domains, entries)
    ensures e in entries <==> exists d <- domains :: d.enabledCluster && e == EntryOf(r, d)
  {
    CollectedMembers(r, domains, e);
    assert e in entries <==> e in multiset(entries);
    assert e in Collected(r, domains) <==> e in multiset(Collected(r, domains));
  }

  /** Entry `k` is the first that serves the request. */
  ghost predicate Wins(r: Rules, entries: seq<Entry>, host: string, path: string, k: nat) {
    k < |entries| && Serves(r, entries[k], host, path) && forall j :: 0 <= j < k ==> !Serves(r, entries[j], host, path)
  }

  /** The first entry that serves the request. */
  method Match(r: Rules, entries: seq<Entry>, host: string, path: string) returns (found: Option<Entry>)
    requires Ranked(entries)
    ensures found.None? ==> forall e <- entries :: !Serves(r, e, host, path)
    ensures found.Some? ==> exists k: nat :: Wins(r, entries, host, path, k) && entries[k] == found.value
    ensures found.Some? ==> found.value in entries && Serves(r, found.value, host, path)
    ensures found.Some? ==> forall e <- entries :: Serves(r, e, host, path) ==> !Outranks(e, found.value)
    ensures found.Some? ==> forall e <- entries :: Serves(r, e, host, path) ==>
      found.value.hostPriority > e.hostPriority ||
      (found.value.hostPriority == e.hostPriority && |found.value.routePath| >= |e.routePath|)
  {
    for i := 0 to |entries|
      invariant forall j :: 0 <= j < i ==> !Serves(r, entries[j], host, path)
    {
      var hostMatches := MatchHost(r, entries[i].domain, host);
      if hostMatches && PathMatches(r, entries[i], path) {
        assert entries[i] in entries && Wins(r, entries, host, path, i);
        OutranksIsAnOrder(entries[i], entries[i], entries[i]);
        return Some(entries[i]);
      }
    }
    return None;
  }

  // ---------------------------------------------------------------- exact hosts first

  /** The entry names the host itself, without a wildcard. */
  ghost predicate NamesExactly(r: Rules, d: Domain, host: string) {
    exists p <- d.hosts :: '*' !in p && PatternMatches(r, p, host)
  }

  predicate Mixed(d: Domain) { HasExact(d) && HasWildcard(d) }

  /** Without entries that mix exact and wildcard hosts, an exact name always wins over a wildcard. */
  lemma ExactNameWins(r: Rules, domains: seq<Domain>, entries: seq<Entry>, host: string, path: string, won: Entry, e: Entry)
    requires IsTable(r, domains, entries) && won in entries && e in entries
    requires Serves(r, won, host, path) && Serves(r, e, host, path) && !Outranks(e, won)
    requires NamesExactly(r, e.domain, host) && !Mixed(won.domain)
    ensures NamesExactly(r, won.domain, host)
  {
    TableMembers(r, domains, entries, e);
    TableMembers(r, domains, entries, won);
    assert HasExact(e.domain);
    assert won.hostPriority == 2 && HasExact(won.domain) && !HasWildcard(won.domain);
    var p :| p in won.domain.hosts && PatternMatches(r, p, host);
    assert '*' !in p;
  }

  /** A domain whose entry serves the request. */
  predicate Candidate(r: Rules, d: Domain, host: string, path: string) {
    d.enabledCluster && Serves(r, EntryOf(r, d), host, path)
  }

  /** Whatever order the sort leaves, the winner names the host itself. */
  ghost predicate ExactFirst(r: Rules, domains: seq<Domain>, host: string, path: string) {
    forall entries: seq<Entry>, k: nat :: IsTable(r, domains, entries) && Wins(r, entries, host, path, k) ==>
                           NamesExactly(r, entries[k].domain, host)
  }

  /** The domain ranks as exact, serves the request through a wildcard, and no exact name has a longer path. */
  ghost predicate Overrides(r: Rules, domains: seq<Domain>, host: string, path: string, f: Domain) {
    && f in domains && Candidate(r, f, host, path) && HasExact(f) && !NamesExactly(r, f, host)
    && forall e <- domains :: Candidate(r, e, host, path) && NamesExactly(r, e, host) ==>
         |EntryOf(r, e).routePath| <= |EntryOf(r, f).routePath|
  }

  /** Only an entry that mixes exact and wildcard hosts can override a name. */
  lemma OverridingIsMixed(r: Rules, domains: seq<Domain>, host: string, path: string, f: Domain)
    requires Overrides(r, domains, host, path, f)
    ensures Mixed(f)
  {
    var p :| p in f.hosts && PatternMatches(r, p, host);
  }

  lemma FirstServing(r: Rules, entries: seq<Entry>, host: string, path: string, e: Entry) returns (k: nat)
    requires e in entries && Serves(r, e, host, path)
    ensures Wins(r, entries, host, path, k)
  {
    k := 0;
    while !Serves(r, entries[k], host, path)
      invariant k < |entries| && forall j :: 0 <= j < k ==> !Serves(r, entries[j], host, path)
      decreases |entries| - k
    {
      var i :| 0 <= i < |entries| && entries[i] == e;
      assert k < i;
      k := k + 1;
    }
  }

  /** A winner is outranked by no candidate. */
  lemma WinnerIsUnbeaten(r: Rules, domains: seq<Domain>, entries: seq<Entry>, host: string, path: string, k: nat, d: Domain)
    requires IsTable(r, domains, entries) && Wins(r, entries, host, path, k)
    requires d in domains && Candidate(r, d, host, path)
    ensures !Outranks(EntryOf(r, d), entries[k])
  {
    TableMembers(r, domains, entries, EntryOf(r, d));
    var i :| 0 <= i < |entries| && entries[i] == EntryOf(r, d);
    OutranksIsAnOrder(entries[k], entries[k], entries[k]);
    assert i >= k;
  }

  lemma RemoveKeepsElements<T>(s: seq<T>, i: nat)
    requires i < |s|
    ensures multiset(s) == multiset(s[..i] + s[i + 1..]) + multiset{s[i]}
  {
    assert s == s[..i] + [s[i]] + s[i + 1..];
  }

  lemma RemoveKeepsRank(s: seq<Entry>, i: nat)
    requires Ranked(s) && i < |s|
    ensures Ranked(s[..i] + s[i + 1..])
  {
    var t := s[..i] + s[i + 1..];
    forall a, b | 0 <= a < b < |t| ensures !Outranks(t[b], t[a]) {
      var a', b' := if a < i then a else a + 1, if b < i then b else b + 1;
      assert t[a] == s[a'] && t[b] == s[b'];
    }
  }

  /** How many entries at the front outrank `e`. */
  lemma FrontOf(s: seq<Entry>, e: Entry) returns (k: nat)
    ensures k <= |s| && (forall j :: 0 <= j < k ==> Outranks(s[j], e)) && (k < |s| ==> !Outranks(s[k], e))
  {
    k := 0;
    while k < |s| && Outranks(s[k], e)
      invariant k <= |s| && forall j :: 0 <= j < k ==> Outranks(s[j], e)
    {
      k := k + 1;
    }
  }

  /** An entry moved in front of those it is not outranked by. */
  lemma MoveToFront(s: seq<Entry>, i: nat) returns (t: seq<Entry>, k: nat)
    requires Ranked(s) && i < |s|
    ensures Ranked(t) && multiset(t) == multiset(s) && k < |t| && t[k] == s[i]
    ensures forall j :: 0 <= j < k ==> t[j] in s && Outranks(t[j], s[i])
  {
    var e, rest := s[i], s[..i] + s[i + 1..];
    RemoveKeepsElements(s, i);
    RemoveKeepsRank(s, i);
    k := FrontOf(rest, e);
    assert k > 0 ==> Outranks(rest[k - 1], e);
    InsertKeepsElements(rest, k, e);
    InsertKeepsRank(rest, k, e);
    t := rest[..k] + [e] + rest[k..];
    forall j | 0 <= j < k ensures t[j] in s && Outranks(t[j], e) { assert t[j] == rest[j] && rest[j] in s; }
  }

  /** An entry that no serving one outranks wins in some order the sort may leave. */
  lemma UnbeatenCanWin(r: Rules, domains: seq<Domain>, entries: seq<Entry>, host: string, path: string, i: nat)
    returns (other: seq<Entry>, k: nat)
    requires IsTable(r, domains, entries) && i < |entries| && Serves(r, entries[i], host, path)
    requires forall e <- entries :: Serves(r, e, host, path) ==> !Outranks(e, entries[i])
    ensures IsTable(r, domains, other) && Wins(r, other, host, path, k) && other[k] == entries[i]
  {
    other, k := MoveToFront(entries, i);
    forall j | 0 <= j < k ensures !Serves(r, other[j], host, path) {
      assert other[j] in entries && Outranks(other[j], entries[i]);
    }
  }

  /** An exact name always wins exactly when no entry that serves through a wildcard overrides it. */
  lemma ExactNameWinsIff(r: Rules, domains: seq<Domain>, built: seq<Entry>, host: string, path: string, named: Domain)
    requires IsTable(r, domains, built)
    requires named in domains && Candidate(r, named, host, path) && NamesExactly(r, named, host)
    ensures ExactFirst(r, domains, host, path) <==> !exists f :: Overrides(r, domains, host, path, f)
  {
    if f :| Overrides(r, domains, host, path, f) {
      OverrideBeatsName(r, domains, built, host, path, f);
    } else {
      forall entries: seq<Entry>, k: nat | IsTable(r, domains, entries) && Wins(r, entries, host, path, k)
        ensures NamesExactly(r, entries[k].domain, host)
      {
        UnbeatenNames(r, domains, entries, host, path, k, named);
      }
    }
  }

  lemma UnbeatenNames(r: Rules, domains: seq<Domain>, entries: seq<Entry>, host: string, path: string, k: nat, named: Domain)
    requires IsTable(r, domains, entries) && Wins(r, entries, host, path, k)
    requires named in domains && Candidate(r, named, host, path) && NamesExactly(r, named, host)
    requires !Overrides(r, domains, host, path, entries[k].domain)
    ensures NamesExactly(r, entries[k].domain, host)
  {
    TableMembers(r, domains, entries, entries[k]);
    WinnerIsUnbeaten(r, domains, entries, host, path, k, named);
    assert HasExact(named);
    if !NamesExactly(r, entries[k].domain, host) {
      var e :| e in domains && Candidate(r, e, host, path) && NamesExactly(r, e, host) &&
               |EntryOf(r, e).routePath| > |entries[k].routePath|;
      assert HasExact(e);
      WinnerIsUnbeaten(r, domains, entries, host, path, k, e);
    }
  }

  lemma OverrideBeatsName(r: Rules, domains: seq<Domain>, built: seq<Entry>, host: string, path: string, f: Domain)
    requires IsTable(r, domains, built) && Overrides(r, domains, host, path, f)
    ensures !ExactFirst(r, domains, host, path)
  {
    var entry := EntryOf(r, f);
    TableMembers(r, domains, built, entry);
    var k := FirstServing(r, built, host, path, entry);
    if NamesExactly(r, built[k].domain, host) {
      TableMembers(r, domains, built, built[k]);
      WinnerIsUnbeaten(r, domains, built, host, path, k, f);
      assert HasExact(built[k].domain);
      forall e <- built | Serves(r, e, host, path) ensures !Outranks(e, entry) {
        TableMembers(r, domains, built, e);
        WinnerIsUnbeaten(r, domains, built, host, path, k, e.domain);
      }
      var i :| 0 <= i < |built| && built[i] == entry;
      var other, w := UnbeatenCanWin(r, domains, built, host, path, i);
      assert other[w].domain == f;
    }
  }

  lemma MixedHosts(r: Rules)
    requires r.fold == (c => c) && r.isWhite == (c => c == ' ')
    ensures PatternMatches(r, "x.b", "x.b") && PatternMatches(r, "*.b", "x.b") && !PatternMatches(r, "c", "x.b")
  {
    var host := "x.b";
    assert !Blank("x.b", r.isWhite) by { assert !r.isWhite("x.b"[0]); }
    assert !Blank("*.b", r.isWhite) by { assert !r.isWhite("*.b"[0]); }
    assert host[1..] == ".b" == "*.b"[1..];
    assert |FoldWith("c", r.fold)| != |FoldWith(host, r.fold)|;
  }

  lemma ShortPath(r: Rules)
    requires r.isWhite == (c => c == ' ')
    ensures NormalizeRoutePath(r, "/a") == "/a" && NormalizeRoutePath(r, "/") == "/"
  {
    assert !r.isWhite("/a"[0]) && !r.isWhite("/a"[1]);
    assert Trim("/a", r.isWhite) == "/a";
    var slash := (c: char) => c == '/';
    assert TrimStart("/a", slash) == TrimStart("a", slash) == "a" by { assert "/a"[1..] == "a"; }
    assert TrimEnd("a", slash) == "a";
    assert "/" + "a" == "/a";
  }

  const EXACT := Domain("1", true, "/", ["x.b"])
  const MIXED := Domain("2", true, "/a", ["c", "*.b"])

  lemma ExactMatches(r: Rules)
    requires r.fold == (c => c) && r.isWhite == (c => c == ' ')
    ensures NamesExactly(r, EXACT, "x.b") && HostMatches(r, EXACT, "x.b") && Priority(EXACT) == 2
  {
    MixedHosts(r);
    assert EXACT.hosts[0] in EXACT.hosts;
  }

  lemma MixedMatches(r: Rules)
    requires r.fold == (c => c) && r.isWhite == (c => c == ' ')
    ensures !NamesExactly(r, MIXED, "x.b") && HostMatches(r, MIXED, "x.b") && Priority(MIXED) == 2
  {
    MixedHosts(r);
    assert MIXED.hosts[0] in MIXED.hosts && MIXED.hosts[1] in MIXED.hosts;
  }

  /** A mixed entry ranks as exact even where only its wildcard matches, and may beat an exact name. */
  lemma MixedEntryBeatsExactName(r: Rules) returns (exact: Domain, mixed: Domain, host: string, path: string)
    requires r.fold == (c => c) && r.isWhite == (c => c == ' ')
    requires forall p, s :: r.startsWithSegments(p, s) <==> (|s| <= |p| && p[..|s|] == s && (|p| == |s| || p[|s|] == '/'))
    ensures NamesExactly(r, exact, host) && !NamesExactly(r, mixed, host)
    ensures Serves(r, EntryOf(r, exact), host, path) && Serves(r, EntryOf(r, mixed), host, path)
    ensures Outranks(EntryOf(r, mixed), EntryOf(r, exact))
  {
    exact, mixed, host, path := EXACT, MIXED, "x.b", "/a";
    ExactMatches(r);
    MixedMatches(r);
    ShortPath(r);
    assert r.startsWithSegments("/a", "/a");
  }

  // ---------------------------------------------------------------- the retry loop

  type Destination = int

  /** `Random.Shared.Next` is a parameter: `random(i)` is the choice among the first `i + 1` places. */
  method Shuffle(a: array<Destination>, random: nat -> nat)
    requires forall i :: random(i) <= i
    modifies a
    ensures multiset(a[..]) == multiset(old(a[..]))
  {
    var i := a.Length - 1;
    while i > 0
      invariant -1 <= i < a.Length
      invariant multiset(a[..]) == multiset(old(a[..]))
    {
      var j := random(i);
      a[i], a[j] := a[j], a[i];
      i := i - 1;
    }
  }

  /** What one forwarding attempt ends in. */
  datatype Outcome = Success | Transport(started: bool) | Fatal

  /** The loop goes on only after a transport error before the response started. */
  predicate Retriable(o: Outcome) { o.Transport? && !o.started }

  function Clamp(n: int): int { if n < 1 then 1 else if n > 3 then 3 else n }

  function Min(a: int, b: int): int { if a < b then a else b }

  /**
   Tries the candidates in order. `send(k)` is the outcome of attempt `k`, `late(k)` whether the time
   budget is used up before it.
   */
  method Forward(candidates: seq<Destination>, configuredAttempts: int, send: nat -> Outcome, late: nat -> bool)
    returns (tried: seq<Destination>, answered: bool)
    ensures tried <= candidates && |tried| <= Min(|candidates|, Clamp(configuredAttempts))
    ensures forall k :: 0 <= k < |tried| - 1 ==> Retriable(send(k))
    ensures answered <==> tried != [] && !Retriable(send(|tried| - 1))
    ensures !answered ==> |tried| == Min(|candidates|, Clamp(configuredAttempts)) || (tried != [] && late(|tried|))
    ensures forall k :: 0 < k < |tried| ==> !late(k)
    ensures |tried| <= 3 && (candidates != [] ==> tried != [])
    ensures |tried| > 1 ==> |tried| <= configuredAttempts
    ensures forall k :: 0 <= k < |tried| - 1 ==> send(k) == Transport(false)
    ensures answered <==> tried != [] && send(|tried| - 1) != Transport(false)
    ensures !answered ==>
      |tried| == |candidates| || |tried| == 3 || |tried| >= configuredAttempts || late(|tried|)
  {
    var maxAttempts := Min(|candidates|, Clamp(configuredAttempts));
    tried := [];
    for i := 0 to |candidates|
      invariant tried == candidates[..i] && i <= maxAttempts
      invariant forall k :: 0 <= k < i ==> Retriable(send(k))
      invariant forall k :: 0 < k < i ==> !late(k)
    {
      if i >= maxAttempts || (i > 0 && late(i)) { return tried, false; }
      tried := tried + [candidates[i]];
      if !Retriable(send(i)) { return tried, true; }
    }
    return tried, false;
  }

  /** Over a shuffled list of distinct candidates each is tried at most once. */
  lemma TriedAtMostOnce(before: seq<Destination>, candidates: seq<Destination>, tried: seq<Destination>)
    requires multiset(candidates) == multiset(before) && (forall d :: multiset(before)[d] <= 1) && tried <= candidates
    ensures forall i, j :: 0 <= i < j < |tried| ==> tried[i] != tried[j]
  {
    forall i, j | 0 <= i < j < |tried| ensures tried[i] != tried[j] {
      var d := tried[i];
      assert candidates == candidates[..i] + [candidates[i]] + candidates[i + 1..j] + [candidates[j]] + candidates[j + 1..];
      assert multiset(candidates)[d] >= multiset([candidates[i]])[d] + multiset([candidates[j]])[d];
    }
  }
}
