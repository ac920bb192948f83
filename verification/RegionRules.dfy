/**
 `RegionIpRangeProvider`: region rules ("country" or "country|province") are compiled to the IPv4
 ranges of the database segments they name, with one lookup per data pointer.
 */
module RegionRules {
  import opened Wrappers
  import opened Text
  import Ipv4
  import opened IpRanges
  import IpPolicyMatcher
  import IpRuleText

  /** A country and a province; the empty province stands for the whole country. */
  type Region = (string, string)

  /** White space, and the country names of `GeoIpService.NormalizeCountryName`. */
  datatype Names = Names(isWhite: char -> bool, normalize: string -> string, unknown: string)

  // ---------------------------------------------------------------- parsing rules

  function ParseRule(names: Names, raw: string): Option<Region> {
    ParseTrimmed(names, Trim(raw, names.isWhite))
  }

  function ParseTrimmed(names: Names, rule: string): Option<Region> {
    if rule == "" then None else RegionOf(names, CountryOf(names, rule), ProvinceOf(names, rule))
  }

  function CountryOf(names: Names, rule: string): string {
    var sep := IndexOf(rule, '|');
    if sep < 0 then rule else Trim(rule[..sep], names.isWhite)
  }

  function ProvinceOf(names: Names, rule: string): string {
    var sep := IndexOf(rule, '|');
    if sep < 0 then "" else Trim(rule[sep + 1..], names.isWhite)
  }

  /** An unknown country gives no region. */
  function RegionOf(names: Names, country: string, province: string): Option<Region> {
    var normal := names.normalize(country);
    if normal == "" || normal == names.unknown then None else Some((normal, province))
  }

  /** The parts around the first bar, or all of it as the country; white space around them does not count. */
  ghost predicate Parts(names: Names, rule: string, country: string, province: string) {
    || ('|' !in rule && country == rule && province == "")
    || exists x, y :: rule == x + ['|'] + y && '|' !in x &&
                      Core(x, country, names.isWhite) && Core(y, province, names.isWhite)
  }

  /** Rule text `raw` names region `r`: a country that is known, and a province or the empty one. */
  ghost predicate RuleNames(names: Names, raw: string, r: Region) {
    exists rule, country ::
      && Core(raw, rule, names.isWhite) && rule != "" && Parts(names, rule, country, r.1)
      && r.0 == names.normalize(country) && r.0 != "" && r.0 != names.unknown
  }

  lemma PartsAreCut(names: Names, rule: string, country: string, province: string)
    requires Parts(names, rule, country, province)
    ensures country == CountryOf(names, rule) && province == ProvinceOf(names, rule)
  {
    if '|' in rule {
      var x, y :| rule == x + ['|'] + y && '|' !in x && Core(x, country, names.isWhite) && Core(y, province, names.isWhite);
      CutGivesIndex(x, '|', y);
      CoreIsTrim(x, country, names.isWhite);
      CoreIsTrim(y, province, names.isWhite);
    }
  }

  lemma CutHasParts(names: Names, rule: string)
    ensures Parts(names, rule, CountryOf(names, rule), ProvinceOf(names, rule))
  {
    var sep := IndexOf(rule, '|');
    if sep >= 0 {
      IndexGivesCut(rule, '|');
      TrimIsCore(rule[..sep], names.isWhite);
      TrimIsCore(rule[sep + 1..], names.isWhite);
    }
  }

  lemma TrimmedNames(names: Names, rule: string, r: Region)
    ensures ParseTrimmed(names, rule) == Some(r) <==>
      rule != "" && r.0 != "" && r.0 != names.unknown &&
      exists country :: Parts(names, rule, country, r.1) && r.0 == names.normalize(country)
  {
    CutHasParts(names, rule);
    if country :| Parts(names, rule, country, r.1) && r.0 == names.normalize(country) {
      PartsAreCut(names, rule, country, r.1);
    }
  }

  /** The parser finds exactly the region that the text names. */
  lemma ParsedRegion(names: Names, raw: string, r: Region)
    ensures ParseRule(names, raw) == Some(r) <==> RuleNames(names, raw, r)
  {
    var rule := Trim(raw, names.isWhite);
    TrimmedNames(names, rule, r);
    forall t ensures Core(raw, t, names.isWhite) <==> t == rule { CoreIsTrim(raw, t, names.isWhite); }
  }

  /** The regions the first `n` rules name, in no order. */
  ghost function NamedRegions(names: Names, rules: seq<string>, n: nat): set<Region>
    requires n <= |rules|
  {
    if n == 0 then {}
    else
      var rule := ParseRule(names, rules[n - 1]);
      NamedRegions(names, rules, n - 1) + if rule.Some? then {rule.value} else {}
  }

  predicate RuleGives(names: Names, raw: string, r: Region) { ParseRule(names, raw) == Some(r) }

  lemma NamedNext(names: Names, rules: seq<string>, n: nat, r: Region)
    requires 0 < n <= |rules|
    ensures r in NamedRegions(names, rules, n) <==> r in NamedRegions(names, rules, n - 1) || RuleGives(names, rules[n - 1], r)
  {
  }

  ghost predicate SomeGives(names: Names, rules: seq<string>, n: nat, r: Region)
    requires n <= |rules|
  {
    exists i :: 0 <= i < n && RuleGives(names, rules[i], r)
  }

  lemma {:induction false} NamedRegionsGiven(names: Names, rules: seq<string>, n: nat, r: Region)
    requires n <= |rules|
    ensures r in NamedRegions(names, rules, n) <==> SomeGives(names, rules, n, r)
  {
    if n > 0 {
      NamedRegionsGiven(names, rules, n - 1, r);
      NamedNext(names, rules, n, r);
      GivesNext(names, rules, n, r);
    }
  }

  lemma GivesNext(names: Names, rules: seq<string>, n: nat, r: Region)
    requires 0 < n <= |rules|
    ensures SomeGives(names, rules, n, r) <==> SomeGives(names, rules, n - 1, r) || RuleGives(names, rules[n - 1], r)
  {
    if SomeGives(names, rules, n - 1, r) {
      var i :| 0 <= i < n - 1 && RuleGives(names, rules[i], r);
      assert RuleGives(names, rules[i], r);
    }
  }

  lemma NamedRegionsMembers(names: Names, rules: seq<string>, n: nat, r: Region)
    requires n <= |rules|
    ensures r in NamedRegions(names, rules, n) <==> exists i :: 0 <= i < n && RuleNames(names, rules[i], r)
  {
    NamedRegionsGiven(names, rules, n, r);
    forall i | 0 <= i < n ensures RuleGives(names, rules[i], r) <==> RuleNames(names, rules[i], r) {
      ParsedRegion(names, rules[i], r);
    }
  }

  /** Country to provinces; None bans the whole country. */
  type Table = map<string, Option<set<string>>>

  /** The table agrees with a set of regions: a whole-country rule absorbs the provinces. */
  ghost predicate TableOf(table: Table, regions: set<Region>) {
    && (forall c :: c in table <==> exists p :: (c, p) in regions)
    && (forall c :: c in table ==> (table[c].None? <==> (c, "") in regions))
    && (forall c :: c in table && table[c].Some? ==> forall p :: p in table[c].value <==> (c, p) in regions)
  }

  /** One rule added to the table. */
  function AddRegion(table: Table, r: Region): Table {
    var (country, province) := r;
    if province == "" then table[country := None]
    else if country in table then
      if table[country].None? then table else table[country := Some(table[country].value + {province})]
    else table[country := Some({province})]
  }

  lemma AddRegionKeeps(table: Table, regions: set<Region>, r: Region)
    requires TableOf(table, regions)
    ensures TableOf(AddRegion(table, r), regions + {r})
  {
    var next, all := AddRegion(table, r), regions + {r};
    forall c ensures c in next <==> exists p :: (c, p) in all {
      if c in next {
        if c == r.0 {
          assert (c, r.1) in all;
        } else {
          var p :| (c, p) in regions;
          assert (c, p) in all;
        }
      }
    }
  }

  /** The table depends only on which regions are named, never on the order or repetition of rules. */
  method ParseRules(names: Names, rules: seq<string>) returns (table: Table)
    ensures TableOf(table, NamedRegions(names, rules, |rules|))
  {
    table := map[];
    for i := 0 to |rules|
      invariant TableOf(table, NamedRegions(names, rules, i))
    {
      var rule := ParseRule(names, rules[i]);
      if rule.Some? {
        AddRegionKeeps(table, NamedRegions(names, rules, i), rule.value);
        table := AddRegion(table, rule.value);
      } else {
        assert NamedRegions(names, rules, i + 1) == NamedRegions(names, rules, i);
      }
    }
  }

  /** Two tables for the same regions are equal, so any order of the rules gives the same table. */
  lemma TableIsUnique(a: Table, b: Table, regions: set<Region>)
    requires TableOf(a, regions) && TableOf(b, regions)
    ensures a == b
  {
    forall c ensures c in a <==> c in b {}
    forall c | c in a ensures a[c] == b[c] {
      if a[c].Some? { assert a[c].value == b[c].value; }
    }
  }

  // ---------------------------------------------------------------- matching regions

  /** Whether the table bans a region read from the database. */
  predicate MatchesRegion(table: Table, region: Region) {
    var (country, province) := region;
    country != "" && country in table && (table[country].None? || province in table[country].value)
  }

  /** A region is banned when its whole country is named or it is named itself. */
  ghost predicate Banned(regions: set<Region>, region: Region) {
    region.0 != "" && ((region.0, "") in regions || region in regions)
  }

  lemma TableMeansBanned(table: Table, regions: set<Region>, region: Region)
    requires TableOf(table, regions)
    ensures MatchesRegion(table, region) <==> Banned(regions, region)
  {
    var (country, province) := region;
    assert region == (country, province);
  }

  // ---------------------------------------------------------------- scanning segments

  datatype Segment = Segment(start: nat, end: nat, dataPtr: int, dataLen: int)

  /** The region text behind a pointer and a length; None when it does not lie in the file. */
  datatype Database = Database(segments: seq<Segment>, region: (int, int) -> Option<Region>)

  predicate SegmentMatches(db: Database, table: Table, s: Segment) {
    var r := db.region(s.dataPtr, s.dataLen);
    r.Some? && MatchesRegion(table, r.value)
  }

  /** The first segment with a given data pointer: the one that is actually decoded. */
  function FirstWith(segments: seq<Segment>, ptr: int): (k: nat)
    ensures k <= |segments|
    ensures k < |segments| ==> segments[k].dataPtr == ptr
    ensures forall j :: 0 <= j < k ==> segments[j].dataPtr != ptr
  {
    if segments == [] || segments[0].dataPtr == ptr then 0 else 1 + FirstWith(segments[1..], ptr)
  }

  /** The verdict kept for a data pointer: that of the first segment with it. */
  predicate MemoVerdict(db: Database, table: Table, ptr: int) {
    var k := FirstWith(db.segments, ptr);
    k < |db.segments| && SegmentMatches(db, table, db.segments[k])
  }

  /** The ranges found among the first `n` segments. */
  function Selected(db: Database, table: Table, n: nat): seq<Range>
    requires n <= |db.segments|
  {
    if n == 0 then []
    else
      var s := db.segments[n - 1];
      Selected(db, table, n - 1) + if MemoVerdict(db, table, s.dataPtr) then [Range(s.start, s.end)] else []
  }

  /** After `n` segments the memo knows exactly their pointers, each with its verdict. */
  ghost predicate MemoOk(db: Database, table: Table, memo: map<int, bool>, n: nat) {
    && (forall p :: p in memo <==> FirstWith(db.segments, p) < n)
    && (forall p <- memo :: memo[p] == MemoVerdict(db, table, p))
  }

  function Remember(db: Database, table: Table, memo: map<int, bool>, s: Segment): (r: map<int, bool>)
    ensures s.dataPtr in r
  {
    if s.dataPtr in memo then memo else memo[s.dataPtr := SegmentMatches(db, table, s)]
  }

  method GetRanges(db: Database, table: Table) returns (ranges: seq<Range>)
    ensures ranges == Selected(db, table, |db.segments|)
  {
    ranges := [];
    var memo: map<int, bool> := map[];
    for i := 0 to |db.segments|
      invariant MemoOk(db, table, memo, i)
      invariant ranges == Selected(db, table, i)
    {
      var s := db.segments[i];
      MemoNext(db, table, memo, i);
      SelectedNext(db, table, i);
      memo := Remember(db, table, memo, s);
      if memo[s.dataPtr] {
        ranges := ranges + [Range(s.start, s.end)];
      }
    }
  }

  lemma SelectedNext(db: Database, table: Table, i: nat)
    requires i < |db.segments|
    ensures var s := db.segments[i]; var before := Selected(db, table, i);
      Selected(db, table, i + 1) == if MemoVerdict(db, table, s.dataPtr) then before + [Range(s.start, s.end)] else before
  {
  }

  lemma MemoNext(db: Database, table: Table, memo: map<int, bool>, i: nat)
    requires i < |db.segments| && MemoOk(db, table, memo, i)
    ensures MemoOk(db, table, Remember(db, table, memo, db.segments[i]), i + 1)
  {
    var s := db.segments[i];
    var next := Remember(db, table, memo, s);
    forall p ensures p in next <==> FirstWith(db.segments, p) < i + 1 { FirstSeen(db.segments, i, p); }
    forall p | p in next ensures next[p] == MemoVerdict(db, table, p) {
      FirstSeen(db.segments, i, p);
    }
  }

  /** A pointer is known after segment `i` when it was known before or is the pointer of that segment. */
  lemma FirstSeen(segments: seq<Segment>, i: nat, p: int)
    requires i < |segments|
    ensures FirstWith(segments, p) < i + 1 <==> FirstWith(segments, p) < i || p == segments[i].dataPtr
  {
    if FirstWith(segments, p) == i { assert segments[i].dataPtr == p; }
  }

  /** Equal data pointers carry equal lengths, and no segment is inverted. */
  ghost predicate WellFormed(db: Database) {
    && (forall i, j :: 0 <= i < |db.segments| && 0 <= j < |db.segments| && db.segments[i].dataPtr == db.segments[j].dataPtr
          ==> db.segments[i].dataLen == db.segments[j].dataLen)
    && (forall s <- db.segments :: ValidRange(Range(s.start, s.end)))
  }

  /** Some segment covers the address and its region is banned. */
  ghost predicate InBannedSegment(db: Database, regions: set<Region>, n: nat, v: nat)
    requires n <= |db.segments|
  {
    exists i :: 0 <= i < n && CoversBanned(db, regions, db.segments[i], v)
  }

  ghost predicate CoversBanned(db: Database, regions: set<Region>, s: Segment, v: nat) {
    && s.start <= v <= s.end
    && var r := db.region(s.dataPtr, s.dataLen); r.Some? && Banned(regions, r.value)
  }

  /** On a well-formed database the memo changes nothing: a segment gets the verdict of its own region. */
  lemma MemoChangesNothing(db: Database, table: Table, regions: set<Region>, i: nat)
    requires i < |db.segments| && WellFormed(db) && TableOf(table, regions)
    ensures var s := db.segments[i]; var r := db.region(s.dataPtr, s.dataLen);
      MemoVerdict(db, table, s.dataPtr) <==> r.Some? && Banned(regions, r.value)
  {
    var s := db.segments[i];
    var k := FirstWith(db.segments, s.dataPtr);
    assert k <= i;
    assert db.segments[k].dataLen == s.dataLen;
    var r := db.region(s.dataPtr, s.dataLen);
    if r.Some? { TableMeansBanned(table, regions, r.value); }
  }

  lemma {:induction false} SelectedCovers(db: Database, table: Table, regions: set<Region>, n: nat, v: nat)
    requires n <= |db.segments| && WellFormed(db) && TableOf(table, regions)
    ensures SelectedCover(db, table, n, v) <==> InBannedSegment(db, regions, n, v)
  {
    if n == 0 {
      assert Selected(db, table, 0) == [];
    } else {
      SelectedCovers(db, table, regions, n - 1, v);
      SelectedCoversNext(db, table, regions, n, v);
      BannedNext(db, regions, n, v);
    }
  }

  /** Some range found among the first `n` segments covers the address. */
  predicate SelectedCover(db: Database, table: Table, n: nat, v: nat)
    requires n <= |db.segments|
  {
    Covers(Selected(db, table, n), v)
  }

  lemma {:induction false} SelectedAreValid(db: Database, table: Table, n: nat)
    requires n <= |db.segments| && WellFormed(db)
    ensures forall r <- Selected(db, table, n) :: ValidRange(r)
  {
    if n > 0 {
      SelectedAreValid(db, table, n - 1);
      assert db.segments[n - 1] in db.segments;
    }
  }

  lemma SelectedCoversNext(db: Database, table: Table, regions: set<Region>, n: nat, v: nat)
    requires 0 < n <= |db.segments| && WellFormed(db) && TableOf(table, regions)
    ensures SelectedCover(db, table, n, v) <==>
      SelectedCover(db, table, n - 1, v) || CoversBanned(db, regions, db.segments[n - 1], v)
  {
    var s := db.segments[n - 1];
    var before := Selected(db, table, n - 1);
    MemoChangesNothing(db, table, regions, n - 1);
    CoversAppend(before, Range(s.start, s.end), v);
    assert before + [] == before;
  }

  lemma BannedNext(db: Database, regions: set<Region>, n: nat, v: nat)
    requires 0 < n <= |db.segments|
    ensures InBannedSegment(db, regions, n, v) <==>
      InBannedSegment(db, regions, n - 1, v) || CoversBanned(db, regions, db.segments[n - 1], v)
  {
  }

  /** From rule texts to answers: an address is matched exactly when a segment around it has a banned region. */
  method BuildRegionMatcher(rt: IpRuleText.Runtime, names: Names, rules: seq<string>, db: Database)
    returns (m: IpPolicyMatcher.Matcher)
    requires WellFormed(db)
    ensures IpPolicyMatcher.WellFormed(m)
    ensures forall ip: string :: IpPolicyMatcher.Accepts(rt, m, ip) <==>
      Ipv4.AddressOf(ip).Some? &&
      InBannedSegment(db, NamedRegions(names, rules, |rules|), |db.segments|, Ipv4.AddressOf(ip).value)
  {
    var table := ParseRules(names, rules);
    var ranges := GetRanges(db, table);
    forall v: nat
      ensures Covers(ranges, v) <==> InBannedSegment(db, NamedRegions(names, rules, |rules|), |db.segments|, v)
    {
      SelectedCovers(db, table, NamedRegions(names, rules, |rules|), |db.segments|, v);
    }
    SelectedAreValid(db, table, |db.segments|);
    m := IpPolicyMatcher.BuildFromRanges(rt, ranges);
  }
}
