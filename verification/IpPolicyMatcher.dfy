/**
 `IpPolicyMatcher`: rules are parsed once into a set of strings, merged IPv4 ranges and IPv6
 networks; matching looks an address up in the three. The matcher answers exactly what the rules
 say, except that an IPv4 rule with prefix 32 matches every IPv4 address.
 */
module IpPolicyMatcher {
  import opened Wrappers
  import opened Text
  import opened Bits
  import Ipv4
  import Ipv6
  import opened IpRanges
  import opened IpRuleText

  // ---------------------------------------------------------------- what the program makes of a rule

  /** A single-address block written with its prefix: the case the shift gets wrong. */
  predicate HostRule(r: Rule) {
    r.Block4? && r.prefix == 32
  }

  /** What the program makes of a rule. */
  ghost predicate BuiltAs(rt: Runtime, r: Rule, ip: string)
    requires RuleOk(r)
  {
    Names(rt, r, ip) || (HostRule(r) && Ipv4.AddressOf(ip).Some?)
  }

  // ---------------------------------------------------------------- building

  datatype Matcher = Matcher(exact: set<string>, starts: seq<nat>, ends: seq<nat>, networks: seq<Ipv6.V6Network>)

  /** The collections built so far accept an address. */
  ghost predicate Accepted(rt: Runtime, exact: set<string>, ranges: seq<Range>, networks: seq<Ipv6.V6Network>, ip: string)
    requires forall n <- networks :: n.prefix <= 128
  {
    || rt.fold(ip) in exact
    || (Ipv4.AddressOf(ip).Some? && Covers(ranges, Ipv4.AddressOf(ip).value))
    || (V6Of(rt, ip).Some? && InSomeNetwork(networks, V6Of(rt, ip).value))
  }

  ghost predicate InSomeNetwork(networks: seq<Ipv6.V6Network>, a: Ipv6.Address)
    requires forall n <- networks :: n.prefix <= 128
  {
    exists n <- networks :: Ipv6.SamePrefix(a, n.network, n.prefix)
  }

  ghost predicate WellFormed(m: Matcher) {
    && |m.starts| == |m.ends| && Searchable(Zip(m.starts, m.ends))
    && forall n <- m.networks :: n.prefix <= 128
  }

  ghost predicate Accepts(rt: Runtime, m: Matcher, ip: string)
    requires WellFormed(m)
  {
    || rt.fold(ip) in m.exact
    || (Ipv4.AddressOf(ip).Some? && Hit(Zip(m.starts, m.ends), Ipv4.AddressOf(ip).value))
    || (V6Of(rt, ip).Some? && InSomeNetwork(m.networks, V6Of(rt, ip).value))
  }

  ghost predicate BuiltFrom(rt: Runtime, raw: string, ip: string) {
    BuiltAs(rt, Parse(rt, raw), ip)
  }

  /** One of the first `n` rules accepts the address, as the program builds it. */
  ghost predicate SomeBuiltAs(rt: Runtime, rules: seq<string>, n: nat, ip: string)
    requires n <= |rules|
  {
    exists i :: 0 <= i < n && BuiltFrom(rt, rules[i], ip)
  }

  /** The range the program stores for an IPv4 rule covers what `BuiltAs` says. */
  lemma BlockRangeIsRight(base: nat, prefix: nat, v: nat)
    requires base < WORD && prefix <= 32 && v < WORD
    ensures Ipv4.HostMask(prefix) < WORD
    ensures var (lo, hi) := Ipv4.CidrRange(base, prefix);
      ValidRange(Range(lo, hi)) && (InRange(Range(lo, hi), v) <==> prefix == 32 || Ipv4.SameNetwork(v, base, prefix))
  {
    if prefix == 32 { Ipv4.Cidr32CoversEverything(base); } else { Ipv4.CidrCoversNetwork(base, prefix, v); }
  }

  lemma NetworkIsRight(net: Ipv6.V6Network, base: Ipv6.Address, a: Ipv6.Address)
    requires net.prefix <= 128 && Ipv6.SamePrefix(net.network, base, net.prefix)
    ensures Ipv6.SamePrefix(a, net.network, net.prefix) <==> Ipv6.SamePrefix(a, base, net.prefix)
  {
    assert forall i :: 0 <= i < net.prefix ==> (Ipv6.Bit(net.network, i) <==> Ipv6.Bit(base, i));
  }

  lemma InSomeNetworkAppend(networks: seq<Ipv6.V6Network>, net: Ipv6.V6Network, a: Ipv6.Address)
    requires (forall n <- networks :: n.prefix <= 128) && net.prefix <= 128
    ensures forall n <- networks + [net] :: n.prefix <= 128
    ensures InSomeNetwork(networks + [net], a) <==> InSomeNetwork(networks, a) || Ipv6.SamePrefix(a, net.network, net.prefix)
  {
    assert forall n :: n in networks + [net] <==> n in networks || n == net;
  }

  /** Where one parsed rule goes: the body of the loop in `Build`. */
  method AddRule(rt: Runtime, rule: Rule, exact: set<string>, ranges: seq<Range>, networks: seq<Ipv6.V6Network>)
    returns (exact': set<string>, ranges': seq<Range>, networks': seq<Ipv6.V6Network>)
    requires RuleOk(rule)
    requires (forall r <- ranges :: ValidRange(r)) && (forall n <- networks :: n.prefix <= 128)
    ensures (forall r <- ranges' :: ValidRange(r)) && (forall n <- networks' :: n.prefix <= 128)
    ensures forall ip: string :: Accepted(rt, exact', ranges', networks', ip) <==>
      Accepted(rt, exact, ranges, networks, ip) || BuiltAs(rt, rule, ip)
  {
    exact', ranges', networks' := exact, ranges, networks;
    match rule {
      case Skip =>
      case Exact(text) =>
        exact' := exact + {rt.fold(text)};
      case Interval(start, end) =>
        var range := if start <= end then Range(start, end) else Range(end, start);
        ranges' := ranges + [range];
        forall v: nat ensures Covers(ranges', v) <==> Covers(ranges, v) || InRange(range, v) {
          CoversAppend(ranges, range, v);
        }
      case Block4(base, prefix) =>
        BlockRangeIsRight(base, prefix, 0);
        var (lo, hi) := Ipv4.CidrRange(base, prefix);
        var range := Range(lo, hi);
        ranges' := ranges + [range];
        forall v: nat | v < WORD
          ensures Covers(ranges', v) <==> Covers(ranges, v) || prefix == 32 || Ipv4.SameNetwork(v, base, prefix)
        {
          BlockRangeIsRight(base, prefix, v);
          CoversAppend(ranges, range, v);
        }
      case Block6(base, prefix) =>
        var net := Ipv6.MakeNetwork(base, prefix);
        networks' := networks + [net];
        forall a: Ipv6.Address
          ensures InSomeNetwork(networks', a) <==> InSomeNetwork(networks, a) || Ipv6.SamePrefix(a, base, prefix)
        {
          InSomeNetworkAppend(networks, net, a);
          NetworkIsRight(net, base, a);
        }
    }
  }

  lemma NextRule(rt: Runtime, rules: seq<string>, i: nat, ip: string)
    requires i < |rules|
    ensures SomeBuiltAs(rt, rules, i + 1, ip) <==> SomeBuiltAs(rt, rules, i, ip) || BuiltAs(rt, Parse(rt, rules[i]), ip)
  {
    assert BuiltFrom(rt, rules[i], ip) == BuiltAs(rt, Parse(rt, rules[i]), ip);
  }

  /** The text of some rule names the address. */
  ghost predicate SomeNames(rt: Runtime, rules: seq<string>, ip: string) {
    exists i :: 0 <= i < |rules| && TextNames(rt, rules[i], ip)
  }

  ghost predicate SomeHostRule(rt: Runtime, rules: seq<string>) {
    exists i :: 0 <= i < |rules| && TextHostRule(rt, rules[i])
  }

  lemma BuiltFromText(rt: Runtime, raw: string, ip: string)
    ensures BuiltFrom(rt, raw, ip) <==> TextNames(rt, raw, ip) || (TextHostRule(rt, raw) && Ipv4.AddressOf(ip).Some?)
  {
    ParsedMeansText(rt, raw, ip);
    HostRuleFromText(rt, raw);
  }

  /** Exactly what is answered: the text of some rule names the address, or it is IPv4 and some text has prefix 32. */
  lemma BuiltMeaning(rt: Runtime, rules: seq<string>, ip: string)
    ensures SomeBuiltAs(rt, rules, |rules|, ip) <==>
      SomeNames(rt, rules, ip) || (SomeHostRule(rt, rules) && Ipv4.AddressOf(ip).Some?)
  {
    forall i | 0 <= i < |rules|
      ensures BuiltFrom(rt, rules[i], ip) <==>
        TextNames(rt, rules[i], ip) || (TextHostRule(rt, rules[i]) && Ipv4.AddressOf(ip).Some?)
    {
      BuiltFromText(rt, rules[i], ip);
    }
    ManyRules(rt, rules, ip);
  }

  lemma ManyRules(rt: Runtime, rules: seq<string>, ip: string)
    requires forall i :: 0 <= i < |rules| ==> (BuiltFrom(rt, rules[i], ip) <==>
      TextNames(rt, rules[i], ip) || (TextHostRule(rt, rules[i]) && Ipv4.AddressOf(ip).Some?))
    ensures SomeBuiltAs(rt, rules, |rules|, ip) <==>
      SomeNames(rt, rules, ip) || (SomeHostRule(rt, rules) && Ipv4.AddressOf(ip).Some?)
  {
  }

  method Build(rt: Runtime, rules: seq<string>) returns (m: Matcher)
    ensures WellFormed(m)
    ensures forall ip: string :: Accepts(rt, m, ip) <==>
      SomeNames(rt, rules, ip) || (SomeHostRule(rt, rules) && Ipv4.AddressOf(ip).Some?)
    ensures forall ip: string :: Accepts(rt, m, ip) <==> SomeBuiltAs(rt, rules, |rules|, ip)
  {
    var exact: set<string>, ranges: seq<Range>, networks: seq<Ipv6.V6Network> := {}, [], [];
    for i := 0 to |rules|
      invariant (forall r <- ranges :: ValidRange(r)) && (forall n <- networks :: n.prefix <= 128)
      invariant forall ip: string :: Accepted(rt, exact, ranges, networks, ip) <==> SomeBuiltAs(rt, rules, i, ip)
    {
      var rule := Parse(rt, rules[i]);
      exact, ranges, networks := AddRule(rt, rule, exact, ranges, networks);
      forall ip: string
        ensures SomeBuiltAs(rt, rules, i + 1, ip) <==> SomeBuiltAs(rt, rules, i, ip) || BuiltAs(rt, rule, ip)
      {
        NextRule(rt, rules, i, ip);
      }
    }
    var starts, ends := MergeRanges(ranges);
    m := Matcher(exact, starts, ends, networks);
    forall ip: string
      ensures SomeBuiltAs(rt, rules, |rules|, ip) <==>
        SomeNames(rt, rules, ip) || (SomeHostRule(rt, rules) && Ipv4.AddressOf(ip).Some?)
    {
      BuiltMeaning(rt, rules, ip);
    }
  }

  /** Ready-made ranges, used for region rules: any pairs of words, also backward ones. */
  method BuildFromRanges(rt: Runtime, ranges: seq<Range>) returns (m: Matcher)
    requires forall r <- ranges :: WordRange(r)
    ensures WellFormed(m)
    ensures forall ip: string :: Accepts(rt, m, ip) <==>
      Ipv4.AddressOf(ip).Some? &&
      (Covers(ranges, Ipv4.AddressOf(ip).value) || Stray(ranges, Ipv4.AddressOf(ip).value))
  {
    var starts, ends := MergeRanges(ranges);
    m := Matcher({}, starts, ends, []);
  }

  // ---------------------------------------------------------------- matching

  method Contains(rt: Runtime, m: Matcher, ip: string) returns (found: bool)
    requires WellFormed(m)
    ensures found <==> Accepts(rt, m, ip)
  {
    if m.exact != {} && rt.fold(ip) in m.exact { return true; }
    if |m.starts| > 0 {
      var ok, value := Ipv4.TryParseIpv4(ip);
      if ok {
        var hit := ContainsAddress(m.starts, m.ends, value);
        if hit { return true; }
      }
    }
    if |m.networks| > 0 && ':' in ip && rt.parseV6(ip).Some? {
      var bytes := rt.parseV6(ip).value;
      for i := 0 to |m.networks|
        invariant forall n <- m.networks[..i] :: !Ipv6.SamePrefix(bytes, n.network, n.prefix)
      {
        var inside := Ipv6.Contains(m.networks[i], bytes);
        if inside { return true; }
      }
    }
    return false;
  }

  // ---------------------------------------------------------------- what this means for the rules

  /**
   A matcher built from the rules is right about every address if and only if no rule is an IPv4 block
   with prefix 32, or the rules name every IPv4 address anyway.
   */
  lemma MatcherIsRightIff(rt: Runtime, rules: seq<string>, m: Matcher)
    requires WellFormed(m) && forall ip: string :: Accepts(rt, m, ip) <==> SomeBuiltAs(rt, rules, |rules|, ip)
    ensures (forall ip: string :: Accepts(rt, m, ip) <==> SomeNames(rt, rules, ip)) <==>
      (SomeHostRule(rt, rules) ==> forall ip: string :: Ipv4.AddressOf(ip).Some? ==> SomeNames(rt, rules, ip))
  {
    forall ip: string
      ensures Accepts(rt, m, ip) <==>
        SomeNames(rt, rules, ip) || (SomeHostRule(rt, rules) && Ipv4.AddressOf(ip).Some?)
    {
      BuiltMeaning(rt, rules, ip);
    }
  }

  const HOST_RULE := "10.0.0.1/32"
  const STRANGER := "8.8.8.8"

  /** The character table and the integer parser treat the characters and the number of that rule as usual. */
  predicate ReadsDigits(rt: Runtime) {
    (forall ch <- HOST_RULE :: !rt.isWhite(ch)) && rt.parseInt("32") == Some(32)
  }

  /** The failure in one input, from the text of the rule to the answer: 10.0.0.1/32 also matches 8.8.8.8. */
  method HostRuleMatchesStranger(rt: Runtime) returns (found: bool)
    requires ReadsDigits(rt)
    ensures found && !SomeNames(rt, [HOST_RULE], STRANGER)
  {
    var m := Build(rt, [HOST_RULE]);
    HostRuleMeaning(rt);
    found := Contains(rt, m, STRANGER);
  }

  /** A range that ends before it starts covers nothing, yet its start is accepted. */
  method BackwardRangeMatchesItsStart(rt: Runtime) returns (found: bool)
    ensures found && forall v: nat :: !Covers([Range(0x08080808, 0)], v)
  {
    var ranges := [Range(0x08080808, 0)];
    var m := BuildFromRanges(rt, ranges);
    EightsAreAnAddress();
    assert ranges[0] in ranges && BackwardAt(ranges, 0x08080808);
    found := Contains(rt, m, STRANGER);
  }

  lemma HostRuleMeaning(rt: Runtime)
    requires ReadsDigits(rt)
    ensures SomeBuiltAs(rt, [HOST_RULE], |[HOST_RULE]|, STRANGER) && !SomeNames(rt, [HOST_RULE], STRANGER)
  {
    HostRuleIsBuilt(rt);
    HostRuleNamesNoStranger(rt);
    OneRule(rt, HOST_RULE, STRANGER);
  }

  lemma OneRule(rt: Runtime, raw: string, ip: string)
    ensures SomeBuiltAs(rt, [raw], |[raw]|, ip) <==> BuiltFrom(rt, raw, ip)
    ensures SomeNames(rt, [raw], ip) <==> TextNames(rt, raw, ip)
  {
    var rules := [raw];
    assert rules[0] == raw;
  }

  lemma HostRuleIsBuilt(rt: Runtime)
    requires ReadsDigits(rt)
    ensures BuiltFrom(rt, HOST_RULE, STRANGER)
  {
    HostRuleParses(rt);
    StrangerIsNotNamed(rt);
  }

  lemma HostRuleNamesNoStranger(rt: Runtime)
    requires ReadsDigits(rt)
    ensures !TextNames(rt, HOST_RULE, STRANGER)
  {
    HostRuleParses(rt);
    StrangerIsNotNamed(rt);
    ParsedMeansText(rt, HOST_RULE, STRANGER);
  }

  lemma StrangerIsNotNamed(rt: Runtime)
    ensures BuiltAs(rt, Block4(0x0A000001, 32), STRANGER) && !Names(rt, Block4(0x0A000001, 32), STRANGER)
  {
    EightsAreAnAddress();
  }

  lemma EightsAreAnAddress()
    ensures Ipv4.AddressOf(STRANGER) == Some(0x08080808)
  {
    assert "8"[..0] == "" && Ipv4.Number("8") == 8;
    assert STRANGER == Ipv4.QuadText("8", "8", "8", "8");
    Ipv4.OctetsRead("8", "8", "8", "8", 8, 8, 8, 8);
  }

  lemma HostRuleParses(rt: Runtime)
    requires ReadsDigits(rt)
    ensures Parse(rt, HOST_RULE) == Block4(0x0A000001, 32)
  {
    HostRuleSplits();
    HostRuleTrims(rt);
    TenIsAnAddress();
  }

  lemma HostRuleSplits()
    ensures IndexOf(HOST_RULE, '-') < 0 && IndexOf(HOST_RULE, '/') == 8
    ensures HOST_RULE[..8] == "10.0.0.1" && HOST_RULE[9..] == "32"
  {
    assert '-' !in HOST_RULE;
    FirstIndex(HOST_RULE, '/', 8);
  }

  lemma HostRuleTrims(rt: Runtime)
    requires ReadsDigits(rt)
    ensures Trim(HOST_RULE, rt.isWhite) == HOST_RULE
    ensures Trim("10.0.0.1", rt.isWhite) == "10.0.0.1" && Trim("32", rt.isWhite) == "32"
  {
    assert HOST_RULE[0] == '1' && HOST_RULE[9] == '3' && HOST_RULE[10] == '2';
    assert !rt.isWhite('1') && !rt.isWhite('2') && !rt.isWhite('3');
  }

  lemma TenIsAnAddress()
    ensures Ipv4.AddressOf("10.0.0.1") == Some(0x0A000001)
  {
    assert "1"[..0] == "" && "0"[..0] == "" && "10"[..1] == "1";
    assert Ipv4.Number("1") == 1 && Ipv4.Number("0") == 0 && Ipv4.Number("10") == 10;
    assert "10.0.0.1" == Ipv4.QuadText("10", "0", "0", "1");
    Ipv4.OctetsRead("10", "0", "0", "1", 10, 0, 0, 1);
  }
}
