/**
 The texts of IP rules: the parser of `IpPolicyMatcher.Build`, and what a rule text means without it, by
 its form: an interval, an IPv4 or IPv6 block, or any other text, which stands for itself.
 */
module IpRuleText {
  import opened Wrappers
  import opened Text
  import opened Bits
  import Ipv4
  import Ipv6

  /** What the runtime library decides: case folding, white space, `int.TryParse`, `IPAddress.TryParse` for IPv6. */
  datatype Runtime = Runtime(
    fold: string -> string,
    isWhite: char -> bool,
    parseInt: string -> Option<int>,
    parseV6: string -> Option<Ipv6.Address>)

  // ---------------------------------------------------------------- what a rule says

  datatype Rule =
    | Skip
    | Exact(text: string)
    | Interval(a: nat, b: nat)
    | Block4(base: nat, prefix: nat)
    | Block6(base6: Ipv6.Address, prefix6: nat)

  predicate RuleOk(r: Rule) {
    match r
    case Interval(a, b) => a < WORD && b < WORD
    case Block4(base, prefix) => base < WORD && prefix <= 32
    case Block6(_, prefix) => prefix <= 128
    case _ => true
  }

  function Parse(rt: Runtime, raw: string): (r: Rule)
    ensures RuleOk(r)
  {
    ParseTrimmed(rt, Trim(raw, rt.isWhite))
  }

  function ParseTrimmed(rt: Runtime, rule: string): (r: Rule)
    ensures RuleOk(r)
  {
    var dash, slash := IndexOf(rule, '-'), IndexOf(rule, '/');
    if rule == "" then Skip
    else if dash > 0 then
      ParseInterval(rule, Ipv4.AddressOf(Trim(rule[..dash], rt.isWhite)), Ipv4.AddressOf(Trim(rule[dash + 1..], rt.isWhite)))
    else if slash > 0 then
      var base := Trim(rule[..slash], rt.isWhite);
      ParseBlock(rule, Ipv4.AddressOf(base), rt.parseV6(base), rt.parseInt(Trim(rule[slash + 1..], rt.isWhite)))
    else Exact(rule)
  }

  function ParseInterval(rule: string, a: Option<nat>, b: Option<nat>): Rule {
    if a.Some? && b.Some? then Interval(a.value, b.value) else Exact(rule)
  }

  /** The base is tried as IPv4 first. */
  function ParseBlock(rule: string, v4: Option<nat>, v6: Option<Ipv6.Address>, prefix: Option<int>): Rule {
    if prefix.None? then Exact(rule)
    else if v4.Some? && 0 <= prefix.value <= 32 then Block4(v4.value, prefix.value)
    else if v6.Some? && 0 <= prefix.value <= 128 then Block6(v6.value, prefix.value)
    else Exact(rule)
  }

  /** An address given to `Contains`, read as IPv6. */
  function V6Of(rt: Runtime, ip: string): Option<Ipv6.Address> {
    if ':' in ip then rt.parseV6(ip) else None
  }

  /** The meaning of a rule, as the documentation of the class gives it. */
  ghost predicate Names(rt: Runtime, r: Rule, ip: string)
    requires RuleOk(r)
  {
    var v4, v6 := Ipv4.AddressOf(ip), V6Of(rt, ip);
    match r
    case Skip => false
    case Exact(text) => rt.fold(ip) == rt.fold(text)
    case Interval(a, b) => v4.Some? && (a <= v4.value <= b || b <= v4.value <= a)
    case Block4(base, prefix) => v4.Some? && Ipv4.SameNetwork(v4.value, base, prefix)
    case Block6(base, prefix) => v6.Some? && Ipv6.SamePrefix(v6.value, base, prefix)
  }

  // ---------------------------------------------------------------- the meaning of a rule text

  /** The text without the white space around it is an address. */
  ghost predicate ReadsV4(rt: Runtime, raw: string, a: nat) {
    exists t :: Core(raw, t, rt.isWhite) && Ipv4.AddressOf(t) == Some(a)
  }

  ghost predicate ReadsV6(rt: Runtime, raw: string, a: Ipv6.Address) {
    exists t :: Core(raw, t, rt.isWhite) && rt.parseV6(t) == Some(a)
  }

  ghost predicate ReadsInt(rt: Runtime, raw: string, n: int) {
    exists t :: Core(raw, t, rt.isWhite) && rt.parseInt(t) == Some(n)
  }

  /** Cut at the first dash, which is not the first character. */
  predicate Dashed(rule: string, x: string, y: string) {
    rule == x + ['-'] + y && x != "" && '-' !in x
  }

  /** No dash, or one in front, and cut at the first slash, which is not the first character. */
  predicate Slashed(rule: string, x: string, d: string) {
    rule == x + ['/'] + d && x != "" && '/' !in x && (rule[0] == '-' || '-' !in rule)
  }

  ghost predicate IntervalText(rt: Runtime, rule: string, a: nat, b: nat) {
    exists x, y :: Dashed(rule, x, y) && ReadsV4(rt, x, a) && ReadsV4(rt, y, b)
  }

  ghost predicate Block4Text(rt: Runtime, rule: string, base: nat, prefix: nat) {
    prefix <= 32 && exists x, d :: Slashed(rule, x, d) && ReadsV4(rt, x, base) && ReadsInt(rt, d, prefix)
  }

  ghost predicate Block6Text(rt: Runtime, rule: string, base: Ipv6.Address, prefix: nat) {
    && prefix <= 128
    && (forall v4: nat :: !Block4Text(rt, rule, v4, prefix))
    && exists x, d :: Slashed(rule, x, d) && ReadsV6(rt, x, base) && ReadsInt(rt, d, prefix)
  }

  /** A text of none of these forms stands for itself. */
  ghost predicate PlainText(rt: Runtime, rule: string) {
    && (forall a: nat, b: nat :: !IntervalText(rt, rule, a, b))
    && (forall a: nat, n: nat :: !Block4Text(rt, rule, a, n))
    && (forall a: Ipv6.Address, n: nat :: !Block6Text(rt, rule, a, n))
  }

  /** The trimmed rule text names the address. */
  ghost predicate RuleMeans(rt: Runtime, rule: string, ip: string) {
    var v4, v6 := Ipv4.AddressOf(ip), V6Of(rt, ip);
    || (v4.Some? && exists a: nat, b: nat :: IntervalText(rt, rule, a, b) && (a <= v4.value <= b || b <= v4.value <= a))
    || (v4.Some? && exists a: nat, n: nat :: Block4Text(rt, rule, a, n) && Ipv4.SameNetwork(v4.value, a, n))
    || (v6.Some? && exists a: Ipv6.Address, n: nat :: Block6Text(rt, rule, a, n) && Ipv6.SamePrefix(v6.value, a, n))
    || (PlainText(rt, rule) && rt.fold(ip) == rt.fold(rule))
  }

  /** The rule text names the address; a blank text names nothing. */
  ghost predicate TextNames(rt: Runtime, raw: string, ip: string) {
    exists rule :: Core(raw, rule, rt.isWhite) && rule != "" && RuleMeans(rt, rule, ip)
  }

  // ---------------------------------------------------------------- the parser finds that meaning

  lemma ReadsV4Trimmed(rt: Runtime, raw: string, a: nat)
    ensures ReadsV4(rt, raw, a) <==> Ipv4.AddressOf(Trim(raw, rt.isWhite)) == Some(a)
  {
    forall t ensures Core(raw, t, rt.isWhite) <==> t == Trim(raw, rt.isWhite) { CoreIsTrim(raw, t, rt.isWhite); }
  }

  lemma ReadsV6Trimmed(rt: Runtime, raw: string, a: Ipv6.Address)
    ensures ReadsV6(rt, raw, a) <==> rt.parseV6(Trim(raw, rt.isWhite)) == Some(a)
  {
    forall t ensures Core(raw, t, rt.isWhite) <==> t == Trim(raw, rt.isWhite) { CoreIsTrim(raw, t, rt.isWhite); }
  }

  lemma ReadsIntTrimmed(rt: Runtime, raw: string, n: int)
    ensures ReadsInt(rt, raw, n) <==> rt.parseInt(Trim(raw, rt.isWhite)) == Some(n)
  {
    forall t ensures Core(raw, t, rt.isWhite) <==> t == Trim(raw, rt.isWhite) { CoreIsTrim(raw, t, rt.isWhite); }
  }

  lemma FirstDash(rule: string)
    requires rule != ""
    ensures IndexOf(rule, '-') <= 0 <==> rule[0] == '-' || '-' !in rule
  {
  }

  // ---------------------------------------------------------------- case by case

  lemma IntervalParts(rt: Runtime, rule: string, a: nat, b: nat)
    requires IntervalText(rt, rule, a, b)
    ensures var i := IndexOf(rule, '-');
      i > 0 && Ipv4.AddressOf(Trim(rule[..i], rt.isWhite)) == Some(a) && Ipv4.AddressOf(Trim(rule[i + 1..], rt.isWhite)) == Some(b)
  {
    var x, y :| Dashed(rule, x, y) && ReadsV4(rt, x, a) && ReadsV4(rt, y, b);
    CutGivesIndex(x, '-', y);
    ReadsV4Trimmed(rt, x, a);
    ReadsV4Trimmed(rt, y, b);
  }

  lemma IntervalFrom(rt: Runtime, rule: string, a: nat, b: nat)
    requires IndexOf(rule, '-') > 0
    requires Ipv4.AddressOf(Trim(rule[..IndexOf(rule, '-')], rt.isWhite)) == Some(a)
    requires Ipv4.AddressOf(Trim(rule[IndexOf(rule, '-') + 1..], rt.isWhite)) == Some(b)
    ensures IntervalText(rt, rule, a, b)
  {
    var i := IndexOf(rule, '-');
    IndexGivesCut(rule, '-');
    ReadsV4Trimmed(rt, rule[..i], a);
    ReadsV4Trimmed(rt, rule[i + 1..], b);
    assert Dashed(rule, rule[..i], rule[i + 1..]);
  }

  /** The parser gives an interval exactly for two addresses around the first dash. */
  predicate CutsToInterval(rt: Runtime, rule: string, a: nat, b: nat) {
    var i := IndexOf(rule, '-');
    i > 0 && Ipv4.AddressOf(Trim(rule[..i], rt.isWhite)) == Some(a) && Ipv4.AddressOf(Trim(rule[i + 1..], rt.isWhite)) == Some(b)
  }

  lemma IntervalIsCut(rt: Runtime, rule: string, a: nat, b: nat)
    ensures ParseTrimmed(rt, rule) == Interval(a, b) <==> CutsToInterval(rt, rule, a, b)
  {
  }

  lemma IntervalIsParsed(rt: Runtime, rule: string, a: nat, b: nat)
    ensures IntervalText(rt, rule, a, b) <==> ParseTrimmed(rt, rule) == Interval(a, b)
  {
    IntervalIsCut(rt, rule, a, b);
    if IntervalText(rt, rule, a, b) { IntervalParts(rt, rule, a, b); }
    if CutsToInterval(rt, rule, a, b) { IntervalFrom(rt, rule, a, b); }
  }

  /** The two parts around the first slash of a text without a dash behind its first character. */
  predicate CutsToBlock4(rt: Runtime, rule: string, base: nat, prefix: nat) {
    var i := IndexOf(rule, '/');
    && IndexOf(rule, '-') <= 0 && i > 0 && Ipv4.AddressOf(Trim(rule[..i], rt.isWhite)) == Some(base)
    && rt.parseInt(Trim(rule[i + 1..], rt.isWhite)) == Some(prefix)
  }

  lemma Block4Parts(rt: Runtime, rule: string, x: string, d: string, base: nat, prefix: nat)
    requires Slashed(rule, x, d) && ReadsV4(rt, x, base) && ReadsInt(rt, d, prefix)
    ensures CutsToBlock4(rt, rule, base, prefix)
  {
    CutGivesIndex(x, '/', d);
    FirstDash(rule);
    ReadsV4Trimmed(rt, x, base);
    ReadsIntTrimmed(rt, d, prefix);
  }

  lemma Block4From(rt: Runtime, rule: string, base: nat, prefix: nat) returns (x: string, d: string)
    requires CutsToBlock4(rt, rule, base, prefix)
    ensures Slashed(rule, x, d) && ReadsV4(rt, x, base) && ReadsInt(rt, d, prefix)
  {
    var i := IndexOf(rule, '/');
    x, d := rule[..i], rule[i + 1..];
    IndexGivesCut(rule, '/');
    FirstDash(rule);
    ReadsV4Trimmed(rt, x, base);
    ReadsIntTrimmed(rt, d, prefix);
  }

  /** The two parts around the first slash of a text without a dash behind its first character. */
  predicate CutsToBlock6(rt: Runtime, rule: string, base: Ipv6.Address, prefix: nat) {
    var i := IndexOf(rule, '/');
    && IndexOf(rule, '-') <= 0 && i > 0 && rt.parseV6(Trim(rule[..i], rt.isWhite)) == Some(base)
    && rt.parseInt(Trim(rule[i + 1..], rt.isWhite)) == Some(prefix)
  }

  lemma Block6Parts(rt: Runtime, rule: string, x: string, d: string, base: Ipv6.Address, prefix: nat)
    requires Slashed(rule, x, d) && ReadsV6(rt, x, base) && ReadsInt(rt, d, prefix)
    ensures CutsToBlock6(rt, rule, base, prefix)
  {
    CutGivesIndex(x, '/', d);
    FirstDash(rule);
    ReadsV6Trimmed(rt, x, base);
    ReadsIntTrimmed(rt, d, prefix);
  }

  lemma Block6From(rt: Runtime, rule: string, base: Ipv6.Address, prefix: nat) returns (x: string, d: string)
    requires CutsToBlock6(rt, rule, base, prefix)
    ensures Slashed(rule, x, d) && ReadsV6(rt, x, base) && ReadsInt(rt, d, prefix)
  {
    var i := IndexOf(rule, '/');
    x, d := rule[..i], rule[i + 1..];
    IndexGivesCut(rule, '/');
    FirstDash(rule);
    ReadsV6Trimmed(rt, x, base);
    ReadsIntTrimmed(rt, d, prefix);
  }

  lemma Block4IsCut(rt: Runtime, rule: string, base: nat, prefix: nat)
    ensures ParseTrimmed(rt, rule) == Block4(base, prefix) <==> prefix <= 32 && CutsToBlock4(rt, rule, base, prefix)
  {
    var i := IndexOf(rule, '/');
    if IndexOf(rule, '-') <= 0 && i > 0 {
      SlashIsBlock(rt, rule);
      var x := Trim(rule[..i], rt.isWhite);
      BlockIsV4(rule, Ipv4.AddressOf(x), rt.parseV6(x), rt.parseInt(Trim(rule[i + 1..], rt.isWhite)), base, prefix);
    }
  }

  lemma Block6IsCut(rt: Runtime, rule: string, base: Ipv6.Address, prefix: nat)
    ensures ParseTrimmed(rt, rule) == Block6(base, prefix) <==>
      prefix <= 128 && CutsToBlock6(rt, rule, base, prefix) &&
      !(prefix <= 32 && Ipv4.AddressOf(Trim(rule[..IndexOf(rule, '/')], rt.isWhite)).Some?)
  {
    var i := IndexOf(rule, '/');
    if IndexOf(rule, '-') <= 0 && i > 0 {
      SlashIsBlock(rt, rule);
      var x := Trim(rule[..i], rt.isWhite);
      BlockIsV6(rule, Ipv4.AddressOf(x), rt.parseV6(x), rt.parseInt(Trim(rule[i + 1..], rt.isWhite)), base, prefix);
    }
  }

  lemma SlashIsBlock(rt: Runtime, rule: string)
    requires IndexOf(rule, '-') <= 0 && IndexOf(rule, '/') > 0
    ensures var i := IndexOf(rule, '/'); var x := Trim(rule[..i], rt.isWhite);
      ParseTrimmed(rt, rule) ==
      ParseBlock(rule, Ipv4.AddressOf(x), rt.parseV6(x), rt.parseInt(Trim(rule[i + 1..], rt.isWhite)))
  {
  }

  lemma BlockIsV6(rule: string, v4: Option<nat>, v6: Option<Ipv6.Address>, n: Option<int>, base: Ipv6.Address, prefix: nat)
    ensures ParseBlock(rule, v4, v6, n) == Block6(base, prefix) <==>
      prefix <= 128 && v6 == Some(base) && n == Some(prefix) && !(prefix <= 32 && v4.Some?)
  {
  }

  lemma BlockIsV4(rule: string, v4: Option<nat>, v6: Option<Ipv6.Address>, n: Option<int>, base: nat, prefix: nat)
    ensures ParseBlock(rule, v4, v6, n) == Block4(base, prefix) <==> prefix <= 32 && v4 == Some(base) && n == Some(prefix)
  {
  }

  lemma Block4IsParsed(rt: Runtime, rule: string, base: nat, prefix: nat)
    ensures Block4Text(rt, rule, base, prefix) <==> prefix <= 32 && CutsToBlock4(rt, rule, base, prefix)
  {
    if Block4Text(rt, rule, base, prefix) {
      var x, d :| Slashed(rule, x, d) && ReadsV4(rt, x, base) && ReadsInt(rt, d, prefix);
      Block4Parts(rt, rule, x, d, base, prefix);
    }
    if prefix <= 32 && CutsToBlock4(rt, rule, base, prefix) {
      var x, d := Block4From(rt, rule, base, prefix);
    }
  }

  lemma SomeSlash6(rt: Runtime, rule: string, base: Ipv6.Address, prefix: nat)
    ensures (exists x, d :: Slashed(rule, x, d) && ReadsV6(rt, x, base) && ReadsInt(rt, d, prefix)) <==>
      CutsToBlock6(rt, rule, base, prefix)
  {
    if x, d :| Slashed(rule, x, d) && ReadsV6(rt, x, base) && ReadsInt(rt, d, prefix) {
      Block6Parts(rt, rule, x, d, base, prefix);
    }
    if CutsToBlock6(rt, rule, base, prefix) {
      var x, d := Block6From(rt, rule, base, prefix);
    }
  }

  lemma NoBlock4(rt: Runtime, rule: string, base: Ipv6.Address, prefix: nat)
    requires CutsToBlock6(rt, rule, base, prefix)
    ensures (forall v4: nat :: !Block4Text(rt, rule, v4, prefix)) <==>
      !(prefix <= 32 && Ipv4.AddressOf(Trim(rule[..IndexOf(rule, '/')], rt.isWhite)).Some?)
  {
    forall v4: nat ensures Block4Text(rt, rule, v4, prefix) <==> prefix <= 32 && CutsToBlock4(rt, rule, v4, prefix) {
      Block4IsParsed(rt, rule, v4, prefix);
    }
    var a := Ipv4.AddressOf(Trim(rule[..IndexOf(rule, '/')], rt.isWhite));
    if prefix <= 32 && a.Some? { assert CutsToBlock4(rt, rule, a.value, prefix); }
  }

  lemma Block6IsParsed(rt: Runtime, rule: string, base: Ipv6.Address, prefix: nat)
    ensures Block6Text(rt, rule, base, prefix) <==>
      prefix <= 128 && CutsToBlock6(rt, rule, base, prefix) &&
      !(prefix <= 32 && Ipv4.AddressOf(Trim(rule[..IndexOf(rule, '/')], rt.isWhite)).Some?)
  {
    SomeSlash6(rt, rule, base, prefix);
    if CutsToBlock6(rt, rule, base, prefix) { NoBlock4(rt, rule, base, prefix); }
  }

  /** The four forms of the text are the four forms of the parsed rule. */
  ghost predicate SameForm(rt: Runtime, rule: string, r: Rule) {
    && (forall a: nat, b: nat :: IntervalText(rt, rule, a, b) <==> r == Interval(a, b))
    && (forall a: nat, n: nat :: Block4Text(rt, rule, a, n) <==> r == Block4(a, n))
    && (forall a: Ipv6.Address, n: nat :: Block6Text(rt, rule, a, n) <==> r == Block6(a, n))
  }

  lemma ParsedForm(rt: Runtime, rule: string)
    ensures SameForm(rt, rule, ParseTrimmed(rt, rule))
  {
    var r := ParseTrimmed(rt, rule);
    forall a: nat, b: nat ensures IntervalText(rt, rule, a, b) <==> r == Interval(a, b) { IntervalIsParsed(rt, rule, a, b); }
    forall a: nat, n: nat ensures Block4Text(rt, rule, a, n) <==> r == Block4(a, n) {
      Block4IsParsed(rt, rule, a, n);
      Block4IsCut(rt, rule, a, n);
    }
    forall a: Ipv6.Address, n: nat ensures Block6Text(rt, rule, a, n) <==> r == Block6(a, n) {
      Block6IsParsed(rt, rule, a, n);
      Block6IsCut(rt, rule, a, n);
    }
  }

  lemma PlainForm(rt: Runtime, rule: string, r: Rule)
    requires SameForm(rt, rule, r)
    ensures PlainText(rt, rule) <==> r.Skip? || r.Exact?
  {
    match r
    case Interval(a, b) => assert IntervalText(rt, rule, a, b);
    case Block4(a, n) => assert Block4Text(rt, rule, a, n);
    case Block6(a, n) => assert Block6Text(rt, rule, a, n);
    case _ =>
  }

  lemma FormMeans(rt: Runtime, rule: string, r: Rule, ip: string)
    requires RuleOk(r) && SameForm(rt, rule, r) && !r.Skip? && (r.Exact? ==> r.text == rule)
    ensures Names(rt, r, ip) <==> RuleMeans(rt, rule, ip)
  {
    PlainForm(rt, rule, r);
    match r
    case Interval(a, b) => assert IntervalText(rt, rule, a, b);
    case Block4(a, n) => assert Block4Text(rt, rule, a, n);
    case Block6(a, n) => assert Block6Text(rt, rule, a, n);
    case _ =>
  }

  lemma TextIsItsCore(rt: Runtime, raw: string, ip: string)
    ensures TextNames(rt, raw, ip) <==> Trim(raw, rt.isWhite) != "" && RuleMeans(rt, Trim(raw, rt.isWhite), ip)
  {
    forall t ensures Core(raw, t, rt.isWhite) <==> t == Trim(raw, rt.isWhite) { CoreIsTrim(raw, t, rt.isWhite); }
  }

  lemma RuleKeepsText(rt: Runtime, rule: string)
    ensures ParseTrimmed(rt, rule).Skip? <==> rule == ""
    ensures ParseTrimmed(rt, rule).Exact? ==> ParseTrimmed(rt, rule).text == rule
  {
  }

  /** The parsed rule names exactly the addresses that the text means. */
  lemma ParsedMeansText(rt: Runtime, raw: string, ip: string)
    ensures Names(rt, Parse(rt, raw), ip) <==> TextNames(rt, raw, ip)
  {
    var rule := Trim(raw, rt.isWhite);
    TextIsItsCore(rt, raw, ip);
    RuleKeepsText(rt, rule);
    if rule != "" {
      ParsedForm(rt, rule);
      FormMeans(rt, rule, ParseTrimmed(rt, rule), ip);
    }
  }

  /** The text is an IPv4 block of a single address, written with its prefix. */
  ghost predicate TextHostRule(rt: Runtime, raw: string) {
    exists rule, base :: Core(raw, rule, rt.isWhite) && Block4Text(rt, rule, base, 32)
  }

  lemma HostRuleFromText(rt: Runtime, raw: string)
    ensures TextHostRule(rt, raw) <==> Parse(rt, raw).Block4? && Parse(rt, raw).prefix == 32
  {
    var rule := Trim(raw, rt.isWhite);
    forall t ensures Core(raw, t, rt.isWhite) <==> t == rule { CoreIsTrim(raw, t, rt.isWhite); }
    HostForm(rt, rule);
    assert TextHostRule(rt, raw) <==> exists base: nat :: Block4Text(rt, rule, base, 32);
  }

  lemma HostForm(rt: Runtime, rule: string)
    ensures (exists base: nat :: Block4Text(rt, rule, base, 32)) <==>
      ParseTrimmed(rt, rule).Block4? && ParseTrimmed(rt, rule).prefix == 32
  {
    ParsedForm(rt, rule);
    var r := ParseTrimmed(rt, rule);
    if r.Block4? && r.prefix == 32 { assert Block4Text(rt, rule, r.base, 32); }
  }
}
