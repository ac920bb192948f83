/**
 `RateLimitService.RateLimitEntry`: how an endpoint rule is parsed and when it applies to a request.
 All three kinds of rule (everything, wildcard, path prefix) are shown to be globs.
 */
module RateLimitEntry {
  import opened Wrappers
  import opened Text
  import Glob

  /** Character tables of the runtime: invariant lower and upper case, and white space. */
  datatype Culture = Culture(lower: char -> char, upper: char -> char, isWhite: char -> bool) {
    /** Nothing but '/' folds to what '/' folds to. */
    ghost predicate SlashIsItself() {
      forall ch :: upper(ch) == upper('/') ==> ch == '/'
    }
  }

  // ---------------------------------------------------------------- prefixes are globs

  /** `PathString.StartsWithSegments`: a prefix that ends at a segment border. */
  predicate StartsWithSegments(fold: char -> char, value: string, prefix: string) {
    && |prefix| <= |value| && FoldWith(value[..|prefix|], fold) == FoldWith(prefix, fold)
    && (|value| == |prefix| || value[|prefix|] == '/')
  }

  lemma {:induction false} LiteralPrefix(fold: char -> char, value: string, prefix: string, rest: string)
    requires '*' !in prefix
    ensures Glob.Matches(fold, value, prefix + rest) <==>
      |prefix| <= |value| && FoldWith(value[..|prefix|], fold) == FoldWith(prefix, fold) &&
      Glob.Matches(fold, value[|prefix|..], rest)
  {
    if prefix == "" {
      assert prefix + rest == rest && value[0..] == value;
      assert FoldWith(value[..0], fold) == FoldWith(prefix, fold);
    } else if value != "" {
      assert (prefix + rest)[1..] == prefix[1..] + rest;
      assert prefix[0] != '*' && (prefix + rest)[0] == prefix[0];
      LiteralPrefix(fold, value[1..], prefix[1..], rest);
      if |prefix| <= |value| {
        assert value[1..][|prefix| - 1..] == value[|prefix|..];
        var a, b := FoldWith(value[..|prefix|], fold), FoldWith(prefix, fold);
        var a1, b1 := FoldWith(value[1..][..|prefix| - 1], fold), FoldWith(prefix[1..], fold);
        assert a == [fold(value[0])] + a1 && b == [fold(prefix[0])] + b1;
        assert a[0] == fold(value[0]) && b[0] == fold(prefix[0]) && a[1..] == a1 && b[1..] == b1;
      }
    } else {
      assert (prefix + rest)[0] == prefix[0];
    }
  }

  lemma {:induction false} StarMatchesAll(fold: char -> char, value: string)
    ensures Glob.Matches(fold, value, "*")
  {
    if value != "" { StarMatchesAll(fold, value[1..]); }
  }

  // The prefix "/api" means "/api" and everything below "/api/", and nothing else: not "/apix".
  lemma SegmentPrefixIsGlob(fold: char -> char, value: string, prefix: string)
    requires '*' !in prefix
    requires forall ch :: fold(ch) == fold('/') ==> ch == '/'
    ensures StartsWithSegments(fold, value, prefix) <==>
      Glob.Matches(fold, value, prefix) || Glob.Matches(fold, value, prefix + "/*")
  {
    LiteralPrefix(fold, value, prefix, "");
    assert prefix + "" == prefix;
    LiteralPrefix(fold, value, prefix, "/*");
    if |prefix| < |value| {
      var rest := value[|prefix|..];
      assert "/*"[1..] == "*";
      StarMatchesAll(fold, rest[1..]);
      assert Glob.Matches(fold, rest, "/*") <==> fold('/') == fold(rest[0]);
    }
  }

  // ---------------------------------------------------------------- rules

  function NormalizePath(c: Culture, path: string): (r: string)
    ensures r != "" && (r[0] == '/' || r[0] == '*')
  {
    var p := Trim(path, c.isWhite);
    if p != "" && (p[0] == '/' || p[0] == '*') then p else "/" + p
  }

  /** A parsed rule: the verb it is limited to, and one pattern. */
  datatype Endpoint = Endpoint(verb: Option<string>, pattern: string)

  /** Splits "verb:path"; a colon after the first slash belongs to the path. */
  function SplitVerb(c: Culture, text: string): (Option<string>, string) {
    var colon := IndexOf(text, ':');
    if colon > 0 && '/' !in text[..colon] then SplitAt(c, text, colon) else (None, text)
  }

  function SplitAt(c: Culture, text: string, colon: nat): (Option<string>, string)
    requires colon < |text|
  {
    (VerbOf(c, text[..colon]), Trim(text[colon + 1..], c.isWhite))
  }

  /** The trimmed verb, the star for any. */
  function Verb(c: Culture, verb: string): Option<string> {
    if verb == "*" then None else Some(FoldWith(verb, c.upper))
  }

  function VerbOf(c: Culture, text: string): Option<string> {
    Verb(c, Trim(text, c.isWhite))
  }

  function ParseEndpoint(c: Culture, endpoint: string): Endpoint {
    ParseTrimmed(c, Trim(endpoint, c.isWhite))
  }

  function ParseTrimmed(c: Culture, text: string): Endpoint {
    var (verb, rest) := SplitVerb(c, text);
    Endpoint(verb, if rest == "" || rest == "*" then "*" else NormalizePath(c, rest))
  }

  /** The whitelist texts that are not blank, normalized. */
  function NormalizeAll(c: Culture, texts: seq<string>): seq<string> {
    if texts == [] then []
    else
      var last := texts[|texts| - 1];
      NormalizeAll(c, texts[..|texts| - 1]) + if Blank(last, c.isWhite) then [] else [NormalizePath(c, last)]
  }

  lemma {:induction false} WhitelistMembers(c: Culture, texts: seq<string>, w: string)
    ensures w in NormalizeAll(c, texts) <==> exists t <- texts :: !Blank(t, c.isWhite) && w == NormalizePath(c, t)
  {
    if texts != [] {
      var front, last := texts[..|texts| - 1], texts[|texts| - 1];
      assert texts == front + [last];
      WhitelistMembers(c, front, w);
    }
  }

  /** What a pattern means for a request path, which may be absent. */
  predicate PatternApplies(c: Culture, pattern: string, path: Option<string>) {
    if '*' in pattern then
      Glob.Matches(c.lower, if path.Some? then path.value else "/", pattern)
    else
      var value := if path.Some? then path.value else "";
      Glob.Matches(c.upper, value, pattern) || Glob.Matches(c.upper, value, pattern + "/*")
  }

  class Entry {
    const culture: Culture
    var verb: Option<string>
    var pathPrefix: string
    var wildcardPattern: string
    var matchAll: bool
    var endpointWhitelist: seq<string>

    function View(): Endpoint
      reads this
    {
      Endpoint(verb, if matchAll then "*" else if wildcardPattern != "" then wildcardPattern else pathPrefix)
    }

    ghost predicate Valid()
      reads this
    {
      && culture.SlashIsItself()
      && (wildcardPattern != "" ==> '*' in wildcardPattern)
      && '*' !in pathPrefix
    }

    constructor (culture: Culture, endpoint: string, whitelist: seq<string>)
      requires culture.SlashIsItself()
      ensures Valid() && this.culture == culture && View() == ParseEndpoint(culture, endpoint)
      ensures endpointWhitelist == NormalizeAll(culture, whitelist)
    {
      this.culture := culture;
      endpointWhitelist := NormalizeAll(culture, whitelist);
      var (v, pattern) := SplitVerb(culture, Trim(endpoint, culture.isWhite));
      verb := v;
      if pattern == "" || pattern == "*" {
        matchAll, wildcardPattern, pathPrefix := true, "", "";
      } else {
        var path := NormalizePath(culture, pattern);
        matchAll := false;
        if '*' in path {
          wildcardPattern, pathPrefix := path, "";
        } else {
          wildcardPattern, pathPrefix := "", path;
        }
      }
    }

    /** The rule applies to a request exactly when its verb and its glob do and no whitelisted glob does. */
    method Matches(requestMethod: string, path: Option<string>) returns (applies: bool)
      requires Valid()
      ensures applies <==>
        && (View().verb.Some? ==> FoldWith(requestMethod, culture.upper) == FoldWith(View().verb.value, culture.upper))
        && (forall w <- endpointWhitelist :: !PatternApplies(culture, w, path))
        && PatternApplies(culture, View().pattern, path)
    {
      if verb.Some? && FoldWith(requestMethod, culture.upper) != FoldWith(verb.value, culture.upper) { return false; }
      for i := 0 to |endpointWhitelist|
        invariant forall w <- endpointWhitelist[..i] :: !PatternApplies(culture, w, path)
      {
        var hit := Applies(endpointWhitelist[i], path);
        if hit { return false; }
      }
      if matchAll {
        StarMatchesAll(culture.lower, if path.Some? then path.value else "/");
        return true;
      }
      applies := Applies(if wildcardPattern != "" then wildcardPattern else pathPrefix, path);
    }

    /** One pattern against the request path: the matcher for wildcards, segment prefixes otherwise. */
    method Applies(pattern: string, path: Option<string>) returns (applies: bool)
      requires culture.SlashIsItself()
      ensures applies <==> PatternApplies(culture, pattern, path)
    {
      if '*' in pattern {
        applies := Glob.WildcardMatch(culture.lower, if path.Some? then path.value else "/", pattern);
      } else {
        var value := if path.Some? then path.value else "";
        SegmentPrefixIsGlob(culture.upper, value, pattern);
        applies := StartsWithSegments(culture.upper, value, pattern);
      }
    }
  }

  // ---------------------------------------------------------------- parsing

  lemma {:induction false} TrimStartDrops(a: string, s: string, isWhite: char -> bool)
    requires Blank(a, isWhite) && s != "" && !isWhite(s[0])
    ensures TrimStart(a + s, isWhite) == s
  {
    if a == "" {
      assert a + s == s;
    } else {
      assert (a + s)[1..] == a[1..] + s;
      TrimStartDrops(a[1..], s, isWhite);
    }
  }

  lemma {:induction false} TrimEndDrops(s: string, b: string, isWhite: char -> bool)
    requires Blank(b, isWhite) && s != "" && !isWhite(s[|s| - 1])
    ensures TrimEnd(s + b, isWhite) == s
  {
    if b == "" {
      assert s + b == s;
    } else {
      assert (s + b)[..|s + b| - 1] == s + b[..|b| - 1];
      TrimEndDrops(s, b[..|b| - 1], isWhite);
    }
  }

  predicate Black(t: string, isWhite: char -> bool) { t != "" && !isWhite(t[0]) && !isWhite(t[|t| - 1]) }

  /** Trimming gives back what white space was put around. */
  lemma TrimUndoes(a: string, t: string, b: string, isWhite: char -> bool)
    requires Blank(a, isWhite) && Black(t, isWhite) && Blank(b, isWhite)
    ensures Trim(a + t + b, isWhite) == t
  {
    assert a + t + b == a + (t + b) && (t + b)[0] == t[0];
    TrimStartDrops(a, t + b, isWhite);
    TrimEndDrops(t, b, isWhite);
  }

  lemma {:induction false} TrimStartSplits(s: string, isWhite: char -> bool) returns (a: string)
    ensures Blank(a, isWhite) && s == a + TrimStart(s, isWhite)
  {
    a := "";
    if s != "" && isWhite(s[0]) {
      var rest := TrimStartSplits(s[1..], isWhite);
      a := [s[0]] + rest;
    }
  }

  lemma {:induction false} TrimEndSplits(s: string, isWhite: char -> bool) returns (b: string)
    ensures Blank(b, isWhite) && s == TrimEnd(s, isWhite) + b
  {
    b := "";
    if s != "" && isWhite(s[|s| - 1]) {
      var rest := TrimEndSplits(s[..|s| - 1], isWhite);
      b := rest + [s[|s| - 1]];
    }
  }

  /** A text is its trimmed form with white space around it. */
  lemma TrimSplits(s: string, isWhite: char -> bool) returns (a: string, b: string)
    ensures Blank(a, isWhite) && Blank(b, isWhite) && s == a + Trim(s, isWhite) + b
  {
    a := TrimStartSplits(s, isWhite);
    b := TrimEndSplits(TrimStart(s, isWhite), isWhite);
    assert s == a + (Trim(s, isWhite) + b);
  }

  lemma TrimIsIdentity(s: string, isWhite: char -> bool)
    requires Black(s, isWhite)
    ensures Trim(s, isWhite) == s
  {
  }

  /** A colon after the first slash belongs to the path: a rule that starts with '/' never has a verb. */
  lemma PathRuleHasNoVerb(c: Culture, text: string)
    requires var path := Trim(text, c.isWhite); path != "" && path[0] == '/'
    ensures ParseEndpoint(c, text) == Endpoint(None, Trim(text, c.isWhite))
  {
    var path := Trim(text, c.isWhite);
    TrimIsIdentity(path, c.isWhite);
    var colon := IndexOf(path, ':');
    if colon > 0 {
      assert path[..colon][0] == '/';
    }
    assert SplitVerb(c, path) == (None, path);
  }

  lemma FirstColon(verb: string, path: string)
    requires ':' !in verb
    ensures var text := verb + ":" + path;
      IndexOf(text, ':') == |verb| && text[..|verb|] == verb && text[|verb| + 1..] == path
  {
    FirstIndex(verb + ":" + path, ':', |verb|);
  }

  lemma SplitAtColon(c: Culture, text: string, verb: string, path: string)
    requires verb != "" && '/' !in verb && IndexOf(text, ':') == |verb| && text[..|verb|] == verb && text[|verb| + 1..] == path
    ensures SplitVerb(c, text) == (VerbOf(c, verb), Trim(path, c.isWhite))
  {
    assert SplitVerb(c, text) == SplitAt(c, text, |verb|);
  }

  lemma ParsePieces(c: Culture, verb: string, b: string, a: string, path: string)
    requires Black(verb, c.isWhite) && Blank(b, c.isWhite) && Blank(a, c.isWhite) && Black(path, c.isWhite)
    requires ':' !in verb + b && '/' !in verb + b && (path[0] == '/' || path[0] == '*')
    ensures ParseTrimmed(c, verb + b + ":" + (a + path)) == Endpoint(Verb(c, verb), path)
  {
    FirstColon(verb + b, a + path);
    SplitAtColon(c, verb + b + ":" + (a + path), verb + b, a + path);
    TrimUndoes("", verb, b, c.isWhite);
    assert "" + verb + b == verb + b && a + path + "" == a + path;
    TrimUndoes(a, path, "", c.isWhite);
    TrimIsIdentity(path, c.isWhite);
  }

  /**
   Writing a verb in front of a path and parsing the rule gives both back, whatever the path contains and
   whatever white space is around either.
   */
  lemma VerbRuleRoundTrip(c: Culture, verb: string, path: string)
    requires Trim(verb, c.isWhite) != "" && ':' !in verb && '/' !in verb
    requires var p := Trim(path, c.isWhite); p != "" && (p[0] == '/' || p[0] == '*')
    ensures ParseEndpoint(c, verb + ":" + path) == Endpoint(Verb(c, Trim(verb, c.isWhite)), Trim(path, c.isWhite))
  {
    var v, p := Trim(verb, c.isWhite), Trim(path, c.isWhite);
    var a1, b1 := TrimSplits(verb, c.isWhite);
    var a2, b2 := TrimSplits(path, c.isWhite);
    var inner := v + b1 + ":" + (a2 + p);
    assert verb == a1 + (v + b1);
    assert inner[0] == v[0] && inner[|inner| - 1] == p[|p| - 1];
    TrimUndoes(a1, inner, b2, c.isWhite);
    assert verb + ":" + path == a1 + inner + b2;
    ParsePieces(c, v, b1, a2, p);
  }

  // ---------------------------------------------------------------- what a rule text means

  /** The text without the white space around it is a verb, a colon and a path; the verb has neither colon nor slash. */
  predicate VerbFirst(text: string, verb: string, path: string) {
    text == verb + [':'] + path && verb != "" && ':' !in verb && '/' !in verb
  }

  /** The verb a rule is limited to: none for the star, else the text in upper case. */
  ghost predicate LimitsTo(c: Culture, text: string, verb: Option<string>) {
    if text == "*" then verb.None?
    else verb.Some? && |verb.value| == |text| && forall i :: 0 <= i < |text| ==> verb.value[i] == c.upper(text[i])
  }

  /** The pattern of a path: everything for none, the path itself, with a slash in front if it starts with neither slash nor star. */
  predicate Stands(path: string, pattern: string) {
    if path == "" then pattern == "*"
    else if path[0] == '/' || path[0] == '*' then pattern == path
    else pattern == ['/'] + path
  }

  lemma NormalizedStands(c: Culture, path: string)
    requires path != "" ==> Black(path, c.isWhite)
    ensures Stands(path, if path == "" || path == "*" then "*" else NormalizePath(c, path))
  {
    if path != "" { TrimIsIdentity(path, c.isWhite); }
    assert "/" + path == ['/'] + path;
  }

  /** A text that starts with a verb is limited to it, and the path behind the colon is its pattern. */
  lemma VerbRuleMeans(c: Culture, text: string, verb: string, path: string)
    requires VerbFirst(Trim(text, c.isWhite), verb, path)
    ensures LimitsTo(c, Trim(verb, c.isWhite), ParseEndpoint(c, text).verb)
    ensures Stands(Trim(path, c.isWhite), ParseEndpoint(c, text).pattern)
  {
    var t := Trim(text, c.isWhite);
    CutGivesIndex(verb, ':', path);
    SplitAtColon(c, t, verb, path);
    NormalizedStands(c, Trim(path, c.isWhite));
  }

  /** Any other text has no verb and is all path. */
  lemma PlainRuleMeans(c: Culture, text: string)
    requires forall verb, path :: !VerbFirst(Trim(text, c.isWhite), verb, path)
    ensures ParseEndpoint(c, text).verb.None? && Stands(Trim(text, c.isWhite), ParseEndpoint(c, text).pattern)
  {
    var t := Trim(text, c.isWhite);
    NoVerb(c, t);
    NormalizedStands(c, t);
  }

  lemma NoVerb(c: Culture, t: string)
    requires forall verb, path :: !VerbFirst(t, verb, path)
    ensures SplitVerb(c, t) == (None, t)
  {
    var colon := IndexOf(t, ':');
    if colon > 0 && '/' !in t[..colon] {
      IndexGivesCut(t, ':');
      assert VerbFirst(t, t[..colon], t[colon + 1..]);
    }
  }

  /** The whitelist holds the paths of the texts that are not blank. */
  lemma WhitelistMeans(c: Culture, texts: seq<string>, w: string)
    ensures w in NormalizeAll(c, texts) <==>
      exists t <- texts :: !Blank(t, c.isWhite) && Stands(Trim(t, c.isWhite), w)
  {
    WhitelistMembers(c, texts, w);
    forall t | t in texts && !Blank(t, c.isWhite) ensures w == NormalizePath(c, t) <==> Stands(Trim(t, c.isWhite), w) {
      TextStands(c, t, w);
    }
  }

  lemma TextStands(c: Culture, t: string, w: string)
    requires !Blank(t, c.isWhite)
    ensures w == NormalizePath(c, t) <==> Stands(Trim(t, c.isWhite), w)
  {
    var a, b := TrimSplits(t, c.isWhite);
    assert Trim(t, c.isWhite) == "" ==> t == a + b;
    assert "/" + Trim(t, c.isWhite) == ['/'] + Trim(t, c.isWhite);
  }
}
