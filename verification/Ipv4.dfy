/** IPv4 addresses: the hand-written dotted-quad parser and the CIDR arithmetic of `IpPolicyMatcher`. */
module Ipv4 {
  import opened Wrappers
  import opened Bits

  // ---------------------------------------------------------------- dotted quads

  predicate IsDigit(c: char) {
    '0' <= c <= '9'
  }

  function Digit(c: char): (d: nat)
    requires IsDigit(c)
    ensures d <= 9
  {
    c as int - '0' as int
  }

  predicate AllDigits(s: string) {
    forall c <- s :: IsDigit(c)
  }

  function Number(s: string): nat
    requires AllDigits(s)
  {
    if s == "" then 0 else 10 * Number(s[..|s| - 1]) + Digit(s[|s| - 1])
  }

  /** The parts between the dots; always at least one. */
  function Split(s: string): (parts: seq<string>)
    ensures |parts| > 0
  {
    if s == "" then [""]
    else
      var before, c := Split(s[..|s| - 1]), s[|s| - 1];
      if c == '.' then before + [""] else before[|before| - 1 := before[|before| - 1] + [c]]
  }

  /** At most three digits with a value of at most 255. */
  predicate SmallNumber(s: string) {
    |s| <= 3 && AllDigits(s) && Number(s) <= 255
  }

  predicate Octet(s: string) {
    s != "" && SmallNumber(s)
  }

  predicate AllSmall(parts: seq<string>) {
    forall i :: 0 <= i < |parts| ==> SmallNumber(parts[i])
  }

  predicate AllOctets(parts: seq<string>) {
    forall i :: 0 <= i < |parts| ==> Octet(parts[i])
  }

  /** The value of the numbers read so far, most significant first. */
  function Value(parts: seq<string>): nat
    requires AllSmall(parts)
  {
    if parts == [] then 0 else 256 * Value(parts[..|parts| - 1]) + Number(parts[|parts| - 1])
  }

  /** Four octets between dots, and nothing else, make an address. */
  function AddressOf(text: string): (r: Option<nat>)
    ensures r.Some? ==> r.value < WORD
  {
    var parts := Split(text);
    if |parts| == 4 && AllOctets(parts) then
      ValueBound(parts);
      WordSize();
      Some(Value(parts))
    else None
  }

  lemma {:induction false} ValueBound(parts: seq<string>)
    requires AllSmall(parts)
    ensures Value(parts) < Scale(1, 8 * |parts|)
  {
    if parts != [] {
      ValueBound(parts[..|parts| - 1]);
      ScaleAdds(1, 8 * |parts| - 8, 8);
      ScaleBy8(Scale(1, 8 * |parts| - 8));
    }
  }

  lemma ScaleBy8(x: nat)
    ensures Scale(x, 8) == 256 * x
  {
    assert Scale(x, 1) == 2 * x && Scale(x, 2) == 4 * x && Scale(x, 3) == 8 * x && Scale(x, 4) == 16 * x;
    assert Scale(x, 5) == 32 * x && Scale(x, 6) == 64 * x && Scale(x, 7) == 128 * x;
  }

  /** A value of three octets has room for a fourth. */
  lemma ShiftByOctet(value: nat)
    requires value < Scale(1, 24)
    ensures ShiftLeft(value, 8) == Scale(value, 8) == 256 * value
  {
    ScaleBy8(value);
    ScaleAdds(1, 24, 8);
    ScaleBy8(Scale(1, 24));
    WordSize();
  }

  /** `(value << 8) | segment` appends one octet. */
  lemma AppendOctet(value: nat, segment: nat)
    requires value < Scale(1, 24) && segment <= 255
    ensures Or(ShiftLeft(value, 8), segment) == 256 * value + segment
  {
    ShiftByOctet(value);
    ScaleBy8(1);
    OrOfDisjoint(value, 8, segment);
  }

  /** Reading on never repairs a part: all but the last part are final, and the last one only grows. */
  lemma {:induction false} SplitGrows(s: string, n: nat)
    requires n <= |s|
    ensures var before, after := Split(s[..n]), Split(s);
      && |before| <= |after|
      && before[..|before| - 1] == after[..|before| - 1]
      && before[|before| - 1] <= after[|before| - 1]
  {
    if n < |s| {
      SplitGrows(s[..|s| - 1], n);
      assert s[..|s| - 1][..n] == s[..n];
    } else {
      assert s[..n] == s;
    }
  }

  /** Once a prefix of a part is not a small number, no extension is. */
  lemma {:induction false} SmallNumberPrefix(s: string, n: nat)
    requires n <= |s| && SmallNumber(s)
    ensures SmallNumber(s[..n])
  {
    if n < |s| {
      var front := s[..|s| - 1];
      assert AllDigits(front);
      SmallNumberPrefix(front, n);
      assert front[..n] == s[..n];
    } else {
      assert s[..n] == s;
    }
  }

  /** What the parser has read is acceptable so far. */
  ghost predicate GoodPrefix(s: string) {
    var parts := Split(s);
    && |parts| <= 4
    && AllOctets(parts[..|parts| - 1])
    && SmallNumber(parts[|parts| - 1])
  }

  lemma PrefixesAreGood(s: string, n: nat)
    requires n <= |s| && AddressOf(s).Some?
    ensures GoodPrefix(s[..n])
  {
    SplitGrows(s, n);
    var before, after := Split(s[..n]), Split(s);
    var last := |before| - 1;
    forall i | 0 <= i < last ensures Octet(before[..last][i]) {
      assert before[..last][i] == after[..last][i];
    }
    assert after[last][..|before[last]|] == before[last];
    SmallNumberPrefix(after[last], |before[last]|);
  }

  lemma BadPrefixIsFinal(s: string, n: nat)
    requires n <= |s| && !GoodPrefix(s[..n])
    ensures AddressOf(s).None?
  {
    if AddressOf(s).Some? { PrefixesAreGood(s, n); }
  }

  /** The parser state after reading a prefix: three counters and the value of the finished parts. */
  ghost predicate Tracks(prefix: string, value: nat, segment: nat, segments: nat, digits: nat) {
    GoodPrefix(prefix) &&
    var parts := Split(prefix);
    && segments == |parts| - 1 && digits == |parts[segments]| && segment == Number(parts[segments])
    && value == Value(parts[..segments])
  }

  lemma TracksDot(prefix: string, value: nat, segment: nat, segments: nat, digits: nat)
    requires Tracks(prefix, value, segment, segments, digits)
    ensures if digits == 0 || segments == 3 then !GoodPrefix(prefix + ".")
      else Tracks(prefix + ".", 256 * value + segment, 0, segments + 1, 0)
  {
    var parts, next := Split(prefix), prefix + ".";
    assert next[..|next| - 1] == prefix;
    var parts' := Split(next);
    assert parts' == parts + [""];
    if digits == 0 {
      assert parts'[segments] == "" && !Octet(parts'[segments]);
    } else if segments != 3 {
      assert parts'[..segments + 1] == parts && parts[..segments] == parts'[..segments + 1][..segments];
      assert forall i :: 0 <= i < segments ==> parts[i] == parts[..segments][i];
    }
  }

  lemma TracksDigit(prefix: string, c: char, value: nat, segment: nat, segments: nat, digits: nat)
    requires Tracks(prefix, value, segment, segments, digits) && c != '.'
    ensures if !IsDigit(c) || digits + 1 > 3 || 10 * segment + Digit(c) > 255 then !GoodPrefix(prefix + [c])
      else Tracks(prefix + [c], value, 10 * segment + Digit(c), segments, digits + 1)
  {
    var parts, next := Split(prefix), prefix + [c];
    assert next[..|next| - 1] == prefix;
    var parts' := Split(next);
    var last := parts[segments] + [c];
    assert parts' == parts[segments := last];
    assert last[..|last| - 1] == parts[segments] && last[|last| - 1] == c;
    assert parts'[..segments] == parts[..segments];
  }

  lemma ValueOfAddress(text: string, value: nat, segment: nat, segments: nat, digits: nat)
    requires Tracks(text, value, segment, segments, digits)
    ensures AddressOf(text).Some? <==> digits != 0 && segments == 3
    ensures AddressOf(text).Some? ==> AddressOf(text).value == 256 * value + segment
  {
    var parts := Split(text);
    assert |parts| == 4 ==> parts == parts[..3] + [parts[3]];
    assert digits == 0 ==> parts[segments] == "" && !Octet(parts[segments]);
  }

  lemma FinishedPartsAreSmall(prefix: string, value: nat, segment: nat, segments: nat, digits: nat)
    requires Tracks(prefix, value, segment, segments, digits)
    ensures value < Scale(1, 24) && segment <= 255
  {
    var parts := Split(prefix);
    ValueBound(parts[..segments]);
    ScaleGrows(8 * segments, 24);
  }

  /** Appending the part just read. */
  lemma AppendFinished(prefix: string, value: nat, segment: nat, segments: nat, digits: nat)
    requires Tracks(prefix, value, segment, segments, digits)
    ensures Or(ShiftLeft(value, 8), segment) == 256 * value + segment
  {
    FinishedPartsAreSmall(prefix, value, segment, segments, digits);
    AppendOctet(value, segment);
  }

  lemma {:induction false} ScaleGrows(m: nat, n: nat)
    requires m <= n
    ensures 0 < Scale(1, m) <= Scale(1, n)
  {
    if m < n { ScaleGrows(m, n - 1); } else if m > 0 { ScaleGrows(m - 1, n - 1); }
  }

  /** What the loop does at a dot: it gives up, or appends the part just read. */
  lemma AtDot(text: string, i: nat, value: nat, segment: nat, segments: nat, digits: nat)
    requires i < |text| && text[i] == '.' && Tracks(text[..i], value, segment, segments, digits)
    ensures if digits == 0 || segments == 3 then AddressOf(text).None?
      else Tracks(text[..i + 1], Or(ShiftLeft(value, 8), segment), 0, segments + 1, 0)
  {
    assert text[..i + 1] == text[..i] + ".";
    TracksDot(text[..i], value, segment, segments, digits);
    if digits == 0 || segments == 3 {
      BadPrefixIsFinal(text, i + 1);
    } else {
      AppendFinished(text[..i], value, segment, segments, digits);
    }
  }

  /** What it does at any other character: it gives up, or reads one more digit. */
  lemma AtOther(text: string, i: nat, value: nat, segment: nat, segments: nat, digits: nat)
    requires i < |text| && text[i] != '.' && Tracks(text[..i], value, segment, segments, digits)
    ensures if !IsDigit(text[i]) || digits + 1 > 3 || 10 * segment + Digit(text[i]) > 255 then AddressOf(text).None?
      else Tracks(text[..i + 1], value, 10 * segment + Digit(text[i]), segments, digits + 1)
  {
    assert text[..i + 1] == text[..i] + [text[i]];
    TracksDigit(text[..i], text[i], value, segment, segments, digits);
    if !IsDigit(text[i]) || digits + 1 > 3 || 10 * segment + Digit(text[i]) > 255 { BadPrefixIsFinal(text, i + 1); }
  }

  method TryParseIpv4(text: string) returns (ok: bool, value: nat)
    ensures ok <==> AddressOf(text).Some?
    ensures value == if ok then AddressOf(text).value else 0
  {
    value := 0;
    var segment: nat, segments: nat, digits: nat := 0, 0, 0;
    for i := 0 to |text|
      invariant Tracks(text[..i], value, segment, segments, digits)
    {
      var c := text[i];
      if c == '.' {
        AtDot(text, i, value, segment, segments, digits);
        if digits == 0 || segments == 3 {
          return false, 0;
        }
        value := Or(ShiftLeft(value, 8), segment);
        segments := segments + 1;
        segment := 0;
        digits := 0;
      } else {
        AtOther(text, i, value, segment, segments, digits);
        if '0' <= c <= '9' {
          digits := digits + 1;
          if digits > 3 {
            return false, 0;
          }
          segment := segment * 10 + (c as int - '0' as int);
          if segment > 255 {
            return false, 0;
          }
        } else {
          return false, 0;
        }
      }
    }
    assert text[..|text|] == text;
    ValueOfAddress(text, value, segment, segments, digits);
    if digits == 0 || segments != 3 {
      return false, 0;
    }
    AppendFinished(text, value, segment, segments, digits);
    value := Or(ShiftLeft(value, 8), segment);
    ok := true;
  }

  // ---------------------------------------------------------------- what an address text is

  /** One to three digits with a value of at most 255. */
  predicate OctetText(s: string) {
    1 <= |s| <= 3 && (forall c <- s :: '0' <= c <= '9') && Number(s) <= 255
  }

  function QuadText(a: string, b: string, c: string, d: string): string {
    a + ['.'] + b + ['.'] + c + ['.'] + d
  }

  /** The text is the four octets with dots between them, most significant first. */
  ghost predicate Quad(text: string, v: nat, a: string, b: string, c: string, d: string) {
    && OctetText(a) && OctetText(b) && OctetText(c) && OctetText(d) && text == QuadText(a, b, c, d)
    && v == 0x100_0000 * Number(a) + 0x1_0000 * Number(b) + 0x100 * Number(c) + Number(d)
  }

  lemma {:induction false} SplitPlain(d: string)
    requires '.' !in d
    ensures Split(d) == [d]
  {
    if d != "" {
      SplitPlain(d[..|d| - 1]);
      assert d == d[..|d| - 1] + [d[|d| - 1]];
    }
  }

  lemma {:induction false} SplitLast(s: string, d: string)
    requires '.' !in d
    ensures Split(s + ['.'] + d) == Split(s) + [d]
  {
    var t := s + ['.'] + d;
    if d == "" {
      assert t[..|t| - 1] == s && t[|t| - 1] == '.';
    } else {
      var front, last := d[..|d| - 1], d[|d| - 1];
      SplitLast(s, front);
      assert t[..|t| - 1] == s + ['.'] + front && t[|t| - 1] == last;
      assert d == front + [last];
    }
  }

  lemma QuadSplits(a: string, b: string, c: string, d: string)
    requires '.' !in a && '.' !in b && '.' !in c && '.' !in d
    ensures Split(QuadText(a, b, c, d)) == [a, b, c, d]
  {
    SplitPlain(a);
    SplitLast(a, b);
    SplitLast(a + ['.'] + b, c);
    SplitLast(a + ['.'] + b + ['.'] + c, d);
  }

  lemma ValueOfFour(a: string, b: string, c: string, d: string)
    requires SmallNumber(a) && SmallNumber(b) && SmallNumber(c) && SmallNumber(d)
    ensures Value([a, b, c, d]) == 0x100_0000 * Number(a) + 0x1_0000 * Number(b) + 0x100 * Number(c) + Number(d)
  {
    assert [a, b, c, d][..3] == [a, b, c] && [a, b, c][..2] == [a, b] && [a, b][..1] == [a] && [a][..0] == [];
    assert Value([]) == 0;
    assert Value([a]) == Number(a);
    assert Value([a, b]) == 0x100 * Number(a) + Number(b);
    assert Value([a, b, c]) == 0x1_0000 * Number(a) + 0x100 * Number(b) + Number(c);
  }

  lemma OctetHasNoDot(s: string)
    requires OctetText(s)
    ensures '.' !in s && Octet(s)
  {
  }

  lemma QuadReads(text: string, v: nat, a: string, b: string, c: string, d: string)
    requires Quad(text, v, a, b, c, d)
    ensures AddressOf(text) == Some(v)
  {
    OctetHasNoDot(a);
    OctetHasNoDot(b);
    OctetHasNoDot(c);
    OctetHasNoDot(d);
    QuadSplits(a, b, c, d);
    ValueOfFour(a, b, c, d);
  }

  function Join(parts: seq<string>): string
    requires |parts| > 0
  {
    if |parts| == 1 then parts[0] else Join(parts[..|parts| - 1]) + ['.'] + parts[|parts| - 1]
  }

  lemma JoinGrows(parts: seq<string>, c: char)
    requires |parts| > 0
    ensures Join(parts[|parts| - 1 := parts[|parts| - 1] + [c]]) == Join(parts) + [c]
  {
    var n := |parts| - 1;
    var next := parts[n := parts[n] + [c]];
    assert next[..n] == parts[..n];
    if n > 0 {
      var front := Join(parts[..n]) + ['.'];
      assert front + (parts[n] + [c]) == (front + parts[n]) + [c];
    }
  }

  lemma {:induction false} JoinSplit(s: string)
    ensures Join(Split(s)) == s
  {
    if s != "" {
      var front, c := s[..|s| - 1], s[|s| - 1];
      JoinSplit(front);
      assert s == front + [c];
      if c == '.' {
        assert (Split(front) + [""])[..|Split(front)|] == Split(front);
        assert Join(Split(front)) + ['.'] + "" == s;
      } else {
        JoinGrows(Split(front), c);
      }
    }
  }

  lemma JoinOfFour(a: string, b: string, c: string, d: string)
    ensures Join([a, b, c, d]) == QuadText(a, b, c, d)
  {
    assert [a, b, c, d][..3] == [a, b, c] && [a, b, c][..2] == [a, b] && [a, b][..1] == [a];
    assert Join([a, b]) == a + ['.'] + b;
    assert Join([a, b, c]) == a + ['.'] + b + ['.'] + c;
  }

  lemma AddressIsQuad(text: string)
    requires AddressOf(text).Some?
    ensures exists a, b, c, d :: Quad(text, AddressOf(text).value, a, b, c, d)
  {
    var p := Split(text);
    JoinSplit(text);
    assert p == [p[0], p[1], p[2], p[3]];
    assert Octet(p[0]) && Octet(p[1]) && Octet(p[2]) && Octet(p[3]);
    JoinOfFour(p[0], p[1], p[2], p[3]);
    ValueOfFour(p[0], p[1], p[2], p[3]);
    assert Quad(text, AddressOf(text).value, p[0], p[1], p[2], p[3]);
  }

  /** Exactly the four octets with dots between them are an address, and its value puts the first octet on top. */
  lemma AddressIffQuad(text: string, v: nat)
    ensures AddressOf(text) == Some(v) <==> exists a, b, c, d :: Quad(text, v, a, b, c, d)
  {
    if AddressOf(text) == Some(v) { AddressIsQuad(text); }
    if a, b, c, d :| Quad(text, v, a, b, c, d) { QuadReads(text, v, a, b, c, d); }
  }

  function Decimal(n: nat): (s: string)
    ensures s != "" && AllDigits(s)
  {
    var last := ['0' + (n % 10) as char];
    if n < 10 then last else Decimal(n / 10) + last
  }

  lemma {:induction false} DecimalReadsBack(n: nat)
    ensures Number(Decimal(n)) == n
  {
    var s := Decimal(n);
    if n >= 10 {
      DecimalReadsBack(n / 10);
      assert s[..|s| - 1] == Decimal(n / 10);
    } else {
      assert s[..0] == "";
    }
  }

  lemma DecimalIsShort(n: nat)
    requires n < 256
    ensures |Decimal(n)| <= 3
  {
    if n >= 10 {
      assert |Decimal(n / 10)| <= 2 by { if n / 10 >= 10 { assert |Decimal(n / 10 / 10)| == 1; } }
    }
  }

  /** Writing an address in dotted decimal and parsing it gives the address back. */
  lemma DottedReadsBack(a: nat, b: nat, c: nat, d: nat)
    requires a < 256 && b < 256 && c < 256 && d < 256
    ensures AddressOf(QuadText(Decimal(a), Decimal(b), Decimal(c), Decimal(d))) ==
            Some(0x100_0000 * a + 0x1_0000 * b + 0x100 * c + d)
  {
    OctetDecimal(a);
    OctetDecimal(b);
    OctetDecimal(c);
    OctetDecimal(d);
    OctetsRead(Decimal(a), Decimal(b), Decimal(c), Decimal(d), a, b, c, d);
  }

  lemma OctetsRead(sa: string, sb: string, sc: string, sd: string, a: nat, b: nat, c: nat, d: nat)
    requires OctetText(sa) && OctetText(sb) && OctetText(sc) && OctetText(sd)
    requires Number(sa) == a && Number(sb) == b && Number(sc) == c && Number(sd) == d
    ensures AddressOf(QuadText(sa, sb, sc, sd)) == Some(0x100_0000 * a + 0x1_0000 * b + 0x100 * c + d)
  {
    QuadReads(QuadText(sa, sb, sc, sd), 0x100_0000 * a + 0x1_0000 * b + 0x100 * c + d, sa, sb, sc, sd);
  }

  lemma OctetDecimal(n: nat)
    requires n < 256
    ensures OctetText(Decimal(n)) && Number(Decimal(n)) == n
  {
    DecimalIsShort(n);
    DecimalReadsBack(n);
  }

  // ---------------------------------------------------------------- CIDR blocks

  /** Two addresses agree on their first `prefix` bits. */
  predicate SameNetwork(a: nat, b: nat, prefix: nat)
    requires prefix <= 32
  {
    Drop(a, 32 - prefix) == Drop(b, 32 - prefix)
  }

  function HostMask(prefix: nat): nat {
    if prefix == 0 then MAX_WORD else ShiftRight(MAX_WORD, prefix)
  }

  /** First and last address of the block, computed with masks as the program does. */
  function CidrRange(base: nat, prefix: nat): (nat, nat)
    requires HostMask(prefix) < WORD
  {
    var network := And(base, Not(HostMask(prefix)));
    (network, Or(network, HostMask(prefix)))
  }

  lemma MaskIsOnes(prefix: nat)
    requires prefix <= 31
    ensures HostMask(prefix) == Ones(32 - prefix) && HostMask(prefix) < WORD
    ensures Not(HostMask(prefix)) == Scale(Ones(prefix), 32 - prefix)
  {
    AllOnesSplit(32 - prefix, prefix);
    DropOfSum(Ones(32 - prefix), prefix, Ones(prefix));
    AllOnesSplit(prefix, 32 - prefix);
  }

  /** `m + n` ones: `m` of them above `n`. */
  lemma OnesSplit(m: nat, n: nat)
    ensures Ones(m + n) == Scale(Ones(m), n) + Ones(n)
  {
    ScaleAdds(1, m, n);
    ScaleSum(Ones(m), 1, n);
  }

  lemma AllOnesSplit(m: nat, n: nat)
    requires m + n == 32
    ensures MAX_WORD == Scale(Ones(m), n) + Ones(n)
  {
    OnesSplit(m, n);
    WordSize();
  }

  /** For prefixes 0 to 31 the block is exactly the addresses that agree on the first `prefix` bits. */
  lemma CidrCoversNetwork(base: nat, prefix: nat, v: nat)
    requires base < WORD && v < WORD && prefix <= 31
    ensures HostMask(prefix) < WORD
    ensures var (lo, hi) := CidrRange(base, prefix); lo <= hi < WORD && (lo <= v <= hi <==> SameNetwork(v, base, prefix))
  {
    CidrIsBlock(base, prefix);
    InBlock(Drop(base, 32 - prefix), 32 - prefix, v);
  }

  /** The masks keep the first bits and fill up the others. */
  lemma CidrIsBlock(base: nat, prefix: nat)
    requires base < WORD && prefix <= 31
    ensures HostMask(prefix) < WORD
    ensures var k := 32 - prefix; var lo := Scale(Drop(base, k), k);
      CidrRange(base, prefix) == (lo, lo + Ones(k)) && lo + Ones(k) < WORD
  {
    var k := 32 - prefix;
    var top := Drop(base, k);
    MaskIsOnes(prefix);
    TopFits(base, prefix, k);
    AndScaled(base, Ones(prefix), k);
    AndOnes(top, prefix);
    OrOfDisjoint(top, k, Ones(k));
    BlockFits(top, prefix, k);
  }

  lemma TopFits(base: nat, m: nat, k: nat)
    requires base < WORD && m + k == 32
    ensures Drop(base, k) < Scale(1, m)
  {
    WordSize();
    DropBound(base, m, k);
  }

  lemma InBlock(top: nat, k: nat, v: nat)
    ensures Scale(top, k) <= v <= Scale(top, k) + Ones(k) <==> Drop(v, k) == top
  {
    SplitAt(v, k);
    if Scale(top, k) <= v <= Scale(top, k) + Ones(k) { DropOfSum(top, k, v - Scale(top, k)); }
  }

  lemma BlockFits(top: nat, m: nat, k: nat)
    requires top < Scale(1, m) && m + k == 32
    ensures Scale(top, k) + Ones(k) < WORD
  {
    WordSize();
    ScaleAdds(1, m, k);
    ScaleSum(top, 1, k);
    ScaleMonotone(top + 1, Scale(1, m), k);
  }

  lemma {:induction false} ScaleMonotone(a: nat, b: nat, k: nat)
    requires a <= b
    ensures Scale(a, k) <= Scale(b, k)
  {
    if k > 0 { ScaleMonotone(a, b, k - 1); }
  }

  /** Prefix 32 shifts by 0, so the mask is all ones and the block is the whole address space. */
  lemma Cidr32CoversEverything(base: nat)
    requires base < WORD
    ensures HostMask(32) == MAX_WORD && CidrRange(base, 32) == (0, MAX_WORD)
  {
    assert ShiftRight(MAX_WORD, 32) == MAX_WORD;
  }

  /** The block is the network the rule names for exactly the prefixes other than 32. */
  lemma CidrExactUnless32(base: nat, prefix: nat)
    requires base < WORD && prefix <= 32
    ensures HostMask(prefix) < WORD
    ensures var (lo, hi) := CidrRange(base, prefix);
      (forall v :: 0 <= v < WORD ==> (lo <= v <= hi <==> SameNetwork(v, base, prefix))) <==> prefix != 32
  {
    if prefix == 32 {
      Cidr32CoversEverything(base);
      var other := if base == 0 then 1 else 0;
      assert 0 <= other <= MAX_WORD && !SameNetwork(other, base, 32);
    } else {
      MaskIsOnes(prefix);
      forall v | 0 <= v < WORD
        ensures var (lo, hi) := CidrRange(base, prefix); lo <= v <= hi <==> SameNetwork(v, base, prefix)
      {
        CidrCoversNetwork(base, prefix, v);
      }
    }
  }
}
