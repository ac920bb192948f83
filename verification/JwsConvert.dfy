/**
 Base64url without padding (section 5 of RFC 4648, Appendix C of RFC 7515) as `JwsConvert` and
 `BotProtectionService` compute it: the ordinary encoder, with signs stripped and replaced.
 */
module JwsConvert {
  import opened Folds
  import opened Wrappers

  type Byte = b: int | 0 <= b < 256
  type Sextet = v: int | 0 <= v < 64

  // ---------------------------------------------------------------- ordinary base64

  function CharOf(v: Sextet): char {
    if v < 26 then ('A' as int + v) as char
    else if v < 52 then ('a' as int + v - 26) as char
    else if v < 62 then ('0' as int + v - 52) as char
    else if v == 62 then '+' else '/'
  }

  function ValueOf(c: char): Option<Sextet> {
    if 'A' <= c <= 'Z' then Some(c as int - 'A' as int)
    else if 'a' <= c <= 'z' then Some(c as int - 'a' as int + 26)
    else if '0' <= c <= '9' then Some(c as int - '0' as int + 52)
    else if c == '+' then Some(62)
    else if c == '/' then Some(63)
    else None
  }

  lemma ValueOfChar(v: Sextet)
    ensures ValueOf(CharOf(v)) == Some(v)
    ensures CharOf(v) != '=' && CharOf(v) != '-' && CharOf(v) != '_' && CharOf(v) != '.'
  {
  }

  /** Three bytes as four sextets. */
  function Quad(a: Byte, b: Byte, c: Byte): string {
    [CharOf(a / 4), CharOf(a % 4 * 16 + b / 16), CharOf(b % 16 * 4 + c / 64), CharOf(c % 64)]
  }

  function Pair(a: Byte, b: Byte): string {
    [CharOf(a / 4), CharOf(a % 4 * 16 + b / 16), CharOf(b % 16 * 4)]
  }

  function Single(a: Byte): string {
    [CharOf(a / 4), CharOf(a % 4 * 16)]
  }

  /** `Convert.ToBase64String`. */
  function ToBase64(bytes: seq<Byte>): string {
    if bytes == [] then ""
    else if |bytes| == 1 then Single(bytes[0]) + "=="
    else if |bytes| == 2 then Pair(bytes[0], bytes[1]) + "="
    else Quad(bytes[0], bytes[1], bytes[2]) + ToBase64(bytes[3..])
  }

  /** The last four characters, one or two of which may be padding. */
  function LastQuad(s: string): Option<seq<Byte>>
    requires |s| == 4
  {
    var a, b, c, d := ValueOf(s[0]), ValueOf(s[1]), ValueOf(s[2]), ValueOf(s[3]);
    if a == None || b == None then None
    else if s[2] == '=' && s[3] == '=' then Some([a.value * 4 + b.value / 16])
    else if c == None then None
    else if s[3] == '=' then Some([a.value * 4 + b.value / 16, b.value % 16 * 16 + c.value / 4])
    else if d == None then None
    else Some([a.value * 4 + b.value / 16, b.value % 16 * 16 + c.value / 4, c.value % 4 * 64 + d.value])
  }

  /** `Convert.FromBase64String`; None is its exception. */
  function FromBase64(s: string): Option<seq<Byte>> {
    if |s| % 4 != 0 then None
    else if s == "" then Some([])
    else if |s| == 4 then LastQuad(s)
    else
      var first, rest := LastQuad(s[..4]), FromBase64(s[4..]);
      if first == None || |first.value| != 3 || rest == None then None else Some(first.value + rest.value)
  }

  lemma QuadDecodes(a: Byte, b: Byte, c: Byte)
    ensures LastQuad(Quad(a, b, c)) == Some([a, b, c])
  {
    ValueOfChar(a / 4);
    ValueOfChar(a % 4 * 16 + b / 16);
    ValueOfChar(b % 16 * 4 + c / 64);
    ValueOfChar(c % 64);
    QuadArithmetic(a, b, c);
  }

  lemma QuadArithmetic(a: Byte, b: Byte, c: Byte)
    ensures a / 4 * 4 + (a % 4 * 16 + b / 16) / 16 == a
    ensures (a % 4 * 16 + b / 16) % 16 * 16 + (b % 16 * 4 + c / 64) / 4 == b
    ensures (b % 16 * 4 + c / 64) % 4 * 64 + c % 64 == c
  {
  }

  lemma PairDecodes(a: Byte, b: Byte)
    ensures LastQuad(Pair(a, b) + "=") == Some([a, b])
  {
    ValueOfChar(a / 4);
    ValueOfChar(a % 4 * 16 + b / 16);
    ValueOfChar(b % 16 * 4);
    QuadArithmetic(a, b, 0);
  }

  lemma SingleDecodes(a: Byte)
    ensures LastQuad(Single(a) + "==") == Some([a])
  {
    ValueOfChar(a / 4);
    ValueOfChar(a % 4 * 16);
    QuadArithmetic(a, 0, 0);
  }

  lemma ShortDecodes(bytes: seq<Byte>)
    requires 1 <= |bytes| <= 2
    ensures |ToBase64(bytes)| == 4 && FromBase64(ToBase64(bytes)) == Some(bytes)
  {
    if |bytes| == 1 {
      SingleDecodes(bytes[0]);
      assert bytes == [bytes[0]];
    } else {
      PairDecodes(bytes[0], bytes[1]);
      assert bytes == [bytes[0], bytes[1]];
    }
  }

  lemma QuadThenRest(quad: string, rest: string)
    requires |quad| == 4 && |rest| % 4 == 0 && rest != ""
    ensures var first, more := LastQuad(quad), FromBase64(rest);
      FromBase64(quad + rest) ==
      if first == None || |first.value| != 3 || more == None then None else Some(first.value + more.value)
  {
    QuadComesFirst(quad, rest);
    LongText(quad + rest);
  }

  lemma QuadComesFirst(quad: string, rest: string)
    requires |quad| == 4
    ensures (quad + rest)[..4] == quad && (quad + rest)[4..] == rest
  {
  }

  lemma LongText(s: string)
    requires |s| > 4 && |s| % 4 == 0
    ensures var first, rest := LastQuad(s[..4]), FromBase64(s[4..]);
      FromBase64(s) == if first == None || |first.value| != 3 || rest == None then None else Some(first.value + rest.value)
  {
  }

  lemma {:induction false} Base64RoundTrip(bytes: seq<Byte>)
    ensures |ToBase64(bytes)| % 4 == 0 && (bytes != [] ==> ToBase64(bytes) != "")
    ensures FromBase64(ToBase64(bytes)) == Some(bytes)
  {
    if 1 <= |bytes| <= 2 {
      ShortDecodes(bytes);
    } else if |bytes| >= 3 {
      var quad, rest := Quad(bytes[0], bytes[1], bytes[2]), bytes[3..];
      Base64RoundTrip(rest);
      QuadDecodes(bytes[0], bytes[1], bytes[2]);
      assert [bytes[0], bytes[1], bytes[2]] + rest == bytes;
      if rest == [] {
        TakeAll(quad);
        assert ToBase64(bytes) == quad + "" == quad;
        assert bytes == [bytes[0], bytes[1], bytes[2]];
      } else {
        QuadThenRest(quad, ToBase64(rest));
      }
    }
  }

  // ---------------------------------------------------------------- stripped and replaced

  /** What is left of the encoding without its padding. */
  function Stripped(bytes: seq<Byte>): string {
    if bytes == [] then ""
    else if |bytes| == 1 then Single(bytes[0])
    else if |bytes| == 2 then Pair(bytes[0], bytes[1])
    else Quad(bytes[0], bytes[1], bytes[2]) + Stripped(bytes[3..])
  }

  function Padding(n: nat): string {
    if n % 4 == 2 then "==" else if n % 4 == 3 then "=" else ""
  }

  ghost predicate Plain(s: string) {
    forall i :: 0 <= i < |s| ==> s[i] != '=' && s[i] != '-' && s[i] != '_' && s[i] != '.'
  }

  lemma {:induction false} EncodingIsStrippedAndPadding(bytes: seq<Byte>)
    ensures ToBase64(bytes) == Stripped(bytes) + Padding(|Stripped(bytes)|)
    ensures Plain(Stripped(bytes)) && |Stripped(bytes)| % 4 != 1
    ensures bytes != [] ==> Stripped(bytes) != ""
  {
    if 1 <= |bytes| <= 2 {
      ShortIsPlain(bytes);
    } else if |bytes| >= 3 {
      EncodingIsStrippedAndPadding(bytes[3..]);
      QuadIsPlain(bytes[0], bytes[1], bytes[2]);
      QuadBeforePlain(Quad(bytes[0], bytes[1], bytes[2]), Stripped(bytes[3..]));
    }
  }

  lemma ShortIsPlain(bytes: seq<Byte>)
    requires 1 <= |bytes| <= 2
    ensures ToBase64(bytes) == Stripped(bytes) + Padding(|Stripped(bytes)|) && Plain(Stripped(bytes))
    ensures |Stripped(bytes)| == |bytes| + 1
  {
    QuadIsPlain(bytes[0], if |bytes| == 2 then bytes[1] else 0, 0);
  }

  lemma QuadBeforePlain(quad: string, rest: string)
    requires |quad| == 4 && Plain(quad) && Plain(rest)
    ensures quad + (rest + Padding(|rest|)) == (quad + rest) + Padding(|quad + rest|)
    ensures Plain(quad + rest) && |quad + rest| % 4 == |rest| % 4
  {
    ConcatAssociates(quad, rest, Padding(|rest|));
  }

  lemma QuadIsPlain(a: Byte, b: Byte, c: Byte)
    ensures Plain(Quad(a, b, c))
  {
    ValueOfChar(a / 4);
    ValueOfChar(a % 4 * 16 + b / 16);
    ValueOfChar(b % 16 * 4 + c / 64);
    ValueOfChar(c % 64);
  }

  /** The part before the first `=`, or all of it. */
  function BeforePadding(s: string): string {
    if s == "" || s[0] == '=' then "" else [s[0]] + BeforePadding(s[1..])
  }

  /** Without trailing `=` signs. */
  function TrimPadding(s: string): string {
    if s != "" && s[|s| - 1] == '=' then TrimPadding(s[..|s| - 1]) else s
  }

  function Replace(s: string, from: char, to: char): string {
    seq(|s|, i requires 0 <= i < |s| => if s[i] == from then to else s[i])
  }

  lemma {:induction false} BeforePaddingStops(s: string, n: nat)
    requires Plain(s)
    ensures BeforePadding(s + Padding(n)) == s
  {
    if s != "" {
      var t := s + Padding(n);
      assert t[0] == s[0] && t[1..] == s[1..] + Padding(n);
      BeforePaddingStops(s[1..], n);
    } else {
      assert s + Padding(n) == Padding(n);
    }
  }

  lemma TrimPaddingStops(s: string, n: nat)
    requires Plain(s)
    ensures TrimPadding(s + Padding(n)) == s
  {
    assert TrimPadding(s) == s;
    assert (s + "=")[..|s|] == s && TrimPadding(s + "=") == s;
    assert (s + "==")[..|s| + 1] == s + "=" && TrimPadding(s + "==") == s;
    TakeAll(s);
  }

  /** Replacing the two signs and replacing them back changes nothing. */
  lemma SignsComeBack(s: string)
    requires Plain(s)
    ensures var t := Replace(Replace(s, '+', '-'), '/', '_');
      |t| == |s| && Replace(Replace(t, '-', '+'), '_', '/') == s && '.' !in t
  {
  }

  /** `JwsConvert.ToBase64String`. */
  function Encode(bytes: seq<Byte>): string {
    Replace(Replace(BeforePadding(ToBase64(bytes)), '+', '-'), '/', '_')
  }

  /** `JwsConvert.FromBase64String`; None is an exception. */
  function Decode(data: string): Option<seq<Byte>> {
    var s := Replace(Replace(data, '-', '+'), '_', '/');
    if |s| % 4 == 0 then FromBase64(s)
    else if |s| % 4 == 2 then FromBase64(s + "==")
    else if |s| % 4 == 3 then FromBase64(s + "=")
    else None
  }

  /** The encoder of `BotProtectionService` trims the padding instead of splitting at it. */
  function EncodeTrimmed(bytes: seq<Byte>): string {
    Replace(Replace(TrimPadding(ToBase64(bytes)), '+', '-'), '/', '_')
  }

  /** Its decoder fills up to a multiple of four with padding, whatever the length. */
  function DecodeFilled(value: string): Option<seq<Byte>> {
    var s := Replace(Replace(value, '-', '+'), '_', '/');
    FromBase64(s + seq((4 - |s| % 4) % 4, _ => '='))
  }

  /** Both encoders agree on every byte sequence, and neither yields a length of 1 mod 4 or a dot. */
  lemma EncodersAgree(bytes: seq<Byte>)
    ensures Encode(bytes) == EncodeTrimmed(bytes)
    ensures |Encode(bytes)| % 4 != 1 && '.' !in Encode(bytes) && (bytes != [] ==> Encode(bytes) != "")
    ensures |Encode(bytes)| == |Stripped(bytes)|
  {
    var s := Stripped(bytes);
    EncodingIsStrippedAndPadding(bytes);
    BeforePaddingStops(s, |s|);
    TrimPaddingStops(s, |s|);
    SignsComeBack(s);
  }

  /** The encodings that section 10 of RFC 4648 lists. */
  lemma KnownEncodings()
    ensures ToBase64([102]) == "Zg==" && ToBase64([102, 111]) == "Zm8=" && ToBase64([102, 111, 111]) == "Zm9v"
    ensures Encode([102]) == "Zg"
  {
    assert [102, 111, 111][3..] == [];
    assert Single(102) + "==" == "Zg==" && Pair(102, 111) + "=" == "Zm8=" && Quad(102, 111, 111) + "" == "Zm9v";
    TwoBeforePadding();
  }

  lemma ThreeBytesEncode(a: Byte, b: Byte, c: Byte)
    ensures ToBase64([a, b, c]) == Quad(a, b, c)
  {
    assert [a, b, c][3..] == [] && Quad(a, b, c) + "" == Quad(a, b, c);
  }

  /** Two groups of three bytes, the same section. */
  lemma KnownLongEncoding()
    ensures ToBase64([102, 111, 111, 98, 97, 114]) == "Zm9vYmFy"
  {
    assert [102, 111, 111, 98, 97, 114][3..] == [98, 97, 114];
    ThreeBytesEncode(98, 97, 114);
    assert Quad(102, 111, 111) == "Zm9v" && Quad(98, 97, 114) == "YmFy" && "Zm9v" + "YmFy" == "Zm9vYmFy";
  }

  /** The two signs that base64url replaces. */
  lemma KnownSigns()
    ensures Encode([251, 255, 191]) == "-_-_"
  {
    assert [251, 255, 191][3..] == [] && Quad(251, 255, 191) + "" == "+/+/";
    FoursBeforePadding("+/+/");
  }

  lemma FoursBeforePadding(s: string)
    requires s == "+/+/"
    ensures BeforePadding(s) == s && Replace(Replace(s, '+', '-'), '/', '_') == "-_-_"
  {
    BeforePaddingStops(s, 0);
    assert s + Padding(0) == s;
  }

  lemma TwoBeforePadding()
    ensures BeforePadding("Zg==") == "Zg" && Replace(Replace("Zg", '+', '-'), '/', '_') == "Zg"
  {
    assert "Zg=="[1..] == "g==" && "g=="[1..] == "==";
    assert BeforePadding("==") == "" && BeforePadding("g==") == "g";
  }

  /** Decoding inverts encoding for every byte sequence. */
  lemma RoundTrip(bytes: seq<Byte>)
    ensures Decode(Encode(bytes)) == Some(bytes)
  {
    var s := Stripped(bytes);
    EncodingIsStrippedAndPadding(bytes);
    BeforePaddingStops(s, |s|);
    SignsComeBack(s);
    Base64RoundTrip(bytes);
    TakeAll(s);
  }

  /** The other decoder fills in the same padding wherever one of the two can succeed. */
  lemma DecodersAgree(data: string)
    ensures |data| % 4 != 1 ==> DecodeFilled(data) == Decode(data)
  {
    var s := Replace(Replace(data, '-', '+'), '_', '/');
    var fill := seq((4 - |s| % 4) % 4, _ => '=');
    if |s| % 4 == 0 {
      assert s + fill == s;
    } else if |s| % 4 == 2 {
      assert fill == "==";
    } else if |s| % 4 == 3 {
      assert fill == "=";
    }
  }

  lemma {:induction false} ThreePadsFail(s: string)
    requires |s| % 4 == 1
    ensures FromBase64(s + "===") == None
  {
    var t := s + "===";
    if |s| > 1 {
      assert t[4..] == s[4..] + "===";
      ThreePadsFail(s[4..]);
    }
  }

  /** A length of 1 mod 4 is refused by both. */
  lemma DecodersRefuseTheSame(data: string)
    ensures DecodeFilled(data) == Decode(data)
  {
    DecodersAgree(data);
    if |data| % 4 == 1 {
      var s := Replace(Replace(data, '-', '+'), '_', '/');
      assert seq((4 - |s| % 4) % 4, _ => '=') == "===";
      ThreePadsFail(s);
    }
  }
}
