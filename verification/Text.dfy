/** The few string operations the models share. Character classes and case folding are parameters. */
module Text {
  /** Index of the first `c`, or -1. */
  function IndexOf(s: string, c: char): (i: int)
    ensures -1 <= i < |s|
    ensures i < 0 ==> c !in s
    ensures i >= 0 ==> s[i] == c && c !in s[..i]
  {
    if s == "" then -1
    else if s[0] == c then 0
    else
      var i := IndexOf(s[1..], c);
      if i < 0 then -1
      else
        assert forall k :: 1 <= k <= i ==> s[k] == s[1..][k - 1];
        assert forall k :: 0 <= k < i ==> s[1..][..i][k] == s[1..][k];
        i + 1
  }

  lemma {:induction false} FirstIndex(s: string, c: char, k: nat)
    requires k < |s| && s[k] == c && forall j :: 0 <= j < k ==> s[j] != c
    ensures IndexOf(s, c) == k
  {
    if k > 0 { FirstIndex(s[1..], c, k - 1); }
  }

  lemma CutGivesIndex(x: string, c: char, y: string)
    requires c !in x
    ensures var s := x + [c] + y; IndexOf(s, c) == |x| && s[..|x|] == x && s[|x| + 1..] == y
  {
    var s := x + [c] + y;
    assert s[|x|] == c && forall j :: 0 <= j < |x| ==> s[j] == x[j];
    FirstIndex(s, c, |x|);
  }

  lemma IndexGivesCut(s: string, c: char)
    requires IndexOf(s, c) >= 0
    ensures var i := IndexOf(s, c); s == s[..i] + [c] + s[i + 1..] && c !in s[..i]
  {
  }

  /** Index of the last `c`, or -1. */
  function LastIndexOf(s: string, c: char): (i: int)
    ensures -1 <= i < |s|
    ensures i < 0 ==> c !in s
    ensures i >= 0 ==> s[i] == c && c !in s[i + 1..]
  {
    if s == "" then -1
    else if s[|s| - 1] == c then |s| - 1
    else
      var i := LastIndexOf(s[..|s| - 1], c);
      assert i >= 0 ==> s[i + 1..] == s[..|s| - 1][i + 1..] + [s[|s| - 1]];
      i
  }

  /** Nothing but white space. */
  predicate Blank(s: string, isWhite: char -> bool) { forall i :: 0 <= i < |s| ==> isWhite(s[i]) }

  function TrimStart(s: string, isWhite: char -> bool): (t: string)
    ensures t != "" ==> !isWhite(t[0])
  {
    if s != "" && isWhite(s[0]) then TrimStart(s[1..], isWhite) else s
  }

  function TrimEnd(s: string, isWhite: char -> bool): (t: string)
    ensures t != "" ==> !isWhite(t[|t| - 1]) && s != "" && t[0] == s[0]
  {
    if s != "" && isWhite(s[|s| - 1]) then TrimEnd(s[..|s| - 1], isWhite) else s
  }

  function Trim(s: string, isWhite: char -> bool): (t: string)
    ensures t != "" ==> !isWhite(t[0]) && !isWhite(t[|t| - 1])
  {
    var u := TrimStart(s, isWhite);
    TrimEnd(u, isWhite)
  }

  /** `t` is `raw` without the white space around it. */
  ghost predicate Core(raw: string, t: string, isWhite: char -> bool) {
    && (t != "" ==> !isWhite(t[0]) && !isWhite(t[|t| - 1]))
    && exists before, after :: raw == before + t + after && Blank(before, isWhite) && Blank(after, isWhite)
  }

  lemma {:induction false} TrimStartIs(s: string, isWhite: char -> bool)
    ensures exists before :: s == before + TrimStart(s, isWhite) && Blank(before, isWhite)
  {
    if s != "" && isWhite(s[0]) {
      TrimStartIs(s[1..], isWhite);
      var before :| s[1..] == before + TrimStart(s[1..], isWhite) && Blank(before, isWhite);
      assert s == ([s[0]] + before) + TrimStart(s, isWhite);
      assert Blank([s[0]] + before, isWhite);
    } else {
      assert s == "" + TrimStart(s, isWhite);
    }
  }

  lemma {:induction false} TrimEndIs(s: string, isWhite: char -> bool)
    ensures exists after :: s == TrimEnd(s, isWhite) + after && Blank(after, isWhite)
  {
    if s != "" && isWhite(s[|s| - 1]) {
      var front := s[..|s| - 1];
      TrimEndIs(front, isWhite);
      var after :| front == TrimEnd(front, isWhite) + after && Blank(after, isWhite);
      assert s == TrimEnd(s, isWhite) + (after + [s[|s| - 1]]);
      assert Blank(after + [s[|s| - 1]], isWhite);
    } else {
      assert s == TrimEnd(s, isWhite) + "";
    }
  }

  lemma TrimIsCore(raw: string, isWhite: char -> bool)
    ensures Core(raw, Trim(raw, isWhite), isWhite)
  {
    var u := TrimStart(raw, isWhite);
    TrimStartIs(raw, isWhite);
    TrimEndIs(u, isWhite);
    var before :| raw == before + u && Blank(before, isWhite);
    var after :| u == TrimEnd(u, isWhite) + after && Blank(after, isWhite);
    assert raw == before + Trim(raw, isWhite) + after;
  }

  lemma BlankPart(s: string, w: char -> bool, before: string, t: string, after: string)
    requires s == before + t + after && Blank(s, w) && t != ""
    ensures w(t[0])
  {
    assert s[|before|] == t[0];
  }

  /** The white space before one text cannot reach into the other. */
  lemma NotBefore(w: char -> bool, b1: string, t1: string, a1: string, b2: string, rest: string)
    requires b1 + t1 + a1 == b2 + rest && Blank(b2, w) && t1 != "" && !w(t1[0])
    ensures |b2| <= |b1|
  {
    assert (b1 + t1 + a1)[|b1|] == t1[0];
  }

  lemma NotBehind(w: char -> bool, b1: string, t1: string, a1: string, rest: string, a2: string)
    requires b1 + t1 + a1 == rest + a2 && Blank(a2, w) && t1 != "" && !w(t1[|t1| - 1])
    ensures |a2| <= |a1|
  {
    assert (b1 + t1 + a1)[|b1 + t1| - 1] == t1[|t1| - 1];
  }

  lemma BlankHasNoCore(raw: string, t: string, isWhite: char -> bool)
    requires Core(raw, t, isWhite) && Blank(raw, isWhite)
    ensures t == ""
  {
    var before, after :| raw == before + t + after && Blank(before, isWhite) && Blank(after, isWhite);
    if t != "" { BlankPart(raw, isWhite, before, t, after); }
  }

  lemma SameCore(raw: string, b1: string, t: string, a1: string, b2: string, u: string, a2: string, isWhite: char -> bool)
    requires t != "" && u != "" && !isWhite(t[0]) && !isWhite(u[0])
    requires !isWhite(t[|t| - 1]) && !isWhite(u[|u| - 1])
    requires raw == b1 + t + a1 && Blank(b1, isWhite) && Blank(a1, isWhite)
    requires raw == b2 + u + a2 && Blank(b2, isWhite) && Blank(a2, isWhite)
    ensures t == u
  {
    assert raw == b1 + (t + a1) && raw == b2 + (u + a2);
    NotBefore(isWhite, b1, t, a1, b2, u + a2);
    NotBefore(isWhite, b2, u, a2, b1, t + a1);
    NotBehind(isWhite, b1, t, a1, b2 + u, a2);
    NotBehind(isWhite, b2, u, a2, b1 + t, a1);
    assert t == raw[|b1|..|raw| - |a1|] == u;
  }

  lemma CoreIsUnique(raw: string, t: string, u: string, isWhite: char -> bool)
    requires Core(raw, t, isWhite) && Core(raw, u, isWhite)
    ensures t == u
  {
    var b1, a1 :| raw == b1 + t + a1 && Blank(b1, isWhite) && Blank(a1, isWhite);
    var b2, a2 :| raw == b2 + u + a2 && Blank(b2, isWhite) && Blank(a2, isWhite);
    if t == "" || u == "" {
      assert Blank(raw, isWhite);
      BlankHasNoCore(raw, t, isWhite);
      BlankHasNoCore(raw, u, isWhite);
    } else {
      SameCore(raw, b1, t, a1, b2, u, a2, isWhite);
    }
  }

  lemma CoreIsTrim(raw: string, t: string, isWhite: char -> bool)
    ensures Core(raw, t, isWhite) <==> t == Trim(raw, isWhite)
  {
    TrimIsCore(raw, isWhite);
    if Core(raw, t, isWhite) { CoreIsUnique(raw, t, Trim(raw, isWhite), isWhite); }
  }

  /** Case folding, character by character. */
  function FoldWith(s: string, fold: char -> char): (t: string)
    ensures |t| == |s| && forall i :: 0 <= i < |s| ==> t[i] == fold(s[i])
  {
    seq(|s|, i requires 0 <= i < |s| => fold(s[i]))
  }
}
