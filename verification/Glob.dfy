/**
 `RateLimitEntry.WildcardMatch`: an iterative matcher that remembers only the last star, proved
 equal to the recursive meaning of a pattern.
 */
module Glob {
  /** What a pattern means: '*' stands for any text, every other character for itself up to case. */
  predicate Matches(fold: char -> char, input: string, pattern: string)
    decreases |input| + |pattern|
  {
    if pattern == "" then input == ""
    else if pattern[0] == '*' then
      Matches(fold, input, pattern[1..]) || (input != "" && Matches(fold, input[1..], pattern))
    else
      input != "" && fold(pattern[0]) == fold(input[0]) && Matches(fold, input[1..], pattern[1..])
  }

  /** The rest of the input matches the rest of the pattern. */
  predicate From(fold: char -> char, input: string, pattern: string, i: nat, p: nat)
    requires i <= |input| && p <= |pattern|
  {
    Matches(fold, input[i..], pattern[p..])
  }

  /** `n` pattern characters from `p` on are literals and equal the input from `i` on. */
  predicate LiteralRun(fold: char -> char, input: string, pattern: string, i: nat, p: nat, n: nat) {
    && i + n <= |input| && p + n <= |pattern|
    && forall m :: p <= m < p + n ==> pattern[m] != '*' && fold(pattern[m]) == fold(input[m - p + i])
  }

  lemma Unfold(fold: char -> char, input: string, pattern: string, i: nat, p: nat)
    requires i <= |input| && p < |pattern|
    ensures pattern[p] == '*' ==>
      (From(fold, input, pattern, i, p) <==>
        From(fold, input, pattern, i, p + 1) || (i < |input| && From(fold, input, pattern, i + 1, p)))
    ensures pattern[p] != '*' ==>
      (From(fold, input, pattern, i, p) <==>
        i < |input| && fold(pattern[p]) == fold(input[i]) && From(fold, input, pattern, i + 1, p + 1))
  {
    assert pattern[p..][1..] == pattern[p + 1..];
    if i < |input| { assert input[i..][1..] == input[i + 1..]; }
  }

  /** Some position from `mark` on lets the pattern from `q` on match. */
  ghost predicate SomeFrom(fold: char -> char, input: string, pattern: string, mark: nat, q: nat)
    requires q <= |pattern|
  {
    exists k :: mark <= k <= |input| && From(fold, input, pattern, k, q)
  }

  /** A star may be given any length. */
  lemma {:induction false} StarTakesAny(fold: char -> char, input: string, pattern: string, i: nat, p: nat)
    requires i <= |input| && p < |pattern| && pattern[p] == '*'
    ensures From(fold, input, pattern, i, p) <==> SomeFrom(fold, input, pattern, i, p + 1)
    decreases |input| - i
  {
    Unfold(fold, input, pattern, i, p);
    if i < |input| { StarTakesAny(fold, input, pattern, i + 1, p); }
  }

  /** Literals that already agree can be dropped from both sides. */
  lemma {:induction false} SkipLiterals(fold: char -> char, input: string, pattern: string, i: nat, p: nat, n: nat)
    requires LiteralRun(fold, input, pattern, i, p, n)
    ensures From(fold, input, pattern, i, p) <==> From(fold, input, pattern, i + n, p + n)
  {
    if n > 0 {
      Unfold(fold, input, pattern, i + n - 1, p + n - 1);
      SkipLiterals(fold, input, pattern, i, p, n - 1);
    }
  }

  /** Literals consume one character each. */
  lemma {:induction false} LiteralsConsume(fold: char -> char, input: string, pattern: string, i: nat, p: nat, n: nat)
    requires i <= |input| && p + n <= |pattern| && From(fold, input, pattern, i, p)
    requires forall m :: p <= m < p + n ==> pattern[m] != '*'
    ensures i + n <= |input| && From(fold, input, pattern, i + n, p + n)
  {
    if n > 0 {
      LiteralsConsume(fold, input, pattern, i, p, n - 1);
      Unfold(fold, input, pattern, i + n - 1, p + n - 1);
    }
  }

  /**
   Why one backtrack point is enough: when the literals after the last star have been placed as early
   as possible and a new star follows, any other placement is covered by the new star.
   */
  lemma NewStarForgetsOld(fold: char -> char, input: string, pattern: string, mark: nat, q: nat, i: nat, p: nat)
    requires q <= p < |pattern| && pattern[p] == '*' && i == mark + (p - q)
    requires LiteralRun(fold, input, pattern, mark, q, p - q)
    ensures SomeFrom(fold, input, pattern, mark, q) <==> SomeFrom(fold, input, pattern, i, p + 1)
  {
    StarTakesAny(fold, input, pattern, i, p);
    SkipLiterals(fold, input, pattern, mark, q, p - q);
    if SomeFrom(fold, input, pattern, mark, q) {
      var k :| mark <= k <= |input| && From(fold, input, pattern, k, q);
      LiteralsConsume(fold, input, pattern, k, q, p - q);
      StarTakesAny(fold, input, pattern, k + (p - q), p);
    }
  }

  /** When the current placement cannot go on, the next candidate is one position further. */
  lemma BacktrackLosesNothing(fold: char -> char, input: string, pattern: string, mark: nat, q: nat, i: nat, p: nat)
    requires q <= p <= |pattern| && i == mark + (p - q) && i < |input|
    requires LiteralRun(fold, input, pattern, mark, q, p - q)
    requires p == |pattern| || (pattern[p] != '*' && fold(pattern[p]) != fold(input[i]))
    ensures SomeFrom(fold, input, pattern, mark, q) <==> SomeFrom(fold, input, pattern, mark + 1, q)
  {
    SkipLiterals(fold, input, pattern, mark, q, p - q);
    if p < |pattern| { Unfold(fold, input, pattern, i, p); }
    assert !From(fold, input, pattern, mark, q);
  }

  /** At the end of the input the earliest placement is the only one left. */
  lemma EndOfInput(fold: char -> char, input: string, pattern: string, mark: nat, q: nat, p: nat)
    requires q <= p <= |pattern| && |input| == mark + (p - q)
    requires LiteralRun(fold, input, pattern, mark, q, p - q)
    ensures SomeFrom(fold, input, pattern, mark, q) <==> From(fold, input, pattern, |input|, p)
  {
    SkipLiterals(fold, input, pattern, mark, q, p - q);
    if SomeFrom(fold, input, pattern, mark, q) {
      var k :| mark <= k <= |input| && From(fold, input, pattern, k, q);
      LiteralsConsume(fold, input, pattern, k, q, p - q);
    }
  }

  /** What the loop knows: the goal is decided by the position alone, or by the candidates after the last star. */
  ghost predicate Tracks(fold: char -> char, input: string, pattern: string, i: nat, p: nat, star: int, mark: nat)
    requires i <= |input| && p <= |pattern|
  {
    if star < 0 then mark == 0 && (Matches(fold, input, pattern) <==> From(fold, input, pattern, i, p))
    else
      && star < p && pattern[star] == '*' && i == mark + (p - star - 1)
      && LiteralRun(fold, input, pattern, mark, star + 1, p - star - 1)
      && (Matches(fold, input, pattern) <==> SomeFrom(fold, input, pattern, mark, star + 1))
  }

  lemma StepLiteral(fold: char -> char, input: string, pattern: string, i: nat, p: nat, star: int, mark: nat)
    requires i < |input| && p < |pattern| && Tracks(fold, input, pattern, i, p, star, mark)
    requires pattern[p] != '*' && fold(pattern[p]) == fold(input[i])
    ensures Tracks(fold, input, pattern, i + 1, p + 1, star, mark)
  {
    Unfold(fold, input, pattern, i, p);
  }

  lemma StepStar(fold: char -> char, input: string, pattern: string, i: nat, p: nat, star: int, mark: nat)
    requires i <= |input| && p < |pattern| && Tracks(fold, input, pattern, i, p, star, mark)
    requires pattern[p] == '*'
    ensures Tracks(fold, input, pattern, i, p + 1, p, i)
  {
    if star >= 0 {
      NewStarForgetsOld(fold, input, pattern, mark, star + 1, i, p);
    } else {
      StarTakesAny(fold, input, pattern, i, p);
    }
  }

  lemma StepBack(fold: char -> char, input: string, pattern: string, i: nat, p: nat, star: nat, mark: nat)
    requires i < |input| && p <= |pattern| && Tracks(fold, input, pattern, i, p, star, mark)
    requires p == |pattern| || (pattern[p] != '*' && fold(pattern[p]) != fold(input[i]))
    ensures Tracks(fold, input, pattern, mark + 1, star + 1, star, mark + 1)
  {
    BacktrackLosesNothing(fold, input, pattern, mark, star + 1, i, p);
  }

  method WildcardMatch(fold: char -> char, input: string, pattern: string) returns (matched: bool)
    ensures matched <==> Matches(fold, input, pattern)
  {
    var i, p, star, mark := 0, 0, -1, 0;
    assert Tracks(fold, input, pattern, 0, 0, -1, 0) by {
      assert input[0..] == input && pattern[0..] == pattern;
    }
    while i < |input|
      invariant 0 <= mark <= i <= |input| && -1 <= star <= p && 0 <= p <= |pattern|
      invariant Tracks(fold, input, pattern, i, p, star, mark)
      decreases |input| - mark, |pattern| - star, |input| - i
    {
      if p < |pattern| && pattern[p] != '*' && fold(pattern[p]) == fold(input[i]) {
        StepLiteral(fold, input, pattern, i, p, star, mark);
        i, p := i + 1, p + 1;
      } else if p < |pattern| && pattern[p] == '*' {
        StepStar(fold, input, pattern, i, p, star, mark);
        star, p := p, p + 1;
        mark := i;
      } else if star >= 0 {
        StepBack(fold, input, pattern, i, p, star, mark);
        mark := mark + 1;
        p, i := star + 1, mark;
      } else {
        if p < |pattern| { Unfold(fold, input, pattern, i, p); }
        return false;
      }
    }
    if star >= 0 { EndOfInput(fold, input, pattern, mark, star + 1, p); }
    matched := SkipTrailingStars(fold, input, pattern, p);
  }

  /** The tail of the matcher: with the input used up, only stars may remain. */
  method SkipTrailingStars(fold: char -> char, input: string, pattern: string, start: nat) returns (matched: bool)
    requires start <= |pattern|
    ensures matched <==> From(fold, input, pattern, |input|, start)
  {
    var p := start;
    while p < |pattern| && pattern[p] == '*'
      invariant start <= p <= |pattern|
      invariant From(fold, input, pattern, |input|, start) <==> From(fold, input, pattern, |input|, p)
    {
      Unfold(fold, input, pattern, |input|, p);
      p := p + 1;
    }
    if p < |pattern| { Unfold(fold, input, pattern, |input|, p); }
    return p == |pattern|;
  }
}
