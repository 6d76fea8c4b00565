/**
The matcher behind the `pattern` column of the grep table: a greedy loop that remembers
only the last `%` it passed, against the meaning of `<like predicate>` in section 8.5 of
ISO/IEC 9075-2:2003, on case-folded strings and without an escape character.
*/
module Like {

  // ------------------------------------------------------------ case folding

  /** `tolower` in the C locale. */
  function LowerChar(c: char): char {
    if 'A' <= c <= 'Z' then (c as int + 32) as char else c
  }

  function Lower(s: string): (r: string)
    ensures |r| == |s|
    ensures forall i :: 0 <= i < |r| ==> r[i] == LowerChar(s[i])
  {
    seq(|s|, i requires 0 <= i < |s| => LowerChar(s[i]))
  }

  method ToLower(text: string) returns (s: string)
    ensures s == Lower(text)
    ensures |s| == |text| && forall i :: 0 <= i < |s| ==> SameLetter(s[i], text[i]) && !('A' <= s[i] <= 'Z')
  {
    s := text;
    for i := 0 to |text|
      invariant |s| == |text|
      invariant forall j :: 0 <= j < i ==> s[j] == LowerChar(text[j])
      invariant forall j :: i <= j < |text| ==> s[j] == text[j]
    {
      s := s[i := LowerChar(s[i])];
    }
  }

  // ------------------------------------------------------------ what LIKE means

  predicate MatchesChar(p: char, c: char) {
    p == '_' || p == c
  }

  /** `%` stands for any run of characters, `_` for any one, every other character for itself. */
  ghost predicate LikeHolds(t: string, p: string)
    decreases |p|
  {
    if p == "" then t == ""
    else if p[0] == '%' then exists k :: 0 <= k <= |t| && LikeHolds(t[k..], p[1..])
    else t != "" && MatchesChar(p[0], t[0]) && LikeHolds(t[1..], p[1..])
  }

  // ------------------------------------------------------------ what the loop computes

  /**
  The loop's own reading of a pattern, from `t[ti]` and `p[pi]` on. It differs from LIKE
  where a `%` of the pattern meets a `%` of the text: the two are matched literally, and
  that `%` no longer stands for a run.
  */
  ghost predicate Greedy(t: string, ti: nat, p: string, pi: nat)
    requires ti <= |t| && pi <= |p|
    decreases |p| - pi, 0
  {
    if pi == |p| then ti == |t|
    else if ti == |t| then p[pi] == '%' && Greedy(t, ti, p, pi + 1)
    else if MatchesChar(p[pi], t[ti]) then Greedy(t, ti + 1, p, pi + 1)
    else p[pi] == '%' && GreedyFrom(t, ti, p, pi + 1)
  }

  /** The rest of the pattern matches from some position at or after `from`. */
  ghost predicate GreedyFrom(t: string, from: nat, p: string, pi: nat)
    requires pi <= |p|
    decreases |p| - pi, 1
  {
    exists k :: from <= k <= |t| && Greedy(t, k, p, pi)
  }

  /** `p[p0..pi]` matches `t[t0..]` character by character. */
  ghost predicate Literal(t: string, t0: nat, p: string, p0: nat, pi: nat)
    requires p0 <= pi <= |p| && t0 + (pi - p0) <= |t|
  {
    forall j :: p0 <= j < pi ==> MatchesChar(p[j], t[t0 + (j - p0)])
  }

  /**
  Why earlier `%`s need not be revisited. The loop has come from `(t0, p0)` to `pi`
  character by character. Any other way to get from `p0` on, starting no earlier in the
  text, reaches `pi` no earlier than the loop did.
  */
  lemma {:induction false} NoEarlier(t: string, t0: nat, p: string, p0: nat, pi: nat, a: nat, x: nat)
    requires p0 <= a <= pi <= |p| && t0 + (pi - p0) <= |t|
    requires Literal(t, t0, p, p0, pi)
    requires t0 + (a - p0) <= x <= |t| && Greedy(t, x, p, a)
    ensures GreedyFrom(t, t0 + (pi - p0), p, pi)
    decreases pi - a
  {
    if a == pi {
    } else if x == |t| {
      NoEarlier(t, t0, p, p0, pi, a + 1, x);
    } else if MatchesChar(p[a], t[x]) {
      NoEarlier(t, t0, p, p0, pi, a + 1, x + 1);
    } else {
      var k :| x <= k <= |t| && Greedy(t, k, p, a + 1);
      assert MatchesChar(p[a], t[t0 + (a - p0)]);
      NoEarlier(t, t0, p, p0, pi, a + 1, k);
    }
  }

  /** The second `%` covers whatever the first could still try. */
  lemma LastStarSuffices(t: string, t0: nat, p: string, p0: nat, pi: nat)
    requires p0 <= pi < |p| && p[pi] == '%' && t0 + (pi - p0) <= |t|
    requires Literal(t, t0, p, p0, pi)
    requires GreedyFrom(t, t0, p, p0)
    ensures GreedyFrom(t, t0 + (pi - p0), p, pi + 1)
  {
    var x :| t0 <= x <= |t| && Greedy(t, x, p, p0);
    NoEarlier(t, t0, p, p0, pi, p0, x);
    var k :| t0 + (pi - p0) <= k <= |t| && Greedy(t, k, p, pi);
    assert k == |t| || p[pi] == t[k] || GreedyFrom(t, k, p, pi + 1);
  }

  /** At the end of the text the current attempt succeeds if any could. */
  lemma LastAttemptSuffices(t: string, t0: nat, p: string, p0: nat, pi: nat)
    requires p0 <= pi <= |p| && t0 + (pi - p0) == |t|
    requires Literal(t, t0, p, p0, pi)
    requires GreedyFrom(t, t0, p, p0)
    ensures Greedy(t, |t|, p, pi)
  {
    var x :| t0 <= x <= |t| && Greedy(t, x, p, p0);
    NoEarlier(t, t0, p, p0, pi, p0, x);
  }

  lemma GreedyFromStep(t: string, from: nat, p: string, pi: nat)
    requires pi <= |p| && from < |t|
    ensures GreedyFrom(t, from, p, pi) <==> Greedy(t, from, p, pi) || GreedyFrom(t, from + 1, p, pi)
  {
  }

  /** The matcher as a function of its arguments. */
  ghost predicate Matches(text: string, pattern: string) {
    Greedy(Lower(text), 0, Lower(pattern), 0)
  }

  /** `a * b`, by addition. */
  ghost function Times(a: nat, b: nat): nat {
    if a == 0 then 0 else b + Times(a - 1, b)
  }

  lemma {:induction false} TimesIsProduct(a: nat, b: nat)
    ensures Times(a, b) == a * b
  {
    if a == 0 {
    } else {
      TimesIsProduct(a - 1, b);
      assert a * b == b + (a - 1) * b;
    }
  }

  lemma {:induction false} TimesGrows(a: nat, c: nat, b: nat)
    requires a <= c
    ensures Times(a, b) <= Times(c, b)
    ensures a < c ==> Times(a, b) + b <= Times(c, b)
    decreases c
  {
    if a == c {
    } else {
      TimesGrows(a, c - 1, b);
    }
  }

  /** Bounds the iterations still to come. */
  ghost function Remaining(n: nat, m: nat, retry: nat, pi: nat): nat
    requires retry <= n && pi <= m
  {
    Times(n - retry, m + 1) + (m - pi)
  }

  lemma RemainingFalls(n: nat, m: nat, retry: nat, retry': nat, pi: nat, pi': nat)
    requires retry <= retry' <= n && pi <= m && pi' <= m
    requires retry == retry' ==> pi < pi'
    ensures Remaining(n, m, retry', pi') < Remaining(n, m, retry, pi)
  {
    TimesGrows(n - retry', n - retry, m + 1);
  }

  lemma RemainingAtStart(n: nat, m: nat)
    ensures Remaining(n, m, 0, 0) == n * (m + 1) + m
  {
    TimesIsProduct(n, m + 1);
  }

  const NPOS := -1

  /** The verdict still open to the loop: the current attempt, or a later start after the last `%`. */
  ghost predicate Open(t: string, ti: nat, p: string, pi: nat, star: int, retry: nat)
    requires ti <= |t| && pi <= |p| && star < pi
  {
    Greedy(t, ti, p, pi) || (star >= 0 && GreedyFrom(t, retry + 1, p, star + 1))
  }

  /** How the loop got where it is. */
  ghost predicate Position(t: string, ti: nat, p: string, pi: nat, star: int, retry: nat) {
    && ti <= |t| && pi <= |p| && NPOS <= star < pi && retry <= ti
    && (star >= 0 ==> ti == retry + (pi - (star + 1)) && Literal(t, retry, p, star + 1, pi))
  }

  lemma PassLiteral(t: string, ti: nat, p: string, pi: nat, star: int, retry: nat)
    requires Position(t, ti, p, pi, star, retry) && ti < |t| && pi < |p|
    requires MatchesChar(p[pi], t[ti])
    ensures Position(t, ti + 1, p, pi + 1, star, retry)
    ensures Open(t, ti, p, pi, star, retry) <==> Open(t, ti + 1, p, pi + 1, star, retry)
    ensures Remaining(|t|, |p|, retry, pi + 1) < Remaining(|t|, |p|, retry, pi)
  {
    RemainingFalls(|t|, |p|, retry, retry, pi, pi + 1);
  }

  lemma PassStar(t: string, ti: nat, p: string, pi: nat, star: int, retry: nat)
    requires Position(t, ti, p, pi, star, retry) && ti < |t| && pi < |p|
    requires p[pi] == '%' && t[ti] != '%'
    ensures Position(t, ti, p, pi + 1, pi, ti)
    ensures Open(t, ti, p, pi, star, retry) <==> Open(t, ti, p, pi + 1, pi, ti)
    ensures Remaining(|t|, |p|, ti, pi + 1) < Remaining(|t|, |p|, retry, pi)
  {
    RemainingFalls(|t|, |p|, retry, ti, pi, pi + 1);
    if star >= 0 && GreedyFrom(t, retry + 1, p, star + 1) {
      LastStarSuffices(t, retry, p, star + 1, pi);
    }
    GreedyFromStep(t, ti, p, pi + 1);
  }

  lemma Backtrack(t: string, ti: nat, p: string, pi: nat, star: int, retry: nat)
    requires Position(t, ti, p, pi, star, retry) && ti < |t| && star >= 0
    requires pi < |p| ==> !MatchesChar(p[pi], t[ti]) && p[pi] != '%'
    ensures Position(t, retry + 1, p, star + 1, star, retry + 1)
    ensures Open(t, ti, p, pi, star, retry) <==> Open(t, retry + 1, p, star + 1, star, retry + 1)
    ensures Remaining(|t|, |p|, retry + 1, star + 1) < Remaining(|t|, |p|, retry, pi)
  {
    RemainingFalls(|t|, |p|, retry, retry + 1, pi, star + 1);
    if retry + 1 < |t| { GreedyFromStep(t, retry + 1, p, star + 1); }
  }

  lemma EndOfText(t: string, p: string, pi: nat, star: int, retry: nat)
    requires Position(t, |t|, p, pi, star, retry)
    ensures Open(t, |t|, p, pi, star, retry) <==> Greedy(t, |t|, p, pi)
  {
    if star >= 0 && GreedyFrom(t, retry + 1, p, star + 1) {
      LastAttemptSuffices(t, retry, p, star + 1, pi);
    }
  }

  method LikeMatch(text_in: string, pattern_in: string) returns (matched: bool, ghost iterations: nat)
    ensures matched <==> Matches(text_in, pattern_in)
    ensures matched ==> HasReading(text_in, pattern_in)
    ensures '%' !in text_in ==> (matched <==> HasReading(text_in, pattern_in))
    ensures iterations <= |text_in| * (|pattern_in| + 1) + |pattern_in|
  {
    var text := ToLower(text_in);
    var pattern := ToLower(pattern_in);
    matched, iterations := Scan(text, pattern);
    RemainingAtStart(|text|, |pattern|);
    MatchesMeans(text_in, pattern_in);
  }

  /** The two loops, on the case-folded strings. */
  method Scan(text: string, pattern: string) returns (matched: bool, ghost iterations: nat)
    ensures matched <==> Greedy(text, 0, pattern, 0)
    ensures iterations <= Remaining(|text|, |pattern|, 0, 0)
  {
    var ti: nat, pi: nat, star: int, retry: nat := 0, 0, NPOS, 0;
    ghost var total := Remaining(|text|, |pattern|, 0, 0);
    iterations := 0;
    while ti < |text|
      invariant Position(text, ti, pattern, pi, star, retry)
      invariant Greedy(text, 0, pattern, 0) <==> Open(text, ti, pattern, pi, star, retry)
      invariant iterations + Remaining(|text|, |pattern|, retry, pi) <= total
      decreases Remaining(|text|, |pattern|, retry, pi)
    {
      iterations := iterations + 1;
      if pi < |pattern| && (pattern[pi] == '_' || pattern[pi] == text[ti]) {
        PassLiteral(text, ti, pattern, pi, star, retry);
        ti := ti + 1;
        pi := pi + 1;
      } else if pi < |pattern| && pattern[pi] == '%' {
        PassStar(text, ti, pattern, pi, star, retry);
        star := pi;
        pi := pi + 1;
        retry := ti;
      } else if star != NPOS {
        Backtrack(text, ti, pattern, pi, star, retry);
        pi := star + 1;
        retry := retry + 1;
        ti := retry;
      } else {
        return false, iterations;
      }
    }
    EndOfText(text, pattern, pi, star, retry);
    while pi < |pattern| && pattern[pi] == '%'
      invariant pi <= |pattern|
      invariant Greedy(text, 0, pattern, 0) <==> Greedy(text, |text|, pattern, pi)
    {
      pi := pi + 1;
    }
    matched := pi == |pattern|;
  }

  // ------------------------------------------------------------ the loop against LIKE

  /** What the loop accepts, LIKE accepts. */
  lemma {:induction false} Sound(t: string, ti: nat, p: string, pi: nat)
    requires ti <= |t| && pi <= |p| && Greedy(t, ti, p, pi)
    ensures LikeHolds(t[ti..], p[pi..])
    decreases |p| - pi
  {
    if pi == |p| {
    } else {
      assert p[pi..][1..] == p[pi + 1..];
      var k :| ti <= k <= |t| && Greedy(t, k, p, pi + 1) && (k == ti + 1 || p[pi] == '%') &&
               (k == ti + 1 && p[pi] != '%' ==> MatchesChar(p[pi], t[ti]));
      Sound(t, k, p, pi + 1);
      assert t[ti..][k - ti..] == t[k..];
    }
  }

  /** What LIKE accepts, the loop accepts, when there is no `%` in the text. */
  lemma {:induction false} Complete(t: string, ti: nat, p: string, pi: nat)
    requires ti <= |t| && pi <= |p| && LikeHolds(t[ti..], p[pi..])
    requires '%' !in t
    ensures Greedy(t, ti, p, pi)
    decreases |p| - pi
  {
    if pi == |p| {
    } else {
      assert p[pi..][1..] == p[pi + 1..];
      if p[pi] == '%' {
        var k :| 0 <= k <= |t[ti..]| && LikeHolds(t[ti..][k..], p[pi..][1..]);
        assert t[ti..][k..] == t[ti + k..];
        Complete(t, ti + k, p, pi + 1);
        assert ti < |t| ==> t[ti] in t;
      } else {
        assert t[ti..][1..] == t[ti + 1..];
        Complete(t, ti + 1, p, pi + 1);
      }
    }
  }

  lemma LowerKeepsPercent(s: string)
    ensures '%' in Lower(s) <==> '%' in s
    ensures forall i :: 0 <= i < |s| ==> (Lower(s)[i] == '%' <==> s[i] == '%')
  {
    if i :| 0 <= i < |s| && s[i] == '%' { assert Lower(s)[i] == '%'; }
  }

  /** For every pair of strings: an accepted text is LIKE the pattern. */
  lemma MatchesIsSound(text: string, pattern: string)
    ensures Matches(text, pattern) ==> LikeHolds(Lower(text), Lower(pattern))
  {
    if Matches(text, pattern) {
      Sound(Lower(text), 0, Lower(pattern), 0);
      assert Lower(text)[0..] == Lower(text) && Lower(pattern)[0..] == Lower(pattern);
    }
  }

  lemma MatchesIsComplete(text: string, pattern: string)
    requires '%' !in text
    ensures LikeHolds(Lower(text), Lower(pattern)) ==> Matches(text, pattern)
  {
    LowerKeepsPercent(text);
    if LikeHolds(Lower(text), Lower(pattern)) {
      assert Lower(text)[0..] == Lower(text) && Lower(pattern)[0..] == Lower(pattern);
      Complete(Lower(text), 0, Lower(pattern), 0);
    }
  }

  ghost predicate Agree(text: string, pattern: string) {
    Matches(text, pattern) <==> LikeHolds(Lower(text), Lower(pattern))
  }

  /** Without a `%` left in the pattern, text and pattern must be equally long. */
  lemma {:induction false} NoPercentMeansSameLength(t: string, ti: nat, p: string, pi: nat)
    requires ti <= |t| && pi <= |p| && Greedy(t, ti, p, pi)
    requires forall j :: pi <= j < |p| ==> p[j] != '%'
    ensures |t| - ti == |p| - pi
    decreases |p| - pi
  {
    if pi == |p| {
    } else {
      NoPercentMeansSameLength(t, ti + 1, p, pi + 1);
    }
  }

  /** While pattern and text agree character by character the loop has no choice. */
  lemma {:induction false} GreedyFollowsLiteral(t: string, p: string, n: nat)
    requires n <= |p| && n <= |t| && Literal(t, 0, p, 0, n)
    ensures Greedy(t, 0, p, 0) <==> Greedy(t, n, p, n)
    decreases n
  {
    if n == 0 {
    } else {
      GreedyFollowsLiteral(t, p, n - 1);
      assert MatchesChar(p[n - 1], t[n - 1]);
    }
  }

  lemma {:induction false} LikeLiteral(t: string, p: string)
    requires |t| == |p| && forall i :: 0 <= i < |p| ==> p[i] == '%' || MatchesChar(p[i], t[i])
    ensures LikeHolds(t, p)
    decreases |p|
  {
    if p == "" {
    } else {
      LikeLiteral(t[1..], p[1..]);
    }
  }

  /** A `%` inserted anywhere in a pattern may match nothing. */
  lemma {:induction false} LikeEmptyRun(t: string, p: string, q: string)
    requires LikeHolds(t, p + q)
    ensures LikeHolds(t, p + "%" + q)
    decreases |p|
  {
    var r := p + "%" + q;
    if p == "" {
      assert t[0..] == t && r[1..] == p + q;
    } else {
      assert (p + q)[1..] == p[1..] + q && r[1..] == p[1..] + "%" + q;
      if p[0] == '%' {
        var k :| 0 <= k <= |t| && LikeHolds(t[k..], (p + q)[1..]);
        LikeEmptyRun(t[k..], p[1..], q);
      } else {
        LikeEmptyRun(t[1..], p[1..], q);
      }
    }
  }

  function Blanks(n: nat): (s: string)
    ensures |s| == n && forall i :: 0 <= i < n ==> s[i] == '_'
  {
    seq(n, _ => '_')
  }

  /** For a text with `%` at `m`, the pattern that shows the difference. */
  lemma TextWithPercentFails(text: string, m: nat)
    requires m < |text| && text[m] == '%'
    ensures !Agree(text, Blanks(m) + "%" + Blanks(|text| - m))
  {
    var t, a, b := Lower(text), Blanks(m), Blanks(|text| - m);
    var p := a + "%" + b;
    assert Lower(p) == p;
    LikeLiteral(t, a + b);
    LikeEmptyRun(t, a, b);
    assert MatchesChar(p[m], t[m]);
    GreedyFollowsLiteral(t, p, m + 1);
    if Greedy(t, m + 1, p, m + 1) { NoPercentMeansSameLength(t, m + 1, p, m + 1); }
  }

  /** The matcher agrees with LIKE on a text, whatever the pattern, exactly if the text has no `%`. */
  lemma AgreesOnTextIff(text: string)
    ensures (forall pattern :: Agree(text, pattern)) <==> '%' !in text
  {
    if '%' !in text {
      forall pattern
        ensures Agree(text, pattern)
      {
        MatchesIsSound(text, pattern);
        MatchesIsComplete(text, pattern);
      }
    } else {
      var m :| 0 <= m < |text| && text[m] == '%';
      TextWithPercentFails(text, m);
    }
  }

  /** LIKE lets a `%` stand for one character too. */
  lemma LikeOneMore(x: char, t: string, c: char, p: string)
    requires LikeHolds(t, p) && (c == '%' || MatchesChar(c, x))
    ensures LikeHolds([x] + t, [c] + p)
  {
    assert ([x] + t)[1..] == t && ([c] + p)[1..] == p;
  }

  lemma {:induction false} LikeGrows(t: string, u: string, p: string, q: string)
    requires |t| == |p| && forall i :: 0 <= i < |p| ==> p[i] == '%' || MatchesChar(p[i], t[i])
    requires LikeHolds(u, q)
    ensures LikeHolds(t + u, p + q)
    decreases |p|
  {
    if p == "" {
      assert t + u == u && p + q == q;
    } else {
      LikeGrows(t[1..], u, p[1..], q);
      LikeOneMore(t[0], t[1..] + u, p[0], p[1..] + q);
      assert t + u == [t[0]] + (t[1..] + u) && p + q == [p[0]] + (p[1..] + q);
    }
  }

  /** For a pattern whose last `%` is at `m`, the text that shows the difference. */
  lemma PatternWithPercentFails(pattern: string, m: nat)
    requires m < |pattern| && pattern[m] == '%' && '%' !in pattern[m + 1..]
    ensures !Agree(pattern[..m + 1] + "x" + pattern[m + 1..], pattern)
  {
    var text := pattern[..m + 1] + "x" + pattern[m + 1..];
    var t, p := Lower(text), Lower(pattern);
    LowerKeepsPercent(pattern);
    forall j | m + 1 <= j < |p|
      ensures p[j] != '%'
    {
      assert pattern[j] == pattern[m + 1..][j - (m + 1)];
    }
    LowerSplit(pattern, m);
    ExtraCharacterFails(t, p, m);
  }

  lemma LowerSplit(pattern: string, m: nat)
    requires m < |pattern| && pattern[m] == '%'
    ensures var p := Lower(pattern);
            Lower(pattern[..m + 1] + "x" + pattern[m + 1..]) == p[..m] + ("%x" + p[m + 1..])
  {
  }

  /** LIKE lets the last `%` swallow one more character; the loop takes it literally. */
  lemma ExtraCharacterFails(t: string, p: string, m: nat)
    requires m < |p| && p[m] == '%' && forall j :: m + 1 <= j < |p| ==> p[j] != '%'
    requires t == p[..m] + ("%x" + p[m + 1..])
    ensures LikeHolds(t, p) && !Greedy(t, 0, p, 0)
  {
    var a, z := p[..m], p[m + 1..];
    assert p == a + ("%" + z);
    RunOfOne(z);
    LikeGrows(a, "%x" + z, a, "%" + z);
    GreedyFollowsLiteral(t, p, m + 1);
    if Greedy(t, m + 1, p, m + 1) { NoPercentMeansSameLength(t, m + 1, p, m + 1); }
  }

  lemma RunOfOne(z: string)
    ensures LikeHolds("%x" + z, "%" + z)
  {
    LikeLiteral(z, z);
    assert ("%x" + z)[2..] == z && ("%" + z)[1..] == z;
  }

  lemma NoPercentAgrees(text: string, pattern: string)
    requires '%' !in pattern
    ensures Agree(text, pattern)
  {
    MatchesIsSound(text, pattern);
    LowerKeepsPercent(pattern);
    var t, p := Lower(text), Lower(pattern);
    if LikeHolds(t, p) {
      assert t[0..] == t && p[0..] == p;
      CompleteWithoutStars(t, 0, p, 0);
    }
  }

  lemma {:induction false} CompleteWithoutStars(t: string, ti: nat, p: string, pi: nat)
    requires ti <= |t| && pi <= |p| && LikeHolds(t[ti..], p[pi..])
    requires '%' !in p
    ensures Greedy(t, ti, p, pi)
    decreases |p| - pi
  {
    if pi == |p| {
    } else {
      assert p[pi] in p;
      assert p[pi..][1..] == p[pi + 1..] && t[ti..][1..] == t[ti + 1..];
      CompleteWithoutStars(t, ti + 1, p, pi + 1);
    }
  }

  /** The matcher agrees with LIKE on a pattern, whatever the text, exactly if the pattern has no `%`. */
  lemma AgreesOnPatternIff(pattern: string)
    ensures (forall text :: Agree(text, pattern)) <==> '%' !in pattern
  {
    if '%' !in pattern {
      forall text
        ensures Agree(text, pattern)
      {
        NoPercentAgrees(text, pattern);
      }
    } else {
      var m := LastPercent(pattern);
      PatternWithPercentFails(pattern, m);
    }
  }

  lemma {:induction false} LastPercent(p: string) returns (m: nat)
    requires '%' in p
    ensures m < |p| && p[m] == '%' && '%' !in p[m + 1..]
    decreases |p|
  {
    m := |p| - 1;
    if p[m] != '%' {
      var k := LastPercent(p[..m]);
      assert p[k + 1..] == p[..m][k + 1..] + [p[m]];
      m := k;
    }
  }

  // ------------------------------------------------------------ what a match means for the given strings

  /** The same character, or the same ASCII letter in its other case. */
  predicate SameLetter(a: char, b: char) {
    || a == b
    || ('A' <= a <= 'Z' && b as int == a as int + 32)
    || ('A' <= b <= 'Z' && a as int == b as int + 32)
  }

  predicate SameText(s: string, t: string) {
    |s| == |t| && forall i :: 0 <= i < |s| ==> SameLetter(s[i], t[i])
  }

  lemma LowerSame(s: string, t: string)
    ensures Lower(s) == Lower(t) <==> SameText(s, t)
  {
    if Lower(s) == Lower(t) {
      forall i | 0 <= i < |s|
        ensures SameLetter(s[i], t[i])
      {
        assert Lower(s)[i] == Lower(t)[i];
      }
    }
  }

  /** Case makes no difference, in the text or in the pattern. */
  lemma CaseMakesNoDifference(text: string, text': string, pattern: string, pattern': string)
    requires SameText(text, text') && SameText(pattern, pattern')
    ensures Matches(text, pattern) <==> Matches(text', pattern')
  {
    LowerSame(text, text');
    LowerSame(pattern, pattern');
  }

  predicate Fits(p: char, c: char) {
    p == '_' || SameLetter(p, c)
  }

  /** A character of a pattern stands for `text[a..b]`: any run, any one character, or that character. */
  predicate StandsFor(p: char, text: string, a: nat, b: nat) {
    a <= b <= |text| && (p != '%' ==> b == a + 1 && Fits(p, text[a]))
  }

  /** A way to read `text` as an instance of `pattern`: `pattern[j]` stands for what is between two cuts. */
  predicate Reading(text: string, pattern: string, cuts: seq<nat>) {
    && |cuts| == |pattern| + 1 && cuts[0] == 0 && cuts[|pattern|] == |text|
    && forall j :: 0 <= j < |pattern| ==> StandsFor(pattern[j], text, cuts[j], cuts[j + 1])
  }

  ghost predicate HasReading(text: string, pattern: string) {
    exists cuts :: Reading(text, pattern, cuts)
  }

  lemma ReadRest(text: string, pattern: string, cuts: seq<nat>)
    requires pattern != "" && Reading(text, pattern, cuts)
    ensures StandsFor(pattern[0], text, 0, cuts[1]) && HasReading(text[cuts[1]..], pattern[1..])
  {
    var k := cuts[1];
    assert StandsFor(pattern[0], text, cuts[0], cuts[1]);
    CutsGrow(text, pattern, cuts);
    var rest := seq(|pattern|, j requires 0 <= j < |pattern| => cuts[j + 1] - k);
    forall j | 0 <= j < |pattern[1..]|
      ensures StandsFor(pattern[1..][j], text[k..], rest[j], rest[j + 1])
    {
      assert StandsFor(pattern[j + 1], text, cuts[j + 1], cuts[j + 2]);
    }
    assert Reading(text[k..], pattern[1..], rest);
  }

  lemma CutsGrow(text: string, pattern: string, cuts: seq<nat>)
    requires pattern != "" && Reading(text, pattern, cuts)
    ensures forall j :: 1 <= j <= |pattern| ==> cuts[1] <= cuts[j]
  {
    var j := 1;
    while j < |pattern|
      invariant 1 <= j <= |pattern|
      invariant forall i :: 1 <= i <= j ==> cuts[1] <= cuts[i]
    {
      assert StandsFor(pattern[j], text, cuts[j], cuts[j + 1]);
      j := j + 1;
    }
  }

  lemma ReadOn(text: string, pattern: string, k: nat)
    requires pattern != "" && StandsFor(pattern[0], text, 0, k) && HasReading(text[k..], pattern[1..])
    ensures HasReading(text, pattern)
  {
    var rest :| Reading(text[k..], pattern[1..], rest);
    var cuts := [0] + seq(|pattern|, j requires 0 <= j < |pattern| => rest[j] + k);
    forall j | 0 <= j < |pattern|
      ensures StandsFor(pattern[j], text, cuts[j], cuts[j + 1])
    {
      if j > 0 {
        assert StandsFor(pattern[1..][j - 1], text[k..], rest[j - 1], rest[j]);
      }
    }
    assert Reading(text, pattern, cuts);
  }

  lemma FitsFolded(p: char, c: char)
    ensures MatchesChar(LowerChar(p), LowerChar(c)) <==> Fits(p, c)
  {
  }

  lemma LowerSlice(s: string, k: nat)
    requires k <= |s|
    ensures Lower(s)[k..] == Lower(s[k..])
  {
  }

  /** LIKE holds of the folded strings exactly if the strings have a reading. */
  lemma {:induction false} LikeMeansReading(text: string, pattern: string)
    ensures LikeHolds(Lower(text), Lower(pattern)) <==> HasReading(text, pattern)
    decreases |pattern|
  {
    if pattern == "" {
      assert Reading("", "", [0]);
    } else {
      LowerSlice(pattern, 1);
      if HasReading(text, pattern) {
        var cuts :| Reading(text, pattern, cuts);
        ReadRest(text, pattern, cuts);
        ReadingIsLike(text, pattern, cuts[1]);
      }
      if LikeHolds(Lower(text), Lower(pattern)) {
        LikeIsReading(text, pattern);
      }
    }
  }

  lemma {:induction false} ReadingIsLike(text: string, pattern: string, k: nat)
    requires pattern != "" && StandsFor(pattern[0], text, 0, k) && HasReading(text[k..], pattern[1..])
    ensures LikeHolds(Lower(text), Lower(pattern))
    decreases |pattern|, 0
  {
    LowerSlice(pattern, 1);
    LowerSlice(text, k);
    LikeMeansReading(text[k..], pattern[1..]);
    LowerKeepsPercent(pattern);
    if pattern[0] != '%' { FitsFolded(pattern[0], text[0]); }
  }

  lemma {:induction false} LikeIsReading(text: string, pattern: string)
    requires pattern != "" && LikeHolds(Lower(text), Lower(pattern))
    ensures HasReading(text, pattern)
    decreases |pattern|, 0
  {
    LowerSlice(pattern, 1);
    LowerKeepsPercent(pattern);
    var k: nat := 1;
    if pattern[0] == '%' {
      k :| 0 <= k <= |Lower(text)| && LikeHolds(Lower(text)[k..], Lower(pattern)[1..]);
    } else {
      FitsFolded(pattern[0], text[0]);
    }
    LowerSlice(text, k);
    LikeMeansReading(text[k..], pattern[1..]);
    ReadOn(text, pattern, k);
  }

  /**
  What the matcher answers, in terms of the strings it is given: only texts that have a
  reading; all of these if the text has no `%`; and for a pattern without `%` exactly the
  texts that fit it character by character.
  */
  lemma MatchesMeans(text: string, pattern: string)
    ensures Matches(text, pattern) ==> HasReading(text, pattern)
    ensures '%' !in text ==> (Matches(text, pattern) <==> HasReading(text, pattern))
    ensures '%' !in pattern ==>
              (Matches(text, pattern) <==>
                |text| == |pattern| && forall i :: 0 <= i < |text| ==> Fits(pattern[i], text[i]))
  {
    LikeMeansReading(text, pattern);
    MatchesIsSound(text, pattern);
    if '%' !in text { MatchesIsComplete(text, pattern); }
    if '%' !in pattern {
      NoPercentAgrees(text, pattern);
      ReadingWithoutPercent(text, pattern);
    }
  }

  lemma ReadingWithoutPercent(text: string, pattern: string)
    requires '%' !in pattern
    ensures HasReading(text, pattern) <==>
            |text| == |pattern| && forall i :: 0 <= i < |text| ==> Fits(pattern[i], text[i])
  {
    if cuts :| Reading(text, pattern, cuts) {
      OneByOne(text, pattern, cuts);
    }
    if |text| == |pattern| && forall i :: 0 <= i < |text| ==> Fits(pattern[i], text[i]) {
      var cuts := seq(|pattern| + 1, j requires 0 <= j <= |pattern| => j);
      assert Reading(text, pattern, cuts);
    }
  }

  lemma OneByOne(text: string, pattern: string, cuts: seq<nat>)
    requires '%' !in pattern && Reading(text, pattern, cuts)
    ensures |text| == |pattern| && forall i :: 0 <= i < |text| ==> Fits(pattern[i], text[i])
  {
    var j := 0;
    while j < |pattern|
      invariant 0 <= j <= |pattern| && cuts[j] == j
      invariant forall i :: 0 <= i < j ==> i < |text| && Fits(pattern[i], text[i])
    {
      assert pattern[j] in pattern;
      assert StandsFor(pattern[j], text, cuts[j], cuts[j + 1]);
      j := j + 1;
    }
  }
}
