/**
 The SQL LIKE matcher of the expression VM.

 `Like` is the meaning the documentation gives: `%` stands for any run of
 bytes, `_` for exactly one byte.  `LikeMatch` is the iterative matcher with a
 single backtrack point.  Because it compares bytes before it looks for a
 wildcard, a `%` in the pattern that meets a `%` in the text is consumed as a
 literal; `CodeLike` is that reading.  The loop computes `CodeLike` for every
 text and pattern, and the lemmas say exactly when the two readings coincide.
 */
module LikeMatcher {
  import opened Bytes

  const PERCENT: byte := 37
  const UNDERSCORE: byte := 95

  ghost predicate Like(s: seq<byte>, p: seq<byte>)
    decreases |p|
  {
    if p == [] then s == []
    else if p[0] == PERCENT then exists k | 0 <= k <= |s| :: Like(s[k..], p[1..])
    else s != [] && (p[0] == UNDERSCORE || p[0] == s[0]) && Like(s[1..], p[1..])
  }

  ghost predicate CodeLike(s: seq<byte>, p: seq<byte>)
    decreases |p|
  {
    if p == [] then s == []
    else if p[0] == PERCENT && (s == [] || s[0] != PERCENT) then
      exists k | 0 <= k <= |s| :: CodeLike(s[k..], p[1..])
    else s != [] && (p[0] == UNDERSCORE || p[0] == s[0]) && CodeLike(s[1..], p[1..])
  }

  // ---- the same reading over positions, as the loop moves ------------------

  /** The pattern from `j` matches the text from `i`. */
  ghost predicate At(s: seq<byte>, p: seq<byte>, i: nat, j: nat)
    requires i <= |s| && j <= |p|
    decreases |p| - j, 0
  {
    if j == |p| then i == |s|
    else if p[j] == PERCENT && (i == |s| || s[i] != PERCENT) then From(s, p, i, j + 1)
    else i < |s| && (p[j] == UNDERSCORE || p[j] == s[i]) && At(s, p, i + 1, j + 1)
  }

  /** Some alignment of the pattern from `j` starts at `i` or later. */
  ghost predicate From(s: seq<byte>, p: seq<byte>, i: nat, j: nat)
    requires j <= |p|
    decreases |p| - j, 1
  {
    exists k :: i <= k <= |s| && At(s, p, k, j)
  }

  lemma Alignment(s: seq<byte>, p: seq<byte>, i: nat, j: nat) returns (k: nat)
    requires j <= |p| && From(s, p, i, j)
    ensures i <= k <= |s| && At(s, p, k, j)
  {
    k :| i <= k <= |s| && At(s, p, k, j);
  }

  lemma {:induction false} AtIsCodeLike(s: seq<byte>, p: seq<byte>, i: nat, j: nat)
    requires i <= |s| && j <= |p|
    ensures At(s, p, i, j) == CodeLike(s[i..], p[j..])
    decreases |p| - j
  {
    if j < |p| {
      var j' := j + 1;
      assert p[j..][1..] == p[j'..];
      forall k | i <= k <= |s|
        ensures At(s, p, k, j') == CodeLike(s[i..][k - i..], p[j'..])
      {
        AtIsCodeLike(s, p, k, j');
        assert s[i..][k - i..] == s[k..];
      }
      if p[j] == PERCENT && (i == |s| || s[i] != PERCENT) {
        if CodeLike(s[i..], p[j..]) {
          var k :| 0 <= k <= |s[i..]| && CodeLike(s[i..][k..], p[j..][1..]);
          assert At(s, p, i + k, j');
        }
        if From(s, p, i, j') {
          var k := Alignment(s, p, i, j');
          assert CodeLike(s[i..][k - i..], p[j..][1..]);
        }
      } else if i < |s| {
        assert s[i..][1..] == s[i + 1..];
        AtIsCodeLike(s, p, i + 1, j');
      }
    }
  }

  /** `m` pattern bytes from `j` match the text from `i` byte for byte. */
  ghost predicate Run(s: seq<byte>, p: seq<byte>, i: nat, j: nat, m: nat)
    requires i + m <= |s| && j + m <= |p|
  {
    forall x | i <= x < i + m :: p[x - i + j] == UNDERSCORE || p[x - i + j] == s[x]
  }

  lemma {:induction false} AtRun(s: seq<byte>, p: seq<byte>, i: nat, j: nat, m: nat)
    requires i + m <= |s| && j + m <= |p| && Run(s, p, i, j, m)
    ensures At(s, p, i, j) == At(s, p, i + m, j + m)
    decreases m
  {
    if m > 0 {
      AtRun(s, p, i + 1, j + 1, m - 1);
    }
  }

  /**
   An alignment that starts later than a byte-for-byte run can only arrive at
   or beyond the place where that run ends.
   */
  lemma {:induction false} Overtake(s: seq<byte>, p: seq<byte>, i: nat, j: nat, m: nat, q: nat)
    returns (q': nat)
    requires i + m <= |s| && j + m <= |p| && Run(s, p, i, j, m)
    requires i < q <= |s| && At(s, p, q, j)
    ensures i + m <= q' <= |s| && At(s, p, q', j + m)
    decreases m
  {
    if m == 0 {
      return q;
    }
    if p[j] == PERCENT && (q == |s| || s[q] != PERCENT) {
      var k := Alignment(s, p, q, j + 1);
      if k == i + 1 {
        AtRun(s, p, i + 1, j + 1, m - 1);
        q' := i + m;
      } else {
        q' := Overtake(s, p, i + 1, j + 1, m - 1, k);
      }
    } else {
      q' := Overtake(s, p, i + 1, j + 1, m - 1, q + 1);
    }
  }

  /** After a run that ends at a `%` no earlier backtrack point is needed. */
  lemma StarCommits(s: seq<byte>, p: seq<byte>, i: nat, j: nat, m: nat)
    requires i + m < |s| && j + m < |p| && Run(s, p, i, j, m)
    requires p[j + m] == PERCENT && s[i + m] != PERCENT
    requires From(s, p, i + 1, j)
    ensures At(s, p, i + m, j + m)
  {
    var k := Alignment(s, p, i + 1, j);
    var q := Overtake(s, p, i, j, m, k);
  }

  /** After a run that ends with the text no earlier backtrack point is needed. */
  lemma LastAlignment(s: seq<byte>, p: seq<byte>, i: nat, j: nat, m: nat)
    requires i + m == |s| && j + m <= |p| && Run(s, p, i, j, m)
    requires From(s, p, i + 1, j)
    ensures At(s, p, |s|, j + m)
  {
    var k := Alignment(s, p, i + 1, j);
    var q := Overtake(s, p, i, j, m, k);
  }

  /** A matching byte moves both places on. */
  lemma StepMatch(s: seq<byte>, p: seq<byte>, i: nat, j: nat)
    requires i < |s| && j < |p| && (p[j] == UNDERSCORE || p[j] == s[i])
    ensures At(s, p, i, j) == At(s, p, i + 1, j + 1)
  {
  }

  lemma RunLonger(s: seq<byte>, p: seq<byte>, i: nat, j: nat, m: nat)
    requires i + m < |s| && j + m < |p| && Run(s, p, i, j, m)
    requires p[j + m] == UNDERSCORE || p[j + m] == s[i + m]
    ensures Run(s, p, i, j, m + 1)
  {
  }

  /** A `%` lets the rest of the pattern start anywhere from here on. */
  lemma StepStar(s: seq<byte>, p: seq<byte>, i: nat, j: nat)
    requires i < |s| && j < |p| && p[j] == PERCENT && s[i] != PERCENT
    ensures At(s, p, i, j) == (At(s, p, i, j + 1) || From(s, p, i + 1, j + 1))
    ensures Run(s, p, i, j + 1, 0)
  {
    if At(s, p, i, j) {
      var k := Alignment(s, p, i, j + 1);
    }
  }

  /** Nothing matches here. */
  lemma NoMatch(s: seq<byte>, p: seq<byte>, i: nat, j: nat)
    requires i < |s| && j <= |p|
    requires j < |p| ==> p[j] != UNDERSCORE && p[j] != s[i] && p[j] != PERCENT
    ensures !At(s, p, i, j)
  {
  }

  /** The next start is tried, or one of those after it. */
  lemma NextStart(s: seq<byte>, p: seq<byte>, mark: nat, j: nat)
    requires mark < |s| && j <= |p|
    ensures From(s, p, mark + 1, j) == (At(s, p, mark + 1, j) || From(s, p, mark + 2, j))
    ensures Run(s, p, mark + 1, j, 0)
  {
  }

  /** At the end of the text only `%` can still be matched. */
  lemma AtEnd(s: seq<byte>, p: seq<byte>, j: nat)
    requires j <= |p|
    ensures At(s, p, |s|, j) == (j == |p| || (p[j] == PERCENT && At(s, p, |s|, j + 1)))
  {
    if j < |p| && At(s, p, |s|, j) {
      var k := Alignment(s, p, |s|, j + 1);
    }
  }

  method LikeMatch(s: seq<byte>, p: seq<byte>) returns (r: bool)
    ensures r == CodeLike(s, p)
  {
    hide At, From, Run, CodeLike;
    var i, j := 0, 0;
    var star: Option<nat>, mark := None, 0;
    assert s[0..] == s && p[0..] == p;
    AtIsCodeLike(s, p, 0, 0);
    while i < |s|
      invariant 0 <= i <= |s| && 0 <= j <= |p|
      invariant star.Some? ==> star.value < j && mark <= i && i - mark == j - star.value - 1
      invariant star.Some? ==> Run(s, p, mark, star.value + 1, i - mark)
      invariant CodeLike(s, p) <==>
                At(s, p, i, j) || (star.Some? && From(s, p, mark + 1, star.value + 1))
      decreases |p| - (if star.Some? then star.value else -1), |s| - mark, |s| - i
    {
      if j < |p| && (p[j] == UNDERSCORE || p[j] == s[i]) {
        StepMatch(s, p, i, j);
        if star.Some? { RunLonger(s, p, mark, star.value + 1, i - mark); }
        i := i + 1;
        j := j + 1;
      } else if j < |p| && p[j] == PERCENT {
        if star.Some? && From(s, p, mark + 1, star.value + 1) {
          StarCommits(s, p, mark, star.value + 1, i - mark);
        }
        StepStar(s, p, i, j);
        star := Some(j);
        mark := i;
        j := j + 1;
      } else if star.Some? {
        NoMatch(s, p, i, j);
        NextStart(s, p, mark, star.value + 1);
        j := star.value + 1;
        mark := mark + 1;
        i := mark;
      } else {
        NoMatch(s, p, i, j);
        return false;
      }
    }
    if star.Some? && From(s, p, mark + 1, star.value + 1) {
      LastAlignment(s, p, mark, star.value + 1, i - mark);
    }
    while j < |p| && p[j] == PERCENT
      invariant 0 <= j <= |p|
      invariant CodeLike(s, p) <==> At(s, p, |s|, j)
    {
      AtEnd(s, p, j);
      j := j + 1;
    }
    AtEnd(s, p, j);
    r := j == |p|;
  }

  // ---- where the matcher and LIKE coincide --------------------------------

  /** The matcher never accepts a text that LIKE rejects. */
  lemma {:induction false} MatcherIsSound(s: seq<byte>, p: seq<byte>)
    requires CodeLike(s, p)
    ensures Like(s, p)
    decreases |p|
  {
    if p == [] {
    } else if p[0] == PERCENT && (s == [] || s[0] != PERCENT) {
      var k :| 0 <= k <= |s| && CodeLike(s[k..], p[1..]);
      MatcherIsSound(s[k..], p[1..]);
    } else {
      MatcherIsSound(s[1..], p[1..]);
    }
  }

  lemma {:induction false} MatcherIsComplete(s: seq<byte>, p: seq<byte>)
    requires PERCENT !in s || PERCENT !in p
    requires Like(s, p)
    ensures CodeLike(s, p)
    decreases |p|
  {
    if p == [] {
    } else if p[0] == PERCENT {
      var k :| 0 <= k <= |s| && Like(s[k..], p[1..]);
      MatcherIsComplete(s[k..], p[1..]);
    } else {
      MatcherIsComplete(s[1..], p[1..]);
    }
  }

  function Blanks(n: nat): (r: seq<byte>)
    ensures |r| == n
  {
    Repeat(UNDERSCORE, n)
  }

  /** A text with a `%` in it is misjudged: `_`^k `%` `_`^(n-k) with the `%` at k. */
  lemma {:induction false} PercentInTextIsMisjudged(s: seq<byte>, k: nat)
    requires k < |s| && s[k] == PERCENT
    ensures var p := Blanks(k) + [PERCENT] + Blanks(|s| - k);
            Like(s, p) && !CodeLike(s, p)
    decreases k
  {
    var p := Blanks(k) + [PERCENT] + Blanks(|s| - k);
    if k == 0 {
      assert p == [PERCENT] + Blanks(|s|) && p[1..] == Blanks(|s|);
      BlanksCount(s, |s|);
      assert s[0..] == s;
      BlanksCount(s[1..], |s|);
    } else {
      PercentInTextIsMisjudged(s[1..], k - 1);
      assert p[1..] == Blanks(k - 1) + [PERCENT] + Blanks(|s[1..]| - (k - 1));
    }
  }

  lemma {:induction false} BlanksCount(s: seq<byte>, n: nat)
    ensures Like(s, Blanks(n)) <==> |s| == n
    ensures CodeLike(s, Blanks(n)) <==> |s| == n
    decreases n
  {
    if n > 0 && s != [] {
      BlanksCount(s[1..], n - 1);
      assert Blanks(n)[1..] == Blanks(n - 1);
    }
  }

  /** The text that spells the pattern with every wildcard replaced by a `%`. */
  function Spell(p: seq<byte>): (s: seq<byte>)
    ensures |s| == |p|
  {
    seq(|p|, i requires 0 <= i < |p| => if p[i] == UNDERSCORE then PERCENT else p[i])
  }

  lemma {:induction false} SpellMatches(p: seq<byte>)
    ensures Like(Spell(p), p)
    decreases |p|
  {
    if p != [] {
      SpellMatches(p[1..]);
      assert Spell(p)[1..] == Spell(p[1..]);
    }
  }

  /** One `%` too many in front of the spelled pattern is never consumed. */
  lemma {:induction false} SurplusPercent(p: seq<byte>)
    ensures !CodeLike([PERCENT] + Spell(p), p)
    decreases |p|
  {
    var s := [PERCENT] + Spell(p);
    if p != [] && (p[0] == PERCENT || p[0] == UNDERSCORE) {
      SurplusPercent(p[1..]);
      assert s[1..] == [PERCENT] + Spell(p[1..]);
    }
  }

  /** A pattern with a `%` in it misjudges a text: the spelled one with that `%` doubled. */
  lemma {:induction false} PercentInPatternMisjudges(p: seq<byte>, k: nat)
    requires k < |p| && p[k] == PERCENT
    ensures var s := Spell(p[..k + 1]) + [PERCENT] + Spell(p[k + 1..]);
            Like(s, p) && !CodeLike(s, p)
    decreases |p|
  {
    var s := Spell(p[..k + 1]) + [PERCENT] + Spell(p[k + 1..]);
    if k == 0 {
      assert s[1..] == [PERCENT] + Spell(p[1..]);
      SurplusPercent(p[1..]);
      SpellMatches(p[1..]);
      assert s[2..] == Spell(p[1..]);
    } else {
      var t := p[1..];
      PercentInPatternMisjudges(t, k - 1);
      var s' := Spell(t[..k]) + [PERCENT] + Spell(t[k..]);
      assert s[1..] == s' by {
        assert Spell(p[..k + 1])[1..] == Spell(t[..k]);
        assert p[k + 1..] == t[k..];
      }
      if p[0] == PERCENT {
        assert s[0] == PERCENT;
      }
    }
  }

  /** Every pattern judges the text `s` as LIKE does exactly when `s` has no `%`. */
  lemma TextIsJudgedRightly(s: seq<byte>)
    ensures (forall p :: CodeLike(s, p) == Like(s, p)) <==> PERCENT !in s
  {
    if PERCENT !in s {
      forall p ensures CodeLike(s, p) == Like(s, p) {
        if CodeLike(s, p) { MatcherIsSound(s, p); }
        if Like(s, p) { MatcherIsComplete(s, p); }
      }
    } else {
      var k :| 0 <= k < |s| && s[k] == PERCENT;
      PercentInTextIsMisjudged(s, k);
    }
  }

  /** The pattern `p` judges every text as LIKE does exactly when `p` has no `%`. */
  lemma PatternJudgesRightly(p: seq<byte>)
    ensures (forall s :: CodeLike(s, p) == Like(s, p)) <==> PERCENT !in p
  {
    if PERCENT !in p {
      forall s ensures CodeLike(s, p) == Like(s, p) {
        if CodeLike(s, p) { MatcherIsSound(s, p); }
        if Like(s, p) { MatcherIsComplete(s, p); }
      }
    } else {
      var k :| 0 <= k < |p| && p[k] == PERCENT;
      PercentInPatternMisjudges(p, k);
    }
  }
}
