/** What a glob means, and the iterative star-backtracking matcher that decides it. */
module Glob {

  /** `*` stands for any run of characters, `?` for any one character. */
  predicate Matches(p: string, t: string)
    decreases |p|
  {
    if p == [] then t == []
    else if p[0] == '*' then exists k :: 0 <= k <= |t| && Matches(p[1..], t[k..])
    else t != [] && (p[0] == '?' || p[0] == t[0]) && Matches(p[1..], t[1..])
  }

  // ---- the loop of glob_impl, as a function of its variables --------------------------

  /** Where the last `*` was met: its position in the pattern, and the text position it was tried at. */
  datatype Star = NoStar | StarAt(p: nat, t: nat)

  ghost predicate Positions(p: string, t: string, i: nat, j: nat, star: Star) {
    && i <= |p| && j <= |t|
    && (star.StarAt? ==> star.p < i && star.t <= j && p[star.p] == '*')
  }

  /** The outcome of the loop from the given variables on. A C string ends in
      NUL, which matches nothing, so the end of the pattern fails both tests. */
  function Scan(p: string, t: string, i: nat, j: nat, star: Star): bool
    requires Positions(p, t, i, j, star)
    decreases if star.StarAt? then |t| - star.t else |t| + 1, |p| - i, |t| - j
  {
    if j == |t| then AllStars(p[i..])
    else if i < |p| && (p[i] == '?' || p[i] == t[j]) then Scan(p, t, i + 1, j + 1, star)
    else if i < |p| && p[i] == '*' then Scan(p, t, i + 1, j, StarAt(i, j))
    else if star.StarAt? then Scan(p, t, star.p + 1, star.t + 1, StarAt(star.p, star.t + 1))
    else false
  }

  predicate AllStars(p: string) {
    forall i :: 0 <= i < |p| ==> p[i] == '*'
  }

  /** The matcher as it runs: two cursors and a restart point. */
  method GlobImpl(pattern: string, text: string) returns (r: bool)
    ensures r == Scan(pattern, text, 0, 0, NoStar)
  {
    var p: nat, t: nat := 0, 0;
    var star := NoStar;
    while t < |text|
      invariant Positions(pattern, text, p, t, star)
      invariant Scan(pattern, text, 0, 0, NoStar) == Scan(pattern, text, p, t, star)
      decreases if star.StarAt? then |text| - star.t else |text| + 1, |pattern| - p, |text| - t
    {
      if p < |pattern| && (pattern[p] == '?' || pattern[p] == text[t]) {
        p, t := p + 1, t + 1;
      } else if p < |pattern| && pattern[p] == '*' {
        star := StarAt(p, t);
        p := p + 1;
      } else if star.StarAt? {
        p, t := star.p + 1, star.t + 1;
        star := StarAt(star.p, t);
      } else {
        return false;
      }
    }
    ghost var from := p;
    while p < |pattern| && pattern[p] == '*'
      invariant from <= p <= |pattern|
      invariant forall i :: from <= i < p ==> pattern[i] == '*'
    {
      p := p + 1;
    }
    assert p < |pattern| ==> pattern[from..][p - from] != '*';
    return p == |pattern|;
  }

  // ---- what matching means, step by step --------------------------------------------------

  lemma StarUnfold(p: string, t: string)
    requires p != [] && p[0] == '*'
    ensures Matches(p, t) <==> Matches(p[1..], t) || (t != [] && Matches(p, t[1..]))
  {
    assert t[0..] == t;
    if t != [] && Matches(p, t[1..]) {
      var k :| 0 <= k <= |t[1..]| && Matches(p[1..], t[1..][k..]);
      assert t[1..][k..] == t[k + 1..];
    }
    if Matches(p, t) && !Matches(p[1..], t) {
      var k :| 0 <= k <= |t| && Matches(p[1..], t[k..]);
      assert k > 0;
      assert t[1..][k - 1..] == t[k..];
    }
  }

  lemma StarAbsorbs(p: string, t: string, k: nat)
    requires p != [] && p[0] == '*' && k <= |t| && Matches(p, t[k..])
    ensures Matches(p, t)
  {
    var m :| 0 <= m <= |t[k..]| && Matches(p[1..], t[k..][m..]);
    assert t[k..][m..] == t[k + m..];
  }

  lemma {:induction false} EmptyText(p: string)
    ensures Matches(p, []) <==> AllStars(p)
    decreases |p|
  {
    if p == [] {
    } else {
      assert p == [p[0]] + p[1..];
      if p[0] == '*' {
        StarUnfold(p, []);
      }
      EmptyText(p[1..]);
    }
  }

  /** A star-free segment consumes exactly its own length. */
  lemma {:induction false} SegmentConsumes(seg: string, q: string, t: string)
    requires '*' !in seg && Matches(seg + q, t)
    ensures |seg| <= |t| && Matches(q, t[|seg|..])
    decreases |seg|
  {
    if seg == [] {
      assert seg + q == q && t[0..] == t;
    } else {
      assert (seg + q)[0] == seg[0] && (seg + q)[1..] == seg[1..] + q;
      SegmentConsumes(seg[1..], q, t[1..]);
      assert t[1..][|seg| - 1..] == t[|seg|..];
    }
  }

  // ---- the matcher decides the glob ------------------------------------------------------------

  /** Some continuation of the loop can still succeed: from the cursors, or from a later restart. */
  ghost predicate Alive(p: string, t: string, i: nat, j: nat, star: Star)
    requires Positions(p, t, i, j, star)
  {
    Matches(p[i..], t[j..]) || (star.StarAt? && star.t < |t| && Matches(p[star.p..], t[star.t + 1..]))
  }

  lemma {:induction false} ScanSound(p: string, t: string, i: nat, j: nat, star: Star)
    requires Positions(p, t, i, j, star) && Scan(p, t, i, j, star)
    ensures Alive(p, t, i, j, star)
    decreases if star.StarAt? then |t| - star.t else |t| + 1, |p| - i, |t| - j
  {
    if j == |t| {
      EmptyText(p[i..]);
    } else if i < |p| && (p[i] == '?' || p[i] == t[j]) {
      ScanSound(p, t, i + 1, j + 1, star);
      assert p[i..][1..] == p[i + 1..] && t[j..][1..] == t[j + 1..];
      if p[i] == '*' && Matches(p[i + 1..], t[j + 1..]) {
        assert 1 <= |t[j..]|;
      }
    } else if i < |p| && p[i] == '*' {
      ScanSound(p, t, i + 1, j, StarAt(i, j));
      assert p[i..][1..] == p[i + 1..] && t[j..][1..] == t[j + 1..];
      StarUnfold(p[i..], t[j..]);
    } else {
      ScanSound(p, t, star.p + 1, star.t + 1, StarAt(star.p, star.t + 1));
      Restart(p, t, star);
    }
  }

  /** Restarting tries the next text position for the last star. */
  lemma Restart(p: string, t: string, star: Star)
    requires star.StarAt? && star.p < |p| && p[star.p] == '*' && star.t < |t|
    ensures Matches(p[star.p..], t[star.t + 1..]) <==>
            || Matches(p[star.p + 1..], t[star.t + 1..])
            || (star.t + 1 < |t| && Matches(p[star.p..], t[star.t + 2..]))
  {
    assert p[star.p..][1..] == p[star.p + 1..];
    StarUnfold(p[star.p..], t[star.t + 1..]);
    if star.t + 1 < |t| {
      assert t[star.t + 1..][1..] == t[star.t + 2..];
    }
  }

  /** Since the last star the cursors advanced in step over star-free pattern. */
  ghost predicate InStep(p: string, i: nat, j: nat, star: Star) {
    star.StarAt? ==> star.p < i <= |p| && '*' !in p[star.p + 1..i] && j - star.t == i - (star.p + 1)
  }

  /** Only the last star matters: if a later restart could succeed, then the rest
      of the pattern matches some suffix that starts beyond the text cursor. */
  lemma LastStar(p: string, t: string, i: nat, j: nat, star: Star)
    requires Positions(p, t, i, j, star) && InStep(p, i, j, star)
    requires star.StarAt? && star.t < |t| && Matches(p[star.p..], t[star.t + 1..])
    ensures exists m :: j < m <= |t| && Matches(p[i..], t[m..])
  {
    assert p[star.p..][1..] == p[star.p + 1..];
    var k :| 0 <= k <= |t[star.t + 1..]| && Matches(p[star.p + 1..], t[star.t + 1..][k..]);
    var from := star.t + 1 + k;
    assert t[star.t + 1..][k..] == t[from..];
    var seg := p[star.p + 1..i];
    assert p[star.p + 1..] == seg + p[i..];
    SegmentConsumes(seg, p[i..], t[from..]);
    assert t[from..][|seg|..] == t[from + |seg|..];
    assert j < from + |seg| <= |t|;
  }

  lemma AliveAtStar(p: string, t: string, i: nat, j: nat, star: Star)
    requires Positions(p, t, i, j, star) && InStep(p, i, j, star) && Alive(p, t, i, j, star)
    requires i < |p| && p[i] == '*'
    ensures Matches(p[i..], t[j..])
  {
    if star.StarAt? && star.t < |t| && Matches(p[star.p..], t[star.t + 1..]) {
      LastStar(p, t, i, j, star);
      var m :| j < m <= |t| && Matches(p[i..], t[m..]);
      assert t[j..][m - j..] == t[m..];
      StarAbsorbs(p[i..], t[j..], m - j);
    }
  }

  /** What is still possible stays possible when both cursors move on. */
  lemma AliveNext(p: string, t: string, i: nat, j: nat, star: Star)
    requires Positions(p, t, i, j, star) && InStep(p, i, j, star) && Alive(p, t, i, j, star)
    requires i < |p| && j < |t| && t[j] != '*' && (p[i] == '?' || p[i] == t[j])
    ensures Alive(p, t, i + 1, j + 1, star) && InStep(p, i + 1, j + 1, star)
  {
    assert p[i..][1..] == p[i + 1..] && t[j..][1..] == t[j + 1..];
    assert star.StarAt? ==> p[star.p + 1..i + 1] == p[star.p + 1..i] + [p[i]];
  }

  /** Where the pattern is at a star, it is this star that has to take over. */
  lemma AliveFromStar(p: string, t: string, i: nat, j: nat, star: Star)
    requires Positions(p, t, i, j, star) && InStep(p, i, j, star) && Alive(p, t, i, j, star)
    requires i < |p| && j < |t| && p[i] == '*'
    ensures Alive(p, t, i + 1, j, StarAt(i, j)) && InStep(p, i + 1, j, StarAt(i, j))
  {
    AliveAtStar(p, t, i, j, star);
    assert p[i..][1..] == p[i + 1..] && t[j..][1..] == t[j + 1..];
    StarUnfold(p[i..], t[j..]);
  }

  /** Where neither fits, only a restart can be left. */
  lemma AliveFromRestart(p: string, t: string, i: nat, j: nat, star: Star)
    requires Positions(p, t, i, j, star) && Alive(p, t, i, j, star)
    requires j < |t| && (i == |p| || (p[i] != '?' && p[i] != t[j] && p[i] != '*'))
    ensures star.StarAt?
    ensures Positions(p, t, star.p + 1, star.t + 1, StarAt(star.p, star.t + 1))
    ensures Alive(p, t, star.p + 1, star.t + 1, StarAt(star.p, star.t + 1))
    ensures InStep(p, star.p + 1, star.t + 1, StarAt(star.p, star.t + 1))
  {
    assert !Matches(p[i..], t[j..]);
    Restart(p, t, star);
  }

  lemma {:induction false} ScanComplete(p: string, t: string, i: nat, j: nat, star: Star)
    requires Positions(p, t, i, j, star) && InStep(p, i, j, star) && '*' !in t
    requires Alive(p, t, i, j, star)
    ensures Scan(p, t, i, j, star)
    decreases if star.StarAt? then |t| - star.t else |t| + 1, |p| - i, |t| - j
  {
    hide Matches, InStep;
    if j == |t| {
      assert t[j..] == [];
      if !Matches(p[i..], []) { LastStar(p, t, i, j, star); }
      EmptyText(p[i..]);
    } else if i < |p| && (p[i] == '?' || p[i] == t[j]) {
      AliveNext(p, t, i, j, star);
      ScanComplete(p, t, i + 1, j + 1, star);
    } else if i < |p| && p[i] == '*' {
      AliveFromStar(p, t, i, j, star);
      ScanComplete(p, t, i + 1, j, StarAt(i, j));
    } else {
      AliveFromRestart(p, t, i, j, star);
      ScanComplete(p, t, star.p + 1, star.t + 1, StarAt(star.p, star.t + 1));
    }
  }

  /** A positive answer is always right. */
  lemma {:induction false} MatcherSound(p: string, t: string)
    requires Scan(p, t, 0, 0, NoStar)
    ensures Matches(p, t)
  {
    ScanSound(p, t, 0, 0, NoStar);
    assert p[0..] == p && t[0..] == t;
  }

  /** On texts without a `*` the matcher decides the glob. */
  lemma {:induction false} MatcherDecides(p: string, t: string)
    requires '*' !in t
    ensures Scan(p, t, 0, 0, NoStar) <==> Matches(p, t)
  {
    assert p[0..] == p && t[0..] == t;
    if Matches(p, t) {
      ScanComplete(p, t, 0, 0, NoStar);
    } else if Scan(p, t, 0, 0, NoStar) {
      MatcherSound(p, t);
    }
  }

  // ---- exactly when every pattern is decided --------------------------------------------------

  function Questions(n: nat): (p: string)
    ensures |p| == n && forall i :: 0 <= i < n ==> p[i] == '?'
  {
    seq(n, i requires 0 <= i < n => '?')
  }

  lemma {:induction false} QuestionsMatch(n: nat, t: string)
    ensures Matches(Questions(n), t) <==> |t| == n
    decreases n
  {
    if n == 0 {
    } else {
      assert Questions(n)[1..] == Questions(n - 1);
      if t != [] {
        QuestionsMatch(n - 1, t[1..]);
      }
    }
  }

  lemma {:induction false} QuestionsScan(p: string, t: string, i: nat, j: nat, n: nat)
    requires i + n <= |p| && j + n <= |t| && forall k :: i <= k < i + n ==> p[k] == '?'
    ensures Scan(p, t, i, j, NoStar) == Scan(p, t, i + n, j + n, NoStar)
    decreases n
  {
    if n == 0 {
    } else {
      QuestionsScan(p, t, i + 1, j + 1, n - 1);
    }
  }

  /** A pattern the matcher gets wrong on a text whose character at `at` is a `*`:
      the star of the pattern meets the one of the text as a literal. */
  function Spoiler(at: nat, length: nat): string
    requires at < length
  {
    Questions(at) + "*" + Questions(length - at)
  }

  lemma {:induction false} SpoilerFails(t: string, at: nat)
    requires at < |t| && t[at] == '*'
    ensures Matches(Spoiler(at, |t|), t)
    ensures !Scan(Spoiler(at, |t|), t, 0, 0, NoStar)
  {
    var p := Spoiler(at, |t|);
    SpoilerMatches(at, |t| - at, t);
    QuestionsScan(p, t, 0, 0, at);
    QuestionsScan(p, t, at + 1, at + 1, |t| - at - 1);
    assert p[|t|..][0] == '?';
  }

  lemma {:induction false} SpoilerMatches(n: nat, m: nat, t: string)
    requires |t| == n + m
    ensures Matches(Questions(n) + "*" + Questions(m), t)
    decreases n
  {
    var p := Questions(n) + "*" + Questions(m);
    if n == 0 {
      assert p[1..] == Questions(m) && t[0..] == t;
      QuestionsMatch(m, t);
    } else {
      assert p[1..] == Questions(n - 1) + "*" + Questions(m);
      SpoilerMatches(n - 1, m, t[1..]);
    }
  }

  /** A text is matched correctly against every pattern exactly when it holds no `*`. */
  lemma {:induction false} DecidesIffStarFree(t: string)
    ensures (forall p :: Scan(p, t, 0, 0, NoStar) <==> Matches(p, t)) <==> '*' !in t
  {
    if '*' in t {
      var at :| 0 <= at < |t| && t[at] == '*';
      SpoilerFails(t, at);
    } else {
      forall p
        ensures Scan(p, t, 0, 0, NoStar) <==> Matches(p, t)
      {
        MatcherDecides(p, t);
      }
    }
  }

  // ---- and exactly which patterns are decided on every text --------------------------------------

  /** A pattern without a star is walked once, character by character. */
  lemma {:induction false} NoStarDecides(p: string, t: string, i: nat, j: nat)
    requires i <= |p| && j <= |t| && '*' !in p
    ensures Scan(p, t, i, j, NoStar) <==> Matches(p[i..], t[j..])
    decreases |p| - i
  {
    if i == |p| || j == |t| {
      assert i < |p| ==> p[i..][0] == p[i] && p[i] != '*';
    } else {
      NoStarDecides(p, t, i + 1, j + 1);
      assert p[i..][1..] == p[i + 1..] && t[j..][1..] == t[j + 1..];
    }
  }

  /** Every character of a pattern, a star included, first takes itself; what the text
      has beyond that is then left without a star to take it. */
  lemma {:induction false} OwnTextScan(p: string, more: string, i: nat)
    requires i <= |p| && more != ""
    ensures !Scan(p, p + more, i, i, NoStar)
    decreases |p| - i
  {
    if i == |p| {
    } else {
      OwnTextScan(p, more, i + 1);
    }
  }

  lemma {:induction false} SamePrefix(u: string, q: string, t: string)
    requires Matches(q, t)
    ensures Matches(u + q, u + t)
    decreases |u|
  {
    if u == [] {
      assert u + q == q && u + t == t;
    } else {
      SamePrefix(u[1..], q, t);
      var p, s := u + q, u + t;
      assert p[1..] == u[1..] + q && s[1..] == u[1..] + t;
      if u[0] == '*' {
        StarUnfold(p, s[1..]);
        StarUnfold(p, s);
      }
    }
  }

  /** The text that spoils a pattern with a star: the pattern itself, and more for the star. */
  function Beyond(p: string, at: nat): (more: string)
    requires at < |p|
    ensures more != ""
  {
    if at + 1 == |p| then "x" else p[at + 1..]
  }

  lemma StarTakesMore(v: string, more: string)
    requires v == "" || more == v
    ensures Matches("*" + v, "*" + v + more)
  {
    var tail := "*" + v;
    var text := tail + more;
    assert v + [] == v;
    SamePrefix(v, [], []);
    var k := if v == "" then |text| else |tail|;
    assert text[k..] == v && tail[1..] == v;
  }

  lemma {:induction false} OwnTextFails(p: string, at: nat)
    requires at < |p| && p[at] == '*'
    ensures Matches(p, p + Beyond(p, at)) && !Scan(p, p + Beyond(p, at), 0, 0, NoStar)
  {
    hide Scan;
    var u, v, more := p[..at], p[at + 1..], Beyond(p, at);
    OwnTextScan(p, more, 0);
    StarTakesMore(v, more);
    hide Matches;
    SamePrefix(u, "*" + v, "*" + v + more);
    assert u + ("*" + v) == p && u + ("*" + v + more) == p + more;
  }

  /** A pattern is matched correctly against every text exactly when it holds no `*`. */
  lemma {:induction false} DecidedIffStarless(p: string)
    ensures (forall t :: Scan(p, t, 0, 0, NoStar) <==> Matches(p, t)) <==> '*' !in p
  {
    if '*' in p {
      var at :| 0 <= at < |p| && p[at] == '*';
      OwnTextFails(p, at);
    } else {
      forall t
        ensures Scan(p, t, 0, 0, NoStar) <==> Matches(p, t)
      {
        NoStarDecides(p, t, 0, 0);
        assert p[0..] == p && t[0..] == t;
      }
    }
  }

  // ---- patterns without wildcards -----------------------------------------------------------------

  ghost predicate WildcardFree(p: string) {
    '*' !in p && '?' !in p
  }
}
