/** `glob_match`, which backtracks only to the most recent `*`.
    `Matches` is the meaning of a pattern: `*` any run, `?` any one byte. The loop tests for
    an equal byte before it tests for a star, so against a text byte `*` a pattern `*` is an
    ordinary letter. The results: the loop never reports a false match; and a text is matched
    correctly by every pattern exactly when it holds no `*`. */
module Glob {
  import opened Wrappers

  /** The meaning of a pattern, from pattern position `p` and text position `t` on. */
  predicate Matches(pattern: string, p: nat, text: string, t: nat)
    requires p <= |pattern| && t <= |text|
    decreases |pattern| - p, |text| - t
  {
    if p == |pattern| then t == |text|
    else if pattern[p] == '*' then
      Matches(pattern, p + 1, text, t) || (t < |text| && Matches(pattern, p, text, t + 1))
    else
      t < |text| && Takes(pattern[p], text[t]) && Matches(pattern, p + 1, text, t + 1)
  }

  predicate Takes(c: char, b: char) {
    c == '?' || c == b
  }

  /** The two cursors of the loop and the last star met: its position in the pattern and the
      text position from which it is being tried. */
  datatype Cursor = Cursor(p: nat, t: nat, star: Option<nat>, mark: nat)

  predicate InRange(pattern: string, text: string, c: Cursor) {
    && c.p <= |pattern| && c.mark <= c.t <= |text|
    && (c.star.Some? ==> c.star.value < c.p && pattern[c.star.value] == '*')
  }

  /** One turn of the loop; None when it gives up. */
  function Next(pattern: string, text: string, c: Cursor): (r: Option<Cursor>)
    requires InRange(pattern, text, c) && c.t < |text|
    ensures r.Some? ==> InRange(pattern, text, r.value)
    ensures r.Some? ==> r.value.mark > c.mark || (r.value.mark == c.mark && r.value.p > c.p)
  {
    if c.p < |pattern| && Takes(pattern[c.p], text[c.t]) then Some(c.(p := c.p + 1, t := c.t + 1))
    else if c.p < |pattern| && pattern[c.p] == '*' then Some(Cursor(c.p + 1, c.t, Some(c.p), c.t))
    else if c.star.Some? then Some(Cursor(c.star.value + 1, c.mark + 1, c.star, c.mark + 1))
    else None
  }

  /** The result of the loop from a cursor on. */
  function Outcome(pattern: string, text: string, c: Cursor): bool
    requires InRange(pattern, text, c)
    decreases |text| - c.mark, |pattern| - c.p
  {
    if c.t == |text| then AllStars(pattern, c.p)
    else
      match Next(pattern, text, c)
      case None => false
      case Some(next) => Outcome(pattern, text, next)
  }

  predicate AllStars(pattern: string, p: nat)
    requires p <= |pattern|
  {
    forall i | p <= i < |pattern| :: pattern[i] == '*'
  }

  const START := Cursor(0, 0, None, 0)

  predicate GlobMatches(pattern: string, text: string) {
    Outcome(pattern, text, START)
  }

  /** The most turns that can lead to a cursor: each move of the last star by one byte allows
      one pass over the pattern. */
  ghost function Budget(pattern: string, c: Cursor): nat {
    c.mark * (1 + |pattern|) + c.p
  }

  lemma {:induction false} MoreTurns(a: nat, b: nat, n: nat)
    requires a <= b
    ensures a * (1 + n) <= b * (1 + n)
    ensures a < b ==> a * (1 + n) + 1 + n <= b * (1 + n)
    decreases b - a
  {
    if a < b {
      MoreTurns(a, b - 1, n);
      assert b * (1 + n) == (b - 1) * (1 + n) + (1 + n);
    }
  }

  lemma TurnCost(pattern: string, text: string, c: Cursor)
    requires InRange(pattern, text, c) && c.t < |text| && Next(pattern, text, c).Some?
    ensures Budget(pattern, c) + 1 <= Budget(pattern, Next(pattern, text, c).value)
  {
    MoreTurns(c.mark, Next(pattern, text, c).value.mark, |pattern|);
  }

  lemma BudgetBound(pattern: string, text: string, c: Cursor)
    requires InRange(pattern, text, c)
    ensures Budget(pattern, c) <= |text| + (|text| + 1) * |pattern|
  {
    MoreTurns(c.mark, |text|, |pattern|);
  }

  /** The loop itself, with a count of its turns. */
  method GlobMatch(pattern: string, text: string) returns (r: bool, ghost turns: nat)
    ensures r == GlobMatches(pattern, text)
    ensures turns <= |text| + (|text| + 1) * |pattern|
  {
    var p: nat, t: nat, mark: nat := 0, 0, 0;
    var star: Option<nat> := None;
    turns := 0;
    while t < |text|
      invariant InRange(pattern, text, Cursor(p, t, star, mark))
      invariant GlobMatches(pattern, text) == Outcome(pattern, text, Cursor(p, t, star, mark))
      invariant turns <= Budget(pattern, Cursor(p, t, star, mark))
      decreases |text| - mark, |pattern| - p
    {
      ghost var c := Cursor(p, t, star, mark);
      if p < |pattern| && (pattern[p] == '?' || pattern[p] == text[t]) {
        p, t := p + 1, t + 1;
      } else if p < |pattern| && pattern[p] == '*' {
        star := Some(p);
        p, mark := p + 1, t;
      } else if star.Some? {
        mark := mark + 1;
        p, t := star.value + 1, mark;
      } else {
        BudgetBound(pattern, text, c);
        return false, turns;
      }
      turns := turns + 1;
      TurnCost(pattern, text, c);
    }
    BudgetBound(pattern, text, Cursor(p, t, star, mark));
    ghost var rest := p;
    while p < |pattern| && pattern[p] == '*'
      invariant rest <= p <= |pattern|
      invariant AllStars(pattern, rest) == AllStars(pattern, p)
    {
      p := p + 1;
    }
    r := p == |pattern|;
  }

  // ---- what the loop decides ---------------------------------------------------------

  /** What remains to be tried from a cursor: go on from here, or give up and move the last
      star one byte further. Earlier stars are not among the choices. */
  ghost predicate Hope(pattern: string, text: string, c: Cursor)
    requires InRange(pattern, text, c)
  {
    || Matches(pattern, c.p, text, c.t)
    || (c.star.Some? && c.mark < |text| && Matches(pattern, c.star.value, text, c.mark + 1))
  }

  lemma {:induction false} StarsMatchNothing(pattern: string, p: nat, text: string)
    requires p <= |pattern|
    ensures Matches(pattern, p, text, |text|) == AllStars(pattern, p)
    decreases |pattern| - p
  {
    if p < |pattern| {
      StarsMatchNothing(pattern, p + 1, text);
    }
  }

  /** Soundness, from any cursor. */
  lemma {:induction false} OutcomeSound(pattern: string, text: string, c: Cursor)
    requires InRange(pattern, text, c) && Outcome(pattern, text, c)
    ensures Hope(pattern, text, c)
    decreases |text| - c.mark, |pattern| - c.p
  {
    if c.t == |text| {
      StarsMatchNothing(pattern, c.p, text);
    } else if c.p < |pattern| && Takes(pattern[c.p], text[c.t]) {
      OutcomeSound(pattern, text, c.(p := c.p + 1, t := c.t + 1));
      if pattern[c.p] == '*' && Matches(pattern, c.p + 1, text, c.t + 1) {
        assert Matches(pattern, c.p, text, c.t + 1);
      }
    } else if c.p < |pattern| && pattern[c.p] == '*' {
      OutcomeSound(pattern, text, Cursor(c.p + 1, c.t, Some(c.p), c.t));
    } else {
      OutcomeSound(pattern, text, Cursor(c.star.value + 1, c.mark + 1, c.star, c.mark + 1));
    }
  }

  /** No false match, for every pattern and every text. */
  lemma MatchesAreReal(pattern: string, text: string)
    requires GlobMatches(pattern, text)
    ensures Matches(pattern, 0, text, 0)
  {
    OutcomeSound(pattern, text, START);
  }

  predicate Free(text: string) {
    forall i | 0 <= i < |text| :: text[i] != '*'
  }

  /** Between the last star and the cursor the pattern is plain, one byte for one byte. */
  ghost predicate Plain(pattern: string, text: string, c: Cursor)
    requires InRange(pattern, text, c)
  {
    c.star.Some? ==>
      && c.p - c.star.value - 1 == c.t - c.mark
      && forall i | c.star.value < i < c.p :: pattern[i] != '*'
  }

  /** A star may as well start its run earlier. */
  lemma {:induction false} StarReachesBack(pattern: string, p: nat, text: string, t: nat, k: nat)
    requires p < |pattern| && pattern[p] == '*' && t <= k <= |text|
    requires Matches(pattern, p, text, k)
    ensures Matches(pattern, p, text, t)
    decreases k - t
  {
    if t < k {
      StarReachesBack(pattern, p, text, t + 1, k);
    }
  }

  /** A plain stretch uses exactly as many bytes as it is long. */
  lemma {:induction false} PlainStretch(pattern: string, q: nat, p: nat, text: string, k: nat)
    requires q <= p <= |pattern| && k <= |text| && Matches(pattern, q, text, k)
    requires forall i | q <= i < p :: pattern[i] != '*'
    ensures k + (p - q) <= |text| && Matches(pattern, p, text, k + (p - q))
    decreases p - q
  {
    if q < p {
      PlainStretch(pattern, q + 1, p, text, k + 1);
    }
  }

  /** The position a star's run ends at. */
  lemma {:induction false} RunEnd(pattern: string, p: nat, text: string, t: nat) returns (k: nat)
    requires p < |pattern| && pattern[p] == '*' && t <= |text| && Matches(pattern, p, text, t)
    ensures t <= k <= |text| && Matches(pattern, p + 1, text, k)
    decreases |text| - t
  {
    if Matches(pattern, p + 1, text, t) {
      k := t;
    } else {
      k := RunEnd(pattern, p, text, t + 1);
    }
  }

  /** Moving the last star further uses up the text faster than the cursor did: whatever
      the older star could still achieve leaves the cursor's position at or behind it. */
  lemma OlderStarLands(pattern: string, text: string, c: Cursor) returns (k: nat)
    requires InRange(pattern, text, c) && Plain(pattern, text, c)
    requires c.star.Some? && c.mark < |text| && Matches(pattern, c.star.value, text, c.mark + 1)
    ensures c.t < k <= |text| && Matches(pattern, c.p, text, k)
  {
    var start := RunEnd(pattern, c.star.value, text, c.mark + 1);
    PlainStretch(pattern, c.star.value + 1, c.p, text, start);
    k := start + (c.p - c.star.value - 1);
  }

  /** On a text without stars the loop finds every match: dropping all but the most recent
      backtrack point loses none. */
  lemma {:induction false} OutcomeComplete(pattern: string, text: string, c: Cursor)
    requires Free(text) && InRange(pattern, text, c) && Plain(pattern, text, c)
    requires Hope(pattern, text, c)
    ensures Outcome(pattern, text, c)
    decreases |text| - c.mark, |pattern| - c.p
  {
    if c.t == |text| {
      if !Matches(pattern, c.p, text, c.t) {
        var k := OlderStarLands(pattern, text, c);
      }
      StarsMatchNothing(pattern, c.p, text);
    } else if c.p < |pattern| && Takes(pattern[c.p], text[c.t]) {
      OutcomeComplete(pattern, text, c.(p := c.p + 1, t := c.t + 1));
    } else if c.p < |pattern| && pattern[c.p] == '*' {
      if !Matches(pattern, c.p, text, c.t) {
        var k := OlderStarLands(pattern, text, c);
        StarReachesBack(pattern, c.p, text, c.t, k);
      }
      OutcomeComplete(pattern, text, Cursor(c.p + 1, c.t, Some(c.p), c.t));
    } else {
      assert !Matches(pattern, c.p, text, c.t);
      OutcomeComplete(pattern, text, Cursor(c.star.value + 1, c.mark + 1, c.star, c.mark + 1));
    }
  }

  /** Against a text with a star: a pattern of question marks up to that star, the star, and
      one question mark more than the text has left. It matches, and the loop refuses it. */
  function Refused(text: string, i: nat): string
    requires i < |text|
  {
    Marks(i) + "*" + Marks(|text| - i)
  }

  function Marks(n: nat): string {
    seq(n, _ => '?')
  }

  lemma {:induction false} MarksMatch(pattern: string, p: nat, text: string, t: nat)
    requires p <= |pattern| && t <= |text| && |pattern| - p == |text| - t
    requires forall i | p <= i < |pattern| :: pattern[i] == '?'
    ensures Matches(pattern, p, text, t)
    decreases |pattern| - p
  {
    if p < |pattern| {
      MarksMatch(pattern, p + 1, text, t + 1);
    }
  }

  lemma {:induction false} RefusedMatches(text: string, i: nat, n: nat)
    requires i < |text| && n <= i
    ensures Matches(Refused(text, i), n, text, n)
    decreases i - n
  {
    var pattern := Refused(text, i);
    if n < i {
      RefusedMatches(text, i, n + 1);
    } else {
      MarksMatch(pattern, i + 1, text, i);
    }
  }

  lemma {:induction false} RefusedByLoop(text: string, i: nat, n: nat)
    requires i < |text| && text[i] == '*' && n <= |text|
    ensures !Outcome(Refused(text, i), text, Cursor(n, n, None, 0))
    decreases |text| - n
  {
    var pattern := Refused(text, i);
    if n < |text| {
      assert Takes(pattern[n], text[n]);
      RefusedByLoop(text, i, n + 1);
    } else {
      assert pattern[n] == '?';
    }
  }

  /** A text is judged correctly by every pattern if and only if it holds no star. */
  lemma CorrectExactlyWithoutStars(text: string)
    ensures Free(text) <==>
            forall pattern :: GlobMatches(pattern, text) == Matches(pattern, 0, text, 0)
  {
    if Free(text) {
      forall pattern ensures GlobMatches(pattern, text) == Matches(pattern, 0, text, 0) {
        if GlobMatches(pattern, text) { MatchesAreReal(pattern, text); }
        if Matches(pattern, 0, text, 0) { OutcomeComplete(pattern, text, START); }
      }
    } else {
      var i :| 0 <= i < |text| && text[i] == '*';
      RefusedMatches(text, i, 0);
      RefusedByLoop(text, i, 0);
      assert GlobMatches(Refused(text, i), text) != Matches(Refused(text, i), 0, text, 0);
    }
  }

  // ---- the same from the side of the pattern -----------------------------------------

  /** Without a star in what is left of the pattern and none met so far, the loop goes byte by
      byte, as the meaning does. */
  lemma {:induction false} PlainPatternIsExact(pattern: string, text: string, n: nat)
    requires n <= |pattern| && n <= |text| && forall i | n <= i < |pattern| :: pattern[i] != '*'
    ensures Outcome(pattern, text, Cursor(n, n, None, 0)) == Matches(pattern, n, text, n)
    ensures |pattern| != |text| ==> !Matches(pattern, n, text, n)
    decreases |pattern| - n
  {
    if n < |pattern| && n < |text| {
      PlainPatternIsExact(pattern, text, n + 1);
    } else if n < |pattern| {
      assert pattern[n] != '*';
    }
  }

  /** A text equal to the pattern up to `i` is eaten byte by byte, stars included. */
  lemma {:induction false} EqualBytesAreEaten(pattern: string, text: string, n: nat, i: nat)
    requires n <= i <= |pattern| && i <= |text| && pattern[..i] == text[..i]
    ensures Outcome(pattern, text, Cursor(n, n, None, 0)) == Outcome(pattern, text, Cursor(i, i, None, 0))
    decreases i - n
  {
    if n < i {
      assert pattern[n] == pattern[..i][n] == text[..i][n] == text[n];
      EqualBytesAreEaten(pattern, text, n + 1, i);
    }
  }

  lemma {:induction false} EqualBytesMatch(pattern: string, p: nat, text: string, t: nat, n: nat)
    requires p + n <= |pattern| && t + n <= |text| && pattern[p..p + n] == text[t..t + n]
    requires Matches(pattern, p + n, text, t + n)
    ensures Matches(pattern, p, text, t)
    decreases n
  {
    if n > 0 {
      assert pattern[p] == pattern[p..p + n][0] == text[t..t + n][0] == text[t];
      assert pattern[p + 1..p + n] == pattern[p..p + n][1..] == text[t..t + n][1..] == text[t + 1..t + n];
      EqualBytesMatch(pattern, p + 1, text, t + 1, n - 1);
      if pattern[p] == '*' {
        assert Matches(pattern, p + 1, text, t + 1);
        StarTakesOne(pattern, p, text, t);
      }
    }
  }

  lemma StarTakesOne(pattern: string, p: nat, text: string, t: nat)
    requires p < |pattern| && pattern[p] == '*' && t < |text| && Matches(pattern, p + 1, text, t + 1)
    ensures Matches(pattern, p, text, t)
  {
    assert Matches(pattern, p, text, t + 1);
  }

  /** The pattern itself with one more byte behind its last star: the star could take both. */
  function Stretched(pattern: string, i: nat): string
    requires i < |pattern|
  {
    pattern[..i + 1] + "x" + pattern[i + 1..]
  }

  lemma StretchedParts(pattern: string, i: nat)
    requires i < |pattern|
    ensures var text, m := Stretched(pattern, i), |pattern| - i - 1;
            && |text| == |pattern| + 1 && text[0..i] == pattern[0..i] && text[..i + 1] == pattern[..i + 1]
            && text[i + 2..i + 2 + m] == pattern[i + 1..i + 1 + m]
  {
  }

  lemma StarTakesTwo(pattern: string, p: nat, text: string, t: nat)
    requires p < |pattern| && pattern[p] == '*' && t + 1 < |text| && Matches(pattern, p + 1, text, t + 2)
    ensures Matches(pattern, p, text, t)
  {
    StarTakesOne(pattern, p, text, t + 1);
  }

  lemma TailMatches(pattern: string, p: nat, text: string, t: nat)
    requires p <= |pattern| && t <= |text| && |pattern| - p == |text| - t
    requires pattern[p..p + (|text| - t)] == text[t..t + (|text| - t)]
    ensures Matches(pattern, p, text, t)
  {
    EqualBytesMatch(pattern, p, text, t, |text| - t);
  }

  lemma StretchedMatches(pattern: string, i: nat, text: string)
    requires i < |pattern| && pattern[i] == '*' && |text| == |pattern| + 1 && text[0..i] == pattern[0..i]
    requires text[i + 2..i + 2 + (|pattern| - i - 1)] == pattern[i + 1..i + 1 + (|pattern| - i - 1)]
    ensures Matches(pattern, 0, text, 0)
  {
    TailMatches(pattern, i + 1, text, i + 2);
    StarTakesTwo(pattern, i, text, i);
    EqualBytesMatch(pattern, 0, text, 0, i);
  }

  lemma StretchedIsRefused(pattern: string, i: nat)
    requires i < |pattern| && pattern[i] == '*' && forall j | i < j < |pattern| :: pattern[j] != '*'
    ensures !GlobMatches(pattern, Stretched(pattern, i))
  {
    var text := Stretched(pattern, i);
    StretchedParts(pattern, i);
    EqualBytesAreEaten(pattern, text, 0, i + 1);
    PlainPatternIsExact(pattern, text, i + 1);
  }

  lemma {:induction false} LastStar(pattern: string, n: nat) returns (i: nat)
    requires n <= |pattern| && exists j | 0 <= j < n :: pattern[j] == '*'
    requires forall j | n <= j < |pattern| :: pattern[j] != '*'
    ensures i < |pattern| && pattern[i] == '*' && forall j | i < j < |pattern| :: pattern[j] != '*'
    decreases n
  {
    if pattern[n - 1] == '*' {
      i := n - 1;
    } else {
      i := LastStar(pattern, n - 1);
    }
  }

  /** A pattern judges every text correctly if and only if it holds no star. */
  lemma CorrectExactlyForPlainPatterns(pattern: string)
    ensures Free(pattern) <==>
            forall text :: GlobMatches(pattern, text) == Matches(pattern, 0, text, 0)
  {
    if Free(pattern) {
      forall text ensures GlobMatches(pattern, text) == Matches(pattern, 0, text, 0) {
        PlainPatternIsExact(pattern, text, 0);
      }
    } else {
      var i := LastStar(pattern, |pattern|);
      StretchedParts(pattern, i);
      StretchedMatches(pattern, i, Stretched(pattern, i));
      StretchedIsRefused(pattern, i);
      assert GlobMatches(pattern, Stretched(pattern, i)) != Matches(pattern, 0, Stretched(pattern, i), 0);
    }
  }

  lemma {:induction false} StarRunsToTheEnd(text: string, k: nat)
    requires k <= |text|
    ensures Outcome("*", text, Cursor(1, k, Some(0), k))
    decreases |text| - k
  {
    if k < |text| {
      StarRunsToTheEnd(text, k + 1);
    }
  }

  /** What the pattern `*` really selects: everything but the texts of two bytes and more that
      start with a star. */
  lemma LoneStar(text: string)
    ensures GlobMatches("*", text) <==> text == "" || text[0] != '*' || text == "*"
  {
    if text != "" && text[0] != '*' {
      StarRunsToTheEnd(text, 0);
    } else if text != "" {
      assert Outcome("*", text, START) == Outcome("*", text, Cursor(1, 1, None, 0));
      assert |text| == 1 <==> text == "*";
    }
  }

  // ---- the meaning of a pattern, by bytes --------------------------------------------

  /** The pattern selects the text: byte 42 stands for any run of bytes, byte 63 for any one byte,
      every other byte for itself. */
  ghost predicate Selects(pattern: string, text: string)
    decreases |pattern|
  {
    if pattern == "" then text == ""
    else if pattern[0] as int == 42 then exists k | 0 <= k <= |text| :: Selects(pattern[1..], text[k..])
    else text != "" && (pattern[0] as int == 63 || pattern[0] == text[0]) && Selects(pattern[1..], text[1..])
  }

  /** `Matches`, which moves two cursors, is this. */
  lemma {:induction false} MatchesExactly(pattern: string, p: nat, text: string, t: nat)
    requires p <= |pattern| && t <= |text|
    ensures Matches(pattern, p, text, t) <==> Selects(pattern[p..], text[t..])
    decreases |pattern| - p, |text| - t
  {
    if p < |pattern| {
      var rest := pattern[p..];
      assert rest[0] == pattern[p] && rest[1..] == pattern[p + 1..];
      if pattern[p] == '*' {
        MatchesExactly(pattern, p + 1, text, t);
        assert text[t..][0..] == text[t..];
        if t < |text| {
          MatchesExactly(pattern, p, text, t + 1);
          StarTakesMore(rest, text[t..]);
          assert text[t..][1..] == text[t + 1..];
        }
      } else if t < |text| {
        MatchesExactly(pattern, p + 1, text, t + 1);
        assert text[t..][0] == text[t] && text[t..][1..] == text[t + 1..];
      }
    }
  }

  lemma StarTakesMore(rest: string, text: string)
    requires rest != "" && rest[0] as int == 42 && text != ""
    ensures Selects(rest, text) <==> Selects(rest[1..], text) || Selects(rest, text[1..])
  {
    assert text[0..] == text;
    if Selects(rest, text) {
      var k :| 0 <= k <= |text| && Selects(rest[1..], text[k..]);
      if k > 0 {
        assert text[1..][k - 1..] == text[k..];
      }
    }
    if Selects(rest, text[1..]) {
      var k :| 0 <= k <= |text[1..]| && Selects(rest[1..], text[1..][k..]);
      assert text[1..][k..] == text[k + 1..];
    }
  }

  /** So `glob_match` never selects what the pattern does not, and agrees with it on every text if
      the pattern holds no star, and for every pattern if the text holds none. */
  lemma GlobSelects(pattern: string, text: string)
    ensures GlobMatches(pattern, text) ==> Selects(pattern, text)
    ensures (forall i | 0 <= i < |pattern| :: pattern[i] as int != 42) || (forall i | 0 <= i < |text| :: text[i] as int != 42) ==>
              (GlobMatches(pattern, text) <==> Selects(pattern, text))
  {
    assert pattern[0..] == pattern && text[0..] == text;
    MatchesExactly(pattern, 0, text, 0);
    if GlobMatches(pattern, text) {
      MatchesAreReal(pattern, text);
    }
    if forall i | 0 <= i < |pattern| :: pattern[i] as int != 42 {
      assert Free(pattern);
      CorrectExactlyForPlainPatterns(pattern);
    } else if forall i | 0 <= i < |text| :: text[i] as int != 42 {
      assert Free(text);
      CorrectExactlyWithoutStars(text);
    }
  }
}
