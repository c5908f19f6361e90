/**
 The bypass list's wildcard matcher: a two-pointer loop that, on a mismatch,
 goes back to the last star only.
 */
module Glob {

  /** What a pattern means: `*` is any byte string, `?` any byte, other bytes themselves. */
  ghost predicate Matches(pattern: string, text: string)
    decreases |pattern|
  {
    if pattern == "" then text == ""
    else if pattern[0] == '*' then exists k :: 0 <= k <= |text| && Matches(pattern[1..], text[k..])
    else text != "" && (pattern[0] == '?' || pattern[0] == text[0]) && Matches(pattern[1..], text[1..])
  }

  predicate AllStars(pattern: string) {
    forall i :: 0 <= i < |pattern| ==> pattern[i] == '*'
  }

  /** The matcher's position: `p` in the pattern, `t` in the text, and, once a star has
      been passed, its index and the text position its match resumes from. */
  datatype Cursor = Cursor(p: nat, t: nat, starred: bool, star: nat, resume: nat)

  predicate InRange(c: Cursor, pattern: string, text: string) {
    && c.p <= |pattern| && c.t <= |text|
    && (c.starred ==> c.star < |pattern| && c.resume <= c.t && c.star < c.p)
  }

  /** One turn of the loop; `None` when it gives up. Each turn moves the last star right,
      or keeps it and moves the resume point right, or keeps both and moves on. */
  function Loop(pattern: string, text: string, c: Cursor): bool
    requires InRange(c, pattern, text)
    decreases |pattern| - (if c.starred then c.star + 1 else 0), |text| - c.resume, |text| - c.t, |pattern| - c.p
  {
    if c.t >= |text| then AllStars(pattern[c.p..])
    else if c.p < |pattern| && (pattern[c.p] == text[c.t] || pattern[c.p] == '?') then
      Loop(pattern, text, c.(p := c.p + 1, t := c.t + 1))
    else if c.p < |pattern| && pattern[c.p] == '*' then
      Loop(pattern, text, Cursor(c.p + 1, c.t, true, c.p, c.t))
    else if c.starred then
      Loop(pattern, text, c.(p := c.star + 1, t := c.resume + 1, resume := c.resume + 1))
    else false
  }

  function GlobMatches(pattern: string, text: string): bool {
    Loop(pattern, text, Cursor(0, 0, false, 0, 0))
  }

  method MatchGlob(pattern: string, text: string) returns (r: bool)
    ensures r == GlobMatches(pattern, text)
    ensures '*' !in text ==> r == Matches(pattern, text)
  {
    if '*' !in text {
      GlobIsCorrect(pattern, text);
    }
    var p, t := 0, 0;
    var starred, star, resume := false, 0, 0;
    while t < |text|
      invariant 0 <= p && 0 <= t && 0 <= star && 0 <= resume
      invariant InRange(Cursor(p, t, starred, star, resume), pattern, text)
      invariant GlobMatches(pattern, text) == Loop(pattern, text, Cursor(p, t, starred, star, resume))
      decreases |pattern| - (if starred then star + 1 else 0), |text| - resume, |text| - t, |pattern| - p
    {
      if p < |pattern| && (pattern[p] == text[t] || pattern[p] == '?') {
        p, t := p + 1, t + 1;
      } else if p < |pattern| && pattern[p] == '*' {
        starred, star := true, p;
        resume := t;
        p := p + 1;
      } else if starred {
        p := star + 1;
        resume := resume + 1;
        t := resume;
      } else {
        return false;
      }
    }
    return AllStars(pattern[p..]);
  }

  // ---- the loop decides the meaning, on texts without a star -------------

  lemma {:induction false} StarsMatchEmpty(pattern: string)
    ensures Matches(pattern, "") <==> AllStars(pattern)
  {
    if pattern != "" {
      StarsMatchEmpty(pattern[1..]);
      assert forall k :: 0 <= k <= |""| ==> ""[k..] == "";
      if pattern[0] == '*' {
        assert ""[0..] == "";
        if AllStars(pattern[1..]) {
          assert AllStars(pattern);
        } else {
          var i :| 0 <= i < |pattern[1..]| && pattern[1..][i] != '*';
          assert pattern[i + 1] != '*';
        }
      }
    }
  }

  /** Any longer alternative the last star still has. */
  ghost predicate Retry(pattern: string, text: string, c: Cursor)
    requires InRange(c, pattern, text)
  {
    c.starred && exists k :: c.resume < k <= |text| && Matches(pattern[c.star + 1..], text[k..])
  }

  /** Since the last star the pattern has no star and was matched byte for byte. */
  predicate SegmentOpen(c: Cursor, pattern: string, text: string)
    requires InRange(c, pattern, text)
  {
    c.starred ==> c.p - (c.star + 1) == c.t - c.resume
                  && forall i :: c.star < i < c.p ==> pattern[i] != '*'
  }

  /** A pattern whose first star comes after `n` other bytes uses up at least `n` bytes
      before what follows that star. */
  lemma {:induction false} StarAfter(pattern: string, n: nat, text: string)
    requires n < |pattern| && pattern[n] == '*' && forall i :: 0 <= i < n ==> pattern[i] != '*'
    requires Matches(pattern, text)
    ensures exists k :: n <= k <= |text| && Matches(pattern[n + 1..], text[k..])
    decreases n
  {
    if n > 0 {
      StarAfter(pattern[1..], n - 1, text[1..]);
      var k :| n - 1 <= k <= |text[1..]| && Matches(pattern[1..][n..], text[1..][k..]);
      assert pattern[1..][n..] == pattern[n + 1..] && text[1..][k..] == text[k + 1..];
    }
  }

  lemma StarHere(pattern: string, text: string, p: nat, t: nat)
    requires p < |pattern| && pattern[p] == '*' && t <= |text|
    ensures Matches(pattern[p..], text[t..])
       <==> exists k :: t <= k <= |text| && Matches(pattern[p + 1..], text[k..])
  {
    assert pattern[p..][1..] == pattern[p + 1..];
    forall k | 0 <= k <= |text[t..]| ensures text[t..][k..] == text[t + k..] {
    }
    if exists k :: t <= k <= |text| && Matches(pattern[p + 1..], text[k..]) {
      var k :| t <= k <= |text| && Matches(pattern[p + 1..], text[k..]);
      assert text[t..][k - t..] == text[k..];
    }
  }

  /** The alternatives of an earlier star are all alternatives of the star just met. */
  lemma EarlierStarIsCovered(pattern: string, text: string, c: Cursor)
    requires InRange(c, pattern, text) && SegmentOpen(c, pattern, text)
    requires c.p < |pattern| && pattern[c.p] == '*' && Retry(pattern, text, c)
    ensures Matches(pattern[c.p..], text[c.t..])
  {
    hide Matches;
    var k :| c.resume < k <= |text| && Matches(pattern[c.star + 1..], text[k..]);
    var n := c.p - (c.star + 1);
    StarAfter(pattern[c.star + 1..], n, text[k..]);
    var j :| n <= j <= |text[k..]| && Matches(pattern[c.star + 1..][n + 1..], text[k..][j..]);
    assert pattern[c.star + 1..][n + 1..] == pattern[c.p + 1..] && text[k..][j..] == text[k + j..];
    assert c.t <= k + j;
    StarHere(pattern, text, c.p, c.t);
  }

  lemma ByteStep(pattern: string, text: string, p: nat, t: nat)
    requires p < |pattern| && t < |text| && pattern[p] != '*'
    ensures Matches(pattern[p..], text[t..])
       <==> (pattern[p] == '?' || pattern[p] == text[t]) && Matches(pattern[p + 1..], text[t + 1..])
  {
    assert pattern[p..][1..] == pattern[p + 1..] && text[t..][1..] == text[t + 1..];
  }

  /** Going back to the last star tries its next alternative. */
  lemma RetryStep(pattern: string, text: string, c: Cursor)
    requires InRange(c, pattern, text) && c.starred && c.t < |text|
    ensures var next := c.(p := c.star + 1, t := c.resume + 1, resume := c.resume + 1);
            Retry(pattern, text, c) <==> (Matches(pattern[next.p..], text[next.t..]) || Retry(pattern, text, next))
  {
    hide Matches;
  }

  /** From any position the loop answers whether the rest matches the rest, or some later
      alternative of the last star does. */
  lemma {:induction false} LoopIsCorrect(pattern: string, text: string, c: Cursor)
    requires '*' !in text
    requires InRange(c, pattern, text) && SegmentOpen(c, pattern, text)
    ensures Loop(pattern, text, c) <==> Matches(pattern[c.p..], text[c.t..]) || Retry(pattern, text, c)
    decreases |pattern| - (if c.starred then c.star + 1 else 0), |text| - c.resume, |text| - c.t, |pattern| - c.p
  {
    hide Matches;
    if c.t >= |text| {
      AtEnd(pattern, text, c);
    } else if c.p < |pattern| && (pattern[c.p] == text[c.t] || pattern[c.p] == '?') {
      assert pattern[c.p] != '*' by { assert text[c.t] in text; }
      LoopIsCorrect(pattern, text, c.(p := c.p + 1, t := c.t + 1));
      ByteStep(pattern, text, c.p, c.t);
    } else if c.p < |pattern| && pattern[c.p] == '*' {
      LoopIsCorrect(pattern, text, Cursor(c.p + 1, c.t, true, c.p, c.t));
      NewStar(pattern, text, c);
    } else {
      NoMatchHere(pattern, text, c);
      if c.starred {
        LoopIsCorrect(pattern, text, c.(p := c.star + 1, t := c.resume + 1, resume := c.resume + 1));
        RetryStep(pattern, text, c);
      }
    }
  }

  lemma NewStar(pattern: string, text: string, c: Cursor)
    requires InRange(c, pattern, text) && SegmentOpen(c, pattern, text)
    requires c.p < |pattern| && pattern[c.p] == '*'
    ensures var next := Cursor(c.p + 1, c.t, true, c.p, c.t);
            (Matches(pattern[c.p..], text[c.t..]) || Retry(pattern, text, c)) <==>
            (Matches(pattern[next.p..], text[next.t..]) || Retry(pattern, text, next))
  {
    hide Matches;
    StarHere(pattern, text, c.p, c.t);
    if Retry(pattern, text, c) {
      EarlierStarIsCovered(pattern, text, c);
    }
  }

  lemma NoMatchHere(pattern: string, text: string, c: Cursor)
    requires InRange(c, pattern, text) && c.t < |text|
    requires c.p < |pattern| ==> pattern[c.p] !in {'*', '?', text[c.t]}
    ensures !Matches(pattern[c.p..], text[c.t..])
  {
    if c.p < |pattern| {
      ByteStep(pattern, text, c.p, c.t);
    }
  }

  lemma AtEnd(pattern: string, text: string, c: Cursor)
    requires InRange(c, pattern, text) && SegmentOpen(c, pattern, text) && c.t == |text|
    ensures AllStars(pattern[c.p..]) <==> Matches(pattern[c.p..], text[c.t..]) || Retry(pattern, text, c)
  {
    assert text[c.t..] == "";
    StarsMatchEmpty(pattern[c.p..]);
    if Retry(pattern, text, c) {
      var k :| c.resume < k <= |text| && Matches(pattern[c.star + 1..], text[k..]);
      var n := c.p - (c.star + 1);
      TooShort(pattern[c.star + 1..], n, text[k..]);
      assert false;
    }
  }

  lemma {:induction false} TooShort(pattern: string, n: nat, text: string)
    requires n <= |pattern| && forall i :: 0 <= i < n ==> pattern[i] != '*'
    requires |text| < n
    ensures !Matches(pattern, text)
    decreases n
  {
    if text != "" {
      TooShort(pattern[1..], n - 1, text[1..]);
    }
  }

  lemma GlobIsCorrect(pattern: string, text: string)
    requires '*' !in text
    ensures GlobMatches(pattern, text) == Matches(pattern, text)
  {
    LoopIsCorrect(pattern, text, Cursor(0, 0, false, 0, 0));
    assert pattern[0..] == pattern && text[0..] == text;
  }

  // ---- and on no other text ----------------------------------------------

  function Questions(n: nat): string {
    seq(n, _ => '?')
  }

  lemma {:induction false} QuestionsMatch(n: nat, text: string)
    ensures Matches(Questions(n), text) <==> |text| == n
  {
    if n > 0 {
      assert Questions(n)[1..] == Questions(n - 1);
      if text != "" {
        QuestionsMatch(n - 1, text[1..]);
      }
    }
  }

  lemma {:induction false} QuestionsThen(n: nat, rest: string, text: string)
    requires n <= |text|
    ensures Matches(Questions(n) + rest, text) == Matches(rest, text[n..])
  {
    var pattern := Questions(n) + rest;
    if n == 0 {
      assert pattern == rest && text[0..] == text;
    } else {
      assert pattern[1..] == Questions(n - 1) + rest;
      QuestionsThen(n - 1, rest, text[1..]);
      assert text[1..][n - 1..] == text[n..];
    }
  }

  /** Whatever comes before, the loop takes a star in the text for the star in the pattern
      and so never learns that the pattern's star could stand for nothing. */
  lemma {:induction false} LoopTakesStar(pattern: string, text: string, c: Cursor)
    requires InRange(c, pattern, text) && !c.starred && c.p == c.t && |pattern| == |text| + 1
    requires forall i :: 0 <= i < |pattern| ==> pattern[i] == '?' || (pattern[i] == '*' && i < |text| && text[i] == '*')
    ensures !Loop(pattern, text, c)
    decreases |text| - c.t
  {
    if c.t < |text| {
      LoopTakesStar(pattern, text, c.(p := c.p + 1, t := c.t + 1));
    } else {
      assert pattern[c.p..][0] == '?';
    }
  }

  /** The loop has the pattern language's meaning on a text, for every pattern, exactly when
      the text has no star byte. */
  lemma GlobIsCorrectIff(text: string)
    ensures (forall pattern :: GlobMatches(pattern, text) == Matches(pattern, text)) <==> '*' !in text
  {
    if '*' !in text {
      forall pattern ensures GlobMatches(pattern, text) == Matches(pattern, text) {
        GlobIsCorrect(pattern, text);
      }
    } else {
      var i :| 0 <= i < |text| && text[i] == '*';
      var after := |text| - i;
      var pattern := Questions(i) + ("*" + Questions(after));
      assert |pattern| == |text| + 1;
      LoopTakesStar(pattern, text, Cursor(0, 0, false, 0, 0));
      QuestionsThen(i, "*" + Questions(after), text);
      QuestionsMatch(after, text[i..]);
      assert ("*" + Questions(after))[1..] == Questions(after) && text[i..][0..] == text[i..];
      assert Matches("*" + Questions(after), text[i..]);
    }
  }
}
