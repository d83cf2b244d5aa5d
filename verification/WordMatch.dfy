/**
 * The scoring of a guess in the word game: greedy matching, letters compared without case.
 * Source: unpv13e/hw2_server.c.
 */
module WordMatch {
  const NUL := 0 as char

  /** tolower in the C locale. */
  function Lower(c: char): char
  {
    if 'A' <= c <= 'Z' then (c as int + 32) as char else c
  }

  /** Two characters are equal without case exactly when they are equal or the two cases of one letter. */
  lemma {:induction false} LowerIdentifies(c: char, d: char)
    ensures Lower(c) == Lower(d) <==>
            || c == d
            || ('A' <= c <= 'Z' && d as int == c as int + 32)
            || ('A' <= d <= 'Z' && c as int == d as int + 32)
  {
  }

  function Fold(s: seq<char>): (f: seq<char>)
    ensures |f| == |s|
  {
    seq(|s|, i requires 0 <= i < |s| => Lower(s[i]))
  }

  /** Positions at which two words agree. */
  function Agreeing(a: seq<char>, b: seq<char>): (n: nat)
    ensures n <= |a| && n <= |b|
  {
    if a == [] || b == [] then 0 else (if a[0] == b[0] then 1 else 0) + Agreeing(a[1..], b[1..])
  }

  /** The positions themselves. */
  function Positions(a: seq<char>, b: seq<char>, n: nat): set<nat>
    requires n <= |a| && n <= |b|
  {
    set i: nat | i < n && a[i] == b[i]
  }

  lemma {:induction false} AgreeingIsCount(a: seq<char>, b: seq<char>)
    requires |a| == |b|
    ensures Agreeing(a, b) == |Positions(a, b, |a|)|
    decreases |a|
  {
    if a == [] {
      assert Positions(a, b, 0) == {};
    } else {
      hide Agreeing;
      var n := |a| - 1;
      AgreeingIsCount(a[..n], b[..n]);
      AgreeingSnoc(a[..n], b[..n], a[n], b[n]);
      assert a == a[..n] + [a[n]] && b == b[..n] + [b[n]];
      PositionsStep(a, b, n);
    }
  }

  lemma {:induction false} PositionsStep(a: seq<char>, b: seq<char>, n: nat)
    requires n < |a| && n < |b|
    ensures |Positions(a, b, n + 1)| == |Positions(a[..n], b[..n], n)| + if a[n] == b[n] then 1 else 0
  {
    var before := Positions(a[..n], b[..n], n);
    if a[n] == b[n] {
      assert Positions(a, b, n + 1) == before + {n};
    } else {
      assert Positions(a, b, n + 1) == before;
    }
  }

  lemma {:induction false} AgreeingSnoc(a: seq<char>, b: seq<char>, c: char, d: char)
    requires |a| == |b|
    ensures Agreeing(a + [c], b + [d]) == Agreeing(a, b) + if c == d then 1 else 0
  {
    if a != [] {
      assert (a + [c])[1..] == a[1..] + [c] && (b + [d])[1..] == b[1..] + [d];
      AgreeingSnoc(a[1..], b[1..], c, d);
    } else {
      assert Agreeing([c], [d]) == (if c == d then 1 else 0) + Agreeing([], []);
    }
  }

  /** The letters two words have in common, counted with multiplicity. */
  function Common(a: seq<char>, b: seq<char>): nat
  {
    |multiset(a) * multiset(b)|
  }

  // ----- the greedy matching -----

  /** The letters of the secret not matched yet. */
  function Unused(secret: seq<char>, used: seq<int>): multiset<char>
    requires |used| == |secret|
  {
    if secret == [] then multiset{}
    else (if used[0] == 0 then multiset{secret[0]} else multiset{}) + Unused(secret[1..], used[1..])
  }

  lemma {:induction false} UnusedAtStart(secret: seq<char>, used: seq<int>)
    requires |used| == |secret| && forall j :: 0 <= j < |used| ==> used[j] == 0
    ensures Unused(secret, used) == multiset(secret)
  {
    if secret != [] {
      UnusedAtStart(secret[1..], used[1..]);
      assert secret == [secret[0]] + secret[1..];
    }
  }

  lemma {:induction false} UnusedHas(secret: seq<char>, used: seq<int>, c: char)
    requires |used| == |secret|
    ensures c in Unused(secret, used) <==> exists j :: 0 <= j < |secret| && secret[j] == c && used[j] == 0
  {
    if secret != [] {
      UnusedHas(secret[1..], used[1..], c);
      if c in Unused(secret[1..], used[1..]) {
        var j :| 0 <= j < |secret[1..]| && secret[1..][j] == c && used[1..][j] == 0;
        assert secret[j + 1] == c && used[j + 1] == 0;
      }
      if j :| 0 <= j < |secret| && secret[j] == c && used[j] == 0 {
        assert j > 0 ==> secret[1..][j - 1] == c && used[1..][j - 1] == 0;
      }
    }
  }

  lemma {:induction false} UnusedTake(secret: seq<char>, used: seq<int>, j: nat)
    requires |used| == |secret| && j < |secret| && used[j] == 0
    ensures Unused(secret, used) == Unused(secret, used[j := 1]) + multiset{secret[j]}
  {
    if j == 0 {
      assert used[0 := 1][1..] == used[1..];
    } else {
      UnusedTake(secret[1..], used[1..], j - 1);
      assert used[j := 1][1..] == used[1..][j - 1 := 1];
    }
  }

  /** One more guessed letter: it adds to the common letters exactly when the secret has one left. */
  lemma {:induction false} OneMore(s: multiset<char>, g: multiset<char>, c: char)
    ensures s - (g + multiset{c}) == (s - g) - multiset{c}
    ensures |s * (g + multiset{c})| == |s * g| + if c in s - g then 1 else 0
  {
    if c in s - g {
      assert s * (g + multiset{c}) == s * g + multiset{c};
    } else {
      assert s * (g + multiset{c}) == s * g;
    }
  }

  /** After the letters `g` of the guess: what is left of the secret, and the count so far. */
  ghost predicate Matched(s: seq<char>, g: seq<char>, unused: multiset<char>, correct: int)
  {
    unused == multiset(s) - multiset(g) && correct == Common(s, g)
  }

  lemma {:induction false} MatchedStep(s: seq<char>, g: seq<char>, c: char, unused: multiset<char>, correct: int)
    requires Matched(s, g, unused, correct)
    ensures c in unused ==> Matched(s, g + [c], unused - multiset{c}, correct + 1)
    ensures c !in unused ==> Matched(s, g + [c], unused, correct)
  {
    OneMore(multiset(s), multiset(g), c);
    assert c !in unused ==> unused - multiset{c} == unused;
  }

  /** The inner loop: the first unused letter of the secret equal to c, or |secret|. */
  method FirstUnused(secret: seq<char>, used: array<int>, c: char) returns (j: nat)
    requires used.Length == |secret|
    ensures j <= |secret|
    ensures j < |secret| ==> Lower(secret[j]) == Lower(c) && used[j] == 0
    ensures j < |secret| <==> Lower(c) in Unused(Fold(secret), used[..])
  {
    UnusedHas(Fold(secret), used[..], Lower(c));
    j := 0;
    while j < |secret| && !(Lower(c) == Lower(secret[j]) && used[j] == 0)
      invariant 0 <= j <= |secret|
      invariant forall k :: 0 <= k < j ==> !(Fold(secret)[k] == Lower(c) && used[..][k] == 0)
    {
      j := j + 1;
    }
    assert j < |secret| ==> Fold(secret)[j] == Lower(c) && used[..][j] == 0;
  }

  /** Lines 64-75: for each guessed letter, the first unused equal letter of the secret is taken. */
  method CountCorrect(secret: seq<char>, guess: seq<char>) returns (correct: int)
    ensures correct == Common(Fold(secret), Fold(guess))
  {
    hide *;
    ghost var s, g := Fold(secret), Fold(guess);
    var used := new int[|secret|](_ => 0);
    ghost var left := multiset(s);
    MatchedStart(s, used[..]);
    correct := 0;
    var i := 0;
    assert g[..0] == [];
    while i < |guess|
      invariant 0 <= i <= |guess|
      invariant left == Unused(s, used[..])
      invariant Matched(s, g[..i], left, correct)
    {
      assert g[..i + 1] == g[..i] + [g[i]];
      FoldAt(guess, i);
      MatchedStep(s, g[..i], g[i], left, correct);
      var j := FirstUnused(secret, used, guess[i]);
      if j < |secret| {
        FoldAt(secret, j);
        Take(s, used, j);
        left := left - multiset{g[i]};
        correct := correct + 1;
      }
      i := i + 1;
    }
    assert g[..|guess|] == g;
    MatchedCount(s, g, left, correct);
  }

  lemma {:induction false} MatchedStart(s: seq<char>, used: seq<int>)
    requires |used| == |s| && forall j :: 0 <= j < |used| ==> used[j] == 0
    ensures Unused(s, used) == multiset(s) && Matched(s, [], multiset(s), 0)
  {
    UnusedAtStart(s, used);
    assert multiset(s) - multiset{} == multiset(s);
  }

  lemma {:induction false} MatchedCount(s: seq<char>, g: seq<char>, unused: multiset<char>, correct: int)
    requires Matched(s, g, unused, correct)
    ensures correct == Common(s, g)
  {
  }

  lemma {:induction false} FoldAt(s: seq<char>, i: nat)
    requires i < |s|
    ensures Fold(s)[i] == Lower(s[i])
  {
  }

  /** used[j] = 1. */
  method Take(ghost s: seq<char>, used: array<int>, j: nat)
    requires used.Length == |s| && j < |s| && used[j] == 0
    modifies used
    ensures Unused(s, used[..]) == Unused(s, old(used[..])) - multiset{s[j]}
  {
    UnusedTake(s, used[..], j);
    ghost var was := used[..];
    used[j] := 1;
    assert used[..] == was[j := 1];
  }

  /** Lines 57-60. */
  method CountPlaced(secret: seq<char>, guess: seq<char>) returns (placed: int)
    requires |guess| == |secret|
    ensures placed == Agreeing(Fold(secret), Fold(guess))
  {
    ghost var s, g := Fold(secret), Fold(guess);
    placed := 0;
    var i := 0;
    assert s[0..] == s && g[0..] == g;
    while i < |secret|
      invariant 0 <= i <= |secret|
      invariant placed + Agreeing(s[i..], g[i..]) == Agreeing(s, g)
    {
      assert s[i..][1..] == s[i + 1..] && g[i..][1..] == g[i + 1..];
      if Lower(secret[i]) == Lower(guess[i]) {
        placed := placed + 1;
      }
      i := i + 1;
    }
  }

  /** The guess as it is scored: without a newline at its end. */
  function Stripped(guess: seq<char>): seq<char>
  {
    if guess != [] && guess[|guess| - 1] == '\n' then guess[..|guess| - 1] else guess
  }

  /**
   * word_match on a secret without NULs and a NUL-terminated guess buffer holding `guess`. A guess
   * of another length scores -1; otherwise a newline at its end is removed in place.
   */
  method Match(secret: seq<char>, buf: array<char>, ghost guess: seq<char>) returns (correct: int, placed: int)
    requires secret != [] && NUL !in secret && NUL !in guess
    requires |guess| < buf.Length && buf[..|guess| + 1] == guess + [NUL]
    modifies buf
    ensures |guess| != |secret| ==> correct == placed == -1 && buf[..] == old(buf[..])
    ensures |guess| == |secret| ==>
              && correct == Common(Fold(secret), Fold(Stripped(guess)))
              && placed == Agreeing(Fold(secret), Fold(Stripped(guess)))
              && buf[..|Stripped(guess)| + 1] == Stripped(guess) + [NUL]
  {
    var length := Strlen(buf, guess);
    if length != |secret| {
      return -1, -1;
    }
    assert buf[length - 1] == guess[length - 1];
    assert forall k :: 0 <= k < length ==> buf[k] == guess[k];
    if buf[length - 1] == '\n' {
      buf[length - 1] := NUL;
      length := length - 1;
      assert buf[..length + 1] == Stripped(guess) + [NUL];
      NulNeverAgrees(secret, Stripped(guess));
    }
    assert buf[..|secret|] == if length == |secret| then guess else Stripped(guess) + [NUL];
    placed := CountPlaced(secret, buf[..|secret|]);
    assert buf[..length] == Stripped(guess);
    correct := CountCorrect(secret, buf[..length]);
  }

  method Strlen(buf: array<char>, ghost text: seq<char>) returns (n: nat)
    requires NUL !in text && |text| < buf.Length && buf[..|text| + 1] == text + [NUL]
    ensures n == |text|
  {
    n := 0;
    assert buf[|text|] == NUL;
    forall k | 0 <= k < |text| ensures buf[k] != NUL {
      assert buf[..|text| + 1][k] == text[k];
    }
    while buf[n] != NUL
      invariant n <= |text|
      decreases |text| - n
    {
      n := n + 1;
    }
  }

  /** The NUL left by the removed newline agrees with no letter of the secret. */
  lemma {:induction false} NulNeverAgrees(secret: seq<char>, g: seq<char>)
    requires NUL !in secret && |g| < |secret|
    ensures Agreeing(Fold(secret), Fold(g + [NUL])) == Agreeing(Fold(secret), Fold(g))
  {
    var s, f, h := Fold(secret), Fold(g + [NUL]), Fold(g);
    assert Lower(secret[0]) != NUL;
    assert s[1..] == Fold(secret[1..]);
    if g != [] {
      assert (g + [NUL])[1..] == g[1..] + [NUL];
      NulNeverAgrees(secret[1..], g[1..]);
      assert f[1..] == Fold(g[1..] + [NUL]) && h[1..] == Fold(g[1..]);
    }
  }

  // ----- what the numbers mean -----

  lemma {:induction false} CardinalityGrows(a: multiset<char>, b: multiset<char>)
    requires a <= b
    ensures |a| <= |b|
  {
    assert b == a + (b - a);
  }

  /** Putting one letter in front of each multiset. */
  lemma {:induction false} CommonHead(x: char, y: char, u: multiset<char>, v: multiset<char>)
    ensures |(multiset{x} + u) * (multiset{y} + v)| >= |u * v| + if x == y then 1 else 0
  {
    if x == y {
      assert (multiset{x} + u) * (multiset{y} + v) == multiset{x} + u * v;
    } else {
      CardinalityGrows(u * v, (multiset{x} + u) * (multiset{y} + v));
    }
  }

  /** Letters in the right place are among the letters in common, and those are at most all letters. */
  lemma {:induction false} PlacedAtMostCorrect(a: seq<char>, b: seq<char>)
    ensures Agreeing(a, b) <= Common(a, b) <= |a|
  {
    CardinalityGrows(multiset(a) * multiset(b), multiset(a));
    if a != [] && b != [] {
      PlacedAtMostCorrect(a[1..], b[1..]);
      assert a == [a[0]] + a[1..] && b == [b[0]] + b[1..];
      CommonHead(a[0], b[0], multiset(a[1..]), multiset(b[1..]));
    }
  }

  lemma {:induction false} AllAgree(a: seq<char>, b: seq<char>)
    ensures Agreeing(a, b) == |a| <==> a <= b
  {
    if a != [] && b != [] {
      AllAgree(a[1..], b[1..]);
      assert a == [a[0]] + a[1..] && b == [b[0]] + b[1..];
    }
  }

  /**
   * The win test `place_correct == strlen(secret)` for a guess of the right length. Secrets come
   * from get_secret, which cuts at a newline; for those it succeeds exactly when the words are
   * equal without case. For any other secret the guess must also not end in a newline.
   */
  lemma {:induction false} WinExactlyWhenEqual(secret: seq<char>, guess: seq<char>)
    requires |guess| == |secret| > 0
    ensures '\n' !in secret ==>
              (Agreeing(Fold(secret), Fold(Stripped(guess))) == |secret| <==> Fold(secret) == Fold(guess))
    ensures Agreeing(Fold(secret), Fold(Stripped(guess))) == |secret|
            <==> Fold(secret) == Fold(guess) && guess[|guess| - 1] != '\n'
  {
    AllAgree(Fold(secret), Fold(Stripped(guess)));
    var last := |guess| - 1;
    if Fold(secret) == Fold(guess) && guess[last] == '\n' {
      assert Fold(secret)[last] == Fold(guess)[last];
      assert Lower(secret[last]) == '\n';
      assert secret[last] in secret;
    }
  }
}
