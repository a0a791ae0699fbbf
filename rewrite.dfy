/**
 * The question rewrite in `async_main.py`: `re.sub('python', 'Julia', q, re.IGNORECASE).lstrip()`.
 *
 * `re.IGNORECASE` lands in the positional `count` parameter of `re.sub`, and its value
 * is 2, so the call is case-sensitive and replaces at most the first two occurrences.
 * The pattern has no special characters, so `re.sub` scans left to right, replaces each
 * occurrence it meets and resumes just after it.
 */
module Rewrite {
  import opened Text

  function Min(a: nat, b: nat): nat {
    if a <= b then a else b
  }

  /** `re.sub(pat, rep, s, n)` for a literal, non-empty `pat` and `n >= 1`, or `s` itself for `n == 0` here. */
  function SubAtMost(pat: string, rep: string, s: string, n: nat): string
    requires pat != []
    decreases |s|
  {
    if n == 0 || |s| < |pat| then s
    else if s[..|pat|] == pat then rep + SubAtMost(pat, rep, s[|pat|..], n - 1)
    else [s[0]] + SubAtMost(pat, rep, s[1..], n)
  }

  /** The number of occurrences the same left-to-right scan meets when nothing limits it. */
  function Count(pat: string, s: string): nat
    requires pat != []
    decreases |s|
  {
    if |s| < |pat| then 0
    else if s[..|pat|] == pat then 1 + Count(pat, s[|pat|..])
    else Count(pat, s[1..])
  }

  lemma {:induction false} MulSucc(d: int, m: int)
    ensures d * (m + 1) == d * m + d
  {
  }

  /** Each replacement changes the length by `|rep| - |pat|`, and there are `min(n, Count)` of them. */
  lemma {:induction false} SubLength(pat: string, rep: string, s: string, n: nat)
    requires pat != []
    ensures |SubAtMost(pat, rep, s, n)| == |s| + (|rep| - |pat|) * Min(n, Count(pat, s))
    decreases |s|
  {
    var d := |rep| - |pat|;
    if n == 0 || |s| < |pat| {
    } else if s[..|pat|] == pat {
      var t := s[|pat|..];
      SubLength(pat, rep, t, n - 1);
      var m := Min(n - 1, Count(pat, t));
      assert Min(n, Count(pat, s)) == m + 1;
      MulSucc(d, m);
    } else {
      SubLength(pat, rep, s[1..], n);
    }
  }

  /** Shifting the start by one character moves every occurrence by one. */
  lemma {:induction false} OccursTail(pat: string, s: string, k: nat)
    requires |s| > 0
    ensures OccursAt(pat, s[1..], k) <==> OccursAt(pat, s, k + 1)
  {
    if k + 1 + |pat| <= |s| {
      assert s[1..][k..k + |pat|] == s[k + 1..k + 1 + |pat|];
    }
  }

  /** The scan meets no occurrence exactly when `pat` does not occur in `s` at all. */
  lemma {:induction false} CountZero(pat: string, s: string)
    requires pat != []
    ensures Count(pat, s) == 0 <==> forall k :: 0 <= k ==> !OccursAt(pat, s, k)
    decreases |s|
  {
    if |s| < |pat| {
    } else if s[..|pat|] == pat {
      assert OccursAt(pat, s, 0);
    } else {
      CountZero(pat, s[1..]);
      assert !OccursAt(pat, s, 0);
      if Count(pat, s) == 0 {
        forall k | 1 <= k ensures !OccursAt(pat, s, k) {
          OccursTail(pat, s, k - 1);
        }
      } else {
        var k :| 0 <= k && OccursAt(pat, s[1..], k);
        OccursTail(pat, s, k);
      }
    }
  }

  /** Without an occurrence there is nothing to replace. */
  lemma {:induction false} SubNoOccurrence(pat: string, rep: string, s: string, n: nat)
    requires pat != [] && Count(pat, s) == 0
    ensures SubAtMost(pat, rep, s, n) == s
    decreases |s|
  {
    if n == 0 || |s| < |pat| {
    } else {
      SubNoOccurrence(pat, rep, s[1..], n);
      assert [s[0]] + s[1..] == s;
    }
  }

  /** `i` is where `pat` first occurs in `s`. */
  predicate FirstOccurrence(pat: string, s: string, i: nat) {
    OccursAt(pat, s, i) && forall k :: 0 <= k < i ==> !OccursAt(pat, s, k)
  }

  /**
   * The leftmost occurrence is replaced first, and the scan resumes after it with one
   * replacement fewer.
   */
  lemma {:induction false} SubLeftmost(pat: string, rep: string, s: string, i: nat, n: nat)
    requires pat != [] && FirstOccurrence(pat, s, i)
    ensures SubAtMost(pat, rep, s, n + 1) == s[..i] + rep + SubAtMost(pat, rep, s[i + |pat|..], n)
    decreases i
  {
    if i == 0 {
      SubFront(pat, rep, s, n);
    } else {
      var s1 := s[1..];
      FirstOccurrenceTail(pat, s, i);
      SubLeftmost(pat, rep, s1, i - 1, n);
      SubSkip(pat, rep, s, n + 1);
      assert [s[0]] + s1[..i - 1] == s[..i];
      Regroup(SubAtMost(pat, rep, s, n + 1), s[0], s1[..i - 1], rep,
              SubAtMost(pat, rep, s[i + |pat|..], n), SubAtMost(pat, rep, s1, n + 1));
    }
  }

  /** `x` is `c` followed by `y`, and `y` splits in three: then `x` splits the same way after `c`. */
  lemma Regroup(x: string, c: char, front: string, rep: string, tail: string, y: string)
    requires x == [c] + y && y == front + rep + tail
    ensures x == [c] + front + rep + tail
  {
  }

  /** An occurrence at the front is replaced at once. */
  lemma SubFront(pat: string, rep: string, s: string, n: nat)
    requires pat != [] && OccursAt(pat, s, 0)
    ensures SubAtMost(pat, rep, s, n + 1) == s[..0] + rep + SubAtMost(pat, rep, s[|pat|..], n)
  {
    assert s[..|pat|] == pat;
    assert s[..0] + rep == rep;
  }

  /** Before its first occurrence, `pat` first occurs one position earlier in the tail. */
  lemma FirstOccurrenceTail(pat: string, s: string, i: nat)
    requires FirstOccurrence(pat, s, i) && i > 0
    ensures FirstOccurrence(pat, s[1..], i - 1)
    ensures s[1..][i - 1 + |pat|..] == s[i + |pat|..]
    ensures !OccursAt(pat, s, 0) && |s| >= |pat|
  {
    var s1 := s[1..];
    assert !OccursAt(pat, s, 0);
    forall k | 0 <= k < i - 1 ensures !OccursAt(pat, s1, k) {
      OccursTail(pat, s, k);
    }
    OccursTail(pat, s, i - 1);
  }

  /** Where `pat` does not occur at the front, the first character is kept and the scan moves on. */
  lemma SubSkip(pat: string, rep: string, s: string, n: nat)
    requires pat != [] && n > 0 && |s| >= |pat| && !OccursAt(pat, s, 0)
    ensures SubAtMost(pat, rep, s, n) == [s[0]] + SubAtMost(pat, rep, s[1..], n)
  {
    assert s[..|pat|] != pat;
  }

  const Python := "python"
  const Julia := "Julia"
  /** The value of `re.IGNORECASE`, which the call passes as `count`. */
  const IgnoreCaseFlag := 2

  /** `qj` at `async_main.py` line 82. */
  function RewriteQuestion(q: string): string {
    LStrip(SubAtMost(Python, Julia, q, IgnoreCaseFlag))
  }

  /** The rewrite shortens the question by one character per replaced occurrence, at most two. */
  lemma {:induction false} RewriteLength(q: string)
    ensures |SubAtMost(Python, Julia, q, IgnoreCaseFlag)| == |q| - Min(2, Count(Python, q))
  {
    SubLength(Python, Julia, q, IgnoreCaseFlag);
  }

  /** The question comes back unchanged exactly when "python" does not occur in it. */
  lemma {:induction false} RewriteUnchanged(q: string)
    ensures SubAtMost(Python, Julia, q, IgnoreCaseFlag) == q <==> forall k :: 0 <= k ==> !OccursAt(Python, q, k)
  {
    RewriteLength(q);
    CountZero(Python, q);
    if Count(Python, q) == 0 {
      SubNoOccurrence(Python, Julia, q, IgnoreCaseFlag);
    }
  }

  /** The first character of the result is the question's own first character, or the `J` of "Julia". */
  lemma {:induction false} SubFirst(pat: string, rep: string, s: string, n: nat)
    requires pat != [] && rep != []
    ensures |SubAtMost(pat, rep, s, n)| == 0 <==> |s| == 0
    ensures |s| > 0 ==> SubAtMost(pat, rep, s, n)[0] in {s[0], rep[0]}
  {
  }

  /**
   * `lstrip()` changes nothing on a question that does not start with whitespace, which
   * is what `parse_qa` produces: there `qj` is the plain substitution.
   */
  lemma {:induction false} RewriteNoLeadingSpace(q: string)
    requires q == [] || !IsSpace(q[0])
    ensures RewriteQuestion(q) == SubAtMost(Python, Julia, q, IgnoreCaseFlag)
  {
    var r := SubAtMost(Python, Julia, q, IgnoreCaseFlag);
    SubFirst(Python, Julia, q, IgnoreCaseFlag);
    assert Julia[0] == 'J';
    LStripAt(r, 0);
  }

  /** With two replacements allowed, the first two occurrences go and the rest is kept. */
  lemma {:induction false} SubTwice(pat: string, rep: string, s: string, i: nat, j: nat)
    requires pat != [] && FirstOccurrence(pat, s, i)
    requires i + |pat| <= |s| && FirstOccurrence(pat, s[i + |pat|..], j)
    ensures var rest := s[i + |pat|..];
            SubAtMost(pat, rep, s, 2) == s[..i] + rep + rest[..j] + rep + rest[j + |pat|..]
  {
    var rest := s[i + |pat|..];
    var tail := rest[j + |pat|..];
    calc {
      SubAtMost(pat, rep, s, 2);
      { SubLeftmost(pat, rep, s, i, 1); }
      s[..i] + rep + SubAtMost(pat, rep, rest, 1);
      { SubLeftmost(pat, rep, rest, j, 0); }
      s[..i] + rep + (rest[..j] + rep + SubAtMost(pat, rep, tail, 0));
      s[..i] + rep + rest[..j] + rep + tail;
    }
  }

  /**
   * Two replacements and then no more: with `i` the first occurrence and `j` the first
   * one in what follows it, everything after the second occurrence, a third "python"
   * included, is left as it was.
   */
  lemma {:induction false} RewriteStopsAfterTwo(q: string, i: nat, j: nat)
    requires FirstOccurrence(Python, q, i)
    requires i + |Python| <= |q| && FirstOccurrence(Python, q[i + |Python|..], j)
    ensures var rest := q[i + |Python|..];
            SubAtMost(Python, Julia, q, IgnoreCaseFlag)
              == q[..i] + Julia + rest[..j] + Julia + rest[j + |Python|..]
  {
    SubTwice(Python, Julia, q, i, j);
  }

  /** The match is case-sensitive: a capitalised "Python" is left alone. */
  lemma {:induction false} RewriteCaseSensitive(q: string)
    requires q == "Python"
    ensures RewriteQuestion(q) == q
  {
    assert SubAtMost(Python, Julia, q, IgnoreCaseFlag) == q;
    LStripAt(q, 0);
  }
}
