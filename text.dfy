/**
 * The handful of Python string primitives the segmenter and the driver rely on:
 * `str.isspace` on one character, `str.strip`, `str.lstrip` and `str.split('\n')`.
 */
module Text {

  /**
   * Python's `str.isspace` for a single code point: bidirectional class WS, B or S, or
   * general category Zs, which takes in the separators U+001C to U+001F.
   */
  predicate IsSpace(c: char) {
    var n := c as int;
    || 0x09 <= n <= 0x0D
    || 0x1C <= n <= 0x1F
    || n == 0x20 || n == 0x85 || n == 0xA0 || n == 0x1680
    || 0x2000 <= n <= 0x200A
    || n == 0x2028 || n == 0x2029 || n == 0x202F || n == 0x205F || n == 0x3000
  }

  /** `s.lstrip()`. */
  function LStrip(s: string): string
    decreases |s|
  {
    if |s| > 0 && IsSpace(s[0]) then LStrip(s[1..]) else s
  }

  /** `s.rstrip()`. */
  function RStrip(s: string): string
    decreases |s|
  {
    if |s| > 0 && IsSpace(s[|s| - 1]) then RStrip(s[..|s| - 1]) else s
  }

  /** `s.strip()`. */
  function Strip(s: string): string {
    RStrip(LStrip(s))
  }

  /** `s[i..j]` is what is left of `s` once only whitespace is cut from its two ends. */
  predicate TrimmedSlice(s: string, i: int, j: int) {
    && 0 <= i <= j <= |s|
    && (forall k :: 0 <= k < i ==> IsSpace(s[k]))
    && (forall k :: j <= k < |s| ==> IsSpace(s[k]))
  }

  /** `lstrip()` keeps the suffix that starts at the first non-whitespace character. */
  lemma {:induction false} LStripSpec(s: string)
    ensures var r := LStrip(s);
            && TrimmedSlice(s, |s| - |r|, |s|) && r == s[|s| - |r|..]
            && (r == [] || !IsSpace(r[0]))
    decreases |s|
  {
    if |s| > 0 && IsSpace(s[0]) {
      LStripSpec(s[1..]);
    }
  }

  /** `rstrip()` keeps the prefix that ends at the last non-whitespace character. */
  lemma {:induction false} RStripSpec(s: string)
    ensures var r := RStrip(s);
            && TrimmedSlice(s, 0, |r|) && r == s[..|r|]
            && (r == [] || !IsSpace(r[|r| - 1]))
    decreases |s|
  {
    if |s| > 0 && IsSpace(s[|s| - 1]) {
      RStripSpec(s[..|s| - 1]);
    }
  }

  /**
   * `strip()` keeps the slice of `s` between its leading and its trailing whitespace,
   * and that slice neither starts nor ends with whitespace.
   */
  lemma {:induction false} StripSpec(s: string)
    ensures var r := Strip(s);
            && (r == [] || (!IsSpace(r[0]) && !IsSpace(r[|r| - 1])))
            && exists i, j :: TrimmedSlice(s, i, j) && r == s[i..j]
  {
    var l := LStrip(s);
    var r := RStrip(l);
    LStripSpec(s);
    RStripSpec(l);
    var i := |s| - |l|;
    assert r == s[i..i + |r|];
    assert TrimmedSlice(s, i, i + |r|) by {
      forall k | i + |r| <= k < |s| ensures IsSpace(s[k]) {
        assert s[k] == l[k - i];
      }
    }
  }

  lemma {:induction false} LStripAt(s: string, i: nat)
    requires i <= |s| && (forall k :: 0 <= k < i ==> IsSpace(s[k]))
    requires i == |s| || !IsSpace(s[i])
    ensures LStrip(s) == s[i..]
    decreases i
  {
    if i > 0 {
      var t := s[1..];
      assert forall k :: 0 <= k < i - 1 ==> t[k] == s[k + 1];
      LStripAt(t, i - 1);
      assert t[i - 1..] == s[i..];
    }
  }

  lemma {:induction false} RStripAt(s: string, j: nat)
    requires j <= |s| && (forall k :: j <= k < |s| ==> IsSpace(s[k]))
    requires j == 0 || !IsSpace(s[j - 1])
    ensures RStrip(s) == s[..j]
    decreases |s| - j
  {
    if j < |s| {
      var t := s[..|s| - 1];
      assert forall k :: j <= k < |t| ==> t[k] == s[k];
      RStripAt(t, j);
      assert t[..j] == s[..j];
    } else {
      assert s[..j] == s;
    }
  }

  /**
   * `strip()` is the one slice of `s` that only whitespace surrounds and that neither
   * starts nor ends with whitespace.
   */
  lemma {:induction false} StripUnique(s: string, i: nat, j: nat)
    requires TrimmedSlice(s, i, j)
    requires i == j || (!IsSpace(s[i]) && !IsSpace(s[j - 1]))
    ensures Strip(s) == s[i..j]
  {
    if i == j {
      LStripAt(s, |s|);
      assert LStrip(s) == [];
    } else {
      LStripAt(s, i);
      var l := s[i..];
      assert forall k :: j - i <= k < |l| ==> l[k] == s[k + i];
      RStripAt(l, j - i);
      assert l[..j - i] == s[i..j];
    }
  }

  /** A string is its own `strip()` exactly when it neither starts nor ends with whitespace. */
  lemma {:induction false} StripFixpoint(s: string)
    ensures Strip(s) == s <==> (s == [] || (!IsSpace(s[0]) && !IsSpace(s[|s| - 1])))
  {
    StripSpec(s);
  }

  /** `strip()` is idempotent, and `lstrip()` leaves its result alone. */
  lemma {:induction false} StripIdempotent(s: string)
    ensures Strip(Strip(s)) == Strip(s)
    ensures LStrip(Strip(s)) == Strip(s)
  {
    StripSpec(s);
    StripFixpoint(Strip(s));
  }

  /** `t` occurs in `s` starting at position `k`. */
  predicate OccursAt(t: string, s: string, k: int) {
    0 <= k && k + |t| <= |s| && s[k..k + |t|] == t
  }

  /** `t in s`, Python's substring test. */
  ghost predicate Occurs(t: string, s: string) {
    exists k :: OccursAt(t, s, k)
  }

  /** `"\n".join(ls)`. */
  function JoinLines(ls: seq<string>): string
    requires |ls| >= 1
    decreases |ls|
  {
    if |ls| == 1 then ls[0] else ls[0] + "\n" + JoinLines(ls[1..])
  }

  predicate NoNewline(ls: seq<string>) {
    forall k :: 0 <= k < |ls| ==> '\n' !in ls[k]
  }

  /**
   * `s.split('\n')`: never empty, no piece holds a newline, empty pieces are kept
   * (`"".split('\n') == [""]`, a trailing newline gives a trailing `""`), and joining
   * the pieces with newlines gives `s` back.
   */
  function SplitLines(s: string): (ls: seq<string>)
    ensures |ls| >= 1
    ensures NoNewline(ls)
    ensures JoinLines(ls) == s

    decreases |s|
  {
    if s == [] then [""]
    else
      var rest := SplitLines(s[1..]);
      assert s == [s[0]] + s[1..];
      if s[0] == '\n' then
        assert JoinLines([""] + rest) == "\n" + JoinLines(rest) by {
          assert ([""] + rest)[1..] == rest;
        }
        [""] + rest
      else
        var ls := [[s[0]] + rest[0]] + rest[1..];
        assert JoinLines(ls) == [s[0]] + JoinLines(rest) by {
          if |rest| > 1 {
            assert ls[1..] == rest[1..];
          }
        }
        ls
  }

  /** Splitting a line that holds no newline gives that line alone. */
  lemma {:induction false} SplitSingle(x: string)
    requires '\n' !in x
    ensures SplitLines(x) == [x]
  {
    var ls := SplitLines(x);
    assert ls[0] == JoinLines(ls) by {
      if |ls| > 1 {
        assert '\n' in JoinLines(ls) by {
          JoinHasNewline(ls);
        }
      }
    }
    if |ls| > 1 {
      JoinHasNewline(ls);
    }
  }

  lemma {:induction false} JoinHasNewline(ls: seq<string>)
    requires |ls| > 1
    ensures '\n' in JoinLines(ls)
  {
    var j := JoinLines(ls);
    assert j == ls[0] + "\n" + JoinLines(ls[1..]);
    assert j[|ls[0]|] == '\n';
  }

  /** Splitting `x + "\n" + y`, where `x` holds no newline, peels `x` off the front. */
  lemma {:induction false} SplitCons(x: string, y: string)
    requires '\n' !in x
    ensures SplitLines(x + "\n" + y) == [x] + SplitLines(y)
    decreases |x|
  {
    var s := x + "\n" + y;
    if x == [] {
      assert s == "\n" + y;
      assert s[1..] == y;
    } else {
      assert s[0] == x[0];
      assert s[1..] == x[1..] + "\n" + y;
      SplitCons(x[1..], y);
      assert [x[0]] + x[1..] == x;
    }
  }

  /** Joining newline-free lines and splitting again gives the same lines back. */
  lemma {:induction false} SplitJoin(ls: seq<string>)
    requires |ls| >= 1 && NoNewline(ls)
    ensures SplitLines(JoinLines(ls)) == ls
    decreases |ls|
  {
    if |ls| == 1 {
      SplitSingle(ls[0]);
    } else {
      SplitJoin(ls[1..]);
      SplitCons(ls[0], JoinLines(ls[1..]));
      assert [ls[0]] + ls[1..] == ls;
    }
  }
}
