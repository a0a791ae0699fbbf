/**
 * The fenced-block extractor: `re.findall(r'```(.+?)```', reply, re.DOTALL)`.
 *
 * For this one pattern the regular-expression engine behaves like a two-step scanner:
 * find the first fence (three back-ticks) at or after the current position `p`, say at
 * `i`; find the first fence at or after `i + 4` (the lazy `.+?` takes at least one
 * character), say at `j`; capture `s[i + 3..j]` and go on from `j + 3`.  When either
 * search fails there are no further matches: a later start would need a closing fence
 * even further to the right.
 *
 * `async_main.py` keeps every capture (`FindAll`); `main.py` keeps the last one
 * (`LastBlock`).
 */
module Extractor {
  import opened Text

  datatype Option<T> = None | Some(value: T)

  /** Three back-ticks start at position `k` of `s`. */
  predicate IsFenceAt(s: string, k: int) {
    0 <= k && k + 3 <= |s| && s[k] == '`' && s[k + 1] == '`' && s[k + 2] == '`'
  }

  /** The first fence at or after position `p`, if there is one. */
  function FindFence(s: string, p: nat): (r: Option<nat>)
    ensures r.Some? ==> p <= r.value && IsFenceAt(s, r.value)
    decreases |s| - p
  {
    if p + 3 > |s| then None
    else if IsFenceAt(s, p) then Some(p)
    else FindFence(s, p + 1)
  }

  /** The fence found is the leftmost one from `p`, and none is found only when there is none. */
  lemma {:induction false} FindFenceSpec(s: string, p: nat)
    ensures FindFence(s, p).Some? ==> forall k :: p <= k < FindFence(s, p).value ==> !IsFenceAt(s, k)
    ensures FindFence(s, p).None? ==> forall k :: p <= k ==> !IsFenceAt(s, k)
    decreases |s| - p
  {
    if p + 3 <= |s| && !IsFenceAt(s, p) {
      FindFenceSpec(s, p + 1);
    }
  }

  /** The search from `p` finds a fence at `i` when there is one there and none between `p` and `i`. */
  lemma {:induction false} FindFenceIs(s: string, p: nat, i: nat)
    requires p <= i && IsFenceAt(s, i) && forall k :: p <= k < i ==> !IsFenceAt(s, k)
    ensures FindFence(s, p) == Some(i)
    decreases i - p
  {
    if p < i {
      assert !IsFenceAt(s, p);
      FindFenceIs(s, p + 1, i);
    }
  }

  /** A match: the opening fence is at `open`, the closing fence at `close`. */
  datatype Span = Span(open: nat, close: nat)

  /** The matches the scanner finds from position `p` on, left to right. */
  function Spans(s: string, p: nat): seq<Span>
    decreases |s| - p
  {
    match FindFence(s, p)
    case None => []
    case Some(i) =>
      match FindFence(s, i + 4)
      case None => []
      case Some(j) => [Span(i, j)] + Spans(s, j + 3)
  }

  /**
   * `m` is the match the engine reports when it starts looking at `p`: it opens at the
   * leftmost fence from `p`, and closes at the first fence that leaves at least one
   * character in between.
   */
  predicate LeftmostLazy(s: string, p: nat, m: Span) {
    && p <= m.open && m.open + 4 <= m.close
    && IsFenceAt(s, m.open) && IsFenceAt(s, m.close)
    && (forall k :: p <= k < m.open ==> !IsFenceAt(s, k))
    && (forall k :: m.open + 4 <= k < m.close ==> !IsFenceAt(s, k))
  }

  /** Where the engine resumes looking before it reports the `k`th match. */
  function Resume(p: nat, sp: seq<Span>, k: nat): nat
    requires k <= |sp|
  {
    if k == 0 then p else sp[k - 1].close + 3
  }

  /** The `k`th match the scanner reports is the leftmost, lazy match from where the previous one ended. */
  lemma {:induction false} SpanAt(s: string, p: nat, k: nat)
    requires k < |Spans(s, p)|
    ensures LeftmostLazy(s, Resume(p, Spans(s, p), k), Spans(s, p)[k])
    ensures p <= Spans(s, p)[k].open
    decreases k
  {
    var i := FindFence(s, p).value;
    var j := FindFence(s, i + 4).value;
    FindFenceSpec(s, p);
    FindFenceSpec(s, i + 4);
    var rest := Spans(s, j + 3);
    assert Spans(s, p) == [Span(i, j)] + rest;
    if k > 0 {
      SpanAt(s, j + 3, k - 1);
      assert Spans(s, p)[k] == rest[k - 1];
      if k > 1 {
        assert Spans(s, p)[k - 1] == rest[k - 2];
      }
    }
  }

  /** Every match lies inside `s` and leaves at least one character to capture. */
  lemma {:induction false} SpansInside(s: string)
    ensures forall k :: 0 <= k < |Spans(s, 0)| ==> Spans(s, 0)[k].open + 4 <= Spans(s, 0)[k].close <= |s| - 3
  {
    forall k | 0 <= k < |Spans(s, 0)|
      ensures Spans(s, 0)[k].open + 4 <= Spans(s, 0)[k].close <= |s| - 3
    {
      SpanAt(s, 0, k);
    }
  }

  /** The matches are in left-to-right order and do not overlap. */
  lemma {:induction false} SpansOrdered(s: string, p: nat, k: nat, l: nat)
    requires k < l < |Spans(s, p)|
    ensures Spans(s, p)[k].close + 3 <= Spans(s, p)[l].open
    decreases l
  {
    SpanAt(s, p, l);
    if k < l - 1 {
      SpanAt(s, p, l - 1);
      SpansOrdered(s, p, k, l - 1);
    }
  }

  /** No match is possible from `p` on: no fence is followed, a character later, by another. */
  ghost predicate Exhausted(s: string, p: nat) {
    forall i, j :: p <= i && i + 4 <= j && IsFenceAt(s, i) ==> !IsFenceAt(s, j)
  }

  /**
   * The semantics of `findall` for this pattern, independent of the scanner: `sp` is a
   * leftmost, lazy match followed by what `findall` reports from just after it, or it is
   * empty and no match is left.
   */
  ghost predicate FindAllFrom(s: string, p: nat, sp: seq<Span>)
    decreases |sp|
  {
    if sp == [] then Exhausted(s, p)
    else LeftmostLazy(s, p, sp[0]) && FindAllFrom(s, sp[0].close + 3, sp[1..])
  }

  /** The scanner stops exactly when nothing more can be matched. */
  lemma {:induction false} SpansEmpty(s: string, p: nat)
    ensures Spans(s, p) == [] <==> Exhausted(s, p)
  {
    FindFenceSpec(s, p);
    match FindFence(s, p)
    case None =>
    case Some(i) =>
      FindFenceSpec(s, i + 4);
      match FindFence(s, i + 4)
      case None =>
        forall i', j | p <= i' && i' + 4 <= j && IsFenceAt(s, i') ensures !IsFenceAt(s, j) {
          assert i <= i';
        }
      case Some(j) =>
        assert IsFenceAt(s, i) && IsFenceAt(s, j);
  }

  /** Where a leftmost, lazy match starts from `p`, the scanner reports it first. */
  lemma {:induction false} SpansHead(s: string, p: nat, m: Span)
    requires LeftmostLazy(s, p, m)
    ensures Spans(s, p) == [m] + Spans(s, m.close + 3)
  {
    FindFenceIs(s, p, m.open);
    FindFenceIs(s, m.open + 4, m.close);
  }

  /** A non-empty scan starts with the leftmost, lazy match and resumes after it. */
  lemma {:induction false} SpansFirst(s: string, p: nat)
    requires Spans(s, p) != []
    ensures LeftmostLazy(s, p, Spans(s, p)[0])
    ensures Spans(s, p)[1..] == Spans(s, Spans(s, p)[0].close + 3)
  {
    var i := FindFence(s, p).value;
    var j := FindFence(s, i + 4).value;
    FindFenceSpec(s, p);
    FindFenceSpec(s, i + 4);
    assert Spans(s, p) == [Span(i, j)] + Spans(s, j + 3);
  }

  /** The scanner reports the matches `findall` reports. */
  lemma {:induction false} SpansCorrect(s: string, p: nat)
    ensures FindAllFrom(s, p, Spans(s, p))
    decreases |s| - p
  {
    if Spans(s, p) == [] {
      SpansEmpty(s, p);
    } else {
      SpansFirst(s, p);
      SpansCorrect(s, Spans(s, p)[0].close + 3);
    }
  }

  /** ... and no other list is: the semantics determines the matches uniquely. */
  lemma {:induction false} FindAllFromUnique(s: string, p: nat, sp: seq<Span>)
    requires FindAllFrom(s, p, sp)
    ensures sp == Spans(s, p)
    decreases |sp|
  {
    if sp == [] {
      SpansEmpty(s, p);
    } else {
      var m, tail := sp[0], sp[1..];
      assert LeftmostLazy(s, p, m) && FindAllFrom(s, m.close + 3, tail);
      calc {
        sp;
        [m] + tail;
        { FindAllFromUnique(s, m.close + 3, tail); }
        [m] + Spans(s, m.close + 3);
        { SpansHead(s, p, m); }
        Spans(s, p);
      }
    }
  }

  /** After the last match nothing more can be matched. */
  lemma {:induction false} SpansLast(s: string, p: nat)
    ensures Exhausted(s, Resume(p, Spans(s, p), |Spans(s, p)|))
    decreases |s| - p
  {
    var sp := Spans(s, p);
    if sp == [] {
      SpansEmpty(s, p);
    } else {
      SpansFirst(s, p);
      var rest := Spans(s, sp[0].close + 3);
      SpansLast(s, sp[0].close + 3);
      assert rest != [] ==> sp[|sp| - 1] == rest[|rest| - 1];
    }
  }

  /** The text the group `(.+?)` captures for a span. */
  function Capture(s: string, m: Span): string
    requires m.open + 3 <= m.close <= |s|
  {
    s[m.open + 3..m.close]
  }

  /** `re.findall(r'```(.+?)```', s, re.DOTALL)`: the captures of all matches, in order. */
  function FindAll(s: string): seq<string> {
    var sp := Spans(s, 0);
    SpansInside(s);
    seq(|sp|, k requires 0 <= k < |sp| => Capture(s, sp[k]))
  }

  const Fence := "```"

  lemma {:induction false} FencedSlice(s: string, i: nat, j: nat)
    requires IsFenceAt(s, i) && IsFenceAt(s, j) && i + 3 <= j
    ensures s[i..j + 3] == Fence + s[i + 3..j] + Fence
  {
    assert s[i..i + 3] == Fence;
    assert s[j..j + 3] == Fence;
    assert s[i..j + 3] == s[i..i + 3] + s[i + 3..j] + s[j..j + 3];
  }

  /** Each capture is non-empty and, surrounded by fences, is a piece of the reply. */
  lemma {:induction false} FindAllFenced(s: string, k: nat)
    requires k < |FindAll(s)|
    ensures var m := FindAll(s)[k];
            m != [] && OccursAt(Fence + m + Fence, s, Spans(s, 0)[k].open)
  {
    var sp := Spans(s, 0)[k];
    SpanAt(s, 0, k);
    FencedSlice(s, sp.open, sp.close);
  }

  /** A capture holds no fence except possibly at its very start: the match closes at the first one. */
  lemma {:induction false} FindAllLazy(s: string, k: nat, x: int)
    requires k < |FindAll(s)| && 1 <= x
    ensures !IsFenceAt(FindAll(s)[k], x)
  {
    var sp := Spans(s, 0)[k];
    SpanAt(s, 0, k);
    var m := FindAll(s)[k];
    assert IsFenceAt(m, x) ==> IsFenceAt(s, sp.open + 3 + x);
  }

  /**
   * `re.findall` finds nothing exactly when no fence is followed, at least one character
   * later, by another fence.
   */
  lemma {:induction false} FindAllEmpty(s: string)
    ensures FindAll(s) == [] <==> forall i, j :: 0 <= i && i + 4 <= j && IsFenceAt(s, i) ==> !IsFenceAt(s, j)
  {
    SpansEmpty(s, 0);
  }

  /** `regex[-1]` in `main.py`: the last capture, when `if regex:` holds. */
  function LastBlock(s: string): Option<string> {
    var ms := FindAll(s);
    if ms == [] then None else Some(ms[|ms| - 1])
  }

  /** The selected block is non-empty and, surrounded by fences, occurs in the reply. */
  lemma {:induction false} LastBlockFenced(s: string)
    requires LastBlock(s).Some?
    ensures LastBlock(s).value != [] && Occurs(Fence + LastBlock(s).value + Fence, s)
  {
    var k := |FindAll(s)| - 1;
    FindAllFenced(s, k);
  }

  /**
   * `main.py` finds a block exactly when `async_main.py` does, and the block it selects
   * is the last one: nothing can be matched after it.
   */
  lemma {:induction false} LastBlockIsLast(s: string)
    ensures LastBlock(s).None? <==> FindAll(s) == []
    ensures LastBlock(s).Some? ==>
              && LastBlock(s).value == FindAll(s)[|FindAll(s)| - 1]
              && Exhausted(s, Spans(s, 0)[|Spans(s, 0)| - 1].close + 3)
  {
    SpansLast(s, 0);
  }

  /** Six back-ticks in a row give no match: the lazy group needs at least one character. */
  lemma {:induction false} SixBackticks(s: string)
    requires s == "``````"
    ensures FindAll(s) == []
  {
    assert FindFence(s, 0) == Some(0);
    assert FindFence(s, 4) == None;
  }

  /** A reply made of one fenced block yields exactly that block's text. */
  lemma {:induction false} SingleBlock(body: string)
    requires body != [] && '`' !in body
    ensures FindAll(Fence + body + Fence) == [body]
  {
    var s := Fence + body + Fence;
    var n := |body|;
    var m := Span(0, n + 3);
    assert s[3..n + 3] == body;
    assert forall k :: 3 <= k < n + 3 ==> s[k] == body[k - 3];
    assert LeftmostLazy(s, 0, m);
    SpansHead(s, 0, m);
    SpansEmpty(s, n + 6);
  }

  /**
   * Where `s` continues at `p` with back-tick-free text and then a fenced, non-empty,
   * back-tick-free block, the leftmost, lazy match from `p` is that block.
   */
  lemma {:induction false} BlockAt(s: string, p: nat, gap: string, b: string)
    requires b != [] && '`' !in gap && '`' !in b
    requires p + |gap| + |b| + 6 <= |s| && s[p..p + |gap| + |b| + 6] == gap + Fence + b + Fence
    ensures LeftmostLazy(s, p, Span(p + |gap|, p + |gap| + 3 + |b|))
    ensures Capture(s, Span(p + |gap|, p + |gap| + 3 + |b|)) == b
  {
    var u := gap + Fence + b + Fence;
    var o, c := p + |gap|, p + |gap| + 3 + |b|;
    assert forall k :: 0 <= k < |u| ==> s[p + k] == u[k];
    forall k | p <= k < o ensures !IsFenceAt(s, k) {
      assert s[k] == gap[k - p];
    }
    forall k | o + 4 <= k < c ensures !IsFenceAt(s, k) {
      assert s[k] == b[k - o - 3];
    }
    assert s[o] == u[|gap|] && s[o + 1] == u[|gap| + 1] && s[o + 2] == u[|gap| + 2];
    assert s[c] == u[c - p] && s[c + 1] == u[c - p + 1] && s[c + 2] == u[c - p + 2];
    assert IsFenceAt(s, o) && IsFenceAt(s, c);
    forall k | 0 <= k < |b| ensures s[o + 3..c][k] == b[k] {
      assert s[o + 3 + k] == u[|gap| + 3 + k];
    }
    assert |s[o + 3..c]| == |b|;
  }

  /**
   * A reply with two fenced blocks, whatever back-tick-free text lies between them, yields
   * both blocks, in order.
   */
  lemma {:induction false} TwoBlocks(b1: string, mid: string, b2: string)
    requires b1 != [] && b2 != []
    requires '`' !in b1 && '`' !in mid && '`' !in b2
    ensures FindAll((Fence + b1 + Fence) + (mid + Fence + b2 + Fence)) == [b1, b2]
  {
    var first := Fence + b1 + Fence;
    var rest := mid + Fence + b2 + Fence;
    Halves(first, rest);
    assert first == [] + Fence + b1 + Fence;
    TwoBlocksIn(first + rest, b1, mid, b2);
  }

  /** The two halves of a concatenation are its two slices. */
  lemma Halves(x: string, y: string)
    ensures |x + y| == |x| + |y|
    ensures (x + y)[0..|x|] == x && (x + y)[|x|..|x| + |y|] == y
  {
  }

  /** `TwoBlocks` for a reply given by its two halves. */
  lemma {:induction false} TwoBlocksIn(s: string, b1: string, mid: string, b2: string)
    requires b1 != [] && b2 != []
    requires '`' !in b1 && '`' !in mid && '`' !in b2
    requires |s| == |b1| + |mid| + |b2| + 12
    requires s[0..|b1| + 6] == [] + Fence + b1 + Fence
    requires s[|b1| + 6..|s|] == mid + Fence + b2 + Fence
    ensures FindAll(s) == [b1, b2]
  {
    var q := |b1| + 6;
    BlockAt(s, 0, [], b1);
    BlockAt(s, q, mid, b2);
    var m1 := Span(0, |b1| + 3);
    var m2 := Span(q + |mid|, q + |mid| + 3 + |b2|);
    FindAllTwo(s, m1, m2);
  }

  /** Two leftmost, lazy matches in a row that end the reply are all `findall` reports. */
  lemma {:induction false} FindAllTwo(s: string, m1: Span, m2: Span)
    requires LeftmostLazy(s, 0, m1) && LeftmostLazy(s, m1.close + 3, m2) && m2.close + 3 == |s|
    ensures FindAll(s) == [Capture(s, m1), Capture(s, m2)]
  {
    SpansEmpty(s, |s|);
    SpansHead(s, m1.close + 3, m2);
    SpansHead(s, 0, m1);
    assert Spans(s, 0) == [m1, m2];
  }

  /** A language tag after the opening fence stays in the capture, with its newline. */
  lemma {:induction false} LanguageTagKept(tag: string, code: string)
    requires '`' !in tag && '`' !in code
    ensures FindAll(Fence + tag + "\n" + code + Fence) == [tag + "\n" + code]
  {
    var body := tag + "\n" + code;
    assert forall c :: c in body ==> c in tag || c == '\n' || c in code;
    assert Fence + tag + "\n" + code + Fence == Fence + body + Fence;
    SingleBlock(body);
  }
}
