/**
 * `parse_qa`: the line-oriented segmenter that turns the corpus into an ordered list of
 * (question, answer) pairs.  The same function appears, character for character, in
 * `async_main.py` and in `main.py`; it is modelled once here.
 *
 * `QaPairs` is the specification (a fold of `Step` over the lines), `ParseQa` is the
 * loop the source runs, and `Expected` is an independent, block-by-block description
 * of the result which `QaPairsByBlocks` proves equal to `QaPairs` on every input.
 */
module Segmenter {
  import opened Text

  datatype QaPair = QaPair(question: string, answer: string)

  /** The loop state: the pairs emitted so far, `current_q`, `current_a` and `collecting_q`. */
  datatype State = State(pairs: seq<QaPair>, q: string, a: string, collecting: bool)

  const Initial := State([], "", "", false)

  /** `line.startswith('#')`. */
  predicate IsQuestionLine(line: string) {
    |line| > 0 && line[0] == '#'
  }

  /** `line[1:]`, which is `""` for the empty line. */
  function Remainder(line: string): string {
    if |line| == 0 then "" else line[1..]
  }

  /** One iteration of the loop body. */
  function Step(st: State, line: string): State {
    if IsQuestionLine(line) then
      if st.collecting then
        st.(q := st.q + Strip(Remainder(line)) + " ")
      else if st.q != "" && st.a != "" then
        State(st.pairs + [QaPair(Strip(st.q), Strip(st.a))], Strip(Remainder(line)) + " ", "", true)
      else
        st.(q := Strip(Remainder(line)) + " ", collecting := true)
    else
      st.(a := st.a + line + "\n", collecting := false)
  }

  /** The state after the loop has consumed `lines`, starting from `st`. */
  function Run(st: State, lines: seq<string>): State
    decreases |lines|
  {
    if lines == [] then st else Step(Run(st, lines[..|lines| - 1]), lines[|lines| - 1])
  }

  /** The pair emitted when both accumulators are non-empty (before they are trimmed). */
  function Emit(q: string, a: string): seq<QaPair> {
    if q != "" && a != "" then [QaPair(Strip(q), Strip(a))] else []
  }

  /** The statement after the loop, which emits the pending pair. */
  function Final(st: State): seq<QaPair> {
    st.pairs + Emit(st.q, st.a)
  }

  /** What `parse_qa(text)` returns. */
  function QaPairs(text: string): seq<QaPair> {
    Final(Run(Initial, SplitLines(text)))
  }

  /** The loop of `parse_qa`, over the pieces of `text.split('\n')`. */
  method ParseQa(text: string) returns (qaPairs: seq<QaPair>)
    ensures qaPairs == QaPairs(text)
  {
    var lines := SplitLines(text);
    qaPairs := [];
    var currentQ := "";
    var currentA := "";
    var collectingQ := false;
    for i := 0 to |lines|
      invariant State(qaPairs, currentQ, currentA, collectingQ) == Run(Initial, lines[..i])
    {
      var line := lines[i];
      assert lines[..i + 1][..i] == lines[..i];
      ghost var before := State(qaPairs, currentQ, currentA, collectingQ);
      assert Run(Initial, lines[..i + 1]) == Step(before, line);
      if IsQuestionLine(line) {
        if collectingQ {
          currentQ := currentQ + Strip(Remainder(line)) + " ";
        } else {
          if currentQ != "" && currentA != "" {
            qaPairs := qaPairs + [QaPair(Strip(currentQ), Strip(currentA))];
            currentA := "";
          }
          currentQ := Strip(Remainder(line)) + " ";
          collectingQ := true;
        }
      } else {
        collectingQ := false;
        currentA := currentA + line + "\n";
      }
    }
    assert lines[..|lines|] == lines;
    if currentQ != "" && currentA != "" {
      qaPairs := qaPairs + [QaPair(Strip(currentQ), Strip(currentA))];
    }
  }

  // ---------------------------------------------------------------------------
  // The text the accumulators collect from a run of lines

  /** What a run of question lines adds to `current_q`: each marker-less, trimmed line plus a space. */
  function QuestionText(lines: seq<string>): string
    decreases |lines|
  {
    if lines == [] then ""
    else QuestionText(lines[..|lines| - 1]) + Strip(Remainder(lines[|lines| - 1])) + " "
  }

  /** What a run of answer lines adds to `current_a`: each line, untouched, plus a newline. */
  function AnswerText(lines: seq<string>): string
    decreases |lines|
  {
    if lines == [] then "" else AnswerText(lines[..|lines| - 1]) + lines[|lines| - 1] + "\n"
  }

  predicate AllQuestions(lines: seq<string>) {
    forall k :: 0 <= k < |lines| ==> IsQuestionLine(lines[k])
  }

  predicate NoQuestions(lines: seq<string>) {
    forall k :: 0 <= k < |lines| ==> !IsQuestionLine(lines[k])
  }

  lemma {:induction false} AnswerTextEmpty(lines: seq<string>)
    ensures AnswerText(lines) == "" <==> lines == []
  {
    if lines != [] {
      assert |AnswerText(lines)| >= 1;
    }
  }

  lemma {:induction false} RunConcat(st: State, xs: seq<string>, ys: seq<string>)
    ensures Run(st, xs + ys) == Run(Run(st, xs), ys)
    decreases |ys|
  {
    if ys == [] {
      assert xs + ys == xs;
    } else {
      var n := |ys| - 1;
      assert (xs + ys)[..|xs + ys| - 1] == xs + ys[..n];
      assert (xs + ys)[|xs + ys| - 1] == ys[n];
      RunConcat(st, xs, ys[..n]);
    }
  }

  /** A run of answer lines only extends `current_a` and clears `collecting_q`. */
  lemma {:induction false} RunAnswers(st: State, lines: seq<string>)
    requires NoQuestions(lines)
    ensures Run(st, lines) == if lines == [] then st
                              else st.(a := st.a + AnswerText(lines), collecting := false)
    decreases |lines|
  {
    if lines != [] {
      var n := |lines| - 1;
      RunAnswers(st, lines[..n]);
      if n == 0 {
        assert lines[..n] == [];
      }
    }
  }

  /** While `collecting_q` holds, a run of question lines only extends `current_q`. */
  lemma {:induction false} RunQuestionsCollecting(st: State, lines: seq<string>)
    requires st.collecting && AllQuestions(lines)
    ensures Run(st, lines) == st.(q := st.q + QuestionText(lines))
    decreases |lines|
  {
    if lines != [] {
      var n := |lines| - 1;
      var init := lines[..n];
      assert AllQuestions(init) by {
        forall k | 0 <= k < n ensures IsQuestionLine(init[k]) {
          assert init[k] == lines[k];
        }
      }
      RunQuestionsCollecting(st, init);
      var prev := Run(st, init);
      assert prev.collecting && IsQuestionLine(lines[n]);
      assert Run(st, lines) == prev.(q := prev.q + Strip(Remainder(lines[n])) + " ");
      assert QuestionText(lines) == QuestionText(init) + Strip(Remainder(lines[n])) + " ";
    }
  }

  /**
   * A maximal run of question lines met while not collecting: the pending pair is
   * emitted (if both accumulators are non-empty, which also clears `current_a`) and
   * `current_q` becomes the run's text.
   */
  lemma {:induction false} RunQuestionBlock(st: State, lines: seq<string>)
    requires !st.collecting && |lines| >= 1 && AllQuestions(lines)
    ensures Run(st, lines)
            == State(st.pairs + Emit(st.q, st.a), QuestionText(lines),
                     if st.q != "" && st.a != "" then "" else st.a, true)
    decreases |lines|
  {
    var n := |lines| - 1;
    if n == 0 {
      assert lines[..n] == [];
      assert QuestionText(lines) == Strip(Remainder(lines[0])) + " ";
    } else {
      RunQuestionBlock(st, lines[..n]);
    }
  }

  // ---------------------------------------------------------------------------
  // The corpus seen as blocks: the lines before the first question, then maximal
  // runs of question lines each followed by its run of answer lines.

  datatype Block = Block(questions: seq<string>, answers: seq<string>)

  function Flatten(blocks: seq<Block>): seq<string>
    decreases |blocks|
  {
    if blocks == [] then [] else blocks[0].questions + blocks[0].answers + Flatten(blocks[1..])
  }

  /**
   * Every block has at least one question line and only question lines in its question
   * run, only answer lines in its answer run, and every block but the last has at least
   * one answer line (otherwise two question runs would touch and be one run).
   */
  predicate WellFormed(blocks: seq<Block>) {
    forall k :: 0 <= k < |blocks| ==>
      && |blocks[k].questions| >= 1
      && AllQuestions(blocks[k].questions)
      && NoQuestions(blocks[k].answers)
      && (k + 1 < |blocks| ==> |blocks[k].answers| >= 1)
  }

  /**
   * The reference result: block `k` yields the pair (its question text, its answer text),
   * trimmed, exactly when that answer text is non-empty, where the first block's answer
   * text starts with `carry` (the lines before the first question).
   */
  function Expected(carry: string, blocks: seq<Block>): seq<QaPair>
    decreases |blocks|
  {
    if blocks == [] then []
    else
      var answer := carry + AnswerText(blocks[0].answers);
      (if answer != "" then [QaPair(Strip(QuestionText(blocks[0].questions)), Strip(answer))] else [])
      + Expected("", blocks[1..])
  }

  lemma {:induction false} NoQuestionsCons(x: string, xs: seq<string>)
    requires !IsQuestionLine(x) && NoQuestions(xs)
    ensures NoQuestions([x] + xs)
  {
    var run := [x] + xs;
    forall k | 0 <= k < |run| ensures !IsQuestionLine(run[k]) {
      if k > 0 { assert run[k] == xs[k - 1]; }
    }
  }

  lemma {:induction false} AllQuestionsCons(x: string, xs: seq<string>)
    requires IsQuestionLine(x) && AllQuestions(xs)
    ensures AllQuestions([x] + xs)
  {
    var run := [x] + xs;
    forall k | 0 <= k < |run| ensures IsQuestionLine(run[k]) {
      if k > 0 { assert run[k] == xs[k - 1]; }
    }
  }

  lemma {:induction false} ConsConcat(lines: seq<string>, xs: seq<string>, ys: seq<string>)
    requires lines != [] && xs + ys == lines[1..]
    ensures [lines[0]] + xs + ys == lines
  {
    assert [lines[0]] + (xs + ys) == lines;
  }

  /** The leading answer lines of `lines`, and the rest, which is empty or starts with a question line. */
  function SpanAnswers(lines: seq<string>): (r: (seq<string>, seq<string>))
    ensures r.0 + r.1 == lines
    ensures lines != [] && !IsQuestionLine(lines[0]) ==> |r.0| >= 1
    ensures NoQuestions(r.0)
    ensures r.1 == [] || IsQuestionLine(r.1[0])
    decreases |lines|
  {
    if lines == [] || IsQuestionLine(lines[0]) then ([], lines)
    else
      var r := SpanAnswers(lines[1..]);
      NoQuestionsCons(lines[0], r.0);
      ConsConcat(lines, r.0, r.1);
      ([lines[0]] + r.0, r.1)
  }

  /** The leading question lines of `lines`, and the rest, which is empty or starts with an answer line. */
  function SpanQuestions(lines: seq<string>): (r: (seq<string>, seq<string>))
    ensures r.0 + r.1 == lines
    ensures lines != [] && IsQuestionLine(lines[0]) ==> |r.0| >= 1
    ensures AllQuestions(r.0)
    ensures r.1 == [] || !IsQuestionLine(r.1[0])
    decreases |lines|
  {
    if lines == [] || !IsQuestionLine(lines[0]) then ([], lines)
    else
      var r := SpanQuestions(lines[1..]);
      AllQuestionsCons(lines[0], r.0);
      ConsConcat(lines, r.0, r.1);
      ([lines[0]] + r.0, r.1)
  }

  lemma {:induction false} SpanAnswersAll(lines: seq<string>)
    requires NoQuestions(lines)
    ensures SpanAnswers(lines).1 == []
    decreases |lines|
  {
    if lines != [] {
      var tail := lines[1..];
      assert NoQuestions(tail) by {
        forall k | 0 <= k < |tail| ensures !IsQuestionLine(tail[k]) {
          assert tail[k] == lines[k + 1];
        }
      }
      SpanAnswersAll(tail);
    }
  }

  lemma {:induction false} WellFormedCons(b: Block, tail: seq<Block>)
    requires WellFormed(tail) && |b.questions| >= 1
    requires AllQuestions(b.questions) && NoQuestions(b.answers)
    requires tail != [] ==> |b.answers| >= 1
    ensures WellFormed([b] + tail)
  {
    var blocks := [b] + tail;
    forall k | 0 <= k < |blocks|
      ensures && |blocks[k].questions| >= 1
              && AllQuestions(blocks[k].questions)
              && NoQuestions(blocks[k].answers)
              && (k + 1 < |blocks| ==> |blocks[k].answers| >= 1)
    {
      if k > 0 { assert blocks[k] == tail[k - 1]; }
    }
  }

  lemma {:induction false} FlattenCons(b: Block, tail: seq<Block>)
    ensures Flatten([b] + tail) == b.questions + b.answers + Flatten(tail)
  {
    assert ([b] + tail)[1..] == tail;
  }

  /** Non-empty well-formed blocks flatten to lines that start with a question line. */
  lemma {:induction false} FlattenStarts(blocks: seq<Block>)
    requires WellFormed(blocks) && blocks != []
    ensures Flatten(blocks) != [] && IsQuestionLine(Flatten(blocks)[0])
  {
    var b := blocks[0];
    assert Flatten(blocks) == b.questions + (b.answers + Flatten(blocks[1..]));
    assert Flatten(blocks)[0] == b.questions[0];
  }

  /** One step of `Group`: a question run and its answer run in front of well-formed blocks. */
  lemma {:induction false} GroupCons(lines: seq<string>, qs: seq<string>, rest: seq<string>, ans: seq<string>,
                  rest2: seq<string>, tail: seq<Block>)
    requires lines == qs + rest && |qs| >= 1 && AllQuestions(qs)
    requires rest == [] || !IsQuestionLine(rest[0])
    requires rest == ans + rest2 && NoQuestions(ans)
    requires Flatten(tail) == rest2 && WellFormed(tail)
    ensures Flatten([Block(qs, ans)] + tail) == lines
    ensures WellFormed([Block(qs, ans)] + tail)
  {
    if tail != [] {
      FlattenStarts(tail);
      assert ans == [] ==> rest == rest2;
    }
    WellFormedCons(Block(qs, ans), tail);
    FlattenCons(Block(qs, ans), tail);
  }

  /** Cuts lines that are empty or start with a question line into well-formed blocks. */
  function Group(lines: seq<string>): (blocks: seq<Block>)
    requires lines == [] || IsQuestionLine(lines[0])
    ensures Flatten(blocks) == lines
    ensures WellFormed(blocks)
    decreases |lines|
  {
    if lines == [] then []
    else
      var (qs, rest) := SpanQuestions(lines);
      var (ans, rest2) := SpanAnswers(rest);
      var tail := Group(rest2);
      GroupCons(lines, qs, rest, ans, rest2, tail);
      [Block(qs, ans)] + tail
  }

  /** The prefix of answer lines and the blocks of a corpus's lines. */
  function Decompose(lines: seq<string>): (r: (seq<string>, seq<Block>))
    ensures r.0 + Flatten(r.1) == lines
    ensures NoQuestions(r.0)
    ensures WellFormed(r.1)
  {
    var (prefix, rest) := SpanAnswers(lines);
    (prefix, Group(rest))
  }

  /** The state after one block, from a non-collecting state. */
  function AfterBlock(st: State, b: Block): State {
    var emitted := st.q != "" && st.a != "";
    var a1 := if emitted then "" else st.a;
    State(st.pairs + Emit(st.q, st.a), QuestionText(b.questions),
          a1 + AnswerText(b.answers), b.answers == [])
  }

  lemma {:induction false} BlockStep(st: State, b: Block)
    requires !st.collecting && |b.questions| >= 1
    requires AllQuestions(b.questions) && NoQuestions(b.answers)
    ensures Run(st, b.questions + b.answers) == AfterBlock(st, b)
  {
    RunConcat(st, b.questions, b.answers);
    RunQuestionBlock(st, b.questions);
    RunAnswers(Run(st, b.questions), b.answers);
  }

  lemma {:induction false} WellFormedTail(blocks: seq<Block>)
    requires WellFormed(blocks) && blocks != []
    ensures WellFormed(blocks[1..])
    ensures |blocks[0].questions| >= 1
    ensures AllQuestions(blocks[0].questions) && NoQuestions(blocks[0].answers)
    ensures |blocks| > 1 ==> |blocks[0].answers| >= 1
  {
    var rest := blocks[1..];
    forall k | 0 <= k < |rest|
      ensures && |rest[k].questions| >= 1
              && AllQuestions(rest[k].questions)
              && NoQuestions(rest[k].answers)
              && (k + 1 < |rest| ==> |rest[k].answers| >= 1)
    {
      assert rest[k] == blocks[k + 1];
    }
  }

  lemma {:induction false} Append3(xs: seq<QaPair>, ys: seq<QaPair>, zs: seq<QaPair>)
    ensures (xs + ys) + zs == xs + (ys + zs)
  {
  }

  /** What the accumulated answer contributes to the first block still to come. */
  function Carry(st: State): string {
    if st.q != "" then "" else st.a
  }

  /** The first block of a non-empty well-formed list, processed from a non-collecting state. */
  lemma {:induction false} FirstBlock(st: State, blocks: seq<Block>)
    requires !st.collecting && WellFormed(blocks) && blocks != []
    ensures var st2 := AfterBlock(st, blocks[0]);
            && st2.pairs == st.pairs + Emit(st.q, st.a)
            && st2.q != "" && Carry(st2) == ""
            && Run(st, Flatten(blocks)) == Run(st2, Flatten(blocks[1..]))
            && Expected(Carry(st), blocks) == Emit(st2.q, st2.a) + Expected("", blocks[1..])
            && (st2.collecting ==> blocks[1..] == [])
  {
    var b := blocks[0];
    var rest := blocks[1..];
    WellFormedTail(blocks);
    assert Flatten(blocks) == (b.questions + b.answers) + Flatten(rest);
    RunConcat(st, b.questions + b.answers, Flatten(rest));
    BlockStep(st, b);
    var st2 := AfterBlock(st, b);
    assert st2.a == Carry(st) + AnswerText(b.answers);
    AnswerTextEmpty(b.answers);
  }

  /**
   * The main induction: from a non-collecting state, whole blocks yield the pending pair
   * (if any) followed by the reference pairs of the blocks.
   */
  lemma {:induction false} RunBlocks(st: State, blocks: seq<Block>)
    requires !st.collecting && WellFormed(blocks)
    ensures Final(Run(st, Flatten(blocks))) == st.pairs + Emit(st.q, st.a) + Expected(Carry(st), blocks)
    decreases |blocks|
  {
    if blocks == [] {
      assert Flatten(blocks) == [];
    } else {
      FirstBlock(st, blocks);
      var st2 := AfterBlock(st, blocks[0]);
      var rest := blocks[1..];
      if st2.collecting {
        assert Flatten(rest) == [];
        assert Final(Run(st2, Flatten(rest))) == st2.pairs + Emit(st2.q, st2.a) + Expected("", rest);
      } else {
        RunBlocks(st2, rest);
      }
      Append3(st.pairs + Emit(st.q, st.a), Emit(st2.q, st2.a), Expected("", rest));
    }
  }

  /**
   * `parse_qa` agrees with the block reading of its input on every corpus: split the
   * lines into the leading answer lines and the maximal blocks; block `k` gives pair `k`.
   */
  lemma {:induction false} QaPairsByBlocks(text: string)
    ensures var d := Decompose(SplitLines(text));
            QaPairs(text) == Expected(AnswerText(d.0), d.1)
  {
    RunByBlocks(SplitLines(text));
  }

  /** The same on any sequence of lines. */
  lemma {:induction false} RunByBlocks(lines: seq<string>)
    ensures var d := Decompose(lines);
            Final(Run(Initial, lines)) == Expected(AnswerText(d.0), d.1)
  {
    var d := Decompose(lines);
    var prefix, blocks := d.0, d.1;
    var st := Initial.(a := AnswerText(prefix), collecting := false);
    assert Run(Initial, prefix) == st by {
      RunAnswers(Initial, prefix);
    }
    calc {
      Final(Run(Initial, lines));
      Final(Run(Initial, prefix + Flatten(blocks)));
      { RunConcat(Initial, prefix, Flatten(blocks)); }
      Final(Run(st, Flatten(blocks)));
      { RunBlocks(st, blocks); }
      st.pairs + Emit(st.q, st.a) + Expected(Carry(st), blocks);
      { assert Carry(st) == AnswerText(prefix); }
      Expected(AnswerText(prefix), blocks);
    }
  }

  // ---------------------------------------------------------------------------
  // Consequences for parse_qa

  /** The pair of block `k`: its question text, and its answer text (with `carry` in front for the first block). */
  function BlockPair(carry: string, blocks: seq<Block>, k: nat): QaPair
    requires k < |blocks|
  {
    QaPair(Strip(QuestionText(blocks[k].questions)),
           Strip((if k == 0 then carry else "") + AnswerText(blocks[k].answers)))
  }

  /** The pairs of the blocks after the first, numbered from one. */
  lemma {:induction false} ShiftPairs(carry: string, blocks: seq<Block>, tail: seq<QaPair>)
    requires |blocks| >= 1 && |tail| < |blocks|
    requires forall k :: 0 <= k < |tail| ==> tail[k] == BlockPair("", blocks[1..], k)
    ensures forall k :: 0 <= k < |tail| + 1 ==> ([BlockPair(carry, blocks, 0)] + tail)[k] == BlockPair(carry, blocks, k)
  {
    var r := [BlockPair(carry, blocks, 0)] + tail;
    forall k | 0 < k < |r| ensures r[k] == BlockPair(carry, blocks, k) {
      assert r[k] == tail[k - 1];
      assert blocks[1..][k - 1] == blocks[k];
    }
  }

  /**
   * Every block but the last always yields its pair, in order; the last one yields its
   * pair exactly when its answer text (with `carry` in front if it is also the first) is non-empty.
   */
  lemma {:induction false} ExpectedShape(carry: string, blocks: seq<Block>)
    requires WellFormed(blocks)
    ensures var r := Expected(carry, blocks);
            && |r| <= |blocks| <= |r| + 1
            && (|r| < |blocks| <==>
                  blocks != [] && blocks[|blocks| - 1].answers == [] && (|blocks| > 1 || carry == ""))
            && forall k :: 0 <= k < |r| ==> r[k] == BlockPair(carry, blocks, k)
    decreases |blocks|
  {
    if blocks != [] {
      var rest := blocks[1..];
      WellFormedTail(blocks);
      ExpectedShape("", rest);
      var r := Expected(carry, blocks);
      var tail := Expected("", rest);
      if rest != [] {
        AnswerTextEmpty(blocks[0].answers);
        assert r == [BlockPair(carry, blocks, 0)] + tail;
        ShiftPairs(carry, blocks, tail);
        assert blocks[|blocks| - 1] == rest[|rest| - 1];
      } else {
        assert tail == [];
        AnswerTextEmpty(blocks[0].answers);
      }
    }
  }

  /**
   * The shape of `parse_qa`'s result in terms of the corpus's blocks: as many pairs as
   * maximal runs of question lines, or one fewer when the last run has no line after it
   * (and, if it is the only run, no line before it either); pair `k` comes from run `k`.
   */
  lemma {:induction false} QaPairsShape(text: string)
    ensures var d := Decompose(SplitLines(text));
            var prefix, blocks, pairs := d.0, d.1, QaPairs(text);
            && |pairs| <= |blocks| <= |pairs| + 1
            && (|pairs| < |blocks| <==>
                  blocks != [] && blocks[|blocks| - 1].answers == [] && (|blocks| > 1 || prefix == []))
            && forall k :: 0 <= k < |pairs| ==> pairs[k] == BlockPair(AnswerText(prefix), blocks, k)
  {
    var d := Decompose(SplitLines(text));
    var prefix, blocks := d.0, d.1;
    QaPairsByBlocks(text);
    assert QaPairs(text) == Expected(AnswerText(prefix), blocks);
    ExpectedShape(AnswerText(prefix), blocks);
    AnswerTextEmpty(prefix);
  }

  /** A corpus without any line that starts with `#` (the empty corpus among them) has no pairs. */
  lemma {:induction false} NoQuestionLinesNoPairs(text: string)
    requires NoQuestions(SplitLines(text))
    ensures QaPairs(text) == []
  {
    SpanAnswersAll(SplitLines(text));
    QaPairsByBlocks(text);
  }

  /** Every question and answer comes out trimmed, so a further `strip()` or `lstrip()` changes nothing. */
  lemma {:induction false} QaPairsTrimmed(text: string)
    ensures forall p :: p in QaPairs(text) ==>
              && Strip(p.question) == p.question && LStrip(p.question) == p.question
              && Strip(p.answer) == p.answer
  {
    var (prefix, blocks) := Decompose(SplitLines(text));
    var pairs := QaPairs(text);
    QaPairsShape(text);
    forall p | p in pairs
      ensures && Strip(p.question) == p.question && LStrip(p.question) == p.question
              && Strip(p.answer) == p.answer
    {
      var k :| 0 <= k < |pairs| && pairs[k] == p;
      var b := BlockPair(AnswerText(prefix), blocks, k);
      StripIdempotent(QuestionText(blocks[k].questions));
      StripIdempotent((if k == 0 then AnswerText(prefix) else "") + AnswerText(blocks[k].answers));
    }
  }
}
