/**
 * Concrete corpora run through `parse_qa`, one per edge case of the segmenter.
 * Each corpus is passed as a parameter fixed by the precondition, so that the
 * verifier reasons about its lines instead of unfolding the splitter character by
 * character.
 */
module SegmenterExamples {
  import opened Text
  import opened Segmenter

  lemma {:induction false} RunSnoc(st: State, xs: seq<string>, x: string)
    ensures Run(st, xs + [x]) == Step(Run(st, xs), x)
  {
    assert (xs + [x])[..|xs|] == xs;
  }

  lemma {:induction false} Run2(a: string, b: string)
    ensures Run(Initial, [a, b]) == Step(Step(Initial, a), b)
  {
    RunSnoc(Initial, [], a);
    assert [] + [a] == [a];
    RunSnoc(Initial, [a], b);
    assert [a] + [b] == [a, b];
  }

  lemma {:induction false} Run3(a: string, b: string, c: string)
    ensures Run(Initial, [a, b, c]) == Step(Step(Step(Initial, a), b), c)
  {
    Run2(a, b);
    RunSnoc(Initial, [a, b], c);
    assert [a, b] + [c] == [a, b, c];
  }

  lemma {:induction false} Run4(a: string, b: string, c: string, d: string)
    ensures Run(Initial, [a, b, c, d]) == Step(Step(Step(Step(Initial, a), b), c), d)
  {
    Run3(a, b, c);
    RunSnoc(Initial, [a, b, c], d);
    assert [a, b, c] + [d] == [a, b, c, d];
  }

  /** A line that is not a question line is appended to the answer and ends question collection. */
  lemma {:induction false} StepAnswer(st: State, line: string)
    requires !IsQuestionLine(line)
    ensures Step(st, line) == State(st.pairs, st.q, st.a + line + "\n", false)
  {
  }

  lemma {:induction false} AddTwoNumbersStep1()
    ensures Step(Initial, "# add two numbers") == State([], "add two numbers ", "", true)
  {
    StripUnique(" add two numbers", 1, 16);
    assert " add two numbers"[1..16] == "add two numbers";
  }

  lemma {:induction false} AddTwoNumbersRun(ls: seq<string>)
    requires ls == ["# add two numbers", "return a + b", ""]
    ensures Run(Initial, ls) == State([], "add two numbers ", "return a + b\n\n", false)
  {
    var s1 := State([], "add two numbers ", "", true);
    AddTwoNumbersStep1();
    var s2 := State([], "add two numbers ", "return a + b\n", false);
    StepAnswer(s1, ls[1]);
    assert Step(s1, ls[1]) == s2;
    var s3 := State([], "add two numbers ", "return a + b\n\n", false);
    StepAnswer(s2, ls[2]);
    assert Step(s2, ls[2]) == s3;
    Run3(ls[0], ls[1], ls[2]);
  }

  lemma {:induction false} AddTwoNumbersQuestion()
    ensures Strip("add two numbers ") == "add two numbers"
  {
    StripUnique("add two numbers ", 0, 15);
    assert "add two numbers "[0..15] == "add two numbers";
  }

  lemma {:induction false} AddTwoNumbersAnswer()
    ensures Strip("return a + b\n\n") == "return a + b"
  {
    StripUnique("return a + b\n\n", 0, 12);
    assert "return a + b\n\n"[0..12] == "return a + b";
  }

  lemma {:induction false} AddTwoNumbersFinal()
    ensures Final(State([], "add two numbers ", "return a + b\n\n", false)) == [QaPair("add two numbers", "return a + b")]
  {
    AddTwoNumbersQuestion();
    AddTwoNumbersAnswer();
  }

  lemma {:induction false} AddTwoNumbersLines()
    ensures SplitLines("# add two numbers\nreturn a + b\n") == ["# add two numbers", "return a + b", ""]
  {
    var ls := ["# add two numbers", "return a + b", ""];
    assert JoinLines(ls) == "# add two numbers\nreturn a + b\n";
    SplitJoin(ls);
  }

  /** One question, one answer line, and the empty piece after the trailing newline. */
  lemma {:induction false} AddTwoNumbers(text: string)
    requires text == "# add two numbers\nreturn a + b\n"
    ensures QaPairs(text) == [QaPair("add two numbers", "return a + b")]
  {
    var ls := ["# add two numbers", "return a + b", ""];
    AddTwoNumbersLines();
    AddTwoNumbersRun(ls);
    AddTwoNumbersFinal();
  }

  lemma {:induction false} EmptyCorpusRun(ls: seq<string>)
    requires ls == [""]
    ensures Run(Initial, ls) == State([], "", "\n", false)
  {
    var s1 := State([], "", "\n", false);
    StepAnswer(Initial, ls[0]);
    assert Step(Initial, ls[0]) == s1;
    RunSnoc(Initial, [], ls[0]);
    assert [] + [ls[0]] == ls;
  }

  /** The empty corpus is one empty line, an answer line, and gives no pair. */
  lemma {:induction false} EmptyCorpus(text: string)
    requires text == ""
    ensures QaPairs(text) == []
  {
    var ls := [""];
    assert JoinLines(ls) == text;
    SplitJoin(ls);
    EmptyCorpusRun(ls);
  }

  lemma {:induction false} MergedQuestionStep1()
    ensures Step(Initial, "# first") == State([], "first ", "", true)
  {
    StripUnique(" first", 1, 6);
    assert " first"[1..6] == "first";
  }

  lemma {:induction false} MergedQuestionStep2()
    ensures Step(State([], "first ", "", true), "# second") == State([], "first second ", "", true)
  {
    StripUnique(" second", 1, 7);
    assert " second"[1..7] == "second";
  }

  lemma {:induction false} MergedQuestionRun(ls: seq<string>)
    requires ls == ["# first", "# second", "body"]
    ensures Run(Initial, ls) == State([], "first second ", "body\n", false)
  {
    var s1 := State([], "first ", "", true);
    MergedQuestionStep1();
    var s2 := State([], "first second ", "", true);
    MergedQuestionStep2();
    var s3 := State([], "first second ", "body\n", false);
    StepAnswer(s2, ls[2]);
    assert Step(s2, ls[2]) == s3;
    Run3(ls[0], ls[1], ls[2]);
  }

  lemma {:induction false} MergedQuestionFinal()
    ensures Final(State([], "first second ", "body\n", false)) == [QaPair("first second", "body")]
  {
    StripUnique("first second ", 0, 12);
    assert "first second "[0..12] == "first second";
    StripUnique("body\n", 0, 4);
    assert "body\n"[0..4] == "body";
  }

  /** Consecutive question lines make one question, joined with a space. */
  lemma {:induction false} MergedQuestion(text: string)
    requires text == "# first\n# second\nbody"
    ensures QaPairs(text) == [QaPair("first second", "body")]
  {
    var ls := ["# first", "# second", "body"];
    assert JoinLines(ls) == text;
    SplitJoin(ls);
    MergedQuestionRun(ls);
    MergedQuestionFinal();
  }

  /** A question line `#q` at the start opens question collection with `"q "`. */
  lemma {:induction false} FirstQuestionQ()
    ensures Step(Initial, "#q") == State([], "q ", "", true)
  {
    StripUnique("q", 0, 1);
  }

  lemma {:induction false} BlankAnswerRun(ls: seq<string>)
    requires ls == ["#q", "", "", ""]
    ensures Run(Initial, ls) == State([], "q ", "\n\n\n", false)
  {
    var s1 := State([], "q ", "", true);
    FirstQuestionQ();
    var s2 := State([], "q ", "\n", false);
    StepAnswer(s1, ls[1]);
    assert Step(s1, ls[1]) == s2;
    var s3 := State([], "q ", "\n\n", false);
    StepAnswer(s2, ls[2]);
    assert Step(s2, ls[2]) == s3;
    var s4 := State([], "q ", "\n\n\n", false);
    StepAnswer(s3, ls[3]);
    assert Step(s3, ls[3]) == s4;
    Run4(ls[0], ls[1], ls[2], ls[3]);
  }

  lemma {:induction false} BlankAnswerFinal()
    ensures Final(State([], "q ", "\n\n\n", false)) == [QaPair("q", "")]
  {
    StripUnique("q ", 0, 1);
    assert "q "[0..1] == "q";
    StripUnique("\n\n\n", 0, 0);
  }

  /** An answer made of blank lines only still yields a pair, with the empty answer. */
  lemma {:induction false} BlankAnswer(text: string)
    requires text == "#q\n\n\n"
    ensures QaPairs(text) == [QaPair("q", "")]
  {
    var ls := ["#q", "", "", ""];
    assert JoinLines(ls) == text;
    SplitJoin(ls);
    BlankAnswerRun(ls);
    BlankAnswerFinal();
  }

  lemma {:induction false} BareMarkerStep1()
    ensures Step(Initial, "#") == State([], " ", "", true)
  {
    StripUnique("", 0, 0);
  }

  lemma {:induction false} BareMarkerRun(ls: seq<string>)
    requires ls == ["#", "x"]
    ensures Run(Initial, ls) == State([], " ", "x\n", false)
  {
    var s1 := State([], " ", "", true);
    BareMarkerStep1();
    var s2 := State([], " ", "x\n", false);
    StepAnswer(s1, ls[1]);
    assert Step(s1, ls[1]) == s2;
    Run2(ls[0], ls[1]);
  }

  lemma {:induction false} BareMarkerFinal()
    ensures Final(State([], " ", "x\n", false)) == [QaPair("", "x")]
  {
    StripUnique(" ", 0, 0);
    StripUnique("x\n", 0, 1);
    assert "x\n"[0..1] == "x";
  }

  /** A bare `#` line yields a pair whose question is empty. */
  lemma {:induction false} BareMarker(text: string)
    requires text == "#\nx"
    ensures QaPairs(text) == [QaPair("", "x")]
  {
    var ls := ["#", "x"];
    assert JoinLines(ls) == text;
    SplitJoin(ls);
    BareMarkerRun(ls);
    BareMarkerFinal();
  }

  lemma {:induction false} PrefixKeptStep2()
    ensures Step(State([], "", "lead\n", false), "#q") == State([], "q ", "lead\n", true)
  {
    StripUnique("q", 0, 1);
  }

  lemma {:induction false} PrefixKeptRun(ls: seq<string>)
    requires ls == ["lead", "#q", "ans"]
    ensures Run(Initial, ls) == State([], "q ", "lead\nans\n", false)
  {
    var s1 := State([], "", "lead\n", false);
    StepAnswer(Initial, ls[0]);
    assert Step(Initial, ls[0]) == s1;
    var s2 := State([], "q ", "lead\n", true);
    PrefixKeptStep2();
    var s3 := State([], "q ", "lead\nans\n", false);
    StepAnswer(s2, ls[2]);
    assert Step(s2, ls[2]) == s3;
    Run3(ls[0], ls[1], ls[2]);
  }

  lemma {:induction false} PrefixKeptFinal()
    ensures Final(State([], "q ", "lead\nans\n", false)) == [QaPair("q", "lead\nans")]
  {
    StripUnique("q ", 0, 1);
    assert "q "[0..1] == "q";
    StripUnique("lead\nans\n", 0, 8);
    assert "lead\nans\n"[0..8] == "lead\nans";
  }

  /** Lines before the first question become the front of the first answer. */
  lemma {:induction false} PrefixKept(text: string)
    requires text == "lead\n#q\nans"
    ensures QaPairs(text) == [QaPair("q", "lead\nans")]
  {
    var ls := ["lead", "#q", "ans"];
    assert JoinLines(ls) == text;
    SplitJoin(ls);
    PrefixKeptRun(ls);
    PrefixKeptFinal();
  }

  lemma {:induction false} IndentedMarkerRun(ls: seq<string>)
    requires ls == ["#q", " #x"]
    ensures Run(Initial, ls) == State([], "q ", " #x\n", false)
  {
    var s1 := State([], "q ", "", true);
    FirstQuestionQ();
    var s2 := State([], "q ", " #x\n", false);
    StepAnswer(s1, ls[1]);
    assert Step(s1, ls[1]) == s2;
    Run2(ls[0], ls[1]);
  }

  lemma {:induction false} IndentedMarkerFinal()
    ensures Final(State([], "q ", " #x\n", false)) == [QaPair("q", "#x")]
  {
    StripUnique("q ", 0, 1);
    assert "q "[0..1] == "q";
    StripUnique(" #x\n", 1, 3);
    assert " #x\n"[1..3] == "#x";
  }

  /** A `#` after leading whitespace does not start a question. */
  lemma {:induction false} IndentedMarker(text: string)
    requires text == "#q\n #x"
    ensures QaPairs(text) == [QaPair("q", "#x")]
  {
    var ls := ["#q", " #x"];
    assert JoinLines(ls) == text;
    SplitJoin(ls);
    IndentedMarkerRun(ls);
    IndentedMarkerFinal();
  }

  /** A question line `#a` at the start opens question collection with `"a "`. */
  lemma {:induction false} FirstQuestionA()
    ensures Step(Initial, "#a") == State([], "a ", "", true)
  {
    StripUnique("a", 0, 1);
  }

  /** After the block `#a` / `x`, the question line `#b` emits the pair ("a", "x") and starts `"b "`. */
  lemma {:induction false} SecondQuestionB()
    ensures Step(State([], "a ", "x\n", false), "#b") == State([QaPair("a", "x")], "b ", "", true)
  {
    StripUnique("b", 0, 1);
    StripUnique("a ", 0, 1);
    assert "a "[0..1] == "a";
    StripUnique("x\n", 0, 1);
    assert "x\n"[0..1] == "x";
  }

  lemma {:induction false} TwoPairsRun(ls: seq<string>)
    requires ls == ["#a", "x", "#b", "y"]
    ensures Run(Initial, ls) == State([QaPair("a", "x")], "b ", "y\n", false)
  {
    var s1 := State([], "a ", "", true);
    FirstQuestionA();
    var s2 := State([], "a ", "x\n", false);
    StepAnswer(s1, ls[1]);
    assert Step(s1, ls[1]) == s2;
    var s3 := State([QaPair("a", "x")], "b ", "", true);
    SecondQuestionB();
    var s4 := State([QaPair("a", "x")], "b ", "y\n", false);
    StepAnswer(s3, ls[3]);
    assert Step(s3, ls[3]) == s4;
    Run4(ls[0], ls[1], ls[2], ls[3]);
  }

  lemma {:induction false} TwoPairsFinal()
    ensures Final(State([QaPair("a", "x")], "b ", "y\n", false)) == [QaPair("a", "x"), QaPair("b", "y")]
  {
    StripUnique("b ", 0, 1);
    assert "b "[0..1] == "b";
    StripUnique("y\n", 0, 1);
    assert "y\n"[0..1] == "y";
  }

  /** Two blocks give two pairs in corpus order; the second question emits the first pair. */
  lemma {:induction false} TwoPairs(text: string)
    requires text == "#a\nx\n#b\ny"
    ensures QaPairs(text) == [QaPair("a", "x"), QaPair("b", "y")]
  {
    var ls := ["#a", "x", "#b", "y"];
    assert JoinLines(ls) == text;
    SplitJoin(ls);
    TwoPairsRun(ls);
    TwoPairsFinal();
  }

  lemma {:induction false} FinalQuestionDroppedRun(ls: seq<string>)
    requires ls == ["#a", "x", "#b"]
    ensures Run(Initial, ls) == State([QaPair("a", "x")], "b ", "", true)
  {
    var s1 := State([], "a ", "", true);
    FirstQuestionA();
    var s2 := State([], "a ", "x\n", false);
    StepAnswer(s1, ls[1]);
    assert Step(s1, ls[1]) == s2;
    var s3 := State([QaPair("a", "x")], "b ", "", true);
    SecondQuestionB();
    Run3(ls[0], ls[1], ls[2]);
  }

  /** A last question with no line after it is dropped. */
  lemma {:induction false} FinalQuestionDropped(text: string)
    requires text == "#a\nx\n#b"
    ensures QaPairs(text) == [QaPair("a", "x")]
  {
    var ls := ["#a", "x", "#b"];
    assert JoinLines(ls) == text;
    SplitJoin(ls);
    FinalQuestionDroppedRun(ls);
  }

  lemma {:induction false} AdjacentQuestionsOnlyStep2()
    ensures Step(State([], "a ", "", true), "#b") == State([], "a b ", "", true)
  {
    StripUnique("b", 0, 1);
  }

  lemma {:induction false} AdjacentQuestionsOnlyRun(ls: seq<string>)
    requires ls == ["#a", "#b"]
    ensures Run(Initial, ls) == State([], "a b ", "", true)
  {
    var s1 := State([], "a ", "", true);
    FirstQuestionA();
    var s2 := State([], "a b ", "", true);
    AdjacentQuestionsOnlyStep2();
    Run2(ls[0], ls[1]);
  }

  /** Two adjacent question lines with nothing after them merge and are dropped together. */
  lemma {:induction false} AdjacentQuestionsOnly(text: string)
    requires text == "#a\n#b"
    ensures QaPairs(text) == []
  {
    var ls := ["#a", "#b"];
    assert JoinLines(ls) == text;
    SplitJoin(ls);
    AdjacentQuestionsOnlyRun(ls);
  }
}
