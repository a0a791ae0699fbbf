/**
 * A worked run of the loop of `translate` in `async_main.py`, on a one-pair corpus whose
 * reply carries a single fenced block with a language tag.
 */
module AsyncDriverExamples {
  import opened Text
  import opened Segmenter
  import opened Extractor
  import opened Rewrite
  import opened AsyncDriver
  import opened SegmenterExamples

  /** A question with no `p` in it holds no "python", so the rewrite leaves it as it is. */
  lemma {:induction false} RewriteWithoutP(q: string)
    requires 'p' !in q && (q == [] || !IsSpace(q[0]))
    ensures RewriteQuestion(q) == q
  {
    forall k | 0 <= k ensures !OccursAt(Python, q, k) {
      if k + |Python| <= |q| {
        assert q[k] != 'p';
        assert q[k..k + |Python|][0] == q[k];
      }
    }
    CountZero(Python, q);
    SubNoOccurrence(Python, Julia, q, IgnoreCaseFlag);
    RewriteNoLeadingSpace(q);
  }

  /** On a single pair the loop runs once, from empty logs. */
  lemma {:induction false} TranslateOne(p: QaPair, reply: string)
    ensures Translate([p], [reply]) == Route(Logs([], []), p, reply)
  {
    assert [p][..0] == [];
    assert [reply][..0] == [];
  }

  /** The reply to the one prompt: a `julia` block holding the answer line. */
  lemma {:induction false} AddTwoNumbersReply(reply: string)
    requires reply == "```julia\nreturn a + b\n```"
    ensures FindAll(reply) == ["julia\nreturn a + b\n"]
  {
    var tag, code := "julia", "return a + b\n";
    assert reply == Fence + tag + "\n" + code + Fence;
    assert tag + "\n" + code == "julia\nreturn a + b\n";
    LanguageTagKept(tag, code);
  }

  /**
   * The corpus `# add two numbers` / `return a + b`, answered with a fenced `julia` block,
   * gives one line in `julia_code.njson`, `["add two numbers", ["julia\nreturn a + b\n"]]`,
   * and none in `errors.njson`.
   */
  lemma {:induction false} AddTwoNumbersRecord(text: string, reply: string)
    requires text == "# add two numbers\nreturn a + b\n"
    requires reply == "```julia\nreturn a + b\n```"
    ensures |QaPairs(text)| == 1
            && Translate(QaPairs(text), [reply])
               == Logs([Success("add two numbers", ["julia\nreturn a + b\n"])], [])
  {
    AddTwoNumbers(text);
    AddTwoNumbersReply(reply);
    RewriteWithoutP("add two numbers");
    TranslateOne(QaPair("add two numbers", "return a + b"), reply);
  }
}
