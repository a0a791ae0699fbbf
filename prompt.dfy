/**
 * The text the two drivers build around a pair: the prompt sent to the model, and
 * (in `main.py`) the snippet written to `julia_code.txt`.  The f-strings are triple-quoted
 * inside a method body, so every line after the first carries the body's twelve spaces
 * of indentation, and the closing quotes sit on a line of their own.
 */
module Prompt {
  import opened Text
  import opened Segmenter

  /** The indentation the triple-quoted f-strings pick up from the surrounding code. */
  const Indent := "            "

  /** The first line of the prompt in `async_main.py`; `{{code}}` in the f-string is a literal `{code}`. */
  const AsyncHeader := "Translate the following python snippet to the Julia programming language. Use only native Julia libraries. Do not write anything except for the code. No explanation, runtime instructions, or anything other than one code block surrounded by ```julia  {code}  ``` blocks should be returned."

  /** The first line of the prompt in `main.py`. */
  const SyncHeader := "Translate the following snippit to the Julia programming language. Use only native libraries. Do not write anything except for the code. No explanation, or anything other than the code surrounded by ```  code  ``` blocks."

  /** From the end of the header to the question: the opening fence on an indented line of its own. */
  const Opening := "\n" + Indent + "```\n" + Indent

  /** Between the question and the answer: a blank line. */
  const Between := "\n\n" + Indent

  /** After the answer: the closing fence, and the indentation before the closing quotes. */
  const Closing := "\n" + Indent + "```\n" + Indent

  /** The layout both prompts share: the header, then `q` and `a` inside an indented fence. */
  function Layout(header: string, q: string, a: string): string {
    header + Opening + q + Between + a + Closing
  }

  /** `message_template` in `async_main.py`: built from the original question `q`, not from `qj`. */
  function AsyncPrompt(q: string, a: string): string {
    Layout(AsyncHeader, q, a)
  }

  /** `message_template` in `main.py`. */
  function SyncPrompt(q: string, a: string): string {
    Layout(SyncHeader, q, a)
  }

  /** Where the question starts in a prompt with this header. */
  function QuestionOffset(header: string): nat {
    |header| + |Opening|
  }

  /** Where the answer starts in a prompt with this header and question. */
  function AnswerOffset(header: string, q: string): nat {
    QuestionOffset(header) + |q| + |Between|
  }

  /** The middle of `u + v + w` is `v`. */
  lemma {:induction false} Middle(u: string, v: string, w: string)
    ensures OccursAt(v, u + v + w, |u|)
    ensures (u + v + w)[..|u|] == u
  {
    assert (u + v + w)[|u|..|u| + |v|] == v;
  }

  /** The prompt is the three fields and 72 characters of fences, newlines and indentation. */
  lemma {:induction false} LayoutLength(header: string, q: string, a: string)
    ensures |Layout(header, q, a)| == |header| + |q| + |a| + 72
  {
    assert |Opening| == 29 && |Between| == 14 && |Closing| == 29;
  }

  lemma {:induction false} LayoutHeader(header: string, q: string, a: string)
    ensures Layout(header, q, a)[..|header|] == header
  {
    var p := Layout(header, q, a);
    assert p == header + Opening + (q + Between + a + Closing);
    Middle(header, Opening, q + Between + a + Closing);
  }

  lemma {:induction false} LayoutQuestion(header: string, q: string, a: string)
    ensures OccursAt(q, Layout(header, q, a), QuestionOffset(header))
  {
    var open := header + Opening;
    assert Layout(header, q, a) == open + q + (Between + a + Closing);
    Middle(open, q, Between + a + Closing);
  }

  lemma {:induction false} LayoutAnswer(header: string, q: string, a: string)
    ensures OccursAt(a, Layout(header, q, a), AnswerOffset(header, q))
  {
    var front := header + Opening + q + Between;
    assert |Opening| == 29 && |Between| == 14;
    assert Layout(header, q, a) == front + a + Closing;
    Middle(front, a, Closing);
  }

  /**
   * The prompt opens with the header and holds `q` and `a` verbatim at fixed offsets,
   * followed by 29 characters of closing fence and indentation, so the header, the
   * question's length and the prompt give back both fields.
   */
  lemma {:induction false} LayoutFields(header: string, q: string, a: string)
    ensures var p := Layout(header, q, a);
            && |p| == |header| + |q| + |a| + 72
            && p[..|header|] == header
            && OccursAt(q, p, QuestionOffset(header))
            && OccursAt(a, p, AnswerOffset(header, q))
            && AnswerOffset(header, q) + |a| + 29 == |p|
  {
    LayoutLength(header, q, a);
    LayoutHeader(header, q, a);
    LayoutQuestion(header, q, a);
    LayoutAnswer(header, q, a);
    assert |Opening| == 29 && |Between| == 14;
  }

  /** Two prompts with the same header and equally long questions are equal only for the same pair. */
  lemma {:induction false} LayoutInjective(header: string, q1: string, a1: string, q2: string, a2: string)
    requires |q1| == |q2| && Layout(header, q1, a1) == Layout(header, q2, a2)
    ensures q1 == q2 && a1 == a2
  {
    LayoutFields(header, q1, a1);
    LayoutFields(header, q2, a2);
  }

  /** The async prompt embeds the pair verbatim, after the async header. */
  lemma {:induction false} AsyncPromptEmbeds(q: string, a: string)
    ensures var p := AsyncPrompt(q, a);
            && p[..|AsyncHeader|] == AsyncHeader
            && OccursAt(q, p, QuestionOffset(AsyncHeader))
            && OccursAt(a, p, AnswerOffset(AsyncHeader, q))
  {
    LayoutFields(AsyncHeader, q, a);
  }

  /** The sync prompt embeds the pair verbatim, after the sync header. */
  lemma {:induction false} SyncPromptEmbeds(q: string, a: string)
    ensures var p := SyncPrompt(q, a);
            && p[..|SyncHeader|] == SyncHeader
            && OccursAt(q, p, QuestionOffset(SyncHeader))
            && OccursAt(a, p, AnswerOffset(SyncHeader, q))
  {
    LayoutFields(SyncHeader, q, a);
  }

  /** The prompts sent for `pairs`, in order, under this header. */
  function Prompts(header: string, pairs: seq<QaPair>): seq<string>
    decreases |pairs|
  {
    if pairs == [] then []
    else
      var n := |pairs| - 1;
      Prompts(header, pairs[..n]) + [Layout(header, pairs[n].question, pairs[n].answer)]
  }

  /** One prompt per pair, the `k`-th built from the `k`-th pair. */
  lemma {:induction false} PromptsAt(header: string, pairs: seq<QaPair>, k: nat)
    requires k < |pairs|
    ensures |Prompts(header, pairs)| == |pairs|
    ensures Prompts(header, pairs)[k] == Layout(header, pairs[k].question, pairs[k].answer)
    decreases |pairs|
  {
    var n := |pairs| - 1;
    if k < n {
      PromptsAt(header, pairs[..n], k);
    } else if n > 0 {
      PromptsAt(header, pairs[..n], 0);
    }
  }

  lemma {:induction false} PromptsLength(header: string, pairs: seq<QaPair>)
    ensures |Prompts(header, pairs)| == |pairs|
  {
    if pairs != [] {
      PromptsAt(header, pairs, 0);
    }
  }

  /** `snippet` in `main.py`: the question, then the selected block on an indented line. */
  function Snippet(q: string, block: string): string {
    q + "\n" + Indent + block + "\n" + Indent
  }

  /** The snippet starts with the question and holds the block verbatim after one indented newline. */
  lemma {:induction false} SnippetFields(q: string, block: string)
    ensures var s := Snippet(q, block);
            && |s| == |q| + |block| + 26
            && s[..|q|] == q
            && OccursAt(block, s, |q| + 13)
            && s[|s| - 13..] == "\n" + Indent
  {
    var s := Snippet(q, block);
    var sep := "\n" + Indent;
    assert s == q + (sep + block + sep);
    assert s == (q + sep) + (block + sep);
    assert s == (q + sep + block) + sep;
  }

  /** Snippets of equally long questions are equal only for the same question and block. */
  lemma {:induction false} SnippetInjective(q1: string, b1: string, q2: string, b2: string)
    requires |q1| == |q2| && Snippet(q1, b1) == Snippet(q2, b2)
    ensures q1 == q2 && b1 == b2
  {
    SnippetFields(q1, b1);
    SnippetFields(q2, b2);
  }
}
