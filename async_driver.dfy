/**
 * The loop of `translate` in `async_main.py`: for each pair, in order, build the prompt,
 * take the model's reply, extract the fenced blocks, and append one record either to
 * `julia_code.njson` (the rewritten question and every block) or to `errors.njson` (the
 * pair and the whole reply).  The model is not part of this model: its replies are
 * given, one per pair, in the order the prompts are sent.
 */
module AsyncDriver {
  import opened Text
  import opened Segmenter
  import opened Extractor
  import opened Rewrite
  import opened Prompt

  /** A line of `julia_code.njson`: `[qj, matches]`. */
  datatype Success = Success(question: string, matches: seq<string>)

  /** A line of `errors.njson`: `[q, a, code]`. */
  datatype Failure = Failure(question: string, answer: string, reply: string)

  /** What the two logs hold. */
  datatype Logs = Logs(translated: seq<Success>, errors: seq<Failure>)

  /** One iteration of the loop: the record the pair and its reply append, and to which log. */
  function Route(logs: Logs, p: QaPair, reply: string): Logs {
    var matches := FindAll(reply);
    if matches != [] then
      logs.(translated := logs.translated + [Success(RewriteQuestion(p.question), matches)])
    else
      logs.(errors := logs.errors + [Failure(p.question, p.answer, reply)])
  }

  /** The logs after the loop has handled every pair, `replies[k]` being the reply to pair `k`. */
  function Translate(pairs: seq<QaPair>, replies: seq<string>): Logs
    requires |replies| == |pairs|
    decreases |pairs|
  {
    if pairs == [] then Logs([], [])
    else
      var n := |pairs| - 1;
      Route(Translate(pairs[..n], replies[..n]), pairs[n], replies[n])
  }

  /** How many of the replies hold at least one fenced block. */
  function Hits(replies: seq<string>): nat
    decreases |replies|
  {
    if replies == [] then 0
    else
      var n := |replies| - 1;
      Hits(replies[..n]) + (if FindAll(replies[n]) != [] then 1 else 0)
  }

  /**
   * The loop itself.  Besides the two logs it returns the prompts in the order they are
   * sent, each built from the pair's own question, not from the rewritten one.
   */
  method TranslateAll(pairs: seq<QaPair>, replies: seq<string>)
    returns (translated: seq<Success>, errors: seq<Failure>, prompts: seq<string>)
    requires |replies| == |pairs|
    ensures Logs(translated, errors) == Translate(pairs, replies)
    ensures prompts == Prompts(AsyncHeader, pairs)
  {
    translated, errors, prompts := [], [], [];
    for i := 0 to |pairs|
      invariant Logs(translated, errors) == Translate(pairs[..i], replies[..i])
      invariant prompts == Prompts(AsyncHeader, pairs[..i])
    {
      assert pairs[..i + 1][..i] == pairs[..i];
      assert replies[..i + 1][..i] == replies[..i];
      ghost var before := Logs(translated, errors);
      assert Translate(pairs[..i + 1], replies[..i + 1]) == Route(before, pairs[i], replies[i]);
      var q, a := pairs[i].question, pairs[i].answer;
      var qj := RewriteQuestion(q);
      var messageTemplate := AsyncPrompt(q, a);
      prompts := prompts + [messageTemplate];
      var code := replies[i];
      var matches := FindAll(code);
      if matches != [] {
        translated := translated + [Success(qj, matches)];
      } else {
        errors := errors + [Failure(q, a, code)];
      }
    }
    assert pairs[..|pairs|] == pairs;
    assert replies[..|replies|] == replies;
  }

  /** Every pair lands in exactly one log: the translated log takes the replies with a block. */
  lemma {:induction false} TranslateCounts(pairs: seq<QaPair>, replies: seq<string>)
    requires |replies| == |pairs|
    ensures |Translate(pairs, replies).translated| == Hits(replies)
    ensures |Translate(pairs, replies).errors| == |pairs| - Hits(replies)
    decreases |pairs|
  {
    if pairs != [] {
      var n := |pairs| - 1;
      TranslateCounts(pairs[..n], replies[..n]);
    }
  }

  /** The record pair `k` adds, and where it goes, when the loop has handled the pairs before it. */
  predicate Placed(logs: Logs, replies: seq<string>, p: QaPair, k: nat)
    requires k < |replies|
  {
    var h := Hits(replies[..k]);
    if FindAll(replies[k]) != [] then
      h < |logs.translated| && logs.translated[h] == Success(RewriteQuestion(p.question), FindAll(replies[k]))
    else
      h <= k && k - h < |logs.errors| && logs.errors[k - h] == Failure(p.question, p.answer, replies[k])
  }

  /** A later iteration only appends, so it leaves what the earlier records say in place. */
  lemma {:induction false} RouteKeeps(logs: Logs, p: QaPair, reply: string, replies: seq<string>, q: QaPair, k: nat)
    requires k < |replies| && Placed(logs, replies, q, k)
    ensures Placed(Route(logs, p, reply), replies, q, k)
  {
  }

  /** The last pair's record goes right after those of the pairs before it. */
  lemma {:induction false} RouteLast(pairs: seq<QaPair>, replies: seq<string>)
    requires |replies| == |pairs| && pairs != []
    ensures Placed(Translate(pairs, replies), replies, pairs[|pairs| - 1], |pairs| - 1)
  {
    var n := |pairs| - 1;
    TranslateCounts(pairs[..n], replies[..n]);
    HitsBound(replies[..n]);
  }

  /**
   * Where pair `k` goes: with a block in its reply, to the translated log, after the
   * records of the earlier pairs that had one, as the rewritten question and every block;
   * without, to the error log, after the earlier failures, as the pair and the reply.
   */
  lemma {:induction false} TranslatePlacement(pairs: seq<QaPair>, replies: seq<string>, k: nat)
    requires |replies| == |pairs| && k < |pairs|
    ensures Placed(Translate(pairs, replies), replies, pairs[k], k)
    decreases |pairs|
  {
    var n := |pairs| - 1;
    if k < n {
      var init, rinit := pairs[..n], replies[..n];
      TranslatePlacement(init, rinit, k);
      assert rinit[..k] == replies[..k];
      assert Placed(Translate(init, rinit), replies, pairs[k], k);
      RouteKeeps(Translate(init, rinit), pairs[n], replies[n], replies, pairs[k], k);
    } else {
      RouteLast(pairs, replies);
    }
  }

  lemma {:induction false} HitsBound(replies: seq<string>)
    ensures Hits(replies) <= |replies|
    decreases |replies|
  {
    if replies != [] {
      HitsBound(replies[..|replies| - 1]);
    }
  }

  /** Appending to both logs commutes with one more iteration. */
  lemma {:induction false} RouteExtend(l1: Logs, l2: Logs, p: QaPair, reply: string)
    ensures var r := Route(l2, p, reply);
            Route(Logs(l1.translated + l2.translated, l1.errors + l2.errors), p, reply)
              == Logs(l1.translated + r.translated, l1.errors + r.errors)
  {
    var r := Route(l2, p, reply);
    if FindAll(reply) != [] {
      assert l1.translated + l2.translated + [Success(RewriteQuestion(p.question), FindAll(reply))]
          == l1.translated + r.translated;
    } else {
      assert l1.errors + l2.errors + [Failure(p.question, p.answer, reply)] == l1.errors + r.errors;
    }
  }

  /** The loop handles the pairs one by one: running it on two batches runs it on their concatenation. */
  lemma {:induction false} TranslateAppend(p1: seq<QaPair>, r1: seq<string>, p2: seq<QaPair>, r2: seq<string>)
    requires |r1| == |p1| && |r2| == |p2|
    ensures var t1, t2 := Translate(p1, r1), Translate(p2, r2);
            Translate(p1 + p2, r1 + r2) == Logs(t1.translated + t2.translated, t1.errors + t2.errors)
    decreases |p2|
  {
    var t1 := Translate(p1, r1);
    if p2 == [] {
      assert p1 + p2 == p1;
      assert r1 + r2 == r1;
      assert t1.translated + [] == t1.translated && t1.errors + [] == t1.errors;
    } else {
      var n := |p2| - 1;
      var m := |p1| + n;
      var t2 := Translate(p2[..n], r2[..n]);
      assert (p1 + p2)[..m] == p1 + p2[..n];
      assert (r1 + r2)[..m] == r1 + r2[..n];
      assert (p1 + p2)[m] == p2[n] && (r1 + r2)[m] == r2[n];
      calc {
        Translate(p1 + p2, r1 + r2);
        Route(Translate(p1 + p2[..n], r1 + r2[..n]), p2[n], r2[n]);
        { TranslateAppend(p1, r1, p2[..n], r2[..n]); }
        Route(Logs(t1.translated + t2.translated, t1.errors + t2.errors), p2[n], r2[n]);
        { RouteExtend(t1, t2, p2[n], r2[n]); }
        Logs(t1.translated + Translate(p2, r2).translated, t1.errors + Translate(p2, r2).errors);
      }
    }
  }

  /** Every translated record holds some block, and every error record's reply holds none. */
  lemma {:induction false} LogsInvariant(pairs: seq<QaPair>, replies: seq<string>)
    requires |replies| == |pairs|
    ensures forall s :: s in Translate(pairs, replies).translated ==> s.matches != []
    ensures forall e :: e in Translate(pairs, replies).errors ==> FindAll(e.reply) == []
    decreases |pairs|
  {
    if pairs != [] {
      var n := |pairs| - 1;
      LogsInvariant(pairs[..n], replies[..n]);
    }
  }

  /** The rewritten question and the blocks of pair `k` are in the translated log exactly when its reply has a block. */
  lemma {:induction false} RoutedToTranslated(pairs: seq<QaPair>, replies: seq<string>, k: nat)
    requires |replies| == |pairs| && k < |pairs|
    ensures Success(RewriteQuestion(pairs[k].question), FindAll(replies[k])) in Translate(pairs, replies).translated
            <==> FindAll(replies[k]) != []
  {
    TranslatePlacement(pairs, replies, k);
    LogsInvariant(pairs, replies);
  }

  /**
   * Pair `k` and its reply are in the error log exactly when the reply holds no fence
   * followed, at least one character later, by another.
   */
  lemma {:induction false} RoutedToErrors(pairs: seq<QaPair>, replies: seq<string>, k: nat)
    requires |replies| == |pairs| && k < |pairs|
    ensures Failure(pairs[k].question, pairs[k].answer, replies[k]) in Translate(pairs, replies).errors
            <==> forall i, j :: 0 <= i && i + 4 <= j && IsFenceAt(replies[k], i) ==> !IsFenceAt(replies[k], j)
  {
    TranslatePlacement(pairs, replies, k);
    LogsInvariant(pairs, replies);
    FindAllEmpty(replies[k]);
  }

  /**
   * Each block of a translated record is non-empty and, surrounded by fences, is a piece
   * of the reply it came from.
   */
  lemma {:induction false} TranslatedBlocks(pairs: seq<QaPair>, replies: seq<string>, k: nat, x: nat)
    requires |replies| == |pairs| && k < |pairs| && x < |FindAll(replies[k])|
    ensures var logs := Translate(pairs, replies);
            var h := Hits(replies[..k]);
            && h < |logs.translated|
            && x < |logs.translated[h].matches|
            && logs.translated[h].matches[x] != []
            && Occurs(Fence + logs.translated[h].matches[x] + Fence, replies[k])
  {
    TranslatePlacement(pairs, replies, k);
    FindAllFenced(replies[k], x);
  }

  /**
   * On the output of `parse_qa` the `lstrip()` of line 82 changes nothing: the question
   * recorded for pair `k` is the question with its first two "python" replaced.
   */
  lemma {:induction false} CorpusQuestion(text: string, replies: seq<string>, k: nat)
    requires |replies| == |QaPairs(text)| && k < |replies| && FindAll(replies[k]) != []
    ensures var logs := Translate(QaPairs(text), replies);
            var h := Hits(replies[..k]);
            && h < |logs.translated|
            && logs.translated[h].question == SubAtMost(Python, Julia, QaPairs(text)[k].question, IgnoreCaseFlag)
  {
    var pairs := QaPairs(text);
    TranslatePlacement(pairs, replies, k);
    QaPairsTrimmed(text);
    assert pairs[k] in pairs;
    StripFixpoint(pairs[k].question);
    RewriteNoLeadingSpace(pairs[k].question);
  }

  /**
   * The `k`-th prompt sent is built from the `k`-th pair, and it holds the question as
   * `parse_qa` gave it, not the rewritten one, and the answer, verbatim.
   */
  lemma {:induction false} PromptSent(pairs: seq<QaPair>, k: nat)
    requires k < |pairs|
    ensures |Prompts(AsyncHeader, pairs)| == |pairs|
    ensures var p := Prompts(AsyncHeader, pairs)[k];
            && p == AsyncPrompt(pairs[k].question, pairs[k].answer)
            && OccursAt(pairs[k].question, p, QuestionOffset(AsyncHeader))
            && OccursAt(pairs[k].answer, p, AnswerOffset(AsyncHeader, pairs[k].question))
  {
    PromptsAt(AsyncHeader, pairs, k);
    AsyncPromptEmbeds(pairs[k].question, pairs[k].answer);
  }
}
