/**
 * The loop of `translate` in `main.py`: for each pair, in order, send the prompt, take
 * the reply, and either write the question and the reply's last fenced block to
 * `julia_code.txt` or, when the reply holds no block, raise `RuntimeError`, which ends
 * the run with whatever was written before.  The replies are given, one per pair.
 */
module SyncDriver {
  import opened Text
  import opened Segmenter
  import opened Extractor
  import opened Prompt

  /** How the run ends, with the snippets written to `julia_code.txt` until then. */
  datatype Outcome = Completed(written: seq<string>) | Raised(written: seq<string>)

  /** One iteration of the loop, when the run is still going. */
  function Write(written: seq<string>, p: QaPair, reply: string): Outcome {
    match LastBlock(reply)
    case Some(block) => Completed(written + [Snippet(p.question, block)])
    case None => Raised(written)
  }

  /** The outcome once the loop has reached the end of `pairs` or raised. */
  function Translate(pairs: seq<QaPair>, replies: seq<string>): Outcome
    requires |replies| == |pairs|
    decreases |pairs|
  {
    if pairs == [] then Completed([])
    else
      var n := |pairs| - 1;
      match Translate(pairs[..n], replies[..n])
      case Completed(written) => Write(written, pairs[n], replies[n])
      case Raised(written) => Raised(written)
  }

  /** How many prompts the run sends: every pair's, or up to and including the failing one. */
  function Sent(pairs: seq<QaPair>, replies: seq<string>): nat
    requires |replies| == |pairs|
  {
    match Translate(pairs, replies)
    case Completed(_) => |pairs|
    case Raised(written) => |written| + 1
  }

  /**
   * The loop itself, returning how the run ends and the prompts it sent.  It leaves the
   * loop at the first reply without a block, as the `raise` does.
   */
  method TranslateAll(pairs: seq<QaPair>, replies: seq<string>)
    returns (outcome: Outcome, prompts: seq<string>)
    requires |replies| == |pairs|
    ensures outcome == Translate(pairs, replies)
    ensures |prompts| == Sent(pairs, replies) <= |pairs|
    ensures prompts == Prompts(SyncHeader, pairs[..|prompts|])
  {
    var written := [];
    prompts := [];
    for i := 0 to |pairs|
      invariant Translate(pairs[..i], replies[..i]) == Completed(written)
      invariant prompts == Prompts(SyncHeader, pairs[..i])
    {
      assert pairs[..i + 1][..i] == pairs[..i];
      assert replies[..i + 1][..i] == replies[..i];
      var q, a := pairs[i].question, pairs[i].answer;
      var messageTemplate := SyncPrompt(q, a);
      prompts := prompts + [messageTemplate];
      var code := replies[i];
      var regex := FindAll(code);
      assert Translate(pairs[..i + 1], replies[..i + 1]) == Write(written, pairs[i], code);
      if regex != [] {
        written := written + [Snippet(q, regex[|regex| - 1])];
      } else {
        outcome := Raised(written);
        RaiseEnds(pairs, replies, i, written);
        CompletedLength(pairs[..i], replies[..i]);
        PromptsLength(SyncHeader, pairs[..i + 1]);
        return;
      }
    }
    assert pairs[..|pairs|] == pairs;
    assert replies[..|replies|] == replies;
    outcome := Completed(written);
    PromptsLength(SyncHeader, pairs);
  }

  /** Once the run has raised, later pairs change nothing: they are never processed. */
  lemma {:induction false} TranslateStops(p1: seq<QaPair>, r1: seq<string>, p2: seq<QaPair>, r2: seq<string>)
    requires |r1| == |p1| && |r2| == |p2| && Translate(p1, r1).Raised?
    ensures Translate(p1 + p2, r1 + r2) == Translate(p1, r1)
    decreases |p2|
  {
    if p2 == [] {
      assert p1 + p2 == p1;
      assert r1 + r2 == r1;
    } else {
      var n := |p2| - 1;
      TranslateStops(p1, r1, p2[..n], r2[..n]);
      assert (p1 + p2)[..|p1| + n] == p1 + p2[..n];
      assert (r1 + r2)[..|r1| + n] == r1 + r2[..n];
    }
  }

  /** Raising at pair `i` ends the run there. */
  lemma {:induction false} RaiseEnds(pairs: seq<QaPair>, replies: seq<string>, i: nat, written: seq<string>)
    requires |replies| == |pairs| && i < |pairs|
    requires Translate(pairs[..i + 1], replies[..i + 1]) == Raised(written)
    ensures Translate(pairs, replies) == Raised(written)
  {
    var p1, r1 := pairs[..i + 1], replies[..i + 1];
    assert p1 + pairs[i + 1..] == pairs;
    assert r1 + replies[i + 1..] == replies;
    TranslateStops(p1, r1, pairs[i + 1..], replies[i + 1..]);
  }

  /** A run that completes has written one snippet per pair. */
  lemma {:induction false} CompletedLength(pairs: seq<QaPair>, replies: seq<string>)
    requires |replies| == |pairs|
    ensures Translate(pairs, replies).Completed? ==> |Translate(pairs, replies).written| == |pairs|
    decreases |pairs|
  {
    if pairs != [] {
      var n := |pairs| - 1;
      CompletedLength(pairs[..n], replies[..n]);
    }
  }

  /**
   * What the run writes: one snippet per pair for a prefix of the pairs, each the
   * question and the last block of that pair's reply.  The run completes exactly when
   * that prefix is all of them; otherwise the reply to the next pair has no block.
   */
  lemma {:induction false} TranslateWritten(pairs: seq<QaPair>, replies: seq<string>)
    requires |replies| == |pairs|
    ensures var o := Translate(pairs, replies);
            && |o.written| <= |pairs|
            && (forall k :: 0 <= k < |o.written| ==>
                  LastBlock(replies[k]).Some? && o.written[k] == Snippet(pairs[k].question, LastBlock(replies[k]).value))
            && (o.Completed? <==> |o.written| == |pairs|)
            && (o.Raised? ==> LastBlock(replies[|o.written|]).None?)
    decreases |pairs|
  {
    if pairs != [] {
      var n := |pairs| - 1;
      TranslateWritten(pairs[..n], replies[..n]);
    }
  }

  /** The run completes exactly when every reply holds at least one fenced block. */
  lemma {:induction false} TranslateCompletes(pairs: seq<QaPair>, replies: seq<string>)
    requires |replies| == |pairs|
    ensures Translate(pairs, replies).Completed? <==> forall k :: 0 <= k < |replies| ==> FindAll(replies[k]) != []
  {
    var o := Translate(pairs, replies);
    TranslateWritten(pairs, replies);
    forall k | 0 <= k < |replies| {
      LastBlockIsLast(replies[k]);
    }
  }

  /**
   * When the run raises, `f` pairs have been written, the reply to pair `f` holds no
   * block, every earlier reply holds one, and `f + 1` prompts have been sent.
   */
  lemma {:induction false} TranslateRaises(pairs: seq<QaPair>, replies: seq<string>)
    requires |replies| == |pairs| && Translate(pairs, replies).Raised?
    ensures var f := |Translate(pairs, replies).written|;
            && f < |pairs|
            && FindAll(replies[f]) == []
            && (forall k :: 0 <= k < f ==> FindAll(replies[k]) != [])
            && Sent(pairs, replies) == f + 1
  {
    var f := |Translate(pairs, replies).written|;
    TranslateWritten(pairs, replies);
    LastBlockIsLast(replies[f]);
    forall k | 0 <= k < f ensures FindAll(replies[k]) != [] {
      LastBlockIsLast(replies[k]);
    }
  }

  /**
   * Each written snippet holds the last of its reply's matches, which is non-empty and
   * occurs fenced in the reply.
   */
  lemma {:induction false} WrittenBlock(pairs: seq<QaPair>, replies: seq<string>, k: nat)
    requires |replies| == |pairs| && k < |pairs| && k < |Translate(pairs, replies).written|
    ensures var ms := FindAll(replies[k]);
            && ms != []
            && Translate(pairs, replies).written[k] == Snippet(pairs[k].question, ms[|ms| - 1])
            && ms[|ms| - 1] != []
            && Occurs(Fence + ms[|ms| - 1] + Fence, replies[k])
  {
    TranslateWritten(pairs, replies);
    LastBlockIsLast(replies[k]);
    LastBlockFenced(replies[k]);
  }

  /** The `k`-th prompt sent is built from the `k`-th pair and holds its question and answer verbatim. */
  lemma {:induction false} PromptSent(pairs: seq<QaPair>, k: nat)
    requires k < |pairs|
    ensures |Prompts(SyncHeader, pairs)| == |pairs|
    ensures var p := Prompts(SyncHeader, pairs)[k];
            && OccursAt(pairs[k].question, p, QuestionOffset(SyncHeader))
            && OccursAt(pairs[k].answer, p, AnswerOffset(SyncHeader, pairs[k].question))
  {
    PromptsAt(SyncHeader, pairs, k);
    SyncPromptEmbeds(pairs[k].question, pairs[k].answer);
  }
}
