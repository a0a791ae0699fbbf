# language-translator, modelled in Dafny

`language-translator` turns a corpus of commented Python snippets into Julia with the help of a
local language model. Two scripts share the same logic:

- `async_main.py` keeps every reply in one of two logs;
- `main.py` writes one snippet per pair and stops at the first reply it cannot use.

This project models that logic and proves what it does. Each part of the logic has its own module.

- **Text** (`text.dfy`): the Python string primitives the scripts rely on.
  - `str.isspace` on one code point.
  - `strip()`, `lstrip()` and `rstrip()`.
  - `split('\n')`, which keeps empty pieces.
- **Segmenter** (`segmenter.dfy`): `parse_qa`, the line-by-line state machine that turns the corpus into (question, answer) pairs.
  - The two scripts hold the same `parse_qa` character for character, so it is modelled once.
  - `QaPairs` folds one loop iteration, `Step`, over the lines.
  - `ParseQa` is the loop itself, proved equal to `QaPairs`.
  - `Expected` is an independent reference: it cuts the corpus into an answer-only prefix and maximal blocks (a run of `#` lines, then its run of other lines) and gives each block its pair. `QaPairsByBlocks` proves the reference equal to `parse_qa` on every corpus.
- **SegmenterExamples** (`segmenter_examples.dfy`): concrete corpora, one per edge case of `parse_qa`.
- **Extractor** (`extractor.dfy`): `re.findall(r'```(.+?)```', code, re.DOTALL)`, and the `regex[-1]` selection in `main.py`.
  - It is modelled as the scanner that pattern amounts to: find the first fence, find the first fence at least one character after it, capture what lies between, and resume after the closing fence.
  - `FindAllFrom` is the regular-expression semantics stated independently: a leftmost, lazy match, then what `findall` reports after it.
  - `SpansCorrect` proves the scanner meets `FindAllFrom`, and `FindAllFromUnique` proves nothing else does.
- **Rewrite** (`rewrite.dfy`): the question rewrite `re.sub('python', 'Julia', q, re.IGNORECASE).lstrip()`.
  - `re.IGNORECASE` is passed in the position of `count`, and its value is 2.
  - So the rewrite is case-sensitive and replaces at most the first two occurrences. The model does exactly that.
- **Prompt** (`prompt.dfy`): the two prompt templates and `main.py`'s output snippet.
  - The text is reproduced exactly, including the twelve spaces of indentation the triple-quoted f-strings pick up from the method body.
- **AsyncDriver** (`async_driver.dfy`): the loop of `translate` in `async_main.py`.
  - `Translate` is the specification, a fold of one iteration.
  - `TranslateAll` is the loop.
  - Each pair is routed either to the translated log, as the rewritten question and every block, or to the error log, as the pair and the whole reply.
- **AsyncDriverExamples** (`async_driver_examples.dfy`): one corpus, one reply, followed from the text to the record in `julia_code.njson`.
- **SyncDriver** (`sync_driver.dfy`): the loop of `translate` in `main.py`.
  - The pair's question and the reply's last block are written, or `RuntimeError` is raised, which ends the run.
  - `Outcome` records the snippets written so far and whether the run completed or raised.

The language model is not part of the model. Its replies are a parameter: a sequence with one reply per pair, in the order the prompts are sent. The drivers also return the prompts they send, so that order and content can be stated.

Two consequences of the code that are easy to miss:

- Consecutive `#` lines are never dropped. While `collecting_q` holds, they merge into one question, joined with spaces (`async_main.py:39-41`). Only a final run of `#` lines with no line after it can be dropped (`FinalQuestionDropped`, `AdjacentQuestionsOnly`).
- The emptiness test is made on the untrimmed accumulators (`async_main.py:44`, `async_main.py:55`). So an answer made of blank lines gives the pair `("q", "")` (`BlankAnswer`), and a bare `#` gives a pair with an empty question (`BareMarker`).

## Model

| member | source | states |
|---|---|---|
| Text.LStripSpec | src/language_translator/async_main.py:82 | `lstrip()` keeps the suffix after the leading whitespace, and that suffix is empty or starts with a non-whitespace character |
| Text.StripSpec | src/language_translator/async_main.py:45 | `strip()` is a slice of its input with only whitespace cut from both ends, and it neither starts nor ends with whitespace |
| Text.StripUnique | src/language_translator/async_main.py:41 | any whitespace-surrounded slice that neither starts nor ends with whitespace is the result of `strip()` |
| Text.StripFixpoint | src/language_translator/async_main.py:45 | a string is its own `strip()` iff it is empty or neither starts nor ends with whitespace |
| Text.StripIdempotent | src/language_translator/async_main.py:45 | `strip()` is idempotent, and `lstrip()` does not change its result |
| Text.SplitLines | src/language_translator/async_main.py:37 | `split('\n')` gives at least one piece, no piece holds a newline, and joining the pieces with newlines gives the text back |
| Text.SplitJoin | src/language_translator/async_main.py:37 | splitting the newline-join of newline-free lines gives the same lines back |
| Segmenter.ParseQa | src/language_translator/async_main.py:31-58 | the loop of `parse_qa` returns exactly `QaPairs(text)`, the fold of one iteration over `text.split('\n')` followed by the final emission |
| Segmenter.RunQuestionsCollecting | src/language_translator/async_main.py:39-41 | while `collecting_q` holds, a run of `#` lines only appends each line's trimmed remainder and a space to `current_q` |
| Segmenter.RunQuestionBlock | src/language_translator/async_main.py:42-48 | a run of `#` lines met while not collecting emits the pending pair iff both accumulators are non-empty, clears `current_a` only then, and leaves `current_q` holding the run's text |
| Segmenter.RunAnswers | src/language_translator/async_main.py:49-52 | a run of non-`#` lines only appends each line and a newline to `current_a` and clears `collecting_q` |
| Segmenter.Decompose | src/language_translator/async_main.py:37-52 | the lines are an answer-only prefix followed by well-formed blocks, each a non-empty run of `#` lines and then a run of other lines, non-empty for every block but the last |
| Segmenter.QaPairsByBlocks | src/language_translator/async_main.py:37-58 | `parse_qa` equals the block-by-block reference on every corpus: block `k` yields (its question text, its answer text, with the prefix in front for the first block), trimmed, exactly when that answer text is non-empty |
| Segmenter.RunByBlocks | src/language_translator/async_main.py:37-56 | the same equality for any sequence of lines |
| Segmenter.ExpectedShape | src/language_translator/async_main.py:44-48 | the reference yields one pair per block, in order, except that the last block yields none exactly when it has no answer lines and nothing is carried into it |
| Segmenter.QaPairsShape | src/language_translator/async_main.py:44-56 | `parse_qa` yields as many pairs as maximal runs of `#` lines, or one fewer exactly when the last run has no line after it (and, if it is the only run, no line before it); pair `k` comes from run `k` |
| Segmenter.NoQuestionLinesNoPairs | src/language_translator/async_main.py:37-58 | a corpus with no line starting with `#` yields no pair |
| Segmenter.QaPairsTrimmed | src/language_translator/async_main.py:45 | every question and answer `parse_qa` returns is its own `strip()`, and every question its own `lstrip()` |
| SegmenterExamples.AddTwoNumbers | src/language_translator/main.py:26-45 | `"# add two numbers\nreturn a + b\n"` yields exactly `[("add two numbers", "return a + b")]` |
| SegmenterExamples.EmptyCorpus | src/language_translator/async_main.py:37-58 | the empty corpus yields no pair |
| SegmenterExamples.MergedQuestion | src/language_translator/async_main.py:39-41 | `"# first\n# second\nbody"` yields the single pair `("first second", "body")` |
| SegmenterExamples.BlankAnswer | src/language_translator/async_main.py:55-56 | `"#q\n\n\n"` yields `("q", "")`: the non-emptiness test is made before trimming |
| SegmenterExamples.BareMarker | src/language_translator/async_main.py:44-47 | `"#\nx"` yields `("", "x")`: a bare `#` gives an empty question |
| SegmenterExamples.PrefixKept | src/language_translator/async_main.py:44-52 | `"lead\n#q\nans"` yields `("q", "lead\nans")`: lines before the first question start the first answer |
| SegmenterExamples.IndentedMarker | src/language_translator/async_main.py:38-52 | `"#q\n #x"` yields `("q", "#x")`: a `#` after whitespace is an answer line |
| SegmenterExamples.TwoPairs | src/language_translator/async_main.py:44-48 | `"#a\nx\n#b\ny"` yields `[("a", "x"), ("b", "y")]`, in corpus order |
| SegmenterExamples.FinalQuestionDropped | src/language_translator/async_main.py:55-56 | `"#a\nx\n#b"` yields only `("a", "x")`: the last question has no line after it |
| SegmenterExamples.AdjacentQuestionsOnly | src/language_translator/async_main.py:39-56 | `"#a\n#b"` yields no pair: the two lines merge and nothing follows them |
| Extractor.FindFenceSpec | src/language_translator/async_main.py:92 | the fence search from `p` finds the leftmost fence at or after `p`, and finds none only when there is none |
| Extractor.SpanAt | src/language_translator/async_main.py:92 | the `k`-th match the scanner reports is the leftmost, lazy match from where the previous match ended |
| Extractor.SpansInside | src/language_translator/async_main.py:92 | every match lies inside the reply and leaves at least one character between its fences |
| Extractor.SpansOrdered | src/language_translator/async_main.py:92 | matches are in left-to-right order and do not overlap |
| Extractor.SpansEmpty | src/language_translator/async_main.py:92 | the scanner finds nothing from `p` iff no fence from `p` on is followed, at least one character later, by another |
| Extractor.SpansHead | src/language_translator/async_main.py:92 | a leftmost, lazy match from `p` is reported first, and the scan resumes after its closing fence |
| Extractor.SpansFirst | src/language_translator/async_main.py:92 | a non-empty scan starts with the leftmost, lazy match and continues with the scan from after it |
| Extractor.SpansCorrect | src/language_translator/async_main.py:92 | the scanner's matches satisfy the `findall` semantics of the pattern |
| Extractor.FindAllFromUnique | src/language_translator/async_main.py:92 | only one list of matches satisfies those semantics: the scanner's |
| Extractor.SpansLast | src/language_translator/async_main.py:92 | after the last match nothing more can be matched |
| Extractor.FindAllFenced | src/language_translator/async_main.py:92 | each capture is non-empty, and the capture surrounded by fences occurs in the reply where the match starts |
| Extractor.FindAllLazy | src/language_translator/async_main.py:92 | a capture holds no fence except possibly at its first position: the lazy group stops at the first closing fence |
| Extractor.FindAllEmpty | src/language_translator/async_main.py:93 | `findall` returns the empty list iff no fence is followed, at least one character later, by another fence |
| Extractor.LastBlockFenced | src/language_translator/main.py:87-90 | the selected block `regex[-1]` is non-empty and, surrounded by fences, occurs in the reply |
| Extractor.LastBlockIsLast | src/language_translator/main.py:87-90 | a block is selected iff `findall` finds a match; the block is the last capture, and nothing can be matched after it |
| Extractor.SixBackticks | src/language_translator/async_main.py:92 | six back-ticks in a row give no match |
| Extractor.SingleBlock | src/language_translator/async_main.py:92 | a reply made of one fenced block without back-ticks yields exactly that block |
| Extractor.LanguageTagKept | src/language_translator/async_main.py:92 | a language tag after the opening fence stays in the capture, with its newline |
| Extractor.TwoBlocks | src/language_translator/async_main.py:92 | a reply with two fenced, non-empty, back-tick-free blocks and back-tick-free text between them yields exactly both blocks, in order |
| Extractor.TwoBlocksIn | src/language_translator/async_main.py:92 | the same, for a reply given by its two halves |
| Extractor.BlockAt | src/language_translator/async_main.py:92 | after back-tick-free text, a fenced, non-empty, back-tick-free block is the leftmost lazy match from that point, and its capture is the block |
| Extractor.FindAllTwo | src/language_translator/async_main.py:92 | two consecutive leftmost lazy matches that end the reply are exactly what `findall` returns |
| Rewrite.SubLength | src/language_translator/async_main.py:82 | each of the `min(count, occurrences)` replacements changes the length by the length of the replacement minus that of the pattern |
| Rewrite.CountZero | src/language_translator/async_main.py:82 | the scan meets no occurrence iff the pattern occurs nowhere |
| Rewrite.SubNoOccurrence | src/language_translator/async_main.py:82 | with no occurrence, the substitution returns its input |
| Rewrite.SubLeftmost | src/language_translator/async_main.py:82 | the leftmost occurrence is replaced first, and the scan resumes after it with one replacement fewer |
| Rewrite.SubTwice | src/language_translator/async_main.py:82 | with count 2, the first occurrence and the first one after it are replaced and everything after the second is kept |
| Rewrite.RewriteLength | src/language_translator/async_main.py:82 | the rewritten question is one character shorter per replaced "python", and at most two are replaced |
| Rewrite.RewriteUnchanged | src/language_translator/async_main.py:82 | the substitution leaves the question unchanged iff "python" does not occur in it |
| Rewrite.RewriteNoLeadingSpace | src/language_translator/async_main.py:82 | on a question that does not start with whitespace, as `parse_qa` produces, `lstrip()` changes nothing |
| Rewrite.RewriteStopsAfterTwo | src/language_translator/async_main.py:82 | a third "python" and everything after the second occurrence are left as they were |
| Rewrite.RewriteCaseSensitive | src/language_translator/async_main.py:82 | "Python" is left alone: the match is case-sensitive |
| Prompt.LayoutFields | src/language_translator/async_main.py:83-89 | a prompt is the header, then `q` and `a` verbatim at fixed offsets, then 29 characters of closing fence and indentation |
| Prompt.LayoutInjective | src/language_translator/async_main.py:83-89 | two prompts with the same header and equally long questions are equal only for the same question and answer |
| Prompt.AsyncPromptEmbeds | src/language_translator/async_main.py:83-89 | the async prompt starts with its header and embeds the original question `q` (not `qj`) and the answer verbatim |
| Prompt.SyncPromptEmbeds | src/language_translator/main.py:71-77 | the sync prompt starts with its header and embeds the question and the answer verbatim |
| Prompt.PromptsAt | src/language_translator/async_main.py:81-89 | one prompt is sent per pair, and the `k`-th is built from the `k`-th pair |
| Prompt.SnippetFields | src/language_translator/main.py:89-91 | the snippet starts with the question and holds the block verbatim after a newline and twelve spaces, and ends with a newline and twelve spaces |
| Prompt.SnippetInjective | src/language_translator/main.py:89-91 | snippets of equally long questions are equal only for the same question and block |
| AsyncDriver.TranslateAll | src/language_translator/async_main.py:81-101 | the loop produces exactly the logs of `Translate(pairs, replies)` and sends `Prompts(AsyncHeader, pairs)`, one prompt per pair, in order |
| AsyncDriver.TranslateCounts | src/language_translator/async_main.py:93-101 | the translated log has one record per reply with a block, and the error log one per reply without |
| AsyncDriver.TranslatePlacement | src/language_translator/async_main.py:93-101 | pair `k` lands in exactly one log, at the position after the earlier pairs routed there, as the rewritten question with every block or as the pair with the whole reply |
| AsyncDriver.TranslateAppend | src/language_translator/async_main.py:81 | the pairs are handled one by one: running the loop on two batches appends their logs |
| AsyncDriver.LogsInvariant | src/language_translator/async_main.py:93-101 | every translated record holds at least one block, and every error record's reply holds none |
| AsyncDriver.RoutedToTranslated | src/language_translator/async_main.py:93-96 | pair `k`'s success record is in the translated log iff its reply has a match |
| AsyncDriver.RoutedToErrors | src/language_translator/async_main.py:97-101 | pair `k`'s error record is in the error log iff no fence in its reply is followed, one character later or more, by another |
| AsyncDriver.TranslatedBlocks | src/language_translator/async_main.py:92-95 | every block recorded for pair `k` is non-empty and, surrounded by fences, occurs in pair `k`'s reply |
| AsyncDriver.CorpusQuestion | src/language_translator/async_main.py:78-94 | for a corpus, the question recorded for pair `k` is its question with at most the first two "python" replaced by "Julia", with nothing stripped |
| AsyncDriver.PromptSent | src/language_translator/async_main.py:81-91 | the `k`-th prompt is the async prompt of the `k`-th pair and embeds its question and answer verbatim |
| AsyncDriverExamples.RewriteWithoutP | src/language_translator/async_main.py:82 | a question with no `p` and no leading whitespace comes back from the rewrite unchanged |
| AsyncDriverExamples.TranslateOne | src/language_translator/async_main.py:81-101 | on a single pair the loop runs once, starting from empty logs |
| AsyncDriverExamples.AddTwoNumbersReply | src/language_translator/async_main.py:92 | the reply made of a `julia` block holding `return a + b` yields exactly `["julia\nreturn a + b\n"]` |
| AsyncDriverExamples.AddTwoNumbersRecord | src/language_translator/async_main.py:78-96 | the corpus `"# add two numbers\nreturn a + b\n"`, answered with that reply, gives the one record `["add two numbers", ["julia\nreturn a + b\n"]]` in `julia_code.njson` and none in `errors.njson` |
| SyncDriver.TranslateAll | src/language_translator/main.py:69-96 | the loop ends as `Translate(pairs, replies)` says, after sending one prompt per pair processed, each built from its pair in order |
| SyncDriver.TranslateStops | src/language_translator/main.py:95 | once the run has raised, later pairs change nothing |
| SyncDriver.RaiseEnds | src/language_translator/main.py:95 | raising at pair `i` ends the whole run with what was written before pair `i` |
| SyncDriver.TranslateWritten | src/language_translator/main.py:87-95 | the run writes one snippet per pair for a prefix of the pairs, each built from the question and the last block of its reply; it completes iff that prefix is all the pairs, and otherwise the next reply has no block |
| SyncDriver.TranslateCompletes | src/language_translator/main.py:88-95 | the run completes iff every reply has at least one match |
| SyncDriver.TranslateRaises | src/language_translator/main.py:88-95 | when the run raises at pair `f`, reply `f` has no match, every earlier reply has one, and `f + 1` prompts have been sent |
| SyncDriver.WrittenBlock | src/language_translator/main.py:87-92 | the `k`-th snippet written holds the last match of reply `k`, which is non-empty and occurs fenced in the reply |
| SyncDriver.PromptSent | src/language_translator/main.py:69-77 | the `k`-th prompt embeds the `k`-th pair's question and answer verbatim at fixed offsets |

## Left out

- `chat` and `oclient.chat` (`async_main.py:11-18`, `main.py:7`, `main.py:79-85`) are network calls to a model server. They become the `replies` parameter, one reply per pair.
- `get_text` (`async_main.py:61-72`, `main.py:50-61`) is not modelled: the file check, the HTTP download, the cache write and the UTF-8 decoding are I/O. The corpus is a parameter.
- `asyncio.run`, `await`, `tqdm` and every `print`, including `print(code)` at `main.py:86`: scheduling and console output with no effect on the results.
- JSON encoding and the file handles (`open`, `write`, `flush`, `close`): log lines are the datatypes `Success` and `Failure`, and the file `julia_code.txt` is the sequence of written snippets.
- Python's general regular-expression engine: only the fixed pattern of `async_main.py:92` and `main.py:87` is modelled, as the scanner it amounts to.
- `Rewrite.SubAtMost` models `re.sub` only for a non-empty literal pattern with no special characters, which is what `async_main.py:82` uses. It does not model a count of 0, which Python reads as "no limit"; the call passes 2.
- `parse_qa` in `main.py` (lines 9-47) is the same text as in `async_main.py` (lines 20-58). It is modelled once, and no separate equivalence proof is needed.
- Python strings are sequences of code points, and Dafny's `char` is a Unicode scalar value. Lone surrogates, which Python allows and Dafny does not, are not modelled.
