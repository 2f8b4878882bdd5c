# Completions adapter and UTF-8 check, modelled in Dafny

This project models two small pieces of the Nexa SDK and proves properties of them.

1. **The completions adapter** (`nexa_models`, module `NexaModels` in `nexa_models.dfy`).
   It connects an evaluation harness to a local completions server. It does two jobs:
   - it builds the JSON request payload, in generate mode or in scoring mode;
   - it parses responses into generated texts (`parse_generations`) or into one
     `(summed log-probability, is_greedy)` pair per choice (`parse_logprobs`).

   Around these sit batch-size coercion at construction, the identity `tok_encode`,
   and a `loglikelihood` that always raises.
2. **The structural UTF-8 check** `is_valid_utf8` of the Android JNI helper (module `Utf8` in `utf8.dfy`).
   It walks a NUL-terminated byte string. Each lead byte is classified by bit pattern,
   as in the table in section 3 of RFC 3629, and must be followed by the right number
   of `10xxxxxx` continuation bytes.

`py_runtime.dfy` (module `PyRuntime`) holds the parts of Python's runtime the adapter relies on:
- JSON values (`Value`; `Int` and `Float` kept apart, objects as `map<string, Value>`);
- the exceptions it raises (`PyError`, returned in a `Result`);
- slicing with negative bounds and clamping;
- the built-in `sum`.

How the model is laid out:
- The caller's `gen_kwargs` dictionary is a class, `KwDict`, because `_create_payload` pops keys from it in place.
- The adapter itself is a class, `NexaModel`. Its fields `batchSize`, `maxGenToks` and `model` are the ones its base class sets up.
- A response object is modelled through the keys the adapter reads. A key that is absent is `None`.
- Each entry of `top_logprobs` is a `seq<(string, real)>` in the dictionary's insertion order.
  So `max(top, key=top.get)` is the first key of greatest value (`FirstMaxIndex`).
- The loops of `parse_logprobs` and `parse_generations` are methods. Each is proved equal to a
  recursive specification function (`ScoreAll`, `ScorePairs`, `ScoreChoice`, `GreedyScan`) or to
  an explicit per-index statement. The lemmas state the promised properties about those functions.
- `is_valid_utf8` is a method over a nullable `array<bv8>` that contains a 0. It is proved equal to
  `Splits`, the recursive "splits into lead-plus-continuation units" predicate, on the bytes before
  the first NUL. A ghost out-parameter records the greatest index read, which never passes the terminator.

Points of the code's behaviour that the model keeps as written:
- **Context-length pairing.** `zip(out["choices"], ctxlens)` (`nexa/eval/models/nexa_models.py:77`)
  restarts `ctxlens` at index 0 for every response, so choice i of every response is scored against
  `ctxlens[i]`. `ScoreAllPositions` states it.
- **The greedy check.** Each scored entry of `token_logprobs`, a number, is compared with the greedy
  key of its alternatives, a string (`nexa/eval/models/nexa_models.py:80-84`). The model keeps that
  comparison; see "## Findings".
- **Missing options.** Every option popped in generate mode has a default, so no missing-key failure
  arises there. The only failure is a missing dictionary (`None.pop`, an `AttributeError`).

## Model

| member | source | states |
|---|---|---|
| `NexaModels.NexaModel.constructor` | nexa/eval/models/nexa_models.py:11-31 | after construction the batch size is at most 1; a base batch size of at most 1 is kept, a larger one becomes 1 |
| `NexaModels.NexaModel.CreatePayload` | nexa/eval/models/nexa_models.py:33-64 | scoring mode returns the fixed scoring payload and leaves the caller's dictionary unchanged; generate mode with no dictionary fails with AttributeError; otherwise it returns `GeneratePayload` of the dictionary as passed, and the dictionary afterwards has lost exactly `do_sample`, `max_gen_toks`, `temperature` and `until` |
| `NexaModels.KwDict.Pop` | nexa/eval/models/nexa_models.py:42-45 | `dict.pop(key, default)` returns the key's value or the default and removes exactly that key |
| `NexaModels.GeneratePayload` | nexa/eval/models/nexa_models.py:41-54 | the keys are the six base fields plus every leftover option; `do_sample`, `max_gen_toks` and `until` never appear; every leftover option keeps its value and overrides a base field of the same name; `temperature` defaults to 0; `max_tokens` is a leftover `max_tokens`, else `max_gen_toks`, else the adapter's default; `stop` is a leftover `stop`, else `until`, else a list holding the end-of-text marker; `prompt`, `model` and `seed` come from the arguments unless overridden |
| `NexaModels.ScorePayload` | nexa/eval/models/nexa_models.py:55-64 | the payload has exactly the seven keys model, prompt, temperature 0, max_tokens 1, logprobs 1, seed and echo true |
| `NexaModels.NexaModel.TokEncode` | nexa/eval/models/nexa_models.py:99-106 | returns its argument unchanged |
| `NexaModels.NexaModel.Loglikelihood` | nexa/eval/models/nexa_models.py:108-111 | always fails with NotImplementedError and the source's message |
| `NexaModels.FirstMaxIndex` | nexa/eval/models/nexa_models.py:84 | the index chosen by `max(top, key=top.get)`: its value is at least every value, and every earlier value is strictly smaller (the first maximum) |
| `NexaModels.GreedyScan` | nexa/eval/models/nexa_models.py:82-86 | the scan as written; it fails only with the ValueError of `max` on an empty dictionary, and is true when either zipped list is empty; its full meaning is stated by `GreedyScanMeaning` |
| `NexaModels.GreedyScanMeaning` | nexa/eval/models/nexa_models.py:82-86 | (`ScanMeans`) over the zipped positions the scan is true iff every position matches its greedy key; false iff there is a first mismatch at a non-empty dictionary; an error iff there is a first empty dictionary |
| `NexaModels.GreedyLoop` | nexa/eval/models/nexa_models.py:82-86 | the loop with its early `break` returns what `GreedyScan` specifies |
| `NexaModels.ScoreChoice` | nexa/eval/models/nexa_models.py:78-86 | a non-positive context length fails with the source's AssertionError; then a missing `logprobs` or `token_logprobs` raises KeyError, in that order; a choice is scored exactly when the context length is positive, `logprobs` holds both `token_logprobs` and `top_logprobs`, `sum` accepts the entries of `token_logprobs[ctxlen:-1]` and the greedy scan over them does not raise |
| `NexaModels.ScoreChoiceRange` | nexa/eval/models/nexa_models.py:78-81 | a successful score has all three keys present; it is (0, true) when the context length is at least the last index; otherwise it is the sum and the greedy scan of `token_logprobs[ctxlen..len-1]`, so the last entry is excluded |
| `NexaModels.ScoreOne` | nexa/eval/models/nexa_models.py:78-87 | the loop body (assertion, lookups, sum, greedy loop) returns what `ScoreChoice` specifies |
| `NexaModels.ScorePairs` | nexa/eval/models/nexa_models.py:77-87 | `zip(choices, ctxlens)` scored pair by pair; a success holds min(number of choices, length of `ctxlens`) scores, and a failure needs both lists non-empty; its full meaning is stated by `ScorePairsMeaning` |
| `NexaModels.ScoreResponse` | nexa/eval/models/nexa_models.py:77 | a response without `choices` fails with KeyError before any pairing; a success holds min(number of choices, length of `ctxlens`) scores |
| `NexaModels.ScoreAll` | nexa/eval/models/nexa_models.py:74-88 | a success holds `PairCount` scores and no responses give an empty list; success iff every response succeeds, and the first failing response's error otherwise, are stated by `ScoreAllMeaning`; positions are stated by `ScoreAllPositions` |
| `NexaModels.ScorePairsMeaning` | nexa/eval/models/nexa_models.py:77-87 | one response yields exactly min(number of choices, length of `ctxlens`) pairs, the i-th being choice i scored against `ctxlens[i]`; it fails iff one of those pairs fails, and then with the error of the first failing pair, as Python raises it |
| `NexaModels.ScorePairsFirstError` | nexa/eval/models/nexa_models.py:77-87 | a failing response fails with the error of its first failing pair, every earlier pair having succeeded |
| `NexaModels.ScorePairsAt` | nexa/eval/models/nexa_models.py:77-87 | in a successful response, score i is choice i scored against `ctxlens[i]` |
| `NexaModels.ScoreAllMeaning` | nexa/eval/models/nexa_models.py:74-88 | `parse_logprobs` returns pairs iff every response is scored; otherwise there is a response k whose error it raises, every response before k having been scored |
| `NexaModels.ScoreAllPositions` | nexa/eval/models/nexa_models.py:74-88 | a successful parse has, per response, min(number of choices, length of `ctxlens`) pairs in response-then-choice order; choice i of response k sits at the count of the earlier responses plus i and is scored against `ctxlens[i]` |
| `NexaModels.ParseResponse` | nexa/eval/models/nexa_models.py:77-87 | the inner loop over `zip(out["choices"], ctxlens)` returns what `ScoreResponse` specifies, failing with KeyError when `choices` is absent |
| `NexaModels.ParseLogprobs` | nexa/eval/models/nexa_models.py:66-88 | the outer loop, after wrapping a lone response as a list of one, returns what `ScoreAll` specifies |
| `NexaModels.ParseGenerations` | nexa/eval/models/nexa_models.py:90-97 | after wrapping a lone response, the result has one entry per response, in order: the response's `result` value, or "" when absent; choices are never consulted |
| `NexaModels.SummedTokensNeverGreedy` | nexa/eval/models/nexa_models.py:79-86 | once `sum` has accepted the scored entries, the scan is true only for an empty range, fails for an empty first dictionary, and is otherwise false |
| `NexaModels.ScoredChoiceGreedyOnlyWhenEmpty` | nexa/eval/models/nexa_models.py:79-86 | a successfully scored choice is greedy iff its scored range of entries or of alternatives is empty |
| `NexaModels.GreedyScanIntended` | nexa/eval/models/nexa_models.py:84 | the corrected scan; like the code's, it fails only with the ValueError of `max` on an empty dictionary and is true when either zipped list is empty; its meaning is stated by `IntendedGreedyMeaning` |
| `NexaModels.IntendedGreedyMeaning` | nexa/eval/models/nexa_models.py:84 | the corrected scan is true iff at every zipped position the entry is a number equal to one alternative's log-probability and at least every alternative's |
| `NexaModels.GreedyExample` | nexa/eval/models/nexa_models.py:79-86 | on entries [-1.0, -2.0, -0.5] with context length 1, each entry being its position's best alternative, the code gives (-2.0, false) while the corrected scan gives true |
| `PyRuntime.Slice` | nexa/eval/models/nexa_models.py:79-81 | Python slicing: length and elements follow the resolved, clamped bounds |
| `PyRuntime.SliceDropLast` | nexa/eval/models/nexa_models.py:79-81 | for a positive start, `s[start:-1]` is `s[start..len-1]` when start is before the last index, and empty otherwise |
| `PyRuntime.Numeric` | nexa/eval/models/nexa_models.py:79 | what `sum` adds for one item: a number for `bool`, `int` and `float` (a float as itself), TypeError for anything else |
| `PyRuntime.Sum` | nexa/eval/models/nexa_models.py:79 | `sum` succeeds iff every item is a number, and otherwise raises TypeError; the empty sum is 0 |
| `Utf8.UnitLength` | android/llama.android/llama/src/main/cpp/common.cpp:11-21 | a lead byte starts a unit of at most 4 bytes; it is rejected (length 0) iff it is `10xxxxxx` or `11111xxx` |
| `Utf8.Splits` | android/llama.android/llama/src/main/cpp/common.cpp:11-30 | the bytes split into units, each a lead byte and the continuation bytes its pattern demands; in accepted text the first byte is a lead whose unit fits; its meaning is further stated by `UnitExact`, `BadLeadRejected` and `TruncatedRejected` |
| `Utf8.FirstNul` | android/llama.android/llama/src/main/cpp/common.cpp:10 | the terminator's index: a NUL with no NUL before it |
| `Utf8.IsValidUtf8` | android/llama.android/llama/src/main/cpp/common.cpp:2-33 | a null pointer is valid; otherwise the result is true iff the bytes before the first NUL split into units; no byte after the first NUL is ever read |
| `Utf8.ContinuationBytes` | android/llama.android/llama/src/main/cpp/common.cpp:23-29 | the inner loop: on success the num - 1 bytes after the lead are continuation bytes and the position is just past the unit; on failure the text from the lead on does not split; it never reads past the terminator |
| `Utf8.SplitsStep` | android/llama.android/llama/src/main/cpp/common.cpp:23-30 | after a whole unit, the text is accepted exactly when its rest is |
| `Utf8.UnitBroken` | android/llama.android/llama/src/main/cpp/common.cpp:24-27 | a unit whose i-th byte is missing or not a continuation byte makes the text rejected |
| `Utf8.AsciiSplits` | android/llama.android/llama/src/main/cpp/common.cpp:11-23 | bytes all below 0x80 are valid |
| `Utf8.SplitsAppend` | android/llama.android/llama/src/main/cpp/common.cpp:10-30 | two accepted NUL-free strings joined are accepted |
| `Utf8.SplitsCancel` | android/llama.android/llama/src/main/cpp/common.cpp:10-30 | the split is unique: after an accepted prefix, the rest of an accepted string is accepted on its own |
| `Utf8.BadLeadRejected` | android/llama.android/llama/src/main/cpp/common.cpp:11-20 | a `10xxxxxx` or `11111xxx` byte where a character starts makes the result false |
| `Utf8.TruncatedRejected` | android/llama.android/llama/src/main/cpp/common.cpp:24-27 | a character cut short by the end of the text, where the terminator stands, makes the result false |
| `Utf8.UnitExact` | android/llama.android/llama/src/main/cpp/common.cpp:13-28 | in an accepted string a lead of length n is followed by exactly n-1 continuation bytes, and the byte after them is not one |
| `Utf8.Rfc3629ImpliesSplits` | android/llama.android/llama/src/main/cpp/common.cpp:11-30 | every string in the UTF8-octets grammar of section 4 of RFC 3629 is accepted |
| `Utf8.Rfc3629StricterThanSplits` | android/llama.android/llama/src/main/cpp/common.cpp:11-30 | `C0 80`, `ED A0 80` and `F5 80 80 80` are accepted although the grammar of section 4 of RFC 3629 rejects them |

## Left out

- The HTTP transport, the `TemplateAPI` base class, the `register_model` registry and the `eval_logger` warnings are not part of this model. The warnings are no-ops; the base class is reduced to the three fields it sets.
- Log-probabilities are `real`: floating-point rounding in `sum` is not modelled.
- Response objects are modelled only through absent or present keys. A key holding a value of the wrong JSON type is not modelled: `choices` not a list, `logprobs` null, a `top_logprobs` entry null or holding non-numbers. Python would raise at such a value or iterate it differently.
- The input to the parsers is either one response or a list of them; other Python types passed as `outputs` are not modelled.
- `ctxlens` is a list of integers. The default `None`, for which `zip` raises TypeError, is not modelled.
- A Python dictionary cannot repeat a key, but a `TopDict` sequence can. `FirstMaxIndex` picks among the pairs, which agrees with Python whenever the keys are distinct.
- Parameters the code ignores are not modelled: `tokens` of `parse_logprobs`, `left_truncate_len` and `add_special_tokens` of `tok_encode`, and `**kwargs`.
- The body of each loop of `parse_logprobs` is a method of its own (`ParseResponse`, `ScoreOne`, `GreedyLoop`), and so is the inner loop of `is_valid_utf8` (`ContinuationBytes`). The order of evaluation, the bytes read and the point where an exception or a `return false` ends the call are as in the source.
- `is_valid_utf8` takes a byte array that contains a 0, which is the caller's promise of a NUL-terminated string. Pointer arithmetic is an index into that array.
- The Gradio demo scripts under `nexa/gguf/gradio/` are not modelled. They build a user interface and call inference engines that are not part of this model, and `models.py` downloads models over the network.
- `swift/Sources/NexaSwift/Models/LlavaModelInfo.swift` is not modelled. It only holds data.

## Findings

| source | as written | input that shows it | evidently intended | confidence | as-written member | corrected member |
|---|---|---|---|---|---|---|
| nexa/eval/models/nexa_models.py:84 | `tok` is an entry of `token_logprobs` (a number, line 80) and is compared with `max(top, key=top.get)`, a string key; they never compare equal. So when both scored ranges (entries and alternatives) are non-empty, `is_greedy` is false if the first alternatives dictionary is non-empty, and `max` raises ValueError if it is empty; `is_greedy` is true only when one of the ranges is empty | `token_logprobs = [-1.0, -2.0, -0.5]`, `ctxlens = [1]`, each entry the best alternative at its position: the code returns `(-2.0, False)` | compare the entry with `max(top.values())`, the greatest log-probability at that position, which gives `(-2.0, True)` | high; not executed | `NexaModels.SummedTokensNeverGreedy`, `NexaModels.GreedyExample` | `NexaModels.GreedyScanIntended`, proved by `NexaModels.IntendedGreedyMeaning` |

The parsing model (`ScoreChoice`, `ParseLogprobs`) keeps the comparison as written, because it describes
what the adapter returns. `GreedyScanIntended` is the corrected comparison, and `IntendedGreedyMeaning`
proves that it reports greedy exactly when every scored token took its most probable alternative.
