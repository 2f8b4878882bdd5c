/**
 The completions adapter of the evaluation harness (class `nexa_models`): it
 builds the JSON payload sent to a local completions server, in a generate mode
 and in a scoring mode, and parses the server's responses into generated texts
 or into one (summed log-probability, is-greedy) pair per choice.
 */
module NexaModels {
  import opened PyRuntime

  /** The stop sequence used when the caller gives none. */
  const EndOfText := "<|endoftext|>"

  /** The seed a payload carries when the caller gives none. */
  const DefaultSeed := 1234

  /** The generation options that a generate-mode payload consumes. */
  const ConsumedOptions: set<string> := {"do_sample", "max_gen_toks", "temperature", "until"}

  /** The fields a generate-mode payload always sets before the leftover options. */
  const GenerateFields: set<string> := {"prompt", "model", "max_tokens", "temperature", "stop", "seed"}

  const ContextLengthMessage := "Context length must be greater than 0"

  const LoglikelihoodMessage :=
    "Loglikelihood is not supported for chat completions. Consider using the completions API instead."

  /** `kw.get(key, default)` */
  function Get(kw: map<string, Value>, key: string, default: Value): Value {
    if key in kw then kw[key] else default
  }

  // ---------------------------------------------------------------------------
  // Request payloads
  // ---------------------------------------------------------------------------

  /** The payload of a generate request, given the options dictionary as the
      caller passed it: the four consumed options set `max_tokens`,
      `temperature` and `stop` (or are dropped), and every other option is
      spread over the result last, so it wins over a field of the same name. */
  function GeneratePayload(model: Value, maxGenToks: int, messages: Value, seed: int,
                           kw: map<string, Value>): (p: map<string, Value>)
    ensures p.Keys == GenerateFields + (kw.Keys - ConsumedOptions)
    ensures "do_sample" !in p && "max_gen_toks" !in p && "until" !in p
    ensures forall key :: key in kw && key !in ConsumedOptions ==> p[key] == kw[key]
    ensures p["temperature"] == Get(kw, "temperature", Int(0))
    ensures p["max_tokens"] ==
      if "max_tokens" in kw then kw["max_tokens"] else Get(kw, "max_gen_toks", Int(maxGenToks))
    ensures p["stop"] == if "stop" in kw then kw["stop"] else Get(kw, "until", Arr([Str(EndOfText)]))
    ensures p["prompt"] == Get(kw, "prompt", messages)
    ensures p["model"] == Get(kw, "model", model)
    ensures p["seed"] == Get(kw, "seed", Int(seed))
  {
    map[
      "prompt" := messages,
      "model" := model,
      "max_tokens" := Get(kw, "max_gen_toks", Int(maxGenToks)),
      "temperature" := Get(kw, "temperature", Int(0)),
      "stop" := Get(kw, "until", Arr([Str(EndOfText)])),
      "seed" := Int(seed)
    ] + (kw - ConsumedOptions)
  }

  /** The payload of a scoring request: a fixed shape asking the server to echo
      the prompt with the log-probability of every token. */
  function ScorePayload(model: Value, messages: Value, seed: int): (p: map<string, Value>)
    ensures p.Keys == {"model", "prompt", "temperature", "max_tokens", "logprobs", "seed", "echo"}
    ensures p["temperature"] == Int(0) && p["max_tokens"] == Int(1) && p["logprobs"] == Int(1)
    ensures p["echo"] == Bool(true)
    ensures p["model"] == model && p["prompt"] == messages && p["seed"] == Int(seed)
  {
    map[
      "model" := model,
      "prompt" := messages,
      "temperature" := Int(0),
      "max_tokens" := Int(1),
      "logprobs" := Int(1),
      "seed" := Int(seed),
      "echo" := Bool(true)
    ]
  }

  /** A Python dictionary that the caller owns and the adapter changes in place. */
  class KwDict {
    var entries: map<string, Value>

    constructor (entries: map<string, Value>)
      ensures this.entries == entries
    {
      this.entries := entries;
    }

    /** `dict.pop(key, default)` */
    method Pop(key: string, default: Value) returns (v: Value)
      modifies this
      ensures v == Get(old(entries), key, default)
      ensures entries == old(entries) - {key}
    {
      v := Get(entries, key, default);
      entries := entries - {key};
    }
  }

  /** The adapter object. Its three fields are the ones its base class sets up. */
  class NexaModel {
    var batchSize: int
    var maxGenToks: int
    var model: Value

    /** `batchSize` is the batch size the base class derived from the
        configuration; the chat protocol has no batching, so anything larger
        than 1 becomes 1 (the accompanying warning is not modelled). */
    constructor (batchSize: int, maxGenToks: int, model: Value)
      ensures this.batchSize <= 1
      ensures batchSize <= 1 ==> this.batchSize == batchSize
      ensures batchSize > 1 ==> this.batchSize == 1
      ensures this.maxGenToks == maxGenToks && this.model == model
    {
      this.batchSize := batchSize;
      this.maxGenToks := maxGenToks;
      this.model := model;
      new;
      if this.batchSize > 1 {
        this.batchSize := 1;
      }
    }

    /** Builds the request payload. In generate mode it pops the options it
        understands from the caller's dictionary, which therefore loses exactly
        those keys; in scoring mode the dictionary is neither read nor changed.
        A missing dictionary in generate mode fails as `None.pop` does. */
    method CreatePayload(messages: Value, generate: bool, genKwargs: KwDict?, seed: int := DefaultSeed)
      returns (r: Result<map<string, Value>>)
      modifies genKwargs
      ensures !generate ==> r == Ok(ScorePayload(model, messages, seed))
      ensures !generate && genKwargs != null ==> genKwargs.entries == old(genKwargs.entries)
      ensures generate && genKwargs == null ==> r == Err(AttributeError("pop"))
      ensures generate && genKwargs != null ==>
        r == Ok(GeneratePayload(model, maxGenToks, messages, seed, old(genKwargs.entries))) &&
        genKwargs.entries == old(genKwargs.entries) - ConsumedOptions
    {
      if generate {
        if genKwargs == null {
          return Err(AttributeError("pop"));
        }
        ghost var kw := genKwargs.entries;
        var _ := genKwargs.Pop("do_sample", Bool(false));
        var maxTokens := genKwargs.Pop("max_gen_toks", Int(maxGenToks));
        var temperature := genKwargs.Pop("temperature", Int(0));
        var stop := genKwargs.Pop("until", Arr([Str(EndOfText)]));
        assert maxTokens == Get(kw, "max_gen_toks", Int(maxGenToks));
        assert temperature == Get(kw, "temperature", Int(0));
        assert stop == Get(kw, "until", Arr([Str(EndOfText)]));
        r := Ok(map[
          "prompt" := messages,
          "model" := model,
          "max_tokens" := maxTokens,
          "temperature" := temperature,
          "stop" := stop,
          "seed" := Int(seed)
        ] + genKwargs.entries);
        assert genKwargs.entries == kw - ConsumedOptions;
      } else {
        r := Ok(ScorePayload(model, messages, seed));
      }
    }

    /** The server tokenizes; the adapter hands back what it was given. */
    function TokEncode(s: Value): (r: Value)
      ensures r == s
    {
      s
    }

    /** Log-likelihood requests are not supported by this protocol variant. */
    function Loglikelihood(requests: seq<Value>): (r: Result<seq<Score>>)
      ensures r == Err(NotImplementedError(LoglikelihoodMessage))
    {
      Err(NotImplementedError(LoglikelihoodMessage))
    }
  }

  // ---------------------------------------------------------------------------
  // Responses
  // ---------------------------------------------------------------------------

  /** One entry of `top_logprobs`: the alternatives at one position, in the
      dictionary's insertion order. */
  type TopDict = seq<(string, real)>

  /** The `logprobs` object of a choice; `None` is a key the object lacks. */
  datatype Logprobs = Logprobs(tokenLogprobs: Option<seq<Value>>, topLogprobs: Option<seq<TopDict>>)

  datatype Choice = Choice(logprobs: Option<Logprobs>)

  /** A response object, through the two keys the adapter reads. */
  datatype Response = Response(choices: Option<seq<Choice>>, result: Option<Value>)

  /** What the parsers accept: a lone response object or a list of them. */
  datatype Outputs = Single(response: Response) | Batch(responses: seq<Response>)

  /** The pair the harness receives for one choice. */
  datatype Score = Score(logprob: real, isGreedy: bool)

  /** A lone response is treated as a list of one. */
  function Responses(outputs: Outputs): seq<Response> {
    match outputs
    case Single(response) => [response]
    case Batch(responses) => responses
  }

  /** The index `max(top, key=top.get)` settles on: Python's `max` keeps the
      first of several equal maxima. */
  function FirstMaxIndex(top: TopDict): (j: nat)
    requires top != []
    ensures j < |top|
    ensures forall i :: 0 <= i < |top| ==> top[i].1 <= top[j].1
    ensures forall i :: 0 <= i < j ==> top[i].1 < top[j].1
    decreases |top|
  {
    if |top| == 1 then 0
    else
      var j := FirstMaxIndex(top[..|top| - 1]);
      if top[|top| - 1].1 > top[j].1 then |top| - 1 else j
  }

  /** `max(top, key=top.get)`: the first key of greatest log-probability. */
  function GreedyKey(top: TopDict): string
    requires top != []
  {
    top[FirstMaxIndex(top)].0
  }

  /** The greedy check as written: each scored entry of `token_logprobs` is
      compared with the greedy KEY of its position, stopping at the first
      difference; `max` of an empty dictionary raises. */
  function GreedyScan(tokens: seq<Value>, tops: seq<TopDict>): (r: Result<bool>)
    ensures r.Err? ==> r.error == ValueError("max() arg is an empty sequence")
    ensures tokens == [] || tops == [] ==> r == Ok(true)
    decreases |tokens|
  {
    if tokens == [] || tops == [] then Ok(true)
    else if tops[0] == [] then Err(ValueError("max() arg is an empty sequence"))
    else if tokens[0] != Str(GreedyKey(tops[0])) then Ok(false)
    else GreedyScan(tokens[1..], tops[1..])
  }

  predicate Matches(token: Value, top: TopDict) {
    top != [] && token == Str(GreedyKey(top))
  }

  predicate MatchesBefore(tokens: seq<Value>, tops: seq<TopDict>, n: nat)
    requires n <= |tokens| && n <= |tops|
  {
    forall i :: 0 <= i < n ==> Matches(tokens[i], tops[i])
  }

  function Min(a: int, b: int): int {
    if a < b then a else b
  }

  /** Past a matching first position, a matching prefix is a matching prefix
      of the rest. */
  lemma MatchesBeforeShift(tokens: seq<Value>, tops: seq<TopDict>, j: nat)
    requires j < |tokens| && j < |tops| && Matches(tokens[0], tops[0])
    ensures MatchesBefore(tokens, tops, j + 1) <==> MatchesBefore(tokens[1..], tops[1..], j)
  {
    var t, p := tokens[1..], tops[1..];
    if MatchesBefore(t, p, j) {
      forall i | 0 <= i < j + 1 ensures Matches(tokens[i], tops[i]) {
        if i > 0 { assert tokens[i] == t[i - 1] && tops[i] == p[i - 1]; }
      }
    }
    if MatchesBefore(tokens, tops, j + 1) {
      forall i | 0 <= i < j ensures Matches(t[i], p[i]) {
        assert Matches(tokens[i + 1], tops[i + 1]);
      }
    }
  }

  /** The scan is true exactly when every zipped position matches. */
  ghost predicate ScanTrueMeans(tokens: seq<Value>, tops: seq<TopDict>) {
    GreedyScan(tokens, tops) == Ok(true) <==> MatchesBefore(tokens, tops, Min(|tokens|, |tops|))
  }

  /** The scan is false exactly at a first mismatch with a non-empty dictionary. */
  ghost predicate ScanFalseMeans(tokens: seq<Value>, tops: seq<TopDict>) {
    GreedyScan(tokens, tops) == Ok(false) <==>
      exists j :: 0 <= j < Min(|tokens|, |tops|) && MatchesBefore(tokens, tops, j) &&
        tops[j] != [] && !Matches(tokens[j], tops[j])
  }

  /** The scan fails exactly at a first empty dictionary. */
  ghost predicate ScanErrMeans(tokens: seq<Value>, tops: seq<TopDict>) {
    GreedyScan(tokens, tops).Err? <==>
      exists j :: 0 <= j < Min(|tokens|, |tops|) && MatchesBefore(tokens, tops, j) && tops[j] == []
  }

  /** What the greedy scan over the zipped positions means: true when every
      position matches, false at a first mismatch, an error at a first empty
      dictionary. */
  ghost predicate ScanMeans(tokens: seq<Value>, tops: seq<TopDict>) {
    ScanTrueMeans(tokens, tops) && ScanFalseMeans(tokens, tops) && ScanErrMeans(tokens, tops)
  }

  /** The greedy scan means what `ScanMeans` says, on every input. */
  lemma {:induction false} GreedyScanMeaning(tokens: seq<Value>, tops: seq<TopDict>)
    ensures ScanMeans(tokens, tops)
    decreases |tokens|
  {
    if tokens == [] || tops == [] {
    } else if tops[0] == [] {
      ScanHeadMiss(tokens, tops);
    } else if tokens[0] != Str(GreedyKey(tops[0])) {
      ScanHeadMiss(tokens, tops);
    } else {
      GreedyScanMeaning(tokens[1..], tops[1..]);
      ScanHeadMatchTrue(tokens, tops);
      ScanHeadMatchFalse(tokens, tops);
      ScanHeadMatchErr(tokens, tops);
    }
  }

  /** A mismatch or an empty dictionary at the first position settles the scan. */
  lemma ScanHeadMiss(tokens: seq<Value>, tops: seq<TopDict>)
    requires tokens != [] && tops != [] && !Matches(tokens[0], tops[0])
    ensures ScanMeans(tokens, tops)
  {
    var n := Min(|tokens|, |tops|);
    assert MatchesBefore(tokens, tops, 0);
    assert !MatchesBefore(tokens, tops, n);
  }

  /** A match at the first position hands the scan on to the rest: all match. */
  lemma ScanHeadMatchTrue(tokens: seq<Value>, tops: seq<TopDict>)
    requires tokens != [] && tops != [] && Matches(tokens[0], tops[0])
    requires ScanTrueMeans(tokens[1..], tops[1..])
    ensures ScanTrueMeans(tokens, tops)
  {
    assert GreedyScan(tokens, tops) == GreedyScan(tokens[1..], tops[1..]);
    MatchesBeforeShift(tokens, tops, Min(|tokens|, |tops|) - 1);
  }

  /** A match at the first position hands the scan on to the rest: a mismatch. */
  lemma ScanHeadMatchFalse(tokens: seq<Value>, tops: seq<TopDict>)
    requires tokens != [] && tops != [] && Matches(tokens[0], tops[0])
    requires ScanFalseMeans(tokens[1..], tops[1..])
    ensures ScanFalseMeans(tokens, tops)
  {
    var n := Min(|tokens|, |tops|);
    var t, p := tokens[1..], tops[1..];
    assert GreedyScan(tokens, tops) == GreedyScan(t, p);
    if GreedyScan(t, p) == Ok(false) {
      var j :| 0 <= j < n - 1 && MatchesBefore(t, p, j) && p[j] != [] && !Matches(t[j], p[j]);
      MatchesBeforeShift(tokens, tops, j);
      assert MatchesBefore(tokens, tops, j + 1);
    }
    forall j | 0 <= j < n && MatchesBefore(tokens, tops, j) && tops[j] != [] && !Matches(tokens[j], tops[j])
      ensures GreedyScan(t, p) == Ok(false)
    {
      assert j > 0;
      MatchesBeforeShift(tokens, tops, j - 1);
      assert MatchesBefore(t, p, j - 1);
    }
  }

  /** A match at the first position hands the scan on to the rest: an empty
      dictionary. */
  lemma ScanHeadMatchErr(tokens: seq<Value>, tops: seq<TopDict>)
    requires tokens != [] && tops != [] && Matches(tokens[0], tops[0])
    requires ScanErrMeans(tokens[1..], tops[1..])
    ensures ScanErrMeans(tokens, tops)
  {
    var n := Min(|tokens|, |tops|);
    var t, p := tokens[1..], tops[1..];
    assert GreedyScan(tokens, tops) == GreedyScan(t, p);
    if GreedyScan(t, p).Err? {
      var j :| 0 <= j < n - 1 && MatchesBefore(t, p, j) && p[j] == [];
      MatchesBeforeShift(tokens, tops, j);
      assert MatchesBefore(tokens, tops, j + 1);
    }
    forall j | 0 <= j < n && MatchesBefore(tokens, tops, j) && tops[j] == []
      ensures GreedyScan(t, p).Err?
    {
      assert j > 0;
      MatchesBeforeShift(tokens, tops, j - 1);
      assert MatchesBefore(t, p, j - 1);
    }
  }

  /** Scores one choice against its context length: the sum of
      `token_logprobs[ctxlen:-1]` and the greedy scan of those entries against
      `top_logprobs[ctxlen:-1]`. The checks come in the order Python meets them:
      the assertion, the `token_logprobs` lookup, the `sum`, the `top_logprobs`
      lookup and the scan. */
  function ScoreChoice(choice: Choice, ctxlen: int): (r: Result<Score>)
    ensures ctxlen <= 0 ==> r == Err(AssertionError(ContextLengthMessage))
    ensures ctxlen > 0 && choice.logprobs.None? ==> r == Err(KeyError("logprobs"))
    ensures ctxlen > 0 && choice.logprobs.Some? && choice.logprobs.value.tokenLogprobs.None? ==>
      r == Err(KeyError("token_logprobs"))
    ensures r.Ok? <==>
      ctxlen > 0 && choice.logprobs.Some? &&
      var lp := choice.logprobs.value;
      lp.tokenLogprobs.Some? && lp.topLogprobs.Some? &&
      var tokens := Slice(lp.tokenLogprobs.value, ctxlen, -1);
      Sum(tokens).Ok? && GreedyScan(tokens, Slice(lp.topLogprobs.value, ctxlen, -1)).Ok?
  {
    if ctxlen <= 0 then Err(AssertionError(ContextLengthMessage))
    else match choice.logprobs
      case None => Err(KeyError("logprobs"))
      case Some(lp) =>
        match lp.tokenLogprobs
        case None => Err(KeyError("token_logprobs"))
        case Some(tokenLogprobs) =>
          var tokens := Slice(tokenLogprobs, ctxlen, -1);
          match Sum(tokens)
          case Err(e) => Err(e)
          case Ok(total) =>
            match lp.topLogprobs
            case None => Err(KeyError("top_logprobs"))
            case Some(topLogprobs) =>
              match GreedyScan(tokens, Slice(topLogprobs, ctxlen, -1))
              case Err(e) => Err(e)
              case Ok(isGreedy) => Ok(Score(total, isGreedy))
  }

  /** A scored choice covers the token entries from the context length up to,
      but not including, the last one; when nothing lies in that range the pair
      is (0, true). */
  lemma ScoreChoiceRange(choice: Choice, ctxlen: int)
    requires ScoreChoice(choice, ctxlen).Ok?
    ensures ctxlen > 0 && choice.logprobs.Some?
    ensures choice.logprobs.value.tokenLogprobs.Some? && choice.logprobs.value.topLogprobs.Some?
    ensures var tl := choice.logprobs.value.tokenLogprobs.value;
      var tops := choice.logprobs.value.topLogprobs.value;
      var s := ScoreChoice(choice, ctxlen).value;
      (ctxlen >= |tl| - 1 ==> s == Score(0.0, true)) &&
      (ctxlen < |tl| - 1 ==>
        Sum(tl[ctxlen..|tl| - 1]) == Ok(s.logprob) &&
        GreedyScan(tl[ctxlen..|tl| - 1], Slice(tops, ctxlen, -1)) == Ok(s.isGreedy))
  {
  }

  /** `Ok(done + rest)` once `rest` is known, or the first error. */
  function Chain(first: Result<seq<Score>>, rest: Result<seq<Score>>): Result<seq<Score>> {
    match first
    case Err(e) => Err(e)
    case Ok(done) =>
      match rest
      case Err(e) => Err(e)
      case Ok(more) => Ok(done + more)
  }

  lemma ChainAssociative(a: Result<seq<Score>>, b: Result<seq<Score>>, c: Result<seq<Score>>)
    ensures Chain(Chain(a, b), c) == Chain(a, Chain(b, c))
  {
    if a.Ok? && b.Ok? && c.Ok? {
      assert (a.value + b.value) + c.value == a.value + (b.value + c.value);
    }
  }

  /** `zip(choices, ctxlens)`: choice i is scored against `ctxlens[i]`, and the
      shorter list ends the pairing. */
  function ScorePairs(choices: seq<Choice>, ctxlens: seq<int>): (r: Result<seq<Score>>)
    ensures r.Ok? ==> |r.value| == Min(|choices|, |ctxlens|)
    ensures r.Err? ==> choices != [] && ctxlens != []
    decreases |choices|
  {
    if choices == [] || ctxlens == [] then Ok([])
    else
      var first := match ScoreChoice(choices[0], ctxlens[0])
        case Err(e) => Err(e)
        case Ok(s) => Ok([s]);
      Chain(first, ScorePairs(choices[1..], ctxlens[1..]))
  }

  /** The pairs of one response: `out["choices"]` is looked up first, so a
      response without choices fails even when `ctxlens` is empty. */
  function ScoreResponse(out: Response, ctxlens: seq<int>): (r: Result<seq<Score>>)
    ensures out.choices.None? ==> r == Err(KeyError("choices"))
    ensures r.Ok? ==> out.choices.Some? && |r.value| == Min(|out.choices.value|, |ctxlens|)
  {
    match out.choices
    case None => Err(KeyError("choices"))
    case Some(choices) => ScorePairs(choices, ctxlens)
  }

  /** `parse_logprobs` over a list of responses: every response zips its
      choices with `ctxlens` from the start again. */
  function ScoreAll(outs: seq<Response>, ctxlens: seq<int>): (r: Result<seq<Score>>)
    ensures r.Ok? ==> |r.value| == PairCount(outs, ctxlens)
    ensures outs == [] ==> r == Ok([])
    decreases |outs|
  {
    if outs == [] then Ok([])
    else Chain(ScoreResponse(outs[0], ctxlens), ScoreAll(outs[1..], ctxlens))
  }

  /** One response's result holds exactly min(|choices|, |ctxlens|) pairs, the
      i-th being choice i scored against `ctxlens[i]`; it is an error exactly
      when one of those pairs is, and then it is the first failing pair's error,
      as Python raises it. */
  lemma {:induction false} ScorePairsMeaning(choices: seq<Choice>, ctxlens: seq<int>)
    ensures var r := ScorePairs(choices, ctxlens);
      var n := Min(|choices|, |ctxlens|);
      (r.Ok? <==> forall i :: 0 <= i < n ==> ScoreChoice(choices[i], ctxlens[i]).Ok?) &&
      (r.Ok? ==> |r.value| == n && forall i :: 0 <= i < n ==> ScoreChoice(choices[i], ctxlens[i]) == Ok(r.value[i])) &&
      (r.Err? ==>
         exists j ::
           0 <= j < n &&
           (forall i :: 0 <= i < j ==> ScoreChoice(choices[i], ctxlens[i]).Ok?) &&
           ScoreChoice(choices[j], ctxlens[j]) == Err(r.error))
    decreases |choices|
  {
    if choices != [] && ctxlens != [] {
      var n := Min(|choices|, |ctxlens|);
      ScorePairsMeaning(choices[1..], ctxlens[1..]);
      ScorePairsFirstError(choices, ctxlens);
      forall i | 1 <= i < n
        ensures ScoreChoice(choices[i], ctxlens[i]) == ScoreChoice(choices[1..][i - 1], ctxlens[1..][i - 1])
      {
      }
      if (forall i :: 0 <= i < n ==> ScoreChoice(choices[i], ctxlens[i]).Ok?) {
        assert ScoreChoice(choices[0], ctxlens[0]).Ok?;
        forall i | 0 <= i < n - 1 ensures ScoreChoice(choices[1..][i], ctxlens[1..][i]).Ok? {
          assert ScoreChoice(choices[i + 1], ctxlens[i + 1]).Ok?;
        }
      }
    }
  }

  /** Pair i of a successful response is choice i scored against `ctxlens[i]`. */
  lemma ScorePairsAt(choices: seq<Choice>, ctxlens: seq<int>, i: nat)
    requires ScorePairs(choices, ctxlens).Ok?
    requires i < Min(|choices|, |ctxlens|)
    ensures i < |ScorePairs(choices, ctxlens).value|
    ensures ScoreChoice(choices[i], ctxlens[i]) == Ok(ScorePairs(choices, ctxlens).value[i])
  {
    ScorePairsMeaning(choices, ctxlens);
  }

  /** A failing response fails with the error of its first failing pair. */
  lemma {:induction false} ScorePairsFirstError(choices: seq<Choice>, ctxlens: seq<int>)
    ensures var r := ScorePairs(choices, ctxlens);
      r.Err? ==>
        exists j ::
          0 <= j < Min(|choices|, |ctxlens|) &&
          (forall i :: 0 <= i < j ==> ScoreChoice(choices[i], ctxlens[i]).Ok?) &&
          ScoreChoice(choices[j], ctxlens[j]) == Err(r.error)
    decreases |choices|
  {
    if choices != [] && ctxlens != [] {
      var r := ScorePairs(choices, ctxlens);
      var here := ScoreChoice(choices[0], ctxlens[0]);
      var rest := ScorePairs(choices[1..], ctxlens[1..]);
      if here.Err? {
        assert r == Err(here.error);
      } else if rest.Err? {
        assert r == Err(rest.error);
        ScorePairsFirstError(choices[1..], ctxlens[1..]);
        var j :| 0 <= j < Min(|choices|, |ctxlens|) - 1 &&
          (forall i :: 0 <= i < j ==> ScoreChoice(choices[1..][i], ctxlens[1..][i]).Ok?) &&
          ScoreChoice(choices[1..][j], ctxlens[1..][j]) == Err(rest.error);
        forall i | 0 <= i < j + 1 ensures ScoreChoice(choices[i], ctxlens[i]).Ok? {
          if i > 0 {
            assert choices[i] == choices[1..][i - 1] && ctxlens[i] == ctxlens[1..][i - 1];
          }
        }
        assert choices[j + 1] == choices[1..][j] && ctxlens[j + 1] == ctxlens[1..][j];
      }
    }
  }

  /** The number of pairs the responses before index k contribute. */
  function PairCount(outs: seq<Response>, ctxlens: seq<int>): nat
    decreases |outs|
  {
    if outs == [] then 0
    else
      var here := match outs[0].choices
        case None => 0
        case Some(choices) => Min(|choices|, |ctxlens|);
      here + PairCount(outs[1..], ctxlens)
  }

  /** Per-response results chained in order; the first error wins. */
  function ChainAll(rs: seq<Result<seq<Score>>>): Result<seq<Score>>
    decreases |rs|
  {
    if rs == [] then Ok([]) else Chain(rs[0], ChainAll(rs[1..]))
  }

  /** The number of scores the results before index k hold. */
  function Before(rs: seq<Result<seq<Score>>>, k: nat): nat
    requires k <= |rs|
    decreases k
  {
    if k == 0 then 0
    else (if rs[0].Ok? then |rs[0].value| else 0) + Before(rs[1..], k - 1)
  }

  /** A chain succeeds exactly when every result does; otherwise it carries
      the error of the first failing result. */
  lemma {:induction false} ChainAllMeaning(rs: seq<Result<seq<Score>>>)
    ensures ChainAll(rs).Ok? <==> forall k :: 0 <= k < |rs| ==> rs[k].Ok?
    ensures ChainAll(rs).Err? ==>
      exists k :: 0 <= k < |rs| && (forall j :: 0 <= j < k ==> rs[j].Ok?) && rs[k] == Err(ChainAll(rs).error)
    decreases |rs|
  {
    if rs != [] {
      var rest := rs[1..];
      ChainAllMeaning(rest);
      assert forall k :: 0 < k < |rs| ==> rs[k] == rest[k - 1];
      if rs[0].Ok? && ChainAll(rest).Err? {
        var k :| 0 <= k < |rest| && (forall j :: 0 <= j < k ==> rest[j].Ok?) && rest[k] == Err(ChainAll(rest).error);
        assert rs[k + 1] == rest[k];
      }
    }
  }

  /** `parse_logprobs` chains the responses' own results. */
  lemma {:induction false} ScoreAllChains(outs: seq<Response>, ctxlens: seq<int>, rs: seq<Result<seq<Score>>>)
    requires |rs| == |outs|
    requires forall j :: 0 <= j < |outs| ==> rs[j] == ScoreResponse(outs[j], ctxlens)
    ensures ScoreAll(outs, ctxlens) == ChainAll(rs)
    decreases |outs|
  {
    if outs != [] {
      ScoreAllChains(outs[1..], ctxlens, rs[1..]);
    }
  }

  /** In a successful chain every result succeeded, and result k's scores sit
      right after those of the results before it. */
  lemma {:induction false} ChainAllOffsets(rs: seq<Result<seq<Score>>>, k: nat, i: nat)
    requires ChainAll(rs).Ok?
    requires k < |rs|
    ensures forall j :: 0 <= j < |rs| ==> rs[j].Ok?
    ensures i < |rs[k].value| ==>
      Before(rs, k) + i < |ChainAll(rs).value| && ChainAll(rs).value[Before(rs, k) + i] == rs[k].value[i]
    decreases |rs|
  {
    var all := ChainAll(rs).value;
    assert rs[0].Ok? && ChainAll(rs[1..]).Ok?;
    assert all == rs[0].value + ChainAll(rs[1..]).value;
    if |rs| > 1 {
      ChainAllOffsets(rs[1..], if k == 0 then 0 else k - 1, i);
      forall j | 0 <= j < |rs| ensures rs[j].Ok? {
        if j > 0 { assert rs[j] == rs[1..][j - 1]; }
      }
    }
    if k > 0 {
      assert rs[k] == rs[1..][k - 1];
      ShiftedIndex(all, rs[0].value, ChainAll(rs[1..]).value, Before(rs[1..], k - 1), i, rs[k].value);
    }
  }

  /** With every response scored, the results before response k hold the
      count of its pairs. */
  lemma {:induction false} PairCountBefore(outs: seq<Response>, ctxlens: seq<int>, rs: seq<Result<seq<Score>>>, k: nat)
    requires |rs| == |outs| && k <= |outs|
    requires forall j :: 0 <= j < |outs| ==> rs[j] == ScoreResponse(outs[j], ctxlens) && rs[j].Ok?
    ensures Before(rs, k) == PairCount(outs[..k], ctxlens)
    decreases k
  {
    if k > 0 {
      PairCountBefore(outs[1..], ctxlens, rs[1..], k - 1);
      PairCountCons(outs, ctxlens, k);
      assert rs[0] == ScoreResponse(outs[0], ctxlens);
    }
  }

  /** The count before response k is the first response's pairs plus the count
      before it among the rest. */
  lemma PairCountCons(outs: seq<Response>, ctxlens: seq<int>, k: nat)
    requires 0 < k <= |outs|
    ensures PairCount(outs[..k], ctxlens) == PairCount([outs[0]], ctxlens) + PairCount(outs[1..][..k - 1], ctxlens)
  {
    assert outs[..k][1..] == outs[1..][..k - 1];
    assert outs[..k][0] == outs[0];
  }

  /** An index into the second part of a concatenation, shifted by the first. */
  lemma ShiftedIndex(all: seq<Score>, front: seq<Score>, back: seq<Score>, off: nat, i: nat, target: seq<Score>)
    requires all == front + back
    requires i < |target| ==> off + i < |back| && back[off + i] == target[i]
    ensures i < |target| ==> |front| + off + i < |all| && all[|front| + off + i] == target[i]
  {
  }

  /** Count and order of `parse_logprobs`: a successful result lists the pairs
      response by response; response k contributes min(|choices|, |ctxlens|)
      pairs starting at the count of the responses before it, and its choice i
      is scored against `ctxlens[i]`, not against a position that runs on
      across responses. */
  lemma ScoreAllPositions(outs: seq<Response>, ctxlens: seq<int>, k: nat, i: nat)
    requires ScoreAll(outs, ctxlens).Ok?
    requires k < |outs|
    ensures outs[k].choices.Some?
    ensures |ScoreAll(outs, ctxlens).value| == PairCount(outs, ctxlens)
    ensures i < Min(|outs[k].choices.value|, |ctxlens|) ==>
      PairCount(outs[..k], ctxlens) + i < PairCount(outs, ctxlens) &&
      ScoreChoice(outs[k].choices.value[i], ctxlens[i]) == Ok(ScoreAll(outs, ctxlens).value[PairCount(outs[..k], ctxlens) + i])
  {
    var rs := seq(|outs|, j requires 0 <= j < |outs| => ScoreResponse(outs[j], ctxlens));
    ScoreAllChains(outs, ctxlens, rs);
    ChainAllOffsets(rs, k, i);
    PairCountBefore(outs, ctxlens, rs, k);
    var choices := outs[k].choices.value;
    var pairs := ScorePairs(choices, ctxlens);
    assert rs[k] == ScoreResponse(outs[k], ctxlens) == pairs;
    var v := ScoreAll(outs, ctxlens).value;
    assert v == ChainAll(rs).value;
    if i < Min(|choices|, |ctxlens|) {
      assert v[PairCount(outs[..k], ctxlens) + i] == pairs.value[i];
      ScorePairsAt(choices, ctxlens, i);
    }
  }

  /** `parse_logprobs` returns pairs exactly when every response is scored;
      otherwise it raises the error of the first response that fails, every
      earlier response having been scored. */
  lemma {:induction false} ScoreAllMeaning(outs: seq<Response>, ctxlens: seq<int>)
    ensures ScoreAll(outs, ctxlens).Ok? <==> forall k :: 0 <= k < |outs| ==> ScoreResponse(outs[k], ctxlens).Ok?
    ensures ScoreAll(outs, ctxlens).Err? ==>
      exists k :: 0 <= k < |outs| && (forall j :: 0 <= j < k ==> ScoreResponse(outs[j], ctxlens).Ok?) &&
        ScoreResponse(outs[k], ctxlens) == Err(ScoreAll(outs, ctxlens).error)
  {
    var rs := seq(|outs|, j requires 0 <= j < |outs| => ScoreResponse(outs[j], ctxlens));
    ScoreAllChains(outs, ctxlens, rs);
    ChainAllMeaning(rs);
    if ChainAll(rs).Err? {
      var k :| 0 <= k < |rs| && (forall j :: 0 <= j < k ==> rs[j].Ok?) && rs[k] == Err(ChainAll(rs).error);
      assert ScoreResponse(outs[k], ctxlens) == rs[k];
    }
  }

  /** `parse_logprobs`: the outer loop over the responses, appending each
      response's pairs to the result; the first exception ends the call. */
  method ParseLogprobs(outputs: Outputs, ctxlens: seq<int>) returns (r: Result<seq<Score>>)
    ensures r == ScoreAll(Responses(outputs), ctxlens)
  {
    var outs := Responses(outputs);
    var res: seq<Score> := [];
    var k := 0;
    assert outs[0..] == outs;
    assert Chain(Ok([]), ScoreAll(outs, ctxlens)) == ScoreAll(outs, ctxlens) by {
      var all := ScoreAll(outs, ctxlens);
      if all.Ok? { assert [] + all.value == all.value; }
    }
    while k < |outs|
      invariant 0 <= k <= |outs|
      invariant ScoreAll(outs, ctxlens) == Chain(Ok(res), ScoreAll(outs[k..], ctxlens))
    {
      assert outs[k..][1..] == outs[k + 1..];
      var pairs := ParseResponse(outs[k], ctxlens);
      if pairs.Err? {
        return Err(pairs.error);
      }
      ChainAssociative(Ok(res), pairs, ScoreAll(outs[k + 1..], ctxlens));
      res := res + pairs.value;
      k := k + 1;
    }
    assert Chain(Ok(res), Ok([])) == Ok(res) by { assert res + [] == res; }
    r := Ok(res);
  }

  /** The inner loop of `parse_logprobs`: `zip(out["choices"], ctxlens)`,
      scoring each pair in turn. */
  method ParseResponse(out: Response, ctxlens: seq<int>) returns (r: Result<seq<Score>>)
    ensures r == ScoreResponse(out, ctxlens)
  {
    if out.choices.None? {
      return Err(KeyError("choices"));
    }
    var choices := out.choices.value;
    var res: seq<Score> := [];
    var j := 0;
    assert choices[0..] == choices && ctxlens[0..] == ctxlens;
    assert Chain(Ok([]), ScorePairs(choices, ctxlens)) == ScorePairs(choices, ctxlens) by {
      var all := ScorePairs(choices, ctxlens);
      if all.Ok? { assert [] + all.value == all.value; }
    }
    while j < |choices| && j < |ctxlens|
      invariant 0 <= j <= |choices| && j <= |ctxlens|
      invariant ScorePairs(choices, ctxlens) == Chain(Ok(res), ScorePairs(choices[j..], ctxlens[j..]))
    {
      assert choices[j..][1..] == choices[j + 1..] && ctxlens[j..][1..] == ctxlens[j + 1..];
      var score := ScoreOne(choices[j], ctxlens[j]);
      if score.Err? {
        return Err(score.error);
      }
      ChainAssociative(Ok(res), Ok([score.value]), ScorePairs(choices[j + 1..], ctxlens[j + 1..]));
      res := res + [score.value];
      j := j + 1;
    }
    assert Chain(Ok(res), Ok([])) == Ok(res) by { assert res + [] == res; }
    r := Ok(res);
  }

  /** The body of the inner loop of `parse_logprobs`: the context-length
      assertion, the lookups, the sum, and the greedy loop. */
  method ScoreOne(choice: Choice, ctxlen: int) returns (r: Result<Score>)
    ensures r == ScoreChoice(choice, ctxlen)
  {
    if ctxlen <= 0 {
      return Err(AssertionError(ContextLengthMessage));
    }
    if choice.logprobs.None? {
      return Err(KeyError("logprobs"));
    }
    var lp := choice.logprobs.value;
    if lp.tokenLogprobs.None? {
      return Err(KeyError("token_logprobs"));
    }
    var logprobs := Sum(Slice(lp.tokenLogprobs.value, ctxlen, -1));
    if logprobs.Err? {
      return Err(logprobs.error);
    }
    var tokens := Slice(lp.tokenLogprobs.value, ctxlen, -1);
    if lp.topLogprobs.None? {
      return Err(KeyError("top_logprobs"));
    }
    var isGreedy := GreedyLoop(tokens, Slice(lp.topLogprobs.value, ctxlen, -1));
    if isGreedy.Err? {
      return Err(isGreedy.error);
    }
    r := Ok(Score(logprobs.value, isGreedy.value));
  }

  /** The greedy loop of `parse_logprobs` over `zip(tokens, top_logprobs)`:
      it clears the flag and stops at the first position whose entry differs
      from `max(top, key=top.get)`. */
  method GreedyLoop(tokens: seq<Value>, topLogprobs: seq<TopDict>) returns (r: Result<bool>)
    ensures r == GreedyScan(tokens, topLogprobs)
  {
    var isGreedy := true;
    var i := 0;
    while i < |tokens| && i < |topLogprobs|
      invariant 0 <= i <= |tokens| && i <= |topLogprobs|
      invariant GreedyScan(tokens, topLogprobs) == GreedyScan(tokens[i..], topLogprobs[i..])
    {
      assert tokens[i..][1..] == tokens[i + 1..] && topLogprobs[i..][1..] == topLogprobs[i + 1..];
      if topLogprobs[i] == [] {
        return Err(ValueError("max() arg is an empty sequence"));
      }
      if tokens[i] != Str(GreedyKey(topLogprobs[i])) {
        isGreedy := false;
        break;
      }
      i := i + 1;
    }
    r := Ok(isGreedy);
  }

  /** `parse_generations`: one entry per response, in order, taken from the
      response's `result` field, or "" when it has none; the choices are never
      looked at. */
  method ParseGenerations(outputs: Outputs) returns (res: seq<Value>)
    ensures var outs := Responses(outputs);
      |res| == |outs| &&
      forall k :: 0 <= k < |outs| ==>
        res[k] == if outs[k].result.Some? then outs[k].result.value else Str("")
  {
    var outs := Responses(outputs);
    res := [];
    var k := 0;
    while k < |outs|
      invariant 0 <= k <= |outs|
      invariant |res| == k
      invariant forall m :: 0 <= m < k ==>
        res[m] == if outs[m].result.Some? then outs[m].result.value else Str("")
    {
      var out := outs[k];
      res := res + [match out.result case Some(v) => v case None => Str("")];
      k := k + 1;
    }
  }

  // ---------------------------------------------------------------------------
  // The greedy comparison as written and as evidently intended
  // ---------------------------------------------------------------------------

  /** As written, the entries compared are the summed log-probabilities
      themselves: once `sum` has accepted them they are all numbers, and a
      number never equals a string key, so the scan stops at its first
      position. The flag is true only when nothing is scored. */
  lemma SummedTokensNeverGreedy(tokens: seq<Value>, tops: seq<TopDict>)
    requires Sum(tokens).Ok?
    ensures GreedyScan(tokens, tops) ==
      if tokens == [] || tops == [] then Ok(true)
      else if tops[0] == [] then Err(ValueError("max() arg is an empty sequence"))
      else Ok(false)
  {
  }

  /** For a whole choice: a successfully scored choice is reported greedy
      exactly when its scored range, or the matching range of alternatives, is
      empty. */
  lemma ScoredChoiceGreedyOnlyWhenEmpty(choice: Choice, ctxlen: int)
    requires ScoreChoice(choice, ctxlen).Ok?
    ensures var lp := choice.logprobs.value;
      ScoreChoice(choice, ctxlen).value.isGreedy <==>
        Slice(lp.tokenLogprobs.value, ctxlen, -1) == [] || Slice(lp.topLogprobs.value, ctxlen, -1) == []
  {
  }

  /** The greatest log-probability among the alternatives: `max(top.values())`. */
  function MaxLogprob(top: TopDict): real
    requires top != []
  {
    top[FirstMaxIndex(top)].1
  }

  /** The evidently intended scan: a position is greedy when its entry equals
      the greatest log-probability among its alternatives (Python's `!=`
      between a number and a float compares values; anything else differs). */
  function GreedyScanIntended(tokens: seq<Value>, tops: seq<TopDict>): (r: Result<bool>)
    ensures r.Err? ==> r.error == ValueError("max() arg is an empty sequence")
    ensures tokens == [] || tops == [] ==> r == Ok(true)
    decreases |tokens|
  {
    if tokens == [] || tops == [] then Ok(true)
    else if tops[0] == [] then Err(ValueError("max() arg is an empty sequence"))
    else if Numeric(tokens[0]) != Ok(MaxLogprob(tops[0])) then Ok(false)
    else GreedyScanIntended(tokens[1..], tops[1..])
  }

  /** The scored token took the most probable alternative: its log-probability
      is one of the alternatives' and none of them is greater. */
  predicate TookBest(token: Value, top: TopDict) {
    top != [] && Numeric(token).Ok? &&
    (exists j :: 0 <= j < |top| && top[j].1 == Numeric(token).value) &&
    (forall j :: 0 <= j < |top| ==> top[j].1 <= Numeric(token).value)
  }

  /** The corrected scan reports greedy exactly when every zipped position
      took its most probable alternative. */
  lemma {:induction false} IntendedGreedyMeaning(tokens: seq<Value>, tops: seq<TopDict>)
    ensures GreedyScanIntended(tokens, tops) == Ok(true) <==>
      forall i :: 0 <= i < Min(|tokens|, |tops|) ==> TookBest(tokens[i], tops[i])
    decreases |tokens|
  {
    if tokens != [] && tops != [] {
      var n := Min(|tokens|, |tops|);
      IntendedGreedyMeaning(tokens[1..], tops[1..]);
      if tops[0] != [] {
        var j := FirstMaxIndex(tops[0]);
        assert Numeric(tokens[0]) == Ok(MaxLogprob(tops[0])) <==> TookBest(tokens[0], tops[0]) by {
          if TookBest(tokens[0], tops[0]) {
            var w :| 0 <= w < |tops[0]| && tops[0][w].1 == Numeric(tokens[0]).value;
            assert tops[0][w].1 <= tops[0][j].1;
          }
        }
      } else {
        assert !TookBest(tokens[0], tops[0]);
      }
      forall i | 1 <= i < n ensures tokens[i] == tokens[1..][i - 1] && tops[i] == tops[1..][i - 1] { }
      if forall i :: 0 <= i < n ==> TookBest(tokens[i], tops[i]) {
        assert TookBest(tokens[0], tops[0]);
        forall i | 0 <= i < n - 1 ensures TookBest(tokens[1..][i], tops[1..][i]) {
          assert TookBest(tokens[i + 1], tops[i + 1]);
        }
      }
    }
  }

  /** On entries [-1.0, -2.0, -0.5] with context length 1, where each entry is
      its position's best alternative, the sum is -2.0; the code as written
      calls the choice not greedy, the intended comparison calls it greedy. */
  lemma GreedyExample()
    ensures var tops: seq<TopDict> := [[("a", -1.0)], [("b", -2.0), ("c", -3.0)], [("d", -0.5)]];
      var choice := Choice(Some(Logprobs(Some([Float(-1.0), Float(-2.0), Float(-0.5)]), Some(tops))));
      ScoreChoice(choice, 1) == Ok(Score(-2.0, false)) &&
      GreedyScanIntended(Slice([Float(-1.0), Float(-2.0), Float(-0.5)], 1, -1), Slice(tops, 1, -1)) == Ok(true)
  {
  }
}
