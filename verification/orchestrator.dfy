/** The generation driver `main` (index.js:174-195): resolve defaults,
    check options, run the advisory validator, then generate the phrases. */
module Orchestrator {
  import opened Wrappers
  import opened Graphs
  import Options
  import Validator
  import Generator

  const DefaultNumWords: int := 5
  const DefaultMaxChars: int := 10
  const DefaultNumPhrases: int := 1

  /** The parsed command-line flags; an omitted flag is `None`. */
  datatype CliOptions = CliOptions(number: Option<int>, phrases: Option<int>, maxChars: Option<int>)

  /** The three counts after defaulting. */
  datatype Settings = Settings(numWords: int, numPhrases: int, maxChars: int)

  datatype RunError =
    /** "No phoneme set data provided!" */
    | NoPhonemeData
    | InvalidOption(option: Options.OptionError)
    /** `makePhrase` threw after the validator had already issued `warnings`. */
    | GenerationFailed(cause: Generator.GenError, warnings: seq<Validator.Diagnostic>)

  /** The phrases in generation order, and the validator's warnings. */
  datatype Output = Output(phrases: seq<Generator.Phrase>, warnings: seq<Validator.Diagnostic>)

  /** JavaScript's `a || fallback` on an optional number. */
  function Or(a: Option<int>, fallback: int): int {
    if Options.Truthy(a) then a.value else fallback
  }

  /** Default resolution: the positional count, else `--number`, else 5 words;
      `--phrases` else 1; `--maxChars` else 10.  A 0 counts as omitted. */
  function Resolve(numCharsArg: Option<int>, options: CliOptions): (s: Settings)
    ensures s.numWords != 0 && s.numPhrases != 0 && s.maxChars != 0
    ensures Options.Truthy(numCharsArg) ==> s.numWords == numCharsArg.value
    ensures !Options.Truthy(numCharsArg) && Options.Truthy(options.number) ==>
              s.numWords == options.number.value
    ensures !Options.Truthy(numCharsArg) && !Options.Truthy(options.number) ==>
              s.numWords == DefaultNumWords
    ensures s.numPhrases == if Options.Truthy(options.phrases) then options.phrases.value else DefaultNumPhrases
    ensures s.maxChars == if Options.Truthy(options.maxChars) then options.maxChars.value else DefaultMaxChars
  {
    Settings(Or(numCharsArg, Or(options.number, DefaultNumWords)),
             Or(options.phrases, DefaultNumPhrases),
             Or(options.maxChars, DefaultMaxChars))
  }

  function Check(s: Settings): Outcome<Options.OptionError> {
    Options.ValidateOptions(Some(s.numWords), Some(s.numPhrases), Some(s.maxChars))
  }

  /** After defaulting, the options are rejected exactly when some count is
      negative: an omitted or 0 count can no longer reach the guard. */
  lemma ResolvedRejectedIffNegative(numCharsArg: Option<int>, options: CliOptions)
    ensures var s := Resolve(numCharsArg, options);
            Check(s).Fail? <==> s.numWords < 0 || s.numPhrases < 0 || s.maxChars < 0
  {
  }

  /** `main` with the graph passed in (`None` for a missing graph) and the
      order in which `_.forEach` enumerates its keys. */
  method Run(numCharsArg: Option<int>, options: CliOptions, sets: Option<Graph>, keyOrder: seq<string>)
    returns (r: Result<Output, RunError>)
    requires sets.Some? ==> "" !in sets.value
    requires sets.Some? ==> IsKeyOrder(sets.value, keyOrder)
    ensures sets.None? <==> r == Err(NoPhonemeData)
    ensures sets.Some? && Check(Resolve(numCharsArg, options)).Fail? ==>
              r == Err(InvalidOption(Check(Resolve(numCharsArg, options)).error))
    ensures r.Ok? ==>
              var s := Resolve(numCharsArg, options);
              && Check(s).Pass?
              && |r.value.phrases| == Generator.Times(s.numPhrases)
              && forall i | 0 <= i < |r.value.phrases| ::
                   var words := r.value.phrases[i].words;
                   && |words| == Generator.Times(s.numWords)
                   && forall j | 0 <= j < |words| :: Generator.Sampled(sets.value, s.maxChars, words[j])
    ensures r.Ok? ==> r.value.warnings == Validator.ValidateAdjList(sets.value, keyOrder)
    ensures r.Ok? ==> (r.value.warnings == [] <==> Closed(sets.value))
    ensures r.Err? && r.error.InvalidOption? ==> Check(Resolve(numCharsArg, options)).Fail?
    ensures r.Err? && r.error.GenerationFailed? ==>
              && Generator.Times(Resolve(numCharsArg, options).numPhrases) >= 1
              && Generator.Times(Resolve(numCharsArg, options).numWords) >= 1
              && r.error.cause.Undefined?
              && Generator.Drawn(Resolve(numCharsArg, options).maxChars, r.error.cause.target)
              && Generator.StuckAt(sets.value, r.error.cause.target, r.error.cause.walk)
              && r.error.warnings == Validator.ValidateAdjList(sets.value, keyOrder)
              && Check(Resolve(numCharsArg, options)).Pass?
    ensures sets.Some? && WellFormed(sets.value) && Check(Resolve(numCharsArg, options)).Pass? ==>
              r.Ok?
  {
    var s := Resolve(numCharsArg, options);
    if sets.None? {
      return Err(NoPhonemeData);
    }
    var verdict := Options.ValidateOptions(Some(s.numWords), Some(s.numPhrases), Some(s.maxChars));
    if verdict.Fail? {
      return Err(InvalidOption(verdict.error));
    }
    var warnings := Validator.ValidateAdjList(sets.value, keyOrder);
    Validator.ValidateAdjListSilent(sets.value, keyOrder);
    var phrases: seq<Generator.Phrase> := [];
    while |phrases| < Generator.Times(s.numPhrases)
      invariant |phrases| <= Generator.Times(s.numPhrases)
      invariant forall i | 0 <= i < |phrases| ::
                  var words := phrases[i].words;
                  && |words| == Generator.Times(s.numWords)
                  && forall j | 0 <= j < |words| :: Generator.Sampled(sets.value, s.maxChars, words[j])
      decreases Generator.Times(s.numPhrases) - |phrases|
    {
      var p := Generator.MakePhrase(s.numWords, s.maxChars, sets);
      if p.Err? {
        return Err(GenerationFailed(p.error, warnings));
      }
      phrases := phrases + [p.value];
    }
    return Ok(Output(phrases, warnings));
  }
}
