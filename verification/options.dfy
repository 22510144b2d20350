/** The option guard run before any phrase is generated (index.js:15-25). */
module Options {
  import opened Wrappers

  /** The three "Invalid number of ..." errors; each carries the value it rejected. */
  datatype OptionError =
    | InvalidWords(words: Option<int>)
    | InvalidPhrases(phrases: Option<int>)
    | InvalidMaxChars(maxChars: Option<int>)

  /** JavaScript truthiness of an optional number: absent and 0 are falsy. */
  predicate Truthy(v: Option<int>) {
    v.Some? && v.value != 0
  }

  /** Present and at least `bound`. */
  predicate AtLeast(v: Option<int>, bound: int) {
    v.Some? && v.value >= bound
  }

  /** Throws on the first of: falsy or negative word count, falsy or
      sub-one phrase count, falsy or sub-one maximum word length.  Since 0 is
      falsy, each count is accepted exactly when it is present and positive. */
  function ValidateOptions(numWords: Option<int>, numPhrases: Option<int>, maxChars: Option<int>)
    : (r: Outcome<OptionError>)
    ensures r.Pass? <==> AtLeast(numWords, 1) && AtLeast(numPhrases, 1) && AtLeast(maxChars, 1)
    ensures r == Fail(InvalidWords(numWords)) <==> !AtLeast(numWords, 1)
    ensures r == Fail(InvalidPhrases(numPhrases)) <==>
              AtLeast(numWords, 1) && !AtLeast(numPhrases, 1)
    ensures r == Fail(InvalidMaxChars(maxChars)) <==>
              AtLeast(numWords, 1) && AtLeast(numPhrases, 1) && !AtLeast(maxChars, 1)
  {
    if !Truthy(numWords) || numWords.value < 0 then Fail(InvalidWords(numWords))
    else if !Truthy(numPhrases) || numPhrases.value < 1 then Fail(InvalidPhrases(numPhrases))
    else if !Truthy(maxChars) || maxChars.value < 1 then Fail(InvalidMaxChars(maxChars))
    else Pass
  }
}
