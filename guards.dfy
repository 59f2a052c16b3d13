/**
 * The argument checks every generator runs before it draws: each public method of Lorem.cs
 * starts with a list of ArgumentOutOfRangeException.ThrowIf... calls, and the first one
 * that fails throws, naming the argument it checked.
 */
module Guards {
  import opened Wrappers

  /** One ThrowIf... call: it throws when `value` compares badly with `other`. */
  datatype Check =
    | ThrowIfLessThan(paramName: string, value: int, other: int)
    | ThrowIfLessThanOrEqual(paramName: string, value: int, other: int)
    | ThrowIfGreaterThan(paramName: string, value: int, other: int)
  {
    predicate Passes() {
      match this
      case ThrowIfLessThan(_, v, o) => v >= o
      case ThrowIfLessThanOrEqual(_, v, o) => v > o
      case ThrowIfGreaterThan(_, v, o) => v <= o
    }
  }

  predicate AllPass(checks: seq<Check>) {
    forall i :: 0 <= i < |checks| ==> checks[i].Passes()
  }

  /** Running the checks in order: nothing is thrown exactly when every check passes, and
      otherwise the exception names the first check that fails. */
  function FirstFailure(checks: seq<Check>): (e: Option<Error>)
    ensures e.None? <==> AllPass(checks)
    ensures e.Some? ==> exists i :: 0 <= i < |checks| && !checks[i].Passes() && AllPass(checks[..i])
                                    && e.value == ArgumentOutOfRange(checks[i].paramName)
  {
    if |checks| == 0 then None
    else if !checks[0].Passes() then
      assert AllPass(checks[..0]);
      Some(ArgumentOutOfRange(checks[0].paramName))
    else
      var e := FirstFailure(checks[1..]);
      if e.Some? then
        var i :| 0 <= i < |checks[1..]| && !checks[1..][i].Passes() && AllPass(checks[1..][..i])
                 && e.value == ArgumentOutOfRange(checks[1..][i].paramName);
        assert checks[..i + 1] == [checks[0]] + checks[1..][..i];
        e
      else
        e
  }

  /** A call whose checks failed returns the first failure and nothing else. */
  predicate RejectedBy<T>(checks: seq<Check>, r: Result<T>) {
    FirstFailure(checks).Some? && r == Failure(FirstFailure(checks).value)
  }

  function ChanceChecks(successes: int, attempts: int): (checks: seq<Check>)
    ensures AllPass(checks) <==> 0 <= successes <= attempts && 1 <= attempts
  {
    var checks := [ThrowIfLessThan("successes", successes, 0),
                   ThrowIfLessThan("attempts", attempts, 1),
                   ThrowIfGreaterThan("successes", successes, attempts)];
    assert AllPass(checks) <==> checks[0].Passes() && checks[1].Passes() && checks[2].Passes();
    checks
  }

  function HexNumberChecks(digits: int): (checks: seq<Check>)
    ensures AllPass(checks) <==> digits >= 1
  {
    var checks := [ThrowIfLessThanOrEqual("digits", digits, 0)];
    assert AllPass(checks) <==> checks[0].Passes();
    checks
  }

  function WordsExactChecks(wordCount: int): (checks: seq<Check>)
    ensures AllPass(checks) <==> wordCount >= 1
  {
    var checks := [ThrowIfLessThan("wordCount", wordCount, 1)];
    assert AllPass(checks) <==> checks[0].Passes();
    checks
  }

  function WordsChecks(wordCountMin: int, wordCountMax: int): (checks: seq<Check>)
    ensures AllPass(checks) <==> 1 <= wordCountMin <= wordCountMax
  {
    var checks := [ThrowIfLessThan("wordCountMin", wordCountMin, 1),
                   ThrowIfLessThan("wordCountMax", wordCountMax, 1),
                   ThrowIfLessThan("wordCountMax", wordCountMax, wordCountMin)];
    assert AllPass(checks) <==> checks[0].Passes() && checks[1].Passes() && checks[2].Passes();
    checks
  }

  /** Sentence(wordCount) runs the same check as Words(wordCount). */
  function SentenceExactChecks(wordCount: int): (checks: seq<Check>)
    ensures AllPass(checks) <==> wordCount >= 1
  {
    WordsExactChecks(wordCount)
  }

  /** Sentence(min, max) runs the same checks as Words(min, max). */
  function SentenceChecks(wordCountMin: int, wordCountMax: int): (checks: seq<Check>)
    ensures AllPass(checks) <==> 1 <= wordCountMin <= wordCountMax
  {
    WordsChecks(wordCountMin, wordCountMax)
  }

  function ParagraphExactChecks(wordCount: int, sentenceCount: int): (checks: seq<Check>)
    ensures AllPass(checks) <==> wordCount >= 1 && sentenceCount >= 1
  {
    var checks := [ThrowIfLessThan("wordCount", wordCount, 1),
                   ThrowIfLessThan("sentenceCount", sentenceCount, 1)];
    assert AllPass(checks) <==> checks[0].Passes() && checks[1].Passes();
    checks
  }

  function ParagraphWordRangeChecks(wordCountMin: int, wordCountMax: int, sentenceCount: int): (checks: seq<Check>)
    ensures AllPass(checks) <==> 1 <= wordCountMin <= wordCountMax && sentenceCount >= 1
  {
    var checks := [ThrowIfLessThan("wordCountMin", wordCountMin, 1),
                   ThrowIfLessThan("wordCountMax", wordCountMax, 1),
                   ThrowIfLessThan("sentenceCount", sentenceCount, 1),
                   ThrowIfLessThan("wordCountMax", wordCountMax, wordCountMin)];
    assert AllPass(checks) <==> checks[0].Passes() && checks[1].Passes() && checks[2].Passes() && checks[3].Passes();
    checks
  }

  function ParagraphChecks(wordCountMin: int, wordCountMax: int,
                           sentenceCountMin: int, sentenceCountMax: int): (checks: seq<Check>)
    ensures AllPass(checks) <==> 1 <= wordCountMin <= wordCountMax && 1 <= sentenceCountMin <= sentenceCountMax
  {
    var checks := [ThrowIfLessThan("wordCountMin", wordCountMin, 1),
                   ThrowIfLessThan("wordCountMax", wordCountMax, 1),
                   ThrowIfLessThan("sentenceCountMin", sentenceCountMin, 1),
                   ThrowIfLessThan("sentenceCountMax", sentenceCountMax, 1),
                   ThrowIfLessThan("wordCountMax", wordCountMax, wordCountMin),
                   ThrowIfLessThan("sentenceCountMax", sentenceCountMax, sentenceCountMin)];
    assert AllPass(checks) <==> checks[0].Passes() && checks[1].Passes() && checks[2].Passes() && checks[3].Passes() && checks[4].Passes() && checks[5].Passes();
    checks
  }

  function ParagraphsExactChecks(wordCount: int, sentenceCount: int, paragraphCount: int): (checks: seq<Check>)
    ensures AllPass(checks) <==> wordCount >= 1 && sentenceCount >= 1 && paragraphCount >= 1
  {
    var checks := [ThrowIfLessThan("wordCount", wordCount, 1),
                   ThrowIfLessThan("sentenceCount", sentenceCount, 1),
                   ThrowIfLessThan("paragraphCount", paragraphCount, 1)];
    assert AllPass(checks) <==> checks[0].Passes() && checks[1].Passes() && checks[2].Passes();
    checks
  }

  function ParagraphsWordRangeChecks(wordCountMin: int, wordCountMax: int,
                                     sentenceCount: int, paragraphCount: int): (checks: seq<Check>)
    ensures AllPass(checks) <==> 1 <= wordCountMin <= wordCountMax && sentenceCount >= 1 && paragraphCount >= 1
  {
    var checks := [ThrowIfLessThan("wordCountMin", wordCountMin, 1),
                   ThrowIfLessThan("wordCountMax", wordCountMax, 1),
                   ThrowIfLessThan("sentenceCount", sentenceCount, 1),
                   ThrowIfLessThan("paragraphCount", paragraphCount, 1),
                   ThrowIfLessThan("wordCountMax", wordCountMax, wordCountMin)];
    assert AllPass(checks) <==> checks[0].Passes() && checks[1].Passes() && checks[2].Passes() && checks[3].Passes() && checks[4].Passes();
    checks
  }

  function ParagraphsSentenceRangeChecks(wordCountMin: int, wordCountMax: int,
                                         sentenceCountMin: int, sentenceCountMax: int,
                                         paragraphCount: int): (checks: seq<Check>)
    ensures AllPass(checks) <==> 1 <= wordCountMin <= wordCountMax && 1 <= sentenceCountMin <= sentenceCountMax
                                 && paragraphCount >= 1
  {
    var checks := [ThrowIfLessThan("wordCountMin", wordCountMin, 1),
                   ThrowIfLessThan("wordCountMax", wordCountMax, 1),
                   ThrowIfLessThan("sentenceCountMin", sentenceCountMin, 1),
                   ThrowIfLessThan("sentenceCountMax", sentenceCountMax, 1),
                   ThrowIfLessThan("paragraphCount", paragraphCount, 1),
                   ThrowIfLessThan("wordCountMax", wordCountMax, wordCountMin),
                   ThrowIfLessThan("sentenceCountMax", sentenceCountMax, sentenceCountMin)];
    assert AllPass(checks) <==> checks[0].Passes() && checks[1].Passes() && checks[2].Passes() && checks[3].Passes() && checks[4].Passes() && checks[5].Passes() && checks[6].Passes();
    checks
  }

  function ParagraphsChecks(wordCountMin: int, wordCountMax: int,
                            sentenceCountMin: int, sentenceCountMax: int,
                            paragraphCountMin: int, paragraphCountMax: int): (checks: seq<Check>)
    ensures AllPass(checks) <==> 1 <= wordCountMin <= wordCountMax && 1 <= sentenceCountMin <= sentenceCountMax
                                 && 1 <= paragraphCountMin <= paragraphCountMax
  {
    var checks := [ThrowIfLessThan("wordCountMin", wordCountMin, 1),
                   ThrowIfLessThan("wordCountMax", wordCountMax, 1),
                   ThrowIfLessThan("sentenceCountMin", sentenceCountMin, 1),
                   ThrowIfLessThan("sentenceCountMax", sentenceCountMax, 1),
                   ThrowIfLessThan("paragraphCountMin", paragraphCountMin, 1),
                   ThrowIfLessThan("paragraphCountMax", paragraphCountMax, 1),
                   ThrowIfLessThan("wordCountMax", wordCountMax, wordCountMin),
                   ThrowIfLessThan("sentenceCountMax", sentenceCountMax, sentenceCountMin),
                   ThrowIfLessThan("paragraphCountMax", paragraphCountMax, paragraphCountMin)];
    assert AllPass(checks) <==> checks[0].Passes() && checks[1].Passes() && checks[2].Passes() && checks[3].Passes() && checks[4].Passes() && checks[5].Passes() && checks[6].Passes() && checks[7].Passes() && checks[8].Passes();
    checks
  }

  /** Each overload that takes a single count accepts exactly the arguments that the
      two-bound form accepts when both bounds equal that count. */
  lemma ExactOverloadsAgree(wordCount: int, wordCountMin: int, wordCountMax: int,
                            sentenceCount: int, sentenceCountMin: int, sentenceCountMax: int,
                            paragraphCount: int)
    ensures AllPass(WordsExactChecks(wordCount)) <==> AllPass(WordsChecks(wordCount, wordCount))
    ensures AllPass(SentenceExactChecks(wordCount)) <==> AllPass(SentenceChecks(wordCount, wordCount))
    ensures AllPass(ParagraphExactChecks(wordCount, sentenceCount))
            <==> AllPass(ParagraphChecks(wordCount, wordCount, sentenceCount, sentenceCount))
    ensures AllPass(ParagraphWordRangeChecks(wordCountMin, wordCountMax, sentenceCount))
            <==> AllPass(ParagraphChecks(wordCountMin, wordCountMax, sentenceCount, sentenceCount))
    ensures AllPass(ParagraphsExactChecks(wordCount, sentenceCount, paragraphCount))
            <==> AllPass(ParagraphsChecks(wordCount, wordCount, sentenceCount, sentenceCount, paragraphCount, paragraphCount))
    ensures AllPass(ParagraphsWordRangeChecks(wordCountMin, wordCountMax, sentenceCount, paragraphCount))
            <==> AllPass(ParagraphsChecks(wordCountMin, wordCountMax, sentenceCount, sentenceCount, paragraphCount, paragraphCount))
    ensures AllPass(ParagraphsSentenceRangeChecks(wordCountMin, wordCountMax, sentenceCountMin, sentenceCountMax, paragraphCount))
            <==> AllPass(ParagraphsChecks(wordCountMin, wordCountMax, sentenceCountMin, sentenceCountMax, paragraphCount, paragraphCount))
  {
  }
}
