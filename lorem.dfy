/**
 * The generators of Lorem.cs. Each is a method that consumes draws from the shared random
 * source: it first runs its argument checks, throwing (returning Failure) before any draw,
 * then draws and shapes the text with the functions of module Shaping. Single-count
 * overloads check their own arguments and forward to the two-bound form with min == max.
 */
module Lorem {
  import opened Wrappers
  import opened Text
  import Extensions
  import opened Randomness
  import opened Guards
  import opened Shaping

  /** Chance(successes, attempts): true `successes` times out of `attempts`. */
  method Chance(rng: RandomSource, successes: int, attempts: int) returns (r: Result<bool>, ghost draw: int)
    modifies rng
    ensures !AllPass(ChanceChecks(successes, attempts)) ==>
              RejectedBy(ChanceChecks(successes, attempts), r) && unchanged(rng)
    ensures AllPass(ChanceChecks(successes, attempts)) ==>
              1 <= draw <= attempts && r == Success(ChanceOutcome(successes, draw))
              && (successes == 0 ==> r == Success(false))
              && (successes == attempts ==> r == Success(true))
              && rng.calls == old(rng.calls) + 1
  {
    var failure := FirstFailure(ChanceChecks(successes, attempts));
    if failure.Some? {
      r, draw := Failure(failure.value), 0;
      return;
    }
    ChanceNextArgsSound(attempts);
    var (lo, hi) := ChanceNextArgs(attempts);
    var number := rng.Next(lo, hi);
    draw := number;
    r := Success(number <= successes);
  }

  /** HexNumber(digits): `digits` upper-case hexadecimal digits, two per random byte and one
      more from Next(16) when `digits` is odd. */
  method HexNumber(rng: RandomSource, digits: int) returns (r: Result<string>, ghost bytes: seq<byte>)
    modifies rng
    ensures !AllPass(HexNumberChecks(digits)) ==> RejectedBy(HexNumberChecks(digits), r) && unchanged(rng)
    ensures AllPass(HexNumberChecks(digits)) ==>
              r.Success? && |r.value| == digits && IsHexString(r.value)
              && |bytes| == digits / 2
              && r.value[..2 * |bytes|] == HexOfBytes(bytes)
              && ParseHexBytes(r.value[..2 * |bytes|]) == bytes
              && rng.calls == old(rng.calls) + 1 + digits % 2
  {
    var failure := FirstFailure(HexNumberChecks(digits));
    if failure.Some? {
      r, bytes := Failure(failure.value), [];
      return;
    }
    var buffer := new byte[digits / 2];
    rng.NextBytes(buffer);
    bytes := buffer[..];
    var result := HexOfBytes(buffer[..]);
    HexRoundTrip(bytes);
    if digits % 2 == 0 {
      r := Success(result);
      return;
    }
    var nibble := rng.Next(0, 16);
    r := Success(result + [HexDigit(nibble)]);
    assert r.value[..2 * |bytes|] == result;
  }

  /** Letter(): a lower-case letter. */
  method Letter(rng: RandomSource) returns (c: char)
    modifies rng
    ensures 'a' <= c <= 'z'
    ensures rng.calls == old(rng.calls) + 1
  {
    var charNumber := rng.Next(0, 26);
    c := ('a' as int + charNumber) as char;
  }

  /** Random(items): an element of a non-null, non-empty array. */
  method Random<T>(rng: RandomSource, items: array?<T>) returns (r: Result<T>, ghost index: int)
    modifies rng
    ensures items == null ==> r == Failure(ArgumentNull("items")) && unchanged(rng)
    ensures items != null && items.Length < 1 ==>
              r == Failure(ArgumentOutOfRange("items.Length")) && unchanged(rng)
    ensures items != null && items.Length >= 1 ==>
              0 <= index < items.Length && r == Success(items[index])
              && rng.calls == old(rng.calls) + 1
  {
    if items == null {
      r, index := Failure(ArgumentNull("items")), 0;
      return;
    }
    var failure := FirstFailure([ThrowIfLessThan("items.Length", items.Length, 1)]);
    if failure.Some? {
      r, index := Failure(failure.value), 0;
      return;
    }
    var i := rng.Next(0, items.Length);
    index := i;
    r := Success(items[i]);
  }

  /** Enum<TEnum>(): one of the values Enum.GetValues returns, given here as `values`.
      For an enum without members Next(0) returns 0 and indexing the empty array throws. */
  method Enum<T>(rng: RandomSource, values: seq<T>) returns (r: Result<T>, ghost index: int)
    modifies rng
    ensures |values| == 0 ==> r == Failure(IndexOutOfRange)
    ensures |values| > 0 ==> 0 <= index < |values| && r == Success(values[index])
    ensures rng.calls == old(rng.calls) + 1
  {
    var i := rng.Next(0, |values|);
    index := i;
    if i < |values| {
      r := Success(values[i]);
    } else {
      r := Failure(IndexOutOfRange);
    }
  }

  /** Words(wordCountMin, wordCountMax, uppercaseFirstLetter, includePunctuation). */
  method Words(rng: RandomSource, source: WordSource, wordCountMin: int, wordCountMax: int,
               uppercaseFirstLetter: bool, includePunctuation: bool)
    returns (r: Result<string>, ghost count: int)
    modifies rng
    ensures !AllPass(WordsChecks(wordCountMin, wordCountMax)) ==>
              RejectedBy(WordsChecks(wordCountMin, wordCountMax), r) && unchanged(rng)
    ensures AllPass(WordsChecks(wordCountMin, wordCountMax)) ==>
              InDraw(wordCountMin, wordCountMax, count)
              && r == Success(WordsText(source.WordList(includePunctuation), count, uppercaseFirstLetter))
              && rng.calls == old(rng.calls) + 1
  {
    var failure := FirstFailure(WordsChecks(wordCountMin, wordCountMax));
    if failure.Some? {
      r, count := Failure(failure.value), 0;
      return;
    }
    var n := rng.Next(wordCountMin, wordCountMax);
    count := n;
    var text := Join(" ", Take(source.WordList(includePunctuation), n));
    if uppercaseFirstLetter {
      text := Extensions.UppercaseFirst(Some(text)).value;
    }
    r := Success(text);
  }

  /** Words(wordCount, uppercaseFirstLetter, includePunctuation): exactly `wordCount` words. */
  method WordsExact(rng: RandomSource, source: WordSource, wordCount: int,
                    uppercaseFirstLetter: bool, includePunctuation: bool)
    returns (r: Result<string>)
    modifies rng
    ensures !AllPass(WordsExactChecks(wordCount)) ==>
              RejectedBy(WordsExactChecks(wordCount), r) && unchanged(rng)
    ensures AllPass(WordsExactChecks(wordCount)) ==>
              r == Success(WordsText(source.WordList(includePunctuation), wordCount, uppercaseFirstLetter))
              && rng.calls == old(rng.calls) + 1
  {
    var failure := FirstFailure(WordsExactChecks(wordCount));
    if failure.Some? {
      r := Failure(failure.value);
      return;
    }
    ghost var count;
    r, count := Words(rng, source, wordCount, wordCount, uppercaseFirstLetter, includePunctuation);
  }

  /** Sentence(wordCountMin, wordCountMax): capitalised, punctuated words closed by a period,
      then the ",." and ".." cleanup. */
  method Sentence(rng: RandomSource, source: WordSource, wordCountMin: int, wordCountMax: int)
    returns (r: Result<string>, ghost count: int)
    modifies rng
    ensures !AllPass(SentenceChecks(wordCountMin, wordCountMax)) ==>
              RejectedBy(SentenceChecks(wordCountMin, wordCountMax), r) && unchanged(rng)
    ensures AllPass(SentenceChecks(wordCountMin, wordCountMax)) ==>
              InDraw(wordCountMin, wordCountMax, count)
              && r == Success(SentenceText(WordsText(source.punctuated, count, true)))
              && !Contains(r.value, "..")
              && rng.calls == old(rng.calls) + 1
  {
    var failure := FirstFailure(SentenceChecks(wordCountMin, wordCountMax));
    if failure.Some? {
      r, count := Failure(failure.value), 0;
      return;
    }
    var words;
    words, count := Words(rng, source, wordCountMin, wordCountMax, true, true);
    assert words.Success?;
    var fixedCommas := Replace(words.value + ".", ",.", ".");
    r := Extensions.Remove(Some(fixedCommas), Some(".."));
    SentenceHasNoDoubleDot(words.value);
  }

  /** Sentence(wordCount): exactly `wordCount` words. */
  method SentenceExact(rng: RandomSource, source: WordSource, wordCount: int) returns (r: Result<string>)
    modifies rng
    ensures !AllPass(SentenceExactChecks(wordCount)) ==>
              RejectedBy(SentenceExactChecks(wordCount), r) && unchanged(rng)
    ensures AllPass(SentenceExactChecks(wordCount)) ==>
              r == Success(SentenceText(WordsText(source.punctuated, wordCount, true)))
              && rng.calls == old(rng.calls) + 1
  {
    var failure := FirstFailure(SentenceExactChecks(wordCount));
    if failure.Some? {
      r := Failure(failure.value);
      return;
    }
    ghost var count;
    r, count := Sentence(rng, source, wordCount, wordCount);
  }

  /** Paragraph(wordCountMin, wordCountMax, sentenceCountMin, sentenceCountMax): a drawn
      number of sentences, each drawing its own word count, joined by spaces and trimmed.
      `wordCounts` records the draws: one entry per sentence. */
  method Paragraph(rng: RandomSource, source: WordSource, wordCountMin: int, wordCountMax: int,
                   sentenceCountMin: int, sentenceCountMax: int)
    returns (r: Result<string>, ghost wordCounts: seq<int>)
    modifies rng
    ensures !AllPass(ParagraphChecks(wordCountMin, wordCountMax, sentenceCountMin, sentenceCountMax)) ==>
              RejectedBy(ParagraphChecks(wordCountMin, wordCountMax, sentenceCountMin, sentenceCountMax), r)
              && unchanged(rng)
    ensures AllPass(ParagraphChecks(wordCountMin, wordCountMax, sentenceCountMin, sentenceCountMax)) ==>
              InDraw(sentenceCountMin, sentenceCountMax, |wordCounts|)
              && (forall i :: 0 <= i < |wordCounts| ==> InDraw(wordCountMin, wordCountMax, wordCounts[i]))
              && r == Success(ParagraphText(SentencesOf(source.punctuated, wordCounts)))
              && rng.calls == old(rng.calls) + 1 + |wordCounts|
  {
    var failure := FirstFailure(ParagraphChecks(wordCountMin, wordCountMax, sentenceCountMin, sentenceCountMax));
    if failure.Some? {
      r, wordCounts := Failure(failure.value), [];
      return;
    }
    var n := rng.Next(sentenceCountMin, sentenceCountMax);
    var sentences: seq<string> := [];
    wordCounts := [];
    while |sentences| < n
      invariant |sentences| == |wordCounts| <= n
      invariant sentences == SentencesOf(source.punctuated, wordCounts)
      invariant forall i :: 0 <= i < |wordCounts| ==> InDraw(wordCountMin, wordCountMax, wordCounts[i])
      invariant rng.calls == old(rng.calls) + 1 + |wordCounts|
      decreases n - |sentences|
    {
      var sentence;
      ghost var count;
      sentence, count := Sentence(rng, source, wordCountMin, wordCountMax);
      assert sentence.Success?;
      sentences := sentences + [sentence.value];
      wordCounts := wordCounts + [count];
    }
    r := Success(Trim(Join(" ", sentences)));
  }

  /** Paragraph(wordCount, sentenceCount). */
  method ParagraphExact(rng: RandomSource, source: WordSource, wordCount: int, sentenceCount: int)
    returns (r: Result<string>, ghost wordCounts: seq<int>)
    modifies rng
    ensures !AllPass(ParagraphExactChecks(wordCount, sentenceCount)) ==>
              RejectedBy(ParagraphExactChecks(wordCount, sentenceCount), r) && unchanged(rng)
    ensures AllPass(ParagraphExactChecks(wordCount, sentenceCount)) ==>
              |wordCounts| == sentenceCount
              && (forall i :: 0 <= i < |wordCounts| ==> wordCounts[i] == wordCount)
              && r == Success(ParagraphText(SentencesOf(source.punctuated, wordCounts)))
              && rng.calls == old(rng.calls) + 1 + sentenceCount
  {
    var failure := FirstFailure(ParagraphExactChecks(wordCount, sentenceCount));
    if failure.Some? {
      r, wordCounts := Failure(failure.value), [];
      return;
    }
    r, wordCounts := Paragraph(rng, source, wordCount, wordCount, sentenceCount, sentenceCount);
  }

  /** Paragraph(wordCountMin, wordCountMax, sentenceCount). */
  method ParagraphWordRange(rng: RandomSource, source: WordSource, wordCountMin: int, wordCountMax: int,
                            sentenceCount: int)
    returns (r: Result<string>, ghost wordCounts: seq<int>)
    modifies rng
    ensures !AllPass(ParagraphWordRangeChecks(wordCountMin, wordCountMax, sentenceCount)) ==>
              RejectedBy(ParagraphWordRangeChecks(wordCountMin, wordCountMax, sentenceCount), r) && unchanged(rng)
    ensures AllPass(ParagraphWordRangeChecks(wordCountMin, wordCountMax, sentenceCount)) ==>
              |wordCounts| == sentenceCount
              && (forall i :: 0 <= i < |wordCounts| ==> InDraw(wordCountMin, wordCountMax, wordCounts[i]))
              && r == Success(ParagraphText(SentencesOf(source.punctuated, wordCounts)))
              && rng.calls == old(rng.calls) + 1 + sentenceCount
  {
    var failure := FirstFailure(ParagraphWordRangeChecks(wordCountMin, wordCountMax, sentenceCount));
    if failure.Some? {
      r, wordCounts := Failure(failure.value), [];
      return;
    }
    r, wordCounts := Paragraph(rng, source, wordCountMin, wordCountMax, sentenceCount, sentenceCount);
  }

  /** Paragraphs(wordCountMin, wordCountMax, sentenceCountMin, sentenceCountMax,
      paragraphCountMin, paragraphCountMax): a drawn number of paragraphs, each drawing its
      own sentence and word counts. `plan[i]` records the word counts of paragraph i. */
  method Paragraphs(rng: RandomSource, source: WordSource, wordCountMin: int, wordCountMax: int,
                    sentenceCountMin: int, sentenceCountMax: int,
                    paragraphCountMin: int, paragraphCountMax: int)
    returns (r: Result<seq<string>>, ghost plan: seq<seq<int>>)
    modifies rng
    ensures !AllPass(ParagraphsChecks(wordCountMin, wordCountMax, sentenceCountMin, sentenceCountMax,
                                      paragraphCountMin, paragraphCountMax)) ==>
              RejectedBy(ParagraphsChecks(wordCountMin, wordCountMax, sentenceCountMin, sentenceCountMax,
                                          paragraphCountMin, paragraphCountMax), r)
              && unchanged(rng)
    ensures AllPass(ParagraphsChecks(wordCountMin, wordCountMax, sentenceCountMin, sentenceCountMax,
                                     paragraphCountMin, paragraphCountMax)) ==>
              InDraw(paragraphCountMin, paragraphCountMax, |plan|)
              && (forall i :: 0 <= i < |plan| ==> InDraw(sentenceCountMin, sentenceCountMax, |plan[i]|))
              && (forall i, j :: 0 <= i < |plan| && 0 <= j < |plan[i]| ==>
                                   InDraw(wordCountMin, wordCountMax, plan[i][j]))
              && r == Success(ParagraphsOf(source.punctuated, plan))
              && |r.value| == |plan|
              && rng.calls == old(rng.calls) + 1 + DrawsFor(plan)
  {
    var failure := FirstFailure(ParagraphsChecks(wordCountMin, wordCountMax, sentenceCountMin, sentenceCountMax,
                                                 paragraphCountMin, paragraphCountMax));
    if failure.Some? {
      r, plan := Failure(failure.value), [];
      return;
    }
    var n := rng.Next(paragraphCountMin, paragraphCountMax);
    var paragraphs: seq<string> := [];
    plan := [];
    while |paragraphs| < n
      invariant |paragraphs| == |plan| <= n
      invariant paragraphs == ParagraphsOf(source.punctuated, plan)
      invariant forall i :: 0 <= i < |plan| ==> InDraw(sentenceCountMin, sentenceCountMax, |plan[i]|)
      invariant forall i, j :: 0 <= i < |plan| && 0 <= j < |plan[i]| ==>
                                 InDraw(wordCountMin, wordCountMax, plan[i][j])
      invariant rng.calls == old(rng.calls) + 1 + DrawsFor(plan)
      decreases n - |paragraphs|
    {
      var paragraph;
      ghost var wordCounts;
      paragraph, wordCounts := Paragraph(rng, source, wordCountMin, wordCountMax, sentenceCountMin, sentenceCountMax);
      PlanExtends(source.punctuated, plan, wordCounts);
      paragraphs := paragraphs + [paragraph.value];
      plan := plan + [wordCounts];
    }
    r := Success(paragraphs);
  }

  /** Paragraphs(wordCount, sentenceCount, paragraphCount). */
  method ParagraphsExact(rng: RandomSource, source: WordSource, wordCount: int, sentenceCount: int,
                         paragraphCount: int)
    returns (r: Result<seq<string>>, ghost plan: seq<seq<int>>)
    modifies rng
    ensures !AllPass(ParagraphsExactChecks(wordCount, sentenceCount, paragraphCount)) ==>
              RejectedBy(ParagraphsExactChecks(wordCount, sentenceCount, paragraphCount), r) && unchanged(rng)
    ensures AllPass(ParagraphsExactChecks(wordCount, sentenceCount, paragraphCount)) ==>
              |plan| == paragraphCount
              && (forall i :: 0 <= i < |plan| ==> |plan[i]| == sentenceCount)
              && (forall i, j :: 0 <= i < |plan| && 0 <= j < |plan[i]| ==> plan[i][j] == wordCount)
              && r == Success(ParagraphsOf(source.punctuated, plan))
              && rng.calls == old(rng.calls) + 1 + DrawsFor(plan)
  {
    var failure := FirstFailure(ParagraphsExactChecks(wordCount, sentenceCount, paragraphCount));
    if failure.Some? {
      r, plan := Failure(failure.value), [];
      return;
    }
    r, plan := Paragraphs(rng, source, wordCount, wordCount, sentenceCount, sentenceCount,
                          paragraphCount, paragraphCount);
  }

  /** Paragraphs(wordCountMin, wordCountMax, sentenceCount, paragraphCount). */
  method ParagraphsWordRange(rng: RandomSource, source: WordSource, wordCountMin: int, wordCountMax: int,
                             sentenceCount: int, paragraphCount: int)
    returns (r: Result<seq<string>>, ghost plan: seq<seq<int>>)
    modifies rng
    ensures !AllPass(ParagraphsWordRangeChecks(wordCountMin, wordCountMax, sentenceCount, paragraphCount)) ==>
              RejectedBy(ParagraphsWordRangeChecks(wordCountMin, wordCountMax, sentenceCount, paragraphCount), r)
              && unchanged(rng)
    ensures AllPass(ParagraphsWordRangeChecks(wordCountMin, wordCountMax, sentenceCount, paragraphCount)) ==>
              |plan| == paragraphCount
              && (forall i :: 0 <= i < |plan| ==> |plan[i]| == sentenceCount)
              && (forall i, j :: 0 <= i < |plan| && 0 <= j < |plan[i]| ==>
                                   InDraw(wordCountMin, wordCountMax, plan[i][j]))
              && r == Success(ParagraphsOf(source.punctuated, plan))
              && rng.calls == old(rng.calls) + 1 + DrawsFor(plan)
  {
    var failure := FirstFailure(ParagraphsWordRangeChecks(wordCountMin, wordCountMax, sentenceCount, paragraphCount));
    if failure.Some? {
      r, plan := Failure(failure.value), [];
      return;
    }
    r, plan := Paragraphs(rng, source, wordCountMin, wordCountMax, sentenceCount, sentenceCount,
                          paragraphCount, paragraphCount);
  }

  /** Paragraphs(wordCountMin, wordCountMax, sentenceCountMin, sentenceCountMax, paragraphCount). */
  method ParagraphsSentenceRange(rng: RandomSource, source: WordSource, wordCountMin: int, wordCountMax: int,
                                 sentenceCountMin: int, sentenceCountMax: int, paragraphCount: int)
    returns (r: Result<seq<string>>, ghost plan: seq<seq<int>>)
    modifies rng
    ensures !AllPass(ParagraphsSentenceRangeChecks(wordCountMin, wordCountMax, sentenceCountMin,
                                                   sentenceCountMax, paragraphCount)) ==>
              RejectedBy(ParagraphsSentenceRangeChecks(wordCountMin, wordCountMax, sentenceCountMin,
                                                       sentenceCountMax, paragraphCount), r)
              && unchanged(rng)
    ensures AllPass(ParagraphsSentenceRangeChecks(wordCountMin, wordCountMax, sentenceCountMin,
                                                  sentenceCountMax, paragraphCount)) ==>
              |plan| == paragraphCount
              && (forall i :: 0 <= i < |plan| ==> InDraw(sentenceCountMin, sentenceCountMax, |plan[i]|))
              && (forall i, j :: 0 <= i < |plan| && 0 <= j < |plan[i]| ==>
                                   InDraw(wordCountMin, wordCountMax, plan[i][j]))
              && r == Success(ParagraphsOf(source.punctuated, plan))
              && rng.calls == old(rng.calls) + 1 + DrawsFor(plan)
  {
    var failure := FirstFailure(ParagraphsSentenceRangeChecks(wordCountMin, wordCountMax, sentenceCountMin,
                                                              sentenceCountMax, paragraphCount));
    if failure.Some? {
      r, plan := Failure(failure.value), [];
      return;
    }
    r, plan := Paragraphs(rng, source, wordCountMin, wordCountMax, sentenceCountMin, sentenceCountMax,
                          paragraphCount, paragraphCount);
  }

  /** Email(): "{word}@{word}.com" from two one-word, uncapitalised, unpunctuated Words calls. */
  method Email(rng: RandomSource, source: WordSource) returns (address: string)
    modifies rng
    ensures address == EmailText(WordsText(source.plain, 1, false), WordsText(source.plain, 1, false))
    ensures rng.calls == old(rng.calls) + 2
  {
    var user := WordsExact(rng, source, 1, false, false);
    var domain := WordsExact(rng, source, 1, false, false);
    assert user.Success? && domain.Success?;
    address := user.value + "@" + domain.value + ".com";
  }
}
