# Lorem.NET in Dafny

A model of the placeholder-text generator `Lorem` (Lorem.Net/Lorem.cs) and its string helpers
(Lorem.Net/Extensions.cs). The library draws counts from `System.Random.Shared` and words from
`Source.WordList`. It builds words, then sentences from words, then paragraphs from sentences,
then lists of paragraphs. It also has small random helpers: `Chance`, `HexNumber`, `Letter`,
`Random<T>`, `Enum<TEnum>` and `Email`.

Modules, one per file:

- `Wrappers` (wrappers.dfy): `Option`, `Result` and `Error`. `Error` names the exception a call
  throws and the parameter it names.
- `Text` (text.dfy): the parts of `System.String` the library uses, all ordinal:
  `Replace`, `Split` with one separator and `StringSplitOptions.None`, `Join`, `Trim`,
  `char.IsWhiteSpace`, and `char.ToUpper` restricted to ASCII. Includes the lemmas that connect them.
- `Extensions` (extensions.dfy): `Remove`, `Split` and `UppercaseFirst`. A nullable C# string is an
  `Option<string>`. Each helper returns its value or the exception it throws.
- `Randomness` (randomness.dfy): `RandomSource`, a class that stands for `System.Random.Shared`.
  `Next(min, max)` promises only `min <= r < max`, or `r == min` when the bounds are equal.
  `NextBytes` may overwrite the buffer and promises nothing about the bytes. The field `calls` counts the draws.
- `Guards` (guards.dfy): the `ArgumentOutOfRangeException.ThrowIf…` lists at the head of every
  generator that takes counts. The first failing check throws and names its argument.
- `Shaping` (shaping.dfy): the deterministic text shaping, as functions of the drawn counts.
  Also holds the hexadecimal formatting, the e-mail format and the `Chance` arithmetic.
- `Lorem` (lorem.dfy): the generators as methods over a `RandomSource`, one per overload. Each runs
  its checks before its first draw, then draws and shapes. Ghost out-parameters record the counts
  it drew.

Notes on what the source does:

- `Chance` draws `Next(1, attempts + 1)`, a draw in `[1, attempts]`.
- `Words`, `Paragraph` and `Paragraphs` draw their counts with `Next(min, max)`, which excludes
  `max` unless `min == max`.
- `Sentence` appends `"."`, replaces `",."` by `"."`, and then removes `".."` in one left-to-right
  pass.
- For an enum without members, `Enum<TEnum>` evaluates `v[Next(0)]` on an empty array and throws
  `IndexOutOfRangeException`.

## Model

| member | source | states |
|---|---|---|
| Text.ToUpper | Lorem.Net/Extensions.cs:81 | the result is never a lower-case ASCII letter; a lower-case letter becomes its capital, anything else is kept |
| Text.MatchCountZeroIffAbsent | Lorem.Net/Extensions.cs:36 | the left-to-right scan finds no match exactly when the pattern occurs nowhere in the string (both directions) |
| Text.MatchCount | Lorem.Net/Extensions.cs:36 | the number of matches that String.Replace's leftmost, non-overlapping scan finds; its meaning is stated by `Text.MatchCountZeroIffAbsent` and `Text.SplitCount` |
| Text.Replace | Lorem.Net/Extensions.cs:36 | ordinal String.Replace: each leftmost, non-overlapping match is replaced, scanning on after it; its properties are `Text.ReplaceLength`, `Text.ReplaceWithoutMatch` and `Text.ReplaceIsJoinOfSplit` |
| Text.Split | Lorem.Net/Extensions.cs:58 | String.Split with one separator and StringSplitOptions.None: the pieces between leftmost, non-overlapping matches, empty pieces kept, at least one piece; an empty separator leaves the string whole |
| Text.Join | Lorem.Net/Lorem.cs:452 | String.Join: the values with the separator between neighbours, `""` for no values; `Text.SplitJoinRoundTrip` and `Text.JoinSplitRoundTrip` relate it to `Split` |
| Text.IsWhiteSpace | Lorem.Net/Lorem.cs:229 | the characters char.IsWhiteSpace accepts, which are what String.Trim removes: U+0009 to U+000D, space, U+0085, U+00A0 and the Unicode space, line and paragraph separators |
| Text.ReplaceLength | Lorem.Net/Extensions.cs:36 | `Replace` changes the length by `(|new| - |old|)` per non-overlapping match |
| Text.ReplaceWithoutMatch | Lorem.Net/Lorem.cs:383 | `Replace` returns its input unchanged when the pattern does not occur |
| Text.ReplaceIsJoinOfSplit | Lorem.Net/Extensions.cs:36 | `Replace(s, p, r)` equals splitting `s` at `p` and joining with `r` |
| Text.SplitJoinRoundTrip | Lorem.Net/Extensions.cs:58 | joining the pieces of `Split(s, sep)` with `sep` gives back `s` |
| Text.SplitCount | Lorem.Net/Extensions.cs:58 | `Split` yields one more piece than there are non-overlapping separator matches |
| Text.JoinSplitRoundTrip | Lorem.Net/Lorem.cs:452 | with a one-character separator that no value contains, `Split` undoes `Join` |
| Text.JoinEnds | Lorem.Net/Lorem.cs:227 | a join of non-empty values starts with the first value's first character and ends with the last value's last character |
| Text.JoinAvoidsChar | Lorem.Net/Lorem.cs:452 | a character absent from the separator and from every value is absent from the join |
| Text.TrimStart | Lorem.Net/Lorem.cs:229 | the result is a suffix of the input, only white space was dropped, and it does not start with white space |
| Text.TrimEnd | Lorem.Net/Lorem.cs:229 | the result is a prefix of the input, only white space was dropped, and it does not end with white space |
| Text.Trim | Lorem.Net/Lorem.cs:229 | the result neither starts nor ends with white space |
| Text.TrimKeepsMiddle | Lorem.Net/Lorem.cs:229 | `Trim` returns a contiguous middle part of its input with only white space before and after it |
| Text.TrimOfTrimmed | Lorem.Net/Lorem.cs:229 | `Trim` leaves a string alone when neither end is white space |
| Extensions.Remove | Lorem.Net/Extensions.cs:24-37 | null `s` or `pattern` throws ArgumentNullException naming it; an empty pattern throws ArgumentException; otherwise the length drops by `|pattern|` per match, never grows, the result is the pieces between matches concatenated, and a string without a match is returned unchanged |
| Extensions.Split | Lorem.Net/Extensions.cs:46-59 | null arguments throw ArgumentNullException naming them; otherwise the pieces are those of `Text.Split` (leftmost, non-overlapping matches), they join back to `s`, number one more than the separator matches, and an empty separator yields `[s]` |
| Extensions.SplitOfOverlappingSeparator | Lorem.Net/Extensions.cs:58 | a self-overlapping separator is matched leftmost first: `"XXX"` split at `"XX"` gives `["", "X"]` |
| Extensions.UppercaseFirst | Lorem.Net/Extensions.cs:67-82 | null throws ArgumentNullException; `""` gives `""`; otherwise the length is kept, the first character is upper-cased and every later character is unchanged |
| Extensions.UppercaseFirstIdempotent | Lorem.Net/Extensions.cs:81 | applying `UppercaseFirst` twice is the same as once |
| Extensions.RemoveDoubleDotsComplete | Lorem.Net/Extensions.cs:17-37 | `Remove(s, "..")` succeeds and leaves no `".."`, as the doc comment promises ("all instances removed") |
| Extensions.RemoveCanLeaveMatches | Lorem.Net/Extensions.cs:22 | for other patterns one pass can leave a match: `Remove("aabb", "ab") == "ab"` |
| Guards.FirstFailure | Lorem.Net/Lorem.cs:448-450 | running ThrowIf checks in order throws nothing exactly when all pass, and otherwise throws ArgumentOutOfRange naming the first failing check |
| Guards.ChanceChecks | Lorem.Net/Lorem.cs:33-35 | the checks pass exactly when `0 <= successes <= attempts` and `attempts >= 1` |
| Guards.HexNumberChecks | Lorem.Net/Lorem.cs:143 | the check passes exactly when `digits >= 1` |
| Guards.WordsExactChecks | Lorem.Net/Lorem.cs:431 | the check passes exactly when `wordCount >= 1` |
| Guards.WordsChecks | Lorem.Net/Lorem.cs:448-450 | the checks pass exactly when `1 <= wordCountMin <= wordCountMax` |
| Guards.SentenceExactChecks | Lorem.Net/Lorem.cs:364 | the same check as `Words(wordCount)`: it passes exactly when `wordCount >= 1` |
| Guards.SentenceChecks | Lorem.Net/Lorem.cs:379-381 | the checks pass exactly when `1 <= wordCountMin <= wordCountMax` |
| Guards.ParagraphExactChecks | Lorem.Net/Lorem.cs:177-178 | the checks pass exactly when both counts are at least 1 |
| Guards.ParagraphWordRangeChecks | Lorem.Net/Lorem.cs:194-197 | the checks pass exactly when `1 <= wordCountMin <= wordCountMax` and `sentenceCount >= 1` |
| Guards.ParagraphChecks | Lorem.Net/Lorem.cs:220-225 | the checks pass exactly when both ranges have a minimum of at least 1 and `max >= min` |
| Guards.ParagraphsExactChecks | Lorem.Net/Lorem.cs:245-247 | the checks pass exactly when all three counts are at least 1 |
| Guards.ParagraphsWordRangeChecks | Lorem.Net/Lorem.cs:267-271 | the checks pass exactly when the word range is valid and both counts are at least 1 |
| Guards.ParagraphsSentenceRangeChecks | Lorem.Net/Lorem.cs:295-301 | the checks pass exactly when both ranges are valid and `paragraphCount >= 1` |
| Guards.ParagraphsChecks | Lorem.Net/Lorem.cs:325-333 | the checks pass exactly when all three ranges have a minimum of at least 1 and `max >= min` |
| Guards.ExactOverloadsAgree | Lorem.Net/Lorem.cs:175-304 | every single-count overload accepts exactly the arguments its two-bound form accepts with `min == max` |
| Randomness.RandomSource.Next | Lorem.Net/Lorem.cs:452 | a draw is `min` when `min == max`, otherwise in `[min, max)`; it counts one call |
| Randomness.RandomSource.NextBytes | Lorem.Net/Lorem.cs:145-146 | fills the buffer in place and counts one call |
| Shaping.WordSource.WordList | Lorem.Net/Lorem.cs:452 | Source.WordList(includePunctuation): the punctuated or the plain word sequence, the same on every call |
| Shaping.WordsText | Lorem.Net/Lorem.cs:452-457 | the text of `count` drawn words: the first `count` corpus words joined by single spaces, upper-cased first on request |
| Shaping.Take | Lorem.Net/Lorem.cs:452 | `Take(count)` is a prefix of the words, of length `count` when there are enough, all of them otherwise |
| Shaping.WordsTextUppercasesOnlyFirst | Lorem.Net/Lorem.cs:452-457 | the upper-cased text differs from the plain text only in its first character, which is upper-cased |
| Shaping.WordsTextSplitsIntoWords | Lorem.Net/Lorem.cs:452 | with words free of spaces, the text of `n` words splits at spaces into exactly the first `n` words |
| Shaping.SentenceText | Lorem.Net/Lorem.cs:383 | the sentence of a word text: append `"."`, replace `",."` by `"."`, then `Extensions.Remove("..")`, in that order |
| Shaping.SentenceHasNoDoubleDot | Lorem.Net/Lorem.cs:383 | a sentence never holds `".."`, whatever its words |
| Shaping.CommaPeriodFix | Lorem.Net/Lorem.cs:383 | for words without a period, `Replace(w + ".", ",.", ".")` drops only a trailing comma |
| Shaping.SentenceOfWordsWithoutPeriod | Lorem.Net/Lorem.cs:383 | words without a period give the words, less a trailing comma, closed by one period |
| Shaping.SentenceOfPlainWords | Lorem.Net/Lorem.cs:383 | words without period or comma give exactly `words + "."` |
| Shaping.SentenceCommaPeriodIff | Lorem.Net/Lorem.cs:383 | for words without a period, the sentence holds `",."` exactly when the words end in two commas (both directions) |
| Shaping.CommaPeriodOnlyAtEnd | Lorem.Net/Lorem.cs:383 | in `t + "."` with no period in `t`, `",."` occurs exactly when `t` ends in a comma |
| Shaping.SentenceCanKeepCommaPeriod | Lorem.Net/Lorem.cs:383 | the cleanup does not rule out `",."`: the words `"a,,"` give the sentence `"a,."` |
| Shaping.SentenceCanLoseItsPeriod | Lorem.Net/Lorem.cs:383 | words ending in a period lose both periods: `"Ab."` becomes `"Ab"` |
| Shaping.SentenceFromCorpus | Lorem.Net/Lorem.cs:383 | with a corpus free of periods, every sentence is its capitalised words, less a trailing comma, plus exactly one period, and has no `".."` |
| Shaping.ParagraphText | Lorem.Net/Lorem.cs:227-229 | a paragraph neither starts nor ends with white space |
| Shaping.ParagraphOfCleanSentences | Lorem.Net/Lorem.cs:227-229 | when no sentence is empty or white-space-bounded, the paragraph is exactly the sentences joined by single spaces |
| Shaping.SentencesOf | Lorem.Net/Lorem.cs:227 | one sentence per drawn word count |
| Shaping.ParagraphsOf | Lorem.Net/Lorem.cs:335 | one paragraph per drawn sentence-count plan |
| Shaping.HexDigit | Lorem.Net/Lorem.cs:155 | a value below 16 becomes one character of `0-9A-F` that reads back as that value |
| Shaping.FormatX2 | Lorem.Net/Lorem.cs:148 | a byte becomes two characters of `0-9A-F`, high nibble first, that read back as the byte |
| Shaping.HexOfBytes | Lorem.Net/Lorem.cs:148 | the concatenation has two characters per byte, all in `0-9A-F` |
| Shaping.HexRoundTrip | Lorem.Net/Lorem.cs:148 | the bytes can be read back from their "X2" digits |
| Shaping.EmailText | Lorem.Net/Lorem.cs:118 | the address `user + "@" + domain + ".com"` built by the interpolated string |
| Shaping.EmailSplitsAtSign | Lorem.Net/Lorem.cs:118 | an address whose parts hold no `@` splits at `@` into the user and the domain plus `".com"` |
| Shaping.EmailOfCorpus | Lorem.Net/Lorem.cs:118 | with the corpus a fixed word sequence enumerated from its start on every call (the modelling assumption for `Source.WordList`), both one-word parts are its first word |
| Shaping.WinningDrawCount | Lorem.Net/Lorem.cs:37-39 | of the draws `1..attempts`, exactly `successes` make `Chance` return true |
| Shaping.Wrap32 | Lorem.Net/Lorem.cs:37 | unchecked 32-bit arithmetic: the result is an Int32 congruent to the input modulo 2^32, and an Int32 is kept |
| Shaping.ChanceNextArgsAsWritten | Lorem.Net/Lorem.cs:37 | the bounds as written: `(1, attempts + 1)` with the addition in unchecked Int32 arithmetic |
| Shaping.ChanceAsWrittenOverflows | Lorem.Net/Lorem.cs:37 | for `attempts == Int32.MaxValue` the checks pass, but the upper bound wraps to `Int32.MinValue`, below the lower bound |
| Shaping.ChanceNextArgs | Lorem.Net/Lorem.cs:37 | the intended bounds `(1, attempts + 1)` computed without overflow, as used by `Lorem.Chance` |
| Shaping.ChanceNextArgsSound | Lorem.Net/Lorem.cs:37 | the intended bounds are ordered and give a draw in `[1, attempts]`; they equal the written ones below `Int32.MaxValue` |
| Lorem.Chance | Lorem.Net/Lorem.cs:31-40 | throws, without drawing, unless `0 <= successes <= attempts` and `attempts >= 1`; otherwise draws once in `[1, attempts]` and returns `draw <= successes`, so `Chance(0, n)` is false and `Chance(n, n)` is true |
| Lorem.HexNumber | Lorem.Net/Lorem.cs:141-156 | throws, without drawing, for `digits < 1`; otherwise returns exactly `digits` characters of `0-9A-F`, whose first `2 * (digits / 2)` are the drawn bytes in "X2" form; draws once, plus once more when `digits` is odd |
| Lorem.Letter | Lorem.Net/Lorem.cs:162-166 | returns a character in `'a'..'z'` after one draw |
| Lorem.Random | Lorem.Net/Lorem.cs:346-354 | a null array throws ArgumentNullException and an empty one ArgumentOutOfRangeException, both without drawing; otherwise returns `items[i]` for a drawn `0 <= i < Length` |
| Lorem.Enum | Lorem.Net/Lorem.cs:127-132 | returns `values[i]` for a drawn index in range; with no values, throws IndexOutOfRangeException |
| Lorem.Words | Lorem.Net/Lorem.cs:446-460 | throws, without drawing, unless `1 <= min <= max`; otherwise draws `n` (`n == min` when `min == max`, else `min <= n < max`) and returns the first `n` corpus words joined by spaces, first character upper-cased on request |
| Lorem.WordsExact | Lorem.Net/Lorem.cs:429-434 | throws, without drawing, unless `wordCount >= 1`; otherwise returns the text of exactly `wordCount` words |
| Lorem.Sentence | Lorem.Net/Lorem.cs:377-384 | throws, without drawing, unless `1 <= min <= max`; otherwise draws `n` and returns `Remove(Replace(w + ".", ",.", "."), "..")` for the capitalised punctuated words `w`, a text without `".."` |
| Lorem.SentenceExact | Lorem.Net/Lorem.cs:362-367 | throws, without drawing, unless `wordCount >= 1`; otherwise returns the sentence of exactly `wordCount` words |
| Lorem.Paragraph | Lorem.Net/Lorem.cs:218-230 | throws, without drawing, unless both ranges are valid; otherwise draws the sentence count `n` from its range and `n` word counts from theirs, and returns the trimmed space-join of those `n` sentences; `1 + n` draws |
| Lorem.ParagraphExact | Lorem.Net/Lorem.cs:175-181 | forwards with `min == max`: exactly `sentenceCount` sentences of exactly `wordCount` words |
| Lorem.ParagraphWordRange | Lorem.Net/Lorem.cs:192-200 | forwards with the sentence range `sentenceCount..sentenceCount`: exactly `sentenceCount` sentences |
| Lorem.Paragraphs | Lorem.Net/Lorem.cs:323-336 | throws, without drawing, unless all three ranges are valid; otherwise draws the paragraph count `n` and returns exactly `n` paragraphs, each drawn from its own sentence and word counts |
| Lorem.ParagraphsExact | Lorem.Net/Lorem.cs:243-250 | forwards with every `min == max`: exactly `paragraphCount` paragraphs of `sentenceCount` sentences of `wordCount` words |
| Lorem.ParagraphsWordRange | Lorem.Net/Lorem.cs:265-274 | forwards with fixed sentence and paragraph counts |
| Lorem.ParagraphsSentenceRange | Lorem.Net/Lorem.cs:293-304 | forwards with a fixed paragraph count |
| Lorem.Email | Lorem.Net/Lorem.cs:116-119 | returns `w1 + "@" + w2 + ".com"` with both parts one-word, uncapitalised, unpunctuated `Words` results; two draws |

## Left out

- `DateOnly`, `TimeOnly` and `DateTime` (Lorem.cs:49-110, 393-419) are left out. They scale `NextDouble()` in floating point, cast `TotalMinutes`, and read the wall clock `DateTime.Now`.
- Draws are specified only by their range. Uniformity, the generator's own algorithm and the thread safety of `Random.Shared` are left out.
- `Source.WordList` is not part of this model. The corpus is a `WordSource` parameter: one fixed word sequence per punctuation mode, enumerated from its start on every call. The model does not capture any randomness `WordList` might draw itself. Any claim about periods, commas or spaces inside words appears as an explicit requirement of the lemma that needs it.
- `char.ToUpper(char)` upper-cases with the current culture. The model assumes a culture whose upper-casing of ASCII letters is the invariant one and maps only `'a'..'z'`. Under a Turkish or Azerbaijani culture `char.ToUpper('i')` is `'İ'` (U+0130), where `Text.ToUpper('i')` is `'I'`. The upper-casing of non-ASCII letters is left out.
- `Paragraphs` returns a lazy `IEnumerable`. The count is drawn at the call, but each paragraph is only built on enumeration, and again on every re-enumeration. The model builds the paragraphs once, at the call, as a finite sequence.
- `Enum<TEnum>`: `Enum.GetValues` (reflection) is replaced by the `values` parameter. Only the index pick is modelled.
- Integer width: counts are unbounded integers. Apart from `Chance`, the only arithmetic on them is `HexNumber`'s `digits / 2` and `digits % 2` (Lorem.cs:145, 150). The check at Lorem.cs:143 ensures `digits >= 1`, and for positive values C#'s truncating `/` and `%` agree with Dafny's, so nothing is lost there. The 32-bit behaviour of `Chance` is modelled separately (see Findings).
- Randomness.RandomSource.NextBytes: states nothing about the bytes it writes, because any byte is a possible draw.
- Lorem.Chance: uses the corrected draw bounds of the finding below, so it does not throw for `attempts == Int32.MaxValue` as the source does.
- Extensions.Split: `string.Split` ignores an empty separator string, so an empty separator yields the whole string as the only piece. This follows the documented .NET rule.

## Findings

| source | as written | input that shows it | evidently intended | confidence | as-written member | corrected member |
|---|---|---|---|---|---|---|
| Lorem.Net/Lorem.cs:37 | `Next(1, attempts + 1)`, with `attempts + 1` evaluated in unchecked Int32 arithmetic | `Chance(0, Int32.MaxValue)` passes every check, but the upper bound wraps to `Int32.MinValue` and `Random.Next` throws ArgumentOutOfRangeException | a draw in `[1, attempts]` for every `attempts` the checks admit, e.g. with the bound computed in 64 bits | high; not executed | Shaping.ChanceAsWrittenOverflows | Shaping.ChanceNextArgsSound |
| Lorem.Net/Extensions.cs:22 | the doc comment promises a string "with all instances of pattern removed", but the code is one `String.Replace(pattern, "")` pass | `Remove("aabb", "ab")` returns `"ab"`, which still holds `"ab"` | no instance of `pattern` is left in the result; for `".."`, the only pattern the library passes (Lorem.cs:383), one pass achieves it | high; not executed | Extensions.RemoveCanLeaveMatches | Extensions.RemoveDoubleDotsComplete |
