/**
 * The deterministic part of Lorem.cs: once the random draws are fixed, how words, sentences,
 * paragraphs, hexadecimal numbers, e-mail addresses and Chance outcomes are shaped.
 */
module Shaping {
  import opened Wrappers
  import opened Text
  import Extensions
  import opened Randomness
  import opened Guards

  // ----- the word corpus -----

  /** Source.WordList(includePunctuation) as two fixed word sequences. The model assumes that
      every call enumerates the list afresh from the same first word. */
  datatype WordSource = WordSource(plain: seq<string>, punctuated: seq<string>) {
    function WordList(includePunctuation: bool): seq<string> {
      if includePunctuation then punctuated else plain
    }
  }

  /** Enumerable.Take(count): the first `count` words, all of them if there are fewer,
      none when `count` is not positive. */
  function Take(words: seq<string>, count: int): (r: seq<string>)
    ensures |r| <= |words| && r == words[..|r|]
    ensures 0 <= count <= |words| ==> |r| == count
    ensures count > |words| ==> r == words
  {
    if count <= 0 then [] else if count < |words| then words[..count] else words
  }

  // ----- words -----

  /** The text Words returns once it has drawn `count`: the first `count` words joined by
      single spaces, with the first character upper-cased on request. */
  function WordsText(words: seq<string>, count: int, uppercaseFirstLetter: bool): string {
    var joined := Join(" ", Take(words, count));
    if uppercaseFirstLetter then Extensions.UppercaseFirst(Some(joined)).value else joined
  }

  /** Upper-casing changes the first character only. */
  lemma WordsTextUppercasesOnlyFirst(words: seq<string>, count: int)
    ensures var upper := WordsText(words, count, true);
            var lower := WordsText(words, count, false);
            |upper| == |lower|
            && (|lower| > 0 ==> upper[0] == ToUpper(lower[0]) && upper[1..] == lower[1..])
  {
  }

  /** Without upper-casing, and when no word holds a space, splitting the text at spaces
      gives back exactly the first `count` words. */
  lemma WordsTextSplitsIntoWords(words: seq<string>, count: int)
    requires 1 <= count <= |words| && NoneContains(words, ' ')
    ensures Text.Split(WordsText(words, count, false), " ") == words[..count]
  {
    assert NoneContains(words[..count], " "[0]);
    JoinSplitRoundTrip(words[..count], " ");
  }

  // ----- sentences -----

  /** The cleanup Sentence applies to its words: append ".", then String.Replace(",.", "."),
      then Extensions.Remove(".."), in that order. */
  function SentenceText(words: string): string {
    Extensions.Remove(Some(Replace(words + ".", ",.", ".")), Some("..")).value
  }

  function StripTrailingComma(w: string): string {
    if |w| > 0 && w[|w| - 1] == ',' then w[..|w| - 1] else w
  }

  /** A sentence never holds "..", whatever its words are. */
  lemma SentenceHasNoDoubleDot(words: string)
    ensures !Contains(SentenceText(words), "..")
  {
    Extensions.RemoveDoubleDotsComplete(Replace(words + ".", ",.", "."));
  }

  lemma {:induction false} CommaPeriodFix(w: string)
    requires '.' !in w
    ensures Replace(w + ".", ",.", ".") == StripTrailingComma(w) + "."
    decreases |w|
  {
    var s := w + ".";
    if |w| == 0 {
      assert s == ".";
    } else if |w| == 1 {
      if w[0] == ',' {
        assert s[..2] == ",.";
        assert s[2..] == "";
      } else {
        assert s[..2] != ",." by { assert s[..2][0] == w[0]; }
        assert s[1..] == ".";
        assert [w[0]] == w;
      }
    } else {
      assert s[..2] != ",." by { assert s[..2][1] == w[1]; assert w[1] != '.'; }
      assert s[1..] == w[1..] + ".";
      CommaPeriodFix(w[1..]);
      if w[|w| - 1] == ',' {
        assert w[..|w| - 1] == [w[0]] + w[1..][..|w| - 2];
      } else {
        assert w == [w[0]] + w[1..];
      }
    }
  }

  /** When the words hold no period, the sentence is the words without a trailing comma,
      closed by exactly one period. */
  lemma SentenceOfWordsWithoutPeriod(words: string)
    requires '.' !in words
    ensures SentenceText(words) == StripTrailingComma(words) + "."
  {
    CommaPeriodFix(words);
    var t := StripTrailingComma(words) + ".";
    assert forall i :: 0 <= i < |t| - 1 ==> t[i] in words;
    Extensions.DoubleDotIsContains(t);
  }

  /** When the words hold neither a period nor a comma, the sentence is the words plus ".". */
  lemma SentenceOfPlainWords(words: string)
    requires '.' !in words && ',' !in words
    ensures SentenceText(words) == words + "."
  {
    SentenceOfWordsWithoutPeriod(words);
  }

  /** For words without a period, the sentence holds ",." exactly when the words end in
      two commas: the comma fix drops only one of them. */
  lemma SentenceCommaPeriodIff(words: string)
    requires '.' !in words
    ensures Contains(SentenceText(words), ",.")
            <==> |words| >= 2 && words[|words| - 1] == ',' && words[|words| - 2] == ','
  {
    SentenceOfWordsWithoutPeriod(words);
    var t := StripTrailingComma(words);
    assert '.' !in t;
    CommaPeriodOnlyAtEnd(t);
    if |words| >= 2 && words[|words| - 1] == ',' && words[|words| - 2] == ',' {
      assert t[|t| - 1] == ',';
    }
  }

  /** In `t + "."` with no period in `t`, ",." can only occur at the very end. */
  lemma CommaPeriodOnlyAtEnd(t: string)
    requires '.' !in t
    ensures Contains(t + ".", ",.") <==> |t| > 0 && t[|t| - 1] == ','
  {
    var u := t + ".";
    if Contains(u, ",.") {
      var i :| 0 <= i <= |u| && OccursAt(u, ",.", i);
      assert u[i..i + 2][1] == '.' && u[i..i + 2][0] == ',';
      assert u[i + 1] == '.';
      assert i + 1 == |t|;
    }
    if |t| > 0 && t[|t| - 1] == ',' {
      assert u[|t| - 1..|t| + 1] == ",.";
      assert OccursAt(u, ",.", |t| - 1);
    }
  }

  /** A word ending in two commas leaves ",." in its sentence. */
  lemma SentenceCanKeepCommaPeriod()
    ensures SentenceText("a,,") == "a,." && Contains(SentenceText("a,,"), ",.")
  {
    SentenceOfWordsWithoutPeriod("a,,");
    assert StripTrailingComma("a,,") == "a,";
    assert "a," + "." == "a,.";
    assert OccursAt("a,.", ",.", 1) by { assert "a,."[1..3] == ",."; }
  }

  /** Words that already end in a period lose it together with the appended one: the
      promise of a closing period rests on a corpus without periods. */
  lemma SentenceCanLoseItsPeriod()
    ensures SentenceText("Ab.") == "Ab"
  {
    assert "Ab." + "." == "Ab..";
    CommaFixKeepsAbDots();
    DoubleDotRemovalOfAbDots();
  }

  /** "Ab.." holds no ",.", so the comma fix keeps it. */
  lemma CommaFixKeepsAbDots()
    ensures Replace("Ab..", ",.", ".") == "Ab.."
  {
    ReplaceSkipsFirst("..", ",.", ".");
    ReplaceSkipsFirst("b..", ",.", ".");
    ReplaceSkipsFirst("Ab..", ",.", ".");
  }

  /** Removing ".." from "Ab.." takes both periods. */
  lemma DoubleDotRemovalOfAbDots()
    ensures Replace("Ab..", "..", "") == "Ab"
  {
    assert ".."[..2] == ".." && ".."[2..] == "";
    ReplaceSkipsFirst("b..", "..", "");
    ReplaceSkipsFirst("Ab..", "..", "");
  }

  /** With a corpus whose words hold no period, every sentence ends in exactly one period:
      it is the capitalised words, less a trailing comma, plus ".". */
  lemma SentenceFromCorpus(words: seq<string>, count: int)
    requires NoneContains(words, '.')
    ensures var w := WordsText(words, count, true);
            var sentence := SentenceText(w);
            sentence == StripTrailingComma(w) + "."
            && '.' !in StripTrailingComma(w)
            && !Contains(sentence, "..")
  {
    var taken := Take(words, count);
    assert NoneContains(taken, '.');
    JoinAvoidsChar(" ", taken, '.');
    var w := WordsText(words, count, true);
    assert '.' !in w;
    SentenceOfWordsWithoutPeriod(w);
    SentenceHasNoDoubleDot(w);
  }

  // ----- paragraphs -----

  /** Paragraph's text: the sentences joined by single spaces, then trimmed. */
  function ParagraphText(sentences: seq<string>): (r: string)
    ensures |r| > 0 ==> !IsWhiteSpace(r[0]) && !IsWhiteSpace(r[|r| - 1])
  {
    Trim(Join(" ", sentences))
  }

  predicate StartsAndEndsClean(s: string) {
    |s| > 0 && !IsWhiteSpace(s[0]) && !IsWhiteSpace(s[|s| - 1])
  }

  /** When no sentence is empty or starts or ends with white space, trimming is a no-op and
      the paragraph is exactly its sentences joined by spaces. */
  lemma ParagraphOfCleanSentences(sentences: seq<string>)
    requires forall i :: 0 <= i < |sentences| ==> StartsAndEndsClean(sentences[i])
    ensures ParagraphText(sentences) == Join(" ", sentences)
  {
    if |sentences| > 0 {
      JoinEnds(" ", sentences);
    }
    TrimOfTrimmed(Join(" ", sentences));
  }

  /** The sentences of one paragraph, the i-th drawn with `wordCounts[i]` words. */
  function SentencesOf(words: seq<string>, wordCounts: seq<int>): (r: seq<string>)
    ensures |r| == |wordCounts|
  {
    seq(|wordCounts|, i requires 0 <= i < |wordCounts| => SentenceText(WordsText(words, wordCounts[i], true)))
  }

  /** The paragraphs of one Paragraphs call, the i-th drawn with the word counts `plan[i]`. */
  function ParagraphsOf(words: seq<string>, plan: seq<seq<int>>): (r: seq<string>)
    ensures |r| == |plan|
  {
    seq(|plan|, i requires 0 <= i < |plan| => ParagraphText(SentencesOf(words, plan[i])))
  }

  /** The number of draws a Paragraphs call makes for the paragraphs `plan` describes:
      one for each paragraph's sentence count and one for each sentence's word count. */
  function DrawsFor(plan: seq<seq<int>>): nat {
    if |plan| == 0 then 0 else DrawsFor(plan[..|plan| - 1]) + 1 + |plan[|plan| - 1]|
  }

  /** One more paragraph extends the paragraphs by its text and the draws by its own. */
  lemma PlanExtends(words: seq<string>, plan: seq<seq<int>>, wordCounts: seq<int>)
    ensures ParagraphsOf(words, plan + [wordCounts])
            == ParagraphsOf(words, plan) + [ParagraphText(SentencesOf(words, wordCounts))]
    ensures DrawsFor(plan + [wordCounts]) == DrawsFor(plan) + 1 + |wordCounts|
  {
    assert (plan + [wordCounts])[..|plan|] == plan;
  }

  // ----- hexadecimal numbers -----

  predicate IsHexDigit(c: char) { '0' <= c <= '9' || 'A' <= c <= 'F' }

  predicate IsHexString(s: string) { forall i :: 0 <= i < |s| ==> IsHexDigit(s[i]) }

  function HexValue(c: char): (v: int)
    requires IsHexDigit(c)
    ensures 0 <= v < 16
  {
    if c <= '9' then c as int - '0' as int else c as int - 'A' as int + 10
  }

  /** ToString("X") of a value below 16: one upper-case hexadecimal digit. */
  function HexDigit(nibble: int): (c: char)
    requires 0 <= nibble < 16
    ensures IsHexDigit(c) && HexValue(c) == nibble
  {
    if nibble < 10 then ('0' as int + nibble) as char else ('A' as int + nibble - 10) as char
  }

  /** ToString("X2") of a byte: two digits, high nibble first. */
  function FormatX2(b: byte): (s: string)
    ensures |s| == 2 && IsHexDigit(s[0]) && IsHexDigit(s[1])
    ensures HexValue(s[0]) * 16 + HexValue(s[1]) == b as int
  {
    [HexDigit(b as int / 16), HexDigit(b as int % 16)]
  }

  /** string.Concat of the bytes formatted with "X2". */
  function HexOfBytes(bytes: seq<byte>): (s: string)
    ensures |s| == 2 * |bytes| && IsHexString(s)
  {
    if |bytes| == 0 then "" else FormatX2(bytes[0]) + HexOfBytes(bytes[1..])
  }

  /** Reads a string of hexadecimal digit pairs back as bytes. */
  function ParseHexBytes(s: string): seq<byte>
    requires |s| % 2 == 0 && IsHexString(s)
    decreases |s|
  {
    if |s| == 0 then [] else [(HexValue(s[0]) * 16 + HexValue(s[1])) as byte] + ParseHexBytes(s[2..])
  }

  /** The "X2" formatting loses nothing: the bytes can be read back from the digits. */
  lemma {:induction false} HexRoundTrip(bytes: seq<byte>)
    ensures ParseHexBytes(HexOfBytes(bytes)) == bytes
  {
    if |bytes| > 0 {
      var s := HexOfBytes(bytes);
      assert s[2..] == HexOfBytes(bytes[1..]);
      assert s[0] == FormatX2(bytes[0])[0] && s[1] == FormatX2(bytes[0])[1];
      HexRoundTrip(bytes[1..]);
      assert bytes == [bytes[0]] + bytes[1..];
    }
  }

  // ----- e-mail addresses -----

  /** The format string "{user}@{domain}.com". */
  function EmailText(user: string, domain: string): string {
    user + "@" + domain + ".com"
  }

  /** When neither part holds an '@', splitting the address at '@' gives back the user and
      the domain with its ".com". */
  lemma EmailSplitsAtSign(user: string, domain: string)
    requires '@' !in user && '@' !in domain
    ensures Text.Split(EmailText(user, domain), "@") == [user, domain + ".com"]
  {
    var parts := [user, domain + ".com"];
    assert '@' !in domain + ".com";
    assert NoneContains(parts, "@"[0]);
    JoinSplitRoundTrip(parts, "@");
    assert Join("@", parts) == EmailText(user, domain);
  }

  /** Both parts of the address come from one-word Words calls, which both start the corpus
      afresh: they are the corpus's first word. */
  lemma EmailOfCorpus(words: seq<string>)
    requires |words| >= 1
    ensures EmailText(WordsText(words, 1, false), WordsText(words, 1, false)) == EmailText(words[0], words[0])
  {
    assert Take(words, 1) == [words[0]];
  }

  // ----- Chance -----

  /** Chance succeeds when the draw is at most the number of successes. */
  predicate ChanceOutcome(successes: int, draw: int) { draw <= successes }

  function WinningDraws(successes: int, attempts: int): set<int> {
    set d | 1 <= d <= attempts && ChanceOutcome(successes, d)
  }

  /** Of the `attempts` possible draws 1..attempts, exactly `successes` make Chance return
      true: "true successes times out of attempts". */
  lemma {:induction false} WinningDrawCount(successes: int, attempts: int)
    requires 0 <= successes <= attempts
    ensures |WinningDraws(successes, attempts)| == successes
    decreases successes
  {
    if successes == 0 {
      assert WinningDraws(0, attempts) == {};
    } else {
      WinningDrawCount(successes - 1, attempts);
      assert WinningDraws(successes, attempts) == WinningDraws(successes - 1, attempts) + {successes};
    }
  }

  const Int32Min: int := -0x8000_0000
  const Int32Max: int := 0x7FFF_FFFF

  predicate IsInt32(x: int) { Int32Min <= x <= Int32Max }

  /** Unchecked 32-bit arithmetic: the value modulo 2^32, read back as a signed int. */
  function Wrap32(x: int): (w: int)
    ensures IsInt32(w) && (w - x) % 0x1_0000_0000 == 0
    ensures IsInt32(x) ==> w == x
  {
    (x - Int32Min) % 0x1_0000_0000 + Int32Min
  }

  /** The bounds Chance passes to Random.Next as written: `attempts + 1` is an int sum in
      an unchecked context. */
  function ChanceNextArgsAsWritten(attempts: int): (int, int)
    requires IsInt32(attempts)
  {
    (1, Wrap32(attempts + 1))
  }

  /** For attempts == Int32.MaxValue the checks pass but the upper bound wraps to
      Int32.MinValue, below the lower bound, so Random.Next throws. */
  lemma ChanceAsWrittenOverflows()
    ensures AllPass(ChanceChecks(0, Int32Max))
    ensures ChanceNextArgsAsWritten(Int32Max) == (1, Int32Min)
    ensures ChanceNextArgsAsWritten(Int32Max).1 < ChanceNextArgsAsWritten(Int32Max).0
  {
  }

  /** The intended bounds: the draw is in [1, attempts], the upper bound computed without
      wrap-around (as Random.NextInt64 with a long bound would). */
  function ChanceNextArgs(attempts: int): (int, int) {
    (1, attempts + 1)
  }

  /** For every argument the checks admit, the intended bounds are ordered and give a draw in
      [1, attempts]; below Int32.MaxValue they agree with the bounds as written. */
  lemma ChanceNextArgsSound(attempts: int)
    requires 1 <= attempts
    ensures ChanceNextArgs(attempts).0 < ChanceNextArgs(attempts).1
    ensures forall d :: InDraw(ChanceNextArgs(attempts).0, ChanceNextArgs(attempts).1, d) ==> 1 <= d <= attempts
    ensures attempts < Int32Max ==> ChanceNextArgsAsWritten(attempts) == ChanceNextArgs(attempts)
  {
  }
}
