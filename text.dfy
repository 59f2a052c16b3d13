/**
 * The parts of System.String the library relies on, with ordinal (culture-free) semantics:
 * String.Replace, String.Split with one separator and StringSplitOptions.None,
 * String.Join, String.Trim, and char.ToUpper restricted to ASCII.
 */
module Text {

  /** char.IsWhiteSpace: the Unicode space separators, the line and paragraph separators,
      U+0009 to U+000D, U+0085 and U+00A0. */
  predicate IsWhiteSpace(c: char) {
    ('\t' <= c <= '\r') || c == ' ' || c == '\U{85}' || c == '\U{A0}' || c == '\U{1680}'
    || ('\U{2000}' <= c <= '\U{200A}') || c == '\U{2028}' || c == '\U{2029}'
    || c == '\U{202F}' || c == '\U{205F}' || c == '\U{3000}'
  }

  predicate IsAsciiLower(c: char) { 'a' <= c <= 'z' }

  /** char.ToUpper on ASCII: a lower-case letter maps to its capital, anything else is kept. */
  function ToUpper(c: char): (u: char)
    ensures !IsAsciiLower(u)
    ensures IsAsciiLower(c) || u == c
    ensures IsAsciiLower(c) ==> 'A' <= u <= 'Z' && u as int + 32 == c as int
  {
    if IsAsciiLower(c) then (c as int - 32) as char else c
  }

  /** `pattern` occurs in `s` starting at index `i`. */
  predicate OccursAt(s: string, pattern: string, i: int) {
    0 <= i && i + |pattern| <= |s| && s[i..i + |pattern|] == pattern
  }

  predicate Contains(s: string, pattern: string) {
    exists i | 0 <= i <= |s| :: OccursAt(s, pattern, i)
  }

  /** The number of matches a left-to-right, non-overlapping scan for `pattern` finds. */
  function MatchCount(s: string, pattern: string): nat
    requires |pattern| > 0
    decreases |s|
  {
    if |s| < |pattern| then 0
    else if s[..|pattern|] == pattern then 1 + MatchCount(s[|pattern|..], pattern)
    else MatchCount(s[1..], pattern)
  }

  /** String.Replace(oldValue, newValue): scan left to right and replace every
      non-overlapping match of `oldValue`. String.Replace rejects an empty `oldValue`. */
  function Replace(s: string, oldValue: string, newValue: string): string
    requires |oldValue| > 0
    decreases |s|
  {
    if |s| < |oldValue| then s
    else if s[..|oldValue|] == oldValue then newValue + Replace(s[|oldValue|..], oldValue, newValue)
    else [s[0]] + Replace(s[1..], oldValue, newValue)
  }

  /** String.Split(new[] { separator }, StringSplitOptions.None): the pieces between the
      non-overlapping matches, empty pieces kept. An empty separator is ignored. */
  function Split(s: string, separator: string): (pieces: seq<string>)
    ensures |pieces| >= 1
    decreases |s|
  {
    if |separator| == 0 || |s| < |separator| then [s]
    else if s[..|separator|] == separator then [""] + Split(s[|separator|..], separator)
    else
      var rest := Split(s[1..], separator);
      [[s[0]] + rest[0]] + rest[1..]
  }

  /** String.Join(separator, values). */
  function Join(separator: string, values: seq<string>): string {
    if |values| == 0 then ""
    else if |values| == 1 then values[0]
    else values[0] + separator + Join(separator, values[1..])
  }

  predicate AllWhiteSpace(s: string) {
    forall k :: 0 <= k < |s| ==> IsWhiteSpace(s[k])
  }

  /** String.TrimStart(): drops the leading white space and nothing else. */
  function TrimStart(s: string): (r: string)
    ensures |r| <= |s| && r == s[|s| - |r|..]
    ensures AllWhiteSpace(s[..|s| - |r|])
    ensures |r| > 0 ==> !IsWhiteSpace(r[0])
    decreases |s|
  {
    if |s| > 0 && IsWhiteSpace(s[0]) then TrimStart(s[1..]) else s
  }

  /** String.TrimEnd(): drops the trailing white space and nothing else. */
  function TrimEnd(s: string): (r: string)
    ensures |r| <= |s| && r == s[..|r|]
    ensures AllWhiteSpace(s[|r|..])
    ensures |r| > 0 ==> !IsWhiteSpace(r[|r| - 1])
    decreases |s|
  {
    if |s| > 0 && IsWhiteSpace(s[|s| - 1]) then TrimEnd(s[..|s| - 1]) else s
  }

  /** String.Trim(): the longest middle part of `s` that neither starts nor ends with
      white space, obtained by dropping only white space from both ends. */
  function Trim(s: string): (r: string)
    ensures |r| > 0 ==> !IsWhiteSpace(r[0]) && !IsWhiteSpace(r[|r| - 1])
  {
    TrimEnd(TrimStart(s))
  }

  // ----- lemmas about Replace, MatchCount and Contains -----

  lemma OccursShift(s: string, pattern: string, i: int)
    requires 1 <= i
    requires |s| >= 1
    ensures OccursAt(s, pattern, i) <==> OccursAt(s[1..], pattern, i - 1)
  {
  }

  /** The scan finds no match exactly when the pattern does not occur anywhere. */
  lemma {:induction false} MatchCountZeroIffAbsent(s: string, pattern: string)
    requires |pattern| > 0
    ensures MatchCount(s, pattern) == 0 <==> !Contains(s, pattern)
    decreases |s|
  {
    if |s| < |pattern| {
    } else if s[..|pattern|] == pattern {
      assert OccursAt(s, pattern, 0);
    } else {
      MatchCountZeroIffAbsent(s[1..], pattern);
      if Contains(s, pattern) {
        var i :| 0 <= i <= |s| && OccursAt(s, pattern, i);
        assert i != 0 by { assert s[0..|pattern|] == s[..|pattern|]; }
        OccursShift(s, pattern, i);
        assert OccursAt(s[1..], pattern, i - 1);
      }
      if Contains(s[1..], pattern) {
        var j :| 0 <= j <= |s[1..]| && OccursAt(s[1..], pattern, j);
        OccursShift(s, pattern, j + 1);
        assert OccursAt(s, pattern, j + 1);
      }
    }
  }

  /** Each match shrinks or grows the string by the difference of the two lengths. */
  lemma {:induction false} ReplaceLength(s: string, oldValue: string, newValue: string)
    requires |oldValue| > 0
    ensures |Replace(s, oldValue, newValue)|
            == |s| + MatchCount(s, oldValue) * (|newValue| - |oldValue|)
    decreases |s|
  {
    var d := |newValue| - |oldValue|;
    if |s| < |oldValue| {
    } else if s[..|oldValue|] == oldValue {
      var rest := s[|oldValue|..];
      ReplaceLength(rest, oldValue, newValue);
      var c := MatchCount(rest, oldValue);
      assert MatchCount(s, oldValue) == c + 1;
      assert |Replace(s, oldValue, newValue)| == |newValue| + |Replace(rest, oldValue, newValue)|;
      DistributeSucc(c, d);
    } else {
      var rest := s[1..];
      ReplaceLength(rest, oldValue, newValue);
      assert MatchCount(s, oldValue) == MatchCount(rest, oldValue);
      assert |Replace(s, oldValue, newValue)| == 1 + |Replace(rest, oldValue, newValue)|;
    }
  }

  lemma DistributeSucc(c: int, d: int)
    ensures (c + 1) * d == c * d + d
  {
  }

  /** When no match starts at the first character, Replace keeps that character. */
  lemma ReplaceSkipsFirst(s: string, oldValue: string, newValue: string)
    requires 0 < |oldValue| <= |s| && s[0] != oldValue[0]
    ensures Replace(s, oldValue, newValue) == [s[0]] + Replace(s[1..], oldValue, newValue)
  {
    assert s[..|oldValue|][0] == s[0];
  }

  /** Without a match, Replace returns its input. */
  lemma {:induction false} ReplaceWithoutMatch(s: string, oldValue: string, newValue: string)
    requires |oldValue| > 0 && !Contains(s, oldValue)
    ensures Replace(s, oldValue, newValue) == s
    decreases |s|
  {
    MatchCountZeroIffAbsent(s, oldValue);
    if |s| >= |oldValue| {
      assert s[..|oldValue|] != oldValue;
      MatchCountZeroIffAbsent(s[1..], oldValue);
      ReplaceWithoutMatch(s[1..], oldValue, newValue);
      assert s == [s[0]] + s[1..];
    }
  }

  /** Replace is Split followed by Join with the replacement. */
  lemma {:induction false} ReplaceIsJoinOfSplit(s: string, oldValue: string, newValue: string)
    requires |oldValue| > 0
    ensures Replace(s, oldValue, newValue) == Join(newValue, Split(s, oldValue))
    decreases |s|
  {
    if |s| < |oldValue| {
    } else if s[..|oldValue|] == oldValue {
      var tail := s[|oldValue|..];
      var rest := Split(tail, oldValue);
      ReplaceIsJoinOfSplit(tail, oldValue, newValue);
      assert Split(s, oldValue) == [""] + rest;
      assert Replace(s, oldValue, newValue) == newValue + Replace(tail, oldValue, newValue);
      JoinAfterEmpty(newValue, rest);
    } else {
      var rest := Split(s[1..], oldValue);
      ReplaceIsJoinOfSplit(s[1..], oldValue, newValue);
      assert Split(s, oldValue) == [[s[0]] + rest[0]] + rest[1..];
      assert Replace(s, oldValue, newValue) == [s[0]] + Replace(s[1..], oldValue, newValue);
      JoinExtendsFirst(s[0], newValue, rest);
    }
  }

  /** An empty first value contributes only the separator after it. */
  lemma JoinAfterEmpty(separator: string, values: seq<string>)
    requires |values| >= 1
    ensures Join(separator, [""] + values) == separator + Join(separator, values)
  {
    assert ([""] + values)[1..] == values;
  }

  /** Prepending a character to the first value prepends it to the join. */
  lemma JoinExtendsFirst(c: char, separator: string, values: seq<string>)
    requires |values| >= 1
    ensures Join(separator, [[c] + values[0]] + values[1..]) == [c] + Join(separator, values)
  {
    var pieces := [[c] + values[0]] + values[1..];
    if |values| > 1 {
      assert pieces[1..] == values[1..];
    }
  }

  /** Replacing a pattern by itself changes nothing. */
  lemma {:induction false} ReplaceBySelf(s: string, pattern: string)
    requires |pattern| > 0
    ensures Replace(s, pattern, pattern) == s
    decreases |s|
  {
    if |s| < |pattern| {
    } else if s[..|pattern|] == pattern {
      ReplaceBySelf(s[|pattern|..], pattern);
      assert s == s[..|pattern|] + s[|pattern|..];
    } else {
      ReplaceBySelf(s[1..], pattern);
      assert s == [s[0]] + s[1..];
    }
  }

  // ----- lemmas about Split and Join -----

  /** Joining the pieces with the separator gives back the string. */
  lemma SplitJoinRoundTrip(s: string, separator: string)
    ensures Join(separator, Split(s, separator)) == s
  {
    if |separator| > 0 {
      ReplaceIsJoinOfSplit(s, separator, separator);
      ReplaceBySelf(s, separator);
    }
  }

  /** There is one more piece than there are matches. */
  lemma {:induction false} SplitCount(s: string, separator: string)
    requires |separator| > 0
    ensures |Split(s, separator)| == MatchCount(s, separator) + 1
    decreases |s|
  {
    if |s| < |separator| {
    } else if s[..|separator|] == separator {
      SplitCount(s[|separator|..], separator);
    } else {
      SplitCount(s[1..], separator);
    }
  }

  predicate NoneContains(values: seq<string>, c: char) {
    forall i :: 0 <= i < |values| ==> c !in values[i]
  }

  lemma {:induction false} SplitWithoutSeparator(w: string, separator: string)
    requires |separator| == 1 && separator[0] !in w
    ensures Split(w, separator) == [w]
    decreases |w|
  {
    if |w| >= 1 {
      assert w[..1] != separator by { assert w[..1][0] == w[0]; }
      SplitWithoutSeparator(w[1..], separator);
      assert [w[0]] + w[1..] == w;
    }
  }

  lemma {:induction false} SplitAfterFirst(w: string, separator: string, t: string)
    requires |separator| == 1 && separator[0] !in w
    ensures Split(w + separator + t, separator) == [w] + Split(t, separator)
    decreases |w|
  {
    var s := w + separator + t;
    if |w| == 0 {
      assert s[..1] == separator;
      assert s[1..] == t;
    } else {
      assert s[..1] != separator by { assert s[..1][0] == w[0]; }
      assert s[1..] == w[1..] + separator + t;
      SplitAfterFirst(w[1..], separator, t);
      assert [w[0]] + w[1..] == w;
    }
  }

  /** With a one-character separator that no value contains, Split undoes Join. */
  lemma {:induction false} JoinSplitRoundTrip(values: seq<string>, separator: string)
    requires |values| >= 1 && |separator| == 1 && NoneContains(values, separator[0])
    ensures Split(Join(separator, values), separator) == values
    decreases |values|
  {
    if |values| == 1 {
      SplitWithoutSeparator(values[0], separator);
    } else {
      JoinSplitRoundTrip(values[1..], separator);
      SplitAfterFirst(values[0], separator, Join(separator, values[1..]));
      assert [values[0]] + values[1..] == values;
    }
  }

  // ----- lemmas about Join and Trim -----

  /** A character that is in neither the separator nor any value is not in their join. */
  lemma {:induction false} JoinAvoidsChar(separator: string, values: seq<string>, c: char)
    requires c !in separator && NoneContains(values, c)
    ensures c !in Join(separator, values)
    decreases |values|
  {
    if |values| > 1 {
      JoinAvoidsChar(separator, values[1..], c);
    }
  }

  /** A join of non-empty values is non-empty, starts with the first value's first character and ends
      with the last value's last character. */
  lemma {:induction false} JoinEnds(separator: string, values: seq<string>)
    requires |values| >= 1 && forall i :: 0 <= i < |values| ==> |values[i]| > 0
    ensures var j := Join(separator, values);
            |j| > 0 && j[0] == values[0][0] && j[|j| - 1] == values[|values| - 1][|values[|values| - 1]| - 1]
    decreases |values|
  {
    if |values| > 1 {
      JoinEnds(separator, values[1..]);
    }
  }

  /** `r` is the part of `s` that starts at `a`, with only white space before and after it. */
  predicate MiddleAt(s: string, r: string, a: int) {
    0 <= a && a + |r| <= |s| && r == s[a..a + |r|]
    && AllWhiteSpace(s[..a]) && AllWhiteSpace(s[a + |r|..])
  }

  /** Trim removes white space at the two ends and nothing else: the result is the part of
      `s` that starts at some `a`, with only white space before and after it. */
  lemma TrimKeepsMiddle(s: string)
    ensures exists a | 0 <= a <= |s| :: MiddleAt(s, Trim(s), a)
  {
    var t := TrimStart(s);
    var r := TrimEnd(t);
    var a := |s| - |t|;
    assert r == Trim(s);
    assert t == s[a..] && r == t[..|r|];
    SlicesOfSuffix(s, a, |r|);
    assert r == s[a..a + |r|];
    assert AllWhiteSpace(s[..a]);
    assert AllWhiteSpace(s[a + |r|..]) by { assert s[a + |r|..] == t[|r|..]; }
    assert MiddleAt(s, r, a);
  }

  /** A prefix and the rest of the suffix `s[a..]` are slices of `s`. */
  lemma SlicesOfSuffix(s: string, a: int, n: int)
    requires 0 <= a && 0 <= n && a + n <= |s|
    ensures s[a..][..n] == s[a..a + n] && s[a..][n..] == s[a + n..]
  {
  }

  /** Trim leaves a string alone when neither end is white space. */
  lemma TrimOfTrimmed(s: string)
    requires |s| > 0 ==> !IsWhiteSpace(s[0]) && !IsWhiteSpace(s[|s| - 1])
    ensures Trim(s) == s
  {
  }
}
