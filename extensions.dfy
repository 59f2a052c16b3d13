/**
 * The three string extension methods of Extensions.cs. A C# string reference may be null,
 * so each argument is an Option<string>, and each method returns a Result: the value it
 * returns, or the exception it throws.
 */
module Extensions {
  import opened Wrappers
  import opened Text

  /** Remove(s, pattern): every non-overlapping match of `pattern`, found left to right,
      is deleted. Null arguments throw ArgumentNullException; an empty pattern makes the
      underlying String.Replace throw ArgumentException for its `oldValue`. */
  function Remove(s: Option<string>, pattern: Option<string>): (r: Result<string>)
    ensures s.None? ==> r == Failure(ArgumentNull("s"))
    ensures s.Some? && pattern.None? ==> r == Failure(ArgumentNull("pattern"))
    ensures s.Some? && pattern == Some("") ==> r == Failure(Argument("oldValue"))
    ensures s.Some? && pattern.Some? && pattern.value != "" ==>
              r.Success?
              && |r.value| == |s.value| - |pattern.value| * MatchCount(s.value, pattern.value)
              && |r.value| <= |s.value|
              && r.value == Join("", Text.Split(s.value, pattern.value))
              && (!Contains(s.value, pattern.value) ==> r.value == s.value)
  {
    if s.None? then Failure(ArgumentNull("s"))
    else if pattern.None? then Failure(ArgumentNull("pattern"))
    else if pattern.value == "" then Failure(Argument("oldValue"))
    else
      DeletionFacts(s.value, pattern.value);
      Success(Replace(s.value, pattern.value, ""))
  }

  /** What replacing every match by the empty string does, gathered for Remove. */
  lemma DeletionFacts(s: string, pattern: string)
    requires pattern != ""
    ensures |Replace(s, pattern, "")| == |s| - |pattern| * MatchCount(s, pattern)
    ensures |Replace(s, pattern, "")| <= |s|
    ensures Replace(s, pattern, "") == Join("", Text.Split(s, pattern))
    ensures !Contains(s, pattern) ==> Replace(s, pattern, "") == s
  {
    DeletionLength(s, pattern);
    ReplaceIsJoinOfSplit(s, pattern, "");
    if !Contains(s, pattern) {
      ReplaceWithoutMatch(s, pattern, "");
    }
  }

  lemma DeletionLength(s: string, pattern: string)
    requires pattern != ""
    ensures |Replace(s, pattern, "")| == |s| - |pattern| * MatchCount(s, pattern) <= |s|
  {
    ReplaceLength(s, pattern, "");
    ShrinkBy(MatchCount(s, pattern), |pattern|);
  }

  lemma ShrinkBy(m: nat, k: nat)
    ensures m * (0 - k) == -(k * m) && 0 <= k * m
  {
  }

  /** Split(s, separator) with StringSplitOptions.None: the pieces join back to `s`, and
      there is one more piece than there are separator matches. */
  function Split(s: Option<string>, separator: Option<string>): (r: Result<seq<string>>)
    ensures s.None? ==> r == Failure(ArgumentNull("s"))
    ensures s.Some? && separator.None? ==> r == Failure(ArgumentNull("separator"))
    ensures s.Some? && separator.Some? ==>
              r.Success?
              && r.value == Text.Split(s.value, separator.value)
              && Join(separator.value, r.value) == s.value
              && (separator.value == "" ==> r.value == [s.value])
              && (separator.value != "" ==> |r.value| == MatchCount(s.value, separator.value) + 1)
  {
    if s.None? then Failure(ArgumentNull("s"))
    else if separator.None? then Failure(ArgumentNull("separator"))
    else
      SplitJoinRoundTrip(s.value, separator.value);
      if separator.value != "" then
        SplitCount(s.value, separator.value);
        Success(Text.Split(s.value, separator.value))
      else
        Success(Text.Split(s.value, separator.value))
  }

  /** A separator that overlaps itself is matched leftmost first: "XXX" split at "XX" gives
      an empty piece and then "X". */
  lemma SplitOfOverlappingSeparator()
    ensures Split(Some("XXX"), Some("XX")) == Success(["", "X"])
  {
    assert "XXX"[..2] == "XX" && "XXX"[2..] == "X";
    assert Text.Split("X", "XX") == ["X"];
    assert Text.Split("XXX", "XX") == [""] + ["X"] == ["", "X"];
    var r := Split(Some("XXX"), Some("XX"));
    assert r.Success? && r.value == ["", "X"];
  }

  /** UppercaseFirst(s): the same string with its first character upper-cased. */
  function UppercaseFirst(s: Option<string>): (r: Result<string>)
    ensures s.None? ==> r == Failure(ArgumentNull("s"))
    ensures s == Some("") ==> r == Success("")
    ensures s.Some? ==> r.Success? && |r.value| == |s.value|
    ensures s.Some? && |s.value| > 0 ==>
              r.value[0] == ToUpper(s.value[0]) && r.value[1..] == s.value[1..]
    ensures s.Some? ==> forall i :: 0 < i < |s.value| ==> r.value[i] == s.value[i]
  {
    if s.None? then Failure(ArgumentNull("s"))
    else if s.value == "" then Success("")
    else Success([ToUpper(s.value[0])] + s.value[1..])
  }

  /** Upper-casing the first character twice is the same as doing it once. */
  lemma UppercaseFirstIdempotent(s: string)
    ensures UppercaseFirst(Some(UppercaseFirst(Some(s)).value)) == UppercaseFirst(Some(s))
  {
    var once := UppercaseFirst(Some(s)).value;
    if |s| > 0 {
      assert once == [ToUpper(s[0])] + s[1..];
      assert UppercaseFirst(Some(once)).value == [ToUpper(once[0])] + once[1..];
    }
  }

  predicate HasDoubleDot(t: string) {
    exists i | 0 <= i < |t| - 1 :: t[i] == '.' && t[i + 1] == '.'
  }

  lemma DoubleDotIsContains(t: string)
    ensures Contains(t, "..") <==> HasDoubleDot(t)
  {
    if Contains(t, "..") {
      var i :| 0 <= i <= |t| && OccursAt(t, "..", i);
      assert t[i..i + 2][0] == t[i] && t[i..i + 2][1] == t[i + 1];
    }
    if HasDoubleDot(t) {
      var i :| 0 <= i < |t| - 1 && t[i] == '.' && t[i + 1] == '.';
      assert t[i..i + 2] == "..";
      assert OccursAt(t, "..", i);
    }
  }

  lemma {:induction false} RemoveDoubleDotsStep(s: string)
    ensures !HasDoubleDot(Replace(s, "..", ""))
    ensures |s| > 0 && s[0] != '.' ==> |Replace(s, "..", "")| > 0 && Replace(s, "..", "")[0] == s[0]
    decreases |s|
  {
    var r := Replace(s, "..", "");
    if |s| < 2 {
    } else if s[..2] == ".." {
      RemoveDoubleDotsStep(s[2..]);
      assert s[0] == '.' by { assert s[..2][0] == s[0]; }
    } else {
      var rest := Replace(s[1..], "..", "");
      RemoveDoubleDotsStep(s[1..]);
      assert r == [s[0]] + rest;
      if s[0] == '.' {
        assert s[1] != '.' by { assert s[..2] == [s[0], s[1]]; }
        assert rest[0] == s[1];
      }
    }
  }

  /** For the pattern ".." the doc comment's promise holds: a single pass leaves no ".." behind. */
  lemma RemoveDoubleDotsComplete(s: string)
    ensures Remove(Some(s), Some("..")).Success?
    ensures !Contains(Remove(Some(s), Some("..")).value, "..")
  {
    RemoveDoubleDotsStep(s);
    DoubleDotIsContains(Replace(s, "..", ""));
  }

  /** For other patterns it does not: one pass over "aabb" removes the middle "ab" and
      the two remaining characters form a new "ab". */
  lemma RemoveCanLeaveMatches()
    ensures Remove(Some("aabb"), Some("ab")) == Success("ab")
    ensures Contains(Remove(Some("aabb"), Some("ab")).value, "ab")
  {
    assert "aabb"[..2][1] == 'a';
    assert "aabb"[1..] == "abb";
    assert "abb"[..2] == "ab";
    assert "abb"[2..] == "b";
    assert Replace("b", "ab", "") == "b";
    assert Replace("abb", "ab", "") == "b";
    assert Replace("aabb", "ab", "") == ['a'] + Replace("abb", "ab", "");
    assert ['a'] + "b" == "ab";
    assert OccursAt("ab", "ab", 0);
  }
}
