/**
 * The string operations of Rust's `str` that the core relies on:
 * `starts_with`, `ends_with`, `contains` and `replace`.
 */
module Text {

  /** `needle` occurs in `hay` at index `i`. */
  ghost predicate OccursAt(hay: string, needle: string, i: int) {
    0 <= i && i + |needle| <= |hay| && hay[i..i + |needle|] == needle
  }

  /** `needle` occurs somewhere in `hay`: the meaning of substring containment. */
  ghost predicate Occurs(hay: string, needle: string) {
    exists i :: OccursAt(hay, needle, i)
  }

  predicate StartsWith(s: string, prefix: string) {
    |prefix| <= |s| && s[..|prefix|] == prefix
  }

  predicate EndsWith(s: string, suffix: string) {
    |suffix| <= |s| && s[|s| - |suffix|..] == suffix
  }

  /** `hay.contains(needle)`: tries every start position from left to right. */
  function Contains(hay: string, needle: string): (found: bool)
    ensures found ==> |needle| <= |hay|
    ensures StartsWith(hay, needle) ==> found
    decreases |hay|
  {
    StartsWith(hay, needle) || (|hay| > 0 && Contains(hay[1..], needle))
  }

  /** The left-to-right search finds an occurrence exactly when there is one. */
  lemma {:induction false} ContainsIff(hay: string, needle: string)
    ensures Contains(hay, needle) <==> Occurs(hay, needle)
    decreases |hay|
  {
    if StartsWith(hay, needle) {
      assert OccursAt(hay, needle, 0);
    } else if |hay| > 0 {
      ContainsIff(hay[1..], needle);
      if Contains(hay[1..], needle) {
        var i :| OccursAt(hay[1..], needle, i);
        assert hay[1..][i..i + |needle|] == hay[i + 1..i + 1 + |needle|];
        assert OccursAt(hay, needle, i + 1);
      } else {
        forall i ensures !OccursAt(hay, needle, i) {
          if 1 <= i && i + |needle| <= |hay| {
            assert hay[1..][i - 1..i - 1 + |needle|] == hay[i..i + |needle|];
            assert !OccursAt(hay[1..], needle, i - 1);
          }
        }
      }
    }
  }

  /**
   * `s.replace(pattern, replacement)`: every leftmost, non-overlapping
   * occurrence of `pattern` is replaced, scanning from the left.
   */
  function ReplaceAll(s: string, pattern: string, replacement: string): (r: string)
    requires |pattern| > 0
    ensures |replacement| == |pattern| ==> |r| == |s|
    decreases |s|
  {
    if |s| == 0 then []
    else if StartsWith(s, pattern) then replacement + ReplaceAll(s[|pattern|..], pattern, replacement)
    else [s[0]] + ReplaceAll(s[1..], pattern, replacement)
  }

  /** `s.split(pattern)`: the pieces between the occurrences `ReplaceAll` finds. */
  function Split(s: string, pattern: string): (pieces: seq<string>)
    requires |pattern| > 0
    ensures |pieces| > 0
    decreases |s|
  {
    if |s| == 0 then [[]]
    else if StartsWith(s, pattern) then [[]] + Split(s[|pattern|..], pattern)
    else
      var rest := Split(s[1..], pattern);
      [[s[0]] + rest[0]] + rest[1..]
  }

  /** `pieces.join(separator)`. */
  function Join(pieces: seq<string>, separator: string): string
    requires |pieces| > 0
    decreases |pieces|
  {
    if |pieces| == 1 then pieces[0] else pieces[0] + separator + Join(pieces[1..], separator)
  }

  lemma JoinExtendsFirst(c: char, pieces: seq<string>, separator: string)
    requires |pieces| > 0
    ensures Join([[c] + pieces[0]] + pieces[1..], separator) == [c] + Join(pieces, separator)
  {
    var p := [[c] + pieces[0]] + pieces[1..];
    assert p[1..] == pieces[1..];
  }

  /** The first piece of a split is a prefix of the input. */
  lemma {:induction false} SplitFirstIsPrefix(s: string, pattern: string)
    requires |pattern| > 0
    ensures StartsWith(s, Split(s, pattern)[0])
    decreases |s|
  {
    if |s| > 0 && !StartsWith(s, pattern) {
      SplitFirstIsPrefix(s[1..], pattern);
      var first := Split(s[1..], pattern)[0];
      assert s[..1 + |first|] == [s[0]] + s[1..][..|first|];
    }
  }

  /** Replacing is joining the split pieces with the replacement. */
  lemma {:induction false} ReplaceIsJoinOfSplit(s: string, pattern: string, replacement: string)
    requires |pattern| > 0
    ensures ReplaceAll(s, pattern, replacement) == Join(Split(s, pattern), replacement)
    decreases |s|
  {
    if |s| == 0 {
    } else if StartsWith(s, pattern) {
      ReplaceIsJoinOfSplit(s[|pattern|..], pattern, replacement);
      var rest := Split(s[|pattern|..], pattern);
      assert ([[]] + rest)[1..] == rest;
    } else {
      ReplaceIsJoinOfSplit(s[1..], pattern, replacement);
      JoinExtendsFirst(s[0], Split(s[1..], pattern), replacement);
    }
  }

  /** Replacing a pattern by itself changes nothing. */
  lemma {:induction false} ReplaceBySelf(s: string, pattern: string)
    requires |pattern| > 0
    ensures ReplaceAll(s, pattern, pattern) == s
    decreases |s|
  {
    if |s| == 0 {
    } else if StartsWith(s, pattern) {
      ReplaceBySelf(s[|pattern|..], pattern);
      assert s == s[..|pattern|] + s[|pattern|..];
    } else {
      ReplaceBySelf(s[1..], pattern);
      assert s == [s[0]] + s[1..];
    }
  }

  /** Joining the pieces with the pattern itself gives back the input. */
  lemma SplitJoinRoundTrip(s: string, pattern: string)
    requires |pattern| > 0
    ensures Join(Split(s, pattern), pattern) == s
  {
    ReplaceIsJoinOfSplit(s, pattern, pattern);
    ReplaceBySelf(s, pattern);
  }

  /** No piece of a split contains the pattern: every occurrence was cut out. */
  lemma {:induction false} SplitPiecesFree(s: string, pattern: string)
    requires |pattern| > 0
    ensures forall k :: 0 <= k < |Split(s, pattern)| ==> !Occurs(Split(s, pattern)[k], pattern)
    decreases |s|
  {
    var pieces := Split(s, pattern);
    if |s| == 0 {
      assert forall i :: !OccursAt(pieces[0], pattern, i);
    } else if StartsWith(s, pattern) {
      var rest := Split(s[|pattern|..], pattern);
      SplitPiecesFree(s[|pattern|..], pattern);
      assert pieces == [[]] + rest;
      forall k | 0 <= k < |pieces| ensures !Occurs(pieces[k], pattern) {
        if k == 0 {
          assert forall i :: !OccursAt(pieces[0], pattern, i);
        } else {
          assert pieces[k] == rest[k - 1];
        }
      }
    } else {
      var rest := Split(s[1..], pattern);
      SplitPiecesFree(s[1..], pattern);
      SplitFirstIsPrefix(s[1..], pattern);
      var first := [s[0]] + rest[0];
      assert pieces == [first] + rest[1..];
      forall k | 0 <= k < |pieces| ensures !Occurs(pieces[k], pattern) {
        if k == 0 {
          forall i ensures !OccursAt(first, pattern, i) {
            if i == 0 && |pattern| <= |first| {
              assert first == s[..|first|];
              assert first[..|pattern|] == s[..|pattern|];
            } else if 0 < i && i + |pattern| <= |first| {
              assert first[i..i + |pattern|] == rest[0][i - 1..i - 1 + |pattern|];
              assert !OccursAt(rest[0], pattern, i - 1);
            }
          }
        } else {
          assert pieces[k] == rest[k];
        }
      }
    }
  }

  /** A string without the pattern is left as it is. */
  lemma {:induction false} ReplaceAbsent(s: string, pattern: string, replacement: string)
    requires |pattern| > 0
    requires !Occurs(s, pattern)
    ensures ReplaceAll(s, pattern, replacement) == s
    decreases |s|
  {
    if |s| > 0 {
      assert !StartsWith(s, pattern) by {
        if StartsWith(s, pattern) {
          assert OccursAt(s, pattern, 0);
        }
      }
      assert !Occurs(s[1..], pattern) by {
        if Occurs(s[1..], pattern) {
          var i :| OccursAt(s[1..], pattern, i);
          assert s[1..][i..i + |pattern|] == s[i + 1..i + 1 + |pattern|];
          assert OccursAt(s, pattern, i + 1);
        }
      }
      ReplaceAbsent(s[1..], pattern, replacement);
      assert s == [s[0]] + s[1..];
    }
  }

  /**
   * The whole meaning of `ReplaceAll`: the input cut at every leftmost
   * non-overlapping occurrence of the pattern, into pieces that contain no
   * occurrence, glued back with the
   * replacement; glued with the pattern they give the input again.
   */
  lemma ReplaceAllMeaning(s: string, pattern: string, replacement: string)
    requires |pattern| > 0
    ensures var pieces := Split(s, pattern);
      && ReplaceAll(s, pattern, replacement) == Join(pieces, replacement)
      && Join(pieces, pattern) == s
      && forall k :: 0 <= k < |pieces| ==> !Occurs(pieces[k], pattern)
  {
    ReplaceIsJoinOfSplit(s, pattern, replacement);
    SplitJoinRoundTrip(s, pattern);
    SplitPiecesFree(s, pattern);
  }
}
