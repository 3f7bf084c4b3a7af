/**
 * The string operations the detector relies on: `strings.ToLower`,
 * `strings.Contains` and `strings.ReplaceAll` from Go's standard library,
 * over `seq<char>`.  Lower-casing is ASCII only.
 */
module Text {

  /** Lower-cases one ASCII letter; every other character is left alone. */
  function LowerChar(c: char): char
  {
    if 'A' <= c <= 'Z' then (c as int + 32) as char else c
  }

  /** ASCII model of `strings.ToLower`. */
  function Lower(s: string): (r: string)
    ensures |r| == |s|
    ensures forall i | 0 <= i < |s| :: r[i] == LowerChar(s[i])
  {
    seq(|s|, i requires 0 <= i < |s| => LowerChar(s[i]))
  }

  /** Lower-casing a lower-cased string changes nothing more. */
  lemma LowerIdempotent(s: string)
    ensures Lower(Lower(s)) == Lower(s)
  {
  }

  /** A lower-cased string holds no ASCII capital letter. */
  lemma LowerHasNoCapital(s: string)
    ensures forall i | 0 <= i < |s| :: !('A' <= Lower(s)[i] <= 'Z')
  {
  }

  /** `sub` occurs in `s` starting at index `i`. */
  predicate OccursAt(s: string, sub: string, i: nat)
  {
    i + |sub| <= |s| && s[i..i + |sub|] == sub
  }

  /** `strings.Contains`: the empty string occurs in every string. */
  predicate Contains(s: string, sub: string)
  {
    exists i: nat | i <= |s| :: OccursAt(s, sub, i)
  }

  /**
   * `strings.ReplaceAll(s, pat, rep)` for a non-empty `pat`: scanning from
   * the left, every occurrence of `pat` that does not overlap an earlier
   * replaced one is replaced by `rep`; the replacement text is not scanned
   * again.
   */
  function ReplaceAll(s: string, pat: string, rep: string): string
    requires |pat| > 0
    decreases |s|
  {
    if |s| < |pat| then s
    else if s[..|pat|] == pat then rep + ReplaceAll(s[|pat|..], pat, rep)
    else [s[0]] + ReplaceAll(s[1..], pat, rep)
  }

  /** Without an occurrence of the pattern, nothing is replaced. */
  lemma {:induction false} ReplaceAllWithoutOccurrence(s: string, pat: string, rep: string)
    requires |pat| > 0 && !Contains(s, pat)
    ensures ReplaceAll(s, pat, rep) == s
    decreases |s|
  {
    if |s| >= |pat| {
      assert !OccursAt(s, pat, 0);
      NoOccurrenceInTail(s, pat);
      ReplaceAllWithoutOccurrence(s[1..], pat, rep);
      assert s == [s[0]] + s[1..];
    }
  }

  /** An occurrence in `s[1..]` is an occurrence in `s`. */
  lemma NoOccurrenceInTail(s: string, pat: string)
    requires |s| > 0
    ensures Contains(s[1..], pat) ==> Contains(s, pat)
  {
    if Contains(s[1..], pat) {
      var i: nat :| i <= |s[1..]| && OccursAt(s[1..], pat, i);
      assert s[i + 1..i + 1 + |pat|] == s[1..][i..i + |pat|];
      assert OccursAt(s, pat, i + 1);
    }
  }

  /**
   * `strings.Split(s, sep)` for a non-empty `sep`: the pieces of `s` between
   * the leftmost non-overlapping occurrences of `sep`.  Always at least one
   * piece.
   */
  function Split(s: string, sep: string): (parts: seq<string>)
    requires |sep| > 0
    ensures |parts| >= 1
    decreases |s|
  {
    if |s| < |sep| then [s]
    else if s[..|sep|] == sep then [""] + Split(s[|sep|..], sep)
    else
      var t := Split(s[1..], sep);
      [[s[0]] + t[0]] + t[1..]
  }

  /** `strings.Join(parts, sep)`. */
  function Join(parts: seq<string>, sep: string): string
    requires |parts| >= 1
  {
    if |parts| == 1 then parts[0] else parts[0] + sep + Join(parts[1..], sep)
  }

  /** Prepending a character to the first piece prepends it to the joined string. */
  lemma JoinConsFirst(c: char, t: seq<string>, sep: string)
    requires |t| >= 1
    ensures Join([[c] + t[0]] + t[1..], sep) == [c] + Join(t, sep)
  {
    var u := [[c] + t[0]] + t[1..];
    assert u[1..] == t[1..];
  }

  /**
   * Replacing every occurrence is cutting at every occurrence and gluing the
   * pieces back together with the replacement text.
   */
  lemma {:induction false} ReplaceAllIsJoinOfSplit(s: string, pat: string, rep: string)
    requires |pat| > 0
    ensures ReplaceAll(s, pat, rep) == Join(Split(s, pat), rep)
    decreases |s|
  {
    if |s| < |pat| {
    } else if s[..|pat|] == pat {
      ReplaceAllIsJoinOfSplit(s[|pat|..], pat, rep);
      var t := Split(s[|pat|..], pat);
      assert ([""] + t)[1..] == t;
    } else {
      ReplaceAllIsJoinOfSplit(s[1..], pat, rep);
      JoinConsFirst(s[0], Split(s[1..], pat), rep);
    }
  }

  /** Replacing a pattern by itself gives back the input. */
  lemma {:induction false} ReplaceAllByItself(s: string, pat: string)
    requires |pat| > 0
    ensures ReplaceAll(s, pat, pat) == s
    decreases |s|
  {
    if |s| < |pat| {
    } else if s[..|pat|] == pat {
      ReplaceAllByItself(s[|pat|..], pat);
      assert s == s[..|pat|] + s[|pat|..];
    } else {
      ReplaceAllByItself(s[1..], pat);
      assert s == [s[0]] + s[1..];
    }
  }

  /** Round trip: joining the pieces with the separator rebuilds the string. */
  lemma SplitJoinRoundTrip(s: string, sep: string)
    requires |sep| > 0
    ensures Join(Split(s, sep), sep) == s
  {
    ReplaceAllIsJoinOfSplit(s, sep, sep);
    ReplaceAllByItself(s, sep);
  }

  /** The first piece of a split is a prefix of the input. */
  lemma {:induction false} SplitFirstIsPrefix(s: string, sep: string)
    requires |sep| > 0
    ensures Split(s, sep)[0] <= s
    decreases |s|
  {
    if |s| < |sep| {
    } else if s[..|sep|] == sep {
    } else {
      SplitFirstIsPrefix(s[1..], sep);
    }
  }

  /** No piece of a split contains the separator. */
  lemma {:induction false} SplitPiecesAreFree(s: string, sep: string)
    requires |sep| > 0
    ensures forall k | 0 <= k < |Split(s, sep)| :: !Contains(Split(s, sep)[k], sep)
    decreases |s|
  {
    if |s| < |sep| {
      NotContainsShort(s, sep);
    } else if s[..|sep|] == sep {
      SplitPiecesAreFree(s[|sep|..], sep);
      NotContainsShort("", sep);
      var t := Split(s[|sep|..], sep);
      assert Split(s, sep) == [""] + t;
    } else {
      SplitPiecesAreFree(s[1..], sep);
      var t := Split(s[1..], sep);
      assert Split(s, sep) == [[s[0]] + t[0]] + t[1..];
      SplitFirstIsPrefix(s[1..], sep);
      var head := [s[0]] + t[0];
      assert head <= s;
      if Contains(head, sep) {
        var i: nat :| i <= |head| && OccursAt(head, sep, i);
        if i == 0 {
          assert false;
        } else {
          assert t[0][i - 1..i - 1 + |sep|] == head[i..i + |sep|];
          assert OccursAt(t[0], sep, i - 1);
          assert false;
        }
      }
    }
  }

  /** A string shorter than `sub` does not contain it. */
  lemma NotContainsShort(s: string, sub: string)
    requires |s| < |sub|
    ensures !Contains(s, sub)
  {
  }

  /** Where no occurrence starts, the first character is copied. */
  lemma ReplaceAllCopiesFirst(s: string, pat: string, rep: string)
    requires |pat| > 0 && |s| > 0 && !OccursAt(s, pat, 0)
    ensures ReplaceAll(s, pat, rep) == [s[0]] + ReplaceAll(s[1..], pat, rep)
  {
    if |s| < |pat| {
      assert s == [s[0]] + s[1..];
    }
  }

  /** No occurrence starting in `a` means none starting in `a[1..]`. */
  lemma NoOccurrenceInPrefixTail(a: string, b: string, pat: string)
    requires |a| > 0
    requires forall i: nat | i < |a| :: !OccursAt(a + b, pat, i)
    ensures forall i: nat | i < |a| - 1 :: !OccursAt(a[1..] + b, pat, i)
  {
    var s := a + b;
    var t := a[1..] + b;
    forall i: nat | i < |a| - 1
      ensures !OccursAt(t, pat, i)
    {
      assert !OccursAt(s, pat, i + 1);
      if i + |pat| <= |t| {
        assert s[i + 1..i + 1 + |pat|] == t[i..i + |pat|];
      }
    }
  }

  /** A prefix in which no occurrence of the pattern starts is copied as is. */
  lemma {:induction false} ReplaceAllSkipsPrefix(a: string, b: string, pat: string, rep: string)
    requires |pat| > 0
    requires forall i: nat | i < |a| :: !OccursAt(a + b, pat, i)
    ensures ReplaceAll(a + b, pat, rep) == a + ReplaceAll(b, pat, rep)
    decreases |a|
  {
    if a != [] {
      var s := a + b;
      assert s[1..] == a[1..] + b;
      ReplaceAllCopiesFirst(s, pat, rep);
      NoOccurrenceInPrefixTail(a, b, pat);
      ReplaceAllSkipsPrefix(a[1..], b, pat, rep);
      var tail := ReplaceAll(b, pat, rep);
      assert ReplaceAll(s, pat, rep) == [a[0]] + (a[1..] + tail);
      assert [a[0]] + (a[1..] + tail) == ([a[0]] + a[1..]) + tail;
      assert [a[0]] + a[1..] == a;
    } else {
      assert a + b == b;
    }
  }

  /** An occurrence at the front is replaced and the scan resumes after it. */
  lemma ReplaceAllAtFront(b: string, pat: string, rep: string)
    requires |pat| > 0
    ensures ReplaceAll(pat + b, pat, rep) == rep + ReplaceAll(b, pat, rep)
  {
    assert (pat + b)[..|pat|] == pat && (pat + b)[|pat|..] == b;
  }

  /** A string in which the pattern's first character does not occur holds
      no occurrence of the pattern. */
  lemma NoOccurrenceWithoutFirstChar(s: string, pat: string, k: nat)
    requires |pat| > 0 && k <= |s|
    requires forall i | 0 <= i < k :: s[i] != pat[0]
    ensures forall i: nat | i < k :: !OccursAt(s, pat, i)
  {
    forall i: nat | i < k
      ensures !OccursAt(s, pat, i)
    {
      if i + |pat| <= |s| {
        assert s[i..i + |pat|][0] == s[i];
      }
    }
  }

  /** `s` does not contain the character `c`. */
  predicate FreeOf(s: string, c: char)
  {
    forall i | 0 <= i < |s| :: s[i] != c
  }

  /** A prefix without the pattern's first character is copied as is. */
  lemma ReplaceAllSkipsFree(a: string, b: string, pat: string, rep: string)
    requires |pat| > 0 && FreeOf(a, pat[0])
    ensures ReplaceAll(a + b, pat, rep) == a + ReplaceAll(b, pat, rep)
  {
    NoOccurrenceWithoutFirstChar(a + b, pat, |a|);
    ReplaceAllSkipsPrefix(a, b, pat, rep);
  }

  /** A string without the pattern's first character is left unchanged. */
  lemma ReplaceAllOfFree(s: string, pat: string, rep: string)
    requires |pat| > 0 && FreeOf(s, pat[0])
    ensures ReplaceAll(s, pat, rep) == s
  {
    ReplaceAllSkipsFree(s, "", pat, rep);
    assert s + "" == s;
  }
}
