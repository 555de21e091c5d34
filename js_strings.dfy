/**
 * JavaScript string operations over `seq<char>`: the `split` and `trim` of
 * the server actions, the `join` of the project edit form, and the
 * `startsWith` of the middleware, with the search for the next separator
 * that `split` performs.
 */
module JsStrings {
  import opened Common

  /** `sep` occurs in `s` starting at index `k`. */
  predicate OccursAt(s: string, sep: string, k: nat) {
    k + |sep| <= |s| && s[k..k + |sep|] == sep
  }

  /** `sep` occurs somewhere in `s`. */
  ghost predicate Contains(s: string, sep: string) {
    exists k: nat :: OccursAt(s, sep, k)
  }

  /** No character of `sep` after the first one equals the first one, so two
      occurrences of `sep` never overlap and none can straddle a copy of it. */
  predicate FirstCharUnique(sep: string) {
    forall k :: 0 < k < |sep| ==> sep[k] != sep[0]
  }

  /** The search inside `split`: the first index at or after `from` where
      `sep` occurs (IndexFromFound, IndexFromAbsent and IndexFromFirst below
      say so). */
  function IndexFrom(s: string, sep: string, from: nat): (r: Option<nat>)
    ensures r.Some? ==> from <= r.value && r.value + |sep| <= |s|
    decreases |s| - from
  {
    if |s| < from + |sep| then None
    else if OccursAt(s, sep, from) then Some(from)
    else IndexFrom(s, sep, from + 1)
  }

  /** `s.split(sep)` for a non-empty separator: the pieces between the
      left-to-right, non-overlapping occurrences of `sep`. */
  function Split(s: string, sep: string): (parts: seq<string>)
    requires |sep| > 0
    ensures |parts| >= 1
    decreases |s|
  {
    var r := IndexFrom(s, sep, 0);
    if r.None? then [s] else [s[..r.value]] + Split(s[r.value + |sep|..], sep)
  }

  /** The last element of a non-empty array (`parts.pop()`). */
  function Last(parts: seq<string>): string
    requires |parts| > 0
  {
    parts[|parts| - 1]
  }

  /** `parts.join(sep)`; an empty array joins to the empty string. */
  function Join(parts: seq<string>, sep: string): string
  {
    if |parts| == 0 then ""
    else if |parts| == 1 then parts[0]
    else parts[0] + sep + Join(parts[1..], sep)
  }

  /** `s.startsWith(prefix)`. */
  predicate StartsWith(s: string, prefix: string) {
    |prefix| <= |s| && s[..|prefix|] == prefix
  }

  /** The code points `String.prototype.trim` removes: ECMAScript WhiteSpace
      (including every space separator) and LineTerminator. */
  predicate IsSpace(c: char) {
    || c == '\t' || c == '\n' || c == '\U{B}' || c == '\U{C}' || c == '\r' || c == ' '
    || c == '\U{A0}' || c == '\U{1680}' || ('\U{2000}' <= c <= '\U{200A}')
    || c == '\U{2028}' || c == '\U{2029}' || c == '\U{202F}' || c == '\U{205F}'
    || c == '\U{3000}' || c == '\U{FEFF}'
  }

  /** A string with no white space at either end. */
  predicate Trimmed(s: string) {
    |s| == 0 || (!IsSpace(s[0]) && !IsSpace(s[|s| - 1]))
  }

  /** `s.trim()`: white space is stripped from the front, then from the back,
      until neither end is white space. */
  function Trim(s: string): string
    decreases |s|
  {
    if |s| > 0 && IsSpace(s[0]) then Trim(s[1..])
    else if |s| > 0 && IsSpace(s[|s| - 1]) then Trim(s[..|s| - 1])
    else s
  }

  // ---------------------------------------------------------------------
  // Lemmas about the search
  // ---------------------------------------------------------------------

  /** A found index is an occurrence, and none lies between `from` and it. */
  lemma {:induction false} IndexFromFound(s: string, sep: string, from: nat)
    requires IndexFrom(s, sep, from).Some?
    ensures OccursAt(s, sep, IndexFrom(s, sep, from).value)
    ensures forall k: nat :: from <= k < IndexFrom(s, sep, from).value ==> !OccursAt(s, sep, k)
    decreases |s| - from
  {
    if !OccursAt(s, sep, from) {
      IndexFromFound(s, sep, from + 1);
    }
  }

  /** When nothing is found, `sep` occurs nowhere at or after `from`. */
  lemma {:induction false} IndexFromAbsent(s: string, sep: string, from: nat)
    requires IndexFrom(s, sep, from).None?
    ensures forall k: nat :: from <= k ==> !OccursAt(s, sep, k)
    decreases |s| - from
  {
    if |s| >= from + |sep| {
      IndexFromAbsent(s, sep, from + 1);
    }
  }

  /** An occurrence with none before it (from `from` on) is the one found. */
  lemma {:induction false} IndexFromFirst(s: string, sep: string, from: nat, i: nat)
    requires from <= i && OccursAt(s, sep, i)
    requires forall k: nat :: from <= k < i ==> !OccursAt(s, sep, k)
    ensures IndexFrom(s, sep, from) == Some(i)
    decreases i - from
  {
    if from < i {
      assert !OccursAt(s, sep, from);
      IndexFromFirst(s, sep, from + 1, i);
    }
  }

  /** The search from the start succeeds exactly when `sep` occurs. */
  lemma ContainsIndex(s: string, sep: string)
    ensures Contains(s, sep) <==> IndexFrom(s, sep, 0).Some?
  {
    if IndexFrom(s, sep, 0).Some? {
      IndexFromFound(s, sep, 0);
    } else {
      IndexFromAbsent(s, sep, 0);
    }
  }

  // ---------------------------------------------------------------------
  // Lemmas about split and join
  // ---------------------------------------------------------------------

  /** The piece before the first occurrence holds none. */
  lemma PrefixBeforeFirstFree(s: string, sep: string, i: nat)
    requires |sep| > 0 && IndexFrom(s, sep, 0) == Some(i)
    ensures !Contains(s[..i], sep)
  {
    IndexFromFound(s, sep, 0);
    forall k: nat ensures !OccursAt(s[..i], sep, k) {
      if k + |sep| <= i {
        assert s[..i][k..k + |sep|] == s[k..k + |sep|];
        assert !OccursAt(s, sep, k);
      }
    }
  }

  /** Splitting a string in which `sep` is not found. */
  lemma SplitNone(s: string, sep: string)
    requires |sep| > 0 && IndexFrom(s, sep, 0).None?
    ensures Split(s, sep) == [s]
  {
  }

  /** One step of a split whose first occurrence of `sep` is at index `i`. */
  lemma SplitSome(s: string, sep: string, i: nat)
    requires |sep| > 0 && IndexFrom(s, sep, 0) == Some(i)
    ensures Split(s, sep) == [s[..i]] + Split(s[i + |sep|..], sep)
  {
  }

  /** Joining the pieces of a split with the same separator gives back the string. */
  lemma {:induction false} JoinSplit(s: string, sep: string)
    requires |sep| > 0
    ensures Join(Split(s, sep), sep) == s
    decreases |s|
  {
    var r := IndexFrom(s, sep, 0);
    if r.None? {
      SplitNone(s, sep);
    } else {
      var i := r.value;
      var rest := s[i + |sep|..];
      IndexFromFound(s, sep, 0);
      SplitSome(s, sep, i);
      JoinSplit(rest, sep);
      var parts := Split(s, sep);
      assert parts[1..] == Split(rest, sep);
      assert s == s[..i] + s[i..i + |sep|] + rest;
    }
  }

  /** No piece of a split contains the separator. */
  lemma {:induction false} SplitPartsFree(s: string, sep: string)
    requires |sep| > 0
    ensures forall p :: p in Split(s, sep) ==> !Contains(p, sep)
    decreases |s|
  {
    var r := IndexFrom(s, sep, 0);
    if r.None? {
      SplitNone(s, sep);
      ContainsIndex(s, sep);
    } else {
      var i := r.value;
      SplitSome(s, sep, i);
      SplitPartsFree(s[i + |sep|..], sep);
      PrefixBeforeFirstFree(s, sep, i);
    }
  }

  /** A string without the separator splits into itself alone. */
  lemma SplitOfFree(a: string, sep: string)
    requires |sep| > 0
    requires !Contains(a, sep)
    ensures Split(a, sep) == [a]
  {
    ContainsIndex(a, sep);
    SplitNone(a, sep);
  }

  /** The first occurrence of `sep` in `a + sep + b` is the one after `a`. */
  lemma SplitAfterFree(a: string, sep: string, b: string)
    requires |sep| > 0 && FirstCharUnique(sep)
    requires !Contains(a, sep)
    ensures Split(a + sep + b, sep) == [a] + Split(b, sep)
  {
    var s := a + sep + b;
    var n := |sep|;
    assert s[|a|..|a| + n] == sep;
    forall k: nat | k < |a| ensures !OccursAt(s, sep, k) {
      if k + n <= |a| {
        assert s[k..k + n] == a[k..k + n];
        assert !OccursAt(a, sep, k);
      } else if k + n <= |s| {
        var j := |a| - k;
        assert s[k..k + n][j] == s[|a|] == sep[0];
        assert sep[j] != sep[0];
      }
    }
    IndexFromFirst(s, sep, 0, |a|);
    SplitSome(s, sep, |a|);
    assert s[..|a|] == a;
    assert s[|a| + n..] == b;
  }

  /** Text appended after the first occurrence does not move it. */
  lemma FirstOccurrenceExtend(a: string, sep: string, b: string, i: nat)
    requires IndexFrom(a, sep, 0) == Some(i)
    ensures IndexFrom(a + b, sep, 0) == Some(i)
  {
    var s := a + b;
    var n := |sep|;
    IndexFromFound(a, sep, 0);
    assert s[i..i + n] == a[i..i + n];
    forall k: nat | k < i ensures !OccursAt(s, sep, k) {
      assert !OccursAt(a, sep, k);
      assert s[k..k + n] == a[k..k + n];
    }
    IndexFromFirst(s, sep, 0, i);
  }

  /** Text appended after the first occurrence only lengthens the rest. */
  lemma SplitPastFirst(a: string, sep: string, c: string, i: nat)
    requires |sep| > 0 && IndexFrom(a, sep, 0) == Some(i)
    ensures Split(a + c, sep) == [a[..i]] + Split(a[i + |sep|..] + c, sep)
  {
    FirstOccurrenceExtend(a, sep, c, i);
    var s := a + c;
    SplitSome(s, sep, i);
    assert s[..i] == a[..i];
    assert s[i + |sep|..] == a[i + |sep|..] + c;
  }

  /** The same, for a separator followed by more text. */
  lemma SplitPastFirstSep(a: string, sep: string, b: string, i: nat)
    requires |sep| > 0 && IndexFrom(a, sep, 0) == Some(i)
    ensures Split(a + sep + b, sep) == [a[..i]] + Split(a[i + |sep|..] + sep + b, sep)
  {
    SplitPastFirst(a, sep, sep + b, i);
    assert a + sep + b == a + (sep + b);
    assert a[i + |sep|..] + (sep + b) == a[i + |sep|..] + sep + b;
  }

  /** Splitting distributes over a separator-joined concatenation. */
  lemma {:induction false} SplitConcat(a: string, sep: string, b: string)
    requires |sep| > 0 && FirstCharUnique(sep)
    ensures Split(a + sep + b, sep) == Split(a, sep) + Split(b, sep)
    decreases |a|
  {
    var r := IndexFrom(a, sep, 0);
    if r.None? {
      ContainsIndex(a, sep);
      SplitNone(a, sep);
      SplitAfterFree(a, sep, b);
    } else {
      var i := r.value;
      var a2 := a[i + |sep|..];
      SplitPastFirstSep(a, sep, b, i);
      SplitConcat(a2, sep, b);
      SplitSome(a, sep, i);
      assert [a[..i]] + (Split(a2, sep) + Split(b, sep))
          == [a[..i]] + Split(a2, sep) + Split(b, sep);
    }
  }

  /** A split and the split of what follows its first occurrence end alike. */
  lemma SplitLastStep(s: string, sep: string, i: nat)
    requires |sep| > 0 && IndexFrom(s, sep, 0) == Some(i)
    ensures Last(Split(s, sep)) == Last(Split(s[i + |sep|..], sep))
  {
    SplitSome(s, sep, i);
  }

  /** The last piece of a split is no longer than the string. */
  lemma {:induction false} SplitLastLength(s: string, sep: string)
    requires |sep| > 0
    ensures |Last(Split(s, sep))| <= |s|
    decreases |s|
  {
    var r := IndexFrom(s, sep, 0);
    if r.None? {
      SplitNone(s, sep);
    } else {
      SplitLastStep(s, sep, r.value);
      SplitLastLength(s[r.value + |sep|..], sep);
    }
  }

  /** The last piece of a split is a suffix of the string. */
  lemma {:induction false} SplitLastSuffix(s: string, sep: string)
    requires |sep| > 0
    ensures |Last(Split(s, sep))| <= |s|
    ensures s[|s| - |Last(Split(s, sep))|..] == Last(Split(s, sep))
    decreases |s|
  {
    SplitLastLength(s, sep);
    var r := IndexFrom(s, sep, 0);
    if r.None? {
      SplitNone(s, sep);
    } else {
      var i := r.value;
      var rest := s[i + |sep|..];
      SplitLastStep(s, sep, i);
      SplitLastSuffix(rest, sep);
      var m := |Last(Split(rest, sep))|;
      assert s[|s| - m..] == rest[|rest| - m..];
    }
  }

  /** When the last piece of a split is shorter than the string, an occurrence
      of the separator ends right before it. */
  lemma {:induction false} SplitLastPreceded(s: string, sep: string)
    requires |sep| > 0
    ensures var m := |Last(Split(s, sep))|;
      m < |s| ==> m + |sep| <= |s| && OccursAt(s, sep, |s| - m - |sep|)
    decreases |s|
  {
    var r := IndexFrom(s, sep, 0);
    if r.None? {
      SplitNone(s, sep);
    } else {
      var i := r.value;
      var rest := s[i + |sep|..];
      SplitLastStep(s, sep, i);
      SplitLastLength(rest, sep);
      var m := |Last(Split(rest, sep))|;
      assert m == |Last(Split(s, sep))|;
      if m < |rest| {
        SplitLastPreceded(rest, sep);
        OccursInSuffix(s, sep, i + |sep|, |rest| - m - |sep|);
        assert |s| - m - |sep| == i + |sep| + (|rest| - m - |sep|);
      } else {
        IndexFromFound(s, sep, 0);
        assert |s| - m - |sep| == i;
      }
    }
  }

  /** An occurrence in a suffix is one in the whole string. */
  lemma OccursInSuffix(s: string, sep: string, j: nat, k: nat)
    requires j <= |s| && OccursAt(s[j..], sep, k)
    ensures OccursAt(s, sep, j + k)
  {
    assert s[j + k..j + k + |sep|] == s[j..][k..k + |sep|];
  }

  /** The last piece of a split holds no separator. */
  lemma SplitLastFree(s: string, sep: string)
    requires |sep| > 0
    ensures !Contains(Last(Split(s, sep)), sep)
  {
    SplitPartsFree(s, sep);
    var parts := Split(s, sep);
    assert parts[|parts| - 1] in parts;
  }

  /** For a one-character separator, containing it means containing the character. */
  lemma ContainsChar(s: string, c: char)
    ensures Contains(s, [c]) <==> c in s
  {
    if c in s {
      var k :| 0 <= k < |s| && s[k] == c;
      assert s[k..k + 1] == [c];
      assert OccursAt(s, [c], k);
    }
    if Contains(s, [c]) {
      var k: nat :| OccursAt(s, [c], k);
      assert s[k] == s[k..k + 1][0] == c;
    }
  }

  // ---------------------------------------------------------------------
  // Lemmas about trim
  // ---------------------------------------------------------------------

  /** A trimmed string has no white space at either end. */
  lemma {:induction false} TrimIsTrimmed(s: string)
    ensures Trimmed(Trim(s))
    decreases |s|
  {
    if |s| > 0 && IsSpace(s[0]) {
      TrimIsTrimmed(s[1..]);
    } else if |s| > 0 && IsSpace(s[|s| - 1]) {
      TrimIsTrimmed(s[..|s| - 1]);
    }
  }

  /** `s[i..j]` has nothing but white space before and after it in `s`. */
  predicate SpaceAround(s: string, i: nat, j: nat) {
    && i <= j <= |s|
    && (forall k :: 0 <= k < i ==> IsSpace(s[k]))
    && (forall k :: j <= k < |s| ==> IsSpace(s[k]))
  }

  /** A window of `s[1..]` is one of `s` after a leading space. */
  lemma SpaceAroundFront(s: string, i: nat, j: nat)
    requires |s| > 0 && IsSpace(s[0]) && SpaceAround(s[1..], i, j)
    ensures SpaceAround(s, i + 1, j + 1) && s[1..][i..j] == s[i + 1..j + 1]
  {
    assert forall k :: 1 <= k < |s| ==> s[k] == s[1..][k - 1];
  }

  /** A window of `s[..|s| - 1]` is one of `s` before a trailing space. */
  lemma SpaceAroundBack(s: string, i: nat, j: nat)
    requires |s| > 0 && IsSpace(s[|s| - 1]) && SpaceAround(s[..|s| - 1], i, j)
    ensures SpaceAround(s, i, j) && s[..|s| - 1][i..j] == s[i..j]
  {
    assert forall k :: 0 <= k < |s| - 1 ==> s[k] == s[..|s| - 1][k];
  }

  /** Trimming only cuts white space off the ends: the result is a slice of
      `s` with nothing but white space before and after it. */
  lemma {:induction false} TrimIsSlice(s: string)
    ensures exists i: nat, j: nat :: SpaceAround(s, i, j) && Trim(s) == s[i..j]
    decreases |s|
  {
    if |s| > 0 && IsSpace(s[0]) {
      TrimIsSlice(s[1..]);
      var i: nat, j: nat :| SpaceAround(s[1..], i, j) && Trim(s[1..]) == s[1..][i..j];
      SpaceAroundFront(s, i, j);
    } else if |s| > 0 && IsSpace(s[|s| - 1]) {
      TrimIsSlice(s[..|s| - 1]);
      var i: nat, j: nat :| SpaceAround(s[..|s| - 1], i, j) && Trim(s[..|s| - 1]) == s[..|s| - 1][i..j];
      SpaceAroundBack(s, i, j);
    } else {
      assert SpaceAround(s, 0, |s|) && s[0..|s|] == s;
    }
  }

  /** A string of white space alone trims to the empty string. */
  lemma {:induction false} TrimAllSpace(s: string)
    requires forall c :: c in s ==> IsSpace(c)
    ensures Trim(s) == ""
    decreases |s|
  {
    if |s| > 0 {
      assert s[0] in s;
      assert forall c :: c in s[1..] ==> c in s;
      TrimAllSpace(s[1..]);
    }
  }

  /** Trimming a string that is already trimmed changes nothing. */
  lemma TrimTrimmed(s: string)
    requires Trimmed(s)
    ensures Trim(s) == s
  {
  }

  /** Trimming removes one leading space in front of a trimmed, non-empty string. */
  lemma TrimLeadingSpace(s: string)
    requires Trimmed(s) && |s| > 0
    ensures Trim(" " + s) == s
  {
    assert (" " + s)[1..] == s;
  }

  /** Trimming never introduces a character. */
  lemma {:induction false} TrimChars(s: string, c: char)
    requires c !in s
    ensures c !in Trim(s)
    decreases |s|
  {
    if |s| > 0 && IsSpace(s[0]) {
      assert forall k :: 0 <= k < |s| - 1 ==> s[1..][k] == s[k + 1];
      TrimChars(s[1..], c);
    } else if |s| > 0 && IsSpace(s[|s| - 1]) {
      assert forall k :: 0 <= k < |s| - 1 ==> s[..|s| - 1][k] == s[k];
      TrimChars(s[..|s| - 1], c);
    }
  }
}
