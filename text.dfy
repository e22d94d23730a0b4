/**
 * The string operations of Ruby and Python that the harvester and its scripts
 * rely on, written out with their exact semantics: `include?`, `sub`, `gsub`,
 * `split` with a one-character separator, `blank?`, `end_with?`, `slice` and
 * the nil-returning array index.
 */
module Text {
  import opened Wrappers

  /** `sub` occurs in `s` starting at index `i`. */
  ghost predicate OccursAt(s: string, sub: string, i: nat) {
    i + |sub| <= |s| && s[i..i + |sub|] == sub
  }

  /** Ruby's `String#include?`: `sub` occurs somewhere in `s`. */
  function Contains(s: string, sub: string): bool
    decreases |s|
  {
    if |sub| > |s| then false
    else if s[..|sub|] == sub then true
    else Contains(s[1..], sub)
  }

  /** `Contains` is exactly "occurs at some index". */
  lemma {:induction false} ContainsIff(s: string, sub: string)
    ensures Contains(s, sub) <==> exists i: nat :: OccursAt(s, sub, i)
    decreases |s|
  {
    if |sub| > |s| {
    } else if s[..|sub|] == sub {
      assert OccursAt(s, sub, 0);
    } else {
      ContainsIff(s[1..], sub);
      if Contains(s[1..], sub) {
        var i: nat :| OccursAt(s[1..], sub, i);
        assert s[i + 1..i + 1 + |sub|] == s[1..][i..i + |sub|];
        assert OccursAt(s, sub, i + 1);
      }
      if exists i: nat :: OccursAt(s, sub, i) {
        var i: nat :| OccursAt(s, sub, i);
        assert i != 0;
        assert s[1..][i - 1..i - 1 + |sub|] == s[i..i + |sub|];
        assert OccursAt(s[1..], sub, i - 1);
      }
    }
  }

  /** A string contains itself wherever it is embedded. */
  lemma {:induction false} ContainsInfix(a: string, sub: string, b: string)
    ensures Contains(a + sub + b, sub)
  {
    var s := a + sub + b;
    assert s[|a|..|a| + |sub|] == sub;
    assert OccursAt(s, sub, |a|);
    ContainsIff(s, sub);
  }

  /** What a string contains, any string it is embedded in contains. */
  lemma ContainsWithin(x: string, b: string, y: string, sub: string)
    requires Contains(b, sub)
    ensures Contains(x + b + y, sub)
  {
    var s := x + b + y;
    ContainsIff(b, sub);
    var k: nat :| OccursAt(b, sub, k);
    assert s[|x| + k..|x| + k + |sub|] == b[k..k + |sub|];
    assert OccursAt(s, sub, |x| + k);
    ContainsIff(s, sub);
  }

  /** A string no longer than the pattern contains it only by being it. */
  lemma ContainsShort(s: string, sub: string)
    requires |s| <= |sub|
    ensures Contains(s, sub) <==> s == sub
  {
  }

  /**
   * Ruby's `String#sub(pat, rep)` with a string pattern: the first occurrence
   * of `pat`, scanning from the left, is replaced by `rep`.
   */
  function SubFirst(s: string, pat: string, rep: string): string
    decreases |s|
  {
    if |pat| > |s| then s
    else if s[..|pat|] == pat then rep + s[|pat|..]
    else [s[0]] + SubFirst(s[1..], pat, rep)
  }

  /** Without an occurrence, `sub` leaves the string as it is. */
  lemma {:induction false} SubFirstAbsent(s: string, pat: string, rep: string)
    requires !Contains(s, pat)
    ensures SubFirst(s, pat, rep) == s
    decreases |s|
  {
    if |pat| <= |s| {
      SubFirstAbsent(s[1..], pat, rep);
    }
  }

  /** A slice of `s[1..]` is the slice of `s` one position further right. */
  lemma SliceOfTail(s: string, a: nat, b: nat)
    requires 1 <= a <= b <= |s|
    ensures s[1..][a - 1..b - 1] == s[a..b]
  {
    assert |s[1..][a - 1..b - 1]| == |s[a..b]|;
    forall k | 0 <= k < b - a
      ensures s[1..][a - 1..b - 1][k] == s[a..b][k]
    {
    }
  }

  /** The index of the leftmost occurrence of `pat` in `s`, if any. */
  function IndexOf(s: string, pat: string): (r: Option<nat>)
    ensures r.Some? ==> r.value + |pat| <= |s|
    decreases |s|
  {
    if |pat| > |s| then None
    else if s[..|pat|] == pat then Some(0)
    else
      match IndexOf(s[1..], pat)
      case None => None
      case Some(i) => Some(i + 1)
  }

  /** `IndexOf` finds an occurrence, and no occurrence lies to its left. */
  lemma {:induction false} IndexOfIsLeftmost(s: string, pat: string)
    ensures IndexOf(s, pat).Some? ==> OccursAt(s, pat, IndexOf(s, pat).value)
    ensures forall j: nat | IndexOf(s, pat).None? || j < IndexOf(s, pat).value :: !OccursAt(s, pat, j)
    decreases |s|
  {
    if |pat| <= |s| && s[..|pat|] != pat {
      IndexOfIsLeftmost(s[1..], pat);
      var r := IndexOf(s[1..], pat);
      if r.Some? {
        SliceOfTail(s, r.value + 1, r.value + 1 + |pat|);
      }
      forall j: nat | IndexOf(s, pat).None? || j < IndexOf(s, pat).value
        ensures !OccursAt(s, pat, j)
      {
        if j > 0 && j + |pat| <= |s| {
          SliceOfTail(s, j, j + |pat|);
          assert !OccursAt(s[1..], pat, j - 1);
        }
      }
    }
  }

  /** `sub` splices `rep` in at the leftmost occurrence, and changes nothing without one. */
  lemma {:induction false} SubFirstSplices(s: string, pat: string, rep: string)
    ensures IndexOf(s, pat).None? ==> SubFirst(s, pat, rep) == s
    ensures IndexOf(s, pat).Some? ==>
      var i := IndexOf(s, pat).value;
      SubFirst(s, pat, rep) == s[..i] + rep + s[i + |pat|..]
    decreases |s|
  {
    if |pat| <= |s| && s[..|pat|] != pat {
      SubFirstSplices(s[1..], pat, rep);
      var r := IndexOf(s[1..], pat);
      if r.Some? {
        var i := r.value;
        assert [s[0]] + s[1..][..i] == s[..i + 1];
        assert s[1..][i + |pat|..] == s[i + 1 + |pat|..];
      }
    }
  }

  /**
   * Ruby's `String#gsub(pat, '')` with a non-empty string pattern: every
   * occurrence found by a left-to-right, non-overlapping scan is removed.
   * Occurrences that only arise by joining the pieces are not removed.
   */
  function RemoveAll(s: string, pat: string): (r: string)
    requires |pat| > 0
    ensures |r| <= |s|
    decreases |s|
  {
    if |pat| > |s| then s
    else if s[..|pat|] == pat then RemoveAll(s[|pat|..], pat)
    else [s[0]] + RemoveAll(s[1..], pat)
  }

  /** Without an occurrence, `gsub` leaves the string as it is. */
  lemma {:induction false} RemoveAllAbsent(s: string, pat: string)
    requires |pat| > 0
    requires !Contains(s, pat)
    ensures RemoveAll(s, pat) == s
    decreases |s|
  {
    if |pat| <= |s| {
      RemoveAllAbsent(s[1..], pat);
    }
  }

  /** Ruby's `String#end_with?`. */
  predicate EndsWith(s: string, suffix: string) {
    |suffix| <= |s| && s[|s| - |suffix|..] == suffix
  }

  /** Ruby's `String#slice(0, n)`: at most the first `n` characters. */
  function Take(s: string, n: nat): (r: string)
    ensures |r| <= n && |r| <= |s|
    ensures r == s[..|r|]
    ensures |s| <= n ==> r == s
  {
    if |s| <= n then s else s[..n]
  }

  /** The characters Ruby's `[[:space:]]` class matches in ASCII. */
  predicate IsSpace(c: char) {
    c == ' ' || c == '\t' || c == '\n' || c == '\r' || c == '\U{B}' || c == '\U{C}'
  }

  /** Ruby's `String#blank?`: empty or made of white space only. */
  predicate IsBlank(s: string) {
    forall i | 0 <= i < |s| :: IsSpace(s[i])
  }

  /** Ruby's `blank?` on a value that may be `nil`. */
  predicate IsBlankOrNil(s: Option<string>) {
    s.None? || IsBlank(s.value)
  }

  /** ASCII lower-casing, as a case-insensitive regular expression compares. */
  function Lower(c: char): char {
    if 'A' <= c <= 'Z' then (c as int + 32) as char else c
  }

  function LowerString(s: string): (r: string)
    ensures |r| == |s|
    ensures forall i | 0 <= i < |s| :: r[i] == Lower(s[i])
  {
    seq(|s|, i requires 0 <= i < |s| => Lower(s[i]))
  }

  /** A match of `/pat/i` for a lower-case literal pattern. */
  predicate ContainsIgnoringCase(s: string, pat: string) {
    Contains(LowerString(s), pat)
  }

  /**
   * The fields of `s` between occurrences of `sep`, empty ones included
   * (Python's `str.split(sep)`, Ruby's `split(sep, -1)`).
   */
  function Fields(s: string, sep: char): (r: seq<string>)
    ensures |r| >= 1
    decreases |s|
  {
    if |s| == 0 then [""]
    else
      var rest := Fields(s[1..], sep);
      if s[0] == sep then [""] + rest else [[s[0]] + rest[0]] + rest[1..]
  }

  /** The inverse of `Fields`: the fields joined back with the separator. */
  function Join(fields: seq<string>, sep: char): string
    requires |fields| >= 1
    decreases |fields|
  {
    if |fields| == 1 then fields[0] else fields[0] + [sep] + Join(fields[1..], sep)
  }

  /** Splitting on `sep` and joining with `sep` gives the string back. */
  lemma {:induction false} JoinFields(s: string, sep: char)
    ensures Join(Fields(s, sep), sep) == s
    decreases |s|
  {
    if |s| > 0 {
      var rest := Fields(s[1..], sep);
      JoinFields(s[1..], sep);
      if s[0] == sep {
        assert Fields(s, sep) == [""] + rest;
        assert Join([""] + rest, sep) == "" + [sep] + Join(rest, sep);
      } else {
        var f := Fields(s, sep);
        assert f == [[s[0]] + rest[0]] + rest[1..];
        if |rest| == 1 {
          assert Join(f, sep) == [s[0]] + rest[0];
        } else {
          assert f[1..] == rest[1..];
          assert Join(rest, sep) == rest[0] + [sep] + Join(rest[1..], sep);
          assert Join(f, sep) == [s[0]] + rest[0] + [sep] + Join(rest[1..], sep);
        }
      }
    }
  }

  /** No field contains the separator. */
  lemma {:induction false} FieldsAvoidSeparator(s: string, sep: char)
    ensures forall k | 0 <= k < |Fields(s, sep)| :: sep !in Fields(s, sep)[k]
    decreases |s|
  {
    if |s| > 0 {
      FieldsAvoidSeparator(s[1..], sep);
    }
  }

  /** A string without the separator is a single field. */
  lemma {:induction false} FieldsWithoutSeparator(a: string, sep: char)
    requires sep !in a
    ensures Fields(a, sep) == [a]
    decreases |a|
  {
    if |a| > 0 {
      FieldsWithoutSeparator(a[1..], sep);
      assert [a[0]] + a[1..] == a;
    }
  }

  /** A leading field without the separator is split off first. */
  lemma {:induction false} FieldsOfJoined(a: string, sep: char, rest: string)
    requires sep !in a
    ensures Fields(a + [sep] + rest, sep) == [a] + Fields(rest, sep)
    decreases |a|
  {
    if |a| == 0 {
      assert a + [sep] + rest == [sep] + rest;
      assert ([sep] + rest)[1..] == rest;
    } else {
      FieldsOfJoined(a[1..], sep, rest);
      assert (a + [sep] + rest)[1..] == a[1..] + [sep] + rest;
      assert [a[0]] + a[1..] == a;
    }
  }

  /** Ruby drops the empty fields at the end of a `split` result. */
  function DropTrailingEmpty(fields: seq<string>): (r: seq<string>)
    ensures r <= fields
    ensures r == [] || r[|r| - 1] != ""
    ensures forall k | |r| <= k < |fields| :: fields[k] == ""
  {
    if fields == [] then []
    else if fields[|fields| - 1] == "" then DropTrailingEmpty(fields[..|fields| - 1])
    else fields
  }

  /** Ruby's `String#split(sep)` with a one-character, non-space separator. */
  function Split(s: string, sep: char): seq<string> {
    DropTrailingEmpty(Fields(s, sep))
  }

  /** Ruby's `array[i]`: the element, or `nil` past the end. */
  function At<T>(xs: seq<T>, i: nat): (r: Option<T>)
    ensures r.Some? <==> i < |xs|
    ensures r.Some? ==> r.value == xs[i]
  {
    if i < |xs| then Some(xs[i]) else None
  }

  /** Ruby's `s.split(sep)[i]`. */
  function Segment(s: string, sep: char, i: nat): Option<string> {
    At(Split(s, sep), i)
  }

  /** A segment that Ruby returns is a field of the plain split. */
  lemma SegmentIsField(s: string, sep: char, i: nat)
    requires Segment(s, sep, i).Some?
    ensures i < |Fields(s, sep)| && Segment(s, sep, i).value == Fields(s, sep)[i]
  {
  }

  /** `(a + sep + b).split(sep)[1]` is `b` when neither part holds the separator. */
  lemma SecondSegment(a: string, sep: char, b: string)
    requires sep !in a && sep !in b && b != ""
    ensures Segment(a + [sep] + b, sep, 1) == Some(b)
  {
    FieldsOfJoined(a, sep, b);
    FieldsWithoutSeparator(b, sep);
  }

  /** `(a + sep + b + sep + c).split(sep)[2]` is `c` when no part holds the separator. */
  lemma ThirdSegment(a: string, b: string, sep: char, c: string)
    requires sep !in a && sep !in b && sep !in c && c != ""
    ensures Segment(a + [sep] + b + [sep] + c, sep, 2) == Some(c)
  {
    FieldsOfJoined(b, sep, c);
    assert a + [sep] + b + [sep] + c == a + [sep] + (b + [sep] + c);
    FieldsOfJoined(a, sep, b + [sep] + c);
    FieldsWithoutSeparator(c, sep);
  }
}
