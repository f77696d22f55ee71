/** The string operations the store relies on: `startsWith`, `endsWith` and a
    literal `split` on a delimiter, together with `Join`, which undoes it. */
module Strings {

  /** `s.startsWith(p)` */
  predicate StartsWith(s: string, p: string) {
    |p| <= |s| && s[..|p|] == p
  }

  /** `s.endsWith(suffix)`; every string ends with the empty string. */
  predicate EndsWith(s: string, suffix: string) {
    |suffix| <= |s| && s[|s| - |suffix|..] == suffix
  }

  /** `d` occurs inside `s` starting at position `i`. */
  ghost predicate OccursAt(d: string, s: string, i: int) {
    0 <= i && i + |d| <= |s| && s[i..i + |d|] == d
  }

  /** `d` occurs somewhere inside `s`. */
  ghost predicate Occurs(d: string, s: string) {
    exists i :: OccursAt(d, s, i)
  }

  /** The parts separated by `d`: `Join(["a", "b"], "/") == "a/b"`. */
  function Join(parts: seq<string>, d: string): string
    requires |parts| >= 1
  {
    if |parts| == 1 then parts[0] else parts[0] + d + Join(parts[1..], d)
  }

  /** Splits `s` at every occurrence of `d`, scanning left to right and
      keeping empty parts; a string without `d` (the empty string included)
      is a single part. */
  function Split(s: string, d: string): (parts: seq<string>)
    requires |d| > 0
    ensures |parts| >= 1
    decreases |s|
  {
    if |s| < |d| then [s]
    else if s[..|d|] == d then [""] + Split(s[|d|..], d)
    else
      var rest := Split(s[1..], d);
      [[s[0]] + rest[0]] + rest[1..]
  }

  /** Prepending a character to the first part prepends it to the joined string. */
  lemma JoinConsFirst(c: char, parts: seq<string>, d: string)
    requires |parts| >= 1
    ensures Join([[c] + parts[0]] + parts[1..], d) == [c] + Join(parts, d)
  {
    var longer := [[c] + parts[0]] + parts[1..];
    if |parts| > 1 {
      assert longer[1..] == parts[1..];
    }
  }

  /** Joining the parts back with the delimiter gives the original string. */
  lemma {:induction false} JoinSplit(s: string, d: string)
    requires |d| > 0
    ensures Join(Split(s, d), d) == s
    decreases |s|
  {
    if |s| < |d| {
    } else if s[..|d|] == d {
      var rest := Split(s[|d|..], d);
      JoinSplit(s[|d|..], d);
      assert ([""] + rest)[1..] == rest;
      assert s == d + s[|d|..];
    } else {
      JoinSplit(s[1..], d);
      JoinConsFirst(s[0], Split(s[1..], d), d);
      assert s == [s[0]] + s[1..];
    }
  }

  /** An occurrence in the tail of `s` is an occurrence in `s` one place later. */
  lemma OccursAtTail(s: string, d: string, j: nat)
    requires |s| >= 1
    ensures OccursAt(d, s[1..], j) <==> OccursAt(d, s, j + 1)
  {
    if j + 1 + |d| <= |s| {
      assert s[1..][j..j + |d|] == s[j + 1..j + 1 + |d|];
    }
  }

  /** `s` splits into a single part exactly when `d` does not occur in it;
      then that part is `s` itself. */
  lemma {:induction false} SplitSingleIff(s: string, d: string)
    requires |d| > 0
    ensures |Split(s, d)| == 1 <==> !Occurs(d, s)
    ensures |Split(s, d)| == 1 ==> Split(s, d) == [s]
    decreases |s|
  {
    if |s| < |d| {
    } else if s[..|d|] == d {
      assert OccursAt(d, s, 0);
    } else {
      var rest := Split(s[1..], d);
      SplitSingleIff(s[1..], d);
      assert |Split(s, d)| == |rest|;
      if Occurs(d, s) {
        var i :| OccursAt(d, s, i);
        OccursAtTail(s, d, i - 1);
      }
      if Occurs(d, s[1..]) {
        var j :| OccursAt(d, s[1..], j);
        OccursAtTail(s, d, j);
      }
      if |rest| == 1 {
        JoinSplit(s[1..], d);
        assert s == [s[0]] + s[1..];
      }
    }
  }

  /** A suffix of `s` that ends with `d` makes `s` end with `d`. */
  lemma EndsWithFromSuffix(s: string, k: nat, d: string)
    requires k <= |s| && EndsWith(s[k..], d)
    ensures EndsWith(s, d)
  {
    var t := s[k..];
    assert s[|s| - |d|..] == t[|t| - |d|..];
  }

  /** The last part is empty only when `s` is empty or ends with `d`. So
      for a non-empty string that does not end with `d` there is no trailing
      empty part for Java's `String.split` to drop, and the literal split
      agrees with it. */
  lemma {:induction false} SplitLastPart(s: string, d: string)
    requires |d| > 0
    ensures var parts := Split(s, d);
      parts[|parts| - 1] == "" ==> s == "" || EndsWith(s, d)
    decreases |s|
  {
    if |s| < |d| {
    } else if s[..|d|] == d {
      var rest := Split(s[|d|..], d);
      SplitLastPart(s[|d|..], d);
      assert Split(s, d) == [""] + rest;
      if rest[|rest| - 1] == "" {
        if s[|d|..] == "" {
          assert s == d;
        } else {
          EndsWithFromSuffix(s, |d|, d);
        }
      }
    } else {
      var rest := Split(s[1..], d);
      SplitLastPart(s[1..], d);
      assert Split(s, d) == [[s[0]] + rest[0]] + rest[1..];
      if |rest| > 1 && rest[|rest| - 1] == "" {
        EndsWithFromSuffix(s, 1, d);
      }
    }
  }

  /** The first part ends at the first occurrence of `d`. */
  lemma {:induction false} SplitAtFirst(x: string, d: string, y: string)
    requires |d| > 0
    requires forall i :: 0 <= i < |x| ==> !OccursAt(d, x + d + y, i)
    ensures Split(x + d + y, d) == [x] + Split(y, d)
    decreases |x|
  {
    var s := x + d + y;
    if x == [] {
      assert s == d + y;
      assert s[..|d|] == d && s[|d|..] == y;
    } else {
      assert !OccursAt(d, s, 0);
      assert s[1..] == x[1..] + d + y;
      forall i | 0 <= i < |x[1..]|
        ensures !OccursAt(d, x[1..] + d + y, i)
      {
        OccursAtTail(s, d, i);
      }
      SplitAtFirst(x[1..], d, y);
      assert [x[0]] + x[1..] == x;
    }
  }

  /** A string in which `d` never occurs is a single part. */
  lemma SplitWithout(s: string, d: string)
    requires |d| > 0
    requires forall i :: 0 <= i <= |s| - |d| ==> !OccursAt(d, s, i)
    ensures Split(s, d) == [s]
  {
    SplitSingleIff(s, d);
  }
}
