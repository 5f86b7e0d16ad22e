/** The parts of Python's `str` that the core relies on: `strip()`, `lower()`,
    the substring test `a in b`, `sep.join(parts)` and the ordering that
    `sorted` uses on strings. */
module Text {

  /** Python's `str.isspace()` for one character: the characters `strip()` removes. */
  predicate IsSpace(c: char) {
    c == ' ' || c == '\t' || c == '\n' || c == '\r' || c == '\U{000B}' || c == '\U{000C}'
    || ('\U{001C}' <= c <= '\U{001F}') || c == '\U{0085}' || c == '\U{00A0}' || c == '\U{1680}'
    || ('\U{2000}' <= c <= '\U{200A}') || c == '\U{2028}' || c == '\U{2029}' || c == '\U{202F}'
    || c == '\U{205F}' || c == '\U{3000}'
  }

  /** A string with no white space at either end: what `strip()` returns. */
  predicate Stripped(s: string) {
    s == [] || (!IsSpace(s[0]) && !IsSpace(s[|s| - 1]))
  }

  /** `s.strip()`: white space is removed from the front, then from the back. */
  function Strip(s: string): (r: string)
    ensures Stripped(r)
    ensures |r| <= |s|
    decreases |s|
  {
    if s != [] && IsSpace(s[0]) then Strip(s[1..])
    else if s != [] && IsSpace(s[|s| - 1]) then Strip(s[..|s| - 1])
    else s
  }

  /** `r` is `s` with the white space before index `i` and after `r` removed. */
  predicate TrimmedAt(s: string, r: string, i: int) {
    0 <= i <= |s| - |r| && r == s[i..i + |r|]
    && (forall k :: 0 <= k < i ==> IsSpace(s[k]))
    && (forall k :: i + |r| <= k < |s| ==> IsSpace(s[k]))
  }

  /** White space in front of a trimmed string moves the trimming point by one. */
  lemma TrimmedAtFront(s: string, r: string, i: int)
    requires s != [] && IsSpace(s[0]) && TrimmedAt(s[1..], r, i)
    ensures TrimmedAt(s, r, i + 1)
  {
    assert r == s[1..][i..i + |r|];
    assert s[1..][i..i + |r|] == s[i + 1..i + 1 + |r|];
    forall k | 0 <= k < i + 1 ensures IsSpace(s[k]) {
      if k > 0 { assert s[k] == s[1..][k - 1]; }
    }
    forall k | i + 1 + |r| <= k < |s| ensures IsSpace(s[k]) {
      assert s[k] == s[1..][k - 1];
    }
  }

  /** White space after a trimmed string keeps the trimming point. */
  lemma TrimmedAtBack(s: string, r: string, i: int)
    requires s != [] && IsSpace(s[|s| - 1]) && TrimmedAt(s[..|s| - 1], r, i)
    ensures TrimmedAt(s, r, i)
  {
    var t := s[..|s| - 1];
    assert s[i..i + |r|] == t[i..i + |r|];
    forall k | 0 <= k < i ensures IsSpace(s[k]) {
      assert s[k] == t[k];
    }
    forall k | i + |r| <= k < |s| ensures IsSpace(s[k]) {
      if k < |s| - 1 { assert s[k] == t[k]; }
    }
  }

  /** What `strip()` returns is the middle of `s` between two runs of white space. */
  lemma {:induction false} StripTrims(s: string)
    ensures exists i :: TrimmedAt(s, Strip(s), i)
    decreases |s|
  {
    var r := Strip(s);
    if s != [] && IsSpace(s[0]) {
      StripTrims(s[1..]);
      var i :| TrimmedAt(s[1..], r, i);
      TrimmedAtFront(s, r, i);
    } else if s != [] && IsSpace(s[|s| - 1]) {
      StripTrims(s[..|s| - 1]);
      var i :| TrimmedAt(s[..|s| - 1], r, i);
      TrimmedAtBack(s, r, i);
    } else {
      assert TrimmedAt(s, r, 0);
    }
  }

  /** A string that is already stripped is its own strip. */
  lemma StrippedIsFixed(s: string)
    requires Stripped(s)
    ensures Strip(s) == s
  {
  }

  /** Stripping a stripped string with one space in front of it removes just that space. */
  lemma StripSpaceBefore(s: string)
    requires Stripped(s)
    ensures Strip(" " + s) == s
  {
    assert (" " + s)[1..] == s;
  }

  /** Stripping a stripped string with one space after it removes just that space. */
  lemma StripSpaceAfter(s: string)
    requires Stripped(s)
    ensures Strip(s + " ") == s
  {
    var t := s + " ";
    if s == "" {
      assert t[1..] == [];
    } else {
      assert t[0] == s[0];
      assert t[..|t| - 1] == s;
      assert !IsSpace(t[0]) && IsSpace(t[|t| - 1]);
      StrippedIsFixed(s);
    }
  }

  /** Two non-empty stripped strings joined by a space form a stripped string. */
  lemma SpaceJoinStripped(a: string, b: string)
    requires Stripped(a) && Stripped(b) && a != "" && b != ""
    ensures Stripped(a + " " + b)
  {
    var c := a + " " + b;
    assert c[0] == a[0] && c[|c| - 1] == b[|b| - 1];
  }

  /** `c.lower()` on ASCII letters; every other character is kept. */
  function LowerChar(c: char): char {
    if 'A' <= c <= 'Z' then (c as int + 32) as char else c
  }

  /** `s.lower()`, character by character. */
  function Lower(s: string): (r: string)
    ensures |r| == |s|
  {
    seq(|s|, i requires 0 <= i < |s| => LowerChar(s[i]))
  }

  /** `sub in s`: `sub` occurs as a contiguous piece of `s` (the empty string occurs everywhere). */
  predicate Contains(s: string, sub: string) {
    exists i | 0 <= i <= |s| - |sub| :: OccursAt(s, sub, i)
  }

  /** `sub` occurs in `s` starting at index `i`. */
  predicate OccursAt(s: string, sub: string, i: int) {
    0 <= i <= |s| - |sub| && sub == s[i..i + |sub|]
  }

  /** `sep.join(parts)`. */
  function Join(parts: seq<string>, sep: string): string {
    if parts == [] then ""
    else if |parts| == 1 then parts[0]
    else parts[0] + sep + Join(parts[1..], sep)
  }

  /** When no part is empty, the joined string is empty exactly when there are no parts. */
  lemma {:induction false} JoinEmpty(parts: seq<string>, sep: string)
    requires forall k :: 0 <= k < |parts| ==> parts[k] != ""
    ensures Join(parts, sep) == "" <==> parts == []
  {
    if |parts| > 1 {
      assert |Join(parts, sep)| >= |parts[0]| > 0;
    }
  }

  /** With a non-empty separator, a join that has a non-empty part is non-empty. */
  lemma JoinNonEmpty(parts: seq<string>, sep: string, k: nat)
    requires sep != "" && k < |parts| && parts[k] != ""
    ensures Join(parts, sep) != ""
  {
    if |parts| > 1 {
      assert |Join(parts, sep)| >= |sep| > 0;
    }
  }

  /** Python's `<` on strings: code point by code point, a proper prefix first. */
  predicate Less(a: string, b: string) {
    if a == [] then b != []
    else if b == [] then false
    else if a[0] != b[0] then a[0] < b[0]
    else Less(a[1..], b[1..])
  }

  /** `Less` is a strict total order. */
  lemma {:induction false} LessTotal(a: string, b: string)
    ensures a == b || Less(a, b) || Less(b, a)
    ensures !(Less(a, b) && Less(b, a))
    ensures !Less(a, a)
  {
    if a != [] && b != [] && a[0] == b[0] {
      LessTotal(a[1..], b[1..]);
      if a[1..] == b[1..] {
        assert a == [a[0]] + a[1..] && b == [b[0]] + b[1..];
      }
    } else if a != [] {
      LessTotal(a[1..], a[1..]);
    }
  }

  lemma {:induction false} LessTransitive(a: string, b: string, c: string)
    requires Less(a, b) && Less(b, c)
    ensures Less(a, c)
  {
    if a != [] && b != [] && c != [] && a[0] == b[0] == c[0] {
      LessTransitive(a[1..], b[1..], c[1..]);
    }
  }

  predicate StrictlySorted(xs: seq<string>) {
    forall i, j :: 0 <= i < j < |xs| ==> Less(xs[i], xs[j])
  }

  /** Puts `x` into its place in a sorted list, unless it is already there. */
  function Insert(x: string, xs: seq<string>): seq<string> {
    if xs == [] then [x]
    else if x == xs[0] then xs
    else if Less(x, xs[0]) then [x] + xs
    else [xs[0]] + Insert(x, xs[1..])
  }

  lemma {:induction false} InsertSorted(x: string, xs: seq<string>)
    requires StrictlySorted(xs)
    ensures StrictlySorted(Insert(x, xs))
    ensures forall y :: y in Insert(x, xs) <==> y == x || y in xs
  {
    if xs == [] {
    } else if x == xs[0] {
    } else if Less(x, xs[0]) {
      var r := [x] + xs;
      forall i, j | 0 <= i < j < |r| ensures Less(r[i], r[j]) {
        if i == 0 && j > 1 {
          LessTransitive(x, xs[0], xs[j - 1]);
        }
      }
    } else {
      InsertSorted(x, xs[1..]);
      LessTotal(x, xs[0]);
      var tail := Insert(x, xs[1..]);
      var r := [xs[0]] + tail;
      forall i, j | 0 <= i < j < |r| ensures Less(r[i], r[j]) {
        if i == 0 {
          assert r[j] in tail;
          if r[j] != x {
            var k :| 0 <= k < |xs[1..]| && xs[1..][k] == r[j];
            assert xs[k + 1] == r[j];
          }
        }
      }
      assert forall y :: y in xs <==> y == xs[0] || y in xs[1..] by {
        assert xs == [xs[0]] + xs[1..];
      }
    }
  }

  /** `sorted(set(xs))`: the distinct strings of `xs` in increasing order. */
  function SortedDistinct(xs: seq<string>): seq<string> {
    if xs == [] then [] else Insert(xs[0], SortedDistinct(xs[1..]))
  }

  lemma {:induction false} SortedDistinctSpec(xs: seq<string>)
    ensures StrictlySorted(SortedDistinct(xs))
    ensures forall y :: y in SortedDistinct(xs) <==> y in xs
  {
    if xs != [] {
      SortedDistinctSpec(xs[1..]);
      InsertSorted(xs[0], SortedDistinct(xs[1..]));
      assert forall y :: y in xs <==> y == xs[0] || y in xs[1..] by {
        assert xs == [xs[0]] + xs[1..];
      }
    }
  }

  /** The head of a strictly sorted list is its least element. */
  lemma SortedHeadLeast(a: seq<string>, y: string)
    requires StrictlySorted(a) && y in a
    ensures y == a[0] || Less(a[0], y)
  {
    var k :| 0 <= k < |a| && a[k] == y;
    if k > 0 {
      assert Less(a[0], a[k]);
    }
  }

  lemma HeadIn(a: seq<string>)
    requires a != []
    ensures a[0] in a
  {
  }

  /** There is only one strictly sorted list of a given set of strings, so
      `SortedDistinct` is exactly Python's `sorted(set(xs))`. */
  lemma {:induction false} SortedUnique(a: seq<string>, b: seq<string>)
    requires StrictlySorted(a) && StrictlySorted(b)
    requires forall y :: y in a <==> y in b
    ensures a == b
  {
    if a != [] && b != [] {
      HeadIn(a);
      HeadIn(b);
      SortedHeadLeast(a, b[0]);
      SortedHeadLeast(b, a[0]);
      LessTotal(a[0], b[0]);
      forall y ensures y in a[1..] <==> y in b[1..] {
        if y in a[1..] {
          var k :| 1 <= k < |a| && a[k] == y;
          assert Less(a[0], y);
          LessTotal(a[0], y);
          assert y in b && y != b[0];
          assert b == [b[0]] + b[1..];
        }
        if y in b[1..] {
          var k :| 1 <= k < |b| && b[k] == y;
          assert Less(b[0], y);
          LessTotal(b[0], y);
          assert y in a && y != a[0];
          assert a == [a[0]] + a[1..];
        }
      }
      SortedUnique(a[1..], b[1..]);
      assert a == [a[0]] + a[1..] && b == [b[0]] + b[1..];
    } else if a != [] {
      HeadIn(a);
    } else if b != [] {
      HeadIn(b);
    }
  }
}
