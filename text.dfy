/**
 The pieces of Python's `str` that the scraper relies on, over `string`
 (a sequence of Unicode scalar values, as a Python `str` is a sequence of
 code points): `in`, `replace(p, "")`, `strip()`, `lower()`, `endswith`
 and the `<` that `sorted` uses.
 */
module Text {

  /** Python's `sub in s`: `sub` occurs somewhere in `s`. */
  predicate Contains(s: string, sub: string)
  {
    exists i | 0 <= i <= |s| - |sub| :: OccursAt(s, sub, i)
  }

  /** `sub` occurs in `s` starting at position `i`. */
  predicate OccursAt(s: string, sub: string, i: int)
  {
    0 <= i <= |s| - |sub| && s[i..i + |sub|] == sub
  }

  lemma ContainsInfix(p: string, sub: string, q: string)
    ensures Contains(p + sub + q, sub)
  {
    var s := p + sub + q;
    assert OccursAt(s, sub, |p|);
  }

  lemma ContainsSplits(s: string, sub: string)
    requires Contains(s, sub)
    ensures exists p, q :: s == p + sub + q
  {
    var i: int :| OccursAt(s, sub, i);
    assert OccursAt(s, sub, i);
    assert s == s[..i] + sub + s[i + |sub|..];
  }

  /** `sub in s` is exactly "`s` is some `p + sub + q`". */
  lemma ContainsIffInfix(s: string, sub: string)
    ensures Contains(s, sub) <==> exists p, q :: s == p + sub + q
  {
    if Contains(s, sub) {
      ContainsSplits(s, sub);
    }
    if exists p, q :: s == p + sub + q {
      var p, q :| s == p + sub + q;
      ContainsInfix(p, sub, q);
    }
  }

  /** An occurrence survives putting text in front. */
  lemma ContainsAfterPrefix(b: string, s: string, sub: string)
    requires Contains(s, sub)
    ensures Contains(b + s, sub)
  {
    var i: int :| OccursAt(s, sub, i);
    assert OccursAt(s, sub, i);
    assert (b + s)[|b| + i..|b| + i + |sub|] == sub;
    assert OccursAt(b + s, sub, |b| + i);
  }

  /** Python's `s.replace(pat, "")`: every occurrence of `pat`, found left to
      right without overlapping, is removed. */
  function RemoveAll(s: string, pat: string): (r: string)
    requires pat != []
    ensures |r| <= |s|
    decreases |s|
  {
    if |s| < |pat| then s
    else if s[..|pat|] == pat then RemoveAll(s[|pat|..], pat)
    else [s[0]] + RemoveAll(s[1..], pat)
  }

  /** Nothing is removed from a string that does not contain `pat`. */
  lemma {:induction false} RemoveAllWithoutOccurrence(s: string, pat: string)
    requires pat != [] && !Contains(s, pat)
    ensures RemoveAll(s, pat) == s
    decreases |s|
  {
    if |s| >= |pat| {
      assert !OccursAt(s, pat, 0);
      assert !Contains(s[1..], pat) by {
        forall i | 0 <= i <= |s| - 1 - |pat|
          ensures !OccursAt(s[1..], pat, i)
        {
          assert s[1..][i..i + |pat|] == s[i + 1..i + 1 + |pat|];
          assert !OccursAt(s, pat, i + 1);
        }
      }
      RemoveAllWithoutOccurrence(s[1..], pat);
      assert s == [s[0]] + s[1..];
    }
  }

  /** A leading occurrence of `pat` is dropped and the rest is processed. */
  lemma RemoveAllLeading(pat: string, rest: string)
    requires pat != []
    ensures RemoveAll(pat + rest, pat) == RemoveAll(rest, pat)
  {
  }

  /** Python's `str.isspace()` for one character: the fixed set of code points
      that `str.strip()` with no argument removes. */
  predicate IsSpace(c: char)
  {
    || '\t' <= c <= '\r'
    || '\U{1C}' <= c <= ' '
    || c == '\U{85}' || c == '\U{A0}' || c == '\U{1680}'
    || '\U{2000}' <= c <= '\U{200A}'
    || c == '\U{2028}' || c == '\U{2029}' || c == '\U{202F}' || c == '\U{205F}'
    || c == '\U{3000}'
  }

  /** `s.lstrip()`: the longest suffix of `s` that does not start with white space. */
  function StripStart(s: string): (r: string)
    ensures |r| <= |s| && r == s[|s| - |r|..]
    ensures forall k :: 0 <= k < |s| - |r| ==> IsSpace(s[k])
    ensures r == [] || !IsSpace(r[0])
  {
    if s != [] && IsSpace(s[0]) then StripStart(s[1..]) else s
  }

  /** `s.rstrip()`: the longest prefix of `s` that does not end with white space. */
  function StripEnd(s: string): (r: string)
    ensures |r| <= |s| && r == s[..|r|]
    ensures forall k :: |r| <= k < |s| ==> IsSpace(s[k])
    ensures r == [] || !IsSpace(r[|r| - 1])
  {
    if s != [] && IsSpace(s[|s| - 1]) then StripEnd(s[..|s| - 1]) else s
  }

  /** `s.strip()`: `s` with its white-space margins cut off; what is left is a
      contiguous piece of `s` that neither starts nor ends with white space. */
  function Strip(s: string): (r: string)
    ensures r == [] || (!IsSpace(r[0]) && !IsSpace(r[|r| - 1]))
    ensures exists i :: StrippedAt(s, r, i)
  {
    StripBothEnds(s);
    StripEnd(StripStart(s))
  }

  /** Cutting the end margin of what `StripStart` leaves keeps its first
      character, and what remains sits at the position `StripStart` cut to. */
  lemma StripBothEnds(s: string)
    ensures var r := StripEnd(StripStart(s));
      && (r == [] || (!IsSpace(r[0]) && !IsSpace(r[|r| - 1])))
      && StrippedAt(s, r, |s| - |StripStart(s)|)
  {
    var t := StripStart(s);
    StripEndKeepsStart(t);
    StrippedAtSuffix(s, |s| - |t|);
  }

  /** Cutting the end margin keeps a string's first character. */
  lemma StripEndKeepsStart(t: string)
    ensures StripEnd(t) == [] || StripEnd(t)[0] == t[0]
  {
  }

  /** When everything before position `i` is white space, stripping the end
      of the suffix from `i` leaves a piece of `s` with white-space margins. */
  lemma StrippedAtSuffix(s: string, i: nat)
    requires i <= |s|
    requires forall k :: 0 <= k < i ==> IsSpace(s[k])
    ensures StrippedAt(s, StripEnd(s[i..]), i)
  {
    var t := s[i..];
    var r := StripEnd(t);
    assert r == s[i..i + |r|];
    forall k | i + |r| <= k < |s|
      ensures IsSpace(s[k])
    {
      assert s[k] == t[k - i];
    }
  }

  /** `r` is the piece of `s` at position `i`, and everything of `s` before
      and after it is white space. */
  ghost predicate StrippedAt(s: string, r: string, i: int)
  {
    && 0 <= i <= |s| - |r|
    && r == s[i..i + |r|]
    && (forall k :: 0 <= k < i ==> IsSpace(s[k]))
    && (forall k :: i + |r| <= k < |s| ==> IsSpace(s[k]))
  }

  predicate IsAsciiUpper(c: char)
  {
    'A' <= c <= 'Z'
  }

  /** `a` and `b` are the same character up to the case of an ASCII letter
      (upper and lower case are 32 code points apart). */
  predicate SameIgnoringCase(a: char, b: char)
  {
    || a == b
    || (IsAsciiUpper(a) && b as int == a as int + 32)
    || (IsAsciiUpper(b) && a as int == b as int + 32)
  }

  /** `c.lower()` for the ASCII letters; every other character is kept. */
  function LowerChar(c: char): char
  {
    if IsAsciiUpper(c) then (c as int + 32) as char else c
  }

  /** `s.lower()`, restricted to ASCII case mapping: no upper-case ASCII letter
      is left, and each character is the input's up to case. */
  function Lower(s: string): (r: string)
    ensures |r| == |s|
    ensures forall i :: 0 <= i < |r| ==> !IsAsciiUpper(r[i]) && SameIgnoringCase(s[i], r[i])
  {
    seq(|s|, i requires 0 <= i < |s| => LowerChar(s[i]))
  }

  /** Lower-casing twice is lower-casing once. */
  lemma LowerIdempotent(s: string)
    ensures Lower(Lower(s)) == Lower(s)
  {
  }

  /** Two strings lower-case alike exactly when they differ only in the case
      of ASCII letters. */
  lemma LowerEqualIff(s: string, t: string)
    ensures Lower(s) == Lower(t) <==> |s| == |t| && forall i :: 0 <= i < |s| ==> SameIgnoringCase(s[i], t[i])
  {
  }

  /** `s.endswith(suffix)`. */
  predicate EndsWith(s: string, suffix: string)
  {
    |suffix| <= |s| && s[|s| - |suffix|..] == suffix
  }

  /** Python's `a < b` on `str`: lexicographic by code point, a proper prefix
      coming first. */
  predicate Below(a: string, b: string)
  {
    if a == [] then b != []
    else if b == [] then false
    else if a[0] != b[0] then a[0] < b[0]
    else Below(a[1..], b[1..])
  }

  lemma {:induction false} BelowIrreflexive(a: string)
    ensures !Below(a, a)
  {
    if a != [] {
      BelowIrreflexive(a[1..]);
    }
  }

  lemma {:induction false} BelowTransitive(a: string, b: string, c: string)
    requires Below(a, b) && Below(b, c)
    ensures Below(a, c)
  {
    if a != [] && b != [] && c != [] && a[0] == b[0] == c[0] {
      BelowTransitive(a[1..], b[1..], c[1..]);
    }
  }

  lemma {:induction false} BelowTotal(a: string, b: string)
    requires a != b
    ensures Below(a, b) || Below(b, a)
  {
    if a != [] && b != [] && a[0] == b[0] {
      assert a == [a[0]] + a[1..] && b == [b[0]] + b[1..];
      BelowTotal(a[1..], b[1..]);
    }
  }

  lemma {:induction false} BelowAsymmetric(a: string, b: string)
    requires Below(a, b)
    ensures !Below(b, a)
  {
    if Below(b, a) {
      BelowTransitive(a, b, a);
      BelowIrreflexive(a);
    }
  }

  /** What `sorted` produces from a set: ascending, hence without repeats. */
  ghost predicate StrictlyAscending(s: seq<string>)
  {
    forall i, j :: 0 <= i < j < |s| ==> Below(s[i], s[j])
  }

  ghost predicate Distinct<T>(s: seq<T>)
  {
    forall i, j :: 0 <= i < j < |s| ==> s[i] != s[j]
  }

  lemma AscendingIsDistinct(s: seq<string>)
    requires StrictlyAscending(s)
    ensures Distinct(s)
  {
    forall i, j | 0 <= i < j < |s|
      ensures s[i] != s[j]
    {
      BelowIrreflexive(s[i]);
    }
  }

  /** Every non-empty set of strings has a least element, so sorting it is possible. */
  lemma MinimumExists(names: set<string>)
    requires names != {}
    ensures exists m :: m in names && forall y :: y in names && y != m ==> Below(m, y)
  {
    var x :| x in names;
    if names - {x} == {} {
      assert names == {x};
    } else {
      MinimumExists(names - {x});
      var m :| m in names - {x} && forall y :: y in names - {x} && y != m ==> Below(m, y);
      if Below(m, x) {
        assert forall y :: y in names && y != m ==> Below(m, y);
      } else {
        BelowTotal(m, x);
        forall y | y in names && y != x
          ensures Below(x, y)
        {
          if y != m {
            BelowTransitive(x, m, y);
          }
        }
      }
    }
  }

  lemma HasMember<T>(s: seq<T>)
    requires s != []
    ensures exists x :: x in s
  {
    assert s[0] in s;
  }

  /** There is only one ascending arrangement of a set of strings: the column
      order does not depend on the order a set happens to iterate in. */
  lemma {:induction false} AscendingUnique(a: seq<string>, b: seq<string>)
    requires StrictlyAscending(a) && StrictlyAscending(b)
    requires forall x :: x in a <==> x in b
    ensures a == b
  {
    if a == [] {
      if b != [] {
        HasMember(b);
        assert false;
      }
    } else {
      assert a[0] in b;
      assert b != [] && b[0] in a;
      if a[0] != b[0] {
        var k :| 0 <= k < |b| && b[k] == a[0];
        var m :| 0 <= m < |a| && a[m] == b[0];
        assert Below(b[0], a[0]);
        BelowAsymmetric(b[0], a[0]);
        assert false;
      }
      AscendingIsDistinct(a);
      AscendingIsDistinct(b);
      forall x
        ensures x in a[1..] <==> x in b[1..]
      {
        if x in a[1..] {
          var i :| 1 <= i < |a| && a[i] == x;
          assert x in a && x in b;
          var j :| 0 <= j < |b| && b[j] == x;
          assert j != 0;
          assert b[1..][j - 1] == x;
        }
        if x in b[1..] {
          var i :| 1 <= i < |b| && b[i] == x;
          assert x in b && x in a;
          var j :| 0 <= j < |a| && a[j] == x;
          assert j != 0;
          assert a[1..][j - 1] == x;
        }
      }
      AscendingUnique(a[1..], b[1..]);
      assert a == [a[0]] + a[1..] && b == [b[0]] + b[1..];
    }
  }
}
