/** The string operations the applications use, over `seq<char>`.
    Case mapping is ASCII only: Python's `str.lower` and `str.capitalize`
    also fold non-ASCII letters, which this model leaves alone. */
module Text {
  import opened Wrappers

  /** Python truthiness of an optional string: present and non-empty. */
  predicate Truthy(s: Option<string>)
  {
    s.Some? && s.value != ""
  }

  predicate IsUpperAscii(c: char) { 'A' <= c <= 'Z' }

  predicate IsLowerAscii(c: char) { 'a' <= c <= 'z' }

  function LowerChar(c: char): (r: char)
    ensures !IsUpperAscii(r)
    ensures IsUpperAscii(c) ==> r as int == c as int + 32
    ensures !IsUpperAscii(c) ==> r == c
  {
    if IsUpperAscii(c) then (c as int + 32) as char else c
  }

  function UpperChar(c: char): (r: char)
    ensures !IsLowerAscii(r)
    ensures IsLowerAscii(c) ==> r as int == c as int - 32
    ensures !IsLowerAscii(c) ==> r == c
  {
    if IsLowerAscii(c) then (c as int - 32) as char else c
  }

  /** `s.lower()`: every upper-case ASCII letter mapped to lower case. */
  function Lower(s: string): (r: string)
    ensures |r| == |s|
    ensures forall i :: 0 <= i < |s| ==> r[i] == LowerChar(s[i])
    ensures forall i :: 0 <= i < |r| ==> !IsUpperAscii(r[i])
  {
    seq(|s|, i requires 0 <= i < |s| => LowerChar(s[i]))
  }

  /** `s.upper()`: every lower-case ASCII letter mapped to upper case. */
  function Upper(s: string): (r: string)
    ensures |r| == |s|
    ensures forall i :: 0 <= i < |s| ==> r[i] == UpperChar(s[i])
    ensures forall i :: 0 <= i < |r| ==> !IsLowerAscii(r[i])
  {
    seq(|s|, i requires 0 <= i < |s| => UpperChar(s[i]))
  }

  /** `s.capitalize()`: first character upper-cased, the rest lower-cased. */
  function Capitalize(s: string): (r: string)
    ensures |r| == |s|
    ensures |s| > 0 ==> r[0] == UpperChar(s[0]) && r[1..] == Lower(s[1..])
  {
    if |s| == 0 then "" else [UpperChar(s[0])] + Lower(s[1..])
  }

  lemma LowerIdempotent(s: string)
    ensures Lower(Lower(s)) == Lower(s)
  {
  }

  lemma CapitalizeIdempotent(s: string)
    ensures Capitalize(Capitalize(s)) == Capitalize(s)
  {
    if |s| > 0 {
      LowerIdempotent(s[1..]);
    }
  }

  /** Lower-casing commutes with slicing: it works character by character. */
  lemma LowerSlice(s: string, i: nat, j: nat)
    requires i <= j <= |s|
    ensures Lower(s)[i..j] == Lower(s[i..j])
  {
  }

  predicate StartsWith(s: string, prefix: string)
  {
    |prefix| <= |s| && s[..|prefix|] == prefix
  }

  /** `needle in s` for strings: `needle` occurs as a contiguous substring. */
  predicate Contains(s: string, needle: string)
    decreases |s|
  {
    StartsWith(s, needle) || (|s| > 0 && Contains(s[1..], needle))
  }

  /** `needle` occurs in `s` starting at index `i`. */
  predicate OccursAt(s: string, needle: string, i: int)
  {
    0 <= i && i + |needle| <= |s| && s[i..i + |needle|] == needle
  }

  /** An occurrence found by the recursive search has a position. */
  lemma {:induction false} ContainsHasPosition(s: string, needle: string)
    requires Contains(s, needle)
    ensures exists i :: OccursAt(s, needle, i)
    decreases |s|
  {
    if StartsWith(s, needle) {
      assert OccursAt(s, needle, 0);
    } else {
      ContainsHasPosition(s[1..], needle);
      var i :| OccursAt(s[1..], needle, i);
      assert s[i + 1..i + 1 + |needle|] == s[1..][i..i + |needle|];
      assert OccursAt(s, needle, i + 1);
    }
  }

  /** An occurrence at any position is found by the recursive search. */
  lemma {:induction false} PositionIsContained(s: string, needle: string, i: int)
    requires OccursAt(s, needle, i)
    ensures Contains(s, needle)
    decreases i
  {
    if i > 0 {
      assert s[1..][i - 1..i - 1 + |needle|] == s[i..i + |needle|];
      PositionIsContained(s[1..], needle, i - 1);
    }
  }

  /** The recursive search agrees with the positional definition of
      substring occurrence, in both directions. */
  lemma ContainsIffOccurs(s: string, needle: string)
    ensures Contains(s, needle) <==> exists i :: OccursAt(s, needle, i)
  {
    if Contains(s, needle) {
      ContainsHasPosition(s, needle);
    }
    forall i | OccursAt(s, needle, i) {
      PositionIsContained(s, needle, i);
    }
  }

  /** A text that contains a non-empty needle contains its first character. */
  lemma {:induction false} ContainsFirstChar(s: string, needle: string)
    requires |needle| > 0 && Contains(s, needle)
    ensures needle[0] in s
    decreases |s|
  {
    if !StartsWith(s, needle) {
      ContainsFirstChar(s[1..], needle);
    }
  }

  /** Python's `"" in s` is true for every `s`. */
  lemma ContainsEmpty(s: string)
    ensures Contains(s, "")
  {
    assert s[..0] == "";
  }

  /** A needle longer than the text never occurs in it. */
  lemma {:induction false} ContainsLonger(s: string, needle: string)
    requires |needle| > |s|
    ensures !Contains(s, needle)
    decreases |s|
  {
    if |s| > 0 {
      ContainsLonger(s[1..], needle);
    }
  }

  /** Every string contains itself. */
  lemma ContainsSelf(s: string)
    ensures Contains(s, s)
  {
    assert s[..|s|] == s;
  }

  /** `s[:n]`: the first `n` characters, or all of `s` when it is shorter. */
  function Take<T>(s: seq<T>, n: nat): (r: seq<T>)
    ensures |r| == if |s| < n then |s| else n
    ensures forall i :: 0 <= i < |r| ==> r[i] == s[i]
  {
    if |s| <= n then s else s[..n]
  }

  /** `s.replace(pattern, replacement)`: every non-overlapping occurrence of a
      non-empty `pattern`, scanning left to right, is replaced. */
  function ReplaceAll(s: string, pattern: string, replacement: string): (r: string)
    requires |pattern| > 0
    ensures |replacement| == |pattern| ==> |r| == |s|
    ensures Contains(s, pattern) ==> Contains(r, replacement)
    decreases |s|
  {
    if |s| == 0 then ""
    else if StartsWith(s, pattern) then
      var rest := ReplaceAll(s[|pattern|..], pattern, replacement);
      assert (replacement + rest)[..|replacement|] == replacement;
      replacement + rest
    else
      var rest := ReplaceAll(s[1..], pattern, replacement);
      assert ([s[0]] + rest)[1..] == rest;
      [s[0]] + rest
  }

  /** A character that cannot start the pattern is copied and the scan moves on. */
  lemma ReplaceStep(c: char, rest: string, pattern: string, replacement: string)
    requires |pattern| > 0 && c != pattern[0]
    ensures ReplaceAll([c] + rest, pattern, replacement) == [c] + ReplaceAll(rest, pattern, replacement)
  {
    assert ([c] + rest)[1..] == rest;
  }

  /** A prefix free of the pattern's first character is copied unchanged. */
  lemma {:induction false} ReplaceSkipsPrefix(u: string, v: string, pattern: string, replacement: string)
    requires |pattern| > 0 && pattern[0] !in u
    ensures ReplaceAll(u + v, pattern, replacement) == u + ReplaceAll(v, pattern, replacement)
    decreases |u|
  {
    if |u| == 0 {
      assert u + v == v;
    } else {
      assert u + v == [u[0]] + (u[1..] + v);
      ReplaceStep(u[0], u[1..] + v, pattern, replacement);
      ReplaceSkipsPrefix(u[1..], v, pattern, replacement);
    }
  }

  /** The first `|pattern|` characters of `a + pattern + b` lie inside
      `a + pattern[..|pattern| - 1]` when `a` is non-empty. */
  lemma LeftmostWindow(a: string, b: string, pattern: string)
    requires |a| > 0 && |pattern| > 0
    ensures |a + pattern[..|pattern| - 1]| >= |pattern|
    ensures (a + pattern + b)[..|pattern|] == (a + pattern[..|pattern| - 1])[..|pattern|]
  {
    var s := a + pattern + b;
    var w := a + pattern[..|pattern| - 1];
    forall k | 0 <= k < |pattern|
      ensures s[k] == w[k]
    {
      if k >= |a| {
        assert s[k] == pattern[k - |a|];
        assert w[k] == pattern[..|pattern| - 1][k - |a|];
      }
    }
  }

  /** The leftmost occurrence is replaced first: when the pattern does not
      occur before the one that follows `a`, the result is `a`, then the
      replacement, then the rest replaced in turn. */
  lemma {:induction false} ReplaceLeftmost(a: string, b: string, pattern: string, replacement: string)
    requires |pattern| > 0
    requires !Contains(a + pattern[..|pattern| - 1], pattern)
    ensures ReplaceAll(a + pattern + b, pattern, replacement)
         == a + replacement + ReplaceAll(b, pattern, replacement)
    decreases |a|
  {
    var s := a + pattern + b;
    var tail := ReplaceAll(b, pattern, replacement);
    if |a| == 0 {
      assert s == pattern + b;
      assert s[..|pattern|] == pattern;
      assert s[|pattern|..] == b;
    } else {
      var w := a + pattern[..|pattern| - 1];
      var rest := a[1..] + pattern + b;
      assert !StartsWith(s, pattern) by {
        LeftmostWindow(a, b, pattern);
        assert !StartsWith(w, pattern);
      }
      assert ReplaceAll(rest, pattern, replacement) == a[1..] + replacement + tail by {
        assert w[1..] == a[1..] + pattern[..|pattern| - 1];
        assert !Contains(w[1..], pattern);
        ReplaceLeftmost(a[1..], b, pattern, replacement);
      }
      assert ReplaceAll(s, pattern, replacement) == [a[0]] + ReplaceAll(rest, pattern, replacement) by {
        ReplaceUnmatched(s, pattern, replacement);
        assert s[1..] == rest;
      }
      assert [a[0]] + (a[1..] + replacement + tail) == a + replacement + tail;
    }
  }

  /** Where the pattern does not start, the first character is copied. */
  lemma ReplaceUnmatched(s: string, pattern: string, replacement: string)
    requires |pattern| > 0 && |s| > 0 && !StartsWith(s, pattern)
    ensures ReplaceAll(s, pattern, replacement) == [s[0]] + ReplaceAll(s[1..], pattern, replacement)
  {
  }

  /** Replacing a pattern that does not occur returns the text unchanged. */
  lemma {:induction false} ReplaceAbsent(s: string, pattern: string, replacement: string)
    requires |pattern| > 0
    requires !Contains(s, pattern)
    ensures ReplaceAll(s, pattern, replacement) == s
    decreases |s|
  {
    if |s| > 0 {
      ReplaceAbsent(s[1..], pattern, replacement);
      assert [s[0]] + s[1..] == s;
    }
  }

  /** Replacing a pattern by itself is the identity. */
  lemma {:induction false} ReplaceBySelf(s: string, pattern: string)
    requires |pattern| > 0
    ensures ReplaceAll(s, pattern, pattern) == s
    decreases |s|
  {
    if |s| > 0 {
      if StartsWith(s, pattern) {
        ReplaceBySelf(s[|pattern|..], pattern);
        assert s[..|pattern|] + s[|pattern|..] == s;
      } else {
        ReplaceBySelf(s[1..], pattern);
        assert [s[0]] + s[1..] == s;
      }
    }
  }

  /** Replacing a pattern by text no longer than it never lengthens the text. */
  lemma {:induction false} ReplaceNotLonger(s: string, pattern: string, replacement: string)
    requires |pattern| > 0 && |replacement| <= |pattern|
    ensures |ReplaceAll(s, pattern, replacement)| <= |s|
    decreases |s|
  {
    if |s| > 0 {
      if StartsWith(s, pattern) {
        ReplaceNotLonger(s[|pattern|..], pattern, replacement);
      } else {
        ReplaceNotLonger(s[1..], pattern, replacement);
      }
    }
  }

  /** After text free of the pattern's first character, an occurrence of the
      pattern is replaced. */
  lemma ReplaceMatchAfterPlain(a: string, b: string, pattern: string, replacement: string)
    requires |pattern| > 0 && pattern[0] !in a
    ensures ReplaceAll(a + pattern + b, pattern, replacement)
         == a + replacement + ReplaceAll(b, pattern, replacement)
  {
    ContainsLonger(pattern[..|pattern| - 1], pattern);
    assert "" + pattern[..|pattern| - 1] == pattern[..|pattern| - 1];
    ReplaceLeftmost("", b, pattern, replacement);
    assert "" + pattern + b == pattern + b;
    ReplaceSkipsPrefix(a, pattern + b, pattern, replacement);
    assert a + pattern + b == a + (pattern + b);
  }

  /** After text free of the pattern's first character, a piece `u` that
      differs from the pattern at its second character and holds no further
      start of the pattern is copied unchanged. */
  lemma ReplaceMismatchAfterPlain(a: string, u: string, b: string, pattern: string, replacement: string)
    requires |pattern| > 1 && pattern[0] !in a
    requires |u| > 1 && u[1] != pattern[1] && pattern[0] !in u[1..]
    ensures ReplaceAll(a + u + b, pattern, replacement) == a + u + ReplaceAll(b, pattern, replacement)
  {
    var s := u + b;
    assert s[1] == u[1];
    assert !StartsWith(s, pattern);
    assert s[1..] == u[1..] + b;
    ReplaceSkipsPrefix(u[1..], b, pattern, replacement);
    assert [u[0]] + (u[1..] + ReplaceAll(b, pattern, replacement)) == u + ReplaceAll(b, pattern, replacement);
    ReplaceSkipsPrefix(a, s, pattern, replacement);
    assert a + u + b == a + s;
  }

  /** `separator.join(parts)`. */
  function Join(parts: seq<string>, separator: string): (r: string)
    ensures |parts| == 0 ==> r == ""
    ensures |parts| > 0 ==> StartsWith(r, parts[0])
    decreases |parts|
  {
    if |parts| == 0 then ""
    else if |parts| == 1 then parts[0]
    else parts[0] + separator + Join(parts[1..], separator)
  }

  /** An occurrence inside `x` is still one inside `u + x + v`. */
  lemma ContainsInside(u: string, x: string, v: string, needle: string)
    requires Contains(x, needle)
    ensures Contains(u + x + v, needle)
  {
    ContainsHasPosition(x, needle);
    var i :| OccursAt(x, needle, i);
    assert (u + x + v)[|u| + i..|u| + i + |needle|] == x[i..i + |needle|];
    PositionIsContained(u + x + v, needle, |u| + i);
  }

  /** Every part occurs in the joined text. */
  lemma {:induction false} JoinContainsParts(parts: seq<string>, separator: string)
    ensures forall i :: 0 <= i < |parts| ==> Contains(Join(parts, separator), parts[i])
    decreases |parts|
  {
    if |parts| > 0 {
      var r := Join(parts, separator);
      ContainsSelf(parts[0]);
      if |parts| == 1 {
        assert r == "" + parts[0] + "";
        ContainsInside("", parts[0], "", parts[0]);
      } else {
        var tail := Join(parts[1..], separator);
        JoinContainsParts(parts[1..], separator);
        assert r == "" + parts[0] + (separator + tail);
        ContainsInside("", parts[0], separator + tail, parts[0]);
        forall i | 1 <= i < |parts|
          ensures Contains(r, parts[i])
        {
          assert parts[i] == parts[1..][i - 1];
          assert r == (parts[0] + separator) + tail + "";
          ContainsInside(parts[0] + separator, tail, "", parts[i]);
        }
      }
    }
  }
}
