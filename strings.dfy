/** The string operations the collectors and the restore planner rely on,
    written to behave as Python's `str` does: `str(n)` for a non-negative
    integer, `<=` between strings, `str.replace` and `str.rsplit('/', 1)`.
    `StartsWith` stands in for the scope match of `tf.get_collection`, which
    matches the scope as a regular expression at the start of the name; the
    model takes it as a plain prefix test. */
module Strings {
  import opened Wrappers

  // ---------------------------------------------------------------------
  // Decimal rendering, as `str(n)` / `'{}'.format(n)` for n >= 0

  function DigitChar(d: nat): char
    requires d < 10
  {
    ('0' as int + d) as char
  }

  predicate IsDigit(c: char) {
    '0' <= c <= '9'
  }

  function DigitValue(c: char): nat {
    if IsDigit(c) then c as int - '0' as int else 0
  }

  /** The decimal digits of `n`, without leading zeros. */
  function Decimal(n: nat): (s: string)
    ensures |s| >= 1
    ensures forall i :: 0 <= i < |s| ==> IsDigit(s[i])
    ensures |s| > 1 ==> s[0] != '0'
  {
    if n < 10 then [DigitChar(n)] else Decimal(n / 10) + [DigitChar(n % 10)]
  }

  /** Reads a string of decimal digits back as a number (the inverse of Decimal). */
  function ParseDecimal(s: string): nat {
    if s == [] then 0 else ParseDecimal(s[..|s| - 1]) * 10 + DigitValue(s[|s| - 1])
  }

  lemma {:induction false} DecimalRoundTrip(n: nat)
    ensures ParseDecimal(Decimal(n)) == n
  {
    var s := Decimal(n);
    if n >= 10 {
      assert s[..|s| - 1] == Decimal(n / 10);
      DecimalRoundTrip(n / 10);
    }
  }

  /** Distinct numbers render as distinct strings. */
  lemma DecimalInjective(a: nat, b: nat)
    ensures Decimal(a) == Decimal(b) ==> a == b
  {
    DecimalRoundTrip(a);
    DecimalRoundTrip(b);
  }

  // ---------------------------------------------------------------------
  // Python's ordering of `str` values: lexicographic by code point

  predicate StrLe(a: string, b: string)
    decreases |a|
  {
    a == [] || (b != [] && (a[0] < b[0] || (a[0] == b[0] && StrLe(a[1..], b[1..]))))
  }

  lemma {:induction false} StrLeReflexive(a: string)
    ensures StrLe(a, a)
    decreases |a|
  {
    if a != [] {
      StrLeReflexive(a[1..]);
    }
  }

  lemma {:induction false} StrLeTotal(a: string, b: string)
    ensures StrLe(a, b) || StrLe(b, a)
    decreases |a|
  {
    if a != [] && b != [] && a[0] == b[0] {
      StrLeTotal(a[1..], b[1..]);
    }
  }

  lemma {:induction false} StrLeTransitive(a: string, b: string, c: string)
    requires StrLe(a, b) && StrLe(b, c)
    ensures StrLe(a, c)
    decreases |a|
  {
    if a != [] && a[0] == b[0] && b[0] == c[0] {
      StrLeTransitive(a[1..], b[1..], c[1..]);
    }
  }

  lemma {:induction false} StrLeAntisymmetric(a: string, b: string)
    requires StrLe(a, b) && StrLe(b, a)
    ensures a == b
    decreases |a|
  {
    if a != [] {
      StrLeAntisymmetric(a[1..], b[1..]);
      assert a == [a[0]] + a[1..] && b == [b[0]] + b[1..];
    }
  }

  // ---------------------------------------------------------------------
  // Prefixes and occurrences

  predicate StartsWith(s: string, prefix: string) {
    |prefix| <= |s| && s[..|prefix|] == prefix
  }

  /** A prefix sorts no later than the string it begins. */
  lemma {:induction false} PrefixLe(a: string, b: string)
    requires StartsWith(b, a)
    ensures StrLe(a, b)
    decreases |a|
  {
    if a != [] {
      assert b[1..][..|a| - 1] == a[1..];
      PrefixLe(a[1..], b[1..]);
    }
  }

  /** `pat in s` for strings: `pat` occurs somewhere in `s`. */
  predicate Contains(s: string, pat: string)
    decreases |s|
  {
    StartsWith(s, pat) || (s != [] && Contains(s[1..], pat))
  }

  /** A pattern with a character that `s` lacks does not occur in `s`. */
  lemma {:induction false} AbsentCharNotContained(s: string, pat: string, c: char)
    requires c in pat && c !in s
    ensures !Contains(s, pat)
    decreases |s|
  {
    if s != [] {
      AbsentCharNotContained(s[1..], pat, c);
    }
  }

  // ---------------------------------------------------------------------
  // `s.replace(pat, rep)`: every non-overlapping occurrence, left to right

  /** Python's `str.replace` without a count. An empty `pat` matches before
      every character and at the end, so `rep` is inserted there. */
  function ReplaceAll(s: string, pat: string, rep: string): string
    decreases |s|
  {
    if pat == [] then
      if s == [] then rep else rep + [s[0]] + ReplaceAll(s[1..], pat, rep)
    else if StartsWith(s, pat) then
      rep + ReplaceAll(s[|pat|..], pat, rep)
    else if s == [] then
      []
    else
      [s[0]] + ReplaceAll(s[1..], pat, rep)
  }

  /** A string in which the pattern does not occur is returned unchanged. */
  lemma {:induction false} ReplaceAbsent(s: string, pat: string, rep: string)
    requires pat != [] && !Contains(s, pat)
    ensures ReplaceAll(s, pat, rep) == s
    decreases |s|
  {
    if s != [] {
      ReplaceAbsent(s[1..], pat, rep);
      assert s == [s[0]] + s[1..];
    }
  }

  /** An occurrence at the front is replaced and the scan resumes after it. */
  lemma ReplaceLeading(pat: string, rest: string, rep: string)
    requires pat != []
    ensures ReplaceAll(pat + rest, pat, rep) == rep + ReplaceAll(rest, pat, rep)
  {
    assert StartsWith(pat + rest, pat);
    assert (pat + rest)[|pat|..] == rest;
  }

  /** Removing `:0` from a name that ends in `:0` removes that suffix and
      otherwise treats the name as if the suffix were absent. */
  lemma {:induction false} DropOutputSuffix(s: string)
    ensures ReplaceAll(s + ":0", ":0", "") == ReplaceAll(s, ":0", "")
    decreases |s|
  {
    var t := s + ":0";
    if s == [] {
      assert t == ":0";
      assert ReplaceAll(t[2..], ":0", "") == "";
    } else if StartsWith(s, ":0") {
      assert StartsWith(t, ":0");
      assert t[2..] == s[2..] + ":0";
      DropOutputSuffix(s[2..]);
    } else {
      assert !StartsWith(t, ":0") by {
        if |s| >= 2 {
          assert t[..2] == s[..2];
        } else {
          assert t[1] == ':';
        }
      }
      assert t[1..] == s[1..] + ":0";
      DropOutputSuffix(s[1..]);
    }
  }

  // ---------------------------------------------------------------------
  // `s.rsplit('/', 1)`

  /** The position of the last occurrence of `c`, if any. */
  function LastIndexOf(s: string, c: char): (r: Option<nat>)
    ensures r.Some? ==> r.value < |s| && s[r.value] == c && c !in s[r.value + 1..]
    ensures r.None? ==> c !in s
  {
    if s == [] then None
    else if s[|s| - 1] == c then Some(|s| - 1)
    else
      var r := LastIndexOf(s[..|s| - 1], c);
      assert s == s[..|s| - 1] + [s[|s| - 1]];
      assert r.Some? ==> s[r.value + 1..] == s[..|s| - 1][r.value + 1..] + [s[|s| - 1]];
      r
  }

  /** Splits a checkpoint-relative name at its last `/` into
      (sub-scope, leaf); a name without `/` has no sub-scope. */
  function SplitLast(s: string): (r: (Option<string>, string))
    ensures r.0.Some? ==> r.0.value + "/" + r.1 == s && '/' !in r.1
    ensures r.0.None? ==> r.1 == s && '/' !in s
  {
    match LastIndexOf(s, '/')
    case None => (None, s)
    case Some(i) =>
      assert s == s[..i] + "/" + s[i + 1..];
      (Some(s[..i]), s[i + 1..])
  }

  /** The sub-scope and leaf are determined by the name, and give it back. */
  lemma SplitLastUnique(sub: string, leaf: string)
    requires '/' !in leaf
    ensures SplitLast(sub + "/" + leaf) == (Some(sub), leaf)
  {
    var s := sub + "/" + leaf;
    var r := SplitLast(s);
    assert s[|sub|] == '/';
    assert s[..|sub|] == sub && s[|sub| + 1..] == leaf;
  }
}
