/**
 * The string helpers of the library that the modelled code leans on:
 * ASCII case folding (M_str_caseeq, M_str_caseeq_max), splitting on a
 * delimiter (M_str_explode), joining (M_list_str_join_str), decimal
 * formatting ("%llu" and "%zu") and the truncation that a bounded
 * M_snprintf performs.  C strings are modelled as `seq<char>` without
 * embedded NUL characters.
 */
module Strings {

  /** ASCII lower-casing, the folding used by the case-insensitive compares. */
  function ToLower(c: char): (r: char)
    ensures 'A' <= c <= 'Z' ==> r as int == c as int + 32
    ensures !('A' <= c <= 'Z') ==> r == c
  {
    if 'A' <= c <= 'Z' then (c as int + 32) as char else c
  }

  function Lower(s: string): (r: string)
    ensures |r| == |s|
    ensures forall i :: 0 <= i < |s| ==> r[i] == ToLower(s[i])
  {
    seq(|s|, i requires 0 <= i < |s| => ToLower(s[i]))
  }

  /** Folding twice is folding once. */
  lemma LowerIdempotent(s: string)
    ensures Lower(Lower(s)) == Lower(s)
  {
    assert forall i :: 0 <= i < |s| ==> ToLower(ToLower(s[i])) == ToLower(s[i]);
  }

  /** M_str_caseeq: equal ignoring ASCII case. */
  predicate CaseEq(a: string, b: string)
  {
    Lower(a) == Lower(b)
  }

  function Min(a: nat, b: nat): nat
  {
    if a < b then a else b
  }

  /**
   * M_str_caseeq_max: compare at most `n` characters of two NUL-terminated
   * strings; a string that ends before `n` characters only matches one that
   * ends at the same place.
   */
  predicate CaseEqMax(a: string, b: string, n: nat)
  {
    CaseEq(a[..Min(n, |a|)], b[..Min(n, |b|)])
  }

  /**
   * Comparing against a literal over exactly the literal's length is a
   * case-insensitive prefix test: shorter lines never match, and anything
   * may follow the prefix.
   */
  lemma CaseEqMaxIsPrefix(lit: string, line: string)
    ensures CaseEqMax(lit, line, |lit|) <==> |line| >= |lit| && CaseEq(line[..|lit|], lit)
  {
    if |line| < |lit| {
      assert |Lower(line[..Min(|lit|, |line|)])| == |line| < |lit| == |Lower(lit)|;
    }
  }

  /** No element of `s` is the character `d`. */
  predicate Free(s: string, d: char)
  {
    forall i :: 0 <= i < |s| ==> s[i] != d
  }

  /**
   * M_str_explode: the fields of `s` between occurrences of `d`, including
   * empty fields between adjacent delimiters.
   */
  function Split(s: string, d: char): (r: seq<string>)
    ensures |r| >= 1
    ensures forall k :: 0 <= k < |r| ==> Free(r[k], d)
  {
    if s == [] then [""]
    else
      var rest := Split(s[1..], d);
      if s[0] == d then [""] + rest
      else [[s[0]] + rest[0]] + rest[1..]
  }

  /** M_list_str_join_str: the parts with `sep` between neighbours. */
  function Join(parts: seq<string>, sep: string): (r: string)
    ensures |parts| == 1 ==> r == parts[0]
  {
    if |parts| == 0 then ""
    else if |parts| == 1 then parts[0]
    else parts[0] + sep + Join(parts[1..], sep)
  }

  lemma {:induction false} SplitFree(p: string, d: char)
    requires Free(p, d)
    ensures Split(p, d) == [p]
  {
    if p != [] {
      SplitFree(p[1..], d);
      assert [p[0]] + p[1..] == p;
    }
  }

  lemma {:induction false} SplitAfterField(p: string, d: char, rest: string)
    requires Free(p, d)
    ensures Split(p + [d] + rest, d) == [p] + Split(rest, d)
  {
    if p == [] {
      assert p + [d] + rest == [d] + rest;
    } else {
      SplitAfterField(p[1..], d, rest);
      assert (p + [d] + rest)[1..] == p[1..] + [d] + rest;
      assert (p + [d] + rest)[0] == p[0];
      assert [p[0]] + p[1..] == p;
    }
  }

  /** Splitting a join on a delimiter that no part contains gives the parts back. */
  lemma {:induction false} SplitJoin(parts: seq<string>, d: char)
    requires |parts| >= 1
    requires forall k :: 0 <= k < |parts| ==> Free(parts[k], d)
    ensures Split(Join(parts, [d]), d) == parts
  {
    if |parts| == 1 {
      SplitFree(parts[0], d);
    } else {
      SplitJoin(parts[1..], d);
      SplitAfterField(parts[0], d, Join(parts[1..], [d]));
      assert [parts[0]] + parts[1..] == parts;
    }
  }

  /** Joining the fields of a split restores the string. */
  lemma {:induction false} JoinSplit(s: string, d: char)
    ensures Join(Split(s, d), [d]) == s
  {
    if s != [] {
      JoinSplit(s[1..], d);
      var rest := Split(s[1..], d);
      if s[0] == d {
        assert Join([""] + rest, [d]) == "" + [d] + Join(rest, [d]);
      } else {
        var r := [[s[0]] + rest[0]] + rest[1..];
        if |rest| == 1 {
          assert Join(r, [d]) == [s[0]] + rest[0];
        } else {
          assert r[1..] == rest[1..];
          assert Join(rest, [d]) == rest[0] + [d] + Join(rest[1..], [d]);
          assert Join(r, [d]) == [s[0]] + rest[0] + [d] + Join(rest[1..], [d]);
        }
      }
    }
  }

  predicate IsDigit(c: char)
  {
    '0' <= c <= '9'
  }

  function DigitChar(n: nat): (c: char)
    requires n < 10
    ensures IsDigit(c) && c as int - '0' as int == n
  {
    ('0' as int + n) as char
  }

  /** "%llu" / "%zu": the decimal representation of `n`, without leading zeros. */
  function DecimalString(n: nat): (r: string)
    ensures |r| >= 1
    ensures forall i :: 0 <= i < |r| ==> IsDigit(r[i])
    ensures |r| > 1 ==> r[0] != '0'
  {
    if n < 10 then [DigitChar(n)] else DecimalString(n / 10) + [DigitChar(n % 10)]
  }

  function DigitValue(c: char): (v: nat)
    requires IsDigit(c)
    ensures v < 10
  {
    c as int - '0' as int
  }

  /** The number a string of decimal digits denotes. */
  function DecimalValue(s: string): nat
    requires forall i :: 0 <= i < |s| ==> IsDigit(s[i])
  {
    if s == [] then 0
    else DecimalValue(s[..|s| - 1]) * 10 + DigitValue(s[|s| - 1])
  }

  /** Formatting and reading back a decimal number is the identity. */
  lemma {:induction false} DecimalRoundTrip(n: nat)
    ensures DecimalValue(DecimalString(n)) == n
  {
    if n >= 10 {
      DecimalRoundTrip(n / 10);
      var s := DecimalString(n);
      assert s[..|s| - 1] == DecimalString(n / 10);
    }
  }

  /**
   * What a bounded M_snprintf leaves in a buffer of `size` bytes: at most
   * `size - 1` characters of the formatted text, the rest cut off.
   */
  function Truncated(s: string, size: nat): (r: string)
    requires size >= 1
    ensures |r| < size && |r| <= |s|
    ensures r == s[..|r|]
    ensures |s| < size ==> r == s
  {
    s[..Min(|s|, size - 1)]
  }
}
