/**
 * The java.lang.String and java.lang.Integer operations the discovery code relies on,
 * written out so that their edge cases (trailing empty pieces of split, overflow of
 * parseInt, non-overlapping replace) are part of the model.
 */
module JavaStrings {
  import opened Wrappers

  /** String.startsWith */
  predicate StartsWith(s: string, prefix: string)
  {
    |prefix| <= |s| && s[..|prefix|] == prefix
  }

  /** String.endsWith */
  predicate EndsWith(s: string, suffix: string)
  {
    |suffix| <= |s| && s[|s| - |suffix|..] == suffix
  }

  /** A concatenation starts with its first part and ends with its second. */
  lemma ConcatParts(a: string, b: string)
    ensures StartsWith(a + b, a) && EndsWith(a + b, b)
  {
    assert (a + b)[..|a|] == a;
    assert (a + b)[|a + b| - |b|..] == b;
  }

  /** A three-part concatenation starts with its first part and with its first two parts. */
  lemma ConcatThree(a: string, b: string, c: string)
    ensures StartsWith(a + b + c, a) && StartsWith(a + b + c, a + b)
    ensures b == [] && c == [] ==> a + b + c == a
  {
    assert (a + b + c)[..|a|] == a;
    assert (a + b + c)[..|a + b|] == a + b;
  }

  /** The middle part of a three-part concatenation sits right after the first part. */
  lemma MiddlePart(a: string, b: string, c: string)
    ensures |a| + |b| <= |a + b + c| && (a + b + c)[|a|..|a| + |b|] == b
  {
  }

  lemma StartsWithExtended(s: string, t: string, prefix: string)
    requires StartsWith(s, prefix)
    ensures StartsWith(s + t, prefix)
  {
    assert (s + t)[..|prefix|] == s[..|prefix|];
  }

  lemma StartsWithTransitive(s: string, t: string, prefix: string)
    requires StartsWith(s, t) && StartsWith(t, prefix)
    ensures StartsWith(s, prefix)
  {
    assert s[..|prefix|] == t[..|prefix|];
  }

  /** The characters String.trim removes: every char at or below U+0020. */
  predicate IsTrimmable(c: char)
  {
    c <= ' '
  }

  /** The characters of the regular-expression class \s: [ \t\n\x0B\f\r]. */
  predicate IsRegexWhitespace(c: char)
  {
    c == ' ' || c == '\t' || c == '\n' || c == '\U{B}' || c == '\U{C}' || c == '\r'
  }

  /** The number of trimmable chars that open s. */
  function LeadingTrimmable(s: string): (n: nat)
    ensures n <= |s|
    ensures forall k :: 0 <= k < n ==> IsTrimmable(s[k])
    ensures n == |s| || !IsTrimmable(s[n])
  {
    if s != [] && IsTrimmable(s[0]) then
      var n := 1 + LeadingTrimmable(s[1..]);
      assert forall k :: 1 <= k < n ==> s[k] == s[1..][k - 1];
      n
    else 0
  }

  /** The length of s once its closing trimmable chars are dropped. */
  function UntrimmedLength(s: string): (n: nat)
    ensures n <= |s|
    ensures forall k :: n <= k < |s| ==> IsTrimmable(s[k])
    ensures n == 0 || !IsTrimmable(s[n - 1])
  {
    if s != [] && IsTrimmable(s[|s| - 1]) then UntrimmedLength(s[..|s| - 1]) else |s|
  }

  /** String.trim: the longest infix that neither starts nor ends with a char at or below U+0020. */
  function Trim(s: string): (r: string)
  {
    var i := LeadingTrimmable(s);
    s[i..i + UntrimmedLength(s[i..])]
  }

  /** Trim removes only leading and trailing trimmable chars, and all of them. */
  lemma TrimIsInfix(s: string)
    ensures exists i, j :: 0 <= i <= j <= |s| && Trim(s) == s[i..j]
                           && (forall k :: 0 <= k < i ==> IsTrimmable(s[k]))
                           && (forall k :: j <= k < |s| ==> IsTrimmable(s[k]))
    ensures Trim(s) == [] || (!IsTrimmable(Trim(s)[0]) && !IsTrimmable(Trim(s)[|Trim(s)| - 1]))
  {
    var i := LeadingTrimmable(s);
    var n := UntrimmedLength(s[i..]);
    var j := i + n;
    forall k | j <= k < |s| ensures IsTrimmable(s[k]) {
      assert s[k] == s[i..][k - i];
    }
    if n > 0 {
      assert Trim(s)[n - 1] == s[i..][n - 1];
    }
  }

  /** A string that starts and ends with a non-trimmable char is its own trim. */
  lemma TrimOfTrimmed(s: string)
    requires s == [] || (!IsTrimmable(s[0]) && !IsTrimmable(s[|s| - 1]))
    ensures Trim(s) == s
  {
  }

  /** Java's per-char case folding, restricted to the ASCII letters. */
  function ToLowerAscii(c: char): char
  {
    if 'A' <= c <= 'Z' then (c as int + 32) as char else c
  }

  /** String.equalsIgnoreCase, with ASCII case folding. */
  predicate EqualsIgnoreCase(a: string, b: string)
  {
    |a| == |b| && forall i :: 0 <= i < |a| ==> ToLowerAscii(a[i]) == ToLowerAscii(b[i])
  }

  lemma EqualsIgnoreCaseIsEquivalence(a: string, b: string, c: string)
    ensures EqualsIgnoreCase(a, a)
    ensures EqualsIgnoreCase(a, b) ==> EqualsIgnoreCase(b, a)
    ensures EqualsIgnoreCase(a, b) && EqualsIgnoreCase(b, c) ==> EqualsIgnoreCase(a, c)
  {
  }

  /**
   * String.replace(CharSequence, CharSequence) for a non-empty target: every occurrence,
   * scanning left to right, non-overlapping.
   */
  function Replace(s: string, target: string, replacement: string): string
    requires target != []
    decreases |s|
  {
    if |s| < |target| then s
    else if s[..|target|] == target then replacement + Replace(s[|target|..], target, replacement)
    else [s[0]] + Replace(s[1..], target, replacement)
  }

  /** The target occurs in s starting at index i. */
  predicate OccursAt(s: string, target: string, i: int)
  {
    0 <= i && i + |target| <= |s| && s[i..i + |target|] == target
  }

  /** String.contains */
  ghost predicate Contains(s: string, target: string)
  {
    exists i :: OccursAt(s, target, i)
  }

  /** Replace leaves the text alone when the target occurs nowhere in it. */
  lemma {:induction false} ReplaceWithoutOccurrence(s: string, target: string, replacement: string)
    requires target != [] && !Contains(s, target)
    ensures Replace(s, target, replacement) == s
    decreases |s|
  {
    if |s| >= |target| {
      assert !OccursAt(s, target, 0);
      forall i ensures !OccursAt(s[1..], target, i) {
        if OccursAt(s[1..], target, i) {
          assert s[1..][i..i + |target|] == s[i + 1..i + 1 + |target|];
          assert OccursAt(s, target, i + 1);
        }
      }
      ReplaceWithoutOccurrence(s[1..], target, replacement);
    }
  }

  /** A target at the start is replaced; a rest without the target is kept as it is. */
  lemma ReplaceAtStart(target: string, rest: string, replacement: string)
    requires target != [] && !Contains(rest, target)
    ensures Replace(target + rest, target, replacement) == replacement + rest
  {
    var s := target + rest;
    assert s[..|target|] == target && s[|target|..] == rest;
    ReplaceWithoutOccurrence(rest, target, replacement);
  }

  /** Text that does not contain the target's first char is left unchanged. */
  lemma {:induction false} ReplaceWithoutFirstChar(s: string, target: string, replacement: string)
    requires target != [] && target[0] !in s
    ensures Replace(s, target, replacement) == s
    decreases |s|
  {
    if |s| >= |target| {
      assert s[..|target|][0] == s[0];
      ReplaceWithoutFirstChar(s[1..], target, replacement);
    }
  }

  /** A char found neither in the text nor in the replacement is not in the result. */
  lemma {:induction false} ReplaceKeepsCharOut(s: string, target: string, replacement: string, c: char)
    requires target != [] && c !in s && c !in replacement
    ensures c !in Replace(s, target, replacement)
    decreases |s|
  {
    if |s| < |target| {
    } else if s[..|target|] == target {
      ReplaceKeepsCharOut(s[|target|..], target, replacement, c);
    } else {
      ReplaceKeepsCharOut(s[1..], target, replacement, c);
    }
  }

  /** The target alone is replaced by the replacement alone. */
  lemma ReplaceWhole(target: string, replacement: string)
    requires target != []
    ensures Replace(target, target, replacement) == replacement
  {
    assert target[|target|..] == [];
  }

  /** All pieces of s between occurrences of c, empty ones included: s.split with a negative limit. */
  function SplitAll(s: string, c: char): (r: seq<string>)
    ensures |r| >= 1
    ensures forall i :: 0 <= i < |r| ==> c !in r[i]
  {
    if s == [] then [""]
    else
      var rest := SplitAll(s[1..], c);
      if s[0] == c then [""] + rest else [[s[0]] + rest[0]] + rest[1..]
  }

  /** A string without the separator is a single piece. */
  lemma {:induction false} SplitAllWithout(s: string, c: char)
    requires c !in s
    ensures SplitAll(s, c) == [s]
  {
    if s != [] {
      SplitAllWithout(s[1..], c);
      assert [s[0]] + s[1..] == s;
    }
  }

  /** Splitting at one occurrence of the separator splits the pieces on either side independently. */
  lemma {:induction false} SplitAllConcat(a: string, b: string, c: char)
    ensures SplitAll(a + [c] + b, c) == SplitAll(a, c) + SplitAll(b, c)
  {
    var s := a + [c] + b;
    if a == [] {
      assert s[1..] == b;
    } else {
      assert s[1..] == a[1..] + [c] + b;
      SplitAllConcat(a[1..], b, c);
    }
  }

  function DropTrailingEmpty(ps: seq<string>): (r: seq<string>)
    ensures |r| <= |ps| && r == ps[..|r|]
    ensures r == [] || r[|r| - 1] != ""
    ensures forall i :: |r| <= i < |ps| ==> ps[i] == ""
  {
    if ps != [] && ps[|ps| - 1] == "" then DropTrailingEmpty(ps[..|ps| - 1]) else ps
  }

  /** Only the empty pieces after the last non-empty one are dropped. */
  lemma DropTrailingEmptyOfEmpties(ps: seq<string>, empties: seq<string>)
    requires ps != [] && ps[|ps| - 1] != ""
    requires forall i :: 0 <= i < |empties| ==> empties[i] == ""
    ensures DropTrailingEmpty(ps + empties) == ps
  {
    var all := ps + empties;
    var r := DropTrailingEmpty(all);
    assert all[|ps| - 1] != "";
    assert forall i :: |ps| <= i < |all| ==> all[i] == "" by {
      forall i | |ps| <= i < |all| ensures all[i] == "" {
        assert all[i] == empties[i - |ps|];
      }
    }
    assert |r| == |ps|;
    assert r == all[..|ps|] == ps;
  }

  /**
   * String.split(String) for a one-char, non-meta pattern: the input itself when the char
   * does not occur, otherwise all pieces with the trailing empty ones removed.
   */
  function Split(s: string, c: char): (r: seq<string>)
    ensures forall i :: 0 <= i < |r| ==> c !in r[i]
  {
    if c !in s then [s] else DropTrailingEmpty(SplitAll(s, c))
  }

  /** String.join */
  function Join(sep: string, parts: seq<string>): string
  {
    if |parts| == 0 then ""
    else if |parts| == 1 then parts[0]
    else parts[0] + sep + Join(sep, parts[1..])
  }

  /** Joining the pieces back with the separator gives the original string. */
  lemma {:induction false} JoinSplitAll(s: string, c: char)
    ensures Join([c], SplitAll(s, c)) == s
  {
    if s != [] {
      JoinSplitAll(s[1..], c);
      var rest := SplitAll(s[1..], c);
      if s[0] != c {
        if |rest| > 1 {
          assert [[s[0]] + rest[0]] + rest[1..] == [[s[0]] + rest[0]] + rest[1..];
          assert Join([c], rest) == rest[0] + [c] + Join([c], rest[1..]);
        }
      }
    }
  }

  /** Join splits off its last part. */
  lemma {:induction false} JoinLast(sep: string, parts: seq<string>)
    requires |parts| >= 2
    ensures Join(sep, parts) == Join(sep, parts[..|parts| - 1]) + sep + parts[|parts| - 1]
    decreases |parts|
  {
    if |parts| > 2 {
      JoinLast(sep, parts[1..]);
      assert parts[1..][..|parts| - 2] == parts[..|parts| - 1][1..];
    }
  }

  /** Java's Character.digit(c, 10) restricted to ASCII digits. */
  predicate IsDigit(c: char)
  {
    '0' <= c <= '9'
  }

  function DigitValue(c: char): nat
    requires IsDigit(c)
  {
    c as int - '0' as int
  }

  function DigitChar(d: nat): (c: char)
    requires d < 10
    ensures IsDigit(c) && DigitValue(c) == d
  {
    ('0' as int + d) as char
  }

  /** The value of a string of decimal digits, most significant first. */
  function DigitsValue(ds: string): nat
    requires forall i :: 0 <= i < |ds| ==> IsDigit(ds[i])
  {
    if ds == [] then 0 else DigitsValue(ds[..|ds| - 1]) * 10 + DigitValue(ds[|ds| - 1])
  }

  const MinInt: int := -0x8000_0000
  const MaxInt: int := 0x7fff_ffff

  predicate IsInt32(n: int)
  {
    MinInt <= n <= MaxInt
  }

  /**
   * Integer.parseInt(s): an optional sign followed by at least one digit, in the 32-bit range;
   * anything else, surrounding white space included, throws NumberFormatException.
   */
  function ParseInt(s: string): (r: Result<int>)
    ensures r.Ok? ==> IsInt32(r.value)
    ensures r.Throws? ==> r.exception == NumberFormatException
    ensures s == [] || (exists i :: 0 <= i < |s| && !IsDigit(s[i]) && (i > 0 || (s[0] != '-' && s[0] != '+')))
            ==> r.Throws?
  {
    if s == [] then Throws(NumberFormatException)
    else
      var signed := s[0] == '-' || s[0] == '+';
      var digits := if signed then s[1..] else s;
      if digits == [] || exists i :: 0 <= i < |digits| && !IsDigit(digits[i]) then Throws(NumberFormatException)
      else
        var n: int := DigitsValue(digits);
        var v := if s[0] == '-' then -n else n;
        if IsInt32(v) then Ok(v) else Throws(NumberFormatException)
  }

  /** The decimal digits of a natural number, without leading zeros. */
  function NatDigits(n: nat): (ds: string)
    ensures ds != [] && forall i :: 0 <= i < |ds| ==> IsDigit(ds[i])
  {
    if n < 10 then [DigitChar(n)] else NatDigits(n / 10) + [DigitChar(n % 10)]
  }

  /** Integer.toString: decimal digits, with a leading '-' for negative numbers. */
  function DecimalString(n: int): string
  {
    if n < 0 then "-" + NatDigits(-n) else NatDigits(n)
  }

  lemma {:induction false} DigitsValueOfNatDigits(n: nat)
    ensures DigitsValue(NatDigits(n)) == n
  {
    if n >= 10 {
      DigitsValueOfNatDigits(n / 10);
      var ds := NatDigits(n);
      assert ds[..|ds| - 1] == NatDigits(n / 10);
    }
  }

  /** Integer.parseInt reads back what Integer.toString wrote, for every 32-bit value. */
  lemma ParseIntOfDecimalString(n: int)
    requires IsInt32(n)
    ensures ParseInt(DecimalString(n)) == Ok(n)
  {
    var s := DecimalString(n);
    if n < 0 {
      DigitsValueOfNatDigits(-n);
      assert s[1..] == NatDigits(-n);
    } else {
      DigitsValueOfNatDigits(n);
      assert s[0] != '-' && s[0] != '+';
    }
  }
}
