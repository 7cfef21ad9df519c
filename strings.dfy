/** Java string operations the core relies on, over seq<char>: ASCII case
    folding, String.trim, Integer.toString and the natural (compareTo) order. */
module Strings {
  import opened Seqs
  import Sorting

  /** Character.toLowerCase restricted to ASCII letters. */
  function Lower(c: char): char
  {
    if 'A' <= c <= 'Z' then (c as int + 32) as char else c
  }

  function LowerCase(s: string): string
  {
    seq(|s|, i requires 0 <= i < |s| => Lower(s[i]))
  }

  predicate IsUpper(c: char) { 'A' <= c <= 'Z' }

  /** A string containing an upper-case letter is never the result of
      lower-casing, so it can never equal a lower-cased tag name. */
  lemma LowerCaseHasNoUpper(t: string, s: string)
    requires exists i :: 0 <= i < |s| && IsUpper(s[i])
    ensures LowerCase(t) != s
  {
    var i :| 0 <= i < |s| && IsUpper(s[i]);
    if |t| == |s| {
      assert !IsUpper(LowerCase(t)[i]);
    }
  }

  /** String.trim: characters at or below U+0020 removed from both ends. */
  function Trim(s: string): string
  {
    if s != [] && s[0] <= ' ' then Trim(s[1..])
    else if s != [] && s[|s| - 1] <= ' ' then Trim(s[..|s| - 1])
    else s
  }

  /** r sits at a in s, and everything in s outside it is at or below U+0020. */
  ghost predicate PaddedSlice(s: string, r: string, a: nat)
  {
    && a + |r| <= |s| && r == s[a..a + |r|]
    && (forall i :: 0 <= i < a ==> s[i] <= ' ')
    && (forall i :: a + |r| <= i < |s| ==> s[i] <= ' ')
  }

  lemma PaddedSliceFront(s: string, r: string, b: nat)
    requires s != [] && s[0] <= ' ' && PaddedSlice(s[1..], r, b)
    ensures PaddedSlice(s, r, b + 1)
  {
    var t := s[1..];
    assert t[b..b + |r|] == s[b + 1..b + 1 + |r|];
    forall i | 0 < i < b + 1 ensures s[i] <= ' ' {
      assert s[i] == t[i - 1];
    }
    forall i | b + 1 + |r| <= i < |s| ensures s[i] <= ' ' {
      assert s[i] == t[i - 1];
    }
  }

  lemma PaddedSliceBack(s: string, r: string, a: nat)
    requires s != [] && s[|s| - 1] <= ' ' && PaddedSlice(s[..|s| - 1], r, a)
    ensures PaddedSlice(s, r, a)
  {
    var t := s[..|s| - 1];
    assert t[a..a + |r|] == s[a..a + |r|];
    forall i | 0 <= i < a ensures s[i] <= ' ' {
      assert s[i] == t[i];
    }
    forall i | a + |r| <= i < |s| - 1 ensures s[i] <= ' ' {
      assert s[i] == t[i];
    }
  }

  /** The trimmed string is the slice of the original from a on that starts and ends
      above U+0020, and everything cut off on either side is at or below it. */
  lemma {:induction false} TrimSpec(s: string) returns (a: nat)
    ensures Trim(s) == [] || (Trim(s)[0] > ' ' && Trim(s)[|Trim(s)| - 1] > ' ')
    ensures PaddedSlice(s, Trim(s), a)
  {
    if s != [] && s[0] <= ' ' {
      var b := TrimSpec(s[1..]);
      PaddedSliceFront(s, Trim(s), b);
      a := b + 1;
    } else if s != [] && s[|s| - 1] <= ' ' {
      a := TrimSpec(s[..|s| - 1]);
      PaddedSliceBack(s, Trim(s), a);
    } else {
      a := 0;
      assert s == s[0..|s|];
    }
  }

  /** Trimming twice trims no more. */
  lemma TrimIdempotent(s: string)
    ensures Trim(Trim(s)) == Trim(s)
  {
    var _ := TrimSpec(s);
  }

  /** " ".repeat(n). */
  function Spaces(n: nat): (r: string)
    ensures |r| == n && forall i :: 0 <= i < n ==> r[i] == ' '
  {
    seq(n, _ => ' ')
  }

  function DigitChar(d: nat): char
    requires d < 10
  {
    ('0' as int + d) as char
  }

  predicate IsDigit(c: char) { '0' <= c <= '9' }

  function DigitValue(c: char): nat
    requires IsDigit(c)
  {
    c as int - '0' as int
  }

  /** Decimal digits of n, most significant first, without leading zeros. */
  function NatToString(n: nat): (r: string)
    ensures |r| >= 1 && forall i :: 0 <= i < |r| ==> IsDigit(r[i])
    ensures r[0] == '0' ==> n == 0
  {
    if n < 10 then [DigitChar(n)] else NatToString(n / 10) + [DigitChar(n % 10)]
  }

  /** Integer.toString: a minus sign before the digits of a negative value. */
  function IntToString(n: int): (r: string)
    ensures |r| >= 1 && (r[0] == '-' <==> n < 0)
    ensures forall i :: (if n < 0 then 1 else 0) <= i < |r| ==> IsDigit(r[i])
  {
    if n < 0 then "-" + NatToString(-n) else NatToString(n)
  }

  /** Reads decimal digits back. */
  function ParseDigits(s: string): nat
    requires forall i :: 0 <= i < |s| ==> IsDigit(s[i])
  {
    if s == [] then 0 else 10 * ParseDigits(s[..|s| - 1]) + DigitValue(s[|s| - 1])
  }

  function ParseInt(s: string): int
    requires s != []
    requires s[0] == '-' ==> forall i :: 1 <= i < |s| ==> IsDigit(s[i])
    requires s[0] != '-' ==> forall i :: 0 <= i < |s| ==> IsDigit(s[i])
  {
    if s[0] == '-' then -(ParseDigits(s[1..]) as int) else ParseDigits(s)
  }

  lemma {:induction false} NatToStringRoundTrip(n: nat)
    ensures ParseDigits(NatToString(n)) == n
  {
    if n >= 10 {
      NatToStringRoundTrip(n / 10);
      var s := NatToString(n / 10) + [DigitChar(n % 10)];
      assert s[..|s| - 1] == NatToString(n / 10);
    }
  }

  /** Integer.toString loses nothing: the count printed in a row reads back. */
  lemma IntToStringRoundTrip(n: int)
    ensures IntToString(n) != [] && ParseInt(IntToString(n)) == n
  {
    if n < 0 {
      NatToStringRoundTrip(-n);
      assert IntToString(n)[1..] == NatToString(-n);
    } else {
      NatToStringRoundTrip(n);
    }
  }

  /** String.compareTo(b) < 0: lexicographic on characters, a proper prefix first. */
  predicate StringLess(a: string, b: string)
  {
    if a == [] then b != []
    else if b == [] then false
    else if a[0] != b[0] then a[0] < b[0]
    else StringLess(a[1..], b[1..])
  }

  lemma {:induction false} StringLessIrreflexive(a: string)
    ensures !StringLess(a, a)
  {
    if a != [] { StringLessIrreflexive(a[1..]); }
  }

  lemma {:induction false} StringLessTransitive(a: string, b: string, c: string)
    requires StringLess(a, b) && StringLess(b, c)
    ensures StringLess(a, c)
  {
    if a != [] && b != [] && c != [] && a[0] == b[0] && b[0] == c[0] {
      StringLessTransitive(a[1..], b[1..], c[1..]);
    }
  }

  lemma {:induction false} StringLessTotal(a: string, b: string)
    ensures a == b || StringLess(a, b) || StringLess(b, a)
  {
    if a != [] && b != [] && a[0] == b[0] {
      StringLessTotal(a[1..], b[1..]);
      if a[1..] == b[1..] {
        assert a == [a[0]] + a[1..] && b == [b[0]] + b[1..];
      }
    }
  }

  /** Strictly increasing in the natural order, hence free of duplicates. */
  ghost predicate StrictlySorted(s: seq<string>)
  {
    forall i, j :: 0 <= i < j < |s| ==> StringLess(s[i], s[j])
  }

  lemma StrictlySortedDistinct(s: seq<string>)
    requires StrictlySorted(s)
    ensures Distinct(s)
  {
    forall i, j | 0 <= i < j < |s| ensures s[i] != s[j] {
      if s[i] == s[j] { StringLessIrreflexive(s[i]); }
    }
  }

  /** Inserts x into a strictly sorted sequence, dropping it if present. */
  function InsertName(x: string, s: seq<string>): (r: seq<string>)
    requires StrictlySorted(s)
    ensures StrictlySorted(r)
    ensures forall y :: y in r <==> y == x || y in s
  {
    if s == [] then [x]
    else if x == s[0] then s
    else if StringLess(x, s[0]) then
      assert forall k :: 0 <= k < |s| ==> StringLess(x, s[k]) by {
        forall k | 0 <= k < |s| ensures StringLess(x, s[k]) {
          if k > 0 { StringLessTransitive(x, s[0], s[k]); }
        }
      }
      [x] + s
    else
      StringLessTotal(x, s[0]);
      var tail := InsertName(x, s[1..]);
      assert forall y :: y in s <==> y == s[0] || y in s[1..];
      assert forall k :: 0 <= k < |tail| ==> StringLess(s[0], tail[k]) by {
        forall k | 0 <= k < |tail| ensures StringLess(s[0], tail[k]) {
          assert tail[k] in tail;
          if tail[k] != x {
            var m :| 1 <= m < |s| && s[m] == tail[k];
          }
        }
      }
      [s[0]] + tail
  }

  /** .distinct().sorted() on a list of strings. */
  function SortedDistinct(s: seq<string>): (r: seq<string>)
    ensures StrictlySorted(r)
    ensures forall y :: y in r <==> y in s
  {
    if s == [] then [] else InsertName(s[0], SortedDistinct(s[1..]))
  }

  /** keySet().stream().sorted() on a set of strings. */
  method SortedNames(names: set<string>) returns (r: seq<string>)
    ensures StrictlySorted(r)
    ensures forall y :: y in r <==> y in names
  {
    var enumerated := Sorting.InSomeOrder(names);
    r := SortedDistinct(enumerated);
  }
}
