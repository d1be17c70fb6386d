/**
 * Text helpers the generator relies on: Go's strings.Replace for a one-character
 * pattern, occurrence counting, the reading of an escape sequence back into the
 * character it stands for, and fmt's %d rendering of an integer.
 */
module Strings {
  import opened Wrappers

  /** Number of occurrences of c in s. */
  function Count(s: string, c: char): (n: nat)
    ensures n <= |s|
    ensures n == 0 <==> c !in s
  {
    if s == [] then 0 else (if s[0] == c then 1 else 0) + Count(s[1..], c)
  }

  /**
   * strings.Replace(s, string(c), rep, -1): every occurrence of c, left to right,
   * becomes rep; every other character is kept in place.
   */
  function ReplaceChar(s: string, c: char, rep: string): (r: string)
    ensures |r| == |s| + (|rep| - 1) * Count(s, c)
    ensures c !in rep ==> c !in r
    ensures c !in s ==> r == s
    ensures forall x :: x in r ==> x in s || x in rep
  {
    if s == [] then []
    else
      var rest := ReplaceChar(s[1..], c, rep);
      var k := Count(s[1..], c);
      assert s[0] == c ==> (|rep| - 1) * (k + 1) == (|rep| - 1) * k + |rep| - 1 by {
        MulSucc(|rep| - 1, k);
      }
      (if s[0] == c then rep else [s[0]]) + rest
  }

  /** Concatenation regroups freely. */
  lemma AppendAssoc<T>(a: seq<T>, b: seq<T>, c: seq<T>)
    ensures (a + b) + c == a + (b + c)
  {
  }

  /** A prefix of a prefix is a prefix. */
  lemma PrefixTrans<T>(a: seq<T>, b: seq<T>, c: seq<T>)
    requires a <= b && b <= c
    ensures a <= c
  {
  }

  lemma MulSucc(a: int, k: int)
    ensures a * (k + 1) == a * k + a
  {
  }

  /** With a one-character replacement the string keeps its shape: index k maps to index k. */
  lemma {:induction false} ReplaceCharAt(s: string, c: char, b: char, k: nat)
    requires k < |s|
    ensures |ReplaceChar(s, c, [b])| == |s|
    ensures ReplaceChar(s, c, [b])[k] == if s[k] == c then b else s[k]
  {
    if k > 0 {
      ReplaceCharAt(s[1..], c, b, k - 1);
    }
  }

  /** Replacement works character by character: it distributes over concatenation. */
  lemma {:induction false} ReplaceCharAppend(a: string, b: string, c: char, rep: string)
    ensures ReplaceChar(a + b, c, rep) == ReplaceChar(a, c, rep) + ReplaceChar(b, c, rep)
  {
    if a == [] {
      assert a + b == b;
    } else {
      assert (a + b)[1..] == a[1..] + b;
      ReplaceCharAppend(a[1..], b, c, rep);
    }
  }

  /** A single character becomes rep when it is c, and stays otherwise. */
  lemma ReplaceCharSingle(x: char, c: char, rep: string)
    ensures ReplaceChar([x], c, rep) == if x == c then rep else [x]
  {
    assert [x][1..] == [];
  }

  /** Replacing by one character keeps the length and acts on each position alone. */
  lemma ReplaceCharPointwise(s: string, c: char, b: char)
    ensures |ReplaceChar(s, c, [b])| == |s|
    ensures forall k :: 0 <= k < |s| ==> ReplaceChar(s, c, [b])[k] == if s[k] == c then b else s[k]
  {
    assert |ReplaceChar(s, c, [b])| == |s| + 0 * Count(s, c);
    forall k | 0 <= k < |s|
      ensures ReplaceChar(s, c, [b])[k] == if s[k] == c then b else s[k]
    {
      ReplaceCharAt(s, c, b, k);
    }
  }

  /**
   * How a Go string literal reads an escape sequence esc: each occurrence of esc
   * stands for the one character c; every other character stands for itself.
   */
  function Unescape(s: string, c: char, esc: string): (r: string)
    requires esc != []
    ensures |r| <= |s|
    decreases |s|
  {
    if s == [] then []
    else if |esc| <= |s| && s[..|esc|] == esc then [c] + Unescape(s[|esc|..], c, esc)
    else [s[0]] + Unescape(s[1..], c, esc)
  }

  /**
   * Escaping c as esc is undone by reading esc back, provided the escape's
   * leading character never occurs in the text itself.
   */
  lemma {:induction false} UnescapeReplaceChar(s: string, c: char, esc: string)
    requires esc != []
    ensures esc[0] !in s ==> Unescape(ReplaceChar(s, c, esc), c, esc) == s
  {
    if s != [] && esc[0] !in s {
      var r := ReplaceChar(s, c, esc);
      var rest := ReplaceChar(s[1..], c, esc);
      assert r == (if s[0] == c then esc else [s[0]]) + rest;
      UnescapeReplaceChar(s[1..], c, esc);
      if s[0] == c {
        assert r[..|esc|] == esc;
        assert r[|esc|..] == rest;
      } else {
        assert r[0] == s[0] != esc[0];
        assert r[1..] == rest;
      }
    }
  }

  function Digit(d: nat): (c: char)
    requires d < 10
    ensures '0' <= c <= '9'
  {
    (d + '0' as int) as char
  }

  predicate IsDigits(s: string) {
    forall i :: 0 <= i < |s| ==> '0' <= s[i] <= '9'
  }

  /** fmt's %d for a natural number: its shortest decimal numeral. */
  function NatDecimal(n: nat): (r: string)
    ensures r != [] && IsDigits(r)
    ensures r[0] == '0' ==> n == 0
  {
    if n < 10 then [Digit(n)] else NatDecimal(n / 10) + [Digit(n % 10)]
  }

  /** The value of a numeral. */
  function DigitsValue(s: string): nat
    requires IsDigits(s)
  {
    if s == [] then 0
    else DigitsValue(s[..|s| - 1]) * 10 + (s[|s| - 1] as int - '0' as int)
  }

  lemma {:induction false} NatDecimalValue(n: nat)
    ensures DigitsValue(NatDecimal(n)) == n
  {
    var r := NatDecimal(n);
    if n >= 10 {
      NatDecimalValue(n / 10);
      assert r[..|r| - 1] == NatDecimal(n / 10);
    }
  }

  /** fmt's %d for an int: a minus sign for a negative value, then the numeral of its magnitude. */
  function Decimal(n: int): (r: string)
    ensures r != []
    ensures r[0] == '-' <==> n < 0
    ensures ':' !in r && '"' !in r
  {
    if n < 0 then "-" + NatDecimal(-n) else NatDecimal(n)
  }

  /** Reads a %d rendering back; None for text that is not one. */
  function ParseDecimal(s: string): (r: Option<int>)
    ensures r.Some? ==> s != []
  {
    if s == [] then None
    else if s[0] == '-' then
      (if |s| > 1 && IsDigits(s[1..]) then Some(-(DigitsValue(s[1..]) as int)) else None)
    else if IsDigits(s) then Some(DigitsValue(s))
    else None
  }

  /** %d rendering is read back to the same integer. */
  lemma DecimalRoundTrip(n: int)
    ensures ParseDecimal(Decimal(n)) == Some(n)
  {
    var r := Decimal(n);
    if n < 0 {
      NatDecimalValue(-n);
      assert r[1..] == NatDecimal(-n);
      assert |r| > 1 && IsDigits(r[1..]);
    } else {
      NatDecimalValue(n);
      assert r[0] != '-' && IsDigits(r);
    }
  }
}
