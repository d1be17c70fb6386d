/**
 * Literal helpers: the NUL escape applied to every value embedded in a generated
 * string literal, the quote escape of printIfNotEqual's failure message, and the
 * canonical rendering of a host.
 */
module Literals {
  import opened Wrappers
  import opened Strings

  const Nul: char := 0 as char
  /** The four characters backslash, x, 0, 0. */
  const NulEscape: string := "\\x00"

  /**
   * replaceNullCharacter: every NUL becomes the four characters \x00; everything
   * else stays in place.
   */
  function ReplaceNul(s: string): (r: string)
    ensures Nul !in r
    ensures |r| == |s| + 3 * Count(s, Nul)
    ensures Nul !in s ==> r == s
  {
    ReplaceChar(s, Nul, NulEscape)
  }

  /** The escape acts character by character: a NUL becomes \x00, any other character stays, and texts are escaped piecewise. */
  lemma ReplaceNulPerCharacter(x: char, a: string, b: string)
    ensures ReplaceNul([x]) == if x == Nul then NulEscape else [x]
    ensures ReplaceNul(a + b) == ReplaceNul(a) + ReplaceNul(b)
  {
    ReplaceCharSingle(x, Nul, NulEscape);
    ReplaceCharAppend(a, b, Nul, NulEscape);
  }

  /** A Go string literal reads the escaped text back to the original, when the original holds no backslash. */
  lemma ReplaceNulRoundTrip(s: string)
    requires '\\' !in s
    ensures Unescape(ReplaceNul(s), Nul, NulEscape) == s
  {
    UnescapeReplaceChar(s, Nul, NulEscape);
  }

  /** A backslash already in the value is not escaped, so the text \x00 and a real NUL give the same literal. */
  lemma ReplaceNulConflatesBackslash()
    ensures ReplaceNul(NulEscape) == ReplaceNul([Nul])
  {
    assert ReplaceNul([Nul]) == NulEscape + ReplaceChar([], Nul, NulEscape);
  }

  /** The quote escape of printIfNotEqual: every double quote becomes a backslash and a double quote. */
  function EscapeQuotes(s: string): (r: string)
    ensures |r| == |s| + Count(s, '"')
    ensures '"' !in s ==> r == s
  {
    ReplaceChar(s, '"', "\\\"")
  }

  /** The quote escape acts character by character: a double quote becomes backslash and quote, any other character stays. */
  lemma EscapeQuotesPerCharacter(x: char, a: string, b: string)
    ensures EscapeQuotes([x]) == if x == '"' then "\\\"" else [x]
    ensures EscapeQuotes(a + b) == EscapeQuotes(a) + EscapeQuotes(b)
  {
    ReplaceCharSingle(x, '"', "\\\"");
    ReplaceCharAppend(a, b, '"', "\\\"");
  }

  /** A Go string literal reads the escaped text back to the original, when the original holds no backslash. */
  lemma EscapeQuotesRoundTrip(s: string)
    requires '\\' !in s
    ensures Unescape(EscapeQuotes(s), '"', "\\\"") == s
  {
    UnescapeReplaceChar(s, '"', "\\\"");
  }

  /** After the quote escape, every double quote is preceded by a backslash. */
  lemma {:induction false} EscapedQuotesArePreceded(s: string, k: nat)
    requires k < |EscapeQuotes(s)| && EscapeQuotes(s)[k] == '"'
    ensures k > 0 && EscapeQuotes(s)[k - 1] == '\\'
  {
    var r := EscapeQuotes(s);
    var head: string := if s[0] == '"' then "\\\"" else [s[0]];
    assert r == head + EscapeQuotes(s[1..]);
    if k >= |head| {
      EscapedQuotesArePreceded(s[1..], k - |head|);
    }
  }

  /**
   * For text without backslashes, the backslash before each escaped quote is not
   * itself preceded by a backslash, so inside a Go string literal it escapes the
   * quote and the quote cannot end the literal.
   */
  lemma {:induction false} EscapedQuoteIsEscaped(s: string, k: nat)
    requires '\\' !in s
    requires k < |EscapeQuotes(s)| && EscapeQuotes(s)[k] == '"'
    ensures k > 0 && EscapeQuotes(s)[k - 1] == '\\'
    ensures k > 1 ==> EscapeQuotes(s)[k - 2] != '\\'
  {
    var r := EscapeQuotes(s);
    var head: string := if s[0] == '"' then "\\\"" else [s[0]];
    assert r == head + EscapeQuotes(s[1..]);
    if k >= |head| {
      assert '\\' !in s[1..] by {
        assert forall x :: x in s[1..] ==> x in s;
      }
      EscapedQuoteIsEscaped(s[1..], k - |head|);
    }
  }

  /** One entry of a vector's host list: its kind (for instance ip_literal), its address text and its port (0 when absent). */
  datatype Host = Host(kind: string, name: string, port: int)

  /** host.String: the address, in square brackets for an ip_literal, then :port when the port is nonzero. */
  function HostString(h: Host): string
  {
    var s := if h.kind == "ip_literal" then "[" + h.name + "]" else h.name;
    if h.port != 0 then s + ":" + Decimal(h.port) else s
  }

  /**
   * The rendering can be taken apart again: the address sits inside brackets exactly
   * for an ip_literal, and the text after it is empty for port 0 and otherwise a colon
   * followed by a numeral that reads back to the port.
   */
  lemma HostStringParts(h: Host)
    ensures var r := HostString(h);
            var b := if h.kind == "ip_literal" then 1 else 0;
            var end := |h.name| + 2 * b;
            && end <= |r|
            && r[b..b + |h.name|] == h.name
            && (h.kind == "ip_literal" ==> r[0] == '[' && r[end - 1] == ']')
            && (h.port == 0 <==> |r| == end)
            && (h.port != 0 ==> r[end] == ':' && ParseDecimal(r[end + 1..]) == Some(h.port))
  {
    var s := if h.kind == "ip_literal" then "[" + h.name + "]" else h.name;
    var r := HostString(h);
    var end := |s|;
    assert r[..end] == s;
    if h.port != 0 {
      assert r[end + 1..] == Decimal(h.port);
      DecimalRoundTrip(h.port);
    }
  }
}
