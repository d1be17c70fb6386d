/**
 * The identifier sanitizer: replaceCharacters turns a free-text test description
 * into the tail of a Go test function name.
 */
module Sanitizer {
  import opened Strings

  /** The characters a description may not carry into an identifier, in processing order. */
  const Disallowed: string := " '-,()"
  /** The replacement alphabet used by the generator. */
  const Replacement: string := "_"

  /** Pass i of the loop replaces with newChars[i], or with newChars's last character once newChars runs out. */
  function ReplacementAt(newChars: string, i: nat): char
    requires newChars != []
  {
    newChars[if i < |newChars| then i else |newChars| - 1]
  }

  /** The target after the first n passes of the loop: pass i replaces every oldChars[i] in the current text. */
  function ReplacedAfter(target: string, oldChars: string, newChars: string, n: nat): string
    requires n <= |oldChars| && (n > 0 ==> newChars != [])
  {
    if n == 0 then target
    else ReplaceChar(ReplacedAfter(target, oldChars, newChars, n - 1), oldChars[n - 1], [ReplacementAt(newChars, n - 1)])
  }

  /** The result of replaceCharacters(target, oldChars, newChars). */
  function Replaced(target: string, oldChars: string, newChars: string): string
    requires oldChars != [] ==> newChars != []
  {
    ReplacedAfter(target, oldChars, newChars, |oldChars|)
  }

  /** The loop of replaceCharacters, advancing the replacement index until it reaches newChars's last character. */
  method ReplaceCharacters(target: string, oldChars: string, newChars: string) returns (r: string)
    requires oldChars != [] ==> newChars != []
    ensures r == Replaced(target, oldChars, newChars)
  {
    r := target;
    var j := 0;
    for i := 0 to |oldChars|
      invariant oldChars != [] ==> j == if i < |newChars| then i else |newChars| - 1
      invariant r == ReplacedAfter(target, oldChars, newChars, i)
    {
      r := ReplaceChar(r, oldChars[i], [newChars[j]]);
      if j < |newChars| - 1 {
        j := j + 1;
      }
    }
  }

  /** What a single character has become after the first n passes. */
  function ImageAfter(c: char, oldChars: string, newChars: string, n: nat): char
    requires n <= |oldChars| && (n > 0 ==> newChars != [])
  {
    if n == 0 then c
    else
      var d := ImageAfter(c, oldChars, newChars, n - 1);
      if d == oldChars[n - 1] then ReplacementAt(newChars, n - 1) else d
  }

  /** The passes act on each position independently: the text keeps its length and position k holds the image of target[k]. */
  lemma {:induction false} ReplacedAfterPointwise(target: string, oldChars: string, newChars: string, n: nat)
    requires n <= |oldChars| && (n > 0 ==> newChars != [])
    ensures |ReplacedAfter(target, oldChars, newChars, n)| == |target|
    ensures forall k :: 0 <= k < |target| ==>
              ReplacedAfter(target, oldChars, newChars, n)[k] == ImageAfter(target[k], oldChars, newChars, n)
  {
    if n > 0 {
      ReplacedAfterPointwise(target, oldChars, newChars, n - 1);
      var prev := ReplacedAfter(target, oldChars, newChars, n - 1);
      ReplacedAfterStep(target, prev, oldChars, newChars, n);
    }
  }

  /** One more pass maps each position of the text so far to the next image of the original character. */
  lemma ReplacedAfterStep(target: string, prev: string, oldChars: string, newChars: string, n: nat)
    requires 0 < n <= |oldChars| && newChars != []
    requires |prev| == |target|
    requires forall k :: 0 <= k < |target| ==> prev[k] == ImageAfter(target[k], oldChars, newChars, n - 1)
    ensures var r := ReplaceChar(prev, oldChars[n - 1], [ReplacementAt(newChars, n - 1)]);
            && |r| == |target|
            && forall k :: 0 <= k < |target| ==> r[k] == ImageAfter(target[k], oldChars, newChars, n)
  {
    ReplaceCharPointwise(prev, oldChars[n - 1], ReplacementAt(newChars, n - 1));
  }

  /** Index of the first occurrence of c in s. */
  function IndexOf(s: string, c: char): (i: nat)
    requires c in s
    ensures i < |s| && s[i] == c && c !in s[..i]
  {
    if s[0] == c then 0
    else
      var i := 1 + IndexOf(s[1..], c);
      assert s[..i] == [s[0]] + s[1..][..i - 1];
      i
  }

  /**
   * The reference mapping of one character: a character of oldChars becomes the replacement
   * belonging to its first position in oldChars; any other character is kept.
   */
  function Translate(c: char, oldChars: string, newChars: string): char
    requires oldChars != [] ==> newChars != []
  {
    if c in oldChars then ReplacementAt(newChars, IndexOf(oldChars, c)) else c
  }

  /** The character pass i writes is not rewritten by any later pass. */
  predicate NotReplacedLater(oldChars: string, newChars: string)
    requires oldChars != [] ==> newChars != []
  {
    forall i :: 0 <= i < |oldChars| ==> ReplacementAt(newChars, i) !in oldChars[i + 1..]
  }

  lemma {:induction false} ImageAfterUntouched(c: char, oldChars: string, newChars: string, n: nat)
    requires n <= |oldChars| && (n > 0 ==> newChars != [])
    requires c !in oldChars[..n]
    ensures ImageAfter(c, oldChars, newChars, n) == c
  {
    if n > 0 {
      assert oldChars[..n - 1] <= oldChars[..n];
      ImageAfterUntouched(c, oldChars, newChars, n - 1);
      assert oldChars[n - 1] in oldChars[..n];
    }
  }

  lemma {:induction false} ImageAfterReplaced(c: char, oldChars: string, newChars: string, n: nat, i: nat)
    requires i < n <= |oldChars| && newChars != [] && NotReplacedLater(oldChars, newChars)
    requires oldChars[i] == c && c !in oldChars[..i]
    ensures ImageAfter(c, oldChars, newChars, n) == ReplacementAt(newChars, i)
  {
    if n == i + 1 {
      ImageAfterUntouched(c, oldChars, newChars, i);
    } else {
      ImageAfterReplaced(c, oldChars, newChars, n - 1, i);
      assert oldChars[i + 1..][n - 1 - (i + 1)] == oldChars[n - 1];
    }
  }

  /**
   * replaceCharacters processes oldChars in order and replaces every occurrence of oldChars[i]
   * with newChars[min(i, |newChars| - 1)], leaving every other character in place; when the
   * character each pass writes is not replaced by a later pass, the whole loop equals this
   * one-step mapping.
   */
  lemma ReplacedMatchesTranslate(target: string, oldChars: string, newChars: string)
    requires oldChars != [] ==> newChars != []
    requires NotReplacedLater(oldChars, newChars)
    ensures |Replaced(target, oldChars, newChars)| == |target|
    ensures forall k :: 0 <= k < |target| ==>
              Replaced(target, oldChars, newChars)[k] == Translate(target[k], oldChars, newChars)
  {
    ReplacedAfterPointwise(target, oldChars, newChars, |oldChars|);
    forall k | 0 <= k < |target|
      ensures ImageAfter(target[k], oldChars, newChars, |oldChars|) == Translate(target[k], oldChars, newChars)
    {
      var c := target[k];
      assert oldChars[..|oldChars|] == oldChars;
      if c in oldChars {
        ImageAfterReplaced(c, oldChars, newChars, |oldChars|, IndexOf(oldChars, c));
      } else {
        ImageAfterUntouched(c, oldChars, newChars, |oldChars|);
      }
    }
  }

  /** Characters outside oldChars are never touched, whatever the replacement alphabet. */
  lemma KeepsOthers(target: string, oldChars: string, newChars: string, k: nat)
    requires oldChars != [] ==> newChars != []
    requires k < |target| && target[k] !in oldChars
    ensures |Replaced(target, oldChars, newChars)| == |target|
    ensures Replaced(target, oldChars, newChars)[k] == target[k]
  {
    ReplacedAfterPointwise(target, oldChars, newChars, |oldChars|);
    assert oldChars[..|oldChars|] == oldChars;
    ImageAfterUntouched(target[k], oldChars, newChars, |oldChars|);
  }

  /**
   * The test-name tail the generator uses: the description with each of the six
   * disallowed characters turned into an underscore.
   */
  function Sanitize(description: string): (r: string)
    ensures |r| == |description|
    ensures forall k :: 0 <= k < |r| ==>
              r[k] == if description[k] in Disallowed then '_' else description[k]
    ensures forall k :: 0 <= k < |r| ==> r[k] !in Disallowed
  {
    SanitizeAlphabet();
    ReplacedMatchesTranslate(description, Disallowed, Replacement);
    Replaced(description, Disallowed, Replacement)
  }

  /** The underscore the generator writes is never one of the characters it replaces. */
  lemma SanitizeAlphabet()
    ensures NotReplacedLater(Disallowed, Replacement)
  {
    forall i | 0 <= i < |Disallowed|
      ensures ReplacementAt(Replacement, i) !in Disallowed[i + 1..]
    {
      assert ReplacementAt(Replacement, i) == '_';
      assert forall x :: x in Disallowed[i + 1..] ==> x in Disallowed;
    }
  }

  /** A description free of the disallowed characters is used as it is. */
  lemma SanitizeKeepsClean(description: string)
    requires forall k :: 0 <= k < |description| ==> description[k] !in Disallowed
    ensures Sanitize(description) == description
  {
  }

  /** Sanitizing twice gives what sanitizing once gives. */
  lemma SanitizeIdempotent(description: string)
    ensures Sanitize(Sanitize(description)) == Sanitize(description)
  {
    SanitizeKeepsClean(Sanitize(description));
  }
}
