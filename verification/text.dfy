/**
 * Case mapping on characters and strings, as used by the widget's condition
 * handling (`lowercase(Locale.ROOT)`, `titlecase(Locale.ROOT)`). Only the
 * ASCII letters are mapped; every other character is left as it is.
 */
module Text {

  predicate IsUpper(c: char) { 'A' <= c <= 'Z' }

  predicate IsLower(c: char) { 'a' <= c <= 'z' }

  /** The lower-case form of one character. */
  function LowerChar(c: char): (r: char)
    ensures !IsUpper(r)
    ensures IsUpper(c) ==> IsLower(r)
    ensures !IsUpper(c) ==> r == c
  {
    if IsUpper(c) then (c as int + 32) as char else c
  }

  /** The title-case form of one character: same letter, never lower case. */
  function TitleChar(c: char): (r: char)
    ensures !IsLower(r)
    ensures LowerChar(r) == LowerChar(c)
    ensures !IsLower(c) ==> r == c
  {
    if IsLower(c) then (c as int - 32) as char else c
  }

  /** The lower-case form of a string, character by character. */
  function Lower(s: string): string {
    seq(|s|, i requires 0 <= i < |s| => LowerChar(s[i]))
  }

  /** A string with no upper-case letter is its own lower-case form. */
  lemma LowerOfLowerIsSame(s: string)
    requires forall i :: 0 <= i < |s| ==> !IsUpper(s[i])
    ensures Lower(s) == s
  {
  }

  /** A string whose only upper-case letter can be its first lower-cases by its first character alone. */
  lemma LowerOfCapitalised(s: string)
    requires s != []
    requires forall i :: 1 <= i < |s| ==> !IsUpper(s[i])
    ensures Lower(s) == [LowerChar(s[0])] + s[1..]
  {
    LowerOfLowerIsSame(s[1..]);
  }

  lemma LowerIdempotent(s: string)
    ensures Lower(Lower(s)) == Lower(s)
  {
    LowerOfLowerIsSame(Lower(s));
  }
}
