/**
 * The username rule of `UsernameValidator`: the pattern `^[\w.@+-]+\z`,
 * that is, one or more characters of the class "word character, `.`, `@`,
 * `+` or `-`", matched against the whole string.
 *
 * Every member takes the meaning of `\w` as a parameter `isWord`, so it
 * holds whatever character table the regex engine uses: Python's `re` on a
 * `str` counts every Unicode letter and digit, so "Иван" is a username.
 */
module Validators {

  /** Membership in the bracketed class `[\w.@+-]`. */
  predicate InUsernameClass(isWord: char -> bool, c: char) {
    isWord(c) || c == '.' || c == '@' || c == '+' || c == '-'
  }

  /** The anchored pattern as a matcher: `^C+\z` matches a string when its
      first character is in C and the rest is empty or matches again. */
  predicate MatchesUsernamePattern(isWord: char -> bool, s: string) {
    |s| > 0 && InUsernameClass(isWord, s[0]) && (|s| == 1 || MatchesUsernamePattern(isWord, s[1..]))
  }

  /** The pattern accepts exactly the non-empty strings made only of class characters. */
  lemma {:induction false} PatternMeansCharacterClass(isWord: char -> bool, s: string)
    ensures MatchesUsernamePattern(isWord, s) <==>
            |s| > 0 && forall i :: 0 <= i < |s| ==> InUsernameClass(isWord, s[i])
  {
    if |s| > 1 {
      PatternMeansCharacterClass(isWord, s[1..]);
      assert forall i :: 1 <= i < |s| ==> s[i] == s[1..][i - 1];
    }
  }

  /** `+` needs at least one character: the empty username is rejected. */
  lemma EmptyRejected(isWord: char -> bool)
    ensures !MatchesUsernamePattern(isWord, "")
  {
  }

  /** Any one character outside the class, anywhere, rejects the username. */
  lemma OutsideClassRejected(isWord: char -> bool, s: string, i: nat)
    requires i < |s| && !InUsernameClass(isWord, s[i])
    ensures !MatchesUsernamePattern(isWord, s)
  {
    PatternMeansCharacterClass(isWord, s);
  }

  /** The match is anchored at the end: an accepted prefix followed by a
      character outside the class is rejected. */
  lemma AnchoredAtEnd(isWord: char -> bool, prefix: string, c: char)
    requires MatchesUsernamePattern(isWord, prefix) && !InUsernameClass(isWord, c)
    ensures !MatchesUsernamePattern(isWord, prefix + [c])
  {
    OutsideClassRejected(isWord, prefix + [c], |prefix|);
  }

  /** A space, a slash or a hash is never accepted under a table that, like
      every table `re` uses, does not count them as word characters. */
  lemma SeparatorsRejected(isWord: char -> bool, s: string, i: nat)
    requires !isWord(' ') && !isWord('/') && !isWord('#')
    requires i < |s| && (s[i] == ' ' || s[i] == '/' || s[i] == '#')
    ensures !MatchesUsernamePattern(isWord, s)
  {
    OutsideClassRejected(isWord, s, i);
  }

  /** Letters outside ASCII are accepted once the table counts them, as the
      Unicode table of `re` does for Cyrillic. */
  lemma CyrillicAccepted(isWord: char -> bool)
    requires isWord('И') && isWord('в') && isWord('а') && isWord('н')
    ensures MatchesUsernamePattern(isWord, "Иван")
  {
  }
}
