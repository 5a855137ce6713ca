/** `PalindromeChecker.isPalindrome` of the Gradle example
    (buildsystems/gradle/palindrome_checker): a word is a palindrome when reversing it
    gives the same word. A Java string is taken as its sequence of Unicode scalar values,
    which is what `StringBuilder.reverse` (behind `StringUtils.reverse`) reverses: it keeps
    surrogate pairs together. */
module Palindrome {

  /** `StringUtils.reverse`: the elements in the opposite order. */
  function Reverse<T>(s: seq<T>): (r: seq<T>)
    ensures |r| == |s|
    ensures forall i {:trigger r[i]} :: 0 <= i < |s| ==> r[i] == s[|s| - 1 - i]
  {
    if |s| == 0 then [] else Reverse(s[1..]) + [s[0]]
  }

  /** `isPalindrome(word)`: the reversed word equals the word, which is to say that every
      character equals its mirror image counted from the other end. */
  function IsPalindrome(word: string): (b: bool)
    ensures b <==> forall i {:trigger word[i]} :: 0 <= i < |word| ==> word[i] == word[|word| - 1 - i]
  {
    Reverse(word) == word
  }

  /** Reversing twice gives the input back. */
  lemma ReverseReverse<T>(s: seq<T>)
    ensures Reverse(Reverse(s)) == s
  {
  }

  /** Reversing a concatenation reverses the order of the parts. */
  lemma ReverseConcat<T>(a: seq<T>, b: seq<T>)
    ensures Reverse(a + b) == Reverse(b) + Reverse(a)
  {
  }

  /** A word and its reversal are palindromes together. */
  lemma ReversalKeepsPalindromes(word: string)
    ensures IsPalindrome(Reverse(word)) == IsPalindrome(word)
  {
    ReverseReverse(word);
  }

  /** The recursive description: the empty word and single characters are palindromes,
      and a longer word is one exactly when its ends agree and what lies between them is
      one. */
  lemma PalindromeByEnds(word: string)
    ensures |word| <= 1 ==> IsPalindrome(word)
    ensures |word| >= 2 ==> (IsPalindrome(word) <==> word[0] == word[|word| - 1] && IsPalindrome(word[1..|word| - 1]))
  {
    if |word| >= 2 {
      var inner := word[1..|word| - 1];
      if word[0] == word[|word| - 1] && IsPalindrome(inner) {
        forall i | 0 <= i < |word|
          ensures word[i] == word[|word| - 1 - i]
        {
          if 0 < i < |word| - 1 {
            assert word[i] == inner[i - 1];
            assert word[|word| - 1 - i] == inner[|inner| - 1 - (i - 1)];
          }
        }
      }
      if IsPalindrome(word) {
        forall i | 0 <= i < |inner|
          ensures inner[i] == inner[|inner| - 1 - i]
        {
          assert inner[i] == word[i + 1];
          assert inner[|inner| - 1 - i] == word[|word| - 1 - (i + 1)];
        }
      }
    }
  }

  /** The words of PalindromeCheckerTest: every single character, "abccba" and "010010"
      are palindromes; "abcdef" and "110110001" are not. */
  lemma CheckerExamples()
    ensures forall c: char :: IsPalindrome([c])
    ensures IsPalindrome("abccba") && IsPalindrome("010010")
    ensures !IsPalindrome("abcdef") && !IsPalindrome("110110001")
  {
    assert "abcdef"[0] != "abcdef"[5];
    assert "110110001"[1] != "110110001"[7];
  }
}
