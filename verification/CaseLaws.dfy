/** Names compared in any ASCII case, letter by letter. */
module CaseLaws {
  import opened Text

  /** The letter in either case; any other character as it is. */
  predicate SameLetter(c: char, lower: char) {
    c == lower || ('a' <= lower <= 'z' && c as int == lower as int - 32)
  }

  predicate IsLower(s: string) {
    forall k :: 0 <= k < |s| ==> !('A' <= s[k] <= 'Z')
  }

  predicate SameWord(s: string, word: string) {
    |s| == |word| && forall k :: 0 <= k < |s| ==> SameLetter(s[k], word[k])
  }

  predicate WordAt(s: string, i: int, word: string) {
    0 <= i <= |s| - |word| && SameWord(s[i..i + |word|], word)
  }

  ghost predicate HoldsWord(s: string, word: string) {
    exists i :: WordAt(s, i, word)
  }

  lemma LowerIsSameWord(s: string, word: string)
    requires IsLower(word)
    ensures Lower(s) == word <==> SameWord(s, word)
  {
    if SameWord(s, word) {
      assert forall k :: 0 <= k < |s| ==> Lower(s)[k] == word[k];
    }
    if Lower(s) == word {
      forall k | 0 <= k < |s| ensures SameLetter(s[k], word[k]) {
        assert Lower(s)[k] == LowerChar(s[k]);
      }
    }
  }

  lemma LowerOfPart(s: string, i: nat, j: nat)
    requires i <= j <= |s|
    ensures Lower(s)[i..j] == Lower(s[i..j])
  {
  }

  predicate OccursAt(s: string, i: int, needle: string) {
    0 <= i <= |s| - |needle| && s[i..i + |needle|] == needle
  }

  lemma {:induction false} ContainsAt(s: string, needle: string)
    ensures Contains(s, needle) <==> exists i :: OccursAt(s, i, needle)
  {
    if needle <= s {
      assert OccursAt(s, 0, needle);
    } else if s != "" {
      ContainsAt(s[1..], needle);
      forall i | i > 0 ensures OccursAt(s, i, needle) <==> OccursAt(s[1..], i - 1, needle) {
        SliceBehind(s, i, |needle|);
      }
      assert !OccursAt(s, 0, needle);
      if i :| OccursAt(s[1..], i, needle) {
        assert OccursAt(s, i + 1, needle);
      }
    }
  }

  lemma SliceBehind(s: string, i: int, n: nat)
    requires s != "" && i > 0
    ensures i + n <= |s| ==> s[i..i + n] == s[1..][i - 1..i - 1 + n]
  {
  }

  /** The test the code makes on the lower-cased name. */
  lemma LowerContainsIff(s: string, word: string)
    requires IsLower(word)
    ensures Contains(Lower(s), word) <==> HoldsWord(s, word)
  {
    ContainsAt(Lower(s), word);
    forall i ensures OccursAt(Lower(s), i, word) <==> WordAt(s, i, word) {
      if 0 <= i <= |s| - |word| {
        LowerOfPart(s, i, i + |word|);
        LowerIsSameWord(s[i..i + |word|], word);
      }
    }
  }
}
