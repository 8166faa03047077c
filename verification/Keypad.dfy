/** The T9 keypad and the words that a string of digits stands for. */
module Keypad {
  const KEY_MAP: map<char, string> := map[
    '2' := "abc", '3' := "def", '4' := "ghi", '5' := "jkl",
    '6' := "mno", '7' := "pqrs", '8' := "tuv", '9' := "wxyz"]

  lemma Keys()
    ensures forall d :: d in KEY_MAP <==> '2' <= d <= '9'
    ensures KEY_MAP['2'] == "abc" && KEY_MAP['3'] == "def" && KEY_MAP['4'] == "ghi" && KEY_MAP['5'] == "jkl"
    ensures KEY_MAP['6'] == "mno" && KEY_MAP['7'] == "pqrs" && KEY_MAP['8'] == "tuv" && KEY_MAP['9'] == "wxyz"
  {
  }

  /** The keys are 2 to 9, and their letters one after the other are the alphabet, four on 7 and
      on 9 and three on each of the others. */
  lemma KeysAreTheAlphabet()
    ensures forall d :: d in KEY_MAP <==> '2' <= d <= '9'
    ensures KEY_MAP['2'] + KEY_MAP['3'] + KEY_MAP['4'] + KEY_MAP['5'] + KEY_MAP['6'] + KEY_MAP['7'] + KEY_MAP['8'] + KEY_MAP['9']
         == "abcdefghijklmnopqrstuvwxyz"
    ensures forall d :: d in KEY_MAP ==> |KEY_MAP[d]| == if d == '7' || d == '9' then 4 else 3
  {
    hide KEY_MAP;
    Keys();
  }

  predicate Dialable(digits: string) {
    forall d :: d in digits ==> d in KEY_MAP
  }

  function Prefixed(prefix: string, words: seq<string>): (r: seq<string>)
    ensures |r| == |words| && forall i :: 0 <= i < |r| ==> r[i] == prefix + words[i]
  {
    seq(|words|, i requires 0 <= i < |words| => prefix + words[i])
  }

  /** Each letter in front of each word, the words of one letter after the other. */
  function Expand(letters: string, words: seq<string>): seq<string> {
    if letters == "" then [] else Prefixed([letters[0]], words) + Expand(letters[1..], words)
  }

  function Words(digits: string): seq<string>
    requires Dialable(digits)
  {
    if digits == "" then [""]
    else assert digits[0] in digits; Expand(KEY_MAP[digits[0]], Words(digits[1..]))
  }

  // ------------------------------------------------------------------ which words

  predicate Spells(word: string, digits: string)
    requires Dialable(digits)
  {
    |word| == |digits| && forall i :: 0 <= i < |word| ==> assert digits[i] in digits; word[i] in KEY_MAP[digits[i]]
  }

  lemma {:induction false} InExpand(letters: string, words: seq<string>, word: string)
    ensures word in Expand(letters, words) <==> word != "" && word[0] in letters && word[1..] in words
  {
    if letters != "" {
      InExpand(letters[1..], words, word);
      var first := Prefixed([letters[0]], words);
      assert letters == [letters[0]] + letters[1..];
      if word in first {
        var i :| 0 <= i < |first| && first[i] == word;
        assert word[1..] == words[i];
      }
      if word != "" && word[0] == letters[0] && word[1..] in words {
        var i :| 0 <= i < |words| && words[i] == word[1..];
        assert first[i] == word;
      }
    }
  }

  /** The words are exactly the strings with one letter of each key, in order. */
  lemma {:induction false} WordsAreSpellings(digits: string, word: string)
    requires Dialable(digits)
    ensures word in Words(digits) <==> Spells(word, digits)
  {
    if digits != "" {
      assert digits[0] in digits;
      InExpand(KEY_MAP[digits[0]], Words(digits[1..]), word);
      if word != "" {
        WordsAreSpellings(digits[1..], word[1..]);
        assert forall i :: 0 <= i < |digits[1..]| ==> digits[1..][i] == digits[i + 1];
        if Spells(word[1..], digits[1..]) && word[0] in KEY_MAP[digits[0]] {
          forall i | 0 <= i < |word|
            ensures digits[i] in digits && word[i] in KEY_MAP[digits[i]]
          {
            assert digits[i] in digits;
            if i > 0 { assert word[1..][i - 1] == word[i]; }
          }
        }
        if Spells(word, digits) {
          forall i | 0 <= i < |word[1..]|
            ensures digits[1..][i] in digits[1..] && word[1..][i] in KEY_MAP[digits[1..][i]]
          {
            assert word[1..][i] == word[i + 1] && digits[i + 1] in digits;
          }
        }
      }
    }
  }

  // ------------------------------------------------------------------- how many

  /** The product of the numbers of letters on the keys. */
  function Choices(digits: string): nat
    requires Dialable(digits)
  {
    if digits == "" then 1 else assert digits[0] in digits; |KEY_MAP[digits[0]]| * Choices(digits[1..])
  }

  lemma {:induction false} ExpandLength(letters: string, words: seq<string>)
    ensures |Expand(letters, words)| == |letters| * |words|
  {
    if letters != "" {
      ExpandLength(letters[1..], words);
      assert |letters| * |words| == |words| + (|letters| - 1) * |words|;
    }
  }

  lemma {:induction false} WordCount(digits: string)
    requires Dialable(digits)
    ensures |Words(digits)| == Choices(digits)
  {
    if digits != "" {
      assert digits[0] in digits;
      ExpandLength(KEY_MAP[digits[0]], Words(digits[1..]));
      WordCount(digits[1..]);
    }
  }

  // -------------------------------------------------------------- in which order

  /** Lexicographic order, as on Python's strings. */
  predicate Less(a: string, b: string) {
    b != "" && (a == "" || a[0] < b[0] || (a[0] == b[0] && Less(a[1..], b[1..])))
  }

  predicate Increasing(words: seq<string>) {
    forall i, j :: 0 <= i < j < |words| ==> Less(words[i], words[j])
  }

  predicate IncreasingLetters(letters: string) {
    forall i, j :: 0 <= i < j < |letters| ==> letters[i] < letters[j]
  }

  lemma KeysAreIncreasing(d: char)
    requires d in KEY_MAP
    ensures IncreasingLetters(KEY_MAP[d]) && KEY_MAP[d] != ""
  {
    hide KEY_MAP;
    Keys();
  }

  lemma {:induction false} ExpandIsIncreasing(letters: string, words: seq<string>)
    requires IncreasingLetters(letters) && Increasing(words)
    ensures Increasing(Expand(letters, words))
  {
    if letters != "" {
      var first, rest := Prefixed([letters[0]], words), Expand(letters[1..], words);
      ExpandIsIncreasing(letters[1..], words);
      forall i, j | 0 <= i < j < |first + rest|
        ensures Less((first + rest)[i], (first + rest)[j])
      {
        if j < |first| {
          assert first[i][1..] == words[i] && first[j][1..] == words[j];
        } else if i < |first| {
          InExpand(letters[1..], words, rest[j - |first|]);
          assert first[i][0] == letters[0];
        } else {
          assert Less(rest[i - |first|], rest[j - |first|]);
        }
      }
    }
  }

  lemma {:induction false} WordsAreIncreasing(digits: string)
    requires Dialable(digits)
    ensures Increasing(Words(digits))
  {
    if digits != "" {
      assert digits[0] in digits;
      WordsAreIncreasing(digits[1..]);
      KeysAreIncreasing(digits[0]);
      ExpandIsIncreasing(KEY_MAP[digits[0]], Words(digits[1..]));
    }
  }

  // ---------------------------------------------------------- for loops over letters

  lemma {:induction false} ExpandSnoc(letters: string, c: char, words: seq<string>)
    ensures Expand(letters + [c], words) == Expand(letters, words) + Prefixed([c], words)
  {
    if letters == "" {
      assert letters + [c] == [c] && [c][1..] == "";
      assert Expand([c], words) == Prefixed([c], words) + [];
    } else {
      assert (letters + [c])[1..] == letters[1..] + [c];
      ExpandSnoc(letters[1..], c, words);
    }
  }

  lemma PrefixedTwice(prefix: string, c: char, words: seq<string>)
    ensures Prefixed(prefix + [c], words) == Prefixed(prefix, Prefixed([c], words))
  {
    forall i | 0 <= i < |words|
      ensures Prefixed(prefix + [c], words)[i] == Prefixed(prefix, Prefixed([c], words))[i]
    {
      assert prefix + [c] + words[i] == prefix + ([c] + words[i]);
    }
  }

  lemma PrefixedAppend(prefix: string, a: seq<string>, b: seq<string>)
    ensures Prefixed(prefix, a + b) == Prefixed(prefix, a) + Prefixed(prefix, b)
  {
  }

  /** One more turn of a loop over the letters of a key. */
  lemma OneMoreLetter(prefix: string, letters: string, i: nat, words: seq<string>)
    requires i < |letters|
    ensures Prefixed(prefix, Expand(letters[..i + 1], words))
         == Prefixed(prefix, Expand(letters[..i], words)) + Prefixed(prefix + [letters[i]], words)
  {
    assert letters[..i + 1] == letters[..i] + [letters[i]];
    ExpandSnoc(letters[..i], letters[i], words);
    PrefixedAppend(prefix, Expand(letters[..i], words), Prefixed([letters[i]], words));
    PrefixedTwice(prefix, letters[i], words);
  }

  lemma PrefixedByNothing(words: seq<string>)
    ensures Prefixed("", words) == words
  {
    forall i | 0 <= i < |words|
      ensures Prefixed("", words)[i] == words[i]
    {
      assert "" + words[i] == words[i];
    }
  }
}
