/** bend-lang/t9_combinations.bend: the three forms over a type of digits, with recursion
  only. */
module T9Bend {
  import opened Keypad

  datatype Digit = D2 | D3 | D4 | D5 | D6 | D7 | D8 | D9

  function Letters(d: Digit): seq<string> {
    match d
    case D2 => ["a", "b", "c"]
    case D3 => ["d", "e", "f"]
    case D4 => ["g", "h", "i"]
    case D5 => ["j", "k", "l"]
    case D6 => ["m", "n", "o"]
    case D7 => ["p", "q", "r", "s"]
    case D8 => ["t", "u", "v"]
    case D9 => ["w", "x", "y", "z"]
  }

  function Append(xs: seq<string>, ys: seq<string>): seq<string> {
    if xs == [] then ys else [xs[0]] + Append(xs[1..], ys)
  }

  function MapPrepend(p: string, xs: seq<string>): seq<string> {
    if xs == [] then [] else [p + xs[0]] + MapPrepend(p, xs[1..])
  }

  function CombineMany(prefixes: seq<string>, suffixes: seq<string>): seq<string> {
    if prefixes == [] then []
    else Append(MapPrepend(prefixes[0], suffixes), CombineMany(prefixes[1..], suffixes))
  }

  function CombRec(digits: seq<Digit>): seq<string> {
    if digits == [] then [""] else CombineMany(Letters(digits[0]), CombRec(digits[1..]))
  }

  function CombinationsRec(digits: seq<Digit>): seq<string> {
    if digits == [] then [] else CombineMany(Letters(digits[0]), CombRec(digits[1..]))
  }

  function BtAux(digits: seq<Digit>, path: string): seq<string>
    decreases |digits|, 1, 0
  {
    if digits == [] then [path] else ExpandLetters(Letters(digits[0]), digits[1..], path)
  }

  function ExpandLetters(ls: seq<string>, remaining: seq<Digit>, path: string): seq<string>
    decreases |remaining| + 1, 0, |ls|
  {
    if ls == [] then []
    else
      var rest := BtAux(remaining, path + ls[0]);
      Append(rest, ExpandLetters(ls[1..], remaining, path))
  }

  function CombinationsBacktrack(digits: seq<Digit>): seq<string> {
    BtAux(digits, "")
  }

  function CombinationsCps<R>(digits: seq<Digit>, cont: seq<string> -> R): R {
    if digits == [] then cont([""])
    else CombinationsCps(digits[1..], (suffixes: seq<string>) => CombineCps(Letters(digits[0]), suffixes, cont))
  }

  function CombineCps<R>(prefixes: seq<string>, suffixes: seq<string>, cont: seq<string> -> R): R {
    if prefixes == [] then cont([])
    else CombineCps(prefixes[1..], suffixes,
                    (rest: seq<string>) => cont(Append(MapPrepend(prefixes[0], suffixes), rest)))
  }

  // ------------------------------------------------------------- all are the same

  /** The characters on the keypad of the other implementations. */
  function Dialled(digits: seq<Digit>): (s: string)
    ensures Dialable(s) && |s| == |digits|
  {
    if digits == [] then "" else [Key(digits[0])] + Dialled(digits[1..])
  }

  function Key(d: Digit): (c: char)
    ensures c in KEY_MAP
  {
    match d
    case D2 => '2'
    case D3 => '3'
    case D4 => '4'
    case D5 => '5'
    case D6 => '6'
    case D7 => '7'
    case D8 => '8'
    case D9 => '9'
  }

  function Singletons(letters: string): seq<string> {
    seq(|letters|, i requires 0 <= i < |letters| => [letters[i]])
  }

  lemma LettersAreKeys(d: Digit)
    ensures Letters(d) == Singletons(KEY_MAP[Key(d)])
  {
    match d
    case D2 => assert KEY_MAP['2'] == "abc";
    case D3 => assert KEY_MAP['3'] == "def";
    case D4 => assert KEY_MAP['4'] == "ghi";
    case D5 => assert KEY_MAP['5'] == "jkl";
    case D6 => assert KEY_MAP['6'] == "mno";
    case D7 => assert KEY_MAP['7'] == "pqrs";
    case D8 => assert KEY_MAP['8'] == "tuv";
    case D9 => assert KEY_MAP['9'] == "wxyz";
  }

  lemma {:induction false} AppendIsConcatenation(xs: seq<string>, ys: seq<string>)
    ensures Append(xs, ys) == xs + ys
  {
    if xs == [] {
      assert [] + ys == ys;
    } else {
      AppendIsConcatenation(xs[1..], ys);
      assert xs + ys == [xs[0]] + (xs[1..] + ys);
    }
  }

  lemma {:induction false} MapPrependIsPrefixed(p: string, xs: seq<string>)
    ensures MapPrepend(p, xs) == Prefixed(p, xs)
  {
    if xs != [] {
      MapPrependIsPrefixed(p, xs[1..]);
      assert Prefixed(p, xs) == [p + xs[0]] + Prefixed(p, xs[1..]);
    }
  }

  lemma {:induction false} CombineManyIsExpand(letters: string, words: seq<string>)
    ensures CombineMany(Singletons(letters), words) == Expand(letters, words)
  {
    if letters != "" {
      CombineManyIsExpand(letters[1..], words);
      assert Singletons(letters)[1..] == Singletons(letters[1..]);
      MapPrependIsPrefixed([letters[0]], words);
      AppendIsConcatenation(Prefixed([letters[0]], words), Expand(letters[1..], words));
    }
  }

  /** Words, by the first digit. */
  lemma FirstDigit(digits: seq<Digit>)
    requires digits != []
    ensures Words(Dialled(digits)) == Expand(KEY_MAP[Key(digits[0])], Words(Dialled(digits[1..])))
  {
    assert Dialled(digits)[0] == Key(digits[0]) && Dialled(digits)[1..] == Dialled(digits[1..]);
  }

  lemma {:induction false} CombRecIsWords(digits: seq<Digit>)
    ensures CombRec(digits) == Words(Dialled(digits))
  {
    if digits != [] {
      CombRecIsWords(digits[1..]);
      LettersAreKeys(digits[0]);
      CombineManyIsExpand(KEY_MAP[Key(digits[0])], Words(Dialled(digits[1..])));
      FirstDigit(digits);
    }
  }

  lemma {:induction false} BtAuxIsWords(digits: seq<Digit>, path: string)
    ensures BtAux(digits, path) == Prefixed(path, Words(Dialled(digits)))
    decreases |digits|, 1, 0
  {
    if digits == [] {
      assert path + "" == path;
    } else {
      hide Words, Expand;
      LettersAreKeys(digits[0]);
      ExpandLettersIsExpand(KEY_MAP[Key(digits[0])], digits[1..], path);
      FirstDigit(digits);
    }
  }

  lemma {:induction false} ExpandLettersIsExpand(letters: string, remaining: seq<Digit>, path: string)
    ensures ExpandLetters(Singletons(letters), remaining, path)
         == Prefixed(path, Expand(letters, Words(Dialled(remaining))))
    decreases |remaining| + 1, 0, |letters|
  {
    if letters != "" {
      var words := Words(Dialled(remaining));
      hide Words;
      BtAuxIsWords(remaining, path + [letters[0]]);
      ExpandLettersIsExpand(letters[1..], remaining, path);
      assert Singletons(letters)[1..] == Singletons(letters[1..]);
      AppendIsConcatenation(Prefixed(path + [letters[0]], words), Prefixed(path, Expand(letters[1..], words)));
      PrefixedTwice(path, letters[0], words);
      PrefixedAppend(path, Prefixed([letters[0]], words), Expand(letters[1..], words));
    }
  }

  lemma {:induction false} CombineCpsIsDirect<R>(prefixes: seq<string>, suffixes: seq<string>, cont: seq<string> -> R)
    ensures CombineCps(prefixes, suffixes, cont) == cont(CombineMany(prefixes, suffixes))
  {
    if prefixes != [] {
      CombineCpsIsDirect(prefixes[1..], suffixes,
                         (rest: seq<string>) => cont(Append(MapPrepend(prefixes[0], suffixes), rest)));
    }
  }

  lemma {:induction false} CpsIsDirect<R>(digits: seq<Digit>, cont: seq<string> -> R)
    ensures CombinationsCps(digits, cont) == cont(CombRec(digits))
  {
    if digits != [] {
      CpsIsDirect(digits[1..], (suffixes: seq<string>) => CombineCps(Letters(digits[0]), suffixes, cont));
      CombineCpsIsDirect(Letters(digits[0]), CombRec(digits[1..]), cont);
    }
  }

  /** Backtracking and continuation passing give the words of the digits, for every
      continuation; the recursive form gives them if and only if there is a digit. */
  lemma AllFormsAgree<R>(digits: seq<Digit>, cont: seq<string> -> R)
    ensures CombinationsBacktrack(digits) == Words(Dialled(digits))
    ensures CombinationsCps(digits, cont) == cont(Words(Dialled(digits)))
    ensures CombinationsRec(digits) == Words(Dialled(digits)) <==> digits != []
    ensures CombinationsRec(digits) == if digits == [] then [] else Words(Dialled(digits))
  {
    CombRecIsWords(digits);
    CpsIsDirect(digits, cont);
    BtAuxIsWords(digits, "");
    PrefixedByNothing(Words(Dialled(digits)));
    assert digits == [] ==> Words(Dialled(digits)) == [""];
  }
}
