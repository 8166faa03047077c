/** python/t9_combinations.py: the five implementations of letter_combinations. */
module T9 {
  import opened Keypad
  import opened Seqs

  /** A result, or the exception raised for a character that is not on the keypad. */
  datatype Outcome<+T> = Ok(value: T) | KeyError {
    predicate IsFailure() {
      KeyError?
    }

    function PropagateFailure<U>(): Outcome<U>
      requires IsFailure()
    {
      KeyError
    }

    function Extract(): T
      requires !IsFailure()
    {
      value
    }
  }

  function Lookup(d: char): Outcome<string> {
    if d in KEY_MAP then Ok(KEY_MAP[d]) else KeyError
  }

  /** What all five return. */
  function Combinations(digits: string): Outcome<seq<string>> {
    if digits == "" then Ok([]) else if Dialable(digits) then Ok(Words(digits)) else KeyError
  }

  /** Nothing for no digits, an exception for a character that is not a digit from 2 to 9, and
      otherwise exactly the words with one letter of each key, in alphabetical order. */
  lemma CombinationsAre(digits: string, word: string)
    ensures digits == "" ==> Combinations(digits) == Ok([])
    ensures Combinations(digits) == KeyError <==> exists d :: d in digits && !('2' <= d <= '9')
    ensures digits != "" && Combinations(digits).Ok? ==>
      (word in Combinations(digits).value <==>
         |word| == |digits| && forall i :: 0 <= i < |digits| ==> digits[i] in KEY_MAP && word[i] in KEY_MAP[digits[i]])
    ensures Combinations(digits).Ok? ==> Increasing(Combinations(digits).value)
  {
    KeysAreTheAlphabet();
    hide Words, KEY_MAP;
    assert Dialable(digits) <==> !exists d :: d in digits && !('2' <= d <= '9');
    if Dialable(digits) {
      WordsAreSpellings(digits, word);
      WordsAreIncreasing(digits);
      assert forall i :: 0 <= i < |digits| ==> digits[i] in digits;
    }
  }

  /** The words of the remaining digits after a prefix. */
  function After(prefix: string, remaining: string): Outcome<seq<string>> {
    if Dialable(remaining) then Ok(Prefixed(prefix, Words(remaining))) else KeyError
  }

  lemma DialableRest(remaining: string)
    requires remaining != ""
    ensures Dialable(remaining) <==> remaining[0] in KEY_MAP && Dialable(remaining[1..])
    ensures Dialable(remaining) ==> Words(remaining) == Expand(KEY_MAP[remaining[0]], Words(remaining[1..]))
    ensures remaining[0] in KEY_MAP ==> KEY_MAP[remaining[0]] != ""
  {
    assert remaining == [remaining[0]] + remaining[1..];
    if remaining[0] in KEY_MAP { KeysAreIncreasing(remaining[0]); }
  }

  /** What a loop over the letters of a key has collected after `i` turns. */
  ghost function SoFar(prefix: string, letters: string, i: nat, rest: string): seq<string>
    requires i <= |letters| && (i > 0 ==> Dialable(rest))
  {
    if i == 0 then [] else Prefixed(prefix, Expand(letters[..i], Words(rest)))
  }

  lemma NoTurns(prefix: string, letters: string, rest: string)
    ensures SoFar(prefix, letters, 0, rest) == []
  {
  }

  lemma NextTurn(prefix: string, letters: string, i: nat, rest: string, before: seq<string>)
    requires i < |letters| && Dialable(rest)
    ensures SoFar(prefix, letters, i, rest) + Prefixed(prefix + [letters[i]], Words(rest))
         == SoFar(prefix, letters, i + 1, rest)
    ensures before + SoFar(prefix, letters, i, rest) + Prefixed(prefix + [letters[i]], Words(rest))
         == before + SoFar(prefix, letters, i + 1, rest)
  {
    SoFarIs(prefix, letters, i, rest);
    SoFarIs(prefix, letters, i + 1, rest);
    hide Expand, Words, SoFar;
    OneMoreLetter(prefix, letters, i, Words(rest));
    Associate(before, SoFar(prefix, letters, i, rest), Prefixed(prefix + [letters[i]], Words(rest)));
  }

  lemma SoFarIs(prefix: string, letters: string, i: nat, rest: string)
    requires i <= |letters| && Dialable(rest)
    ensures SoFar(prefix, letters, i, rest) == Prefixed(prefix, Expand(letters[..i], Words(rest)))
  {
  }

  lemma LoopIsAfter(prefix: string, remaining: string)
    requires remaining != "" && remaining[0] in KEY_MAP && Dialable(remaining[1..])
    ensures Dialable(remaining)
    ensures var letters := KEY_MAP[remaining[0]];
            letters != "" && SoFar(prefix, letters, |letters|, remaining[1..]) == Prefixed(prefix, Words(remaining))
  {
    DialableRest(remaining);
    var letters := KEY_MAP[remaining[0]];
    assert letters[..|letters|] == letters;
  }

  lemma NoMoreDigits(prefix: string)
    ensures Dialable("") && Prefixed(prefix, Words("")) == [prefix]
  {
    assert prefix + "" == prefix;
  }

  lemma FromNothing(digits: string)
    requires digits != ""
    ensures After("", digits) == Combinations(digits)
    ensures Dialable(digits) ==> [] + Prefixed("", Words(digits)) == Words(digits)
  {
    if Dialable(digits) { PrefixedByNothing(Words(digits)); }
  }

  // ---------------------------------------------------------------- 1. recursive

  method Combine(prefix: string, remaining: string) returns (r: Outcome<seq<string>>)
    ensures r == After(prefix, remaining)
    decreases |remaining|
  {
    hide Dialable, Words, Expand, SoFar;
    if remaining == "" {
      NoMoreDigits(prefix);
      return Ok([prefix]);
    }
    DialableRest(remaining);
    var results := [];
    var letters :- Lookup(remaining[0]);
    NoTurns(prefix, letters, remaining[1..]);
    for i := 0 to |letters|
      invariant i > 0 ==> Dialable(remaining[1..])
      invariant results == SoFar(prefix, letters, i, remaining[1..])
    {
      var sub :- Combine(prefix + [letters[i]], remaining[1..]);
      NextTurn(prefix, letters, i, remaining[1..], []);
      results := results + sub;
    }
    LoopIsAfter(prefix, remaining);
    return Ok(results);
  }

  method LetterCombinationsRecursive(digits: string) returns (r: Outcome<seq<string>>)
    ensures r == Combinations(digits)
  {
    if digits == "" { return Ok([]); }
    FromNothing(digits);
    r := Combine("", digits);
  }

  // -------------------------------------------------------------- 2. backtracking

  /** The lists that `backtrack` captures. */
  class Backtracker {
    const digits: string
    var path: string
    var results: seq<string>

    constructor (digits: string)
      ensures this.digits == digits && path == "" && results == []
    {
      this.digits, path, results := digits, "", [];
    }

    /** Adds the words that continue the path, and leaves the path as it was. */
    method Backtrack(idx: nat) returns (r: Outcome<()>)
      requires idx <= |digits|
      modifies this
      ensures r.KeyError? <==> !Dialable(digits[idx..])
      ensures r.Ok? ==> path == old(path) && results == old(results) + Prefixed(path, Words(digits[idx..]))
      decreases |digits| - idx
    {
      hide Dialable, Words, Expand, SoFar;
      if idx == |digits| {
        assert digits[idx..] == "";
        NoMoreDigits(path);
        results := results + [path];
        return Ok(());
      }
      ghost var rest := digits[idx..][1..];
      assert digits[idx + 1..] == rest;
      DialableRest(digits[idx..]);
      var letters :- Lookup(digits[idx]);
      NoTurns(path, letters, rest);
      for i := 0 to |letters|
        invariant path == old(path) && (i > 0 ==> Dialable(rest))
        invariant results == old(results) + SoFar(path, letters, i, rest)
      {
        path := path + [letters[i]];
        var _ :- Backtrack(idx + 1);
        path := path[..|path| - 1];
        NextTurn(path, letters, i, rest, old(results));
      }
      LoopIsAfter(path, digits[idx..]);
      return Ok(());
    }
  }

  method LetterCombinationsBacktrack(digits: string) returns (r: Outcome<seq<string>>)
    ensures r == Combinations(digits)
  {
    if digits == "" { return Ok([]); }
    FromNothing(digits);
    var b := new Backtracker(digits);
    assert digits[0..] == digits;
    var _ :- b.Backtrack(0);
    return Ok(b.results);
  }

  // ----------------------------------------------------------------- 3. generator

  /** All that the generator yields, unless it raises KeyError. */
  function Gen(prefix: string, remaining: string): Outcome<seq<string>>
    decreases |remaining|, 1, 0
  {
    if remaining == "" then Ok([prefix])
    else
      var letters :- Lookup(remaining[0]);
      GenLetters(prefix, letters, remaining[1..])
  }

  /** The `for` loop of the generator. */
  function GenLetters(prefix: string, letters: string, rest: string): Outcome<seq<string>>
    decreases |rest| + 1, 0, |letters|
  {
    if letters == "" then Ok([])
    else
      var first :- Gen(prefix + [letters[0]], rest);
      var others :- GenLetters(prefix, letters[1..], rest);
      Ok(first + others)
  }

  lemma {:induction false} GenIsWords(prefix: string, remaining: string)
    ensures Gen(prefix, remaining) == After(prefix, remaining)
    decreases |remaining|, 1, 0
  {
    if remaining == "" {
      NoMoreDigits(prefix);
    } else {
      DialableRest(remaining);
      if remaining[0] in KEY_MAP {
        GenLettersIsWords(prefix, KEY_MAP[remaining[0]], remaining[1..]);
      }
    }
  }

  lemma {:induction false} GenLettersIsWords(prefix: string, letters: string, rest: string)
    ensures GenLetters(prefix, letters, rest) ==
      if letters == "" then Ok([])
      else if Dialable(rest) then Ok(Prefixed(prefix, Expand(letters, Words(rest)))) else KeyError
    decreases |rest| + 1, 0, |letters|
  {
    if letters != "" {
      GenIsWords(prefix + [letters[0]], rest);
      GenLettersIsWords(prefix, letters[1..], rest);
      if Dialable(rest) {
        PrefixedTwice(prefix, letters[0], Words(rest));
        PrefixedAppend(prefix, Prefixed([letters[0]], Words(rest)), Expand(letters[1..], Words(rest)));
        assert letters[1..] == "" ==> Expand(letters[1..], Words(rest)) == [];
      }
    }
  }

  method LetterCombinationsGenerator(digits: string) returns (r: Outcome<seq<string>>)
    ensures r == Combinations(digits)
  {
    if digits == "" { return Ok([]); }
    FromNothing(digits);
    GenIsWords("", digits);
    r := Gen("", digits);
  }

  // ----------------------------------------------- 4. continuation-passing style

  /** A list that a closure appends to. */
  class ListCell {
    var items: seq<string>

    constructor ()
      ensures items == []
    {
      items := [];
    }

    /** The continuation: lambda combs: items.extend(combs) */
    method Extend(combs: seq<string>)
      modifies this
      ensures items == old(items) + combs
    {
      items := items + combs;
    }
  }

  /** cps with the continuation that extends `cont`. */
  method Cps(prefix: string, remaining: string, cont: ListCell) returns (r: Outcome<()>)
    modifies cont
    ensures r.KeyError? <==> !Dialable(remaining)
    ensures cont.items == old(cont.items) + if r.Ok? then Prefixed(prefix, Words(remaining)) else []
    decreases |remaining|
  {
    hide Dialable, Words, Expand, SoFar;
    if remaining == "" {
      NoMoreDigits(prefix);
      cont.Extend([prefix]);
      return Ok(());
    }
    DialableRest(remaining);
    var allResults := new ListCell();
    var letters :- Lookup(remaining[0]);
    NoTurns(prefix, letters, remaining[1..]);
    for i := 0 to |letters|
      invariant i > 0 ==> Dialable(remaining[1..])
      invariant cont.items == old(cont.items)
      invariant allResults.items == SoFar(prefix, letters, i, remaining[1..])
    {
      var _ :- Cps(prefix + [letters[i]], remaining[1..], allResults);
      NextTurn(prefix, letters, i, remaining[1..], []);
    }
    LoopIsAfter(prefix, remaining);
    cont.Extend(allResults.items);
    return Ok(());
  }

  method LetterCombinationsCps(digits: string) returns (r: Outcome<seq<string>>)
    ensures r == Combinations(digits)
  {
    if digits == "" { return Ok([]); }
    FromNothing(digits);
    var results := new ListCell();
    var _ :- Cps("", digits, results);
    return Ok(results.items);
  }

  // --------------------------------------------------- 5. a chain of continuations

  /** The closures of letter_combinations_cps_chain: final_cont and level_cont. */
  datatype Chain = FinalCont | LevelCont(d: char, next: Chain)

  function Dialled(cont: Chain): string {
    match cont
    case FinalCont => ""
    case LevelCont(d, next) => [d] + Dialled(next)
  }

  /** Calling a continuation; final_cont appends to `results`. */
  method Invoke(cont: Chain, prefix: string, results: ListCell) returns (r: Outcome<()>)
    modifies results
    ensures r.KeyError? <==> !Dialable(Dialled(cont))
    ensures r.Ok? ==> results.items == old(results.items) + Prefixed(prefix, Words(Dialled(cont)))
    decreases cont
  {
    hide Dialable, Words, Expand, SoFar;
    match cont
    case FinalCont =>
      NoMoreDigits(prefix);
      results.Extend([prefix]);
      return Ok(());
    case LevelCont(d, next) =>
      ghost var rest := Dialled(next);
      assert Dialled(cont)[1..] == rest;
      DialableRest(Dialled(cont));
      var letters :- Lookup(d);
      NoTurns(prefix, letters, rest);
      for i := 0 to |letters|
        invariant i > 0 ==> Dialable(rest)
        invariant results.items == old(results.items) + SoFar(prefix, letters, i, rest)
      {
        var _ :- Invoke(next, prefix + [letters[i]], results);
        NextTurn(prefix, letters, i, rest, old(results.items));
      }
      LoopIsAfter(prefix, Dialled(cont));
      return Ok(());
  }

  method LetterCombinationsCpsChain(digits: string) returns (r: Outcome<seq<string>>)
    ensures r == Combinations(digits)
  {
    if digits == "" { return Ok([]); }
    var results := new ListCell();
    var cont := FinalCont;
    for i := |digits| downto 0
      invariant Dialled(cont) == digits[i..]
    {
      cont := LevelCont(digits[i], cont);
    }
    assert digits[0..] == digits;
    FromNothing(digits);
    var _ :- Invoke(cont, "", results);
    return Ok(results.items);
  }
}
