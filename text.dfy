/**
  The two Python built-ins the duration parser leans on: `str.split()` with no
  separator, and `int()` applied to a string in base ten.
 */
module Text {
  import opened Results
  import opened Chars

  /** A word of `str.split()`: non-empty and free of whitespace. */
  predicate IsWord(w: string) {
    w != [] && forall i :: 0 <= i < |w| ==> !IsSpace(w[i])
  }

  /** The leading run of non-whitespace characters of `s`. */
  function Word(s: string): (w: string)
    ensures |w| <= |s| && w == s[..|w|]
    ensures forall i :: 0 <= i < |w| ==> !IsSpace(s[i])
    ensures |w| == |s| || IsSpace(s[|w|])
  {
    if s == [] || IsSpace(s[0]) then [] else [s[0]] + Word(s[1..])
  }

  /** `s.split()`: the maximal runs of non-whitespace characters, in order. */
  function Split(s: string): (r: seq<string>)
    ensures forall i :: 0 <= i < |r| ==> IsWord(r[i])
    decreases |s|
  {
    if s == [] then []
    else if IsSpace(s[0]) then Split(s[1..])
    else
      var w := Word(s);
      [w] + Split(s[|w|..])
  }

  /** `' '.join(words)`. */
  function Join(words: seq<string>): string {
    if words == [] then ""
    else if |words| == 1 then words[0]
    else words[0] + " " + Join(words[1..])
  }

  /** The words run together. */
  function Concat(words: seq<string>): string {
    if words == [] then "" else words[0] + Concat(words[1..])
  }

  /** The text with its whitespace removed. */
  function WithoutSpaces(s: string): string {
    if s == [] then "" else (if IsSpace(s[0]) then "" else [s[0]]) + WithoutSpaces(s[1..])
  }

  lemma {:induction false} WordOfWord(w: string, rest: string)
    requires IsWord(w) && (rest == [] || IsSpace(rest[0]))
    ensures Word(w + rest) == w
    decreases |w|
  {
    if |w| > 1 {
      assert (w + rest)[1..] == w[1..] + rest;
      WordOfWord(w[1..], rest);
    } else {
      assert (w + rest)[1..] == rest;
    }
  }

  lemma WithoutSpacesAppend(a: string, b: string)
    ensures WithoutSpaces(a + b) == WithoutSpaces(a) + WithoutSpaces(b)
  {
    if a != [] {
      assert (a + b)[1..] == a[1..] + b;
    } else {
      assert a + b == b;
    }
  }

  lemma {:induction false} WithoutSpacesOfWord(w: string)
    requires forall i :: 0 <= i < |w| ==> !IsSpace(w[i])
    ensures WithoutSpaces(w) == w
    decreases |w|
  {
    if w != [] {
      WithoutSpacesOfWord(w[1..]);
    }
  }

  /** `str.split()` drops the whitespace and nothing else. */
  lemma {:induction false} SplitKeepsText(s: string)
    ensures Concat(Split(s)) == WithoutSpaces(s)
    decreases |s|
  {
    if s == [] {
    } else if IsSpace(s[0]) {
      SplitKeepsText(s[1..]);
    } else {
      var w := Word(s);
      assert s == w + s[|w|..];
      SplitKeepsText(s[|w|..]);
      WithoutSpacesOfWord(w);
      WithoutSpacesAppend(w, s[|w|..]);
      assert Split(s)[1..] == Split(s[|w|..]);
    }
  }

  /** Joining words with single spaces and splitting again gives the words back. */
  lemma {:induction false} SplitJoin(words: seq<string>)
    requires forall i :: 0 <= i < |words| ==> IsWord(words[i])
    ensures Split(Join(words)) == words
    decreases |words|
  {
    if |words| == 1 {
      WordOfWord(words[0], "");
      assert words[0] + "" == words[0];
      assert Join(words)[|words[0]|..] == [];
    } else if |words| > 1 {
      var w, rest := words[0], " " + Join(words[1..]);
      assert Join(words) == w + rest;
      WordOfWord(w, rest);
      assert (w + rest)[|w|..] == rest;
      assert rest[1..] == Join(words[1..]);
      SplitJoin(words[1..]);
    }
  }

  // ---------------------------------------------------------------------------
  // int(text) in base ten
  // ---------------------------------------------------------------------------

  /**
    The digits part of a base-ten integer: digits, with single underscores allowed
    between two digits.
   */
  predicate WellFormedDigits(s: string) {
    && s != []
    && IsDigit(s[0])
    && IsDigit(s[|s| - 1])
    && (forall i :: 0 <= i < |s| ==> IsDigit(s[i]) || s[i] == '_')
    && (forall i :: 0 <= i < |s| - 1 ==> s[i] == '_' ==> s[i + 1] != '_')
  }

  /** The value of the digits of `s`, underscores ignored. */
  function DigitsValue(s: string): nat
    decreases |s|
  {
    if s == [] then 0
    else
      var v := DigitsValue(s[..|s| - 1]);
      if IsDigit(s[|s| - 1]) then 10 * v + DigitValue(s[|s| - 1]) else v
  }

  /** `int(text)`: an optional sign and well-formed digits; None stands for the ValueError. */
  function ParseInt(text: string): (r: Option<int>)
    ensures r.Some? <==>
              (if text != [] && (text[0] == '+' || text[0] == '-') then WellFormedDigits(text[1..])
               else WellFormedDigits(text))
  {
    if text != [] && (text[0] == '+' || text[0] == '-') then
      if !WellFormedDigits(text[1..]) then None
      else
        var magnitude: int := DigitsValue(text[1..]);
        Some(if text[0] == '-' then -magnitude else magnitude)
    else if WellFormedDigits(text) then Some(DigitsValue(text))
    else None
  }

  /** The decimal digits of `n`, most significant first, without leading zeros. */
  function NatDigits(n: nat): (s: string)
    ensures s != [] && forall i :: 0 <= i < |s| ==> IsDigit(s[i])
  {
    if n < 10 then [DigitChar(n)] else NatDigits(n / 10) + [DigitChar(n % 10)]
  }

  /** `str(n)`. */
  function FormatInt(n: int): string {
    if n < 0 then "-" + NatDigits(-n) else NatDigits(n)
  }

  lemma {:induction false} NatDigitsValue(n: nat)
    ensures DigitsValue(NatDigits(n)) == n
    decreases n
  {
    var s := NatDigits(n);
    if n >= 10 {
      NatDigitsValue(n / 10);
      assert s[..|s| - 1] == NatDigits(n / 10);
    }
  }

  /** `int(str(n)) == n`. */
  lemma ParseFormatInt(n: int)
    ensures ParseInt(FormatInt(n)) == Some(n)
  {
    var d := NatDigits(if n < 0 then -n else n);
    NatDigitsValue(if n < 0 then -n else n);
    assert WellFormedDigits(d);
    if n < 0 {
      assert FormatInt(n)[1..] == d;
    }
  }

  /** A sign and single underscores between digits are accepted. */
  lemma ParsesSignAndUnderscore()
    ensures ParseInt("-1_0") == Some(-10)
  {
    var s := "-1_0";
    assert s[1..] == "1_0";
    assert WellFormedDigits("1_0");
    assert "1_0"[..2] == "1_" && "1_"[..1] == "1";
    assert DigitsValue("1") == 1 && DigitsValue("1_") == 1 && DigitsValue("1_0") == 10;
  }

  /** Underscores only go between two digits, one at a time; a sign needs digits after it. */
  lemma RejectsMisplacedUnderscores()
    ensures ParseInt("1__0") == None
    ensures ParseInt("_1") == None
    ensures ParseInt("1_") == None
    ensures ParseInt("+") == None
    ensures ParseInt("") == None
  {
    assert "1__0"[1] == '_' && "1__0"[2] == '_';
  }
}
