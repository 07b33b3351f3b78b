/**
 * Short-code generation (`gen_code` in app.py). The cryptographic random
 * source is replaced by the sequence of picks it made: each pick is an index
 * into the 62-character alphabet, which is what `secrets.choice(alphabet)`
 * selects.
 */
module Codes {

  const Upper: string := "ABCDEFGHIJKLMNOPQRSTUVWXYZ"
  const Lower: string := "abcdefghijklmnopqrstuvwxyz"
  const Digits: string := "0123456789"

  /** The alphabet of `gen_code`, in the order the source lists it. */
  const Alphabet: string := "ABCDEFGHIJKLMNOPQRSTUVWXYZabcdefghijklmnopqrstuvwxyz0123456789"

  /** One pick of `secrets.choice(alphabet)`. */
  type Pick = i: int | 0 <= i < 62

  /** A character of `A-Z`, `a-z` or `0-9`. */
  predicate IsAlnum(ch: char) {
    'A' <= ch <= 'Z' || 'a' <= ch <= 'z' || '0' <= ch <= '9'
  }

  /** Number of characters `gen_code(n)` produces: `range(n)` is empty when
      `n` is zero or negative. */
  function Width(n: int): (w: nat)
    ensures n > 0 ==> w == n
    ensures n <= 0 ==> w == 0
  {
    if n < 0 then 0 else n
  }

  /** `c` has the shape of a code of `gen_code(n)`. */
  predicate IsCode(c: string, n: int) {
    |c| == Width(n) && forall i :: 0 <= i < |c| ==> IsAlnum(c[i])
  }

  lemma AlphabetParts()
    ensures Alphabet == Upper + Lower + Digits
  {
  }

  lemma UpperIsAlnum(ch: char)
    ensures ch in Upper <==> 'A' <= ch <= 'Z'
  {
  }

  lemma LowerIsAlnum(ch: char)
    ensures ch in Lower <==> 'a' <= ch <= 'z'
  {
  }

  lemma DigitsIsAlnum(ch: char)
    ensures ch in Digits <==> '0' <= ch <= '9'
  {
  }

  /** The alphabet holds exactly the characters `A-Z`, `a-z` and `0-9`. */
  lemma AlphabetIsAlnum(ch: char)
    ensures ch in Alphabet <==> IsAlnum(ch)
  {
    AlphabetParts();
    UpperIsAlnum(ch);
    LowerIsAlnum(ch);
    DigitsIsAlnum(ch);
  }

  /** Every pick lands on a character of `A-Z`, `a-z` or `0-9`. */
  lemma AlphabetAllAlnum()
    ensures forall i :: 0 <= i < |Alphabet| ==> IsAlnum(Alphabet[i])
  {
    forall i | 0 <= i < |Alphabet|
      ensures IsAlnum(Alphabet[i])
    {
      AlphabetIsAlnum(Alphabet[i]);
    }
  }

  /** `gen_code(n)`, given the picks it made: exactly `n` characters, each in
      `A-Z`, `a-z` or `0-9`, the i-th being the alphabet character picked
      i-th. */
  function GenCode(n: int, picks: seq<Pick>): (c: string)
    requires |picks| == Width(n)
    ensures IsCode(c, n)
  {
    AlphabetAllAlnum();
    seq(|picks|, i requires 0 <= i < |picks| => Alphabet[picks[i]])
  }

  /** Position of `ch` in the alphabet. */
  function IndexIn(s: string, ch: char): (i: nat)
    requires ch in s
    ensures i < |s| && s[i] == ch
  {
    if s[0] == ch then 0 else 1 + IndexIn(s[1..], ch)
  }

  /** The picks that make `gen_code` produce `c`. */
  function PicksOf(c: string): (p: seq<Pick>)
    requires forall i :: 0 <= i < |c| ==> IsAlnum(c[i])
    ensures |p| == |c|
  {
    seq(|c|, i requires 0 <= i < |c| =>
      AlphabetIsAlnum(c[i]);
      IndexIn(Alphabet, c[i]))
  }

  /** Every string of `n` alphanumeric characters is a possible output of
      `gen_code(n)`: the codes `IsCode` describes are exactly those. */
  lemma GenCodeOnto(n: int, c: string)
    requires IsCode(c, n)
    ensures GenCode(n, PicksOf(c)) == c
  {
    var p := PicksOf(c);
    forall i | 0 <= i < |c|
      ensures GenCode(n, p)[i] == c[i]
    {
      AlphabetIsAlnum(c[i]);
    }
  }
}
