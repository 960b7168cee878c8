/** Bytes, the digits sprintf prints, letters, and regrouping of texts. */
module Basics {

  type Byte = x: int | 0 <= x < 256

  const LOWER: string := "0123456789abcdef"
  const UPPER: string := "0123456789ABCDEF"

  function Quotient(n: nat, base: nat): (q: nat)
    requires base == 8 || base == 10 || base == 16
    ensures n >= base ==> q < n
  {
    if base == 8 then n / 8 else if base == 10 then n / 10 else n / 16
  }

  function Digits(n: nat, base: nat, table: string): (r: string)
    requires (base == 8 || base == 10 || base == 16) && |table| == 16
    ensures |r| > 0
  {
    if n < base then [table[n]] else Digits(Quotient(n, base), base, table) + [table[n % base]]
  }

  // ---- Letters ----

  const SMALL: string := "abcdefghijklmnopqrstuvwxyz"
  const CAPITAL: string := "ABCDEFGHIJKLMNOPQRSTUVWXYZ"

  /** The same byte, or the two forms of a letter. */
  ghost predicate SameLetter(a: char, b: char) {
    a == b || exists i :: 0 <= i < 26 && ((a == SMALL[i] && b == CAPITAL[i]) || (a == CAPITAL[i] && b == SMALL[i]))
  }

  ghost predicate SameLetters(s: string, t: string) {
    |s| == |t| && forall i | 0 <= i < |s| :: SameLetter(s[i], t[i])
  }

  lemma LetterAt(i: nat)
    requires i < 26
    ensures SMALL[i] == 'a' + i as char && CAPITAL[i] == 'A' + i as char
  {
  }

  /** Two bytes are the same letter exactly if they differ at most by the distance of the alphabets. */
  lemma LettersApart(a: char, b: char)
    ensures SameLetter(a, b) <==>
            a == b || ('a' <= a <= 'z' && a - 'a' + 'A' == b) || ('a' <= b <= 'z' && b - 'a' + 'A' == a)
  {
    if 'a' <= a <= 'z' { LetterAt((a - 'a') as nat); }
    if 'a' <= b <= 'z' { LetterAt((b - 'a') as nat); }
    if i :| 0 <= i < 26 && ((a == SMALL[i] && b == CAPITAL[i]) || (a == CAPITAL[i] && b == SMALL[i])) { LetterAt(i); }
  }

  lemma Regroup<T>(a: seq<T>, b: seq<T>, c: seq<T>)
    ensures a + (b + c) == a + b + c
  {
  }
}
