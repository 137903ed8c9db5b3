/** Hexadecimal digits, as JSON escapes and percent-encoding write and read them. */
module Hexadecimal {
  import opened Prelude

  /** The digit of value `d`, the letters starting from `ten`. */
  function Digit(d: nat, ten: char): char
    requires d < 16 && ten in {'a', 'A'}
  {
    if d < 10 then '0' + d as char else ten + (d - 10) as char
  }

  function Value(c: char): (d: Option<nat>)
    ensures d.Some? ==> d.value < 16
  {
    if '0' <= c <= '9' then Some((c - '0') as nat)
    else if 'a' <= c <= 'f' then Some((c - 'a') as nat + 10)
    else if 'A' <= c <= 'F' then Some((c - 'A') as nat + 10)
    else None
  }

  lemma ValueOfDigit(d: nat, ten: char)
    requires d < 16 && ten in {'a', 'A'}
    ensures Value(Digit(d, ten)) == Some(d)
  {
  }

  /** The sixteen digits of each case, and what either stands for. */
  lemma DigitsAre(d: nat)
    requires d < 16
    ensures Digit(d, 'a') == "0123456789abcdef"[d] && Digit(d, 'A') == "0123456789ABCDEF"[d]
    ensures Value("0123456789abcdef"[d]) == Some(d) && Value("0123456789ABCDEF"[d]) == Some(d)
  {
  }
}
