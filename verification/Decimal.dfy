/** Decimal printing and reading: `str(n)` for lengths, ports and database
    indexes, and the zero-padded groups of an ISO 8601 timestamp. */
module Decimal {
  import opened Prelude

  predicate IsDigit(c: char) {
    '0' <= c <= '9'
  }

  function DigitValue(c: char): (d: nat)
    requires IsDigit(c)
    ensures d < 10
  {
    (c - '0') as nat
  }

  function DigitChar(d: nat): (c: char)
    requires d < 10
    ensures IsDigit(c) && DigitValue(c) == d
  {
    '0' + d as char
  }

  predicate AllDigits(s: string) {
    forall i | 0 <= i < |s| :: IsDigit(s[i])
  }

  /** The number a run of digits denotes. */
  function Value(s: string): nat
    requires AllDigits(s)
  {
    if s == "" then 0 else 10 * Value(s[..|s| - 1]) + DigitValue(s[|s| - 1])
  }

  /** `str(n)`. */
  function Print(n: nat): (s: string)
    ensures s != "" && AllDigits(s)
  {
    if n < 10 then [DigitChar(n)] else Print(n / 10) + [DigitChar(n % 10)]
  }

  /** Print is decimal notation: the usual ten digits, the last one behind the rest. */
  lemma PrintIsDecimal(n: nat, d: nat)
    requires d < 10
    ensures Print(d) == ["0123456789"[d]]
    ensures n > 0 ==> Print(10 * n + d) == Print(n) + ["0123456789"[d]]
  {
    assert "0123456789"[d] == DigitChar(d);
  }

  lemma DigitsFree(n: nat, stops: set<char>)
    requires forall c | c in stops :: !IsDigit(c)
    ensures Free(Print(n), stops)
  {
    forall i | 0 <= i < |Print(n)| ensures Print(n)[i] !in stops {
      assert IsDigit(Print(n)[i]);
    }
  }

  /** Reads exactly what `Print` writes: a digit run without superfluous zeros. */
  function Read(s: string): Option<nat> {
    if s != "" && AllDigits(s) && Print(Value(s)) == s then Some(Value(s)) else None
  }

  lemma {:induction false} ValueOfPrint(n: nat)
    ensures Value(Print(n)) == n
  {
    if n < 10 {
    } else {
      ValueOfPrint(n / 10);
      assert Print(n)[..|Print(n)| - 1] == Print(n / 10);
    }
  }

  /** Reading undoes printing, for every natural number. */
  lemma ReadPrint(n: nat)
    ensures Read(Print(n)) == Some(n)
  {
    ValueOfPrint(n);
  }

  function Pow10(w: nat): nat {
    if w == 0 then 1 else 10 * Pow10(w - 1)
  }

  /** `n` in exactly `w` digits, padded with zeros on the left. */
  function Pad(n: nat, w: nat): (s: string)
    ensures |s| == w && AllDigits(s)
  {
    if w == 0 then "" else Pad(n / 10, w - 1) + [DigitChar(n % 10)]
  }

  lemma {:induction false} ValueOfPad(n: nat, w: nat)
    requires n < Pow10(w)
    ensures Value(Pad(n, w)) == n
  {
    if w == 0 {
    } else {
      ValueOfPad(n / 10, w - 1);
      assert Pad(n, w)[..w - 1] == Pad(n / 10, w - 1);
    }
  }

  /** The same for padded groups. */
  lemma PadIsDecimal(n: nat, w: nat, d: nat)
    requires d < 10
    ensures Pad(n, 0) == "" && Pad(10 * n + d, w + 1) == Pad(n, w) + ["0123456789"[d]]
  {
    assert "0123456789"[d] == DigitChar(d);
  }
}
