/** UTF-8, as `urllib.parse.quote` applies it before percent-encoding. */
module Utf8 {
  import opened Prelude

  type Byte = b: nat | b < 256

  function EncodeChar(c: char): (bytes: seq<Byte>)
    ensures |bytes| >= 1
  {
    var n := c as nat;
    if n < 0x80 then [n]
    else if n < 0x800 then [0xC0 + n / 64, 0x80 + n % 64]
    else if n < 0x1_0000 then [0xE0 + n / 64 / 64, 0x80 + n / 64 % 64, 0x80 + n % 64]
    else [0xF0 + n / 64 / 64 / 64, 0x80 + n / 64 / 64 % 64, 0x80 + n / 64 % 64, 0x80 + n % 64]
  }

  /** The layout of section 3 of RFC 3629: the number of bytes by code point, the mark
      of the first byte and of the others, and the payloads put together. */
  lemma EncodeCharLayout(c: char)
    ensures var n, b := c as nat, EncodeChar(c);
            && |b| == (if n <= 0x7F then 1 else if n <= 0x7FF then 2 else if n <= 0xFFFF then 3 else 4)
            && (forall i | 1 <= i < |b| :: 0x80 <= b[i] <= 0xBF)
            && n == match |b|
                    case 1 => b[0] as int
                    case 2 => 0x40 * (b[0] as int - 0xC0) + (b[1] as int - 0x80)
                    case 3 => 0x1000 * (b[0] as int - 0xE0) + 0x40 * (b[1] as int - 0x80) + (b[2] as int - 0x80)
                    case _ => 0x4_0000 * (b[0] as int - 0xF0) + 0x1000 * (b[1] as int - 0x80) +
                              0x40 * (b[2] as int - 0x80) + (b[3] as int - 0x80)
  {
    var n := c as nat;
    assert n == n / 64 * 64 + n % 64;
    assert n / 64 == n / 64 / 64 * 64 + n / 64 % 64;
    assert n / 64 / 64 == n / 64 / 64 / 64 * 64 + n / 64 / 64 % 64;
  }

  function Encode(s: string): seq<Byte> {
    if s == "" then [] else EncodeChar(s[0]) + Encode(s[1..])
  }

  function Continuation(b: Byte): Option<nat> {
    if 0x80 <= b < 0xC0 then Some(b - 0x80) else None
  }

  /** A code point, if it is one and its encoding is not overlong. */
  function Scalar(n: nat, least: nat): Option<char> {
    if least <= n && (n < 0xD800 || 0xE000 <= n < 0x11_0000) then Some(n as char) else None
  }

  datatype Reading = Reading(c: char, size: nat)

  function ReadChar(bytes: seq<Byte>): (r: Option<Reading>)
    ensures r.Some? ==> 1 <= r.value.size <= |bytes|
  {
    if bytes == [] then None else
      var b := bytes[0];
      if b < 0x80 then Some(Reading(b as char, 1))
      else if 0xC0 <= b < 0xE0 && |bytes| >= 2 then
        var x :- Continuation(bytes[1]);
        var c :- Scalar((b - 0xC0) * 64 + x, 0x80);
        Some(Reading(c, 2))
      else if 0xE0 <= b < 0xF0 && |bytes| >= 3 then
        var x :- Continuation(bytes[1]);
        var y :- Continuation(bytes[2]);
        var c :- Scalar(((b - 0xE0) * 64 + x) * 64 + y, 0x800);
        Some(Reading(c, 3))
      else if 0xF0 <= b < 0xF8 && |bytes| >= 4 then
        var x :- Continuation(bytes[1]);
        var y :- Continuation(bytes[2]);
        var z :- Continuation(bytes[3]);
        var c :- Scalar((((b - 0xF0) * 64 + x) * 64 + y) * 64 + z, 0x1_0000);
        Some(Reading(c, 4))
      else None
  }

  function Decode(bytes: seq<Byte>): Option<string>
    decreases |bytes|
  {
    if bytes == [] then Some("") else
      var first :- ReadChar(bytes);
      var more :- Decode(bytes[first.size..]);
      Some([first.c] + more)
  }

  /** The continuation bytes of a code point, taken apart and put together. */
  lemma Sextets(n: nat)
    ensures n == n / 64 * 64 + n % 64
    ensures n / 64 == n / 64 / 64 * 64 + n / 64 % 64
    ensures n / 64 / 64 == n / 64 / 64 / 64 * 64 + n / 64 / 64 % 64
  {
  }

  lemma ReadThree(c: char, rest: seq<Byte>)
    requires 0x800 <= c as nat < 0x1_0000
    ensures ReadChar(EncodeChar(c) + rest) == Some(Reading(c, 3))
  {
    var n := c as nat;
    Sextets(n);
    assert Scalar((n / 64 / 64 * 64 + n / 64 % 64) * 64 + n % 64, 0x800) == Some(c);
  }

  lemma ReadFour(c: char, rest: seq<Byte>)
    requires 0x1_0000 <= c as nat
    ensures ReadChar(EncodeChar(c) + rest) == Some(Reading(c, 4))
  {
    var n := c as nat;
    Sextets(n);
    assert Scalar(((n / 64 / 64 / 64 * 64 + n / 64 / 64 % 64) * 64 + n / 64 % 64) * 64 + n % 64, 0x1_0000) == Some(c);
  }

  lemma ReadEncodedChar(c: char, rest: seq<Byte>)
    ensures ReadChar(EncodeChar(c) + rest) == Some(Reading(c, |EncodeChar(c)|))
  {
    if 0x1_0000 <= c as nat {
      ReadFour(c, rest);
    } else if 0x800 <= c as nat {
      ReadThree(c, rest);
    } else {
      Sextets(c as nat);
    }
  }

  /** Every string of Unicode scalar values survives UTF-8. */
  lemma {:induction false} DecodeEncode(s: string)
    ensures Decode(Encode(s)) == Some(s)
  {
    if s == "" {
    } else {
      ReadEncodedChar(s[0], Encode(s[1..]));
      assert (EncodeChar(s[0]) + Encode(s[1..]))[|EncodeChar(s[0])|..] == Encode(s[1..]);
      DecodeEncode(s[1..]);
      assert [s[0]] + s[1..] == s;
    }
  }

  /** The bytes that begin a character. */
  function Leads(bytes: seq<Byte>): nat {
    if bytes == [] then 0 else (if Continuation(bytes[0]).None? then 1 else 0) + Leads(bytes[1..])
  }

  lemma LeadsOfChar(bytes: seq<Byte>)
    requires ReadChar(bytes).Some?
    ensures Leads(bytes) == 1 + Leads(bytes[ReadChar(bytes).value.size..])
  {
    var size := ReadChar(bytes).value.size;
    assert size > 1 ==> bytes[1..][1..] == bytes[2..] && Leads(bytes[1..]) == Leads(bytes[2..]);
    assert size > 2 ==> bytes[2..][1..] == bytes[3..] && Leads(bytes[2..]) == Leads(bytes[3..]);
    assert size > 3 ==> bytes[3..][1..] == bytes[4..] && Leads(bytes[3..]) == Leads(bytes[4..]);
  }

  /** Decoding gives one character for each byte that begins one. */
  lemma {:induction false} DecodedLength(bytes: seq<Byte>)
    requires Decode(bytes).Some?
    ensures |Decode(bytes).value| == Leads(bytes)
    decreases |bytes|
  {
    if bytes == [] {
    } else {
      LeadsOfChar(bytes);
      DecodedLength(bytes[ReadChar(bytes).value.size..]);
    }
  }

  lemma LeadsOfEncoded(c: char, rest: seq<Byte>)
    ensures Leads(EncodeChar(c) + rest) == 1 + Leads(rest)
  {
    ReadEncodedChar(c, rest);
    LeadsOfChar(EncodeChar(c) + rest);
    assert (EncodeChar(c) + rest)[|EncodeChar(c)|..] == rest;
  }
}
