/** `urllib.parse.quote(text, safe="")`: percent-encoding, section 2.1 of
    RFC 3986, of everything but the unreserved characters of its section 2.3. */
module PercentEncoding {
  import opened Prelude
  import Utf8
  import Hexadecimal

  predicate Unreserved(c: char) {
    'A' <= c <= 'Z' || 'a' <= c <= 'z' || '0' <= c <= '9' || c in {'-', '.', '_', '~'}
  }

  predicate UpperHex(c: char) {
    '0' <= c <= '9' || 'A' <= c <= 'F'
  }

  function QuoteByte(b: Utf8.Byte): (s: string)
    ensures s != ""
  {
    if b < 0x80 && Unreserved(b as char) then [b as char] else ['%', Hexadecimal.Digit(b / 16, 'A'), Hexadecimal.Digit(b % 16, 'A')]
  }

  function QuoteBytes(bytes: seq<Utf8.Byte>): string {
    if bytes == [] then "" else QuoteByte(bytes[0]) + QuoteBytes(bytes[1..])
  }

  function Quote(s: string): string {
    QuoteBytes(Utf8.Encode(s))
  }

  /** Only unreserved characters and `%XX`. */
  predicate WellQuoted(t: string) {
    t == "" ||
    (if t[0] == '%' then |t| >= 3 && UpperHex(t[1]) && UpperHex(t[2]) && WellQuoted(t[3..])
     else Unreserved(t[0]) && WellQuoted(t[1..]))
  }

  /** Percent-decoding to bytes; both cases of the hexadecimal letters are read. */
  function UnquoteBytes(t: string): Option<seq<Utf8.Byte>> {
    if t == "" then Some([])
    else if t[0] == '%' then
      if |t| < 3 then None else
        var high :- Hexadecimal.Value(t[1]);
        var low :- Hexadecimal.Value(t[2]);
        var more :- UnquoteBytes(t[3..]);
        Some([16 * high + low] + more)
    else
      var more :- UnquoteBytes(t[1..]);
      Some(Utf8.EncodeChar(t[0]) + more)
  }

  /** What a URL consumer gets back. */
  function Unquote(t: string): Option<string> {
    var bytes :- UnquoteBytes(t);
    Utf8.Decode(bytes)
  }

  lemma UnquoteEscaped(b: Utf8.Byte, rest: string, more: seq<Utf8.Byte>)
    requires UnquoteBytes(rest) == Some(more)
    ensures UnquoteBytes(['%', Hexadecimal.Digit(b / 16, 'A'), Hexadecimal.Digit(b % 16, 'A')] + rest) == Some([b] + more)
  {
    var t := ['%', Hexadecimal.Digit(b / 16, 'A'), Hexadecimal.Digit(b % 16, 'A')] + rest;
    Hexadecimal.ValueOfDigit(b / 16, 'A');
    Hexadecimal.ValueOfDigit(b % 16, 'A');
    assert t[3..] == rest;
  }

  lemma UnquotePlain(c: char, rest: string, more: seq<Utf8.Byte>)
    requires c as nat < 0x80 && c != '%' && UnquoteBytes(rest) == Some(more)
    ensures UnquoteBytes([c] + rest) == Some([c as nat] + more)
  {
    assert ([c] + rest)[1..] == rest;
  }

  lemma {:induction false} UnquoteQuotedBytes(bytes: seq<Utf8.Byte>)
    ensures UnquoteBytes(QuoteBytes(bytes)) == Some(bytes)
  {
    if bytes == [] {
    } else {
      var b, rest := bytes[0], QuoteBytes(bytes[1..]);
      UnquoteQuotedBytes(bytes[1..]);
      if b < 0x80 && Unreserved(b as char) {
        UnquotePlain(b as char, rest, bytes[1..]);
      } else {
        UnquoteEscaped(b, rest, bytes[1..]);
      }
      assert [b] + bytes[1..] == bytes;
    }
  }

  lemma {:induction false} QuotedBytesAreWellQuoted(bytes: seq<Utf8.Byte>)
    ensures WellQuoted(QuoteBytes(bytes))
  {
    if bytes == [] {
    } else {
      var b, rest := bytes[0], QuoteBytes(bytes[1..]);
      var t := QuoteByte(b) + rest;
      QuotedBytesAreWellQuoted(bytes[1..]);
      if b < 0x80 && Unreserved(b as char) {
        assert t[1..] == rest;
      } else {
        assert t[3..] == rest;
      }
    }
  }

  /** Decoding recovers any credential, and the encoded form needs no delimiter. */
  lemma UnquoteQuote(s: string)
    ensures Unquote(Quote(s)) == Some(s)
    ensures WellQuoted(Quote(s))
  {
    UnquoteQuotedBytes(Utf8.Encode(s));
    QuotedBytesAreWellQuoted(Utf8.Encode(s));
    Utf8.DecodeEncode(s);
  }

  /** No character of a well-quoted text is a URL delimiter. */
  lemma {:induction false} WellQuotedFree(t: string, stops: set<char>)
    requires WellQuoted(t)
    requires forall c | c in stops :: !Unreserved(c) && c != '%'
    ensures Free(t, stops)
  {
    if t == "" {
    } else {
      var n := if t[0] == '%' then 3 else 1;
      WellQuotedFree(t[n..], stops);
      forall i | 0 <= i < |t| ensures t[i] !in stops {
        if i >= n {
          assert t[i] == t[n..][i - n];
        }
      }
    }
  }

  lemma QuotedFree(s: string, stops: set<char>)
    requires forall c | c in stops :: !Unreserved(c) && c != '%'
    ensures Free(Quote(s), stops)
  {
    UnquoteQuote(s);
    WellQuotedFree(Quote(s), stops);
  }

  // ---------- what the encoded text is ----------

  const UPPER := "ABCDEFGHIJKLMNOPQRSTUVWXYZ"
  const LOWER := "abcdefghijklmnopqrstuvwxyz"
  const DIGITS := "0123456789"

  /** Section 2.3: letters, digits, hyphen, period, underscore and tilde. */
  predicate MayStand(c: char) {
    c in UPPER || c in LOWER || c in DIGITS || c in "-._~"
  }

  lemma InUpper(c: char)
    ensures c in UPPER <==> 'A' <= c <= 'Z'
  {
    assert forall i | 0 <= i < 26 :: UPPER[i] as int == 'A' as int + i;
    if 'A' <= c <= 'Z' {
      assert UPPER[c as int - 'A' as int] == c;
    }
  }

  lemma InLower(c: char)
    ensures c in LOWER <==> 'a' <= c <= 'z'
  {
    assert forall i | 0 <= i < 26 :: LOWER[i] as int == 'a' as int + i;
    if 'a' <= c <= 'z' {
      assert LOWER[c as int - 'a' as int] == c;
    }
  }

  lemma InDigits(c: char)
    ensures c in DIGITS <==> '0' <= c <= '9'
  {
    assert forall i | 0 <= i < 10 :: DIGITS[i] as int == '0' as int + i;
    if '0' <= c <= '9' {
      assert DIGITS[c as int - '0' as int] == c;
    }
  }

  lemma InMarks(c: char)
    ensures c in "-._~" <==> c == '-' || c == '.' || c == '_' || c == '~'
  {
    var marks := "-._~";
    assert marks[0] == '-' && marks[1] == '.' && marks[2] == '_' && marks[3] == '~';
  }

  lemma UnreservedMayStand(c: char)
    ensures Unreserved(c) <==> MayStand(c)
  {
    InUpper(c);
    InLower(c);
    InDigits(c);
    InMarks(c);
  }

  /** `t` is `%` and two upper-case hexadecimal digits for each byte. */
  predicate Escapes(t: string, bytes: seq<Utf8.Byte>) {
    && |t| == 3 * |bytes|
    && forall i | 0 <= i < |bytes| ::
         && t[3 * i] == '%'
         && t[3 * i + 1] == "0123456789ABCDEF"[bytes[i] / 16]
         && t[3 * i + 2] == "0123456789ABCDEF"[bytes[i] % 16]
  }

  lemma QuoteBytesStep(byte: Utf8.Byte, more: seq<Utf8.Byte>)
    ensures QuoteBytes([byte] + more) == QuoteByte(byte) + QuoteBytes(more)
  {
    assert ([byte] + more)[1..] == more;
  }

  lemma {:induction false} QuoteBytesConcat(a: seq<Utf8.Byte>, b: seq<Utf8.Byte>)
    ensures QuoteBytes(a + b) == QuoteBytes(a) + QuoteBytes(b)
  {
    if a == [] {
      assert a + b == b;
    } else {
      QuoteBytesConcat(a[1..], b);
      QuoteBytesStep(a[0], a[1..] + b);
      QuoteBytesStep(a[0], a[1..]);
      assert [a[0]] + (a[1..] + b) == a + b && [a[0]] + a[1..] == a;
      Assoc(QuoteByte(a[0]), QuoteBytes(a[1..]), QuoteBytes(b));
    }
  }

  lemma EscapesPrepend(byte: Utf8.Byte, head: string, rest: string, bytes: seq<Utf8.Byte>)
    requires Escapes(head, [byte]) && Escapes(rest, bytes)
    ensures Escapes(head + rest, [byte] + bytes)
  {
    var t, all := head + rest, [byte] + bytes;
    forall i | 0 <= i < |all|
      ensures t[3 * i] == '%'
      ensures t[3 * i + 1] == "0123456789ABCDEF"[all[i] / 16] && t[3 * i + 2] == "0123456789ABCDEF"[all[i] % 16]
    {
      if i == 0 {
        assert head[0] == head[3 * 0] && [byte][0] == byte;
      } else {
        assert t[3 * i] == rest[3 * (i - 1)] && t[3 * i + 1] == rest[3 * (i - 1) + 1] && t[3 * i + 2] == rest[3 * (i - 1) + 2];
        assert all[i] == bytes[i - 1];
      }
    }
  }

  lemma EscapedByte(byte: Utf8.Byte)
    requires !(byte < 0x80 && Unreserved(byte as char))
    ensures Escapes(QuoteByte(byte), [byte])
  {
    Hexadecimal.DigitsAre(byte / 16);
    Hexadecimal.DigitsAre(byte % 16);
  }

  lemma {:induction false} EscapedBytes(bytes: seq<Utf8.Byte>)
    requires forall i | 0 <= i < |bytes| :: !(bytes[i] < 0x80 && Unreserved(bytes[i] as char))
    ensures Escapes(QuoteBytes(bytes), bytes)
  {
    if bytes == [] {
    } else {
      EscapedBytes(bytes[1..]);
      EscapedByte(bytes[0]);
      EscapesPrepend(bytes[0], QuoteByte(bytes[0]), QuoteBytes(bytes[1..]), bytes[1..]);
      assert [bytes[0]] + bytes[1..] == bytes;
    }
  }

  /** `quote`, character by character: an unreserved one stands as it is, any other
      as its escaped UTF-8 bytes. */
  lemma QuoteByCharacter(c: char, s: string) returns (head: string)
    ensures Quote("") == "" && Quote([c] + s) == head + Quote(s)
    ensures MayStand(c) ==> head == [c]
    ensures !MayStand(c) ==> Escapes(head, Utf8.EncodeChar(c))
  {
    var bytes := Utf8.EncodeChar(c);
    head := QuoteBytes(bytes);
    UnreservedMayStand(c);
    Utf8.EncodeCharLayout(c);
    assert ([c] + s)[1..] == s;
    QuoteBytesConcat(bytes, Utf8.Encode(s));
    if Unreserved(c) {
      assert bytes == [c as nat] && bytes[1..] == [];
    } else {
      assert forall i | 0 <= i < |bytes| :: !(bytes[i] < 0x80 && Unreserved(bytes[i] as char));
      EscapedBytes(bytes);
    }
  }

  // ---------- decoding a text that was not encoded ----------

  lemma {:induction false} UnquotedLeads(t: string)
    requires UnquoteBytes(t).Some?
    ensures Utf8.Leads(UnquoteBytes(t).value) <= |t|
    ensures !Free(t, {'%'}) ==> Utf8.Leads(UnquoteBytes(t).value) < |t|
  {
    if t == "" {
    } else if t[0] == '%' {
      UnquotedLeads(t[3..]);
      var bytes := UnquoteBytes(t).value;
      assert bytes[1..] == UnquoteBytes(t[3..]).value;
    } else {
      UnquotedLeads(t[1..]);
      Utf8.LeadsOfEncoded(t[0], UnquoteBytes(t[1..]).value);
      FreeConcat([t[0]], t[1..], {'%'});
      assert [t[0]] + t[1..] == t;
    }
  }

  lemma {:induction false} UnquoteBytesPlain(t: string)
    requires Free(t, {'%'})
    ensures UnquoteBytes(t) == Some(Utf8.Encode(t))
  {
    if t == "" {
    } else {
      assert t[0] != '%' && Free(t[1..], {'%'});
      UnquoteBytesPlain(t[1..]);
    }
  }

  /** A text never grows when it is decoded, and it comes back unchanged exactly
      when it holds no percent sign. */
  lemma UnquoteUnchanged(t: string)
    ensures Unquote(t).Some? ==> |Unquote(t).value| <= |t|
    ensures Unquote(t) == Some(t) <==> Free(t, {'%'})
  {
    if Unquote(t).Some? {
      UnquotedLeads(t);
      Utf8.DecodedLength(UnquoteBytes(t).value);
    }
    if Free(t, {'%'}) {
      UnquoteBytesPlain(t);
      Utf8.DecodeEncode(t);
    }
  }
}
