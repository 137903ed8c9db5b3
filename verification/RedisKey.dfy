/** `create_redis_key`: a length-prefixed encoding of a list of parts. */
module RedisKey {
  import opened Prelude
  import Decimal

  /** `sep.join(pieces)`. */
  function Join(sep: string, pieces: seq<string>): string {
    if pieces == [] then ""
    else if |pieces| == 1 then pieces[0]
    else Join(sep, pieces[..|pieces| - 1]) + sep + pieces[|pieces| - 1]
  }

  /** One part as `len:part`, with the text that follows it. */
  function Counted(part: string, rest: string): string {
    Decimal.Print(|part|) + ":" + (part + rest)
  }

  /** Every part as `:len:part`. */
  function EncodeParts(parts: seq<string>): string {
    if parts == [] then "" else ":" + Counted(parts[0], EncodeParts(parts[1..]))
  }

  /** The key that `create_redis_key(prefix, *parts)` returns. */
  function Key(prefix: string, parts: seq<string>): string {
    prefix + EncodeParts(parts)
  }

  lemma {:induction false} EncodePartsAppend(parts: seq<string>, part: string)
    ensures EncodeParts(parts + [part]) == EncodeParts(parts) + (":" + Counted(part, ""))
  {
    if parts == [] {
      assert [part][1..] == [];
    } else {
      EncodePartsAppend(parts[1..], part);
      assert (parts + [part])[1..] == parts[1..] + [part];
    }
  }

  lemma JoinAppend(pieces: seq<string>, part: string)
    requires pieces != []
    ensures Join(":", pieces + [Decimal.Print(|part|)] + [part]) == Join(":", pieces) + (":" + Counted(part, ""))
  {
    var digits := Decimal.Print(|part|);
    var longer := pieces + [digits];
    assert longer[..|longer| - 1] == pieces && (longer + [part])[..|longer|] == longer;
    assert part + "" == part;
  }

  method CreateRedisKey(prefix: string, parts: seq<string>) returns (key: string)
    ensures key == Key(prefix, parts)
  {
    var pieces := [prefix];
    for i := 0 to |parts|
      invariant pieces != []
      invariant Join(":", pieces) == Key(prefix, parts[..i])
    {
      var part := parts[i];
      JoinAppend(pieces, part);
      EncodePartsAppend(parts[..i], part);
      Assoc(prefix, EncodeParts(parts[..i]), ":" + Counted(part, ""));
      assert parts[..i + 1] == parts[..i] + [part];
      pieces := pieces + [Decimal.Print(|part|)];
      pieces := pieces + [part];
    }
    assert parts[..|parts|] == parts;
    key := Join(":", pieces);
  }

  /** A key, part by part: a colon, the length in decimal, a colon and the part. */
  lemma KeyByParts(prefix: string, parts: seq<string>, part: string)
    ensures Key(prefix, []) == prefix
    ensures Key(prefix, parts + [part]) == Key(prefix, parts) + (":" + (Decimal.Print(|part|) + (":" + part)))
  {
    EncodePartsAppend(parts, part);
    Assoc(prefix, EncodeParts(parts), ":" + Counted(part, ""));
    Assoc(Decimal.Print(|part|), ":", part);
    assert part + "" == part && prefix + "" == prefix;
  }

  /** Index of the first colon of `s`, or `|s|`. */
  function FirstColon(s: string): (i: nat)
    ensures i <= |s| && Free(s[..i], {':'})
    ensures i < |s| ==> s[i] == ':'
  {
    if s == "" || s[0] == ':' then 0 else
      var i := 1 + FirstColon(s[1..]);
      assert s[..i] == [s[0]] + s[1..][..i - 1];
      i
  }

  lemma {:induction false} FirstColonAfter(digits: string, rest: string)
    requires Free(digits, {':'})
    ensures FirstColon(digits + ":" + rest) == |digits|
  {
    var s := digits + ":" + rest;
    if digits == "" {
    } else {
      FirstColonAfter(digits[1..], rest);
      assert s[1..] == digits[1..] + ":" + rest;
    }
  }

  datatype Entry = Entry(part: string, rest: string)

  /** Reads `len:part` from the front of `body`. */
  function ReadCounted(body: string): Option<Entry> {
    var i := FirstColon(body);
    if i == |body| then None else
      match Decimal.Read(body[..i])
      case None => None
      case Some(n) =>
        var tail := body[i + 1..];
        if n <= |tail| then Some(Entry(tail[..n], tail[n..])) else None
  }

  /** Reads one `:len:part` from the front of `text`. */
  function ReadEntry(text: string): Option<Entry> {
    if text == "" || text[0] != ':' then None else ReadCounted(text[1..])
  }

  lemma ReadCountedOf(part: string, rest: string)
    ensures ReadCounted(Counted(part, rest)) == Some(Entry(part, rest))
  {
    var digits, tail := Decimal.Print(|part|), part + rest;
    var body := digits + ":" + tail;
    FirstColonAfter(digits, tail);
    Decimal.ReadPrint(|part|);
    assert body[..|digits|] == digits;
    assert body[|digits| + 1..] == tail;
    assert tail[..|part|] == part && tail[|part|..] == rest;
  }

  lemma CountedRead(body: string)
    requires ReadCounted(body).Some?
    ensures var e := ReadCounted(body).value;
            body == Counted(e.part, e.rest)
  {
    var i := FirstColon(body);
    var tail := body[i + 1..];
    var n := Decimal.Read(body[..i]).value;
    assert body == body[..i] + ":" + tail;
    assert tail == tail[..n] + tail[n..];
  }

  /** The decoder: `D` such that `D(EncodeParts(parts)) = parts`. */
  function DecodeParts(text: string): Option<seq<string>>
    decreases |text|
  {
    if text == "" then Some([]) else
      match ReadEntry(text)
      case None => None
      case Some(e) =>
        if |e.rest| < |text| then
          match DecodeParts(e.rest)
          case None => None
          case Some(parts) => Some([e.part] + parts)
        else None
  }

  /** For one fixed prefix: drop it, then decode the parts. */
  function Decode(prefix: string, key: string): Option<seq<string>> {
    if prefix <= key then DecodeParts(key[|prefix|..]) else None
  }

  lemma DecodeEntry(part: string, rest: string)
    requires DecodeParts(rest).Some?
    ensures DecodeParts(":" + Counted(part, rest)) == Some([part] + DecodeParts(rest).value)
  {
    var text := ":" + Counted(part, rest);
    assert text[1..] == Counted(part, rest);
    ReadCountedOf(part, rest);
    assert |rest| < |text|;
  }

  lemma {:induction false} DecodeEncodedParts(parts: seq<string>)
    ensures DecodeParts(EncodeParts(parts)) == Some(parts)
  {
    if parts == [] {
    } else {
      DecodeEncodedParts(parts[1..]);
      DecodeEntry(parts[0], EncodeParts(parts[1..]));
      assert [parts[0]] + parts[1..] == parts;
    }
  }

  lemma {:induction false} EncodeDecodedParts(text: string)
    requires DecodeParts(text).Some?
    ensures EncodeParts(DecodeParts(text).value) == text
    decreases |text|
  {
    if text == "" {
    } else {
      var e := ReadEntry(text).value;
      CountedRead(text[1..]);
      EncodeDecodedParts(e.rest);
      var parts := DecodeParts(text).value;
      assert parts[1..] == DecodeParts(e.rest).value;
      assert text == [text[0]] + text[1..];
    }
  }

  /** Unique decodability, both ways: a key decodes to `parts` exactly when it is
      the key built from them. Parts may hold colons and digits, or be empty. */
  lemma UniquelyDecodable(prefix: string, key: string, parts: seq<string>)
    ensures Decode(prefix, key) == Some(parts) <==> key == Key(prefix, parts)
  {
    DecodeEncodedParts(parts);
    if key == Key(prefix, parts) {
      assert key[|prefix|..] == EncodeParts(parts);
    }
    if Decode(prefix, key) == Some(parts) {
      EncodeDecodedParts(key[|prefix|..]);
      assert key == key[..|prefix|] + key[|prefix|..];
    }
  }

  /** No two lists of parts, of any lengths, share a key. */
  lemma Injective(prefix: string, xs: seq<string>, ys: seq<string>)
    requires Key(prefix, xs) == Key(prefix, ys)
    ensures xs == ys
  {
    UniquelyDecodable(prefix, Key(prefix, xs), xs);
    UniquelyDecodable(prefix, Key(prefix, xs), ys);
  }
}
