/** UTC timestamps in ISO 8601, as the cached text has them. */
module IsoStamp {
  import opened Prelude
  import opened FeatureFlags
  import opened TextReading
  import Decimal

  /** ISO 8601 with `Z`; the microseconds are left out when they are zero. */
  function Fraction(micro: nat): string {
    if micro == 0 then "" else "." + Decimal.Pad(micro, 6)
  }

  /** Three groups of digits, each with its separator. */
  function Triple(w: nat, a: nat, s1: string, b: nat, s2: string, c: nat, s3: string): string {
    Decimal.Pad(a, w) + (s1 + (Decimal.Pad(b, 2) + (s2 + (Decimal.Pad(c, 2) + s3))))
  }

  function Stamp(t: Timestamp): string {
    Triple(4, t.year, "-", t.month, "-", t.day, "T") +
    (Triple(2, t.hour, ":", t.minute, ":", t.second, "") + (Fraction(t.micro) + "Z"))
  }

  /** `w` digits and then the separator. */
  function ReadGroup(w: nat, separator: string, text: string): Option<Reading<nat>> {
    if w <= |text| && Decimal.AllDigits(text[..w]) then
      var rest :- Expect(separator, text[w..]);
      Some(Reading(Decimal.Value(text[..w]), rest))
    else None
  }

  datatype Three = Three(a: nat, b: nat, c: nat)

  function ReadTriple(w: nat, s1: string, s2: string, s3: string, text: string): Option<Reading<Three>> {
    var a :- ReadGroup(w, s1, text);
    var b :- ReadGroup(2, s2, a.rest);
    var c :- ReadGroup(2, s3, b.rest);
    Some(Reading(Three(a.value, b.value, c.value), c.rest))
  }

  function ReadFraction(text: string): Option<Reading<nat>> {
    if "." <= text then ReadGroup(6, "", text[1..]) else Some(Reading(0, text))
  }

  function ReadStamp(text: string): Option<Reading<Timestamp>> {
    var date :- ReadTriple(4, "-", "-", "T", text);
    var time :- ReadTriple(2, ":", ":", "", date.rest);
    var micro :- ReadFraction(time.rest);
    var rest :- Expect("Z", micro.rest);
    var t := RawTimestamp(date.value.a, date.value.b, date.value.c,
                          time.value.a, time.value.b, time.value.c, micro.value);
    if t.Valid() then Some(Reading(t, rest)) else None
  }

  lemma ReadGroupOf(w: nat, n: nat, separator: string, rest: string)
    requires n < Decimal.Pow10(w)
    ensures ReadGroup(w, separator, Decimal.Pad(n, w) + (separator + rest)) == Some(Reading(n, rest))
  {
    Take(Decimal.Pad(n, w), separator + rest);
    Decimal.ValueOfPad(n, w);
    ExpectOf(separator, rest);
  }

  lemma ReadTripleOf(w: nat, a: nat, s1: string, b: nat, s2: string, c: nat, s3: string, rest: string)
    requires a < Decimal.Pow10(w) && b < 100 && c < 100
    ensures ReadTriple(w, s1, s2, s3, Triple(w, a, s1, b, s2, c, s3) + rest) == Some(Reading(Three(a, b, c), rest))
  {
    assert Decimal.Pow10(2) == 100;
    var t2 := Decimal.Pad(c, 2) + (s3 + rest);
    var t1 := Decimal.Pad(b, 2) + (s2 + t2);
    assert Triple(w, a, s1, b, s2, c, s3) + rest == Decimal.Pad(a, w) + (s1 + t1);
    ReadGroupOf(w, a, s1, t1);
    ReadGroupOf(2, b, s2, t2);
    ReadGroupOf(2, c, s3, rest);
  }

  lemma ReadFractionOf(micro: nat, rest: string)
    requires micro < 1_000_000 && rest != "" && rest[0] != '.'
    ensures ReadFraction(Fraction(micro) + rest) == Some(Reading(micro, rest))
  {
    if micro == 0 {
      assert Fraction(micro) + rest == rest;
    } else {
      assert Decimal.Pow10(6) == 1_000_000 by {
        assert Decimal.Pow10(3) == 1000;
      }
      assert Fraction(micro) + rest == "." + (Decimal.Pad(micro, 6) + ("" + rest));
      ExpectOf(".", Decimal.Pad(micro, 6) + ("" + rest));
      ReadGroupOf(6, micro, "", rest);
    }
  }

  lemma ReadStampOf(t: Timestamp, rest: string)
    ensures ReadStamp(Stamp(t) + rest) == Some(Reading(t, rest))
  {
    var t2 := Fraction(t.micro) + ("Z" + rest);
    var t1 := Triple(2, t.hour, ":", t.minute, ":", t.second, "") + t2;
    var t0 := Triple(4, t.year, "-", t.month, "-", t.day, "T") + t1;
    assert Stamp(t) + rest == t0;
    assert Decimal.Pow10(2) == 100 && Decimal.Pow10(4) == 10000;
    ReadTripleOf(4, t.year, "-", t.month, "-", t.day, "T", t1);
    ReadTripleOf(2, t.hour, ":", t.minute, ":", t.second, "", t2);
    ReadFractionOf(t.micro, "Z" + rest);
    ExpectOf("Z", rest);
  }

  lemma TripleParts(w: nat, a: nat, s1: string, b: nat, s2: string, c: nat, s3: string)
    requires |s1| == 1 && |s2| == 1
    ensures var t := Triple(w, a, s1, b, s2, c, s3);
            && |t| == w + 6 + |s3|
            && t[..w] == Decimal.Pad(a, w) && t[w] == s1[0]
            && t[w + 1..w + 3] == Decimal.Pad(b, 2) && t[w + 3] == s2[0]
            && t[w + 4..w + 6] == Decimal.Pad(c, 2) && t[w + 6..] == s3
  {
    var x, y, z := Decimal.Pad(a, w), Decimal.Pad(b, 2), Decimal.Pad(c, 2);
    assert Triple(w, a, s1, b, s2, c, s3) == x + s1 + y + s2 + z + s3;
  }

  lemma Placed(date: string, time: string, end: string)
    requires |date| == 11 && |time| == 8
    ensures var s := date + (time + end);
            && s[0..4] == date[..4] && s[4] == date[4] && s[5..7] == date[5..7] && s[7] == date[7]
            && s[8..10] == date[8..10] && s[10] == date[10]
            && s[11..13] == time[..2] && s[13] == time[2] && s[14..16] == time[3..5] && s[16] == time[5]
            && s[17..19] == time[6..8] && s[19..] == end
  {
  }

  /** Where each field stands: `YYYY-MM-DDThh:mm:ss`, six more digits behind a point
      unless the microseconds are zero, and `Z`. */
  lemma StampPositions(t: Timestamp)
    ensures var s := Stamp(t);
            && |s| == (if t.micro == 0 then 20 else 27)
            && s[0..4] == Decimal.Pad(t.year, 4) && s[4] == '-'
            && s[5..7] == Decimal.Pad(t.month, 2) && s[7] == '-'
            && s[8..10] == Decimal.Pad(t.day, 2) && s[10] == 'T'
            && s[11..13] == Decimal.Pad(t.hour, 2) && s[13] == ':'
            && s[14..16] == Decimal.Pad(t.minute, 2) && s[16] == ':'
            && s[17..19] == Decimal.Pad(t.second, 2)
            && s[19..] == if t.micro == 0 then "Z" else "." + Decimal.Pad(t.micro, 6) + "Z"
  {
    var date := Triple(4, t.year, "-", t.month, "-", t.day, "T");
    var time := Triple(2, t.hour, ":", t.minute, ":", t.second, "");
    var end := Fraction(t.micro) + "Z";
    TripleParts(4, t.year, "-", t.month, "-", t.day, "T");
    TripleParts(2, t.hour, ":", t.minute, ":", t.second, "");
    Placed(date, time, end);
    assert date[10..] == "T" && date[10] == date[10..][0];
  }
}
