/** JSON texts of section 4 of RFC 8259: objects whose members are strings and
    literals. Strings are escaped as in section 7. */
module Json {
  import opened Prelude
  import opened TextReading
  import Hexadecimal

  // ---------- writing a string ----------

  /** Quote, backslash and the C0 controls are escaped; all else stands as it is. */
  function EscapeChar(c: char): (s: string)
    ensures |s| >= 1
  {
    if c == '\"' then "\\\""
    else if c == '\\' then "\\\\"
    else if c == '\U{08}' then "\\b"
    else if c == '\t' then "\\t"
    else if c == '\n' then "\\n"
    else if c == '\U{0C}' then "\\f"
    else if c == '\r' then "\\r"
    else if c < ' ' then "\\u00" + [Hexadecimal.Digit(c as nat / 16, 'a'), Hexadecimal.Digit(c as nat % 16, 'a')]
    else [c]
  }

  function Concat(pieces: seq<string>): string {
    if pieces == [] then "" else pieces[0] + Concat(pieces[1..])
  }

  /** Every character escaped by itself. */
  function Escape(s: string): string {
    Concat(seq(|s|, i requires 0 <= i < |s| => EscapeChar(s[i])))
  }

  lemma EscapeFirst(s: string)
    requires s != ""
    ensures Escape(s) == EscapeChar(s[0]) + Escape(s[1..])
  {
    var pieces := seq(|s|, i requires 0 <= i < |s| => EscapeChar(s[i]));
    var rest := s[1..];
    assert pieces[1..] == seq(|rest|, i requires 0 <= i < |rest| => EscapeChar(rest[i]));
  }

  function Quoted(s: string): string {
    "\"" + Escape(s) + "\""
  }

  // ---------- reading a string ----------

  /** The four hexadecimal digits behind `\u`. */
  function CodeUnit(text: string): (unit: Option<nat>)
    ensures unit.Some? ==> |text| >= 4 && unit.value < 0x1_0000
  {
    if |text| < 4 then None else
      var a :- Hexadecimal.Value(text[0]);
      var b :- Hexadecimal.Value(text[1]);
      var c :- Hexadecimal.Value(text[2]);
      var d :- Hexadecimal.Value(text[3]);
      Some(((a * 16 + b) * 16 + c) * 16 + d)
  }

  function SimpleEscape(c: char): Option<char> {
    match c
    case '\"' => Some('\"')
    case '\\' => Some('\\')
    case '/' => Some('/')
    case 'b' => Some('\U{08}')
    case 'f' => Some('\U{0C}')
    case 'n' => Some('\n')
    case 'r' => Some('\r')
    case 't' => Some('\t')
    case _ => None
  }

  /** The second half of a surrogate pair, `text` being behind the first. */
  function ReadLowSurrogate(high: nat, text: string): Option<Reading<char>>
    requires 0xD800 <= high < 0xDC00
  {
    var digits :- Expect("\\u", text);
    var low :- CodeUnit(digits);
    if 0xDC00 <= low < 0xE000 then
      Some(Reading((0x1_0000 + (high - 0xD800) * 0x400 + (low - 0xDC00)) as char, digits[4..]))
    else None
  }

  /** What follows a backslash: a simple escape, a code unit, or a surrogate pair. */
  function ReadEscape(text: string): Option<Reading<char>> {
    if text == "" then None
    else if text[0] != 'u' then
      var c :- SimpleEscape(text[0]);
      Some(Reading(c, text[1..]))
    else
      var unit :- CodeUnit(text[1..]);
      if unit < 0xD800 || 0xE000 <= unit then Some(Reading(unit as char, text[5..]))
      else if unit < 0xDC00 then ReadLowSurrogate(unit, text[5..])
      else None
  }

  /** One character of a string literal. An unescaped quote or control is none. */
  function ReadChar(text: string): (r: Option<Reading<char>>)
    ensures r.Some? ==> |r.value.rest| < |text|
  {
    if text == "" || text[0] == '\"' || text[0] < ' ' then None
    else if text[0] != '\\' then Some(Reading(text[0], text[1..]))
    else ReadEscape(text[1..])
  }

  /** The characters up to the closing quote. */
  function ReadBody(text: string): (r: Option<Reading<string>>)
    ensures r.Some? ==> |r.value.rest| < |text|
    decreases |text|
  {
    if text != "" && text[0] == '\"' then Some(Reading("", text[1..])) else
      var first :- ReadChar(text);
      var more :- ReadBody(first.rest);
      Some(Reading([first.value] + more.value, more.rest))
  }

  function ReadQuoted(text: string): (r: Option<Reading<string>>)
    ensures r.Some? ==> |r.value.rest| < |text|
  {
    var body :- Expect("\"", text);
    ReadBody(body)
  }

  // ---------- reading an object ----------

  datatype Value = Null | True | False | String(chars: string)

  datatype Member = Member(name: string, value: Value)

  predicate IsSpace(c: char) {
    c == ' ' || c == '\t' || c == '\n' || c == '\r'
  }

  function SkipSpace(text: string): (rest: string)
    ensures |rest| <= |text|
    ensures text == "" || !IsSpace(text[0]) ==> rest == text
  {
    if text != "" && IsSpace(text[0]) then SkipSpace(text[1..]) else text
  }

  function ReadValue(text: string): (r: Option<Reading<Value>>)
    ensures r.Some? ==> |r.value.rest| < |text|
  {
    if "true" <= text then Some(Reading(True, text[4..]))
    else if "false" <= text then Some(Reading(False, text[5..]))
    else if "null" <= text then Some(Reading(Null, text[4..]))
    else
      var chars :- ReadQuoted(text);
      Some(Reading(String(chars.value), chars.rest))
  }

  /** A name, a colon and a value, with blanks around each. */
  function ReadMember(text: string): (r: Option<Reading<Member>>)
    ensures r.Some? ==> |r.value.rest| < |text|
  {
    var name :- ReadQuoted(SkipSpace(text));
    var behind :- Expect(":", SkipSpace(name.rest));
    var value :- ReadValue(SkipSpace(behind));
    Some(Reading(Member(name.value, value.value), SkipSpace(value.rest)))
  }

  /** One or more members up to the closing brace. */
  function ReadMembers(text: string): Option<Reading<seq<Member>>>
    decreases |text|
  {
    var first :- ReadMember(text);
    if "," <= first.rest then
      var more :- ReadMembers(first.rest[1..]);
      Some(Reading([first.value] + more.value, more.rest))
    else
      var rest :- Expect("}", first.rest);
      Some(Reading([first.value], rest))
  }

  function ReadObject(text: string): Option<seq<Member>> {
    var inside :- Expect("{", SkipSpace(text));
    if "}" <= SkipSpace(inside) then
      if SkipSpace(SkipSpace(inside)[1..]) == "" then Some([]) else None
    else
      var members :- ReadMembers(inside);
      if SkipSpace(members.rest) == "" then Some(members.value) else None
  }

  // ---------- what the reader takes the characters for ----------

  lemma LiteralsAre(rest: string)
    ensures ReadValue("true" + rest) == Some(Reading(True, rest))
    ensures ReadValue("false" + rest) == Some(Reading(False, rest))
    ensures ReadValue("null" + rest) == Some(Reading(Null, rest))
  {
    Take("true", rest);
    Take("false", rest);
    Take("null", rest);
    assert ("false" + rest)[0] == 'f' && ("null" + rest)[0] == 'n';
  }

  /** Code points of the eight short escapes. */
  const SHORT_ESCAPES := "\"\\/bfnrt"
  const SHORT_ESCAPED: seq<nat> := [0x22, 0x5C, 0x2F, 0x08, 0x0C, 0x0A, 0x0D, 0x09]

  lemma ShortEscapesAre(i: nat, rest: string)
    requires i < 8
    ensures ReadChar(['\\', SHORT_ESCAPES[i]] + rest) == Some(Reading(SHORT_ESCAPED[i] as char, rest))
  {
    var text := ['\\', SHORT_ESCAPES[i]] + rest;
    assert text[1..][0] == SHORT_ESCAPES[i] && text[1..][1..] == rest;
  }

  /** A code unit outside the surrogates is the character of that number. */
  lemma CodeUnitsAre(a: nat, b: nat, c: nat, d: nat, rest: string)
    requires a < 16 && b < 16 && c < 16 && d < 16 && !(0xD8 <= 0x10 * a + b < 0xE0)
    ensures var hex := "0123456789abcdef";
            ReadChar(['\\', 'u', hex[a], hex[b], hex[c], hex[d]] + rest) ==
            Some(Reading((0x1000 * a + 0x100 * b + 0x10 * c + d) as char, rest))
  {
    var hex := "0123456789abcdef";
    var text := ['\\', 'u', hex[a], hex[b], hex[c], hex[d]] + rest;
    Hexadecimal.DigitsAre(a);
    Hexadecimal.DigitsAre(b);
    Hexadecimal.DigitsAre(c);
    Hexadecimal.DigitsAre(d);
    var digits := text[1..][1..];
    assert digits[0] == hex[a] && digits[1] == hex[b] && digits[2] == hex[c] && digits[3] == hex[d];
    assert text[1..][5..] == rest;
  }

  /** Every other character but the quote and the controls stands for itself. */
  lemma OthersAreThemselves(c: char, rest: string)
    requires c as nat >= 0x20 && c != '\"' && c != '\\'
    ensures ReadChar([c] + rest) == Some(Reading(c, rest))
  {
    assert ([c] + rest)[1..] == rest;
  }

  // ---------- reading undoes writing ----------

  lemma ReadControl(c: char, rest: string)
    requires c < ' '
    ensures ReadEscape("u00" + [Hexadecimal.Digit(c as nat / 16, 'a'), Hexadecimal.Digit(c as nat % 16, 'a')] + rest) == Some(Reading(c, rest))
  {
    var text := "u00" + [Hexadecimal.Digit(c as nat / 16, 'a'), Hexadecimal.Digit(c as nat % 16, 'a')] + rest;
    Hexadecimal.ValueOfDigit(c as nat / 16, 'a');
    Hexadecimal.ValueOfDigit(c as nat % 16, 'a');
    assert text[1..][0] == '0' && text[1..][1] == '0';
    assert text[1..][2] == Hexadecimal.Digit(c as nat / 16, 'a') && text[1..][3] == Hexadecimal.Digit(c as nat % 16, 'a');
    assert text[5..] == rest;
  }

  lemma ReadEscapedChar(c: char, rest: string)
    ensures ReadChar(EscapeChar(c) + rest) == Some(Reading(c, rest))
  {
    var text := EscapeChar(c) + rest;
    if |EscapeChar(c)| == 6 {
      assert text[1..] == "u00" + [Hexadecimal.Digit(c as nat / 16, 'a'), Hexadecimal.Digit(c as nat % 16, 'a')] + rest;
      ReadControl(c, rest);
    } else if |EscapeChar(c)| == 2 {
      assert text[1..][1..] == rest;
    } else {
      assert text[1..] == rest;
    }
  }

  lemma {:induction false} ReadEscaped(s: string, rest: string)
    ensures ReadBody(Escape(s) + ("\"" + rest)) == Some(Reading(s, rest))
  {
    var tail := "\"" + rest;
    if s == "" {
      assert Escape(s) + tail == tail;
      Take("\"", rest);
    } else {
      EscapeFirst(s);
      Assoc(EscapeChar(s[0]), Escape(s[1..]), tail);
      ReadEscapedChar(s[0], Escape(s[1..]) + tail);
      ReadEscaped(s[1..], rest);
      assert [s[0]] + s[1..] == s;
    }
  }

  lemma Wrap(quote: string, body: string, rest: string)
    ensures ((quote + body) + quote) + rest == quote + (body + (quote + rest))
  {
  }

  lemma ReadQuotedOf(s: string, rest: string)
    ensures ReadQuoted(Quoted(s) + rest) == Some(Reading(s, rest))
  {
    var quote, body := "\"", Escape(s);
    Wrap(quote, body, rest);
    ExpectOf(quote, body + (quote + rest));
    ReadEscaped(s, rest);
  }

  function WriteValue(value: Value): string {
    match value
    case Null => "null"
    case True => "true"
    case False => "false"
    case String(chars) => Quoted(chars)
  }

  /** The text does not begin with a blank. */
  predicate Tight(text: string) {
    text != "" && !IsSpace(text[0])
  }

  lemma ReadWritten(value: Value, rest: string)
    ensures ReadValue(WriteValue(value) + rest) == Some(Reading(value, rest))
    ensures Tight(WriteValue(value) + rest)
  {
    if value.String? {
      ReadQuotedOf(value.chars, rest);
      assert (Quoted(value.chars) + rest)[0] == '\"';
    } else {
      LiteralsAre(rest);
    }
  }

  /** `name: value`, without blanks. */
  function Field(m: Member): string {
    Quoted(m.name) + (":" + WriteValue(m.value))
  }

  /** The members as they are written, and the closing brace. */
  function Fields(members: seq<Member>): string {
    Concat(seq(|members|, i requires 0 <= i < |members| => Field(members[i]) + (if i < |members| - 1 then "," else "}")))
  }

  lemma FieldsFirst(members: seq<Member>)
    requires members != []
    ensures Fields(members) ==
            if |members| == 1 then Field(members[0]) + "}" else Field(members[0]) + ("," + Fields(members[1..]))
  {
    var n, rest := |members|, members[1..];
    var pieces := seq(n, i requires 0 <= i < n => Field(members[i]) + (if i < n - 1 then "," else "}"));
    assert pieces[1..] == seq(|rest|, i requires 0 <= i < |rest| => Field(rest[i]) + (if i < |rest| - 1 then "," else "}"));
    if n == 1 {
      assert Concat(pieces[1..]) == "";
    } else {
      Assoc(Field(members[0]), ",", Fields(rest));
    }
  }

  /** `{name: value, ...}`, without blanks. */
  function WriteObject(members: seq<Member>): string
    requires members != []
  {
    "{" + Fields(members)
  }

  lemma ReadMemberFrom(t: string, name: string, text: string, value: Value, rest: string)
    requires Tight(t) && Tight(text) && Tight(rest)
    requires ReadQuoted(t) == Some(Reading(name, ":" + text))
    requires ReadValue(text) == Some(Reading(value, rest))
    ensures ReadMember(t) == Some(Reading(Member(name, value), rest))
  {
    assert (":" + text)[0] == ':';
    ExpectOf(":", text);
  }

  lemma FieldText(m: Member, rest: string)
    ensures Field(m) + rest == Quoted(m.name) + (":" + (WriteValue(m.value) + rest))
    ensures (Field(m) + rest)[0] == '\"'
  {
    Assoc(Quoted(m.name), ":" + WriteValue(m.value), rest);
    Assoc(":", WriteValue(m.value), rest);
    assert Quoted(m.name)[0] == '\"';
  }

  lemma ReadField(m: Member, rest: string)
    requires Tight(rest)
    ensures ReadMember(Field(m) + rest) == Some(Reading(m, rest))
  {
    var text := WriteValue(m.value) + rest;
    FieldText(m, rest);
    ReadQuotedOf(m.name, ":" + text);
    ReadWritten(m.value, rest);
    ReadMemberFrom(Field(m) + rest, m.name, text, m.value, rest);
  }

  lemma ReadOneMore(m: Member, rest: string, more: seq<Member>)
    requires ReadMembers(rest) == Some(Reading(more, ""))
    ensures ReadMembers(Field(m) + ("," + rest)) == Some(Reading([m] + more, ""))
  {
    var behind := "," + rest;
    assert behind[0] == ',';
    ReadField(m, behind);
    Take(",", rest);
  }

  lemma ReadLast(m: Member)
    ensures ReadMembers(Field(m) + "}") == Some(Reading([m], ""))
  {
    var behind := "}";
    assert behind[0] == '}' && !("," <= behind);
    ReadField(m, behind);
    ExpectOf("}", "");
    assert behind == "}" + "";
  }

  lemma {:induction false} ReadFields(members: seq<Member>)
    requires members != []
    ensures ReadMembers(Fields(members)) == Some(Reading(members, ""))
  {
    FieldsFirst(members);
    if |members| == 1 {
      ReadLast(members[0]);
      assert [members[0]] == members;
    } else {
      ReadFields(members[1..]);
      ReadOneMore(members[0], Fields(members[1..]), members[1..]);
      assert [members[0]] + members[1..] == members;
    }
  }

  lemma FieldsFront(members: seq<Member>)
    requires members != []
    ensures Fields(members) != "" && Fields(members)[0] == '\"'
  {
    FieldsFirst(members);
    assert Field(members[0])[0] == '\"';
  }

  /** An object is read as the members that were written, in order. */
  lemma ReadWrittenObject(members: seq<Member>)
    requires members != []
    ensures ReadObject(WriteObject(members)) == Some(members)
  {
    ReadFields(members);
    FieldsFront(members);
    ExpectOf("{", Fields(members));
  }
}
