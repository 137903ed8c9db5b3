/** Reading a text piece by piece from its front. */
module TextReading {
  import opened Prelude

  /** A value read from the front of a text, and the text behind it. */
  datatype Reading<+T> = Reading(value: T, rest: string)

  function Expect(literal: string, text: string): Option<string> {
    if literal <= text then Some(text[|literal|..]) else None
  }

  lemma ExpectOf(literal: string, rest: string)
    ensures Expect(literal, literal + rest) == Some(rest)
  {
    Take(literal, rest);
  }
}
