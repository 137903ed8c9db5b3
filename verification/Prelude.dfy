/** Vocabulary shared by every module. */
module Prelude {

  /** Failure-compatible, so that a reader can stop at the first `None`. */
  datatype Option<+T> = None | Some(value: T) {
    predicate IsFailure() {
      None?
    }

    function PropagateFailure<U>(): Option<U>
      requires None?
    {
      None
    }

    function Extract(): T
      requires Some?
    {
      value
    }
  }

  /** A string field declared with `min_length=1`. */
  type NonEmpty = s: string | s != "" witness "x"

  /** `c` does not occur in `s`. */
  predicate Free(s: string, cs: set<char>) {
    forall i | 0 <= i < |s| :: s[i] !in cs
  }

  lemma FreeConcat(a: string, b: string, cs: set<char>)
    ensures Free(a + b, cs) <==> Free(a, cs) && Free(b, cs)
  {
    assert forall i | 0 <= i < |a| :: a[i] == (a + b)[i];
    assert forall i | 0 <= i < |b| :: b[i] == (a + b)[|a| + i];
  }

  lemma Assoc(a: string, b: string, c: string)
    ensures (a + b) + c == a + (b + c)
  {
  }

  lemma Take(a: string, b: string)
    ensures (a + b)[..|a|] == a && (a + b)[|a|..] == b
  {
  }

  lemma Cancel(a: string, b: string, c: string)
    requires a + b == a + c
    ensures b == c
  {
    Take(a, b);
    Take(a, c);
  }

  lemma Split(s: string, i: nat)
    requires i <= |s|
    ensures s == s[..i] + s[i..]
  {
  }
}
