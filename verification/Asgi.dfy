/** ASGI messages, their headers, and the connection they are sent on. Header
    bytes are written as characters. */
module Asgi {
  import opened Prelude

  datatype Header = Header(name: string, value: string)

  function LowerChar(c: char): char {
    if 'A' <= c <= 'Z' then (c as int + 32) as char else c
  }

  /** Header names compare without case. */
  function Lower(s: string): string {
    seq(|s|, i requires 0 <= i < |s| => LowerChar(s[i]))
  }

  lemma LowerTwice(s: string)
    ensures Lower(Lower(s)) == Lower(s)
  {
  }

  predicate Named(h: Header, lower: string) {
    Lower(h.name) == lower
  }

  /** The headers of any other name. */
  function Without(hs: seq<Header>, lower: string): seq<Header> {
    if hs == [] then []
    else if Named(hs[0], lower) then Without(hs[1..], lower)
    else [hs[0]] + Without(hs[1..], lower)
  }

  /** `headers[name] = value`: the first header of that name is replaced where it
      stands, further ones are removed, and without one the header is appended. */
  function Assign(hs: seq<Header>, lower: string, value: string): seq<Header> {
    if hs == [] then [Header(lower, value)]
    else if Named(hs[0], lower) then [Header(lower, value)] + Without(hs[1..], lower)
    else [hs[0]] + Assign(hs[1..], lower, value)
  }

  /** `headers.get(name)`: the first one. */
  function Lookup(hs: seq<Header>, lower: string): Option<string> {
    if hs == [] then None
    else if Named(hs[0], lower) then Some(hs[0].value)
    else Lookup(hs[1..], lower)
  }

  // ---------- header names, character by character ----------

  /** The same character, or two ASCII letters 32 code points apart. */
  predicate SameLetter(x: char, y: char) {
    || x == y
    || ('A' <= x <= 'Z' && y as int - x as int == 32)
    || ('A' <= y <= 'Z' && x as int - y as int == 32)
  }

  /** One name is a case variant of the other. */
  predicate SameName(a: string, b: string) {
    |a| == |b| && forall i | 0 <= i < |a| :: SameLetter(a[i], b[i])
  }

  /** Comparison in lower case finds the case variants and nothing else. */
  lemma LowerIsSameName(a: string, b: string)
    ensures Lower(a) == Lower(b) <==> SameName(a, b)
  {
    if Lower(a) == Lower(b) {
      assert |a| == |Lower(a)| == |Lower(b)| == |b|;
      forall i | 0 <= i < |a| ensures SameLetter(a[i], b[i]) {
        assert Lower(a)[i] == Lower(b)[i];
      }
    }
    if SameName(a, b) {
      assert forall i | 0 <= i < |a| :: LowerChar(a[i]) == LowerChar(b[i]);
    }
  }

  predicate NoneNamed(hs: seq<Header>, name: string) {
    forall i | 0 <= i < |hs| :: !SameName(hs[i].name, name)
  }

  /** Position `i` holds the first header of the name. */
  predicate FirstNamed(hs: seq<Header>, name: string, i: nat) {
    i < |hs| && SameName(hs[i].name, name) && forall j | 0 <= j < i :: !SameName(hs[j].name, name)
  }

  /** Exactly one header has the name, and it has the value. */
  predicate OnlyHeader(hs: seq<Header>, name: string, value: string) {
    exists i | 0 <= i < |hs| ::
      && SameName(hs[i].name, name) && hs[i].value == value
      && forall j | 0 <= j < |hs| && j != i :: !SameName(hs[j].name, name)
  }

  /** A lookup finds the value of the first header of the name, if there is one. */
  lemma {:induction false} LookupIsFirst(hs: seq<Header>, name: string) returns (i: nat)
    ensures Lookup(hs, Lower(name)).None? ==> NoneNamed(hs, name)
    ensures Lookup(hs, Lower(name)).Some? ==> FirstNamed(hs, name, i) && Lookup(hs, Lower(name)) == Some(hs[i].value)
  {
    i := 0;
    if hs == [] {
    } else {
      LowerIsSameName(hs[0].name, name);
      if !Named(hs[0], Lower(name)) {
        var j := LookupIsFirst(hs[1..], name);
        i := j + 1;
        assert forall k | 0 < k < |hs| :: hs[k] == hs[1..][k - 1];
      }
    }
  }

  // ---------- what is kept ----------

  /** `after` lists the headers of `before` at the positions `from`, in order, and
      those are all the positions of headers of another name. */
  ghost predicate RemainsAt(before: seq<Header>, name: string, after: seq<Header>, from: seq<nat>) {
    && |from| == |after|
    && (forall i | 0 <= i < |from| :: from[i] < |before| && after[i] == before[from[i]])
    && (forall i | 0 < i < |from| :: from[i - 1] < from[i])
    && (forall j: nat | j < |before| :: SameName(before[j].name, name) <==> j !in from)
  }

  function Shift(from: seq<nat>): (shifted: seq<nat>)
    ensures |shifted| == |from| && forall i | 0 <= i < |from| :: shifted[i] == from[i] + 1
    ensures forall j: nat :: j in shifted <==> j > 0 && j - 1 in from
  {
    var shifted := seq(|from|, i requires 0 <= i < |from| => from[i] + 1);
    assert forall i | 0 <= i < |from| :: shifted[i] == from[i] + 1;
    shifted
  }

  lemma RemovedInFront(h: Header, hs: seq<Header>, name: string, after: seq<Header>, from: seq<nat>)
    requires RemainsAt(hs, name, after, from) && SameName(h.name, name)
    ensures RemainsAt([h] + hs, name, after, Shift(from))
  {
    var all, shifted := [h] + hs, Shift(from);
    forall i | 0 <= i < |shifted| ensures shifted[i] < |all| && after[i] == all[shifted[i]] {
      assert all[shifted[i]] == hs[from[i]];
    }
    forall j: nat | j < |all| ensures SameName(all[j].name, name) <==> j !in shifted {
      assert j > 0 ==> all[j] == hs[j - 1];
    }
  }

  lemma KeptInFront(h: Header, hs: seq<Header>, name: string, after: seq<Header>, from: seq<nat>)
    requires RemainsAt(hs, name, after, from) && !SameName(h.name, name)
    ensures RemainsAt([h] + hs, name, [h] + after, [0] + Shift(from))
  {
    var all, kept, shifted := [h] + hs, [h] + after, Shift(from);
    var positions := [0] + shifted;
    forall i | 0 <= i < |positions| ensures positions[i] < |all| && kept[i] == all[positions[i]] {
      assert i > 0 ==> positions[i] == from[i - 1] + 1 && kept[i] == after[i - 1];
    }
    forall i | 0 < i < |positions| ensures positions[i - 1] < positions[i] {
      assert i > 1 ==> positions[i - 1] == from[i - 2] + 1 && from[i - 2] < from[i - 1];
    }
    forall j: nat | j < |all| ensures SameName(all[j].name, name) <==> j !in positions {
      assert j > 0 ==> all[j] == hs[j - 1];
      assert j in positions <==> j == 0 || j in shifted;
    }
  }

  /** What removal keeps: every header of another name, with its value, in order. */
  lemma {:induction false} WithoutKeepsOrder(hs: seq<Header>, name: string) returns (from: seq<nat>)
    ensures RemainsAt(hs, name, Without(hs, Lower(name)), from)
  {
    from := [];
    if hs == [] {
    } else {
      var rest := WithoutKeepsOrder(hs[1..], name);
      LowerIsSameName(hs[0].name, name);
      assert [hs[0]] + hs[1..] == hs;
      if Named(hs[0], Lower(name)) {
        RemovedInFront(hs[0], hs[1..], name, Without(hs[1..], Lower(name)), rest);
        from := Shift(rest);
      } else {
        KeptInFront(hs[0], hs[1..], name, Without(hs[1..], Lower(name)), rest);
        from := [0] + Shift(rest);
      }
    }
  }

  /** The headers but the one at `at`. */
  function Except(hs: seq<Header>, at: nat): seq<Header>
    requires at < |hs|
  {
    hs[..at] + hs[at + 1..]
  }

  lemma {:induction false} AssignedAt(hs: seq<Header>, lower: string, value: string) returns (at: nat)
    ensures at < |Assign(hs, lower, value)| && Assign(hs, lower, value)[at] == Header(lower, value)
    ensures Except(Assign(hs, lower, value), at) == Without(hs, lower)
  {
    at := 0;
    if hs == [] {
    } else if !Named(hs[0], lower) {
      var rest := Assign(hs[1..], lower, value);
      var i := AssignedAt(hs[1..], lower, value);
      at := i + 1;
      assert Assign(hs, lower, value) == [hs[0]] + rest;
      assert Except([hs[0]] + rest, at) == [hs[0]] + Except(rest, i);
    }
  }

  lemma RemainingAreOthers(before: seq<Header>, name: string, after: seq<Header>, from: seq<nat>)
    requires RemainsAt(before, name, after, from)
    ensures NoneNamed(after, name)
  {
    forall i | 0 <= i < |after| ensures !SameName(after[i].name, name) {
      assert from[i] in from;
    }
  }

  lemma OnlyAt(hs: seq<Header>, name: string, at: nat)
    requires at < |hs| && SameName(hs[at].name, name) && NoneNamed(Except(hs, at), name)
    ensures OnlyHeader(hs, name, hs[at].value)
  {
    forall j | 0 <= j < |hs| && j != at ensures !SameName(hs[j].name, name) {
      assert hs[j] == Except(hs, at)[if j < at then j else j - 1];
    }
  }

  /** Assignment leaves exactly one header of the name, with the value, and all
      headers of other names with their values, in order. */
  lemma Assigned(hs: seq<Header>, name: string, value: string) returns (at: nat, from: seq<nat>)
    ensures var after := Assign(hs, Lower(name), value);
            && OnlyHeader(after, name, value)
            && at < |after| && after[at] == Header(Lower(name), value)
            && RemainsAt(hs, name, Except(after, at), from)
  {
    var after := Assign(hs, Lower(name), value);
    at := AssignedAt(hs, Lower(name), value);
    from := WithoutKeepsOrder(hs, name);
    LowerTwice(name);
    LowerIsSameName(Lower(name), name);
    RemainingAreOthers(hs, name, Except(after, at), from);
    OnlyAt(after, name, at);
  }

  // ---------- messages ----------

  const RESPONSE_START := "http.response.start"

  /** One message: its type, its headers, and all its other content. */
  datatype Event = Event(kind: string, headers: seq<Header>, content: string)

  predicate IsStart(e: Event) {
    e.kind == RESPONSE_START
  }

  function Starts(es: seq<Event>): nat {
    if es == [] then 0 else Starts(es[..|es| - 1]) + if IsStart(es[|es| - 1]) then 1 else 0
  }

  /** The mutable message that the `send` wrappers pass along. */
  class Message {
    const kind: string
    const content: string
    var headers: seq<Header>

    constructor (e: Event)
      ensures Value() == e
    {
      kind, content, headers := e.kind, e.content, e.headers;
    }

    function Value(): Event
      reads this
    {
      Event(kind, headers, content)
    }
  }

  /** The server's side: what was sent, and whether a response has started. */
  class Connection {
    var sent: seq<Event>
    var responseStarted: bool

    constructor ()
      ensures sent == [] && !responseStarted
    {
      sent, responseStarted := [], false;
    }

    method Send(message: Message)
      modifies this
      ensures sent == old(sent) + [message.Value()]
      ensures responseStarted == (old(responseStarted) || IsStart(message.Value()))
    {
      sent := sent + [message.Value()];
      if message.kind == RESPONSE_START {
        responseStarted := true;
      }
    }
  }
}
