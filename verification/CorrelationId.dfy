/** `CorrelationIdMiddleware`: which id a request gets, and where it is written. */
module CorrelationId {
  import opened Prelude
  import opened Asgi

  const REQUEST_ID_HEADER := "x-request-id"
  const CORRELATION_ID_HEADER := "x-correlation-id"
  const CORRELATION_ID_STATE_KEY := "correlation_id"

  /** Whitespace of `str.strip` among the characters of a header. */
  predicate IsSpace(c: char) {
    '\t' <= c <= '\r' || '\U{1C}' <= c <= ' ' || c == '\U{85}' || c == '\U{A0}'
  }

  function StripLeft(s: string): string {
    if s != "" && IsSpace(s[0]) then StripLeft(s[1..]) else s
  }

  function StripRight(s: string): string {
    if s != "" && IsSpace(s[|s| - 1]) then StripRight(s[..|s| - 1]) else s
  }

  function Strip(s: string): string {
    StripRight(StripLeft(s))
  }

  /** The inbound value of one header, stripped; empty if there is none. */
  function Inbound(hs: seq<Header>, lower: string): string {
    match Lookup(hs, lower)
    case Some(value) => Strip(value)
    case None => ""
  }

  predicate Trimmed(s: string) {
    s == "" || (!IsSpace(s[0]) && !IsSpace(s[|s| - 1]))
  }

  lemma {:induction false} StripRightKeepsLeft(s: string)
    requires s == "" || !IsSpace(s[0])
    ensures Trimmed(StripRight(s)) && StripRight(s) <= s
    ensures forall i | |StripRight(s)| <= i < |s| :: IsSpace(s[i])
  {
    if s == "" || !IsSpace(s[|s| - 1]) {
    } else {
      StripRightKeepsLeft(s[..|s| - 1]);
    }
  }

  lemma {:induction false} StripLeftDropsSpaces(s: string) returns (n: nat)
    ensures n <= |s| && StripLeft(s) == s[n..]
    ensures forall i | 0 <= i < n :: IsSpace(s[i])
    ensures StripLeft(s) == "" || !IsSpace(StripLeft(s)[0])
  {
    n := 0;
    if s == "" || !IsSpace(s[0]) {
    } else {
      var m := StripLeftDropsSpaces(s[1..]);
      n := m + 1;
      assert forall i | 0 < i < n :: s[i] == s[1..][i - 1];
      assert s[1..][m..] == s[n..];
    }
  }

  /** A stripped value is the given one without the blanks around it, so it is
      empty exactly when the header is all blank. */
  lemma StripIsExact(s: string) returns (n: nat)
    ensures n + |Strip(s)| <= |s| && Strip(s) == s[n..n + |Strip(s)|] && Trimmed(Strip(s))
    ensures forall i | 0 <= i < |s| && !(n <= i < n + |Strip(s)|) :: IsSpace(s[i])
  {
    n := StripLeftDropsSpaces(s);
    StripRightKeepsLeft(StripLeft(s));
    var l := |Strip(s)|;
    forall i | n + l <= i < |s| ensures IsSpace(s[i]) {
      assert s[i] == s[n..][i - n];
    }
    assert Strip(s) == s[n..][..l];
  }

  // ---------- the id, by header positions ----------

  /** The blanks that `str.strip` takes off a header value. */
  predicate Blank(c: char) {
    c in "\t\n\U{0B}\U{0C}\r\U{1C}\U{1D}\U{1E}\U{1F} \U{85}\U{A0}"
  }

  lemma SpaceIsBlank(c: char)
    ensures IsSpace(c) <==> Blank(c)
  {
    assert Blank(c) <==> c in ['\t', '\n', '\U{0B}', '\U{0C}', '\r', '\U{1C}', '\U{1D}', '\U{1E}', '\U{1F}', ' ', '\U{85}', '\U{A0}'];
  }

  predicate AllBlank(s: string) {
    forall i | 0 <= i < |s| :: Blank(s[i])
  }

  /** `id` is `value` without the blanks around it, and not empty. */
  ghost predicate Core(id: string, value: string) {
    exists a, b | 0 <= a < b <= |value| ::
      && id == value[a..b] && !Blank(value[a]) && !Blank(value[b - 1])
      && AllBlank(value[..a]) && AllBlank(value[b..])
  }

  /** The first header of the name has more than blanks. */
  ghost predicate Usable(headers: seq<Header>, name: string) {
    exists i: nat :: FirstNamed(headers, name, i) && !AllBlank(headers[i].value)
  }

  /** And `id` is what it has. */
  ghost predicate TakenFrom(headers: seq<Header>, name: string, id: string) {
    exists i: nat :: FirstNamed(headers, name, i) && Core(id, headers[i].value)
  }

  /** `id` is the id of a request with these headers: `X-Request-ID` wins when it is
      usable, then `X-Correlation-ID`, and else a generated id stands in. */
  ghost predicate ChosenId(headers: seq<Header>, generated: string, id: string) {
    if Usable(headers, "X-Request-ID") then TakenFrom(headers, "X-Request-ID", id)
    else if Usable(headers, "X-Correlation-ID") then TakenFrom(headers, "X-Correlation-ID", id)
    else id == generated
  }

  lemma StripIsCore(value: string)
    ensures Strip(value) == "" <==> AllBlank(value)
    ensures Strip(value) != "" ==> Core(Strip(value), value)
  {
    var n := StripIsExact(value);
    var b := n + |Strip(value)|;
    forall c: char ensures IsSpace(c) <==> Blank(c) {
      SpaceIsBlank(c);
    }
    if Strip(value) != "" {
      assert Strip(value)[0] == value[n] && Strip(value)[b - n - 1] == value[b - 1];
    }
  }

  /** What a lookup and a strip read: the first header of the name. */
  lemma InboundIsFirst(headers: seq<Header>, name: string)
    ensures Inbound(headers, Lower(name)) != "" <==> Usable(headers, name)
    ensures Usable(headers, name) ==> TakenFrom(headers, name, Inbound(headers, Lower(name)))
  {
    var i := LookupIsFirst(headers, name);
    if Lookup(headers, Lower(name)).Some? {
      StripIsCore(headers[i].value);
      assert forall j: nat | FirstNamed(headers, name, j) :: j == i;
    }
  }

  lemma LowerHeaderNames()
    ensures Lower("X-Request-ID") == REQUEST_ID_HEADER && Lower("X-Correlation-ID") == CORRELATION_ID_HEADER
  {
  }

  /** `_correlation_id_from_headers`; `generated` is the UUID it falls back to. */
  method CorrelationIdFromHeaders(headers: seq<Header>, generated: NonEmpty) returns (id: NonEmpty)
    ensures ChosenId(headers, generated, id)
  {
    LowerHeaderNames();
    InboundIsFirst(headers, "X-Request-ID");
    InboundIsFirst(headers, "X-Correlation-ID");
    var names := [REQUEST_ID_HEADER, CORRELATION_ID_HEADER];
    for i := 0 to |names|
      invariant forall j | 0 <= j < i :: Inbound(headers, names[j]) == ""
    {
      assert names[0] == REQUEST_ID_HEADER && names[1] == CORRELATION_ID_HEADER;
      var value := Inbound(headers, names[i]);
      if value != "" {
        return value;
      }
    }
    assert names[0] == REQUEST_ID_HEADER && names[1] == CORRELATION_ID_HEADER;
    return generated;
  }

  /** The response start with the id as its only `X-Request-ID`. */
  function Stamped(e: Event, id: string): Event {
    if IsStart(e) then e.(headers := Assign(e.headers, REQUEST_ID_HEADER, id)) else e
  }

  /** `send_with_request_id`, around the connection's own `send`. */
  class RequestIdSend {
    const id: string
    const send: Connection

    constructor (id: string, send: Connection)
      ensures this.id == id && this.send == send
    {
      this.id, this.send := id, send;
    }

    method Send(message: Message)
      modifies message, send
      ensures message.Value() == Stamped(old(message.Value()), id)
      ensures send.sent == old(send.sent) + [Stamped(old(message.Value()), id)]
      ensures send.responseStarted == (old(send.responseStarted) || message.kind == RESPONSE_START)
    {
      if message.kind == RESPONSE_START {
        message.headers := Assign(message.headers, REQUEST_ID_HEADER, id);
      }
      send.Send(message);
    }
  }

  /** A connection scope. `state` is what `request.state` shows. */
  class Scope {
    const kind: string
    const path: string
    const headers: seq<Header>
    var state: map<string, string>

    constructor (kind: string, path: string, headers: seq<Header>, state: map<string, string>)
      ensures this.kind == kind && this.path == path && this.headers == headers && this.state == state
    {
      this.kind, this.path, this.headers, this.state := kind, path, headers, state;
    }
  }
}
