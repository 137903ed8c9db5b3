/** `SecureASGIMiddleware`: documentation pages lose `Content-Security-Policy`. */
module SecureHeaders {
  import opened Prelude
  import opened Asgi
  import opened CorrelationId
  import Urls

  const DOCS_PATH_PREFIXES := ["/docs", "/redoc"]
  const CSP_HEADER := "content-security-policy"

  /** `_is_docs_path`. */
  predicate IsDocsPath(path: string) {
    exists i | 0 <= i < |DOCS_PATH_PREFIXES| :: path == DOCS_PATH_PREFIXES[i] || DOCS_PATH_PREFIXES[i] + "/" <= path
  }

  lemma SegmentOfPath(path: string, segment: string)
    requires Free(segment, {'/'}) && (path == "/" + segment || "/" + segment + "/" <= path)
    ensures path[0] == '/' && Urls.CutFirst(path[1..], {'/'}).head == segment
  {
    var rest := path[|segment| + 1..];
    assert path[1..] == segment + rest;
    assert rest != "" ==> rest[0] == path[|segment| + 1] == ("/" + segment + "/")[|segment| + 1];
    Urls.CutFirstAt(segment, rest, {'/'});
  }

  lemma PathOfSegment(path: string, segment: string)
    requires path != "" && path[0] == '/' && Urls.CutFirst(path[1..], {'/'}).head == segment
    ensures path == "/" + segment || "/" + segment + "/" <= path
  {
    var rest := Urls.CutFirst(path[1..], {'/'}).rest;
    assert path == "/" + path[1..];
    Assoc("/", segment, rest);
    if rest != "" {
      assert rest == "/" + rest[1..];
      Assoc("/" + segment, "/", rest[1..]);
    }
  }

  lemma PathUnder(path: string, segment: string)
    requires Free(segment, {'/'})
    ensures (path == "/" + segment || "/" + segment + "/" <= path) <==>
            path != "" && path[0] == '/' && Urls.CutFirst(path[1..], {'/'}).head == segment
  {
    if path == "/" + segment || "/" + segment + "/" <= path {
      SegmentOfPath(path, segment);
    }
    if path != "" && path[0] == '/' && Urls.CutFirst(path[1..], {'/'}).head == segment {
      PathOfSegment(path, segment);
    }
  }

  /** The exemption ends at segment boundaries: it is decided by the first path
      segment alone, which is `docs` or `redoc`. */
  lemma DocsPathByFirstSegment(path: string)
    ensures IsDocsPath(path) <==>
            path != "" && path[0] == '/' && Urls.CutFirst(path[1..], {'/'}).head in ["docs", "redoc"]
  {
    assert DOCS_PATH_PREFIXES[0] == "/" + "docs" && DOCS_PATH_PREFIXES[1] == "/" + "redoc";
    PathUnder(path, "docs");
    PathUnder(path, "redoc");
  }

  function WithoutCsp(e: Event): Event {
    if IsStart(e) then e.(headers := Without(e.headers, CSP_HEADER)) else e
  }

  /** `send_without_csp`, around the outer middleware's `send`. */
  class CspSend {
    const send: RequestIdSend

    constructor (send: RequestIdSend)
      ensures this.send == send
    {
      this.send := send;
    }

    method Send(message: Message)
      modifies message, send.send
      ensures send.send.sent == old(send.send.sent) + [Stamped(WithoutCsp(old(message.Value())), send.id)]
      ensures send.send.responseStarted == (old(send.send.responseStarted) || message.kind == RESPONSE_START)
    {
      if message.kind == RESPONSE_START {
        message.headers := Without(message.headers, CSP_HEADER);
      }
      send.Send(message);
    }
  }

  function ThroughSecure(path: string, e: Event): Event {
    if IsDocsPath(path) then WithoutCsp(e) else e
  }

  function MapSecure(path: string, es: seq<Event>): seq<Event> {
    seq(|es|, i requires 0 <= i < |es| => ThroughSecure(path, es[i]))
  }

  /** The headers of one name are gone, in every spelling; all others are left, with
      their values, in order. */
  ghost predicate OnlyRemoved(before: seq<Header>, name: string, after: seq<Header>) {
    NoneNamed(after, name) && exists from :: RemainsAt(before, name, after, from)
  }

  lemma CspLower()
    ensures Lower("Content-Security-Policy") == CSP_HEADER
  {
  }

  lemma CspRemoved(hs: seq<Header>)
    ensures OnlyRemoved(hs, "Content-Security-Policy", Without(hs, CSP_HEADER))
  {
    CspLower();
    var from := WithoutKeepsOrder(hs, "Content-Security-Policy");
    RemainingAreOthers(hs, "Content-Security-Policy", Without(hs, CSP_HEADER), from);
  }

  /** For every stream of messages: number, order and all content but headers are
      kept. On a documentation page no case variant of the policy survives on a
      response start, and every other header keeps value and relative order; on
      any other path, and on any other message, nothing changes. */
  lemma DocsExemption(path: string, es: seq<Event>)
    ensures |MapSecure(path, es)| == |es|
    ensures forall i | 0 <= i < |es| ::
              MapSecure(path, es)[i].kind == es[i].kind && MapSecure(path, es)[i].content == es[i].content
    ensures !IsDocsPath(path) ==> MapSecure(path, es) == es
    ensures forall i | 0 <= i < |es| && es[i].kind != "http.response.start" :: MapSecure(path, es)[i] == es[i]
    ensures IsDocsPath(path) ==>
              forall i | 0 <= i < |es| && es[i].kind == "http.response.start" ::
                OnlyRemoved(es[i].headers, "Content-Security-Policy", MapSecure(path, es)[i].headers)
  {
    forall i | 0 <= i < |es| && es[i].kind == "http.response.start" && IsDocsPath(path)
      ensures OnlyRemoved(es[i].headers, "Content-Security-Policy", MapSecure(path, es)[i].headers)
    {
      CspRemoved(es[i].headers);
    }
  }
}
