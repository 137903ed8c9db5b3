/** One request through the stack: the generic 500 handler outermost, then the
    correlation-id middleware, then the security-header middleware. The inner
    application is any sequence of messages, after which it may raise. */
module RequestStack {
  import opened Prelude
  import opened Asgi
  import opened CorrelationId
  import opened SecureHeaders

  function StampAll(es: seq<Event>, id: string): seq<Event> {
    seq(|es|, i requires 0 <= i < |es| => Stamped(es[i], id))
  }

  /** What the client gets of an application's messages. */
  function Delivered(path: string, app: seq<Event>, id: string): seq<Event> {
    StampAll(MapSecure(path, app), id)
  }

  lemma DeliveredAppend(path: string, app: seq<Event>, e: Event, id: string)
    ensures Delivered(path, app + [e], id) == Delivered(path, app, id) + [Stamped(ThroughSecure(path, e), id)]
  {
    assert MapSecure(path, app + [e]) == MapSecure(path, app) + [ThroughSecure(path, e)];
  }

  lemma PrefixNext(app: seq<Event>, i: nat)
    requires i < |app|
    ensures app[..i + 1] == app[..i] + [app[i]]
    ensures Starts(app[..i + 1]) == Starts(app[..i]) + if IsStart(app[i]) then 1 else 0
  {
    assert app[..i + 1][..i] == app[..i];
  }

  /** `SecureASGIMiddleware.__call__` for an HTTP scope, its application sending
      `app` message by message. */
  method SecureCall(path: string, app: seq<Event>, send: RequestIdSend)
    modifies send.send
    ensures send.send.sent == old(send.send.sent) + Delivered(path, app, send.id)
    ensures send.send.responseStarted == (old(send.send.responseStarted) || Starts(app) > 0)
  {
    assert app[..|app|] == app;
    if IsDocsPath(path) {
      var csp := new CspSend(send);
      for i := 0 to |app|
        invariant send.send.sent == old(send.send.sent) + Delivered(path, app[..i], send.id)
        invariant send.send.responseStarted == (old(send.send.responseStarted) || Starts(app[..i]) > 0)
      {
        PrefixNext(app, i);
        DeliveredAppend(path, app[..i], app[i], send.id);
        var message := new Message(app[i]);
        csp.Send(message);
      }
    } else {
      for i := 0 to |app|
        invariant send.send.sent == old(send.send.sent) + Delivered(path, app[..i], send.id)
        invariant send.send.responseStarted == (old(send.send.responseStarted) || Starts(app[..i]) > 0)
      {
        PrefixNext(app, i);
        DeliveredAppend(path, app[..i], app[i], send.id);
        var message := new Message(app[i]);
        send.Send(message);
      }
    }
  }

  /** `CorrelationIdMiddleware.__call__`. Other scopes than HTTP pass unchanged. */
  method CorrelationCall(scope: Scope, app: seq<Event>, generated: NonEmpty, connection: Connection)
    modifies scope, connection
    ensures scope.kind != "http" ==> scope.state == old(scope.state) && connection.sent == old(connection.sent) + app
    ensures scope.kind == "http" ==>
              && "correlation_id" in scope.state && scope.state["correlation_id"] != ""
              && ChosenId(scope.headers, generated, scope.state["correlation_id"])
              && scope.state == old(scope.state)["correlation_id" := scope.state["correlation_id"]]
              && connection.sent == old(connection.sent) + Delivered(scope.path, app, scope.state["correlation_id"])
    ensures connection.responseStarted == (old(connection.responseStarted) || Starts(app) > 0)
  {
    if scope.kind != "http" {
      for i := 0 to |app|
        invariant scope.state == old(scope.state)
        invariant connection.sent == old(connection.sent) + app[..i]
        invariant connection.responseStarted == (old(connection.responseStarted) || Starts(app[..i]) > 0)
      {
        PrefixNext(app, i);
        var message := new Message(app[i]);
        connection.Send(message);
      }
      assert app[..|app|] == app;
      return;
    }
    var id := CorrelationIdFromHeaders(scope.headers, generated);
    scope.state := scope.state[CORRELATION_ID_STATE_KEY := id];
    var send := new RequestIdSend(id, connection);
    SecureCall(scope.path, app, send);
  }

  const GENERIC_500_BODY := "Internal Server Error"

  lemma ContentHeaders(rest: seq<Header>)
    requires |rest| == 2 && rest[0].name == "content-length" && rest[1].name == "content-type"
    ensures NoneNamed(rest, "X-Request-ID")
  {
    assert rest[0].name[0] == 'c' && rest[1].name[0] == 'c' && "X-Request-ID"[0] == 'X';
    assert !SameName(rest[0].name, "X-Request-ID") && !SameName(rest[1].name, "X-Request-ID");
  }

  lemma IdInFront(id: string, rest: seq<Header>)
    requires NoneNamed(rest, "X-Request-ID")
    ensures OnlyHeader([Header(REQUEST_ID_HEADER, id)] + rest, "X-Request-ID", id)
  {
    var headers := [Header(REQUEST_ID_HEADER, id)] + rest;
    LowerHeaderNames();
    LowerTwice("X-Request-ID");
    LowerIsSameName(REQUEST_ID_HEADER, "X-Request-ID");
    assert Except(headers, 0) == rest && headers[0] == Header(REQUEST_ID_HEADER, id);
    OnlyAt(headers, "X-Request-ID", 0);
  }

  /** `handle_unhandled_http_exception`: the id of the request goes to the log and,
      unless it is empty, to the response. */
  method HandleUnhandledHttpException(state: map<string, string>) returns (response: Event, logged: Option<string>)
    ensures response.kind == "http.response.start" && response.content == "500"
    ensures logged == if "correlation_id" in state then Some(state["correlation_id"]) else None
    ensures logged.Some? && logged.value != "" ==> OnlyHeader(response.headers, "X-Request-ID", logged.value)
    ensures logged.None? || logged.value == "" ==> NoneNamed(response.headers, "X-Request-ID")
  {
    logged := None;
    if CORRELATION_ID_STATE_KEY in state {
      logged := Some(state[CORRELATION_ID_STATE_KEY]);
    }
    var headers: seq<Header> := [];
    if logged.Some? && logged.value != "" {
      headers := headers + [Header(REQUEST_ID_HEADER, logged.value)];
    }
    var rest := [Header("content-length", "21"), Header("content-type", "text/plain; charset=utf-8")];
    response := Event(RESPONSE_START, headers + rest, "500");
    ContentHeaders(rest);
    if headers == [] {
      assert headers + rest == rest;
    } else {
      assert headers == [Header(REQUEST_ID_HEADER, logged.value)];
      IdInFront(logged.value, rest);
    }
  }

  /** A response start with exactly one `X-Request-ID`, which is `id`. */
  predicate CarriesOnly(e: Event, id: string) {
    OnlyHeader(e.headers, "X-Request-ID", id)
  }

  /** One header is `name: value`, and all headers of other names are as before. */
  ghost predicate Reassigned(before: seq<Header>, name: string, value: string, after: seq<Header>) {
    && OnlyHeader(after, name, value)
    && exists at: nat, from | at < |after| :: SameName(after[at].name, name) && RemainsAt(before, name, Except(after, at), from)
  }

  lemma StampedCarriesId(hs: seq<Header>, id: string)
    ensures Reassigned(hs, "X-Request-ID", id, Assign(hs, REQUEST_ID_HEADER, id))
  {
    LowerHeaderNames();
    var at, from := Assigned(hs, "X-Request-ID", id);
    LowerTwice("X-Request-ID");
    LowerIsSameName(REQUEST_ID_HEADER, "X-Request-ID");
    assert RemainsAt(hs, "X-Request-ID", Except(Assign(hs, REQUEST_ID_HEADER, id), at), from);
  }

  lemma DeliveredCarriesId(path: string, app: seq<Event>, id: string)
    ensures forall i | 0 <= i < |app| && IsStart(Delivered(path, app, id)[i]) :: CarriesOnly(Delivered(path, app, id)[i], id)
  {
    forall i | 0 <= i < |app| && IsStart(Delivered(path, app, id)[i]) ensures CarriesOnly(Delivered(path, app, id)[i], id) {
      StampedCarriesId(ThroughSecure(path, app[i]).headers, id);
    }
  }

  /** The headers of a response start before and after both wrappers: on documentation
      pages the policy is gone, `X-Request-ID` is `id`, and nothing else changed. */
  ghost predicate Wrapped(path: string, before: seq<Header>, id: string, after: seq<Header>) {
    exists between ::
      && (if IsDocsPath(path) then OnlyRemoved(before, "Content-Security-Policy", between) else between == before)
      && Reassigned(between, "X-Request-ID", id, after)
  }

  /** The whole effect of the two wrappers on any stream. */
  lemma DeliveredStream(path: string, app: seq<Event>, id: string)
    ensures |Delivered(path, app, id)| == |app|
    ensures forall i | 0 <= i < |app| ::
              Delivered(path, app, id)[i].kind == app[i].kind && Delivered(path, app, id)[i].content == app[i].content
    ensures forall i | 0 <= i < |app| && app[i].kind != "http.response.start" :: Delivered(path, app, id)[i] == app[i]
    ensures forall i | 0 <= i < |app| && app[i].kind == "http.response.start" ::
              Wrapped(path, app[i].headers, id, Delivered(path, app, id)[i].headers)
  {
    forall i | 0 <= i < |app| && app[i].kind == "http.response.start"
      ensures Wrapped(path, app[i].headers, id, Delivered(path, app, id)[i].headers)
    {
      var between := ThroughSecure(path, app[i]).headers;
      CspRemoved(app[i].headers);
      StampedCarriesId(between, id);
      assert Reassigned(between, "X-Request-ID", id, Delivered(path, app, id)[i].headers);
    }
  }

  lemma {:induction false} DeliveredStarts(path: string, app: seq<Event>, id: string)
    ensures Starts(Delivered(path, app, id)) == Starts(app)
  {
    if app == [] {
    } else {
      var before, e := app[..|app| - 1], app[|app| - 1];
      assert app == before + [e];
      DeliveredStarts(path, before, id);
      DeliveredAppend(path, before, e, id);
      var out := Delivered(path, app, id);
      assert out[..|out| - 1] == Delivered(path, before, id);
    }
  }

  lemma StartsAppend(es: seq<Event>, e: Event)
    ensures Starts(es + [e]) == Starts(es) + if IsStart(e) then 1 else 0
  {
    assert (es + [e])[..|es|] == es;
  }

  /** The stream of an application that raised before it started a response. */
  lemma GenericEnd(path: string, app: seq<Event>, id: string, response: Event, body: Event)
    requires Starts(app) == 0 && IsStart(response) && CarriesOnly(response, id) && !IsStart(body)
    ensures var all := Delivered(path, app, id) + [response] + [body];
            && Starts(all) == 1 && all[|app|] == response && all[|app| + 1] == body
            && forall i | 0 <= i < |all| && IsStart(all[i]) :: CarriesOnly(all[i], id)
  {
    var out := Delivered(path, app, id);
    DeliveredCarriesId(path, app, id);
    DeliveredStarts(path, app, id);
    StartsAppend(out, response);
    StartsAppend(out + [response], body);
  }

  /** One request id end to end. For every header list, every sequence of inner
      messages and an exception behind any of them: each response start that
      reaches the client carries exactly one `X-Request-ID`, equal to the non-empty
      id stored in the request state, on the normal path and on the generic 500;
      and where the application starts at most one response, so does the client
      see at most one, exactly one if the application raised. */
  method Serve(scope: Scope, app: seq<Event>, raises: bool, generated: NonEmpty, connection: Connection)
    requires scope.kind == "http" && connection.sent == [] && !connection.responseStarted
    modifies scope, connection
    ensures "correlation_id" in scope.state && scope.state["correlation_id"] != ""
    ensures ChosenId(scope.headers, generated, scope.state["correlation_id"])
    ensures forall i | 0 <= i < |connection.sent| && connection.sent[i].kind == "http.response.start" ::
              OnlyHeader(connection.sent[i].headers, "X-Request-ID", scope.state["correlation_id"])
    ensures Starts(connection.sent) == if raises && Starts(app) == 0 then 1 else Starts(app)
    ensures Delivered(scope.path, app, scope.state["correlation_id"]) <= connection.sent
    ensures !(raises && Starts(app) == 0) ==> connection.sent == Delivered(scope.path, app, scope.state["correlation_id"])
    ensures raises && Starts(app) == 0 ==>
              && |connection.sent| == |app| + 2
              && connection.sent[|app|].kind == "http.response.start" && connection.sent[|app|].content == "500"
              && connection.sent[|app| + 1] == Event("http.response.body", [], "Internal Server Error")
  {
    CorrelationCall(scope, app, generated, connection);
    ghost var id := scope.state["correlation_id"];
    assert connection.sent == Delivered(scope.path, app, id);
    if raises && !connection.responseStarted {
      var response, logged := HandleUnhandledHttpException(scope.state);
      var start := new Message(response);
      var body := new Message(Event("http.response.body", [], GENERIC_500_BODY));
      connection.Send(start);
      connection.Send(body);
      assert "http.response.body"[14] != RESPONSE_START[14];
      GenericEnd(scope.path, app, id, response, body.Value());
      assert connection.sent == Delivered(scope.path, app, id) + [response] + [body.Value()];
    } else {
      DeliveredCarriesId(scope.path, app, id);
      DeliveredStarts(scope.path, app, id);
    }
  }
}
