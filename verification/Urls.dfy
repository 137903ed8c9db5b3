/** Assembling a connection URL from its components and splitting it again at
    its structural delimiters (section 3 of RFC 3986). */
module Urls {
  import opened Prelude

  /** `userinfo` is still percent-encoded here. */
  datatype Url = Url(scheme: string, userinfo: Option<string>, host: string, port: string,
                     path: string, query: Option<string>)

  const AUTHORITY_STOPS: set<char> := {'/', '?', '#'}
  const PATH_STOPS: set<char> := {'?', '#'}

  /** The general delimiters of section 2.2 of RFC 3986. */
  const DELIMITERS: set<char> := {':', '/', '?', '#', '[', ']', '@'}

  /** What may stand between the brackets of an address literal. */
  const LITERAL_STOPS: set<char> := DELIMITERS - {':'}

  /** A host of section 3.2.2: a name or address without delimiters, or an address
      literal in brackets, in which colons may stand. */
  predicate CleanHost(host: string) {
    || Free(host, DELIMITERS)
    || (|host| >= 2 && host == "[" + host[1..|host| - 1] + "]" && Free(host[1..|host| - 1], LITERAL_STOPS))
  }

  // ---------- building ----------

  function Authority(u: Url): string {
    (if u.userinfo.Some? then u.userinfo.value + "@" else "") + (u.host + ":" + u.port)
  }

  function Tail(u: Url): string {
    "/" + (u.path + (if u.query.Some? then "?" + u.query.value else ""))
  }

  function Build(u: Url): string {
    u.scheme + ("://" + (Authority(u) + Tail(u)))
  }

  // ---------- splitting ----------

  datatype Cut = Cut(head: string, rest: string)

  /** Cuts in front of the first stop, or at the end. */
  function CutFirst(t: string, stops: set<char>): (cut: Cut)
    ensures t == cut.head + cut.rest && Free(cut.head, stops)
    ensures cut.rest == "" || cut.rest[0] in stops
  {
    if t == "" || t[0] in stops then Cut("", t) else
      var cut := CutFirst(t[1..], stops);
      FreeConcat([t[0]], cut.head, stops);
      Assoc([t[0]], cut.head, cut.rest);
      assert t == [t[0]] + t[1..];
      Cut([t[0]] + cut.head, cut.rest)
  }

  /** Cuts at the last `c`, dropping it. */
  function CutLast(t: string, c: char): (cut: Option<Cut>)
    ensures cut.Some? ==> t == cut.value.head + ([c] + cut.value.rest) && Free(cut.value.rest, {c})
    ensures cut.None? ==> Free(t, {c})
  {
    if t == "" then None else
      var n := |t| - 1;
      assert t == t[..n] + [t[n]];
      if t[n] == c then Some(Cut(t[..n], "")) else
        match CutLast(t[..n], c)
        case None =>
          FreeConcat(t[..n], [t[n]], {c});
          None
        case Some(cut) =>
          FreeConcat(cut.rest, [t[n]], {c});
          Some(Cut(cut.head, cut.rest + [t[n]]))
  }

  /** The user information, if any, and the host with its port. */
  datatype Parts = Parts(userinfo: Option<string>, hostPort: string)

  function SplitUserinfo(authority: string): (parts: Parts)
    ensures Free(parts.hostPort, {'@'})
    ensures authority == (if parts.userinfo.Some? then parts.userinfo.value + "@" else "") + parts.hostPort
  {
    match CutLast(authority, '@')
    case None => Parts(None, authority)
    case Some(cut) => Parts(Some(cut.head), cut.rest)
  }

  datatype HostPort = HostPort(host: string, port: string)

  /** The host that is bracketed around `literal`. */
  function Bracketed(literal: string): (host: string)
    ensures CleanHost(host) <== Free(literal, LITERAL_STOPS)
  {
    var host := "[" + literal + "]";
    assert host[1..|host| - 1] == literal;
    host
  }

  /** An address literal ends behind its bracket, any other host at the first colon. */
  function SplitHostPort(t: string): (r: Option<HostPort>)
    ensures r.Some? ==> CleanHost(r.value.host)
  {
    if "[" <= t then
      var cut := CutFirst(t[1..], LITERAL_STOPS);
      if "]:" <= cut.rest then Some(HostPort(Bracketed(cut.head), cut.rest[2..])) else None
    else
      var cut := CutFirst(t, DELIMITERS);
      if ":" <= cut.rest then Some(HostPort(cut.head, cut.rest[1..])) else None
  }

  datatype PathQuery = PathQuery(path: string, query: Option<string>)

  function SplitTail(t: string): (r: Option<PathQuery>)
    ensures r.Some? ==> Free(r.value.path, PATH_STOPS)
    ensures r.Some? ==> t == "/" + (r.value.path + (if r.value.query.Some? then "?" + r.value.query.value else ""))
  {
    if t == "" || t[0] != '/' then None else
      var cut := CutFirst(t[1..], PATH_STOPS);
      if cut.rest == "" then Some(PathQuery(cut.head, None))
      else if cut.rest[0] == '?' && Free(cut.rest[1..], {'#'}) then
        Some(PathQuery(cut.head, Some(cut.rest[1..])))
      else None
  }

  function ParseAfterScheme(scheme: string, t: string): Option<Url> {
    var cut := CutFirst(t, AUTHORITY_STOPS);
    var parts := SplitUserinfo(cut.head);
    var at :- SplitHostPort(parts.hostPort);
    var tail :- SplitTail(cut.rest);
    Some(Url(scheme, parts.userinfo, at.host, at.port, tail.path, tail.query))
  }

  function Parse(t: string): Option<Url> {
    var cut := CutFirst(t, {':'});
    if "://" <= cut.rest then ParseAfterScheme(cut.head, cut.rest[3..]) else None
  }

  // ---------- splitting undoes building ----------

  /** There is one way to cut in front of the first stop. */
  lemma {:induction false} CutFirstAt(head: string, rest: string, stops: set<char>)
    requires Free(head, stops)
    requires rest == "" || rest[0] in stops
    ensures CutFirst(head + rest, stops) == Cut(head, rest)
  {
    if head == "" {
      assert head + rest == rest;
    } else {
      assert (head + rest)[1..] == head[1..] + rest;
      CutFirstAt(head[1..], rest, stops);
      assert [head[0]] + head[1..] == head;
    }
  }

  lemma {:induction false} CutLastAt(head: string, c: char, rest: string)
    requires Free(rest, {c})
    ensures CutLast(head + ([c] + rest), c) == Some(Cut(head, rest))
  {
    var t := head + ([c] + rest);
    if rest == "" {
      assert t[..|t| - 1] == head;
    } else {
      var most, last := rest[..|rest| - 1], rest[|rest| - 1];
      assert t[|t| - 1] == last;
      assert t[..|t| - 1] == head + ([c] + most);
      CutLastAt(head, c, most);
      assert most + [last] == rest;
    }
  }

  lemma CutLastNone(t: string, c: char)
    requires Free(t, {c})
    ensures CutLast(t, c) == None
  {
    var cut := CutLast(t, c);
    assert [c][0] == c;
    if cut.Some? {
      FreeConcat(cut.value.head, [c] + cut.value.rest, {c});
      FreeConcat([c], cut.value.rest, {c});
      assert false;
    }
  }

  /** What `build` takes for granted of the components it is given. */
  predicate Buildable(u: Url) {
    && Free(u.scheme, {':'})
    && (u.userinfo.Some? ==> Free(u.userinfo.value, AUTHORITY_STOPS))
    && Free(u.port, DELIMITERS)
    && (u.query.Some? ==> Free(u.query.value, {'#'}))
  }

  /** What it does not check: the host and the path are inserted as they are. */
  predicate Clean(u: Url) {
    CleanHost(u.host) && Free(u.path, PATH_STOPS)
  }

  lemma DelimitersAre(c: char)
    ensures c in DELIMITERS <==> c in ":/?#[]@"
    ensures c in LITERAL_STOPS <==> c in "/?#[]@"
  {
    var all, inner := ":/?#[]@", "/?#[]@";
    assert all[0] == ':' && all[1..] == inner;
    assert inner[0] == '/' && inner[1] == '?' && inner[2] == '#' && inner[3] == '[' && inner[4] == ']' && inner[5] == '@';
  }

  /** The condition on a host, with its characters written out. */
  lemma CleanHostIs(host: string)
    ensures CleanHost(host) <==>
            || (forall i | 0 <= i < |host| :: host[i] !in ":/?#[]@")
            || (exists literal :: host == "[" + literal + "]" && forall i | 0 <= i < |literal| :: literal[i] !in "/?#[]@")
  {
    forall c: char ensures c in DELIMITERS <==> c in ":/?#[]@" {
      DelimitersAre(c);
    }
    forall c: char ensures c in LITERAL_STOPS <==> c in "/?#[]@" {
      DelimitersAre(c);
    }
    if CleanHost(host) && !Free(host, DELIMITERS) {
      var literal := host[1..|host| - 1];
      assert host == "[" + literal + "]" && forall i | 0 <= i < |literal| :: literal[i] !in "/?#[]@";
    }
    if exists literal :: host == "[" + literal + "]" && forall i | 0 <= i < |literal| :: literal[i] !in "/?#[]@" {
      var literal :| host == "[" + literal + "]" && forall i | 0 <= i < |literal| :: literal[i] !in "/?#[]@";
      assert host == Bracketed(literal) && Free(literal, LITERAL_STOPS);
    }
  }

  lemma FreeSubset(t: string, fewer: set<char>, more: set<char>)
    requires Free(t, more) && fewer <= more
    ensures Free(t, fewer)
  {
  }

  lemma SplitBracketed(literal: string, port: string)
    requires Free(literal, LITERAL_STOPS)
    ensures SplitHostPort(Bracketed(literal) + ":" + port) == Some(HostPort(Bracketed(literal), port))
  {
    var t := Bracketed(literal) + ":" + port;
    assert t[1..] == literal + ("]:" + port);
    CutFirstAt(literal, "]:" + port, LITERAL_STOPS);
    Take("]:", port);
  }

  lemma SplitNamed(host: string, port: string)
    requires Free(host, DELIMITERS)
    ensures SplitHostPort(host + ":" + port) == Some(HostPort(host, port))
  {
    var t := host + ":" + port;
    assert t[0] == if host == "" then ':' else host[0];
    Assoc(host, ":", port);
    CutFirstAt(host, ":" + port, DELIMITERS);
    Take(":", port);
  }

  lemma SplitBuiltHostPort(host: string, port: string)
    requires CleanHost(host)
    ensures SplitHostPort(host + ":" + port) == Some(HostPort(host, port))
  {
    if Free(host, DELIMITERS) {
      SplitNamed(host, port);
    } else {
      var literal := host[1..|host| - 1];
      SplitBracketed(literal, port);
    }
  }

  lemma CleanHostFree(host: string, stops: set<char>)
    requires CleanHost(host) && stops <= {'/', '?', '#', '@'}
    ensures Free(host, stops)
  {
    if Free(host, DELIMITERS) {
      FreeSubset(host, stops, DELIMITERS);
    } else {
      var literal := host[1..|host| - 1];
      FreeSubset(literal, stops, LITERAL_STOPS);
      FreeConcat("[", literal, stops);
      FreeConcat("[" + literal, "]", stops);
    }
  }

  lemma HostPortFree(host: string, port: string, stops: set<char>)
    requires CleanHost(host) && Free(port, DELIMITERS) && stops <= {'/', '?', '#', '@'}
    ensures Free(host + ":" + port, stops)
  {
    CleanHostFree(host, stops);
    FreeSubset(port, stops, DELIMITERS);
    FreeConcat(host, ":", stops);
    FreeConcat(host + ":", port, stops);
  }

  lemma SplitBuiltAuthority(u: Url)
    requires Buildable(u) && Clean(u)
    ensures Free(Authority(u), AUTHORITY_STOPS)
    ensures SplitUserinfo(Authority(u)) == Parts(u.userinfo, u.host + ":" + u.port)
  {
    var hostPort := u.host + ":" + u.port;
    HostPortFree(u.host, u.port, AUTHORITY_STOPS);
    HostPortFree(u.host, u.port, {'@'});
    if u.userinfo.Some? {
      var userinfo := u.userinfo.value;
      CutLastAt(userinfo, '@', hostPort);
      Assoc(userinfo, "@", hostPort);
      FreeConcat(userinfo, "@", AUTHORITY_STOPS);
      FreeConcat(userinfo + "@", hostPort, AUTHORITY_STOPS);
    } else {
      assert Authority(u) == hostPort;
      CutLastNone(hostPort, '@');
    }
  }

  lemma SplitBuiltTail(u: Url)
    requires Buildable(u) && Clean(u)
    ensures SplitTail(Tail(u)) == Some(PathQuery(u.path, u.query))
  {
    var query := if u.query.Some? then "?" + u.query.value else "";
    Take("/", u.path + query);
    CutFirstAt(u.path, query, PATH_STOPS);
    if u.query.Some? {
      Take("?", u.query.value);
      assert query[0] == '?';
    }
  }

  lemma ParseBuilt(u: Url)
    requires Buildable(u) && Clean(u)
    ensures Parse(Build(u)) == Some(u)
  {
    var rest := Authority(u) + Tail(u);
    CutFirstAt(u.scheme, "://" + rest, {':'});
    Take("://", rest);
    SplitBuiltAuthority(u);
    CutFirstAt(Authority(u), Tail(u), AUTHORITY_STOPS);
    SplitBuiltHostPort(u.host, u.port);
    SplitBuiltTail(u);
  }

  /** Whatever the text, the host and path read from it are clean. */
  lemma ParsedIsClean(t: string)
    requires Parse(t).Some?
    ensures Clean(Parse(t).value)
  {
  }

  lemma Behind(literal: string, t: string)
    requires literal <= t
    ensures t == literal + t[|literal|..]
  {
  }

  lemma Regroup(open: string, literal: string, close: string, colon: string, port: string)
    ensures open + (literal + ((close + colon) + port)) == ((open + literal) + close) + colon + port
  {
  }

  lemma LiteralParsed(t: string, cut: Cut)
    requires "[" <= t && t[1..] == cut.head + cut.rest && "]:" <= cut.rest
    ensures t == Bracketed(cut.head) + ":" + cut.rest[2..]
  {
    Behind("[", t);
    Behind("]:", cut.rest);
    assert "]:" == "]" + ":";
    Regroup("[", cut.head, "]", ":", cut.rest[2..]);
  }

  lemma NameParsed(t: string, cut: Cut)
    requires t == cut.head + cut.rest && ":" <= cut.rest
    ensures t == cut.head + ":" + cut.rest[1..]
  {
    Behind(":", cut.rest);
    Assoc(cut.head, ":", cut.rest[1..]);
  }

  lemma HostPortParsed(t: string)
    requires SplitHostPort(t).Some?
    ensures var at := SplitHostPort(t).value;
            t == at.host + ":" + at.port
  {
    if "[" <= t {
      LiteralParsed(t, CutFirst(t[1..], LITERAL_STOPS));
    } else {
      NameParsed(t, CutFirst(t, DELIMITERS));
    }
  }

  lemma AuthorityParsed(scheme: string, t: string)
    requires ParseAfterScheme(scheme, t).Some?
    ensures var u := ParseAfterScheme(scheme, t).value;
            u.scheme == scheme && Authority(u) + Tail(u) == t
  {
    var cut := CutFirst(t, AUTHORITY_STOPS);
    var parts := SplitUserinfo(cut.head);
    var at := SplitHostPort(parts.hostPort).value;
    var tail := SplitTail(cut.rest).value;
    HostPortParsed(parts.hostPort);
    var u := Url(scheme, parts.userinfo, at.host, at.port, tail.path, tail.query);
    assert Authority(u) == cut.head;
    assert Tail(u) == cut.rest;
  }

  lemma BuiltFrom(u: Url, t: string, cut: Cut, rest: string)
    requires t == cut.head + cut.rest && "://" <= cut.rest && rest == cut.rest[3..]
    requires u.scheme == cut.head && Authority(u) + Tail(u) == rest
    ensures Build(u) == t
  {
    Behind("://", cut.rest);
  }

  /** Building undoes splitting: no character of a text is lost. */
  lemma BuildParsed(t: string)
    requires Parse(t).Some?
    ensures Build(Parse(t).value) == t
  {
    var cut := CutFirst(t, {':'});
    var rest := cut.rest[3..];
    AuthorityParsed(cut.head, rest);
    BuiltFrom(ParseAfterScheme(cut.head, rest).value, t, cut, rest);
  }

  /** A built URL is read back exactly when its host and path were clean. */
  lemma RoundTrip(u: Url)
    requires Buildable(u)
    ensures Parse(Build(u)) == Some(u) <==> Clean(u)
  {
    if Clean(u) {
      ParseBuilt(u);
    }
    if Parse(Build(u)) == Some(u) {
      ParsedIsClean(Build(u));
    }
  }

  /** An address with colons comes back only in brackets. */
  lemma ColonsNeedBrackets(address: string)
    requires Free(address, LITERAL_STOPS) && !Free(address, {':'})
    ensures !CleanHost(address) && CleanHost(Bracketed(address))
  {
    assert address[0] != '[';
  }

  lemma FirstIsShortest(a: string, x: string, b: string, y: string, c: char)
    requires a + ([c] + x) == b + ([c] + y)
    requires Free(a, {c}) && |b| <= |a|
    ensures a == b
  {
    var text := a + ([c] + x);
    assert text[..|a|] == a && text[..|b|] == b;
    assert forall i | 0 <= i < |a| :: text[i] == a[i];
    assert text[|b|] == c;
  }

  lemma SameHead(a: string, x: string, b: string, y: string)
    requires a + x == b + y && |a| == |b|
    ensures a == b && x == y
  {
    Take(a, x);
    Take(b, y);
  }

  lemma SameUserinfo(u: Url, v: Url)
    requires Authority(u) + Tail(u) == Authority(v) + Tail(v)
    requires u.port == v.port && u.query == v.query
    requires u.userinfo.Some? <==> v.userinfo.Some?
    requires u.userinfo.Some? ==> Free(u.userinfo.value, {'@'})
    requires |v.host| >= |u.host| && |v.path| >= |u.path|
    ensures u.userinfo == v.userinfo
  {
    if u.userinfo.Some? {
      var x, y := u.host + ":" + u.port + Tail(u), v.host + ":" + v.port + Tail(v);
      var a, b := u.userinfo.value, v.userinfo.value;
      assert Authority(u) + Tail(u) == a + (['@'] + x);
      assert Authority(v) + Tail(v) == b + (['@'] + y);
      FirstIsShortest(a, x, b, y, '@');
    }
  }

  /** One text in front of `x` and `y`, filled in twice around the same pieces. */
  lemma SameFields(host: string, path: string, host': string, path': string, port: string, query: string)
    requires host + (port + (path + query)) == host' + (port + (path' + query))
    requires |host'| >= |host| && |path'| >= |path|
    ensures host == host' && path == path'
  {
    SameHead(host, port + (path + query), host', port + (path' + query));
    Cancel(port, path + query, path' + query);
    SameHead(path, query, path', query);
  }

  /** `Build`, piece by piece. */
  function FromHost(u: Url): string {
    u.host + ((":" + u.port + "/") + (u.path + (if u.query.Some? then "?" + u.query.value else "")))
  }

  lemma BuiltAs(u: Url)
    ensures Authority(u) + Tail(u) == (if u.userinfo.Some? then u.userinfo.value + "@" else "") + FromHost(u)
  {
  }

  /** Two ways to fill in the same text around a known user information are one, if
      neither host nor path got shorter. */
  lemma SamePlaces(u: Url, v: Url)
    requires Build(u) == Build(v)
    requires u.scheme == v.scheme && u.port == v.port && u.query == v.query
    requires u.userinfo.Some? <==> v.userinfo.Some?
    requires u.userinfo.Some? ==> Free(u.userinfo.value, {'@'})
    requires |v.host| >= |u.host| && |v.path| >= |u.path|
    ensures u == v
  {
    Cancel(u.scheme, "://" + (Authority(u) + Tail(u)), "://" + (Authority(v) + Tail(v)));
    Cancel("://", Authority(u) + Tail(u), Authority(v) + Tail(v));
    SameUserinfo(u, v);
    BuiltAs(u);
    BuiltAs(v);
    Cancel(if u.userinfo.Some? then u.userinfo.value + "@" else "", FromHost(u), FromHost(v));
    SameFields(u.host, u.path, v.host, v.path, ":" + u.port + "/", if u.query.Some? then "?" + u.query.value else "");
  }
}
