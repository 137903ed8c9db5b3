/** `RedisConfig.DSN`. */
module RedisUrl {
  import opened Prelude
  import opened Urls
  import opened PercentEncoding
  import Decimal

  datatype Config = Config(useTls: bool, host: string, port: nat, db: nat, password: Option<string>)

  function SchemeOf(useTls: bool): string {
    if useTls then "rediss" else "redis"
  }

  function Components(c: Config): Url {
    Url(SchemeOf(c.useTls),
        if c.password.Some? && c.password.value != "" then Some(":" + Quote(c.password.value)) else None,
        c.host, Decimal.Print(c.port), Decimal.Print(c.db), None)
  }

  function Dsn(c: Config): string {
    Build(Components(c))
  }

  /** The whole URL: `rediss` for TLS, the password behind an empty user name. */
  lemma DsnText(c: Config)
    ensures Dsn(c) ==
            (if c.useTls then "rediss://" else "redis://") +
            ((if c.password.Some? && c.password.value != "" then ":" + Quote(c.password.value) + "@" else "") +
             (c.host + ":" + Decimal.Print(c.port) + ("/" + Decimal.Print(c.db))))
  {
    var u := Components(c);
    var scheme := SchemeOf(c.useTls);
    var userinfo := if c.password.Some? && c.password.value != "" then ":" + Quote(c.password.value) + "@" else "";
    assert (if c.useTls then "rediss://" else "redis://") == scheme + "://";
    assert Tail(u) == "/" + Decimal.Print(c.db);
    Assoc(scheme, "://", Authority(u) + Tail(u));
    Assoc(userinfo, c.host + ":" + Decimal.Print(c.port), Tail(u));
    Assoc(c.host, ":", Decimal.Print(c.port));
  }

  /** An empty password authenticates nobody: it reads back as no password. */
  function Effective(c: Config): Config {
    if c.password == Some("") then c.(password := None) else c
  }

  function ReadPassword(userinfo: Option<string>): Option<Option<string>> {
    if userinfo.None? then Some(None)
    else if ":" <= userinfo.value then
      var password :- Unquote(userinfo.value[1..]);
      Some(Some(password))
    else None
  }

  function FromComponents(u: Url): (c: Option<Config>)
    ensures c.Some? ==> c.value.host == u.host
  {
    var password :- ReadPassword(u.userinfo);
    var port :- Decimal.Read(u.port);
    var db :- Decimal.Read(u.path);
    if u.query.None? && u.scheme in {"redis", "rediss"} then
      Some(Config(u.scheme == "rediss", u.host, port, db, password))
    else None
  }

  /** What a client that splits the URL and decodes the password connects with. */
  function Read(t: string): Option<Config> {
    var u :- Parse(t);
    FromComponents(u)
  }

  lemma ComponentsBuildable(c: Config)
    ensures Buildable(Components(c))
    ensures Free(Components(c).path, PATH_STOPS)
    ensures ReadPassword(Components(c).userinfo) == Some(Effective(c).password)
  {
    Decimal.DigitsFree(c.port, DELIMITERS);
    Decimal.DigitsFree(c.db, PATH_STOPS);
    if Components(c).userinfo.Some? {
      var password := Quote(c.password.value);
      QuotedFree(c.password.value, AUTHORITY_STOPS);
      FreeConcat(":", password, AUTHORITY_STOPS);
      UnquoteQuote(c.password.value);
      Take(":", password);
    }
  }

  lemma ReadBuilt(t: string, c: Config)
    requires Parse(t) == Some(Components(c))
    ensures Read(t) == Some(Effective(c))
  {
    ComponentsBuildable(c);
    Decimal.ReadPrint(c.port);
    Decimal.ReadPrint(c.db);
  }

  /** Scheme, host, port, database index and any non-empty password come back,
      exactly when the host holds no delimiter or is an address literal in brackets. */
  lemma RoundTrip(c: Config)
    ensures Read(Dsn(c)) == Some(Effective(c)) <==> CleanHost(c.host)
  {
    if CleanHost(c.host) {
      ComponentsBuildable(c);
      Urls.RoundTrip(Components(c));
      ReadBuilt(Dsn(c), c);
    }
    if Read(Dsn(c)) == Some(Effective(c)) {
      ParsedIsClean(Dsn(c));
    }
  }

  /** A host like `::1` or `cache:6380` is lost; in brackets an address comes back. */
  lemma ColonsNeedBrackets(c: Config)
    requires Free(c.host, LITERAL_STOPS) && !Free(c.host, {':'})
    ensures Read(Dsn(c)) != Some(Effective(c))
    ensures var bracketed := c.(host := Bracketed(c.host));
            Read(Dsn(bracketed)) == Some(Effective(bracketed))
  {
    Urls.ColonsNeedBrackets(c.host);
    RoundTrip(c);
    RoundTrip(c.(host := Bracketed(c.host)));
  }

  // ---------- a consumer that also decodes the host ----------

  function ReadDecoded(t: string): Option<Config> {
    var c :- Read(t);
    var host :- Unquote(c.host);
    Some(c.(host := host))
  }

  lemma PartsOf(u: Url)
    requires FromComponents(u).Some?
    ensures var c := FromComponents(u).value;
            && u.scheme == SchemeOf(c.useTls) && u.host == c.host && u.query.None?
            && u.port == Decimal.Print(c.port) && u.path == Decimal.Print(c.db)
            && (u.userinfo.Some? <==> c.password.Some?)
  {
  }

  lemma UserinfoFree(c: Config, userinfo: string)
    requires Components(c).userinfo == Some(userinfo)
    ensures Free(userinfo, {'@'})
  {
    QuotedFree(c.password.value, {'@'});
    FreeConcat(":", Quote(c.password.value), {'@'});
  }

  /** What a decoding consumer reads stands where it was put. */
  lemma ReadInPlace(c: Config, read: Config, v: Url)
    requires FromComponents(v) == Some(read) && Build(v) == Dsn(c)
    requires read.(host := c.host) == Effective(c) && Unquote(read.host) == Some(c.host)
    ensures v == Components(c)
  {
    var u := Components(c);
    PartsOf(v);
    UnquoteUnchanged(read.host);
    if u.userinfo.Some? {
      UserinfoFree(c, u.userinfo.value);
    }
    SamePlaces(u, v);
  }

  lemma DecodedFrom(t: string, c: Config) returns (v: Url, read: Config)
    requires ReadDecoded(t) == Some(c)
    ensures Parse(t) == Some(v) && FromComponents(v) == Some(read)
    ensures read.(host := c.host) == c && Unquote(read.host) == Some(c.host)
  {
    v, read := Parse(t).value, Read(t).value;
  }

  lemma DecodedPlaces(c: Config)
    requires ReadDecoded(Dsn(c)) == Some(Effective(c))
    ensures Parse(Dsn(c)) == Some(Components(c)) && Unquote(c.host) == Some(c.host)
  {
    var v, read := DecodedFrom(Dsn(c), Effective(c));
    BuildParsed(Dsn(c));
    ReadInPlace(c, read, v);
  }

  /** The same round trip for a consumer that percent-decodes the host too. */
  lemma {:induction false} DecodedRoundTrip(c: Config)
    ensures ReadDecoded(Dsn(c)) == Some(Effective(c)) <==> CleanHost(c.host) && Free(c.host, {'%'})
  {
    UnquoteUnchanged(c.host);
    RoundTrip(c);
    if ReadDecoded(Dsn(c)) == Some(Effective(c)) {
      DecodedPlaces(c);
      ParsedIsClean(Dsn(c));
    }
  }

  // ---------- configurations that share a URL ----------

  function Prefix(u: Url): string {
    (if u.userinfo.Some? then u.userinfo.value + "@" else "") + u.host
  }

  /** The text of a URL determines what stands in front of its port, the port and
      the path, whatever the host. */
  lemma BuiltPieces(c: Config)
    ensures var u := Components(c);
            && CutFirst(Dsn(c), {':'}) == Cut(u.scheme, "://" + ((Prefix(u) + ":" + u.port) + ("/" + u.path)))
            && CutLast((Prefix(u) + ":" + u.port) + ("/" + u.path), '/') == Some(Cut(Prefix(u) + ":" + u.port, u.path))
            && CutLast(Prefix(u) + ":" + u.port, ':') == Some(Cut(Prefix(u), u.port))
  {
    var u := Components(c);
    var front := Prefix(u) + ":" + u.port;
    assert Authority(u) == front;
    assert Tail(u) == "/" + u.path;
    CutFirstAt(u.scheme, "://" + (front + ("/" + u.path)), {':'});
    Decimal.DigitsFree(c.db, {'/'});
    CutLastAt(front, '/', u.path);
    Decimal.DigitsFree(c.port, {':'});
    CutLastAt(Prefix(u), ':', u.port);
    Assoc(Prefix(u), ":", u.port);
  }

  lemma PrefixSplits(u: Url)
    requires Free(u.host, {'@'})
    ensures SplitUserinfo(Prefix(u)) == Parts(u.userinfo, u.host)
  {
    if u.userinfo.Some? {
      CutLastAt(u.userinfo.value, '@', u.host);
      Assoc(u.userinfo.value, "@", u.host);
    } else {
      assert Prefix(u) == u.host;
      CutLastNone(u.host, '@');
    }
  }

  lemma SameComponents(c: Config, d: Config)
    requires Dsn(c) == Dsn(d)
    ensures var u, v := Components(c), Components(d);
            u.scheme == v.scheme && Prefix(u) == Prefix(v) && u.port == v.port && u.path == v.path
  {
    var u, v := Components(c), Components(d);
    BuiltPieces(c);
    BuiltPieces(d);
    Cancel("://", (Prefix(u) + ":" + u.port) + ("/" + u.path), (Prefix(v) + ":" + v.port) + ("/" + v.path));
  }

  lemma SameSettings(c: Config, d: Config)
    requires Components(c) == Components(d)
    ensures Effective(c) == Effective(d)
  {
    ComponentsBuildable(c);
    ComponentsBuildable(d);
    Decimal.ReadPrint(c.port);
    Decimal.ReadPrint(d.port);
    Decimal.ReadPrint(c.db);
    Decimal.ReadPrint(d.db);
  }

  /** Two configurations whose hosts hold no `@` share a URL only by the absent and
      the empty password, whatever else their hosts hold. */
  lemma {:induction false} SameUrlWhen(c: Config, d: Config)
    requires Free(c.host, {'@'}) && Free(d.host, {'@'})
    ensures Dsn(c) == Dsn(d) <==> Effective(c) == Effective(d)
  {
    if Dsn(c) == Dsn(d) {
      SameComponents(c, d);
      PrefixSplits(Components(c));
      PrefixSplits(Components(d));
      SameSettings(c, d);
    }
  }

  /** With an `@` in the host, a password can be told as part of the host. */
  lemma PasswordInHost(c: Config, password: string)
    requires password != "" && c.password.None?
    ensures Dsn(c.(password := Some(password))) == Dsn(c.(host := ":" + Quote(password) + "@" + c.host))
  {
    var u := Components(c.(password := Some(password)));
    var v := Components(c.(host := ":" + Quote(password) + "@" + c.host));
    assert Authority(u) == Authority(v);
  }
}
