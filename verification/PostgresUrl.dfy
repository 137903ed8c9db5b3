/** `PostgresConfig.DSN`. */
module PostgresUrl {
  import opened Prelude
  import opened Urls
  import opened PercentEncoding
  import Decimal

  /** `Literal["disable", "require", "verify-full"]`. */
  type SslMode = s: string | s in {"disable", "require", "verify-full"} witness "require"

  function ReadSsl(text: string): Option<SslMode> {
    if text in {"disable", "require", "verify-full"} then Some(text) else None
  }

  datatype Config = Config(host: string, port: nat, database: string, user: string, password: string, sslMode: SslMode)

  const SCHEME := "postgresql+psycopg"
  const QUERY_NAME := "sslmode="

  function Components(c: Config): Url {
    Url(SCHEME, Some(Quote(c.user) + ":" + Quote(c.password)), c.host, Decimal.Print(c.port),
        c.database, Some(QUERY_NAME + c.sslMode))
  }

  function Dsn(c: Config): string {
    Build(Components(c))
  }

  /** The whole URL, with its literal scheme and query. */
  lemma DsnText(c: Config)
    ensures Dsn(c) ==
            "postgresql+psycopg://" + (Quote(c.user) + ":" + Quote(c.password) + "@" +
            (c.host + ":" + Decimal.Print(c.port) + ("/" + (c.database + ("?sslmode=" + c.sslMode)))))
  {
    var u := Components(c);
    assert "postgresql+psycopg://" == SCHEME + "://" && "?sslmode=" == "?" + QUERY_NAME;
    Assoc("?", QUERY_NAME, c.sslMode);
    Assoc(SCHEME, "://", Authority(u) + Tail(u));
    Assoc(Quote(c.user) + ":" + Quote(c.password) + "@", c.host + ":" + Decimal.Print(c.port), Tail(u));
    Assoc(c.host + ":", Decimal.Print(c.port), Tail(u));
  }

  datatype Credentials = Credentials(user: string, password: string)

  /** Splits at the first colon and percent-decodes both sides. User information
      without a colon has an empty password. */
  function ReadCredentials(userinfo: string): Option<Credentials> {
    var cut := CutFirst(userinfo, {':'});
    var user :- Unquote(cut.head);
    var password :- Unquote(if cut.rest == "" then "" else cut.rest[1..]);
    Some(Credentials(user, password))
  }

  function FromComponents(u: Url): (c: Option<Config>)
    ensures c.Some? ==> c.value.host == u.host && c.value.database == u.path
  {
    var userinfo :- u.userinfo;
    var credentials :- ReadCredentials(userinfo);
    var port :- Decimal.Read(u.port);
    var query :- u.query;
    if u.scheme != SCHEME || !(QUERY_NAME <= query) then None else
      var mode :- ReadSsl(query[|QUERY_NAME|..]);
      Some(Config(u.host, port, u.path, credentials.user, credentials.password, mode))
  }

  /** What a driver that splits the URL and decodes the credentials connects with. */
  function Read(t: string): Option<Config> {
    var u :- Parse(t);
    FromComponents(u)
  }

  lemma CredentialsCut(user: string, password: string)
    ensures CutFirst(Quote(user) + ":" + Quote(password), {':'}) == Cut(Quote(user), ":" + Quote(password))
    ensures CutFirst(Quote(user), {':'}) == Cut(Quote(user), "")
  {
    var q, p := Quote(user), Quote(password);
    QuotedFree(user, {':'});
    CutFirstAt(q, ":" + p, {':'});
    CutFirstAt(q, "", {':'});
    Assoc(q, ":", p);
    assert q + "" == q;
  }

  lemma CredentialsRoundTrip(user: string, password: string)
    ensures ReadCredentials(Quote(user) + ":" + Quote(password)) == Some(Credentials(user, password))
    ensures password == "" ==> ReadCredentials(Quote(user)) == Some(Credentials(user, password))
  {
    CredentialsCut(user, password);
    Take(":", Quote(password));
    UnquoteQuote(user);
    UnquoteQuote(password);
  }

  lemma UserinfoFree(c: Config, stops: set<char>)
    requires forall ch | ch in stops :: !Unreserved(ch) && ch !in {'%', ':'}
    ensures Free(Quote(c.user) + ":" + Quote(c.password), stops)
  {
    QuotedFree(c.user, stops);
    QuotedFree(c.password, stops);
    FreeConcat(Quote(c.user), ":", stops);
    FreeConcat(Quote(c.user) + ":", Quote(c.password), stops);
  }

  lemma SslFree(mode: SslMode)
    ensures Free(QUERY_NAME + mode, {'#'})
  {
    FreeConcat(QUERY_NAME, mode, {'#'});
  }

  lemma ComponentsBuildable(c: Config)
    ensures Buildable(Components(c))
  {
    UserinfoFree(c, AUTHORITY_STOPS);
    Decimal.DigitsFree(c.port, DELIMITERS);
    SslFree(c.sslMode);
  }

  lemma SettingsRoundTrip(c: Config)
    ensures Decimal.Read(Decimal.Print(c.port)) == Some(c.port)
    ensures var query := QUERY_NAME + c.sslMode;
            QUERY_NAME <= query && ReadSsl(query[|QUERY_NAME|..]) == Some(c.sslMode)
  {
    Decimal.ReadPrint(c.port);
    Take(QUERY_NAME, c.sslMode);
  }

  lemma ComponentsRead(c: Config, userinfo: string)
    requires ReadCredentials(userinfo) == Some(Credentials(c.user, c.password))
    ensures FromComponents(Components(c).(userinfo := Some(userinfo))) == Some(c)
  {
    SettingsRoundTrip(c);
  }

  lemma ReadOf(t: string, c: Config, userinfo: string)
    requires Parse(t) == Some(Components(c).(userinfo := Some(userinfo)))
    requires ReadCredentials(userinfo) == Some(Credentials(c.user, c.password))
    ensures Read(t) == Some(c)
  {
    ComponentsRead(c, userinfo);
  }

  /** Every user and password, whatever their characters, come back from the URL
      with all other settings; that holds exactly when the two settings that are
      inserted unencoded are clean: the host without delimiters, or an address
      literal in brackets, and the database without `?` and `#`. */
  lemma {:induction false} RoundTrip(c: Config)
    ensures Read(Dsn(c)) == Some(c) <==> CleanHost(c.host) && Free(c.database, PATH_STOPS)
  {
    var u := Components(c);
    if Clean(u) {
      ComponentsBuildable(c);
      Urls.RoundTrip(u);
      CredentialsRoundTrip(c.user, c.password);
      ReadOf(Dsn(c), c, u.userinfo.value);
    }
    if Read(Dsn(c)) == Some(c) {
      ParsedIsClean(Dsn(c));
    }
  }

  /** A URL library may drop the colon before an empty password: nothing is lost. */
  lemma {:induction false} EmptyPasswordWithoutColon(c: Config)
    requires c.password == "" && CleanHost(c.host) && Free(c.database, PATH_STOPS)
    ensures Read(Build(Components(c).(userinfo := Some(Quote(c.user))))) == Some(c)
  {
    var u := Components(c).(userinfo := Some(Quote(c.user)));
    ComponentsBuildable(c);
    QuotedFree(c.user, AUTHORITY_STOPS);
    Urls.RoundTrip(u);
    CredentialsRoundTrip(c.user, c.password);
    ReadOf(Build(u), c, Quote(c.user));
  }

  /** A host like `::1` or `db:5433` is lost; in brackets an address comes back. */
  lemma ColonsNeedBrackets(c: Config)
    requires Free(c.host, LITERAL_STOPS) && !Free(c.host, {':'}) && Free(c.database, PATH_STOPS)
    ensures Read(Dsn(c)) != Some(c)
    ensures var bracketed := c.(host := Bracketed(c.host));
            Read(Dsn(bracketed)) == Some(bracketed)
  {
    Urls.ColonsNeedBrackets(c.host);
    RoundTrip(c);
    RoundTrip(c.(host := Bracketed(c.host)));
  }

  // ---------- a consumer that also decodes host and database ----------

  function ReadDecoded(t: string): Option<Config> {
    var c :- Read(t);
    var host :- Unquote(c.host);
    var database :- Unquote(c.database);
    Some(c.(host := host, database := database))
  }

  lemma PartsOf(u: Url)
    requires FromComponents(u).Some?
    ensures var c := FromComponents(u).value;
            && u.scheme == SCHEME && u.userinfo.Some? && u.host == c.host && u.path == c.database
            && u.port == Decimal.Print(c.port)
            && u.query == Some(QUERY_NAME + c.sslMode)
  {
    var query := u.query.value;
    Behind(QUERY_NAME, query);
  }

  /** What a decoding consumer reads stands where it was put: no piece in front of
      it can have grown by its decoding. */
  lemma ReadInPlace(c: Config, read: Config, v: Url)
    requires FromComponents(v) == Some(read) && Build(v) == Dsn(c)
    requires read.port == c.port && read.sslMode == c.sslMode
    requires Unquote(read.host) == Some(c.host) && Unquote(read.database) == Some(c.database)
    ensures v == Components(c)
  {
    PartsOf(v);
    UnquoteUnchanged(read.host);
    UnquoteUnchanged(read.database);
    UserinfoFree(c, {'@'});
    SamePlaces(Components(c), v);
  }

  lemma DecodedFrom(t: string, c: Config) returns (v: Url, read: Config)
    requires ReadDecoded(t) == Some(c)
    ensures Parse(t) == Some(v) && FromComponents(v) == Some(read)
    ensures read.port == c.port && read.sslMode == c.sslMode
    ensures Unquote(read.host) == Some(c.host) && Unquote(read.database) == Some(c.database)
  {
    v, read := Parse(t).value, Read(t).value;
  }

  lemma DecodedPlaces(c: Config)
    requires ReadDecoded(Dsn(c)) == Some(c)
    ensures Parse(Dsn(c)) == Some(Components(c))
    ensures Unquote(c.host) == Some(c.host) && Unquote(c.database) == Some(c.database)
  {
    var v, read := DecodedFrom(Dsn(c), c);
    BuildParsed(Dsn(c));
    ReadInPlace(c, read, v);
  }

  /** The same round trip for a consumer that percent-decodes every component: then
      host and database must hold no percent sign either. */
  lemma {:induction false} DecodedRoundTrip(c: Config)
    ensures ReadDecoded(Dsn(c)) == Some(c) <==>
            && CleanHost(c.host) && Free(c.database, PATH_STOPS)
            && Free(c.host, {'%'}) && Free(c.database, {'%'})
  {
    UnquoteUnchanged(c.host);
    UnquoteUnchanged(c.database);
    RoundTrip(c);
    if ReadDecoded(Dsn(c)) == Some(c) {
      DecodedPlaces(c);
      ParsedIsClean(Dsn(c));
    }
  }
}
