/** The database settings a connection URL sets, and when they are those it was made from. */
module DatabaseUrls {
  import opened LimiterOps

  const POSTGRES := "postgres://"
  const POSTGRESQL := "postgresql://"
  const SSLMODE := "sslmode"
  const MAX_INT := 0x7FFF_FFFF_FFFF_FFFF

  // ----- the library operations the parser uses -----

  function TrimPrefix(s: string, prefix: string): string {
    if prefix <= s then s[|prefix|..] else s
  }

  datatype CutResult = CutResult(before: string, after: string, found: bool)

  /** Around the first occurrence of the separator. */
  function Cut(s: string, sep: char): CutResult {
    if s == "" then CutResult("", "", false)
    else if s[0] == sep then CutResult("", s[1..], true)
    else
      var r := Cut(s[1..], sep);
      CutResult([s[0]] + r.before, r.after, r.found)
  }

  /** The pieces between the separators; there is always at least one. */
  function SplitAt(s: string, sep: char): (pieces: seq<string>)
    decreases |s|
    ensures pieces != []
  {
    var r := Cut(s, sep);
    CutIsShorter(s, sep);
    [r.before] + if r.found then SplitAt(r.after, sep) else []
  }

  predicate IsDigit(c: char) {
    '0' <= c <= '9'
  }

  predicate AllDigits(s: string) {
    forall i :: 0 <= i < |s| ==> IsDigit(s[i])
  }

  function Value(digits: string): int
    requires AllDigits(digits)
  {
    if digits == "" then 0 else Value(digits[..|digits| - 1]) * 10 + (digits[|digits| - 1] as int - '0' as int)
  }

  /** Decimal digits after an optional sign, within 64 bits; anything else is an error. */
  function Atoi(s: string): Option<int> {
    var digits := if s != "" && (s[0] == '+' || s[0] == '-') then s[1..] else s;
    if digits == "" || !AllDigits(digits) then None
    else
      var n: int := if s[0] == '-' then -Value(digits) else Value(digits);
      if -MAX_INT - 1 <= n <= MAX_INT then Some(n) else None
  }

  // ----- the parser -----

  datatype Settings = Settings(user: string, password: string, host: string, port: int, name: string, sslMode: string)

  /** The value of the last parameter named sslmode, or the mode there was. */
  function SslModeAfter(fields: seq<string>, mode: string): string {
    if fields == [] then mode
    else
      var r := Cut(fields[|fields| - 1], '=');
      if r.found && r.before == SSLMODE then r.after else SslModeAfter(fields[..|fields| - 1], mode)
  }

  function Trimmed(url: string): string {
    TrimPrefix(TrimPrefix(url, POSTGRES), POSTGRESQL)
  }

  /** What parsing makes of the settings; None is the error of a URL without "@". */
  function Parsed(url: string, s: Settings): Option<Settings> {
    var at := Cut(Trimmed(url), '@');
    if !at.found then None
    else
      var cred, slash := Cut(at.before, ':'), Cut(at.after, '/');
      var query := Cut(slash.after, '?');
      var colon := Cut(slash.before, ':');
      var port := if colon.found then Atoi(colon.after) else None;
      Some(Settings(cred.before, cred.after, colon.before,
                    if port.Some? then port.value else s.port,
                    if slash.found then query.before else s.name,
                    if slash.found && query.found then SslModeAfter(SplitAt(query.after, '&'), s.sslMode)
                    else s.sslMode))
  }

  class Config {
    var databaseUrl: string
    var user: string
    var password: string
    var host: string
    var port: int
    var name: string
    var sslMode: string

    ghost function Db(): Settings
      reads this
    {
      Settings(user, password, host, port, name, sslMode)
    }

    constructor (databaseUrl: string, s: Settings)
      ensures this.databaseUrl == databaseUrl && Db() == s
    {
      this.databaseUrl := databaseUrl;
      user, password, host, port, name, sslMode := s.user, s.password, s.host, s.port, s.name, s.sslMode;
    }

    method ParseDatabaseUrl() returns (ok: bool)
      modifies this
      ensures databaseUrl == old(databaseUrl)
      ensures ok <==> Parsed(databaseUrl, old(Db())).Some?
      ensures Db() == if ok then Parsed(databaseUrl, old(Db())).value else old(Db())
    {
      var urlStr := TrimPrefix(databaseUrl, POSTGRES);
      urlStr := TrimPrefix(urlStr, POSTGRESQL);
      var at := Cut(urlStr, '@');
      if !at.found {
        return false;
      }
      var cred := Cut(at.before, ':');
      user, password := cred.before, cred.after;
      var slash := Cut(at.after, '/');
      if slash.found {
        var query := Cut(slash.after, '?');
        name := query.before;
        if query.found {
          ParseQuery(query.after);
        }
      }
      var colon := Cut(slash.before, ':');
      host := colon.before;
      if colon.found {
        var parsed := Atoi(colon.after);
        if parsed.Some? {
          port := parsed.value;
        }
      }
      return true;
    }

    method ParseQuery(query: string)
      modifies this`sslMode
      ensures sslMode == SslModeAfter(SplitAt(query, '&'), old(sslMode))
    {
      var fields := SplitAt(query, '&');
      for i := 0 to |fields|
        invariant sslMode == SslModeAfter(fields[..i], old(sslMode))
      {
        assert fields[..i + 1][..i] == fields[..i];
        var r := Cut(fields[i], '=');
        if r.found && r.before == SSLMODE {
          sslMode := r.after;
        }
      }
      assert fields[..|fields|] == fields;
    }
  }

  // ----- what the library operations undo -----

  lemma {:induction false} CutIsShorter(s: string, sep: char)
    ensures var r := Cut(s, sep);
      && |r.before| + |r.after| <= |s| && (r.found ==> |r.before| + |r.after| + 1 == |s|)
  {
    if s != "" && s[0] != sep {
      CutIsShorter(s[1..], sep);
    }
  }

  lemma {:induction false} CutFinds(a: string, sep: char, b: string)
    requires sep !in a
    ensures Cut(a + [sep] + b, sep) == CutResult(a, b, true)
  {
    var s := a + [sep] + b;
    if a == "" {
      assert s[0] == sep && s[1..] == b;
    } else {
      assert s[0] == a[0] && a[0] in a;
      CutFinds(a[1..], sep, b);
      assert s[1..] == a[1..] + [sep] + b;
      assert [a[0]] + a[1..] == a;
    }
  }

  lemma {:induction false} CutFindsNothing(a: string, sep: char)
    requires sep !in a
    ensures Cut(a, sep) == CutResult(a, "", false)
  {
    if a != "" {
      assert a[0] in a;
      CutFindsNothing(a[1..], sep);
      assert [a[0]] + a[1..] == a;
    }
  }

  lemma {:induction false} CutFindsIff(s: string, sep: char)
    ensures Cut(s, sep).found <==> sep in s
  {
    if s != "" && s[0] != sep {
      CutFindsIff(s[1..], sep);
      assert s == [s[0]] + s[1..];
    }
  }

  function Glued(fields: seq<string>): string
    requires fields != []
  {
    if |fields| == 1 then fields[0] else fields[0] + "&" + Glued(fields[1..])
  }

  predicate AllWithout(fields: seq<string>, sep: char) {
    forall i :: 0 <= i < |fields| ==> sep !in fields[i]
  }

  lemma {:induction false} SplitUndoesGlue(fields: seq<string>)
    requires fields != [] && AllWithout(fields, '&')
    ensures SplitAt(Glued(fields), '&') == fields
  {
    if |fields| == 1 {
      CutFindsNothing(fields[0], '&');
    } else {
      SplitUndoesGlue(fields[1..]);
      CutFinds(fields[0], '&', Glued(fields[1..]));
      assert [fields[0]] + fields[1..] == fields;
    }
  }

  function Decimal(n: nat): string {
    if n < 10 then [('0' as int + n) as char] else Decimal(n / 10) + [('0' as int + n % 10) as char]
  }

  lemma {:induction false} DecimalDigits(n: nat)
    ensures Decimal(n) != "" && AllDigits(Decimal(n))
    ensures Value(Decimal(n)) == n
  {
    if n >= 10 {
      DecimalDigits(n / 10);
      assert Decimal(n)[..|Decimal(n)| - 1] == Decimal(n / 10);
    } else {
      assert Decimal(n)[..0] == "" && Value("") == 0;
    }
  }

  lemma AtoiUndoesDecimal(n: nat)
    requires n <= MAX_INT
    ensures Atoi(Decimal(n)) == Some(n)
    ensures '/' !in Decimal(n)
  {
    DecimalDigits(n);
    assert IsDigit(Decimal(n)[0]);
  }

  /** A number is read with either sign or none, if it fits 64 bits. */
  lemma SignedNumbers(digits: string)
    requires digits != "" && AllDigits(digits)
    ensures Atoi(digits) == if Value(digits) <= 0x7FFF_FFFF_FFFF_FFFF then Some(Value(digits)) else None
    ensures Atoi("+" + digits) == if Value(digits) <= 0x7FFF_FFFF_FFFF_FFFF then Some(Value(digits)) else None
    ensures Atoi("-" + digits) == if Value(digits) <= 0x8000_0000_0000_0000 then Some(-Value(digits)) else None
  {
    ValueIsNatural(digits);
    assert IsDigit(digits[0]);
    assert ("+" + digits)[1..] == digits && ("-" + digits)[1..] == digits;
  }

  lemma {:induction false} ValueIsNatural(digits: string)
    requires AllDigits(digits)
    ensures Value(digits) >= 0
  {
    if digits != "" {
      ValueIsNatural(digits[..|digits| - 1]);
    }
  }

  /** Parsing fails exactly when no "@" is left after trimming, and in nothing else. */
  lemma ParsingFailsIff(url: string, before: Settings)
    ensures Parsed(url, before).None? <==> '@' !in Trimmed(url)
  {
    CutFindsIff(Trimmed(url), '@');
  }

  // ----- the round trip -----

  function Credentials(s: Settings): string {
    s.user + ":" + s.password
  }

  function HostPort(s: Settings): string
    requires s.port >= 0
  {
    s.host + ":" + Decimal(s.port)
  }

  function NameAndQuery(s: Settings, fields: seq<string>): string {
    if fields == [] then s.name else s.name + "?" + Glued(fields)
  }

  /** The URL without a scheme, with any query parameters. */
  function Body(s: Settings, fields: seq<string>): string
    requires s.port >= 0
  {
    Credentials(s) + "@" + (HostPort(s) + "/" + NameAndQuery(s, fields))
  }

  /** No component holds the separator that ends it. */
  predicate SeparatorFree(s: Settings, fields: seq<string>) {
    && ':' !in s.user && '@' !in s.user && '@' !in s.password
    && ':' !in s.host && '/' !in s.host && '?' !in s.name
    && 0 <= s.port <= MAX_INT && AllWithout(fields, '&')
  }

  lemma CredentialsAreCut(s: Settings, fields: seq<string>)
    requires SeparatorFree(s, fields)
    ensures Cut(Body(s, fields), '@') == CutResult(Credentials(s), HostPort(s) + "/" + NameAndQuery(s, fields), true)
    ensures Cut(Credentials(s), ':') == CutResult(s.user, s.password, true)
  {
    CutFinds(Credentials(s), '@', HostPort(s) + "/" + NameAndQuery(s, fields));
    CutFinds(s.user, ':', s.password);
  }

  lemma HostIsCut(s: Settings, fields: seq<string>)
    requires SeparatorFree(s, fields)
    ensures Cut(HostPort(s) + "/" + NameAndQuery(s, fields), '/') == CutResult(HostPort(s), NameAndQuery(s, fields), true)
    ensures Cut(HostPort(s), ':') == CutResult(s.host, Decimal(s.port), true)
  {
    AtoiUndoesDecimal(s.port);
    CutFinds(HostPort(s), '/', NameAndQuery(s, fields));
    CutFinds(s.host, ':', Decimal(s.port));
  }

  lemma NameIsCut(s: Settings, fields: seq<string>)
    requires SeparatorFree(s, fields)
    ensures var r := Cut(NameAndQuery(s, fields), '?');
      r.before == s.name && (r.found <==> fields != []) && (r.found ==> SplitAt(r.after, '&') == fields)
  {
    if fields == [] {
      CutFindsNothing(s.name, '?');
    } else {
      CutFinds(s.name, '?', Glued(fields));
      SplitUndoesGlue(fields);
    }
  }

  lemma BodyIsParsed(url: string, s: Settings, fields: seq<string>, before: Settings)
    requires SeparatorFree(s, fields) && Trimmed(url) == Body(s, fields)
    ensures Parsed(url, before) == Some(s.(sslMode := SslModeAfter(fields, before.sslMode)))
  {
    CredentialsAreCut(s, fields);
    HostIsCut(s, fields);
    NameIsCut(s, fields);
    AtoiUndoesDecimal(s.port);
  }

  /** The scheme's letters are the user and its slashes begin the password. */
  predicate LooksLike(s: Settings, scheme: string) {
    scheme == s.user + "://" && "//" <= s.password
  }

  /** A prefix that goes past the separator holds it. */
  lemma PrefixEndsWithin(prefix: string, a: string, sep: char, b: string)
    requires prefix <= a + [sep] + b
    ensures prefix <= a || sep in prefix
  {
    var s := a + [sep] + b;
    if |prefix| <= |a| {
      assert prefix == s[..|prefix|] == a[..|prefix|];
    } else {
      assert prefix[|a|] == s[|a|] == sep;
    }
  }

  lemma FirstColon(s: Settings, fields: seq<string>, scheme: string, n: nat)
    requires SeparatorFree(s, fields) && n + 3 == |scheme| && scheme[n..] == "://" && ':' !in scheme[..n]
    requires scheme <= Body(s, fields)
    ensures s.user == scheme[..n]
  {
    var body := Body(s, fields);
    var afterUser := s.password + "@" + (HostPort(s) + "/" + NameAndQuery(s, fields));
    assert body == s.user + ":" + afterUser;
    CutFinds(s.user, ':', afterUser);
    assert body[n] == scheme[n..][0];
    assert body == scheme[..n] + ":" + body[n + 1..];
    CutFinds(scheme[..n], ':', body[n + 1..]);
  }

  lemma SlashesInPassword(s: Settings, fields: seq<string>, scheme: string)
    requires s.port >= 0 && s.user + "://" == scheme && scheme <= Body(s, fields)
    ensures "//" <= s.password
  {
    var body, i := Body(s, fields), |s.user| + 1;
    var rest := HostPort(s) + "/" + NameAndQuery(s, fields);
    assert body[i..] == s.password + "@" + rest;
    assert "//" == scheme[i..] && scheme == body[..|scheme|];
    assert "//" <= body[i..];
    PrefixEndsWithin("//", s.password, '@', rest);
  }

  lemma BodyStartsWith(s: Settings, fields: seq<string>, scheme: string)
    requires SeparatorFree(s, fields) && (scheme == POSTGRES || scheme == POSTGRESQL)
    ensures scheme <= Body(s, fields) <==> LooksLike(s, scheme)
  {
    var n := |scheme| - 3;
    assert scheme[n..] == "://" && scheme[..n] + "://" == scheme && ':' !in scheme[..n];
    if scheme <= Body(s, fields) {
      FirstColon(s, fields, scheme, n);
      SlashesInPassword(s, fields, scheme);
    }
    if LooksLike(s, scheme) {
      assert s.password == "//" + s.password[2..];
      assert Body(s, fields)[..|scheme|] == scheme;
    }
  }

  /** Trimming a scheme that was not there loses part of the credentials for good. */
  lemma TrimmedCredentialsAreLost(url: string, s: Settings, fields: seq<string>, before: Settings, k: nat)
    requires SeparatorFree(s, fields) && 1 < k <= |Credentials(s)|
    requires Trimmed(url) == Body(s, fields)[k..]
    ensures Parsed(url, before).Some? ==>
      |Parsed(url, before).value.user| + |Parsed(url, before).value.password| < |s.user| + |s.password|
  {
    var cred, rest := Credentials(s), HostPort(s) + "/" + NameAndQuery(s, fields);
    assert Body(s, fields)[k..] == cred[k..] + "@" + rest;
    assert forall c :: c in cred[k..] ==> c in cred;
    CutFinds(cred[k..], '@', rest);
    CutIsShorter(cred[k..], ':');
  }

  /** Every setting comes back, the mode being that of the last sslmode parameter. */
  ghost predicate Recovers(url: string, s: Settings, fields: seq<string>) {
    forall before: Settings ::
      Parsed(url, before) == Some(s.(sslMode := SslModeAfter(fields, before.sslMode)))
  }

  /** A postgresql:// URL is always parsed into the settings it was printed from. */
  lemma PostgresqlRoundTrip(s: Settings, fields: seq<string>)
    requires SeparatorFree(s, fields)
    ensures Recovers("postgresql://" + Body(s, fields), s, fields)
  {
    var url := POSTGRESQL + Body(s, fields);
    assert url[8] == 'q' && POSTGRES[8] == ':';
    assert !(POSTGRES <= url);
    assert url[|POSTGRESQL|..] == Body(s, fields);
    forall before: Settings
      ensures Parsed(url, before) == Some(s.(sslMode := SslModeAfter(fields, before.sslMode)))
    {
      BodyIsParsed(url, s, fields, before);
    }
  }

  /** A postgres:// URL is, unless what follows the scheme looks like the other scheme,
      because both prefixes are trimmed. */
  lemma PostgresRoundTripIff(s: Settings, fields: seq<string>)
    requires SeparatorFree(s, fields)
    ensures Recovers("postgres://" + Body(s, fields), s, fields)
       <==> !(s.user == "postgresql" && "//" <= s.password)
  {
    var body := Body(s, fields);
    var url := POSTGRES + body;
    assert url[|POSTGRES|..] == body;
    BodyStartsWith(s, fields, POSTGRESQL);
    SchemeUsers(s);
    if LooksLike(s, POSTGRESQL) {
      TrimmedCredentialsAreLost(url, s, fields, s, |POSTGRESQL|);
      assert !(Parsed(url, s) == Some(s.(sslMode := SslModeAfter(fields, s.sslMode))));
    } else {
      forall before: Settings
        ensures Parsed(url, before) == Some(s.(sslMode := SslModeAfter(fields, before.sslMode)))
      {
        BodyIsParsed(url, s, fields, before);
      }
    }
  }

  lemma SchemeUsers(s: Settings)
    ensures LooksLike(s, POSTGRES) <==> s.user == "postgres" && "//" <= s.password
    ensures LooksLike(s, POSTGRESQL) <==> s.user == "postgresql" && "//" <= s.password
  {
    if LooksLike(s, POSTGRES) {
      assert s.user == POSTGRES[..|s.user|];
    }
    if LooksLike(s, POSTGRESQL) {
      assert s.user == POSTGRESQL[..|s.user|];
    }
    assert "postgres" + "://" == POSTGRES && "postgresql" + "://" == POSTGRESQL;
  }

  /** A URL without a scheme is, unless it looks as if it had one. */
  lemma BareRoundTripIff(s: Settings, fields: seq<string>)
    requires SeparatorFree(s, fields)
    ensures Recovers(Body(s, fields), s, fields)
       <==> !((s.user == "postgres" || s.user == "postgresql") && "//" <= s.password)
  {
    var body := Body(s, fields);
    BodyStartsWith(s, fields, POSTGRES);
    BodyStartsWith(s, fields, POSTGRESQL);
    SchemeUsers(s);
    if LooksLike(s, POSTGRESQL) {
      TrimmedCredentialsAreLost(body, s, fields, s, |POSTGRESQL|);
      assert !(Parsed(body, s) == Some(s.(sslMode := SslModeAfter(fields, s.sslMode))));
    } else if LooksLike(s, POSTGRES) {
      var k := |POSTGRES|;
      var rest := body[k..];
      if POSTGRESQL <= rest {
        assert rest[|POSTGRESQL|..] == body[k + |POSTGRESQL|..];
        TrimmedTwice(s, fields);
        TrimmedCredentialsAreLost(body, s, fields, s, k + |POSTGRESQL|);
      } else {
        TrimmedCredentialsAreLost(body, s, fields, s, k);
      }
      assert !(Parsed(body, s) == Some(s.(sslMode := SslModeAfter(fields, s.sslMode))));
    } else {
      forall before: Settings
        ensures Parsed(body, before) == Some(s.(sslMode := SslModeAfter(fields, before.sslMode)))
      {
        BodyIsParsed(body, s, fields, before);
      }
    }
  }

  /** Both schemes in a row lie within the credentials: neither holds an "@". */
  lemma TrimmedTwice(s: Settings, fields: seq<string>)
    requires SeparatorFree(s, fields) && LooksLike(s, POSTGRES)
    requires POSTGRESQL <= Body(s, fields)[|POSTGRES|..]
    ensures |POSTGRES| + |POSTGRESQL| <= |Credentials(s)|
  {
    var rest := HostPort(s) + "/" + NameAndQuery(s, fields);
    assert s.password == "//" + s.password[2..];
    assert Body(s, fields)[|POSTGRES|..] == Credentials(s)[|POSTGRES|..] + "@" + rest;
    PrefixEndsWithin(POSTGRESQL, Credentials(s)[|POSTGRES|..], '@', rest);
    assert '@' !in POSTGRESQL;
  }

  // ----- the mode, and what a URL does not say -----

  /** Not a parameter that sets the mode. */
  predicate SaysNoMode(field: string) {
    !("sslmode=" <= field)
  }

  lemma ModeFieldIff(field: string)
    ensures var r := Cut(field, '=');
      && (r.found && r.before == "sslmode" <==> "sslmode=" <= field)
      && ("sslmode=" <= field ==> r.after == field[8..])
  {
    var r := Cut(field, '=');
    if "sslmode=" <= field {
      assert field == "sslmode" + "=" + field[8..];
      CutFinds("sslmode", '=', field[8..]);
    }
    if r.found && r.before == "sslmode" {
      CutGlues(field, '=');
    }
  }

  lemma {:induction false} CutGlues(s: string, sep: char)
    requires Cut(s, sep).found
    ensures s == Cut(s, sep).before + [sep] + Cut(s, sep).after
  {
    if s[0] != sep {
      CutGlues(s[1..], sep);
    }
  }

  /** Parameters that do not set the mode leave it. */
  lemma {:induction false} OthersKeepMode(fields: seq<string>, mode: string)
    requires forall i :: 0 <= i < |fields| ==> SaysNoMode(fields[i])
    ensures SslModeAfter(fields, mode) == mode
  {
    if fields != [] {
      var last := |fields| - 1;
      assert SaysNoMode(fields[last]);
      ModeFieldIff(fields[last]);
      OthersKeepMode(fields[..last], mode);
    }
  }

  /** The last parameter that sets the mode sets it, whatever comes before. */
  lemma {:induction false} LastModeWins(earlier: seq<string>, value: string, later: seq<string>, mode: string)
    requires forall i :: 0 <= i < |later| ==> SaysNoMode(later[i])
    ensures SslModeAfter(earlier + ["sslmode=" + value] + later, mode) == value
    decreases |later|
  {
    var fields := earlier + ["sslmode=" + value] + later;
    var last := |fields| - 1;
    ModeFieldIff(fields[last]);
    if later == [] {
      assert fields[last] == "sslmode=" + value;
      assert fields[last][8..] == value;
    } else {
      assert fields[last] == later[|later| - 1] && SaysNoMode(fields[last]);
      assert fields[..last] == earlier + ["sslmode=" + value] + later[..|later| - 1];
      LastModeWins(earlier, value, later[..|later| - 1], mode);
    }
  }

  /** All six settings come back from a URL that says the mode, whatever else it asks for. */
  lemma ModeRoundTrip(s: Settings, earlier: seq<string>, later: seq<string>, before: Settings)
    requires SeparatorFree(s, earlier + ["sslmode=" + s.sslMode] + later)
    requires forall i :: 0 <= i < |later| ==> SaysNoMode(later[i])
    ensures Parsed("postgresql://" + Body(s, earlier + ["sslmode=" + s.sslMode] + later), before) == Some(s)
  {
    var fields := earlier + ["sslmode=" + s.sslMode] + later;
    PostgresqlRoundTrip(s, fields);
    LastModeWins(earlier, s.sslMode, later, before.sslMode);
  }

  /** A URL that may lack a password, a port, a name and parameters. */
  function PartialUrl(user: string, password: Option<string>, host: string, port: Option<string>,
                      name: Option<string>, fields: seq<string>): string
  {
    "postgresql://"
    + ((user + (if password.Some? then ":" + password.value else "")) + "@"
       + ((host + (if port.Some? then ":" + port.value else ""))
          + (if name.Some? then "/" + (name.value + (if fields != [] then "?" + Glued(fields) else "")) else "")))
  }

  lemma CutOptional(a: string, sep: char, b: Option<string>)
    requires sep !in a
    ensures Cut(a + (if b.Some? then [sep] + b.value else ""), sep)
         == CutResult(a, if b.Some? then b.value else "", b.Some?)
  {
    var s := a + (if b.Some? then [sep] + b.value else "");
    if b.Some? {
      assert s == a + [sep] + b.value;
      CutFinds(a, sep, b.value);
    } else {
      assert s == a;
      CutFindsNothing(a, sep);
    }
  }

  lemma AfterSchemeIsTrimmed(rest: string)
    ensures Trimmed("postgresql://" + rest) == rest
  {
    var url := "postgresql://" + rest;
    assert url[8] == 'q' && POSTGRES[8] == ':';
    assert url[|POSTGRESQL|..] == rest;
  }

  /** What the URL says is set, and what it does not say, or says as no number, is kept; only
      the password is emptied, and the mode can be set only after a name. */
  lemma PartialUrlKeepsTheRest(user: string, password: Option<string>, host: string, port: Option<string>,
                               name: Option<string>, fields: seq<string>, before: Settings)
    requires ':' !in user && '@' !in user && (password.Some? ==> '@' !in password.value)
    requires ':' !in host && '/' !in host && (port.Some? ==> '/' !in port.value)
    requires (name.Some? ==> '?' !in name.value) && AllWithout(fields, '&')
    ensures Parsed(PartialUrl(user, password, host, port, name, fields), before)
         == Some(Settings(user, if password.Some? then password.value else "", host,
                          if port.Some? && Atoi(port.value).Some? then Atoi(port.value).value else before.port,
                          if name.Some? then name.value else before.name,
                          if name.Some? then SslModeAfter(fields, before.sslMode) else before.sslMode))
  {
    var cred := user + (if password.Some? then ":" + password.value else "");
    var hostPort := host + (if port.Some? then ":" + port.value else "");
    var query := if fields != [] then Some(Glued(fields)) else None;
    var path := if name.Some? then Some(name.value + (if fields != [] then "?" + Glued(fields) else "")) else None;
    var place := hostPort + (if path.Some? then "/" + path.value else "");
    AfterSchemeIsTrimmed(cred + "@" + place);
    assert PartialUrl(user, password, host, port, name, fields) == "postgresql://" + (cred + "@" + place);
    CutFinds(cred, '@', place);
    CutOptional(user, ':', password);
    CutOptional(hostPort, '/', path);
    CutOptional(host, ':', port);
    if name.Some? {
      CutOptional(name.value, '?', query);
      if fields != [] {
        SplitUndoesGlue(fields);
      }
    }
  }

  /** A port that is not a number of an optional sign and digits is no port. */
  lemma OnlyNumbersArePorts(text: string, i: nat)
    requires i < |text| && !('0' <= text[i] <= '9') && !(i == 0 && (text[0] == '+' || text[0] == '-'))
    ensures Atoi(text).None?
    ensures Atoi("").None?
  {
    var digits := if text[0] == '+' || text[0] == '-' then text[1..] else text;
    var k := if text[0] == '+' || text[0] == '-' then i - 1 else i;
    assert 0 <= k < |digits| && digits[k] == text[i] && !IsDigit(digits[k]);
  }
}
