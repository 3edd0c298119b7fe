/**
 `OriginInfo` of src/net.rs and the origin gate of src/video/mod.rs: which pages may fetch a
 session's streams.
 */
module Origins {
  import opened Bytes
  import opened Text

  datatype OriginInfo = OriginInfo(host: string, port: nat) {
    predicate Matches(claimedHost: string, claimedPort: nat) {
      host == Lower(Trim(claimedHost)) && port == claimedPort
    }
  }

  /** Position of the first `//`. */
  function IndexOfSlashes(s: string): (p: Option<nat>)
    ensures p.Some? ==> p.value + 2 <= |s|
  {
    if |s| < 2 then None
    else if s[0] == '/' && s[1] == '/' then Some(0)
    else
      var p := IndexOfSlashes(s[1..]);
      if p.None? then None else Some(p.value + 1)
  }

  function DefaultPort(scheme: string): Option<nat> {
    if scheme == "http:" then Some(80) else if scheme == "https:" then Some(443) else None
  }

  /** `[host]:port`, `host:port` split at the last colon, or a bare host. */
  function ParseAuthority(authority: string, defaultPort: nat): Option<OriginInfo> {
    if HasPrefix(authority, "[") then
      var p := IndexOf(authority[1..], ']');
      if p.None? then None else
      var rest := authority[1..][p.value + 1..];
      if !HasPrefix(rest, ":") then None else
      var port := ParseUnsigned(rest[1..], U16);
      if port.None? then None else Some(OriginInfo(Lower(authority[1..][..p.value]), port.value))
    else
      var p := LastIndexOf(authority, ':');
      if p.None? then Some(OriginInfo(Lower(authority), defaultPort)) else
      var port := ParseUnsigned(authority[p.value + 1..], U16);
      if port.None? then None else Some(OriginInfo(Lower(authority[..p.value]), port.value))
  }

  function Parse(value: string): Option<OriginInfo> {
    var v := Trim(value);
    if v == "" || v == "null" then None else
    var p := IndexOfSlashes(v);
    if p.None? || DefaultPort(v[..p.value]).None? then None else
    var origin := ParseAuthority(Trim(Authority(v[p.value + 2..])), DefaultPort(v[..p.value]).value);
    if origin.None? || origin.value.host == "" then None else origin
  }

  /** What opening video arms, for a camera claimed at login. */
  function ArmedFor(claimedHost: string, claimedPort: nat): OriginInfo {
    OriginInfo(Lower(Trim(claimedHost)), claimedPort)
  }

  /** Nothing armed or no header: allowed. Otherwise the header must parse to the armed origin. */
  predicate Allowed(armed: Option<OriginInfo>, header: Option<string>) {
    if armed.None? || header.None? then true
    else
      var o := Parse(header.value);
      o.Some? && o.value.Matches(armed.value.host, armed.value.port)
  }

  /** A request that names no origin comes from no browser page, and passes. */
  lemma NoHeaderIsAllowed(armed: Option<OriginInfo>)
    ensures Allowed(armed, None)
  {
  }

  lemma UnarmedAllowsAll(header: Option<string>)
    ensures Allowed(None, header)
  {
  }

  lemma NullIsNoOrigin()
    ensures Parse("null").None?
  {
    hide Trim;
    TidyStays("null");
  }

  // ----- The printer -----

  datatype Spelling = WithPort | DefaultPortOnly | Bracketed

  predicate Writable(host: string, port: nat, spelling: Spelling, secure: bool) {
    && host != "" && port < U16 && Without(host, '/')
    && match spelling
       case WithPort => !IsSpace(host[0]) && host[0] != '['
       case DefaultPortOnly =>
         Tidy(host) && host[0] != '[' && Without(host, ':') && port == (if secure then 443 else 80)
       case Bracketed => Without(host, ']')
  }

  function HostText(host: string, port: nat, spelling: Spelling): string {
    match spelling
    case WithPort => host + ":" + Dec(port)
    case DefaultPortOnly => host
    case Bracketed => "[" + (host + "]" + (":" + Dec(port)))
  }

  /** A page URL: anything after the authority starts with a slash. */
  function PageUrl(secure: bool, hostText: string, suffix: string): string {
    (if secure then "https:" else "http:") + ("//" + (hostText + suffix))
  }

  predicate Suffix(suffix: string) {
    suffix == "" || (suffix[0] == '/' && !IsSpace(suffix[|suffix| - 1]))
  }

  lemma LastDigit(n: nat)
    ensures IsDigit(Dec(n)[|Dec(n)| - 1])
  {
  }

  lemma HostTextIsTidy(host: string, port: nat, spelling: Spelling, secure: bool)
    requires Writable(host, port, spelling, secure)
    ensures var t := HostText(host, port, spelling); t != "" && Tidy(t) && Without(t, '/')
  {
    DecIsPlain(port);
    LastDigit(port);
    hide Dec;
    var t := HostText(host, port, spelling);
    var d := Dec(port);
    match spelling
    case WithPort =>
      assert t[0] == host[0] && t[|t| - 1] == d[|d| - 1];
    case DefaultPortOnly =>
    case Bracketed =>
      assert t[0] == '[' && t[|t| - 1] == d[|d| - 1];
  }

  lemma PortRead(host: string, port: nat, d: nat)
    requires host != "" && host[0] != '[' && port < U16
    ensures ParseAuthority(host + ":" + Dec(port), d) == Some(OriginInfo(Lower(host), port))
  {
    DecIsPlain(port);
    ParseOfDec(port, U16);
    hide Dec, ParseUnsigned, IndexOf, LastIndexOf, Lower;
    LastIndexOfConcat(host, ':', Dec(port));
    assert (host + ":" + Dec(port))[0] == host[0];
  }

  lemma BracketedRead(host: string, port: nat, d: nat)
    requires Without(host, ']') && port < U16
    ensures ParseAuthority("[" + (host + "]" + (":" + Dec(port))), d) == Some(OriginInfo(Lower(host), port))
  {
    ParseOfDec(port, U16);
    hide Dec, ParseUnsigned, IndexOf, LastIndexOf, Lower, HasPrefix;
    var rest := ":" + Dec(port);
    PrefixOfConcat("[", host + "]" + rest);
    Assoc(host, "]", rest);
    IndexOfConcat(host, ']', rest);
    PrefixOfConcat(":", Dec(port));
  }

  lemma AuthorityRead(host: string, port: nat, spelling: Spelling, secure: bool)
    requires Writable(host, port, spelling, secure)
    ensures ParseAuthority(HostText(host, port, spelling), if secure then 443 else 80)
            == Some(OriginInfo(Lower(host), port))
  {
    var d := if secure then 443 else 80;
    hide Dec, ParseAuthority, Lower;
    match spelling
    case WithPort => PortRead(host, port, d);
    case DefaultPortOnly => BareRead(host, d);
    case Bracketed => BracketedRead(host, port, d);
  }

  lemma BareRead(host: string, d: nat)
    requires host != "" && host[0] != '[' && Without(host, ':')
    ensures ParseAuthority(host, d) == Some(OriginInfo(Lower(host), d))
  {
    NoLastIndex(host);
    hide LastIndexOf, Lower;
  }

  lemma NoLastIndex(s: string)
    requires Without(s, ':')
    ensures LastIndexOf(s, ':').None?
  {
  }

  lemma {:induction false} NoSlashYet(scheme: string, rest: string)
    requires Without(scheme, '/')
    ensures IndexOfSlashes(scheme + ("//" + rest)) == Some(|scheme|)
    ensures (scheme + ("//" + rest))[..|scheme|] == scheme && (scheme + ("//" + rest))[|scheme| + 2..] == rest
  {
    if scheme == "" {
      SliceAll("//" + rest);
    } else {
      ConsAppend(scheme, "//" + rest);
      NoSlashYet(scheme[1..], rest);
    }
  }

  lemma AuthorityOfText(t: string, suffix: string)
    requires Without(t, '/') && Suffix(suffix)
    ensures Authority(t + suffix) == t
  {
    if suffix == "" {
      SliceAll(t);
      NoIndex(t);
    } else {
      Cons(suffix);
      IndexOfConcat(t, '/', suffix[1..]);
    }
  }

  lemma NoIndex(s: string)
    requires Without(s, '/')
    ensures IndexOf(s, '/').None?
  {
  }

  /** A page URL comes apart at its `//`. */
  lemma ParseAtSlashes(secure: bool, t: string, suffix: string)
    requires t != "" && Tidy(t) && Without(t, '/') && Suffix(suffix)
    ensures Parse(PageUrl(secure, t, suffix))
         == (var o := ParseAuthority(t, if secure then 443 else 80); if o.None? || o.value.host == "" then None else o)
  {
    hide Trim, Authority, IndexOfSlashes, ParseAuthority, Tidy;
    PageIsTidy(secure, t, suffix);
    NoSlashYet(if secure then "https:" else "http:", t + suffix);
    AuthorityOfText(t, suffix);
    TidyStays(t);
  }

  /** Parsing undoes printing, in every spelling and with any path behind it. */
  lemma ParseOfPage(host: string, port: nat, spelling: Spelling, secure: bool, suffix: string)
    requires Writable(host, port, spelling, secure) && Suffix(suffix)
    ensures Parse(PageUrl(secure, HostText(host, port, spelling), suffix)) == Some(OriginInfo(Lower(host), port))
  {
    HostTextIsTidy(host, port, spelling, secure);
    AuthorityRead(host, port, spelling, secure);
    LowerNonEmpty(host);
    hide Parse, ParseAuthority, HostText, PageUrl, Lower;
    ParseAtSlashes(secure, HostText(host, port, spelling), suffix);
  }

  lemma LowerNonEmpty(s: string)
    ensures Lower(s) == "" <==> s == ""
  {
  }

  lemma PageIsTidy(secure: bool, t: string, suffix: string)
    requires t != "" && Tidy(t) && Suffix(suffix)
    ensures var v := PageUrl(secure, t, suffix); Trim(v) == v && v != "" && v != "null"
  {
    hide Trim;
    var v := PageUrl(secure, t, suffix);
    assert v[0] == 'h';
    assert v[|v| - 1] == if suffix == "" then t[|t| - 1] else suffix[|suffix| - 1];
    TidyStays(v);
  }

  /** A bracketed host needs its port spelled out: without one the origin is refused. */
  lemma {:induction false} BracketedNeedsPort(host: string, secure: bool)
    requires Without(host, '/') && Without(host, ']')
    ensures Parse(PageUrl(secure, "[" + (host + "]"), "")).None?
  {
    var t := "[" + (host + "]");
    assert t[0] == '[' && t[|t| - 1] == ']' && Without(t, '/');
    BracketOnly(host, if secure then 443 else 80);
    hide Parse, ParseAuthority, PageUrl;
    ParseAtSlashes(secure, t, "");
  }

  lemma BracketOnly(host: string, d: nat)
    requires Without(host, ']')
    ensures ParseAuthority("[" + (host + "]"), d).None?
  {
    hide ParseUnsigned, IndexOf, LastIndexOf, Lower;
    PrefixOfConcat("[", host + "]");
    IndexOfConcat(host, ']', "");
    SliceAll("]");
  }

  /**
   The gate. A page at any written origin, in any letter case and with any path, may fetch the
   streams of an armed server exactly when its host and port are the claimed camera's.
   */
  lemma PageAllowedIff(claimedHost: string, claimedPort: nat, host: string, port: nat, spelling: Spelling,
                       secure: bool, suffix: string)
    requires Writable(host, port, spelling, secure) && Suffix(suffix)
    ensures Allowed(Some(ArmedFor(claimedHost, claimedPort)),
                    Some(PageUrl(secure, HostText(host, port, spelling), suffix)))
            <==> Lower(host) == Lower(Trim(claimedHost)) && port == claimedPort
  {
    hide Parse, Trim, Lower;
    ParseOfPage(host, port, spelling, secure, suffix);
    LowerStaysTidy(Trim(claimedHost));
    TidyStays(Lower(Trim(claimedHost)));
    LowerTwice(Trim(claimedHost));
  }
}
