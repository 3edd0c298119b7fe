/**
 Where SETUP requests go: the base URL and `resolve_control_url` of src/video/rtsp_client.rs.
 */
module RtspUrl {
  import opened Bytes
  import opened Text

  const SCHEME: string := "rtsp://"

  function BaseUrl(host: string, port: nat, path: string): string {
    SCHEME + (host + ":" + Dec(port) + ("/" + path))
  }

  /** Host in lower case and port; 554 without a port, 0 for one that does not parse. */
  function HostPort(authority: string): (string, nat) {
    var p := LastIndexOf(authority, ':');
    if p.None? then (Lower(authority), 554)
    else
      var port := ParseUnsigned(authority[p.value + 1..], U16);
      (Lower(authority[..p.value]), if port.None? then 0 else port.value)
  }

  /** The URL of a control attribute, or `None` when it points at another host or port. */
  function ResolveControlUrl(base: string, control: string, host: string, port: nat): Option<string> {
    var c := Trim(control);
    if c == "" || c == "*" then Some(base)
    else if HasPrefix(c, SCHEME) then
      if HostPort(Authority(c[|SCHEME|..])) == (Lower(Trim(host)), port) then Some(c) else None
    else
      var sep := if c[0] == '/' || (base != "" && base[|base| - 1] == '/') then "" else "/";
      Some(base + (sep + c))
  }

  /** The URL names this host and port. */
  predicate Targets(url: string, host: string, port: nat) {
    HasPrefix(url, SCHEME) && HostPort(Authority(url[|SCHEME|..])) == (Lower(Trim(host)), port)
  }

  /** A host the client can dial: no slash, nothing to trim. */
  predicate Dialable(host: string, port: nat) {
    Without(host, '/') && Tidy(host) && port < U16
  }

  lemma HostPortOf(host: string, port: nat)
    requires port < U16
    ensures HostPort(host + ":" + Dec(port)) == (Lower(host), port)
  {
    DecIsPlain(port);
    LastIndexOfConcat(host, ':', Dec(port));
    ParseOfDec(port, U16);
  }

  lemma BaseTargets(host: string, port: nat, more: string)
    requires Dialable(host, port)
    ensures Targets(SCHEME + (host + ":" + Dec(port) + ("/" + more)), host, port)
  {
    var authority := host + ":" + Dec(port);
    DecIsPlain(port);
    IndexOfConcat(authority, '/', more);
    PrefixOfConcat(SCHEME, authority + ("/" + more));
    HostPortOf(host, port);
    TidyStays(host);
  }

  /** Whatever an SDP says, the URL it resolves to is on the host and port dialled. */
  lemma ResolvedStaysPut(host: string, port: nat, path: string, control: string)
    requires Dialable(host, port)
    ensures var url := ResolveControlUrl(BaseUrl(host, port, path), control, host, port);
            url.Some? ==> Targets(url.value, host, port)
  {
    hide Targets, Trim, Dec;
    var base := BaseUrl(host, port, path);
    var url := ResolveControlUrl(base, control, host, port);
    if url.Some? {
      var c := Trim(control);
      if c == "" || c == "*" {
        BaseTargets(host, port, path);
      } else if HasPrefix(c, SCHEME) {
        AbsoluteTargets(c, host, port);
      } else {
        var tail := url.value[|base|..];
        assert url.value == base + tail;
        assert base + tail == SCHEME + (host + ":" + Dec(port) + ("/" + (path + tail)));
        BaseTargets(host, port, path + tail);
      }
    }
  }

  lemma AbsoluteTargets(c: string, host: string, port: nat)
    requires HasPrefix(c, SCHEME) && HostPort(Authority(c[|SCHEME|..])) == (Lower(Trim(host)), port)
    ensures Targets(c, host, port)
  {
  }

  /** An absolute URL, with its port or without one. */
  function AbsoluteUrl(host: string, port: Option<nat>, path: string): string {
    SCHEME + ((if port.Some? then host + ":" + Dec(port.value) else host) + ("/" + path))
  }

  /**
   An absolute control is taken, as it stands, exactly when it names the dialled host, in any
   letter case, and the dialled port; without a port it names 554.
   */
  lemma AbsoluteControlTakenIff(base: string, host: string, port: nat, named: string, namedPort: Option<nat>,
                                path: string)
    requires Dialable(host, port)
    requires Without(named, '/') && Tidy(AbsoluteUrl(named, namedPort, path))
    requires if namedPort.Some? then namedPort.value < U16 else Without(named, ':')
    ensures var control := AbsoluteUrl(named, namedPort, path);
            ResolveControlUrl(base, control, host, port)
            == if Lower(named) == Lower(host) && (if namedPort.Some? then namedPort.value else 554) == port
               then Some(control) else None
  {
    hide Targets, Trim, Dec, HostPort, Authority, HasPrefix, Lower, AbsoluteUrl;
    var control := AbsoluteUrl(named, namedPort, path);
    AbsoluteNames(named, namedPort, path);
    TidyStays(host);
    TidyStays(control);
  }

  /** What an absolute URL names, as the client reads it. */
  lemma AbsoluteNames(named: string, namedPort: Option<nat>, path: string)
    requires Without(named, '/')
    requires if namedPort.Some? then namedPort.value < U16 else Without(named, ':')
    ensures var url := AbsoluteUrl(named, namedPort, path);
            && HasPrefix(url, SCHEME) && url != "" && url != "*"
            && HostPort(Authority(url[|SCHEME|..]))
               == (Lower(named), if namedPort.Some? then namedPort.value else 554)
  {
    hide Dec, HostPort, Lower;
    var authority := if namedPort.Some? then named + ":" + Dec(namedPort.value) else named;
    if namedPort.Some? {
      DecIsPlain(namedPort.value);
      HostPortOf(named, namedPort.value);
    } else {
      NoPort(named);
    }
    IndexOfConcat(authority, '/', path);
    PrefixOfConcat(SCHEME, authority + ("/" + path));
  }

  lemma NoPort(host: string)
    requires Without(host, ':')
    ensures HostPort(host) == (Lower(host), 554)
  {
  }

  // ----- Relative controls -----

  /** A control that is neither absent in effect nor a URL of its own. */
  predicate IsRelative(c: string) {
    c != "" && c != "*" && Tidy(c) && !HasPrefix(c, "rtsp://")
  }

  /** It is appended to the base, behind the slash that is missing if neither side brings one. */
  lemma RelativeIsAppended(base: string, c: string, host: string, port: nat)
    requires IsRelative(c)
    ensures var url := ResolveControlUrl(base, c, host, port);
            && url.Some? && |base| <= |url.value| && url.value[..|base|] == base
            && var tail := url.value[|base|..];
            && (tail == c || tail == "/" + c)
            && (tail == c <==> c[0] == '/' || (base != "" && base[|base| - 1] == '/'))
  {
    hide Trim;
    TidyStays(c);
    var url := ResolveControlUrl(base, c, host, port).value;
    var sep := if c[0] == '/' || (base != "" && base[|base| - 1] == '/') then "" else "/";
    assert url == base + (sep + c);
    assert url[..|base|] == base && url[|base|..] == sep + c;
    assert |sep + c| == |sep| + |c|;
  }

  /** Different tracks are set up at different URLs. */
  lemma RelativesDiffer(base: string, c1: string, c2: string, host: string, port: nat)
    requires IsRelative(c1) && IsRelative(c2) && c1[0] != '/' && c2[0] != '/' && c1 != c2
    ensures ResolveControlUrl(base, c1, host, port) != ResolveControlUrl(base, c2, host, port)
  {
    hide ResolveControlUrl, IsRelative;
    RelativeIsAppended(base, c1, host, port);
    RelativeIsAppended(base, c2, host, port);
    assert ("/" + c1)[1..] == c1 && ("/" + c2)[1..] == c2;
  }

  /** An empty control, a star, and blanks around either, stand for the stream itself. */
  lemma NoControlIsBase(base: string, c: string, host: string, port: nat)
    requires Trim(c) == "" || Trim(c) == "*"
    ensures ResolveControlUrl(base, c, host, port) == Some(base)
  {
  }

  /** The base URL names the dialled host and port, and after the first slash behind them the path. */
  lemma BaseUrlReadsBack(host: string, port: nat, path: string)
    requires Dialable(host, port)
    ensures var url := BaseUrl(host, port, path);
            && |url| >= 7 && url[..7] == "rtsp://"
            && var rest := url[7..];
            && HostPort(Authority(rest)) == (Lower(host), port)
            && IndexOf(rest, '/').Some? && rest[IndexOf(rest, '/').value + 1..] == path
  {
    hide HostPort, Dec, Lower;
    var authority := host + ":" + Dec(port);
    DecIsPlain(port);
    IndexOfConcat(authority, '/', path);
    HostPortOf(host, port);
    var url := BaseUrl(host, port, path);
    assert url == SCHEME + (authority + ("/" + path));
    assert url[..7] == SCHEME && url[7..] == authority + ("/" + path);
    assert (authority + ("/" + path))[|authority| + 1..] == path;
  }
}
