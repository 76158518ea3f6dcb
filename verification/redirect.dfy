/**
 * The Strava OAuth redirect URI the program registers when the configuration does not give
 * one: built from the web host, port and protocol settings, with defaults for the empty ones.
 */
module Redirect {

  /** The configuration fields the construction reads and writes. */
  datatype Config = Config(stravaRedirectURI: string, webHost: string, webPort: string, webProtocol: string)

  const CallbackPath: string := "/strava/callback"

  /** The host, "localhost" when unset. */
  function HostOf(c: Config): (h: string)
    ensures c.webHost != "" ==> h == c.webHost
    ensures c.webHost == "" ==> h == "localhost"
  {
    if c.webHost == "" then "localhost" else c.webHost
  }

  /** The port, "8080" when unset. */
  function PortOf(c: Config): (p: string)
    ensures c.webPort != "" ==> p == c.webPort
    ensures c.webPort == "" ==> p == "8080"
  {
    if c.webPort == "" then "8080" else c.webPort
  }

  /** The protocol: "https" only for exactly that setting, otherwise "http". */
  function ProtocolOf(c: Config): (p: string)
    ensures p == "https" <==> c.webProtocol == "https"
    ensures p == "https" || p == "http"
  {
    if c.webProtocol == "https" then "https" else "http"
  }

  /** The constructed URI, following the three branches of the program (standard port, https, other). */
  function ConstructedURI(c: Config): (uri: string)
    ensures ProtocolOf(c) == "https" ==> uri == "https://" + HostOf(c) + CallbackPath
    ensures ProtocolOf(c) == "http" && PortOf(c) == "80" ==> uri == "http://" + HostOf(c) + CallbackPath
    ensures ProtocolOf(c) == "http" && PortOf(c) != "80" ==> uri == "http://" + HostOf(c) + ":" + PortOf(c) + CallbackPath
  {
    var protocol := ProtocolOf(c);
    var host := HostOf(c);
    var port := PortOf(c);
    if (protocol == "http" && port == "80") || (protocol == "https" && port == "443") then
      protocol + "://" + host + CallbackPath
    else if protocol == "https" then
      protocol + "://" + host + CallbackPath
    else
      protocol + "://" + host + ":" + port + CallbackPath
  }

  /** The configuration after the construction step: an explicit URI is kept, an empty one is filled in. */
  function WithRedirect(c: Config): (c': Config)
    ensures c.stravaRedirectURI != "" ==> c' == c
    ensures c.stravaRedirectURI == "" ==> c' == c.(stravaRedirectURI := ConstructedURI(c))
  {
    if c.stravaRedirectURI == "" then c.(stravaRedirectURI := ConstructedURI(c)) else c
  }

  // ---------------------------------------------------------------------------
  // Properties

  /** The construction is idempotent: a filled-in URI is never rebuilt. */
  lemma RedirectIdempotent(c: Config)
    ensures WithRedirect(c).stravaRedirectURI != ""
    ensures WithRedirect(WithRedirect(c)) == WithRedirect(c)
  {
    if c.stravaRedirectURI == "" {
      var uri := ConstructedURI(c);
      assert |uri| >= |CallbackPath|;
    }
  }

  /** The URI is always protocol "://" host, an optional ":" port, then the callback path. */
  lemma URIShape(c: Config)
    ensures var uri := ConstructedURI(c);
      var head := ProtocolOf(c) + "://" + HostOf(c);
      && |head| + |CallbackPath| <= |uri|
      && uri[..|head|] == head
      && uri[|uri| - |CallbackPath|..] == CallbackPath
      && (uri == head + CallbackPath || uri == head + ":" + PortOf(c) + CallbackPath)
  {
    var uri := ConstructedURI(c);
    var head := ProtocolOf(c) + "://" + HostOf(c);
    if uri == head + CallbackPath {
      assert uri[..|head|] == head;
      assert uri[|uri| - |CallbackPath|..] == CallbackPath;
    } else {
      assert uri == head + (":" + PortOf(c) + CallbackPath);
      assert uri[..|head|] == head;
      assert uri == (head + ":" + PortOf(c)) + CallbackPath;
      assert uri[|uri| - |CallbackPath|..] == CallbackPath;
    }
  }

  /** An https URI never carries a port, whatever port is configured (443 or not). */
  lemma HttpsOmitsPort(c: Config, port: string)
    requires c.webProtocol == "https"
    ensures ConstructedURI(c) == "https://" + HostOf(c) + CallbackPath
    ensures ConstructedURI(c.(webPort := port)) == ConstructedURI(c)
  {
  }

  /** An http URI carries ":" port exactly when the port is not 80. */
  lemma HttpPortShownUnless80(c: Config)
    requires c.webProtocol != "https"
    ensures var head := "http://" + HostOf(c);
      ConstructedURI(c) == head + ":" + PortOf(c) + CallbackPath <==> PortOf(c) != "80"
  {
    var head := "http://" + HostOf(c);
    if PortOf(c) == "80" {
      assert |ConstructedURI(c)| < |head + ":" + PortOf(c) + CallbackPath|;
    }
  }

  /** Unset host and port give the local development URI. */
  lemma DefaultsGiveLocalURI(c: Config)
    requires c.webHost == "" && c.webPort == "" && c.webProtocol == ""
    ensures ConstructedURI(c) == "http://localhost:8080/strava/callback"
  {
    assert ProtocolOf(c) == "http" && HostOf(c) == "localhost" && PortOf(c) == "8080";
    assert ConstructedURI(c) == "http" + "://" + "localhost" + ":" + "8080" + CallbackPath;
    assert "http" + "://" == "http://";
    assert "http://" + "localhost" == "http://localhost";
    assert "http://localhost" + ":" == "http://localhost:";
    assert "http://localhost:" + "8080" == "http://localhost:8080";
    assert "http://localhost:8080" + CallbackPath == "http://localhost:8080/strava/callback";
  }

  /** The protocol setting is matched exactly: any other spelling, such as "HTTPS", gives http. */
  lemma ProtocolMatchedExactly(c: Config)
    requires c.webProtocol == "HTTPS"
    ensures ConstructedURI(c)[..7] == "http://"
  {
    var uri := ConstructedURI(c);
    var head := "http://" + HostOf(c);
    URIShape(c);
    assert uri[..|head|] == head;
    assert uri[..7] == head[..7];
  }
}
