/** `iCurl::proxy`: turns a proxy URL into the pair (proxy type,
    "host:port") that curl's proxy options take, or `false`. The URL is
    taken already split by `parse_url`. */
module Proxy {
  import opened PhpValues
  import opened PhpStrings

  /** The components of `parse_url`'s result that `proxy` reads; a
      component `parse_url` leaves out is `None`. */
  datatype UrlParts = UrlParts(scheme: Option<string>, host: Option<string>, port: Option<nat>)

  /** curl's proxy types. */
  datatype ProxyType = Http | Socks4 | Socks5

  /** The numeric values of `CURLPROXY_HTTP`, `CURLPROXY_SOCKS4` and
      `CURLPROXY_SOCKS5`. */
  function ProxyCode(t: ProxyType): (r: int)
    ensures t == Http <==> r == 0
    ensures t == Socks4 <==> r == 4
    ensures t == Socks5 <==> r == 5
  {
    match t
    case Http => 0
    case Socks4 => 4
    case Socks5 => 5
  }

  /** The type a lower-case scheme selects, if any. */
  function SchemeType(scheme: string): (r: Option<ProxyType>)
    ensures r == Some(Http) <==> scheme == "http" || scheme == "https"
    ensures r == Some(Socks5) <==> scheme == "socks" || scheme == "socks5"
    ensures r == Some(Socks4) <==> scheme == "socks4"
  {
    if scheme == "http" || scheme == "https" then Some(Http)
    else if scheme == "socks" || scheme == "socks5" then Some(Socks5)
    else if scheme == "socks4" then Some(Socks4)
    else None
  }

  /** `"{$host}:{$port}"`. */
  function Address(host: string, port: nat): string {
    host + ":" + NatToDecimal(port)
  }

  /** `iCurl::proxy`, given `parse_url($url)` (`None` where it returns
      `false`). `None` stands for the `false` result; otherwise the pair
      is the curl proxy-type constant and the address. */
  function ProxyOf(parsed: Option<UrlParts>): (r: Option<(int, string)>)
    ensures r.Some? <==>
      && parsed.Some?
      && parsed.value.scheme.Some? && parsed.value.host.Some? && parsed.value.port.Some?
      && SchemeType(Lower(parsed.value.scheme.value)).Some?
    ensures r.Some? ==>
      && r.value.0 == ProxyCode(SchemeType(Lower(parsed.value.scheme.value)).value)
      && r.value.1 == Address(parsed.value.host.value, parsed.value.port.value)
  {
    match parsed
    case None => None
    case Some(parts) =>
      if parts.scheme.None? || parts.host.None? || parts.port.None? then None
      else
        var scheme := Lower(parts.scheme.value);
        var address := Address(parts.host.value, parts.port.value);
        match SchemeType(scheme)
        case Some(t) => Some((ProxyCode(t), address))
        case None => None
  }

  /** The scheme is matched without regard to ASCII case. */
  lemma SchemeCaseInsensitive(scheme: string, host: string, port: nat)
    ensures ProxyOf(Some(UrlParts(Some(scheme), Some(host), Some(port)))) ==
            ProxyOf(Some(UrlParts(Some(Lower(scheme)), Some(host), Some(port))))
  {
    LowerIdempotent(scheme);
  }

  /** The host and the port can be read back from the address when the
      host holds no `:`. */
  lemma AddressRoundTrip(host: string, port: nat)
    requires !Contains(host, ":")
    ensures var (h, p) := SplitOnce(Address(host, port), ":");
      h == host && p.Some? && AllDigits(p.value) && DecimalValue(p.value) == port
  {
    SplitAtFirstChar(host, ':', NatToDecimal(port));
    DecimalRoundTrip(port);
  }

  /** Some URLs and what `proxy` makes of them. */
  lemma Examples()
    ensures ProxyOf(Some(UrlParts(Some("HTTPS"), Some("proxy.local"), Some(8080)))) ==
            Some((0, "proxy.local:8080"))
    ensures ProxyOf(Some(UrlParts(Some("socks5"), Some("proxy.local"), Some(1080)))) ==
            Some((5, "proxy.local:1080"))
    ensures ProxyOf(Some(UrlParts(Some("ftp"), Some("proxy.local"), Some(21)))).None?
    ensures ProxyOf(Some(UrlParts(Some("http"), Some("proxy.local"), None))).None?
    ensures ProxyOf(None).None?
  {
    assert Lower("HTTPS") == "https";
    assert NatToDecimal(8080) == "8080";
    assert Address("proxy.local", 8080) == "proxy.local:8080";
    assert NatToDecimal(1080) == "1080";
    assert Address("proxy.local", 1080) == "proxy.local:1080";
    assert Lower("socks5") == "socks5";
    assert Lower("ftp") == "ftp";
  }
}
