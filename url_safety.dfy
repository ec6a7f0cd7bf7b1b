/**
 * validateURL: the guard that runs before any request is built. The URL
 * parser (url.Parse) and the IP-literal parser (net.ParseIP) are parameters;
 * the host/port split of url.URL.Hostname and the address classification of
 * net.IP.IsPrivate and net.IP.IsLoopback are modelled as Go writes them.
 */
module UrlSafety {
  import opened Base

  /** The parts of a parsed url.URL the guard reads: the scheme and the authority "host[:port]". */
  datatype Url = Url(scheme: string, host: string)

  /** Index of the last occurrence of c in s, or -1 (strings.LastIndexByte). */
  function LastIndexOf(s: string, c: char): (k: int)
    ensures -1 <= k < |s|
    ensures k >= 0 ==> s[k] == c
    ensures forall i :: k < i < |s| ==> s[i] != c
  {
    if s == [] then -1
    else if s[|s| - 1] == c then |s| - 1
    else LastIndexOf(s[..|s| - 1], c)
  }

  predicate IsDigit(c: char) {
    '0' <= c <= '9'
  }

  /** url.validOptionalPort: empty, or a colon followed by decimal digits only. */
  predicate ValidOptionalPort(port: string) {
    port == [] || (port[0] == ':' && forall i :: 1 <= i < |port| ==> IsDigit(port[i]))
  }

  /**
   * url.URL.Hostname(): the host with a trailing ":digits" port removed and
   * then the brackets around an IPv6 literal removed.
   */
  function Hostname(hostPort: string): string {
    var colon := LastIndexOf(hostPort, ':');
    var host := if colon != -1 && ValidOptionalPort(hostPort[colon..]) then hostPort[..colon] else hostPort;
    if |host| >= 2 && host[0] == '[' && host[|host| - 1] == ']' then host[1..|host| - 1] else host
  }

  /** An address as net.ParseIP returns it: always the 16-byte form, IPv4 mapped into IPv6. */
  type IP = s: seq<byte> | |s| == 16 witness [0, 0, 0, 0, 0, 0, 0, 0, 0, 0, 0, 0, 0, 0, 0, 0]

  /** The address a.b.c.d, as net.ParseIP("a.b.c.d") returns it (::ffff:a.b.c.d). */
  function V4(a: byte, b: byte, c: byte, d: byte): IP {
    [0, 0, 0, 0, 0, 0, 0, 0, 0, 0, 0xff, 0xff, a, b, c, d]
  }

  /** net.IPv6loopback, ::1. */
  const V6Loopback: IP := [0, 0, 0, 0, 0, 0, 0, 0, 0, 0, 0, 0, 0, 0, 0, 1]

  /** net.IP.To4: the four IPv4 bytes of an IPv4-mapped address, or nothing. */
  function To4(ip: IP): (r: Option<seq<byte>>)
    ensures r.Some? <==> ip[..12] == [0, 0, 0, 0, 0, 0, 0, 0, 0, 0, 0xff, 0xff]
    ensures r.Some? ==> r.value == ip[12..] && |r.value| == 4
  {
    if (forall i :: 0 <= i < 10 ==> ip[i] == 0) && ip[10] == 0xff && ip[11] == 0xff then Some(ip[12..])
    else None
  }

  /** net.IP.IsLoopback: 127.0.0.0/8 or ::1. */
  predicate IsLoopback(ip: IP) {
    match To4(ip)
    case Some(ip4) => ip4[0] == 127
    case None => ip == V6Loopback
  }

  /** net.IP.IsPrivate: 10/8, 172.16/12, 192.168/16 (RFC 1918) or fc00::/7 (RFC 4193). */
  predicate IsPrivate(ip: IP) {
    match To4(ip)
    case Some(ip4) => ip4[0] == 10 || (ip4[0] == 172 && ip4[1] & 0xf0 == 16) || (ip4[0] == 192 && ip4[1] == 168)
    case None => ip[0] & 0xfe == 0xfc
  }

  /** The three host names the guard refuses by spelling alone. */
  const LocalNames: set<string> := {"localhost", "127.0.0.1", "::1"}

  /** Why validateURL refused a URL; each reason has its own message. */
  datatype ValidationError =
    | InvalidFormat(cause: string)
    | UnsupportedProtocol(scheme: string)
    | LocalHost
    | PrivateAddress(host: string)
  {
    function Message(): string {
      match this
      case InvalidFormat(cause) => "invalid URL format: " + cause
      case UnsupportedProtocol(scheme) => "unsupported protocol: " + scheme
      case LocalHost => "local host access is not allowed"
      case PrivateAddress(host) => "private IP access not allowed: " + host
    }
  }

  datatype Verdict = Allowed | Rejected(reason: ValidationError)

  /**
   * The safety policy on its own terms: the URL parses, speaks http or https,
   * and does not name this machine or a private or loopback IP literal.
   * Host names are not resolved.
   */
  predicate IsSafeTarget(raw: string, parseUrl: string -> Result<Url, string>, parseIp: string -> Option<IP>) {
    parseUrl(raw).Success? &&
    var u := parseUrl(raw).value;
    (u.scheme == "http" || u.scheme == "https") &&
    Hostname(u.host) !in LocalNames &&
    var addr := parseIp(Hostname(u.host));
    addr.Some? ==> !IsPrivate(addr.value) && !IsLoopback(addr.value)
  }

  /**
   * validateURL: the checks in source order, the first failing one decides the
   * error. The result is Allowed exactly when the target is safe, and each
   * rejection names the check that failed.
   */
  function ValidateUrl(raw: string, parseUrl: string -> Result<Url, string>, parseIp: string -> Option<IP>): (v: Verdict)
    ensures v.Allowed? <==> IsSafeTarget(raw, parseUrl, parseIp)
    ensures (v.Rejected? && v.reason.InvalidFormat?) <==> parseUrl(raw).Failure?
    ensures parseUrl(raw).Failure? ==> v == Rejected(InvalidFormat(parseUrl(raw).error))
    ensures v.Rejected? && v.reason.UnsupportedProtocol? ==>
              parseUrl(raw).Success? && v.reason.scheme == parseUrl(raw).value.scheme
              && v.reason.scheme != "http" && v.reason.scheme != "https"
    ensures v == Rejected(LocalHost) ==> parseUrl(raw).Success? && Hostname(parseUrl(raw).value.host) in LocalNames
    ensures v.Rejected? && v.reason.PrivateAddress? ==>
              parseUrl(raw).Success? && v.reason.host == Hostname(parseUrl(raw).value.host)
              && parseIp(v.reason.host).Some?
              && (IsPrivate(parseIp(v.reason.host).value) || IsLoopback(parseIp(v.reason.host).value))
  {
    match parseUrl(raw)
    case Failure(cause) => Rejected(InvalidFormat(cause))
    case Success(u) =>
      if u.scheme != "http" && u.scheme != "https" then Rejected(UnsupportedProtocol(u.scheme))
      else
        var hostname := Hostname(u.host);
        if hostname == "localhost" || hostname == "127.0.0.1" || hostname == "::1" then Rejected(LocalHost)
        else match parseIp(hostname)
          case Some(ip) =>
            if IsPrivate(ip) || IsLoopback(ip) then Rejected(PrivateAddress(hostname)) else Allowed
          case None => Allowed
  }

  /** The scheme is checked before the host: any other scheme is refused whatever the host is. */
  lemma SchemeCheckedFirst(raw: string, parseUrl: string -> Result<Url, string>, parseIp: string -> Option<IP>)
    requires parseUrl(raw).Success?
    requires parseUrl(raw).value.scheme != "http" && parseUrl(raw).value.scheme != "https"
    ensures ValidateUrl(raw, parseUrl, parseIp) == Rejected(UnsupportedProtocol(parseUrl(raw).value.scheme))
  {
  }

  /**
   * The literal names are checked before any address classification, so
   * "127.0.0.1" and "::1" draw the local-host error, not the private-address one.
   */
  lemma LocalNamesCheckedBeforeAddresses(raw: string, parseUrl: string -> Result<Url, string>, parseIp: string -> Option<IP>)
    requires parseUrl(raw).Success?
    requires parseUrl(raw).value.scheme in {"http", "https"}
    requires Hostname(parseUrl(raw).value.host) in LocalNames
    ensures ValidateUrl(raw, parseUrl, parseIp) == Rejected(LocalHost)
  {
  }

  predicate AllDigits(s: string) {
    forall i :: 0 <= i < |s| ==> IsDigit(s[i])
  }

  lemma {:induction false} HostnameDropsPort(name: string, port: string)
    requires AllDigits(port)
    ensures Hostname(name + ":" + port) == Hostname(name + ":")
  {
    var s := name + ":" + port;
    var k := LastIndexOf(s, ':');
    assert s[|name|] == ':';
    assert forall i :: |name| < i < |s| ==> s[i] == port[i - |name| - 1];
    assert k == |name|;
    assert ValidOptionalPort(s[k..]) by {
      forall i | 1 <= i < |s[k..]| ensures IsDigit(s[k..][i]) {
        assert s[k..][i] == port[i - 1];
      }
    }
    var t := name + ":";
    var k' := LastIndexOf(t, ':');
    assert k' == |name|;
    assert s[..k] == name == t[..k'];
    assert t[k'..] == ":";
  }

  lemma HostnameOfBareName(name: string)
    requires ':' !in name
    requires |name| < 2 || name[0] != '['
    ensures Hostname(name) == name
    ensures Hostname(name + ":") == name
  {
    assert LastIndexOf(name, ':') == -1;
    var t := name + ":";
    assert forall i :: 0 <= i < |name| ==> t[i] == name[i];
    assert LastIndexOf(t, ':') == |name|;
    assert t[..|name|] == name;
    assert t[|name|..] == ":";
  }

  lemma HostnameOfBracketedLoopback()
    ensures Hostname("[::1]") == "::1"
    ensures Hostname("[::1]:") == "::1"
  {
    var s := "[::1]";
    assert LastIndexOf(s, ':') == 2;
    assert s[2..][2] == ']';
    var t := "[::1]:";
    assert LastIndexOf(t, ':') == 5;
    assert t[..5] == s;
  }

  /** Each spelling of this machine, bare or with an empty port, has a local hostname. */
  lemma HostnameOfLocalName(name: string)
    requires name in {"localhost", "127.0.0.1", "[::1]"}
    ensures Hostname(name) in LocalNames && Hostname(name + ":") in LocalNames
  {
    if name == "[::1]" {
      HostnameOfBracketedLoopback();
    } else if name == "localhost" {
      HostnameOfBareName("localhost");
    } else {
      HostnameOfBareName("127.0.0.1");
    }
  }

  /**
   * "whatever the port": a URL naming localhost, 127.0.0.1 or [::1], with or
   * without a numeric port, is refused as a local host.
   */
  lemma LocalHostRefusedOnAnyPort(raw: string, parseUrl: string -> Result<Url, string>, parseIp: string -> Option<IP>,
                                  scheme: string, name: string, port: string)
    requires name in {"localhost", "127.0.0.1", "[::1]"}
    requires AllDigits(port)
    requires scheme in {"http", "https"}
    requires parseUrl(raw) == Success(Url(scheme, name)) || parseUrl(raw) == Success(Url(scheme, name + ":" + port))
    ensures ValidateUrl(raw, parseUrl, parseIp) == Rejected(LocalHost)
  {
    HostnameDropsPort(name, port);
    HostnameOfLocalName(name);
    LocalNamesCheckedBeforeAddresses(raw, parseUrl, parseIp);
  }

  /** No name resolution: any host that is not a local name and not an IP literal passes. */
  lemma PlainHostNamesPass(raw: string, parseUrl: string -> Result<Url, string>, parseIp: string -> Option<IP>)
    requires parseUrl(raw).Success?
    requires parseUrl(raw).value.scheme in {"http", "https"}
    requires Hostname(parseUrl(raw).value.host) !in LocalNames
    requires parseIp(Hostname(parseUrl(raw).value.host)) == None
    ensures ValidateUrl(raw, parseUrl, parseIp) == Allowed
  {
  }

  /** An IP literal in a private or loopback range is refused, naming the host. */
  lemma PrivateLiteralRefused(raw: string, parseUrl: string -> Result<Url, string>, parseIp: string -> Option<IP>, ip: IP)
    requires parseUrl(raw).Success?
    requires parseUrl(raw).value.scheme in {"http", "https"}
    requires Hostname(parseUrl(raw).value.host) !in LocalNames
    requires parseIp(Hostname(parseUrl(raw).value.host)) == Some(ip)
    requires IsPrivate(ip) || IsLoopback(ip)
    ensures ValidateUrl(raw, parseUrl, parseIp) == Rejected(PrivateAddress(Hostname(parseUrl(raw).value.host)))
  {
  }

  /** IsPrivate on IPv4 addresses is exactly the three blocks of section 3 of RFC 1918. */
  lemma PrivateV4IsRfc1918(a: byte, b: byte, c: byte, d: byte)
    ensures IsPrivate(V4(a, b, c, d)) <==> a == 10 || (a == 172 && 16 <= b <= 31) || (a == 192 && b == 168)
  {
    assert To4(V4(a, b, c, d)) == Some([a, b, c, d]);
  }

  /** IsLoopback on IPv4 addresses is exactly 127.0.0.0/8. */
  lemma LoopbackV4Is127(a: byte, b: byte, c: byte, d: byte)
    ensures IsLoopback(V4(a, b, c, d)) <==> a == 127
  {
    assert To4(V4(a, b, c, d)) == Some([a, b, c, d]);
  }

  /**
   * On addresses that are not IPv4-mapped, IsPrivate is exactly fc00::/7 of
   * section 3 of RFC 4193 and IsLoopback is exactly ::1.
   */
  lemma V6Classification(ip: IP)
    requires To4(ip).None?
    ensures IsPrivate(ip) <==> ip[0] == 0xfc || ip[0] == 0xfd
    ensures IsLoopback(ip) <==> ip == V6Loopback
  {
  }
}
