/** The SSRF guard applied before an image is fetched: only http and https
    URLs whose host is neither a loopback name nor a private or link-local
    address pass. The URL is handed over already parsed; `None` is a string
    the URL constructor rejects. */
module Security {
  import opened Wrappers
  import opened Strings
  import opened Urls

  /** Host names refused outright by `src/utils/security.js`. */
  const LocalNames: seq<string> := ["localhost", "::1", "[::1]", "0.0.0.0"]

  /** The same list in `src/utils/imageDimensions.js`, which lacks "[::1]". */
  const ImageLocalNames: seq<string> := ["localhost", "::1", "0.0.0.0"]

  /** `172\.(1[6-9]|2[0-9]|3[0-1])\.` at the start of `h`. */
  predicate Private172(h: string) {
    StartsWith(h, "172.") && |h| >= 7 && h[6] == '.'
    && ((h[4] == '1' && '6' <= h[5] <= '9') || (h[4] == '2' && IsDigit(h[5])) || (h[4] == '3' && '0' <= h[5] <= '1'))
  }

  /** `^(10\.|172\.(1[6-9]|2[0-9]|3[0-1])\.|192\.168\.|169\.254\.|127\.)` */
  predicate PrivateIpv4(h: string) {
    StartsWith(h, "10.") || Private172(h) || StartsWith(h, "192.168.") || StartsWith(h, "169.254.") || StartsWith(h, "127.")
  }

  /** `/^[fF][cCdD]/` or `/^[fF][eE]80:/`: unique-local and link-local
      IPv6 text. */
  predicate PrivateIpv6(h: string) {
    MatchesAt(h, 0, "fc") || MatchesAt(h, 0, "fd") || MatchesAt(h, 0, "fe80:")
  }

  predicate WebProtocol(u: Url) {
    u.protocol == "http:" || u.protocol == "https:"
  }

  /** The checks in order, over a given list of refused names. */
  function Guard(parsed: Option<Url>, names: seq<string>): (ok: bool)
    ensures ok <==> (parsed.Some? && WebProtocol(parsed.value) && parsed.value.hostname !in names
                     && !PrivateIpv4(parsed.value.hostname) && !PrivateIpv6(parsed.value.hostname))
  {
    match parsed
    case None => false
    case Some(u) =>
      if !WebProtocol(u) then false
      else if u.hostname in names then false
      else if PrivateIpv4(u.hostname) then false
      else !PrivateIpv6(u.hostname)
  }

  /** `validateUrl` of `src/utils/security.js`, as written. */
  function ValidateUrl(parsed: Option<Url>): (ok: bool)
    ensures ok ==> parsed.Some? && WebProtocol(parsed.value)
    ensures ok ==> parsed.value.hostname !in LocalNames && !PrivateIpv4(parsed.value.hostname)
  {
    Guard(parsed, LocalNames)
  }

  /** `validateUrl` of `src/utils/imageDimensions.js`, as written. */
  function ImageValidateUrlAsWritten(parsed: Option<Url>): (ok: bool)
    ensures ok ==> parsed.Some? && WebProtocol(parsed.value) && parsed.value.hostname !in ImageLocalNames
  {
    Guard(parsed, ImageLocalNames)
  }

  /** The three-digit second octet of a `172.x.` host lies in 16..31
      exactly when the range test accepts it. */
  lemma Private172Range(h: string)
    requires StartsWith(h, "172.") && |h| >= 7 && h[6] == '.' && IsDigit(h[4]) && IsDigit(h[5])
    ensures Private172(h) <==> 16 <= 10 * DigitValue(h[4]) + DigitValue(h[5]) <= 31
  {
  }

  /** A loopback or private host is refused whatever the scheme and path. */
  lemma RefusesPrivate(u: Url)
    requires u.hostname in LocalNames || PrivateIpv4(u.hostname)
    ensures !ValidateUrl(Some(u))
  {
  }

  /** Schemes other than http and https are refused. */
  lemma RefusesOtherSchemes(u: Url)
    requires u.protocol != "http:" && u.protocol != "https:"
    ensures !ValidateUrl(Some(u))
  {
  }

  /** `p` is a prefix of `h`, checked character by character. */
  lemma PrefixByChars(h: string, p: string)
    requires |p| <= |h| && forall i :: 0 <= i < |p| ==> h[i] == p[i]
    ensures StartsWith(h, p)
  {
    assert h[..|p|] == p;
  }

  /** One differing character rules a prefix out. */
  lemma NotPrefixAt(h: string, p: string, i: nat)
    requires i < |p| && i < |h| && h[i] != p[i]
    ensures !StartsWith(h, p)
  {
  }

  /** The private addresses the guard is written against. */
  lemma PrivateExamples()
    ensures PrivateIpv4("10.0.0.1") && PrivateIpv4("172.16.0.1") && PrivateIpv4("192.168.1.1")
    ensures PrivateIpv4("169.254.169.254") && PrivateIpv4("127.0.0.1")
  {
    PrefixByChars("10.0.0.1", "10.");
    PrefixByChars("172.16.0.1", "172.");
    PrefixByChars("192.168.1.1", "192.168.");
    PrefixByChars("169.254.169.254", "169.254.");
    PrefixByChars("127.0.0.1", "127.");
  }

  /** The edges of the 172.16.0.0/12 range. */
  lemma Range172Edges()
    ensures !Private172("172.32.0.1") && !Private172("172.15.0.1") && Private172("172.31.0.1")
  {
    PrefixByChars("172.31.0.1", "172.");
  }

  /** A public host on http or https passes. */
  lemma AcceptsPublic()
    ensures ValidateUrl(Some(Url("https:", "example.com", "", "/", "", "")))
  {
    var h := "example.com";
    NotPrefixAt(h, "10.", 0);
    NotPrefixAt(h, "172.", 0);
    NotPrefixAt(h, "192.168.", 0);
    NotPrefixAt(h, "169.254.", 0);
    NotPrefixAt(h, "127.", 0);
    assert LowerChar(h[0]) == 'e' && "fc"[0] == 'f' && "fd"[0] == 'f' && "fe80:"[0] == 'f';
  }

  // -------------------------------------------- bracketed IPv6 host names

  /** The host name of an IPv6 literal keeps its brackets (`new
      URL("http://[::1]/").hostname` is "[::1]"), so the address text sits
      between them. */
  function Unbracket(h: string): (r: string)
    ensures |r| <= |h|
    ensures |h| >= 2 && h[0] == '[' && h[|h| - 1] == ']' ==> "[" + r + "]" == h
    ensures !(|h| >= 2 && h[0] == '[' && h[|h| - 1] == ']') ==> r == h
  {
    if |h| >= 2 && h[0] == '[' && h[|h| - 1] == ']' then h[1..|h| - 1] else h
  }

  /** The IPv6 tests as written never fire on a bracketed host. */
  lemma Ipv6TestMissesBrackets(h: string)
    requires |h| > 0 && h[0] == '['
    ensures !PrivateIpv6(h)
  {
    assert LowerChar(h[0]) == '[' && "fc"[0] == 'f' && "fd"[0] == 'f' && "fe80:"[0] == 'f';
  }

  /** As written, both validators let a unique-local IPv6 host through. */
  lemma AcceptsUniqueLocalAsWritten()
    ensures ValidateUrl(Some(Url("http:", "[fd00::1]", "", "/", "", "")))
    ensures ImageValidateUrlAsWritten(Some(Url("http:", "[fd00::1]", "", "/", "", "")))
  {
    var h := "[fd00::1]";
    Ipv6TestMissesBrackets(h);
    NotPrefixAt(h, "10.", 0);
    NotPrefixAt(h, "172.", 0);
    NotPrefixAt(h, "192.168.", 0);
    NotPrefixAt(h, "169.254.", 0);
    NotPrefixAt(h, "127.", 0);
  }

  /** As written, the image-size fetcher lets the IPv6 loopback through. */
  lemma ImageAcceptsLoopbackAsWritten()
    ensures ImageValidateUrlAsWritten(Some(Url("http:", "[::1]", "", "/", "", "")))
  {
    var h := "[::1]";
    Ipv6TestMissesBrackets(h);
    NotPrefixAt(h, "10.", 0);
    NotPrefixAt(h, "172.", 0);
    NotPrefixAt(h, "192.168.", 0);
    NotPrefixAt(h, "169.254.", 0);
    NotPrefixAt(h, "127.", 0);
  }

  /** The guard with the IPv6 tests applied to the address inside the
      brackets, and the loopback names of `src/utils/security.js`: the
      validator both copies evidently intend. */
  function SafeUrl(parsed: Option<Url>): (ok: bool)
    ensures ok ==> ValidateUrl(parsed)
    ensures ok ==> !PrivateIpv6(Unbracket(parsed.value.hostname))
    ensures parsed.Some? && !(|parsed.value.hostname| > 0 && parsed.value.hostname[0] == '[')
      ==> (ok <==> ValidateUrl(parsed))
  {
    ValidateUrl(parsed) && !PrivateIpv6(Unbracket(parsed.value.hostname))
  }

  /** Every bracketed unique-local or link-local address is refused, and
      so is the IPv6 loopback. */
  lemma SafeUrlRefusesIpv6(u: Url)
    requires |u.hostname| >= 2 && u.hostname[0] == '[' && u.hostname[|u.hostname| - 1] == ']'
    requires PrivateIpv6(u.hostname[1..|u.hostname| - 1]) || u.hostname == "[::1]"
    ensures !SafeUrl(Some(u))
  {
  }

  lemma SafeUrlRefusesExamples()
    ensures !SafeUrl(Some(Url("http:", "[fd00::1]", "", "/", "", "")))
    ensures !SafeUrl(Some(Url("https:", "[fe80::1]", "", "/", "", "")))
    ensures !SafeUrl(Some(Url("http:", "[::1]", "", "/", "", "")))
  {
    assert MatchesAt("[fd00::1]"[1..8], 0, "fd");
    assert MatchesAt("[fe80::1]"[1..8], 0, "fe80:");
  }
}
