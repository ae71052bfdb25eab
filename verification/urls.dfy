/** URLs as the scripts see them after `new URL(...)`: a parsed record.
    Parsing itself is not modelled; callers pass the parse result, `None`
    standing for the `TypeError` the constructor throws. */
module Urls {
  import opened Wrappers
  import opened Strings

  /** The parts of a WHATWG URL the scripts read. `protocol` keeps its ':',
      `search` its '?' and `hash` its '#', each empty when absent. */
  datatype Url = Url(protocol: string, hostname: string, port: string, pathname: string, search: string, hash: string)

  /** `url.toString()` for a URL without credentials. */
  function Href(u: Url): (r: string)
    ensures StartsWith(r, u.protocol + "//" + u.hostname)
    ensures EndsWith(r, u.pathname + u.search + u.hash)
  {
    var head := u.protocol + "//" + u.hostname;
    var tail := u.pathname + u.search + u.hash;
    var r := head + (if u.port == "" then "" else ":" + u.port) + tail;
    assert r[..|head|] == head;
    assert r[|r| - |tail|..] == tail;
    r
  }

  /** Characters the regular-expression `.` does not match. */
  predicate LineTerminator(c: char) {
    c == '\n' || c == '\r' || c == '\U{2028}' || c == '\U{2029}'
  }

  /** `(jpg|jpeg|png|gif|webp|svg)` at position `k`, in any case. */
  predicate ImageExtensionAt(s: string, k: int) {
    MatchesAt(s, k, "jpg") || MatchesAt(s, k, "jpeg") || MatchesAt(s, k, "png")
    || MatchesAt(s, k, "gif") || MatchesAt(s, k, "webp") || MatchesAt(s, k, "svg")
  }

  /** The length of a leading `https?://`, in any case. */
  function SchemeLength(s: string): (n: Option<nat>)
    ensures n.Some? ==> n.value <= |s|
  {
    if MatchesAt(s, 0, "https://") then Some(8)
    else if MatchesAt(s, 0, "http://") then Some(7)
    else None
  }

  /** Position `j` is the '.' of `.+\.(ext)` after a scheme of length `n`:
      at least one character lies between, none a line terminator. */
  predicate ExtensionDotAt(s: string, n: nat, j: int) {
    n < j < |s| && s[j] == '.' && ImageExtensionAt(s, j + 1)
    && forall k :: n <= k < j ==> !LineTerminator(s[k])
  }

  /** `/^https?:\/\/.+\.(jpg|jpeg|png|gif|webp|svg)/i.test(s)`: the extension
      need not end the string. */
  predicate IsImageUrl(s: string) {
    SchemeLength(s).Some? && exists j :: 0 <= j < |s| && ExtensionDotAt(s, SchemeLength(s).value, j)
  }

  /** The same test as a left-to-right scan: the loop stops at the first
      line terminator, since no later dot can follow `.+`. */
  method MatchImageUrl(s: string) returns (found: bool)
    ensures found <==> IsImageUrl(s)
  {
    var scheme := SchemeLength(s);
    if scheme.None? {
      return false;
    }
    var n := scheme.value;
    var j := n + 1;
    while j < |s|
      invariant n + 1 <= j
      invariant forall k :: n <= k < j - 1 && k < |s| ==> !LineTerminator(s[k])
      invariant forall i :: n < i < j && i < |s| ==> !ExtensionDotAt(s, n, i)
    {
      if LineTerminator(s[j - 1]) {
        NoDotAfterBreak(s, n, j - 1);
        return false;
      }
      if s[j] == '.' && ImageExtensionAt(s, j + 1) {
        assert ExtensionDotAt(s, n, j);
        return true;
      }
      j := j + 1;
    }
    return false;
  }

  /** A line terminator after the scheme rules out every later dot. */
  lemma NoDotAfterBreak(s: string, n: nat, b: nat)
    requires n <= b < |s| && LineTerminator(s[b])
    ensures forall i :: b < i ==> !ExtensionDotAt(s, n, i)
  {
  }

  /** Upper case does not matter and the extension may be followed by more
      text. */
  lemma ImageUrlUpperCase()
    ensures IsImageUrl("HTTPS://a.io/x.PNG")
  {
    var a := "HTTPS://a.io/x.PNG";
    assert MatchesAt(a, 0, "https://");
    assert MatchesAt(a, 15, "png");
    assert ExtensionDotAt(a, 8, 14);
  }

  lemma ImageUrlInside()
    ensures IsImageUrl("http://a.io/x.svgz/readme")
  {
    var c := "http://a.io/x.svgz/readme";
    assert !MatchesAt(c, 0, "https://") by {
      assert LowerChar(c[4]) == ':' && "https://"[4] == 's';
    }
    assert MatchesAt(c, 0, "http://");
    assert MatchesAt(c, 14, "svg");
    assert ExtensionDotAt(c, 7, 13);
  }

  /** Another scheme, or a dot right after the scheme, does not count. */
  lemma NotImageUrls()
    ensures !IsImageUrl("ftp://a.io/x.png")
    ensures !IsImageUrl("https://.png")
  {
    var d := "ftp://a.io/x.png";
    assert LowerChar(d[0]) == 'f' && "https://"[0] == 'h' && "http://"[0] == 'h';
    assert SchemeLength(d) == None;
    var e := "https://.png";
    assert MatchesAt(e, 0, "https://");
    assert e[9] == 'p' && e[10] == 'n' && e[11] == 'g';
  }
}
