/** The URL normaliser that runs before every fetch (main.go, processURL). */
module Url {

  const Https := "https://"
  const Http := "http://"

  /** The URL names its scheme explicitly. */
  predicate HasScheme(url: string) {
    Https <= url || Http <= url
  }

  /** Keeps a URL that already names http or https and otherwise prefixes
      "https://". Nothing else is checked, trimmed or rewritten. */
  function ProcessURL(url: string): (r: string)
    ensures HasScheme(r)
    ensures HasScheme(url) <==> r == url
    ensures !HasScheme(url) <==> r == Https + url
    ensures |r| >= |url| && r[|r| - |url|..] == url
  {
    if !(Https <= url) && !(Http <= url) then Https + url else url
  }

  /** Normalising twice is normalising once. */
  lemma ProcessURLIdempotent(url: string)
    ensures ProcessURL(ProcessURL(url)) == ProcessURL(url)
  {
  }

  /** Two inputs that both lack a scheme normalise to the same URL only if
      they are the same input: the prefix loses nothing. */
  lemma ProcessURLInjectiveWithoutScheme(u: string, v: string)
    requires !HasScheme(u) && !HasScheme(v)
    requires ProcessURL(u) == ProcessURL(v)
    ensures u == v
  {
    assert u == ProcessURL(u)[|Https|..];
    assert v == ProcessURL(v)[|Https|..];
  }

  /** A bare host gets the https scheme. */
  lemma BareHostGetsHttps()
    ensures ProcessURL("example.com") == "https://example.com"
  {
    assert "example.com"[0] != Https[0];
  }

  /** A URL that names http or https is left as it is. */
  lemma SchemeKept()
    ensures ProcessURL("http://example.com") == "http://example.com"
    ensures ProcessURL("https://example.com") == "https://example.com"
  {
    assert Http <= "http://example.com";
    assert Https <= "https://example.com";
  }

  /** "http:/" is not a scheme and is prefixed too; the scheme test is
      case-sensitive. */
  lemma LookalikesPrefixed()
    ensures ProcessURL("http:/x") == "https://http:/x"
    ensures ProcessURL("HTTP://x") == "https://HTTP://x"
  {
    assert "http:/x"[4] != Https[4] && "http:/x"[6] != Http[6];
    assert "HTTP://x"[0] != Https[0];
  }
}
