/**
 * `PaulinaScraper.make_absolute_url`: turns the `src` of an image into an absolute URL,
 * relative to the page the image was found on. The page URL enters the model already
 * split by `urllib.parse.urlparse` into its scheme and network location.
 */
module Urls {
  import opened Text

  /** The two parts of the page URL that the function uses. */
  datatype BaseUrl = BaseUrl(scheme: string, netloc: string)

  /** `scheme://netloc`, the page URL without path, query or fragment. */
  function Origin(base: BaseUrl): string {
    base.scheme + "://" + base.netloc
  }

  predicate IsSuffix(s: string, r: string) {
    |s| <= |r| && r[|r| - |s|..] == s
  }

  /**
   * The four branches, tried in order: protocol-relative `//host/...` always gets `https:`
   * (never the page's own scheme); root-relative `/...` gets the page origin; anything
   * starting with `http` is taken as absolute; anything else is resolved against the origin,
   * not against the page's directory.
   */
  function MakeAbsoluteUrl(src: string, base: BaseUrl): (r: string)
    ensures StartsWith(src, "//") ==> r == "https:" + src
    ensures !StartsWith(src, "//") && StartsWith(src, "/") ==> r == Origin(base) + src
    ensures !StartsWith(src, "/") && StartsWith(src, "http") ==> r == src
    ensures !StartsWith(src, "/") && !StartsWith(src, "http") ==> r == Origin(base) + "/" + src
    ensures IsSuffix(src, r)
  {
    if StartsWith(src, "//") then "https:" + src
    else if StartsWith(src, "/") then Origin(base) + src
    else if StartsWith(src, "http") then src
    else Origin(base) + "/" + src
  }

  /** Whether the page was served over a scheme that itself starts with `http`. */
  predicate WebScheme(base: BaseUrl) {
    StartsWith(base.scheme, "http")
  }

  /** For a page served over http(s), every result is one the function leaves as it is. */
  lemma MakeAbsoluteUrlGivesAbsolute(src: string, base: BaseUrl)
    requires WebScheme(base)
    ensures StartsWith(MakeAbsoluteUrl(src, base), "http")
  {
    var r := MakeAbsoluteUrl(src, base);
    if StartsWith(src, "//") {
      assert r[..4] == "https:"[..4];
    } else if !StartsWith(src, "/") && StartsWith(src, "http") {
    } else {
      assert r[..|base.scheme|] == base.scheme;
      assert r[..4] == base.scheme[..4];
    }
  }

  /** Making an URL absolute twice is making it absolute once. */
  lemma MakeAbsoluteUrlIdempotent(src: string, base: BaseUrl)
    requires WebScheme(base)
    ensures MakeAbsoluteUrl(MakeAbsoluteUrl(src, base), base) == MakeAbsoluteUrl(src, base)
  {
    var r := MakeAbsoluteUrl(src, base);
    MakeAbsoluteUrlGivesAbsolute(src, base);
    assert r[0] == 'h';
    assert !StartsWith(r, "/");
  }

  /** Worked example: a protocol-relative source gets `https:`. */
  lemma ProtocolRelativeExample()
    ensures MakeAbsoluteUrl("//c/a.jpg", BaseUrl("http", "shop")) == "https://c/a.jpg"
  {
    assert StartsWith("//c/a.jpg", "//");
  }

  /** Worked example: a root-relative source gets the page origin. */
  lemma RootRelativeExample()
    ensures MakeAbsoluteUrl("/a.jpg", BaseUrl("http", "shop")) == "http://shop/a.jpg"
  {
    var src := "/a.jpg";
    assert src[..2][1] != "//"[1];
    assert StartsWith(src, "/");
  }

  /** Worked example: a path-relative source is resolved against the origin. */
  lemma PathRelativeExample()
    ensures MakeAbsoluteUrl("p/a.jpg", BaseUrl("http", "shop")) == "http://shop/p/a.jpg"
  {
    var src := "p/a.jpg";
    assert src[..2][0] != "//"[0];
    assert src[..1][0] != "/"[0];
    assert src[..4][0] != "http"[0];
    var base := BaseUrl("http", "shop");
    assert MakeAbsoluteUrl(src, base) == Origin(base) + "/" + src;
    assert Origin(base) == "http://shop";
  }
}
