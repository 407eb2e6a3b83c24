/** The two generated text routes: `robots.txt` and `sitemap.xml`, built from
    the configured site URL and the registry's slugs. */
module SiteText {

  import opened Text
  import Registry

  /** The configured site URL with every trailing `/` removed. */
  function Base(siteUrl: string): (base: string)
    ensures base == [] || base[|base| - 1] != '/'
    ensures '\n' !in siteUrl ==> '\n' !in base
  {
    var stripped := RStrip(siteUrl, '/');
    assert forall k :: 0 <= k < |stripped| ==> stripped[k] == siteUrl[k];
    stripped
  }

  /** The lines of `robots.txt`: three of them, each a single line when the
      site URL is. */
  function RobotsLines(siteUrl: string): (lines: seq<string>)
    ensures |lines| == 3
    ensures '\n' !in siteUrl ==> forall k :: 0 <= k < |lines| ==> '\n' !in lines[k]
  {
    ["User-agent: *", "Allow: /", "Sitemap: " + Base(siteUrl) + "/sitemap.xml"]
  }

  /** The body of `robots.txt`: its lines joined by newlines, so it opens
      with the two fixed lines and ends with the sitemap path. */
  function Robots(siteUrl: string): (body: string)
    ensures "User-agent: *\nAllow: /\nSitemap: " <= body
    ensures |body| >= 12 && body[|body| - 12..] == "/sitemap.xml"
  {
    RobotsText(siteUrl, Base(siteUrl) + "/sitemap.xml");
    Join(RobotsLines(siteUrl), '\n')
  }

  /** The three lines of `robots.txt` joined, written out. */
  lemma RobotsText(siteUrl: string, tail: string)
    requires tail == Base(siteUrl) + "/sitemap.xml"
    ensures Join(RobotsLines(siteUrl), '\n') == "User-agent: *\nAllow: /\nSitemap: " + tail
    ensures tail[|tail| - 12..] == "/sitemap.xml"
  {
    var third := "Sitemap: " + tail;
    assert RobotsLines(siteUrl) == ["User-agent: *", "Allow: /", third] by {
      assert "Sitemap: " + Base(siteUrl) + "/sitemap.xml" == third;
    }
    JoinThree("User-agent: *", "Allow: /", third, '\n');
    RobotsPrefix(tail);
  }

  /** The two fixed lines and the `Sitemap: ` label, as one literal. */
  lemma RobotsPrefix(tail: string)
    ensures "User-agent: *" + "\n" + "Allow: /" + "\n" + ("Sitemap: " + tail) == "User-agent: *\nAllow: /\nSitemap: " + tail
  {
  }

  lemma JoinThree(a: string, b: string, c: string, sep: char)
    ensures Join([a, b, c], sep) == a + [sep] + b + [sep] + c
  {
    assert [a, b, c][1..] == [b, c];
    assert [b, c][1..] == [c];
    assert Join([b, c], sep) == b + [sep] + c;
  }

  /** `robots.txt` reads back as exactly three lines, the last one pointing
      at the sitemap under the site URL with no doubled slash. */
  lemma RobotsShape(siteUrl: string)
    requires '\n' !in siteUrl
    ensures Split(Robots(siteUrl), '\n') == RobotsLines(siteUrl)
    ensures |Split(Robots(siteUrl), '\n')| == 3
    ensures Split(Robots(siteUrl), '\n')[2] == "Sitemap: " + Base(siteUrl) + "/sitemap.xml"
    ensures siteUrl[..|Base(siteUrl)|] == Base(siteUrl)
    ensures Base(siteUrl) == [] || Base(siteUrl)[|Base(siteUrl)| - 1] != '/'
  {
    var lines := RobotsLines(siteUrl);
    var base := Base(siteUrl);
    assert '\n' !in "Sitemap: " + base + "/sitemap.xml";
    SplitJoin(lines, '\n');
  }

  /** The sitemaps.org schema namespace of the `urlset` element. */
  const SitemapNamespace: string := "http://www.sitemaps.org/schemas/sitemap/0.9"

  const SitemapHeader: seq<string> := [
    "<?xml version=\"1.0\" encoding=\"UTF-8\"?>",
    "<urlset xmlns=\"" + SitemapNamespace + "\">"
  ]

  const SitemapFooter: string := "</urlset>"

  /** The paths the sitemap lists: home, the guide, then each tool page in
      registry order. */
  function SitePaths(slugs: seq<string>): (paths: seq<string>)
    ensures |paths| == |slugs| + 2
    ensures paths[0] == "/" && paths[1] == "/how-to-use"
    ensures forall k :: 0 <= k < |slugs| ==> paths[k + 2] == "/tool/" + slugs[k]
  {
    ["/", "/how-to-use"] + seq(|slugs|, k requires 0 <= k < |slugs| => "/tool/" + slugs[k])
  }

  /** One `<url>` entry of the sitemap: the page URL between the `<loc>`
      tags inside the `<url>` tags. */
  function UrlLine(base: string, path: string): (line: string)
    ensures |line| == |base| + |path| + 22
    ensures line[..10] == "<url><loc>" && line[|line| - 12..] == "</loc></url>"
    ensures line[10..|line| - 12] == base + path
  {
    "<url><loc>" + base + path + "</loc></url>"
  }

  /** The lines of the sitemap: header, one entry per path, footer. */
  function SitemapLines(base: string, paths: seq<string>): (lines: seq<string>)
    ensures |lines| == |paths| + 3
    ensures lines[..2] == SitemapHeader && lines[|lines| - 1] == SitemapFooter
    ensures forall k :: 0 <= k < |paths| ==> lines[k + 2] == UrlLine(base, paths[k])
  {
    SitemapHeader + seq(|paths|, k requires 0 <= k < |paths| => UrlLine(base, paths[k])) + [SitemapFooter]
  }

  /** `sitemap()`: the entries for home, the guide and every tool page
      between the header and the closing tag, joined with newlines. */
  method Sitemap(siteUrl: string) returns (body: string)
    ensures body == Join(SitemapLines(Base(siteUrl), SitePaths(Registry.Slugs())), '\n')
  {
    var parts := SitemapParts(Base(siteUrl), SitePaths(Registry.Slugs()));
    body := Join(parts, '\n');
  }

  /** The loop of `sitemap()`: appends one entry per path to the header,
      then closes the `urlset`. */
  method SitemapParts(base: string, urls: seq<string>) returns (parts: seq<string>)
    ensures parts == SitemapLines(base, urls)
  {
    parts := SitemapHeader;
    ghost var header := parts;
    for i := 0 to |urls|
      invariant |parts| == i + 2
      invariant parts[..2] == header
      invariant forall k :: 0 <= k < i ==> parts[k + 2] == UrlLine(base, urls[k])
    {
      parts := parts + [UrlLine(base, urls[i])];
    }
    parts := parts + [SitemapFooter];
  }

  lemma UrlLineSingle(base: string, path: string)
    requires '\n' !in base && '\n' !in path
    ensures '\n' !in UrlLine(base, path)
  {
    assert '\n' !in "<url><loc>" && '\n' !in "</loc></url>";
  }

  lemma XmlDeclarationSingleLine()
    ensures '\n' !in SitemapHeader[0]
  {
  }

  lemma UrlsetOpeningSingleLine()
    ensures '\n' !in SitemapHeader[1]
  {
    assert '\n' !in SitemapNamespace;
  }

  lemma SitemapLinesSingle(base: string, slugs: seq<string>)
    requires '\n' !in base
    requires forall k :: 0 <= k < |slugs| ==> '\n' !in slugs[k]
    ensures forall k :: 0 <= k < |SitemapLines(base, SitePaths(slugs))| ==> '\n' !in SitemapLines(base, SitePaths(slugs))[k]
  {
    var paths := SitePaths(slugs);
    var lines := SitemapLines(base, paths);
    assert forall k :: 2 <= k < |lines| - 1 ==> '\n' !in lines[k] by {
      forall k | 2 <= k < |lines| - 1 ensures '\n' !in lines[k] {
        EntrySingle(base, slugs, k - 2);
      }
    }
    assert forall k :: 0 <= k < 2 ==> '\n' !in lines[k] by {
      XmlDeclarationSingleLine();
      UrlsetOpeningSingleLine();
    }
    assert lines[|lines| - 1] == SitemapFooter;
  }

  /** The entry for the k-th path is one line. */
  lemma EntrySingle(base: string, slugs: seq<string>, k: nat)
    requires '\n' !in base
    requires forall k :: 0 <= k < |slugs| ==> '\n' !in slugs[k]
    requires k < |slugs| + 2
    ensures '\n' !in SitemapLines(base, SitePaths(slugs))[k + 2]
  {
    var p := SitePaths(slugs)[k];
    if k >= 2 {
      assert p == "/tool/" + slugs[k - 2];
      assert '\n' !in "/tool/";
    }
    UrlLineSingle(base, p);
  }

  /** The sitemap reads back as `|slugs| + 5` lines: the two header lines,
      an entry for `/`, one for `/how-to-use`, one per tool in registry
      order, and the closing tag. */
  lemma SitemapShape(base: string, slugs: seq<string>)
    requires '\n' !in base
    requires forall k :: 0 <= k < |slugs| ==> '\n' !in slugs[k]
    ensures var lines := Split(Join(SitemapLines(base, SitePaths(slugs)), '\n'), '\n');
      && |lines| == |slugs| + 5
      && lines[..2] == SitemapHeader
      && lines[2] == UrlLine(base, "/")
      && lines[3] == UrlLine(base, "/how-to-use")
      && (forall k :: 0 <= k < |slugs| ==> lines[k + 4] == UrlLine(base, "/tool/" + slugs[k]))
      && lines[|lines| - 1] == SitemapFooter
  {
    var lines := SitemapLines(base, SitePaths(slugs));
    assert Split(Join(lines, '\n'), '\n') == lines by {
      SitemapLinesSingle(base, slugs);
      SplitJoin(lines, '\n');
    }
    SitemapLinesOrder(base, slugs);
  }

  lemma SitemapLinesOrder(base: string, slugs: seq<string>)
    ensures var lines := SitemapLines(base, SitePaths(slugs));
      && |lines| == |slugs| + 5
      && lines[..2] == SitemapHeader
      && lines[2] == UrlLine(base, "/")
      && lines[3] == UrlLine(base, "/how-to-use")
      && (forall k :: 0 <= k < |slugs| ==> lines[k + 4] == UrlLine(base, "/tool/" + slugs[k]))
      && lines[|lines| - 1] == SitemapFooter
  {
  }

  /** No registry slug holds a line break, so the real sitemap has the
      shape above with `|TOOLS| + 5` lines. */
  lemma RegistrySitemapShape(siteUrl: string)
    requires '\n' !in siteUrl
    ensures |Split(Join(SitemapLines(Base(siteUrl), SitePaths(Registry.Slugs())), '\n'), '\n')|
            == |Registry.Slugs()| + 5
  {
    Registry.SlugsSingleLine();
    SitemapShape(Base(siteUrl), Registry.Slugs());
  }
}
