// scripts/scrape-portfolio.mjs: what the scraper keeps of each page, how it names and
// records the files it downloads, and how it assembles the manifest. The browser and the
// network are parameters: the elements a page query returns, and oracles that say
// whether navigating, creating a directory or downloading a file succeeded.
module Scrape {
  import opened Wrappers
  import opened Seqs
  import opened Strings
  import opened Paths
  import JsMaps
  import opened Manifest

  const BaseUrl: string := "https://thejake.design"

  /** The pages crawled, in order. */
  const Pages: seq<PageSpec> := [
    PageSpec("home", BaseUrl, "Home"),
    PageSpec("about", BaseUrl + "/about", "About"),
    PageSpec("graphic-design", BaseUrl + "/graphic-design-1", "Graphic Design"),
    PageSpec("animation", BaseUrl + "/animation", "Animation & Video"),
    PageSpec("photography", BaseUrl + "/portfolio-photography", "Photography"),
    PageSpec("coding", BaseUrl + "/coding", "Coding"),
    PageSpec("contact", BaseUrl + "/contact", "Contact")
  ]

  // ---------------------------------------------------------------------------
  // The elements the page queries return, as plain records.

  /** An `<img>`: its resolved `src`, its `data-src` if any, `alt` and sizes. */
  datatype ImgElement = ImgElement(
    src: string, dataSrc: Option<string>, alt: string,
    naturalWidth: nat, width: nat, naturalHeight: nat, height: nat)

  /** A `<source>` inside a `<video>`. */
  datatype SourceElement = SourceElement(src: string, mediaType: string)

  /**
   * A `<video>` with its own `src` and its `<source>` children. A video element has no `type`
   * property, so `vid.type || ''` is always the empty string and the model carries no type here.
   */
  datatype VideoElement = VideoElement(src: string, sources: seq<SourceElement>)

  datatype IframeElement = IframeElement(src: string)

  /** An `h1`..`h4` element: its upper-case tag name and its text. */
  datatype HeadingElement = HeadingElement(tagName: string, textContent: string)

  datatype AnchorElement = AnchorElement(href: string, textContent: string)

  /** What the page queries return once the page has loaded and scrolled. */
  datatype Dom = Dom(
    imgs: seq<ImgElement>, videos: seq<VideoElement>, iframes: seq<IframeElement>,
    headings: seq<HeadingElement>, paragraphs: seq<string>, anchors: seq<AnchorElement>)

  // ---------------------------------------------------------------------------
  // Extraction filters.

  /** `a || b` on strings. */
  function OrElse(a: string, b: string): string {
    if a != "" then a else b
  }

  /** `a || b` on numbers. */
  function OrElseNat(a: nat, b: nat): nat {
    if a != 0 then a else b
  }

  /** The record the image query maps an `<img>` to. */
  function ImageRecord(e: ImgElement): ImageRef {
    ImageRef(OrElse(e.src, e.dataSrc.GetOr("")), e.alt,
             OrElseNat(e.naturalWidth, e.width), OrElseNat(e.naturalHeight, e.height))
  }

  predicate KeepImage(r: ImageRef) {
    r.src != "" && !StartsWith(r.src, "data:") && Contains(r.src, "cdn.myportfolio.com")
  }

  /** The image query: the records of the CDN-hosted images, in document order. */
  function ExtractImages(els: seq<ImgElement>): (r: seq<ImageRef>)
    ensures |r| <= |els|
    ensures forall i :: 0 <= i < |r| ==>
              r[i].src != "" && !StartsWith(r[i].src, "data:") && Contains(r[i].src, "cdn.myportfolio.com")
  {
    Filter(Map(ImageRecord, els), KeepImage)
  }

  /** An image record is kept exactly when it comes from some `<img>` and passes the filter. */
  lemma ExtractImagesMembers(els: seq<ImgElement>)
    ensures forall r :: r in ExtractImages(els) ==> KeepImage(r) && exists k :: 0 <= k < |els| && r == ImageRecord(els[k])
    ensures forall k :: 0 <= k < |els| && KeepImage(ImageRecord(els[k])) ==> ImageRecord(els[k]) in ExtractImages(els)
  {
    FilterMapMembers(ImageRecord, els, KeepImage);
  }

  /** The images of two stretches of the page are those of each, in order. */
  lemma ExtractImagesConcat(a: seq<ImgElement>, b: seq<ImgElement>)
    ensures ExtractImages(a + b) == ExtractImages(a) + ExtractImages(b)
  {
    MapConcat(ImageRecord, a, b);
    FilterConcat(Map(ImageRecord, a), Map(ImageRecord, b), KeepImage);
  }

  predicate KeepVideo(v: VideoRef) {
    v.src != "" && !StartsWith(v.src, "data:")
  }

  /** The record a `<source>` child contributes. */
  function SourceRef(s: SourceElement): VideoRef {
    VideoRef(s.src, s.mediaType)
  }

  predicate HasSrc(v: VideoRef) {
    v.src != ""
  }

  /** The records one `<video>` contributes: its sources with a `src` if it has any, else its own `src`. */
  function ElementCandidates(v: VideoElement): seq<VideoRef> {
    if |v.sources| > 0 then Filter(Map(SourceRef, v.sources), HasSrc)
    else if v.src != "" then [VideoRef(v.src, "")]
    else []
  }

  /** What the video loop pushes, before the final filter. */
  function VideoCandidates(vids: seq<VideoElement>): seq<VideoRef> {
    if vids == [] then [] else VideoCandidates(vids[..|vids| - 1]) + ElementCandidates(vids[|vids| - 1])
  }

  /**
   * A `<video>` contributes a record from one of its `<source>` children with a non-empty
   * `src` when it has children, and its own non-empty `src` only when it has none.
   */
  lemma ElementCandidatesSpec(v: VideoElement, r: VideoRef)
    ensures r in ElementCandidates(v) <==>
              || (|v.sources| > 0 && exists k :: 0 <= k < |v.sources| && v.sources[k].src != ""
                                               && r == SourceRef(v.sources[k]))
              || (|v.sources| == 0 && v.src != "" && r == VideoRef(v.src, ""))
  {
    if |v.sources| > 0 {
      FilterMapMembers(SourceRef, v.sources, HasSrc);
    }
  }

  /** The inner loop of the video query: the `<source>` children with a `src`, in order. */
  method CollectSources(sources: seq<SourceElement>) returns (refs: seq<VideoRef>)
    ensures refs == Filter(Map(SourceRef, sources), HasSrc)
  {
    refs := [];
    for j := 0 to |sources|
      invariant refs == Filter(Map(SourceRef, sources[..j]), HasSrc)
    {
      assert sources[..j + 1] == sources[..j] + [sources[j]];
      MapConcat(SourceRef, sources[..j], [sources[j]]);
      FilterConcat(Map(SourceRef, sources[..j]), Map(SourceRef, [sources[j]]), HasSrc);
      if sources[j].src != "" {
        refs := refs + [VideoRef(sources[j].src, sources[j].mediaType)];
      }
    }
    assert sources[..|sources|] == sources;
  }

  /** The video query: for each `<video>` its sources, or its own `src`; then the filter. */
  method ExtractVideos(vids: seq<VideoElement>) returns (refs: seq<VideoRef>)
    ensures refs == Filter(VideoCandidates(vids), KeepVideo)
  {
    var results: seq<VideoRef> := [];
    for i := 0 to |vids|
      invariant results == VideoCandidates(vids[..i])
    {
      var vid := vids[i];
      assert vids[..i + 1][..i] == vids[..i];
      if |vid.sources| > 0 {
        var fromSources := CollectSources(vid.sources);
        results := results + fromSources;
      } else if vid.src != "" {
        results := results + [VideoRef(vid.src, "")];
      }
    }
    assert vids[..|vids|] == vids;
    refs := Filter(results, KeepVideo);
  }

  function IframeRecord(e: IframeElement): IframeRef {
    IframeRef(e.src)
  }

  predicate KeepIframe(f: IframeRef) {
    f.src != "" && Contains(f.src, "adobe.io")
  }

  /** The iframe query: the embedded players served from adobe.io, in document order. */
  function ExtractIframes(els: seq<IframeElement>): (r: seq<IframeRef>)
    ensures |r| <= |els|
    ensures forall i :: 0 <= i < |r| ==> Contains(r[i].src, "adobe.io")
  {
    Filter(Map(IframeRecord, els), KeepIframe)
  }

  /** An iframe is kept exactly when its `src` mentions adobe.io. */
  lemma ExtractIframesMembers(els: seq<IframeElement>)
    ensures forall f :: f in ExtractIframes(els) ==> IframeElement(f.src) in els && Contains(f.src, "adobe.io")
    ensures forall k :: 0 <= k < |els| && Contains(els[k].src, "adobe.io") ==> IframeRef(els[k].src) in ExtractIframes(els)
  {
    FilterMapMembers(IframeRecord, els, KeepIframe);
    forall f | f in ExtractIframes(els) ensures IframeElement(f.src) in els {
      var k :| 0 <= k < |els| && f == IframeRecord(els[k]);
      assert els[k] == IframeElement(f.src);
    }
    forall k | 0 <= k < |els| && Contains(els[k].src, "adobe.io") ensures KeepIframe(IframeRecord(els[k])) {
      NonEmptyWhenContains(els[k].src, "adobe.io");
    }
  }

  /** A string containing a non-empty string is not empty. */
  lemma NonEmptyWhenContains(s: string, p: string)
    requires p != [] && Contains(s, p)
    ensures s != []
  {
  }

  function HeadingRecord(e: HeadingElement): Heading {
    Heading(ToLower(e.tagName), Trim(e.textContent))
  }

  predicate HasText(h: Heading) {
    h.text != ""
  }

  /** The heading query: lower-cased tag and trimmed text of the headings whose text is not blank. */
  function ExtractHeadings(els: seq<HeadingElement>): (r: seq<Heading>)
    ensures |r| <= |els|
    ensures forall i :: 0 <= i < |r| ==> r[i].text != ""
  {
    Filter(Map(HeadingRecord, els), HasText)
  }

  /** A heading is kept exactly when its text is not all white space. */
  lemma ExtractHeadingsMembers(els: seq<HeadingElement>)
    ensures forall h :: h in ExtractHeadings(els) ==>
              exists k :: 0 <= k < |els| && h == Heading(ToLower(els[k].tagName), Trim(els[k].textContent))
    ensures forall k :: 0 <= k < |els| && Trim(els[k].textContent) != "" ==> HeadingRecord(els[k]) in ExtractHeadings(els)
  {
    FilterMapMembers(HeadingRecord, els, HasText);
  }

  predicate NotBlank(t: string) {
    t != ""
  }

  /** The paragraph query: trimmed texts that are not blank. */
  function ExtractParagraphs(texts: seq<string>): (r: seq<string>)
    ensures |r| <= |texts|
    ensures forall i :: 0 <= i < |r| ==> r[i] != ""
  {
    Filter(Map(Trim, texts), NotBlank)
  }

  /** A paragraph is kept, trimmed, exactly when it is not all white space. */
  lemma ExtractParagraphsMembers(texts: seq<string>)
    ensures forall t :: t in ExtractParagraphs(texts) ==> exists k :: 0 <= k < |texts| && t == Trim(texts[k])
    ensures forall k :: 0 <= k < |texts| && Trim(texts[k]) != "" ==> Trim(texts[k]) in ExtractParagraphs(texts)
  {
    FilterMapMembers(Trim, texts, NotBlank);
  }

  function LinkRecord(e: AnchorElement): Link {
    Link(e.href, Trim(e.textContent))
  }

  predicate KeepLink(l: Link) {
    l.href != "" && l.text != "" && !Contains(l.href, "thejake.design")
  }

  /** The link query: outbound links with visible text, in document order. */
  function ExtractLinks(els: seq<AnchorElement>): (r: seq<Link>)
    ensures |r| <= |els|
    ensures forall i :: 0 <= i < |r| ==> r[i].href != "" && r[i].text != "" && !Contains(r[i].href, "thejake.design")
  {
    Filter(Map(LinkRecord, els), KeepLink)
  }

  /** A link is kept exactly when it has an `href`, has visible text and leaves the portfolio site. */
  lemma ExtractLinksMembers(els: seq<AnchorElement>)
    ensures forall l :: l in ExtractLinks(els) ==> exists k :: 0 <= k < |els| && l == LinkRecord(els[k])
    ensures forall k :: 0 <= k < |els| && KeepLink(LinkRecord(els[k])) ==> LinkRecord(els[k]) in ExtractLinks(els)
  {
    FilterMapMembers(LinkRecord, els, KeepLink);
  }

  /** What `scrapePage` returns for a page whose queries returned `dom`. */
  function Scraped(page: PageSpec, dom: Dom): ScrapedPage {
    ScrapedPage(page.slug, page.url, page.title,
                ExtractImages(dom.imgs), Filter(VideoCandidates(dom.videos), KeepVideo),
                ExtractIframes(dom.iframes),
                TextContent(ExtractHeadings(dom.headings), ExtractParagraphs(dom.paragraphs)),
                ExtractLinks(dom.anchors))
  }

  /** `scrapePage` after navigation: the queries run on the loaded page. */
  method ScrapePage(page: PageSpec, dom: Dom) returns (sp: ScrapedPage)
    ensures sp == Scraped(page, dom)
  {
    var images := ExtractImages(dom.imgs);
    var videos := ExtractVideos(dom.videos);
    var iframes := ExtractIframes(dom.iframes);
    var textContent := TextContent(ExtractHeadings(dom.headings), ExtractParagraphs(dom.paragraphs));
    var links := ExtractLinks(dom.anchors);
    sp := ScrapedPage(page.slug, page.url, page.title, images, videos, iframes, textContent, links);
  }

  // ---------------------------------------------------------------------------
  // File names.

  /**
   * `getExtFromUrl`: the extension of the URL's path when it is non-empty and at most five
   * characters, else `.mp4` or `.webm` when the URL says `type=mp4` or `type=webm`, else
   * `.jpg`; `.jpg` also when the URL does not parse. The result always looks like an
   * extension: a dot, at most four more characters, none of them a slash.
   */
  function GetExtFromUrl(url: string): (ext: string)
    ensures IsExtension(ext)
  {
    match UrlPathname(url)
    case None => ".jpg"
    case Some(pathname) =>
      var e := Extname(pathname);
      if e != "" && |e| <= 5 then e else TypeHint(url)
  }

  /** A dot followed by at most four characters, none of them a dot or a slash. */
  predicate IsExtension(e: string) {
    1 <= |e| <= 5 && e[0] == '.' && forall i :: 1 <= i < |e| ==> e[i] != '/' && e[i] != '.'
  }

  /** The `type=` hints, read when the path gives no usable extension. */
  function TypeHint(url: string): (ext: string)
    ensures IsExtension(ext)
    ensures ext == ".mp4" <==> Contains(url, "type=mp4")
  {
    if Contains(url, "type=mp4") then ".mp4" else if Contains(url, "type=webm") then ".webm" else ".jpg"
  }

  /** The pieces of `scheme://host/d/stem.x?q` that the extension lemmas need. */
  predicate UrlShape(scheme: string, host: string, d: string, name: string, q: string) {
    && IsScheme(scheme)
    && '/' !in host && '?' !in host && '#' !in host
    && (d == [] || d[0] == '/') && '?' !in d && '#' !in d
    && name != [] && '/' !in name && '?' !in name && '#' !in name
    && (q == [] || q[0] == '?' || q[0] == '#')
  }

  /** The URL `scheme://host` + `d/name` + `q`, whose pathname is `d/name`. */
  lemma UrlShapePathname(scheme: string, host: string, d: string, name: string, q: string)
    requires UrlShape(scheme, host, d, name, q)
    ensures UrlPathname(scheme + "://" + host + (d + "/" + name) + q) == Some(d + "/" + name)
  {
    var path := d + "/" + name;
    assert path[0] == '/';
    assert '?' !in path && '#' !in path by {
      forall i | 0 <= i < |path| ensures path[i] != '?' && path[i] != '#' {
        if i < |d| { assert path[i] == d[i]; } else if i > |d| { assert path[i] == name[i - |d| - 1]; }
      }
    }
    UrlPathnameOf(scheme, host, path, q);
  }

  /** A character absent from `stem.x` is absent from both parts. */
  lemma NotInParts(stem: string, x: string, c: char)
    requires c !in stem + "." + x
    ensures c !in stem && c !in x
  {
    var name := stem + "." + x;
    assert forall i :: 0 <= i < |stem| ==> stem[i] == name[i];
    assert forall i :: 0 <= i < |x| ==> x[i] == name[|stem| + 1 + i];
  }

  /** A usable extension of the pathname is the extension used. */
  lemma GetExtFromPathname(url: string, path: string)
    requires UrlPathname(url) == Some(path)
    requires Extname(path) != "" && |Extname(path)| <= 5
    ensures GetExtFromUrl(url) == Extname(path)
  {
  }

  /** A file extension of one to four characters in the URL's path is the extension used. */
  lemma GetExtFromUrlOfPath(scheme: string, host: string, d: string, stem: string, x: string, q: string)
    requires UrlShape(scheme, host, d, stem + "." + x, q)
    requires stem != [] && 1 <= |x| <= 4 && '.' !in x
    ensures GetExtFromUrl(scheme + "://" + host + (d + "/" + stem + "." + x) + q) == "." + x
  {
    var name := stem + "." + x;
    var path := d + "/" + stem + "." + x;
    assert path == d + "/" + name;
    NotInParts(stem, x, '/');
    UrlShapePathname(scheme, host, d, name, q);
    ExtnameOf(d, stem, x);
    GetExtFromPathname(scheme + "://" + host + path + q, path);
  }

  /** A last path segment without a dot leaves the choice to the `type=` hints. */
  lemma GetExtFromUrlNoExtension(scheme: string, host: string, d: string, name: string, q: string)
    requires UrlShape(scheme, host, d, name, q) && '.' !in name
    ensures var url := scheme + "://" + host + (d + "/" + name) + q;
      GetExtFromUrl(url) == TypeHint(url)
  {
    UrlShapePathname(scheme, host, d, name, q);
    ExtnameNoDot(d, name);
  }

  /** An extension of five characters or more after the dot is not used either: the hints decide. */
  lemma GetExtFromUrlLongExtension(scheme: string, host: string, d: string, stem: string, x: string, q: string)
    requires UrlShape(scheme, host, d, stem + "." + x, q)
    requires stem != [] && |x| >= 5 && '.' !in x
    ensures var url := scheme + "://" + host + (d + "/" + stem + "." + x) + q;
      GetExtFromUrl(url) == TypeHint(url)
  {
    var name := stem + "." + x;
    var path := d + "/" + stem + "." + x;
    assert path == d + "/" + name;
    NotInParts(stem, x, '/');
    UrlShapePathname(scheme, host, d, name, q);
    ExtnameOf(d, stem, x);
  }

  /** So such a URL whose query says `type=mp4` is saved as `.mp4`. */
  lemma GetExtFromUrlMp4Hint(scheme: string, host: string, d: string, name: string, q: string)
    requires UrlShape(scheme, host, d, name, q) && '.' !in name
    requires Contains(q, "type=mp4")
    ensures GetExtFromUrl(scheme + "://" + host + (d + "/" + name) + q) == ".mp4"
  {
    GetExtFromUrlNoExtension(scheme, host, d, name, q);
    ContainsInfix(scheme + "://" + host + (d + "/" + name), q, "", "type=mp4");
    assert scheme + "://" + host + (d + "/" + name) + q + "" == scheme + "://" + host + (d + "/" + name) + q;
  }

  /** A string with no colon is not a URL, and gets `.jpg`. */
  lemma GetExtFromUrlNoScheme(url: string)
    requires ':' !in url
    ensures GetExtFromUrl(url) == ".jpg"
  {
    UrlPathnameNoScheme(url);
  }

  /** `String(i + 1).padStart(3, '0')`. */
  function SequenceNumber(i: nat): (r: string)
    ensures |r| >= 3
    ensures forall k :: 0 <= k < |r| ==> IsDigit(r[k])
  {
    var s := NatToString(i + 1);
    var r := PadStartZeros(s, 3);
    LeadingZeros(|r| - |s|, s);
    r
  }

  /** The sequence number reads back as the 1-based position. */
  lemma SequenceNumberValue(i: nat)
    ensures DecimalValue(SequenceNumber(i)) == i + 1
  {
    var s := NatToString(i + 1);
    LeadingZeros(|PadStartZeros(s, 3)| - |s|, s);
    NatToStringValue(i + 1);
  }

  /** The file name of the `i`-th (0-based) unique item: `img-001.jpg`, `vid-002.mp4`, ... */
  function Filename(prefix: string, i: nat, ext: string): string {
    prefix + SequenceNumber(i) + ext
  }

  /** The first position of `a + x` that holds no digit is `|a|`, when `a` is all digits and `x` starts with a non-digit. */
  lemma FirstNonDigit(a: string, x: string)
    requires forall k :: 0 <= k < |a| ==> IsDigit(a[k])
    requires x != [] && !IsDigit(x[0])
    ensures forall k :: 0 <= k < |a| ==> IsDigit((a + x)[k])
    ensures !IsDigit((a + x)[|a|])
  {
  }

  /** Two digit runs each followed by something that starts with a non-digit agree. */
  lemma DigitsPrefix(a: string, x: string, b: string, y: string)
    requires forall k :: 0 <= k < |a| ==> IsDigit(a[k])
    requires forall k :: 0 <= k < |b| ==> IsDigit(b[k])
    requires x != [] && !IsDigit(x[0]) && y != [] && !IsDigit(y[0])
    requires a + x == b + y
    ensures a == b
  {
    FirstNonDigit(a, x);
    FirstNonDigit(b, y);
    assert |a| == |b|;
    assert a == (a + x)[..|a|];
    assert b == (b + y)[..|b|];
  }

  /** Different positions get different file names, whatever the extensions. */
  lemma FilenameInjective(prefix: string, i: nat, j: nat, ext1: string, ext2: string)
    requires ext1 != [] && ext1[0] == '.' && ext2 != [] && ext2[0] == '.'
    ensures Filename(prefix, i, ext1) == Filename(prefix, j, ext2) ==> i == j
  {
    if Filename(prefix, i, ext1) == Filename(prefix, j, ext2) {
      var a, b := SequenceNumber(i), SequenceNumber(j);
      assert (prefix + a + ext1)[|prefix|..] == a + ext1;
      assert (prefix + b + ext2)[|prefix|..] == b + ext2;
      DigitsPrefix(a, ext1, b, ext2);
      SequenceNumberValue(i);
      SequenceNumberValue(j);
    }
  }

  /** `path.relative(PROJECT_ROOT, path.join(ASSETS_DIR, slug, filename))` with `/` separators. */
  function LocalPath(slug: string, filename: string): (p: string)
    ensures '\\' !in p
    ensures '\\' !in slug && '\\' !in filename ==> p == "tmp-assets/" + slug + "/" + filename
  {
    ReplaceBackslashes("tmp-assets/" + slug + "/" + filename)
  }

  // ---------------------------------------------------------------------------
  // De-duplication: `[...new Map(xs.map((x) => [x.src, x])).values()]`.

  function SrcEntries<T>(xs: seq<T>, src: T -> string): (es: seq<(string, T)>)
    ensures |es| == |xs|
    ensures forall i :: 0 <= i < |xs| ==> es[i] == (src(xs[i]), xs[i])
  {
    seq(|xs|, i requires 0 <= i < |xs| => (src(xs[i]), xs[i]))
  }

  function DedupBySrc<T>(xs: seq<T>, src: T -> string): seq<T> {
    JsMaps.FromEntries(SrcEntries(xs, src)).Values()
  }

  /** The first position of `xs` whose `src` is `s`. */
  function FirstWithSrc<T>(xs: seq<T>, src: T -> string, s: string): (n: nat)
    requires exists i :: 0 <= i < |xs| && src(xs[i]) == s
    ensures n < |xs| && src(xs[n]) == s
    ensures forall j :: 0 <= j < n ==> src(xs[j]) != s
  {
    var es := SrcEntries(xs, src);
    var i :| 0 <= i < |xs| && src(xs[i]) == s;
    assert es[i].0 == s;
    JsMaps.FirstIndex(es, s)
  }

  /** The last position of `xs` whose `src` is `s`. */
  function LastWithSrc<T>(xs: seq<T>, src: T -> string, s: string): (n: nat)
    requires exists i :: 0 <= i < |xs| && src(xs[i]) == s
    ensures n < |xs| && src(xs[n]) == s
    ensures forall j :: n < j < |xs| ==> src(xs[j]) != s
  {
    var es := SrcEntries(xs, src);
    var i :| 0 <= i < |xs| && src(xs[i]) == s;
    assert es[i].0 == s;
    JsMaps.LastIndex(es, s)
  }

  /** The `i`-th survivor of de-duplication is the last element with the `i`-th key of the map. */
  lemma DedupElement<T>(xs: seq<T>, src: T -> string, i: nat)
    requires i < |DedupBySrc(xs, src)|
    ensures var m := JsMaps.FromEntries(SrcEntries(xs, src));
      && i < |m.keys|
      && m.keys[i] in JsMaps.KeySet(SrcEntries(xs, src))
      && src(DedupBySrc(xs, src)[i]) == m.keys[i]
      && DedupBySrc(xs, src)[i] == xs[JsMaps.LastIndex(SrcEntries(xs, src), m.keys[i])]
  {
    var es := SrcEntries(xs, src);
    var m := JsMaps.FromEntries(es);
    JsMaps.FromEntriesKeys(es);
    JsMaps.FromEntriesValues(es);
    assert m.keys[i] in m.vals;
    assert m.keys[i] in JsMaps.KeySet(es);
    var n := JsMaps.LastIndex(es, m.keys[i]);
    assert DedupBySrc(xs, src)[i] == es[n].1 == xs[n];
  }

  /** De-duplication never yields more elements than it was given. */
  lemma DedupSize<T>(xs: seq<T>, src: T -> string)
    ensures |DedupBySrc(xs, src)| <= |xs|
  {
    JsMaps.FromEntriesSizeBound(SrcEntries(xs, src));
  }

  /** No two survivors share a `src`. */
  lemma DedupDistinct<T>(xs: seq<T>, src: T -> string)
    ensures var r := DedupBySrc(xs, src);
      forall i, j :: 0 <= i < j < |r| ==> src(r[i]) != src(r[j])
  {
    var r := DedupBySrc(xs, src);
    forall i, j | 0 <= i < j < |r| ensures src(r[i]) != src(r[j]) {
      DedupElement(xs, src, i);
      DedupElement(xs, src, j);
    }
  }

  /** Every `src` of the input has a survivor, and every survivor's `src` is one of the input's. */
  lemma DedupCovers<T>(xs: seq<T>, src: T -> string)
    ensures var r := DedupBySrc(xs, src);
      && (forall k :: 0 <= k < |xs| ==> exists i :: 0 <= i < |r| && src(r[i]) == src(xs[k]))
      && (forall i :: 0 <= i < |r| ==> exists k :: 0 <= k < |xs| && src(xs[k]) == src(r[i]))
  {
    var es := SrcEntries(xs, src);
    var m := JsMaps.FromEntries(es);
    var r := DedupBySrc(xs, src);
    JsMaps.FromEntriesKeys(es);
    forall k | 0 <= k < |xs| ensures exists i :: 0 <= i < |r| && src(r[i]) == src(xs[k]) {
      assert es[k].0 == src(xs[k]);
      assert m.Has(src(xs[k]));
      var i :| 0 <= i < |m.keys| && m.keys[i] == src(xs[k]);
      DedupElement(xs, src, i);
    }
    forall i | 0 <= i < |r| ensures exists k :: 0 <= k < |xs| && src(xs[k]) == src(r[i]) {
      DedupElement(xs, src, i);
    }
  }

  /**
   * The survivor for a `src` is the LAST element with that `src`: `Map.set` overwrites the
   * value of a key that is already present.
   */
  lemma DedupKeepsLast<T>(xs: seq<T>, src: T -> string)
    ensures var r := DedupBySrc(xs, src);
      forall i :: 0 <= i < |r| ==>
        (exists k :: 0 <= k < |xs| && src(xs[k]) == src(r[i])) && r[i] == xs[LastWithSrc(xs, src, src(r[i]))]
  {
    var r := DedupBySrc(xs, src);
    forall i | 0 <= i < |r|
      ensures (exists k :: 0 <= k < |xs| && src(xs[k]) == src(r[i])) && r[i] == xs[LastWithSrc(xs, src, src(r[i]))]
    {
      DedupElement(xs, src, i);
      var n := JsMaps.LastIndex(SrcEntries(xs, src), src(r[i]));
      assert src(xs[n]) == src(r[i]);
    }
  }

  /** Survivors are ordered by the FIRST position of their `src`: a key keeps its place when overwritten. */
  lemma DedupOrder<T>(xs: seq<T>, src: T -> string, i: nat, j: nat)
    requires i < j < |DedupBySrc(xs, src)|
    ensures exists k :: 0 <= k < |xs| && src(xs[k]) == src(DedupBySrc(xs, src)[i])
    ensures exists k :: 0 <= k < |xs| && src(xs[k]) == src(DedupBySrc(xs, src)[j])
    ensures FirstWithSrc(xs, src, src(DedupBySrc(xs, src)[i])) < FirstWithSrc(xs, src, src(DedupBySrc(xs, src)[j]))
  {
    var es := SrcEntries(xs, src);
    var r := DedupBySrc(xs, src);
    JsMaps.FromEntriesOrder(es);
    DedupElement(xs, src, i);
    DedupElement(xs, src, j);
    var a := JsMaps.FirstIndex(es, src(r[i]));
    var b := JsMaps.FirstIndex(es, src(r[j]));
    assert src(xs[a]) == src(r[i]) && src(xs[b]) == src(r[j]);
    assert FirstWithSrc(xs, src, src(r[i])) == a;
    assert FirstWithSrc(xs, src, src(r[j])) == b;
  }

  function ImageSrc(r: ImageRef): string { r.src }

  function VideoSrc(r: VideoRef): string { r.src }

  function UniqueImages(images: seq<ImageRef>): seq<ImageRef> {
    DedupBySrc(images, ImageSrc)
  }

  function UniqueVideos(videos: seq<VideoRef>): seq<VideoRef> {
    DedupBySrc(videos, VideoSrc)
  }

  // ---------------------------------------------------------------------------
  // Downloads.

  /** The record the image loop pushes for the `i`-th unique image once it has downloaded. */
  function PlannedImage(slug: string, img: ImageRef, i: nat): Download {
    var filename := Filename("img-", i, GetExtFromUrl(img.src));
    ImageFile(LocalPath(slug, filename), img.src, img.alt, filename)
  }

  function PlannedVideo(slug: string, vid: VideoRef, i: nat): Download {
    var filename := Filename("vid-", i, GetExtFromUrl(vid.src));
    VideoFile(LocalPath(slug, filename), vid.src, vid.mediaType, filename)
  }

  /** One attempt per unique image, in order. */
  function PlannedImages(slug: string, unique: seq<ImageRef>): (r: seq<Download>)
    ensures |r| == |unique|
  {
    seq(|unique|, i requires 0 <= i < |unique| => PlannedImage(slug, unique[i], i))
  }

  function PlannedVideos(slug: string, unique: seq<VideoRef>): (r: seq<Download>)
    ensures |r| == |unique|
  {
    seq(|unique|, i requires 0 <= i < |unique| => PlannedVideo(slug, unique[i], i))
  }

  /** Whether `downloadFile(url, dest)` resolved for this attempt. */
  function Fetched(fetch: (string, string) -> bool): Download -> bool {
    (d: Download) => fetch(d.originalUrl, d.localPath)
  }

  /** The media of a section: the attempts whose download succeeded, images before videos. */
  function SectionMedia(section: ScrapedPage, fetch: (string, string) -> bool): Media {
    Media(Filter(PlannedImages(section.slug, UniqueImages(section.images)), Fetched(fetch)),
          Filter(PlannedVideos(section.slug, UniqueVideos(section.videos)), Fetched(fetch)))
  }

  /** The image loop of `downloadSectionMedia`: one attempt per unique image, in order. */
  method DownloadImages(slug: string, uniqueImages: seq<ImageRef>, fetch: (string, string) -> bool)
    returns (downloadedImages: seq<Download>)
    ensures downloadedImages == Filter(PlannedImages(slug, uniqueImages), Fetched(fetch))
  {
    downloadedImages := [];
    ghost var planned := PlannedImages(slug, uniqueImages);
    for i := 0 to |uniqueImages|
      invariant downloadedImages == Filter(planned[..i], Fetched(fetch))
    {
      var img := uniqueImages[i];
      var ext := GetExtFromUrl(img.src);
      var filename := Filename("img-", i, ext);
      var localPath := LocalPath(slug, filename);
      assert planned[i] == ImageFile(localPath, img.src, img.alt, filename);
      FilterPrefixStep(planned, i, Fetched(fetch));
      if fetch(img.src, localPath) {
        downloadedImages := downloadedImages + [ImageFile(localPath, img.src, img.alt, filename)];
      }
    }
    assert planned[..|uniqueImages|] == planned;
  }

  /** The video loop of `downloadSectionMedia`: one attempt per unique video, in order. */
  method DownloadVideos(slug: string, uniqueVideos: seq<VideoRef>, fetch: (string, string) -> bool)
    returns (downloadedVideos: seq<Download>)
    ensures downloadedVideos == Filter(PlannedVideos(slug, uniqueVideos), Fetched(fetch))
  {
    downloadedVideos := [];
    ghost var planned := PlannedVideos(slug, uniqueVideos);
    for i := 0 to |uniqueVideos|
      invariant downloadedVideos == Filter(planned[..i], Fetched(fetch))
    {
      var vid := uniqueVideos[i];
      var ext := GetExtFromUrl(vid.src);
      var filename := Filename("vid-", i, ext);
      var localPath := LocalPath(slug, filename);
      assert planned[i] == VideoFile(localPath, vid.src, vid.mediaType, filename);
      FilterPrefixStep(planned, i, Fetched(fetch));
      if fetch(vid.src, localPath) {
        downloadedVideos := downloadedVideos + [VideoFile(localPath, vid.src, vid.mediaType, filename)];
      }
    }
    assert planned[..|uniqueVideos|] == planned;
  }

  /**
   * `downloadSectionMedia`: create the section directory (which may throw), then attempt
   * every unique image and then every unique video once, in order, keeping the records
   * of the downloads that succeeded.
   */
  method DownloadSectionMedia(section: ScrapedPage, makeDir: string -> Option<string>,
                              fetch: (string, string) -> bool)
    returns (r: Result<Media, string>)
    ensures makeDir(section.slug).Some? ==> r == Failure(makeDir(section.slug).value)
    ensures makeDir(section.slug).None? ==> r == Success(SectionMedia(section, fetch))
  {
    match makeDir(section.slug)
    case Some(message) =>
      return Failure(message);
    case None =>
      var downloadedImages := DownloadImages(section.slug, UniqueImages(section.images), fetch);
      var downloadedVideos := DownloadVideos(section.slug, UniqueVideos(section.videos), fetch);
      return Success(Media(downloadedImages, downloadedVideos));
  }

  // ---------------------------------------------------------------------------
  // The manifest.

  /** The entry pushed for a page that threw. */
  function ErrorEntry(page: PageSpec, message: string): ManifestEntry {
    ManifestEntry(page.slug, page.title, page.url, None, None, None,
                  Some(Media([], [])), None, Some(message))
  }

  /** The entry pushed for a page that was scraped and whose media were attempted. */
  function SuccessEntry(sp: ScrapedPage, media: Media): ManifestEntry {
    ManifestEntry(sp.slug, sp.title, sp.url, Some(sp.textContent), Some(sp.links), Some(sp.iframes),
                  Some(media),
                  Some(Stats(|sp.images|, |sp.videos|, |sp.iframes|, |media.images|, |media.videos|)),
                  None)
  }

  /** The manifest entry of one page, given the outcomes of its I/O. */
  function EntryFor(page: PageSpec, browse: PageSpec -> Result<Dom, string>,
                    makeDir: string -> Option<string>, fetch: (string, string) -> bool): ManifestEntry
  {
    match browse(page)
    case Failure(message) => ErrorEntry(page, message)
    case Success(dom) =>
      var sp := Scraped(page, dom);
      match makeDir(sp.slug)
      case Some(message) => ErrorEntry(page, message)
      case None => SuccessEntry(sp, SectionMedia(sp, fetch))
  }

  /** The body of the loop of `main`: scrape one page inside a try/catch. */
  method ScrapeEntry(pageInfo: PageSpec, browse: PageSpec -> Result<Dom, string>,
                     makeDir: string -> Option<string>, fetch: (string, string) -> bool)
    returns (entry: ManifestEntry)
    ensures entry == EntryFor(pageInfo, browse, makeDir, fetch)
  {
    match browse(pageInfo)
    case Failure(message) =>
      entry := ErrorEntry(pageInfo, message);
    case Success(dom) =>
      var scraped := ScrapePage(pageInfo, dom);
      var downloaded := DownloadSectionMedia(scraped, makeDir, fetch);
      match downloaded
      case Failure(message) =>
        entry := ErrorEntry(pageInfo, message);
      case Success(media) =>
        entry := SuccessEntry(scraped, media);
  }

  /** The entries of `pages` in order, `entry` giving the entry of one page. */
  function Entries(pages: seq<PageSpec>, entry: PageSpec -> ManifestEntry): (r: seq<ManifestEntry>)
    ensures |r| == |pages|
    decreases |pages|
  {
    if pages == [] then [] else Entries(pages[..|pages| - 1], entry) + [entry(pages[|pages| - 1])]
  }

  /** Entry `i` is the entry of page `i`: no page's outcome shifts or replaces another's. */
  lemma {:induction false} EntriesAt(pages: seq<PageSpec>, entry: PageSpec -> ManifestEntry, i: nat)
    requires i < |pages|
    ensures Entries(pages, entry)[i] == entry(pages[i])
    decreases |pages|
  {
    var n := |pages| - 1;
    if i < n {
      assert pages[..n][i] == pages[i];
      EntriesAt(pages[..n], entry, i);
    }
  }

  /**
   * The loop of `main`: every page in order, each inside its own try/catch, so that a failing
   * page yields an error entry and the loop goes on.
   */
  method ScrapeAll(pages: seq<PageSpec>, browse: PageSpec -> Result<Dom, string>,
                   makeDir: string -> Option<string>, fetch: (string, string) -> bool)
    returns (allData: seq<ManifestEntry>)
    ensures |allData| == |pages|
    ensures forall i :: 0 <= i < |pages| ==> allData[i] == EntryFor(pages[i], browse, makeDir, fetch)
  {
    allData := [];
    ghost var entryOf := (p: PageSpec) => EntryFor(p, browse, makeDir, fetch);
    for i := 0 to |pages|
      invariant allData == Entries(pages[..i], entryOf)
    {
      var entry := ScrapeEntry(pages[i], browse, makeDir, fetch);
      assert pages[..i + 1][..i] == pages[..i];
      allData := allData + [entry];
    }
    assert pages[..|pages|] == pages;
    forall i | 0 <= i < |pages| ensures allData[i] == EntryFor(pages[i], browse, makeDir, fetch) {
      EntriesAt(pages, entryOf, i);
    }
  }

  // ---------------------------------------------------------------------------
  // Properties of the scraper's output.

  /** The crawl list names seven pages with distinct slugs, so no two share a section directory. */
  lemma PagesDistinct()
    ensures |Pages| == 7
    ensures forall i, j :: 0 <= i < j < |Pages| ==> Pages[i].slug != Pages[j].slug
  {
  }

  /** A name built from `prefix` starts with `prefix`. */
  lemma FilenamePrefix(prefix: string, i: nat, ext: string)
    ensures StartsWith(Filename(prefix, i, ext), prefix)
  {
    assert Filename(prefix, i, ext) == prefix + (SequenceNumber(i) + ext);
  }

  /** Every planned image is named `img-NNN<ext>` inside its section directory, and no name repeats. */
  lemma PlannedImagesNames(slug: string, unique: seq<ImageRef>)
    ensures var ps := PlannedImages(slug, unique);
      && (forall i :: 0 <= i < |ps| ==>
            ps[i].ImageFile? && StartsWith(ps[i].filename, "img-")
            && ps[i].localPath == LocalPath(slug, ps[i].filename) && ps[i].originalUrl == unique[i].src)
      && (forall i, j :: 0 <= i < j < |ps| ==> ps[i].filename != ps[j].filename)
  {
    var ps := PlannedImages(slug, unique);
    forall i | 0 <= i < |ps|
      ensures ps[i].filename == Filename("img-", i, GetExtFromUrl(unique[i].src))
      ensures ps[i].ImageFile? && StartsWith(ps[i].filename, "img-")
      ensures ps[i].localPath == LocalPath(slug, ps[i].filename) && ps[i].originalUrl == unique[i].src
    {
      assert ps[i] == PlannedImage(slug, unique[i], i);
      FilenamePrefix("img-", i, GetExtFromUrl(unique[i].src));
    }
    forall i, j | 0 <= i < j < |ps| ensures ps[i].filename != ps[j].filename {
      FilenameInjective("img-", i, j, GetExtFromUrl(unique[i].src), GetExtFromUrl(unique[j].src));
    }
  }

  /** Every planned video is named `vid-NNN<ext>` inside its section directory, and no name repeats. */
  lemma PlannedVideosNames(slug: string, unique: seq<VideoRef>)
    ensures var ps := PlannedVideos(slug, unique);
      && (forall i :: 0 <= i < |ps| ==>
            ps[i].VideoFile? && StartsWith(ps[i].filename, "vid-")
            && ps[i].localPath == LocalPath(slug, ps[i].filename) && ps[i].originalUrl == unique[i].src)
      && (forall i, j :: 0 <= i < j < |ps| ==> ps[i].filename != ps[j].filename)
  {
    var ps := PlannedVideos(slug, unique);
    forall i | 0 <= i < |ps|
      ensures ps[i].filename == Filename("vid-", i, GetExtFromUrl(unique[i].src))
      ensures ps[i].VideoFile? && StartsWith(ps[i].filename, "vid-")
      ensures ps[i].localPath == LocalPath(slug, ps[i].filename) && ps[i].originalUrl == unique[i].src
    {
      assert ps[i] == PlannedVideo(slug, unique[i], i);
      FilenamePrefix("vid-", i, GetExtFromUrl(unique[i].src));
    }
    forall i, j | 0 <= i < j < |ps| ensures ps[i].filename != ps[j].filename {
      FilenameInjective("vid-", i, j, GetExtFromUrl(unique[i].src), GetExtFromUrl(unique[j].src));
    }
  }

  function FilenameOf(d: Download): string {
    d.filename
  }

  /**
   * Files of one kind (`images` says which) named `<prefix>...` inside the section
   * directory of `slug`, no two with the same name.
   */
  predicate WellNamed(ds: seq<Download>, slug: string, prefix: string, images: bool) {
    && (forall i :: 0 <= i < |ds| ==>
          ds[i].ImageFile? == images && StartsWith(ds[i].filename, prefix)
          && ds[i].localPath == LocalPath(slug, ds[i].filename))
    && (forall i, j :: 0 <= i < j < |ds| ==> ds[i].filename != ds[j].filename)
  }

  /** Dropping the failed downloads keeps the files well named. */
  lemma WellNamedFilter(ds: seq<Download>, slug: string, prefix: string, images: bool, ok: Download -> bool)
    requires WellNamed(ds, slug, prefix, images)
    ensures WellNamed(Filter(ds, ok), slug, prefix, images)
  {
    FilterDistinct(ds, ok, FilenameOf);
    var r := Filter(ds, ok);
    forall i | 0 <= i < |r|
      ensures r[i].ImageFile? == images && StartsWith(r[i].filename, prefix)
      ensures r[i].localPath == LocalPath(slug, r[i].filename)
    {
      assert r[i] in ds;
    }
  }

  /** An `img-` file and a `vid-` file never share a name. */
  lemma KindsDiffer(ims: seq<Download>, vids: seq<Download>, slug: string)
    requires WellNamed(ims, slug, "img-", true) && WellNamed(vids, slug, "vid-", false)
    ensures forall i, j :: 0 <= i < |ims| && 0 <= j < |vids| ==> ims[i].filename != vids[j].filename
  {
    forall i, j | 0 <= i < |ims| && 0 <= j < |vids| ensures ims[i].filename != vids[j].filename {
      assert ims[i].filename[..4] == "img-" && vids[j].filename[..4] == "vid-";
    }
  }

  lemma SectionImagesNamed(section: ScrapedPage, fetch: (string, string) -> bool)
    ensures WellNamed(SectionMedia(section, fetch).images, section.slug, "img-", true)
  {
    PlannedImagesNames(section.slug, UniqueImages(section.images));
    WellNamedFilter(PlannedImages(section.slug, UniqueImages(section.images)), section.slug, "img-", true, Fetched(fetch));
  }

  lemma SectionVideosNamed(section: ScrapedPage, fetch: (string, string) -> bool)
    ensures WellNamed(SectionMedia(section, fetch).videos, section.slug, "vid-", false)
  {
    PlannedVideosNames(section.slug, UniqueVideos(section.videos));
    WellNamedFilter(PlannedVideos(section.slug, UniqueVideos(section.videos)), section.slug, "vid-", false, Fetched(fetch));
  }

  /**
   * Within one section no two downloaded files share a name: images are `img-`, videos
   * `vid-`, and the sequence numbers within each kind differ. Every file lies in the
   * section's directory.
   */
  lemma SectionMediaNames(section: ScrapedPage, fetch: (string, string) -> bool)
    ensures var m := SectionMedia(section, fetch);
      && WellNamed(m.images, section.slug, "img-", true)
      && WellNamed(m.videos, section.slug, "vid-", false)
      && (forall i, j :: 0 <= i < |m.images| && 0 <= j < |m.videos| ==> m.images[i].filename != m.videos[j].filename)
  {
    SectionImagesNamed(section, fetch);
    SectionVideosNamed(section, fetch);
    KindsDiffer(SectionMedia(section, fetch).images, SectionMedia(section, fetch).videos, section.slug);
  }

  function OriginalUrlOf(d: Download): string {
    d.originalUrl
  }

  /** One attempt per distinct image URL of the page, and only for URLs found on the page. */
  lemma PlannedImagesSources(slug: string, images: seq<ImageRef>)
    ensures var ps := PlannedImages(slug, UniqueImages(images));
      && (forall i, j :: 0 <= i < j < |ps| ==> OriginalUrlOf(ps[i]) != OriginalUrlOf(ps[j]))
      && (forall i :: 0 <= i < |ps| ==> exists k :: 0 <= k < |images| && images[k].src == ps[i].originalUrl)
  {
    var unique := UniqueImages(images);
    var ps := PlannedImages(slug, unique);
    DedupDistinct(images, ImageSrc);
    DedupCovers(images, ImageSrc);
    forall i | 0 <= i < |ps| ensures ps[i].originalUrl == ImageSrc(unique[i]) {
      assert ps[i] == PlannedImage(slug, unique[i], i);
    }
  }

  /**
   * Each image URL found on the page is downloaded at most once, and every downloaded image
   * was found on the page.
   */
  lemma SectionImagesSources(section: ScrapedPage, fetch: (string, string) -> bool)
    ensures var ims := SectionMedia(section, fetch).images;
      && (forall i, j :: 0 <= i < j < |ims| ==> ims[i].originalUrl != ims[j].originalUrl)
      && (forall i :: 0 <= i < |ims| ==> exists k :: 0 <= k < |section.images| && section.images[k].src == ims[i].originalUrl)
  {
    var ps := PlannedImages(section.slug, UniqueImages(section.images));
    PlannedImagesSources(section.slug, section.images);
    FilterDistinct(ps, Fetched(fetch), OriginalUrlOf);
    var ims := Filter(ps, Fetched(fetch));
    forall i | 0 <= i < |ims|
      ensures exists k :: 0 <= k < |section.images| && section.images[k].src == ims[i].originalUrl
    {
      assert ims[i] in ps;
    }
  }

  /** The stats of an entry never report more downloads than unique finds, nor these more than finds. */
  lemma StatsBounds(page: PageSpec, browse: PageSpec -> Result<Dom, string>,
                    makeDir: string -> Option<string>, fetch: (string, string) -> bool)
    ensures var e := EntryFor(page, browse, makeDir, fetch);
      e.stats.Some? ==>
        && browse(page).Success?
        && e.stats.value.imagesDownloaded <= |UniqueImages(Scraped(page, browse(page).value).images)|
        && e.stats.value.videosDownloaded <= |UniqueVideos(Scraped(page, browse(page).value).videos)|
        && e.stats.value.imagesDownloaded <= e.stats.value.totalImagesFound
        && e.stats.value.videosDownloaded <= e.stats.value.totalVideosFound
  {
    if browse(page).Success? {
      var sp := Scraped(page, browse(page).value);
      DedupSize(sp.images, ImageSrc);
      DedupSize(sp.videos, VideoSrc);
    }
  }

  /**
   * Every entry keeps the page's slug, title and URL and has `media`. An entry has `error`
   * exactly when it lacks `stats`, and exactly when navigation or the section directory
   * failed; an error entry has empty media and no text, links or iframes.
   */
  lemma EntryShape(page: PageSpec, browse: PageSpec -> Result<Dom, string>,
                   makeDir: string -> Option<string>, fetch: (string, string) -> bool)
    ensures var e := EntryFor(page, browse, makeDir, fetch);
      && e.slug == page.slug && e.title == page.title && e.url == page.url
      && e.media.Some?
      && (e.error.Some? <==> e.stats.None?)
      && (e.error.None? <==> browse(page).Success? && makeDir(page.slug).None?)
      && (e.error.Some? ==> e.media == Some(Media([], [])) && e.textContent.None? && e.links.None? && e.iframes.None?)
  {
  }
}
