// scripts/generate-portfolio-data.mjs: turns the scraper's manifest into the display document.
module Generate {
  import opened Wrappers
  import opened Seqs
  import opened Strings
  import opened Manifest
  import opened Display

  const OwnerName: string := "Jake Vallante"
  const OwnerTagline: string := "A millennial that baby boomers like"

  /** The site URL of a downloaded file: its project-relative path, rooted, with `/` separators. */
  function SiteUrl(localPath: string): (u: string)
    ensures |u| == |localPath| + 1 && u[0] == '/' && '\\' !in u
    ensures '\\' !in localPath ==> u == "/" + localPath
  {
    "/" + ReplaceBackslashes(localPath)
  }

  /** `i.alt || s.title`: a video record has no `alt`, so it always gets the title. */
  function ImageAlt(d: Download, title: string): string {
    if d.ImageFile? && d.alt != "" then d.alt else title
  }

  function ImageItem(d: Download, title: string): Item {
    Item(ImageType, SiteUrl(d.localPath), ImageAlt(d, title), Some(d.filename))
  }

  /** The `k`-th (0-based) embedded player is captioned `<title> Video <k + 1>`. */
  function EmbedItem(f: IframeRef, k: nat, title: string): Item {
    Item(EmbedType, f.src, title + " Video " + NatToString(k + 1), None)
  }

  function VideoItem(d: Download, title: string): Item {
    Item(VideoType, SiteUrl(d.localPath), title, None)
  }

  function ImageItems(ds: seq<Download>, title: string): (r: seq<Item>)
    ensures |r| == |ds|
  {
    seq(|ds|, i requires 0 <= i < |ds| => ImageItem(ds[i], title))
  }

  function EmbedItems(fs: seq<IframeRef>, title: string): (r: seq<Item>)
    ensures |r| == |fs|
  {
    seq(|fs|, k requires 0 <= k < |fs| => EmbedItem(fs[k], k, title))
  }

  function VideoItems(ds: seq<Download>, title: string): (r: seq<Item>)
    ensures |r| == |ds|
  {
    seq(|ds|, i requires 0 <= i < |ds| => VideoItem(ds[i], title))
  }

  /** The items of an entry that has media: images, then embedded players, then videos. */
  function Items(s: ManifestEntry): seq<Item>
    requires s.media.Some?
  {
    ImageItems(s.media.value.images, s.title)
      + EmbedItems(s.iframes.GetOr([]), s.title)
      + VideoItems(s.media.value.videos, s.title)
  }

  predicate HasMedia(s: ManifestEntry) {
    s.media.Some?
  }

  /** The display section of an entry; an entry without media yields the empty section (it is filtered out first). */
  function SectionOf(s: ManifestEntry): DisplaySection {
    if s.media.None? then DisplaySection(s.slug, s.title, [], [], TextContent([], []))
    else
      DisplaySection(s.slug, s.title, Items(s), s.links.GetOr([]), s.textContent.GetOr(TextContent([], [])))
  }

  /** The whole document: the owner constants and one section per entry that has `media`, in order. */
  function GenerateDocument(raw: seq<ManifestEntry>): Document {
    Document(Owner(OwnerName, OwnerTagline), Map(SectionOf, Filter(raw, HasMedia)))
  }

  // ---------------------------------------------------------------------------
  // Properties.

  /** The position of a kind in the item order. */
  function Rank(itemType: string): nat {
    if itemType == ImageType then 0 else if itemType == EmbedType then 1 else 2
  }

  /**
   * The items of a section are its downloaded images, then its embedded players, then its
   * downloaded videos, each in the order the manifest lists them, with the urls, captions
   * and file names the generator assigns.
   */
  lemma ItemsLayout(s: ManifestEntry)
    requires s.media.Some?
    ensures var ims, fs, vs := s.media.value.images, s.iframes.GetOr([]), s.media.value.videos;
      var items := Items(s);
      && |items| == |ims| + |fs| + |vs|
      && (forall i :: 0 <= i < |ims| ==>
            items[i] == Item("image", SiteUrl(ims[i].localPath), ImageAlt(ims[i], s.title), Some(ims[i].filename)))
      && (forall k :: 0 <= k < |fs| ==>
            items[|ims| + k] == Item("video-embed", fs[k].src, s.title + " Video " + NatToString(k + 1), None))
      && (forall i :: 0 <= i < |vs| ==>
            items[|ims| + |fs| + i] == Item("video", SiteUrl(vs[i].localPath), s.title, None))
  {
    var ims, fs, vs := s.media.value.images, s.iframes.GetOr([]), s.media.value.videos;
    var a, b, c := ImageItems(ims, s.title), EmbedItems(fs, s.title), VideoItems(vs, s.title);
    assert Items(s) == a + b + c;
    forall k | 0 <= k < |fs| ensures Items(s)[|ims| + k] == b[k] {
      assert (a + b + c)[|a| + k] == b[k];
    }
    forall i | 0 <= i < |vs| ensures Items(s)[|ims| + |fs| + i] == c[i] {
      assert (a + b + c)[|a| + |b| + i] == c[i];
    }
  }

  /** A section keeps its entry's slug and title; missing links and text become empty ones. */
  lemma SectionFields(s: ManifestEntry)
    requires s.media.Some?
    ensures SectionOf(s).slug == s.slug && SectionOf(s).title == s.title && SectionOf(s).items == Items(s)
    ensures SectionOf(s).links == (if s.links.Some? then s.links.value else [])
    ensures SectionOf(s).text == (if s.textContent.Some? then s.textContent.value else TextContent([], []))
  {
  }

  /** Items come grouped by kind: all images, then all embeds, then all videos. */
  lemma ItemsGrouped(s: ManifestEntry)
    requires s.media.Some?
    ensures forall i, j :: 0 <= i < j < |Items(s)| ==> Rank(Items(s)[i].itemType) <= Rank(Items(s)[j].itemType)
  {
    var ims, fs := s.media.value.images, s.iframes.GetOr([]);
    ItemsLayout(s);
    forall i | 0 <= i < |Items(s)|
      ensures Rank(Items(s)[i].itemType) == if i < |ims| then 0 else if i < |ims| + |fs| then 1 else 2
    {
      if i >= |ims| + |fs| {
        assert Items(s)[|ims| + |fs| + (i - |ims| - |fs|)] == Items(s)[i];
      } else if i >= |ims| {
        assert Items(s)[|ims| + (i - |ims|)] == Items(s)[i];
      }
    }
  }

  /**
   * Every image and video item points at a rooted path free of backslashes, every embed at
   * its player's `src`; a caption is empty only when the section title is.
   */
  lemma ItemsUrls(s: ManifestEntry)
    requires s.media.Some?
    ensures forall i :: 0 <= i < |Items(s)| && Items(s)[i].itemType != "video-embed" ==>
              Items(s)[i].url != "" && Items(s)[i].url[0] == '/' && '\\' !in Items(s)[i].url
    ensures forall i :: 0 <= i < |Items(s)| && Items(s)[i].itemType == "video-embed" ==>
              Items(s)[i].url in Map((f: IframeRef) => f.src, s.iframes.GetOr([]))
    ensures s.title != "" ==> forall i :: 0 <= i < |Items(s)| ==> Items(s)[i].alt != ""
  {
    var ims, fs := s.media.value.images, s.iframes.GetOr([]);
    var srcs := Map((f: IframeRef) => f.src, fs);
    ItemsLayout(s);
    forall i | 0 <= i < |Items(s)|
      ensures Items(s)[i].itemType != "video-embed" ==>
                Items(s)[i].url != "" && Items(s)[i].url[0] == '/' && '\\' !in Items(s)[i].url
      ensures Items(s)[i].itemType == "video-embed" ==> Items(s)[i].url in srcs
      ensures s.title != "" ==> Items(s)[i].alt != ""
    {
      if i >= |ims| + |fs| {
        assert Items(s)[|ims| + |fs| + (i - |ims| - |fs|)] == Items(s)[i];
      } else if i >= |ims| {
        var k := i - |ims|;
        assert Items(s)[|ims| + k] == Items(s)[i];
        assert srcs[k] == fs[k].src;
        assert |s.title + " Video " + NatToString(k + 1)| > 0;
      }
    }
  }

  /** Every section comes from an entry of the manifest that has `media`. */
  lemma SectionsFromEntries(raw: seq<ManifestEntry>)
    ensures GenerateDocument(raw).owner == Owner("Jake Vallante", "A millennial that baby boomers like")
    ensures |GenerateDocument(raw).sections| <= |raw|
    ensures forall sec :: sec in GenerateDocument(raw).sections ==>
              exists k :: 0 <= k < |raw| && raw[k].media.Some? && sec == SectionOf(raw[k])
  {
    var kept := Filter(raw, HasMedia);
    var secs := GenerateDocument(raw).sections;
    forall sec | sec in secs ensures exists k :: 0 <= k < |raw| && raw[k].media.Some? && sec == SectionOf(raw[k]) {
      var i :| 0 <= i < |secs| && secs[i] == sec;
      assert kept[i] in raw;
      var k :| 0 <= k < |raw| && raw[k] == kept[i];
    }
  }

  /** Every entry that has `media`, including one recording a failed page, yields a section. */
  lemma EntriesHaveSections(raw: seq<ManifestEntry>)
    ensures forall k :: 0 <= k < |raw| && raw[k].media.Some? ==> SectionOf(raw[k]) in GenerateDocument(raw).sections
  {
    var kept := Filter(raw, HasMedia);
    FilterKeeps(raw, HasMedia);
    var secs := GenerateDocument(raw).sections;
    forall k | 0 <= k < |raw| && raw[k].media.Some? ensures SectionOf(raw[k]) in secs {
      var i :| 0 <= i < |kept| && kept[i] == raw[k];
      assert secs[i] == SectionOf(raw[k]);
    }
  }

  /** When every entry has `media`, there is one section per entry, in the manifest's order. */
  lemma SectionPerEntry(raw: seq<ManifestEntry>)
    requires forall k :: 0 <= k < |raw| ==> raw[k].media.Some?
    ensures |GenerateDocument(raw).sections| == |raw|
    ensures forall k :: 0 <= k < |raw| ==> GenerateDocument(raw).sections[k] == SectionOf(raw[k])
  {
    forall x | x in raw ensures HasMedia(x) {
      var k :| 0 <= k < |raw| && raw[k] == x;
    }
    FilterAll(raw, HasMedia);
  }

  /**
   * A section whose scrape failed still appears: it keeps its slug and title and has no
   * items, no links and empty text.
   */
  lemma ErrorSection(s: ManifestEntry)
    requires s.error.Some? && s.media == Some(Media([], [])) && s.iframes.None? && s.links.None? && s.textContent.None?
    ensures SectionOf(s) == DisplaySection(s.slug, s.title, [], [], TextContent([], []))
  {
    assert Items(s) == [] + [] + [];
  }
}
