// How the three scripts fit together: the URL the display-data generator gives a downloaded
// file is the key under which the upload script records that file's blob URL.
module Pipeline {
  import opened Wrappers
  import opened Strings
  import opened JsMaps
  import opened Display
  import Manifest
  import Scrape
  import Generate
  import Upload

  /**
   * The site URL of the file the scraper saves as `filename` for page `slug` is the local URL
   * the upload script computes from that file's path below the assets directory.
   */
  lemma SiteUrlIsUploadKey(slug: string, filename: string)
    ensures Generate.SiteUrl(Scrape.LocalPath(slug, filename)) == Upload.LocalUrlKey(Upload.RelativePath([slug, filename]))
  {
    var raw := "tmp-assets/" + slug + "/" + filename;
    ReplaceBackslashesConcat("tmp-assets/", slug + "/" + filename);
    ReplaceBackslashesNoop("tmp-assets/");
    ReplaceBackslashesNoop(ReplaceBackslashes(raw));
    assert raw == "tmp-assets/" + (slug + "/" + filename);
    assert Join([slug, filename], '/') == slug + "/" + filename by {
      assert [slug, filename][..1] == [slug];
    }
  }

  /**
   * After the upload, the rewrite points an item at the blob URL of its file when that file
   * was uploaded (relative paths being distinct, as for a listable tree).
   */
  lemma UploadedItemRewritten(files: seq<Upload.FileEntry>, outcome: Upload.FileEntry -> Option<string>,
                              i: nat, slug: string, filename: string, it: Item)
    requires forall a, b :: 0 <= a < b < |files| ==> files[a].relativePath != files[b].relativePath
    requires i < |files| && outcome(files[i]).Some?
    requires files[i].relativePath == Upload.RelativePath([slug, filename])
    requires it.url == Generate.SiteUrl(Scrape.LocalPath(slug, filename))
    ensures Upload.RewriteItem(it, FromEntries(Upload.Uploads(files, outcome))).url == outcome(files[i]).value
  {
    SiteUrlIsUploadKey(slug, filename);
    Upload.UploadMapValue(files, outcome, i);
  }

  /** An item whose file was not uploaded keeps its local URL. */
  lemma NotUploadedItemKept(files: seq<Upload.FileEntry>, outcome: Upload.FileEntry -> Option<string>,
                            slug: string, filename: string, it: Item)
    requires forall i :: 0 <= i < |files| && files[i].relativePath == Upload.RelativePath([slug, filename]) ==> outcome(files[i]).None?
    requires it.url == Generate.SiteUrl(Scrape.LocalPath(slug, filename))
    ensures Upload.RewriteItem(it, FromEntries(Upload.Uploads(files, outcome))) == it
  {
    SiteUrlIsUploadKey(slug, filename);
    var k := it.url;
    var i := Upload.UploadMapKeyWitness(files, outcome, k);
    if i < |files| {
      var r := files[i].relativePath;
      assert Upload.LocalUrlKey(r)[|"/tmp-assets/"|..] == r;
    }
  }

  /**
   * Every page crawled, failed or not, becomes a section of the display document, in crawl
   * order, under the page's slug and title: `raw` is the manifest `main` writes.
   */
  lemma SectionPerPage(pages: seq<Manifest.PageSpec>, browse: Manifest.PageSpec -> Result<Scrape.Dom, string>,
                       makeDir: string -> Option<string>, fetch: (string, string) -> bool,
                       raw: seq<Manifest.ManifestEntry>)
    requires |raw| == |pages|
    requires forall i :: 0 <= i < |pages| ==> raw[i] == Scrape.EntryFor(pages[i], browse, makeDir, fetch)
    ensures |Generate.GenerateDocument(raw).sections| == |pages|
    ensures forall i :: 0 <= i < |pages| ==>
              Generate.GenerateDocument(raw).sections[i].slug == pages[i].slug &&
              Generate.GenerateDocument(raw).sections[i].title == pages[i].title
  {
    forall k | 0 <= k < |raw| ensures raw[k].media.Some? && raw[k].slug == pages[k].slug && raw[k].title == pages[k].title {
      Scrape.EntryShape(pages[k], browse, makeDir, fetch);
    }
    Generate.SectionPerEntry(raw);
    forall k | 0 <= k < |raw|
      ensures Generate.GenerateDocument(raw).sections[k].slug == pages[k].slug
      ensures Generate.GenerateDocument(raw).sections[k].title == pages[k].title
    {
      Generate.SectionFields(raw[k]);
    }
  }
}
