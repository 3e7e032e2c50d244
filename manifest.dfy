// The records the scraper produces and writes to raw-scrape-data.json, which the
// display-data generator reads back.
module Manifest {
  import opened Wrappers

  /** One page of the hosted portfolio to crawl. */
  datatype PageSpec = PageSpec(slug: string, url: string, title: string)

  /** An `<img>` kept by the scraper. */
  datatype ImageRef = ImageRef(src: string, alt: string, width: nat, height: nat)

  /** A video source found on a page (`type` in the scraped JSON). */
  datatype VideoRef = VideoRef(src: string, mediaType: string)

  /** An embedded player `<iframe>`. */
  datatype IframeRef = IframeRef(src: string)

  datatype Heading = Heading(tag: string, text: string)

  datatype TextContent = TextContent(headings: seq<Heading>, paragraphs: seq<string>)

  datatype Link = Link(href: string, text: string)

  /** What the scraper extracts from one page (`{...pageInfo, images, videos, ...}`). */
  datatype ScrapedPage = ScrapedPage(
    slug: string, url: string, title: string,
    images: seq<ImageRef>, videos: seq<VideoRef>, iframes: seq<IframeRef>,
    textContent: TextContent, links: seq<Link>)

  /** One file the scraper downloaded: an image carries its `alt`, a video its `type`. */
  datatype Download =
    | ImageFile(localPath: string, originalUrl: string, alt: string, filename: string)
    | VideoFile(localPath: string, originalUrl: string, mediaType: string, filename: string)

  datatype Media = Media(images: seq<Download>, videos: seq<Download>)

  datatype Stats = Stats(
    totalImagesFound: nat, totalVideosFound: nat, totalIframesFound: nat,
    imagesDownloaded: nat, videosDownloaded: nat)

  /**
   * One element of the manifest array. A JSON field that an entry lacks is None: an entry
   * for a page that failed has `error` and `media` but no `textContent`, `links`,
   * `iframes` or `stats`.
   */
  datatype ManifestEntry = ManifestEntry(
    slug: string, title: string, url: string,
    textContent: Option<TextContent>, links: Option<seq<Link>>, iframes: Option<seq<IframeRef>>,
    media: Option<Media>, stats: Option<Stats>, error: Option<string>)
}
