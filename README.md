# Portfolio asset pipeline — a Dafny model

This project models the data pipeline behind a personal portfolio site, plus the one
interactive component that uses its output.

1. **The scraper** (`scripts/scrape-portfolio.mjs`) crawls seven pages of a hosted
   portfolio. It extracts CDN images, video sources, embedded players, headings,
   paragraphs and outbound links. It de-duplicates media by URL and downloads each unique
   file once as `img-NNN<ext>` or `vid-NNN<ext>` in the page's section directory. It
   writes one manifest entry per page; a page that fails gets an entry with `error` and
   empty media.
2. **The generator** (`scripts/generate-portfolio-data.mjs`) turns that manifest into
   the display document. Each section lists its images, then its embedded players, then
   its videos.
3. **The upload script** (`scripts/upload-assets.mjs`) walks the assets directory,
   uploads every file to blob storage and records `local URL -> blob URL` in an
   insertion-ordered map. It then rewrites the URLs of the display document in a single
   pass and counts the replacements.
4. **The gallery grid** (`src/components/GalleryGrid.tsx`) shows image items in a grid
   and embeds as players. Its lightbox is a small state machine over `lightboxIndex`.

The browser, the file system and the storage service are parameters:
- `browse` says whether navigating to a page succeeded, and gives the elements its
  queries return.
- `makeDir` says whether creating the section directory threw.
- `fetch` says whether a download succeeded.
- `put` gives the blob URL of an upload, or `None` when it failed.

Modules:
- `Wrappers`: Option and Result.
- `Seqs`: `filter` and `map`.
- `Strings`: JavaScript string helpers.
- `JsMaps`: the JavaScript `Map`, which keeps keys in first-insertion order and lets `set`
  overwrite a present key's value.
- `Paths`: `path.extname` and a URL's `pathname`.
- `Manifest`: the scraper's records.
- `Scrape`, `Display`, `Generate`, `Upload` and `Gallery`: one per stage above.
- `Pipeline`: the facts that tie the stages together.

Imperative code is modelled as methods with loops, each proved equal to a specification
function: the extraction loop over `<video>` elements, the download loops, the main
manifest loop, the recursive directory walk, the upload loop and the URL rewrite. The
lightbox is a class whose methods update its index.

## Model

| member | source | states |
|---|---|---|
| Scrape.PagesDistinct | scripts/scrape-portfolio.mjs:19-27 | The crawl list has seven pages, and no two share a slug, so no two share a section directory. |
| Scrape.ExtractImages | scripts/scrape-portfolio.mjs:113-123 | Every image record kept has a non-empty `src` that does not start with `data:` and mentions the CDN host; there are no more records than `<img>` elements. |
| Scrape.ExtractImagesMembers | scripts/scrape-portfolio.mjs:115-122 | A record is kept if and only if it is the record of some `<img>` (`src` falling back to `data-src`, sizes falling back to the layout sizes) and passes the filter. |
| Scrape.ExtractImagesConcat | scripts/scrape-portfolio.mjs:115-122 | The images of two stretches of a page are each stretch's images, in document order. |
| Scrape.ElementCandidatesSpec | scripts/scrape-portfolio.mjs:129-138 | A `<video>` with `<source>` children contributes exactly its children that have a `src`. One without children contributes its own `src` if non-empty, with an empty type, because a video element has no `type` property. Its own `src` is ignored when it has children. |
| Scrape.CollectSources | scripts/scrape-portfolio.mjs:132-134 | The inner loop pushes the `<source>` children that have a `src`, in order, with their `type`. |
| Scrape.ExtractVideos | scripts/scrape-portfolio.mjs:126-140 | The video query returns the candidates of every `<video>` in order, with empty and `data:` sources removed. |
| Scrape.ExtractIframes | scripts/scrape-portfolio.mjs:143-147 | Every iframe kept mentions adobe.io. |
| Scrape.ExtractIframesMembers | scripts/scrape-portfolio.mjs:144-146 | An iframe is kept if and only if its `src` mentions adobe.io. |
| Scrape.ExtractHeadings | scripts/scrape-portfolio.mjs:151-153 | Every heading kept has non-blank text. |
| Scrape.ExtractHeadingsMembers | scripts/scrape-portfolio.mjs:151-153 | Each heading kept is the lower-cased tag and trimmed text of some element, and every element whose trimmed text is non-empty is kept. |
| Scrape.ExtractParagraphs | scripts/scrape-portfolio.mjs:154-156 | Every paragraph kept is non-empty. |
| Scrape.ExtractParagraphsMembers | scripts/scrape-portfolio.mjs:154-156 | The paragraphs kept are exactly the trimmed texts that are not blank. |
| Scrape.ExtractLinks | scripts/scrape-portfolio.mjs:161-165 | Every link kept has an `href`, visible text, and an `href` outside the portfolio site. |
| Scrape.ExtractLinksMembers | scripts/scrape-portfolio.mjs:162-164 | A link is kept if and only if it is the record of some anchor and passes that filter. |
| Scrape.ScrapePage | scripts/scrape-portfolio.mjs:103-180 | `scrapePage` returns the page's slug, URL and title with the results of the six queries. |
| Scrape.GetExtFromUrl | scripts/scrape-portfolio.mjs:61-73 | The extension is always a dot followed by at most four characters, none of them a dot or a slash. |
| Scrape.TypeHint | scripts/scrape-portfolio.mjs:66-69 | The fallback is always an extension, and it is `.mp4` exactly when the URL contains `type=mp4`. |
| Scrape.GetExtFromUrlOfPath | scripts/scrape-portfolio.mjs:61-65 | For `scheme://host` followed by `dir/stem.x` and an optional query or fragment, where `x` has one to four characters and no dot, the extension is `.x`. |
| Scrape.GetExtFromUrlNoExtension | scripts/scrape-portfolio.mjs:63-69 | When the last path segment has no dot, the result is `.mp4` if the URL contains `type=mp4`, else `.webm` if it contains `type=webm`, else `.jpg`. |
| Scrape.GetExtFromUrlLongExtension | scripts/scrape-portfolio.mjs:64-69 | An extension with five or more characters after the dot is not used; the same `type=` fallback decides. |
| Scrape.GetExtFromUrlMp4Hint | scripts/scrape-portfolio.mjs:63-67 | A URL whose last path segment has no dot and whose query contains `type=mp4` is saved as `.mp4`. |
| Scrape.GetExtFromUrlNoScheme | scripts/scrape-portfolio.mjs:62-72 | A string with no colon is not a URL, so the thrown error gives `.jpg`. |
| Paths.ExtnameOf | scripts/scrape-portfolio.mjs:64 | `path.extname` of `dir/stem.x`, where `x` has no dot or slash, is `.x`. |
| Paths.ExtnameDotFile | scripts/upload-assets.mjs:44 | `path.extname` of `dir/.x`, a dot file, is empty. |
| Paths.UrlPathnameOf | scripts/scrape-portfolio.mjs:63 | The pathname of `scheme://host` followed by a path and an optional query or fragment is that path. |
| Scrape.SequenceNumber | scripts/scrape-portfolio.mjs:198 | The sequence number has at least three characters, all digits. |
| Scrape.SequenceNumberValue | scripts/scrape-portfolio.mjs:198 | The zero-padded number reads back as the 1-based position. |
| Scrape.FilenameInjective | scripts/scrape-portfolio.mjs:198-220 | Different positions get different file names, whatever the extensions. |
| Strings.ReplaceBackslashes | scripts/scrape-portfolio.mjs:205 | The result has the same length; every backslash becomes `/` and every other character is kept. |
| Scrape.LocalPath | scripts/scrape-portfolio.mjs:205 | The recorded path has no backslash, and is `tmp-assets/<slug>/<filename>` when neither part has one. |
| Scrape.DedupSize | scripts/scrape-portfolio.mjs:193 | De-duplication never yields more elements than it is given. |
| Scrape.DedupDistinct | scripts/scrape-portfolio.mjs:193 | No two survivors share a `src`. |
| Scrape.DedupCovers | scripts/scrape-portfolio.mjs:193 | Every input `src` has a survivor, and every survivor's `src` comes from the input. |
| Scrape.DedupKeepsLast | scripts/scrape-portfolio.mjs:193 | The survivor for a `src` is the last element with that `src`. |
| Scrape.DedupOrder | scripts/scrape-portfolio.mjs:193 | Survivors are ordered by the first position of their `src`. |
| Scrape.DownloadImages | scripts/scrape-portfolio.mjs:195-213 | The image loop attempts each unique image once, in order, and keeps exactly the records of the successful downloads (path, original URL, alt, `img-NNN` name). |
| Scrape.DownloadVideos | scripts/scrape-portfolio.mjs:216-235 | The same for videos, with `type` and `vid-NNN` names. |
| Scrape.DownloadSectionMedia | scripts/scrape-portfolio.mjs:185-238 | A failed directory creation throws. Otherwise the media are the successful image downloads and then the successful video downloads. |
| Scrape.ScrapeEntry | scripts/scrape-portfolio.mjs:262-294 | One iteration of `main` pushes a success entry, or an error entry when navigation or the directory threw. |
| Scrape.ScrapeAll | scripts/scrape-portfolio.mjs:261-295 | The manifest has one entry per page, in order, whatever fails. |
| Scrape.PlannedImagesNames | scripts/scrape-portfolio.mjs:195-209 | Each planned image is an `img-` file below its section directory, with its unique image's URL, and no name repeats. |
| Scrape.PlannedVideosNames | scripts/scrape-portfolio.mjs:217-231 | The same for `vid-` files. |
| Scrape.WellNamedFilter | scripts/scrape-portfolio.mjs:201-212 | Dropping failed downloads keeps the remaining files well named and their names distinct. |
| Scrape.KindsDiffer | scripts/scrape-portfolio.mjs:198-220 | An `img-` file and a `vid-` file never share a name. |
| Scrape.SectionMediaNames | scripts/scrape-portfolio.mjs:185-238 | Within a section, no two downloaded files share a name, and every file lies in the section's directory. |
| Scrape.PlannedImagesSources | scripts/scrape-portfolio.mjs:193-206 | One download attempt per distinct image URL, only for URLs found on the page. |
| Scrape.SectionImagesSources | scripts/scrape-portfolio.mjs:193-213 | Each image URL found is downloaded at most once, and every downloaded image was found on the page. |
| Scrape.StatsBounds | scripts/scrape-portfolio.mjs:277-283 | Stats exist only for a page that loaded. The downloads counted never exceed the unique images or videos found, and so never the finds. |
| Scrape.EntryShape | scripts/scrape-portfolio.mjs:266-293 | Every entry keeps the page's slug, title and URL and has `media`. An entry has `error` exactly when it lacks `stats`, and exactly when navigation or the directory failed. An error entry has empty media and no text, links or iframes. |
| Generate.SiteUrl | scripts/generate-portfolio-data.mjs:26 | A site URL is the local path, rooted at `/`, one character longer, with no backslash; it is exactly `/` followed by the local path when that has none. |
| Generate.ItemsLayout | scripts/generate-portfolio-data.mjs:23-40 | A section's items are its images (url, `alt` or title, filename), then its embeds (`<title> Video <k+1>`), then its videos (title as caption), each in manifest order. |
| Generate.ItemsGrouped | scripts/generate-portfolio-data.mjs:23-40 | Items are grouped by kind: all images, then all embeds, then all videos. |
| Generate.ItemsUrls | scripts/generate-portfolio-data.mjs:24-39 | Image and video URLs are rooted and backslash-free, embed URLs are player `src`s, and captions are non-empty when the title is. |
| Generate.SectionFields | scripts/generate-portfolio-data.mjs:20-42 | A section keeps the entry's slug and title; missing links become `[]` and missing text becomes empty headings and paragraphs. |
| Generate.SectionsFromEntries | scripts/generate-portfolio-data.mjs:13-20 | The owner is the fixed name and tagline, and every section comes from a manifest entry that has `media`. |
| Generate.EntriesHaveSections | scripts/generate-portfolio-data.mjs:18-19 | Every entry with `media` yields a section, including one that records a failed page. |
| Generate.SectionPerEntry | scripts/generate-portfolio-data.mjs:18-20 | When every entry has `media`, there is one section per entry, in order. |
| Generate.ErrorSection | scripts/generate-portfolio-data.mjs:20-42 | The section of a failed page keeps its slug and title and has no items, no links and empty text. |
| Upload.ContentTypeOf | scripts/upload-assets.mjs:43-57 | A file `dir/stem` followed by `e`, where `e` is a dot and then no dot or slash, gets the table's type for the lower-cased `e`, or `application/octet-stream` when that is not in the table. |
| Upload.ContentTypeUpperJpg | scripts/upload-assets.mjs:44-46 | A file `dir/stem.JPG` is sent as `image/jpeg`. |
| Upload.ContentTypeMp4 | scripts/upload-assets.mjs:44-52 | A file `dir/stem.mp4` is sent as `video/mp4`. |
| Upload.ContentTypeUnlisted | scripts/upload-assets.mjs:44-56 | A file `dir/stem.txt` is sent as `application/octet-stream`. |
| Upload.ContentTypeNoExtension | scripts/upload-assets.mjs:44-56 | A file whose name has no dot is sent as `application/octet-stream`. |
| Upload.ContentTypeIgnoresCase | scripts/upload-assets.mjs:44 | Extensions that differ only in letter case get the same content type. |
| Upload.ContentTypeDotFile | scripts/upload-assets.mjs:44-56 | A dot file such as `dir/.jpg` has no extension and is sent as `application/octet-stream`. |
| Upload.RelativePath | scripts/upload-assets.mjs:72 | A relative path contains no backslash. |
| Upload.GetAllFiles | scripts/upload-assets.mjs:62-77 | The recursive walk returns the files of the entries in listing order, with each subdirectory's files in place. |
| Upload.DirFilesAreLeaves | scripts/upload-assets.mjs:62-77 | The walk yields one entry per file of the tree, depth first, with the joined full path and the `/`-joined relative path. |
| Upload.EntryLeavesShape | scripts/upload-assets.mjs:65-74 | Under a well-formed entry, the file paths are distinct and start with the entry's name. |
| Upload.RelativePathsDistinct | scripts/upload-assets.mjs:62-77 | With listable names, no two collected files share a relative path. |
| Upload.BlobPath | scripts/upload-assets.mjs:95 | The blob path is `portfolio/` followed by the relative path. |
| Upload.LocalUrlKey | scripts/upload-assets.mjs:99 | The map key is `/tmp-assets/` followed by the relative path. |
| Upload.UploadFile | scripts/upload-assets.mjs:27-38 | `uploadFile` stores the file under its blob path with the content type of its extension, and settles to the blob URL that `put` returns, or fails with it. |
| Upload.UploadAll | scripts/upload-assets.mjs:89-107 | The upload loop's map holds the entries of the successful uploads, in order. `uploaded` is their number, and `uploaded + failed` is the number of files. |
| Upload.UploadEach | scripts/upload-assets.mjs:94-107 | The same, for any outcome of each attempt. |
| Upload.UploadsMembers | scripts/upload-assets.mjs:94-107 | An entry is recorded if and only if it is the key and blob URL of a file whose upload succeeded. |
| Upload.UploadMapKeysSound | scripts/upload-assets.mjs:99-100 | Every key of the map is the local URL of a file that was uploaded. |
| Upload.UploadMapKeysComplete | scripts/upload-assets.mjs:99-100 | Every uploaded file has its local URL in the map. |
| Upload.UploadMapKeysLocal | scripts/upload-assets.mjs:99 | Every key of the map starts with `/tmp-assets/`. |
| Upload.UploadMapNoChain | scripts/upload-assets.mjs:99-100 | When no blob URL looks like a local URL, no value of the map is also a key. |
| Upload.UploadsKeysDistinct | scripts/upload-assets.mjs:99-100 | Distinct relative paths give the recorded entries distinct keys. |
| Upload.UploadMapSize | scripts/upload-assets.mjs:90-101 | With distinct relative paths, `urlMap.size` equals `uploaded`. |
| Upload.UploadMapValue | scripts/upload-assets.mjs:98-100 | With distinct relative paths, an uploaded file's local URL maps to its own blob URL. |
| Upload.RewriteSectionItems | scripts/upload-assets.mjs:122-127 | The inner loop rewrites exactly the items whose URL is non-empty and a key, and counts them. |
| Upload.RewriteUrls | scripts/upload-assets.mjs:120-128 | The whole rewrite equals one pass over every item of every section, and `replaced` is the number of items that matched. |
| Upload.RewriteChangesOnlyUrls | scripts/upload-assets.mjs:123-124 | The rewrite keeps the owner, every section's other fields and every item's type, caption and file name. A URL changes only when it matched, and then to the map's value. |
| Upload.RewriteSinglePass | scripts/upload-assets.mjs:123-124 | The rewrite is not transitive: with `/a -> /b` and `/b -> /c`, an item at `/a` ends at `/b`. |
| Upload.RewriteIdempotent | scripts/upload-assets.mjs:120-128 | When no value of the map is a key, rewriting twice equals rewriting once. |
| Upload.ReplacedBound | scripts/upload-assets.mjs:120-128 | `replaced` never exceeds the number of items. |
| Upload.RewriteEmptyMap | scripts/upload-assets.mjs:120-128 | With no uploads, nothing is replaced and the document is unchanged. |
| Gallery.ImageItems | src/components/GalleryGrid.tsx:22 | The grid's pictures are all items of type `image`. |
| Gallery.EmbedItems | src/components/GalleryGrid.tsx:23 | The players are all items of type `video-embed`. |
| Gallery.GalleryShows | src/components/GalleryGrid.tsx:22-23 | An item is a picture if and only if its type is `image`, and a player if and only if its type is `video-embed`. A `video` item is neither. |
| Gallery.GalleryCount | src/components/GalleryGrid.tsx:22-23 | Each item is rendered at most once. |
| Gallery.StepInRange | src/components/GalleryGrid.tsx:41-128 | Every enabled click keeps `lightboxIndex` within the pictures. The lightbox is open afterwards exactly for a picture, ‹ or › click. |
| Gallery.RunInRange | src/components/GalleryGrid.tsx:20-128 | From the initial `null`, no run of enabled clicks takes the index out of range. |
| Gallery.PrevNextInverse | src/components/GalleryGrid.tsx:107-128 | ‹ then › returns to the same picture, and so does › then ‹. |
| Gallery.CounterOf | src/components/GalleryGrid.tsx:148 | The counter shows a 1-based position between 1 and the number of pictures. |
| Gallery.Lightbox.constructor | src/components/GalleryGrid.tsx:20-22 | The lightbox starts closed over the image items of its list. |
| Gallery.Lightbox.Open | src/components/GalleryGrid.tsx:41 | Clicking the `i`th picture opens the lightbox at `i`. |
| Gallery.Lightbox.ClickPrev | src/components/GalleryGrid.tsx:107-117 | ‹, shown past the first picture, moves the index back by one. |
| Gallery.Lightbox.ClickNext | src/components/GalleryGrid.tsx:118-128 | ›, shown before the last picture, moves the index forward by one. |
| Gallery.Lightbox.Close | src/components/GalleryGrid.tsx:97-104 | The backdrop and ✕ close the lightbox. |
| Gallery.Lightbox.Shown | src/components/GalleryGrid.tsx:139-141 | The open lightbox shows one of the grid's pictures, an `image` item. |
| Gallery.Lightbox.Counter | src/components/GalleryGrid.tsx:147-149 | The counter is between 1 and the number of pictures, which it shows. |
| Pipeline.SiteUrlIsUploadKey | scripts/scrape-portfolio.mjs:205 | The generator's URL for a downloaded file equals the key under which the upload script records that file. |
| Pipeline.UploadedItemRewritten | scripts/upload-assets.mjs:98-124 | After an upload, a display item for that file is rewritten to the file's blob URL. |
| Pipeline.NotUploadedItemKept | scripts/upload-assets.mjs:123-124 | An item whose file was not uploaded keeps its local URL. |
| Pipeline.SectionPerPage | scripts/generate-portfolio-data.mjs:18-22 | Every crawled page, failed or not, becomes a section of the display document, in crawl order, with its slug and title. |

## Left out

- Browser automation, navigation timeouts and auto-scrolling are left out: they are I/O. The elements the page queries return are an input, and the navigation outcome is the `browse` parameter.
- `downloadFile` (HTTP, redirects, timeouts, streams) is left out: a download is the `fetch` oracle, telling whether it resolved.
- `put` is left out: it is the `put` parameter. The token check and `process.exit` are left out too, as are the console output, reading and writing the JSON files, and writing `url-map.json`.
- The clean-up of the assets directory before a crawl is left out. So is `existsSync` before `mkdirSync`: creating the section directory either succeeds or throws, as `makeDir` says.
- `Paths.UrlPathname` models the WHATWG URL parser in a simplified form. It needs a scheme; with `//` it skips the authority; it stops the path at `?` or `#`. It does not model percent-encoding, dot-segment removal or special-scheme rules.
- String lengths count `char`s, not UTF-16 code units. `toLowerCase` is modelled on ASCII letters only.
- `path.join` and `path.relative` are modelled on the segments below the assets directory. Normalisation of `..` and duplicate separators is not modelled.
- The uploader's rewrite loop (scripts/upload-assets.mjs:124-131) assigns `item.url` in the parsed JSON in place. It is modelled as a method that returns the updated document. The parsed object is not shared, so no aliasing is lost.
- Upload.RelativePathsDistinct: assumes entry names contain neither `/` nor `\`. A POSIX file name containing a backslash would be rewritten to `/` and could collide with a nested path; the model requires the names to be listable.
- Scrape.GetExtFromUrl and Upload.ContentType: their values are proved for URLs and paths of the shape `scheme://host/dir/stem.ext?query` and `dir/stem.ext`. A URL without `//` after the scheme, or a path ending in a slash, is covered only by the general contracts.
- React rendering, animation, `key` props and layout are left out. A change of the `items` prop is also left out, because the `Lightbox` keeps its list fixed.
- The animation components, the pages and `next.config.ts` are not part of this model.
- Items of type `video` (downloaded video files) appear in the generated document but are not rendered by the gallery grid. `Gallery.GalleryShows` states this. Whether another component renders them is outside this model.
