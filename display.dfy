// The display document written to src/data/portfolio-data.json and read by the pages.
module Display {
  import opened Wrappers
  import opened Manifest

  /** The three values of an item's `type`. */
  const ImageType: string := "image"
  const EmbedType: string := "video-embed"
  const VideoType: string := "video"

  datatype Owner = Owner(name: string, tagline: string)

  /** One gallery item: `type` is "image", "video-embed" or "video"; only images have a file name. */
  datatype Item = Item(itemType: string, url: string, alt: string, filename: Option<string>)

  datatype DisplaySection = DisplaySection(
    slug: string, title: string, items: seq<Item>, links: seq<Link>, text: TextContent)

  datatype Document = Document(owner: Owner, sections: seq<DisplaySection>)
}
