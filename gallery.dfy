// src/components/GalleryGrid.tsx: which items the grid shows where, and the lightbox's
// `lightboxIndex` state, as a class whose field the click handlers update.
module Gallery {
  import opened Wrappers
  import opened Seqs
  import opened Display

  predicate IsImage(it: Item) {
    it.itemType == ImageType
  }

  predicate IsEmbed(it: Item) {
    it.itemType == EmbedType
  }

  /** `items.filter((item) => item.type === 'image')`: the masonry grid and the lightbox's pictures. */
  function ImageItems(items: seq<Item>): (r: seq<Item>)
    ensures forall i :: 0 <= i < |r| ==> r[i].itemType == ImageType
  {
    Filter(items, IsImage)
  }

  /** `items.filter((item) => item.type === 'video-embed')`: the embedded players. */
  function EmbedItems(items: seq<Item>): (r: seq<Item>)
    ensures forall i :: 0 <= i < |r| ==> r[i].itemType == EmbedType
  {
    Filter(items, IsEmbed)
  }

  /**
   * The grid shows exactly the image items and the embeds of its list; an item of type
   * "video" (a downloaded file) is in neither and is not rendered.
   */
  lemma GalleryShows(items: seq<Item>, it: Item)
    requires it in items
    ensures it in ImageItems(items) <==> it.itemType == ImageType
    ensures it in EmbedItems(items) <==> it.itemType == EmbedType
    ensures it.itemType == VideoType ==> it !in ImageItems(items) && it !in EmbedItems(items)
  {
    FilterKeeps(items, IsImage);
    FilterKeeps(items, IsEmbed);
    var k :| 0 <= k < |items| && items[k] == it;
    if it in ImageItems(items) {
      var j :| 0 <= j < |ImageItems(items)| && ImageItems(items)[j] == it;
    }
    if it in EmbedItems(items) {
      var j :| 0 <= j < |EmbedItems(items)| && EmbedItems(items)[j] == it;
    }
  }

  /** Two filters with exclusive predicates select no more elements together than there are. */
  lemma {:induction false} ExclusiveFilters<T>(s: seq<T>, p: T -> bool, q: T -> bool)
    requires forall x :: !(p(x) && q(x))
    ensures |Filter(s, p)| + |Filter(s, q)| <= |s|
    decreases |s|
  {
    if s != [] {
      ExclusiveFilters(s[..|s| - 1], p, q);
    }
  }

  /** Each item is rendered at most once. */
  lemma GalleryCount(items: seq<Item>)
    ensures |ImageItems(items)| + |EmbedItems(items)| <= |items|
  {
    ExclusiveFilters(items, IsImage, IsEmbed);
  }

  // ---------------------------------------------------------------------------
  // The lightbox.

  /** What the user can do: click a picture, the ‹ or › button, the backdrop, or ✕. */
  datatype Event = OpenAt(i: nat) | PrevClick | NextClick | Backdrop | CloseButton

  /**
   * Whether the event can happen with `n` pictures in the given state: a picture is clicked
   * only from the grid, ‹ is rendered only past the first picture and › only before the last,
   * and the backdrop and ✕ only while the lightbox is open.
   */
  predicate Enabled(n: nat, index: Option<nat>, e: Event) {
    match e
    case OpenAt(i) => i < n
    case PrevClick => index.Some? && index.value > 0
    case NextClick => index.Some? && index.value < n - 1
    case Backdrop => index.Some?
    case CloseButton => index.Some?
  }

  /** The `setLightboxIndex` call each handler makes. */
  function Step(index: Option<nat>, e: Event): Option<nat>
    requires e.PrevClick? ==> index.Some? && index.value > 0
    requires e.NextClick? ==> index.Some?
  {
    match e
    case OpenAt(i) => Some(i)
    case PrevClick => Some(index.value - 1)
    case NextClick => Some(index.value + 1)
    case Backdrop => None
    case CloseButton => None
  }

  /** The state in which `imageItems[lightboxIndex]` is defined whenever the lightbox is open. */
  predicate InRange(n: nat, index: Option<nat>) {
    index.Some? ==> index.value < n
  }

  /** Every enabled event keeps the index in range. */
  lemma StepInRange(n: nat, index: Option<nat>, e: Event)
    requires InRange(n, index) && Enabled(n, index, e)
    ensures InRange(n, Step(index, e))
    ensures Step(index, e).Some? <==> e.OpenAt? || e.PrevClick? || e.NextClick?
  {
  }

  /** The states a run of enabled events goes through, ending in the last one. */
  function Run(n: nat, index: Option<nat>, es: seq<Event>): (r: Option<nat>)
    requires RunEnabled(n, index, es)
    decreases |es|
  {
    if es == [] then index else Run(n, Step(index, es[0]), es[1..])
  }

  /** Every event of the run is enabled in the state it happens in. */
  predicate RunEnabled(n: nat, index: Option<nat>, es: seq<Event>)
    decreases |es|
  {
    es == [] || (Enabled(n, index, es[0]) && RunEnabled(n, Step(index, es[0]), es[1..]))
  }

  /** From the initial `null`, no run of clicks takes the index out of range. */
  lemma {:induction false} RunInRange(n: nat, index: Option<nat>, es: seq<Event>)
    requires InRange(n, index) && RunEnabled(n, index, es)
    ensures InRange(n, Run(n, index, es))
    decreases |es|
  {
    if es != [] {
      StepInRange(n, index, es[0]);
      RunInRange(n, Step(index, es[0]), es[1..]);
    }
  }

  /** ‹ then › comes back to the same picture, and so does › then ‹. */
  lemma PrevNextInverse(n: nat, i: nat)
    requires 0 < i < n
    ensures Enabled(n, Some(i), PrevClick) && Enabled(n, Step(Some(i), PrevClick), NextClick)
    ensures Step(Step(Some(i), PrevClick), NextClick) == Some(i)
    ensures Enabled(n, Some(i - 1), NextClick) && Step(Step(Some(i - 1), NextClick), PrevClick) == Some(i - 1)
  {
  }

  /** The line under the open picture: its 1-based position and the number of pictures. */
  function CounterOf(n: nat, index: Option<nat>): (c: (nat, nat))
    requires InRange(n, index) && index.Some?
    ensures 1 <= c.0 <= c.1 && c.1 == n
  {
    (index.value + 1, n)
  }

  class Lightbox {
    /** The grid's `items` prop. */
    const items: seq<Item>
    /** `imageItems`. */
    const images: seq<Item>
    /** `lightboxIndex`: None is `null`, the lightbox closed. */
    var index: Option<nat>

    ghost predicate Valid()
      reads this
    {
      images == ImageItems(items) && InRange(|images|, index)
    }

    /** `useState<number | null>(null)`. */
    constructor(items: seq<Item>)
      ensures this.items == items && images == ImageItems(items) && index == None
      ensures Valid()
    {
      this.items := items;
      images := ImageItems(items);
      index := None;
    }

    /** A click on the `i`th picture of the grid. */
    method Open(i: nat)
      requires Valid() && i < |images|
      modifies this
      ensures index == Step(old(index), OpenAt(i)) && index == Some(i)
      ensures Valid()
    {
      index := Some(i);
    }

    /** ‹, rendered while `lightboxIndex > 0`. */
    method ClickPrev()
      requires Valid() && Enabled(|images|, index, PrevClick)
      modifies this
      ensures index == Step(old(index), PrevClick) && index == Some(old(index).value - 1)
      ensures Valid()
    {
      index := Some(index.value - 1);
    }

    /** ›, rendered while `lightboxIndex < imageItems.length - 1`. */
    method ClickNext()
      requires Valid() && Enabled(|images|, index, NextClick)
      modifies this
      ensures index == Step(old(index), NextClick) && index == Some(old(index).value + 1)
      ensures Valid()
    {
      index := Some(index.value + 1);
    }

    /** A click on the backdrop or on ✕. */
    method Close()
      requires Valid()
      modifies this
      ensures index == Step(old(index), CloseButton) && index == None
      ensures Valid()
    {
      index := None;
    }

    /** The picture the open lightbox shows: `imageItems[lightboxIndex]`. */
    function Shown(): (it: Item)
      requires Valid() && index.Some?
      reads this
      ensures it in images && it.itemType == ImageType
    {
      images[index.value]
    }

    /** `{lightboxIndex + 1} / {imageItems.length}`. */
    function Counter(): (c: (nat, nat))
      requires Valid() && index.Some?
      reads this
      ensures 1 <= c.0 <= c.1 && c.1 == |images|
    {
      CounterOf(|images|, index)
    }
  }
}
