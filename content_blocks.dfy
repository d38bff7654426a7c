/**
 * The content-block grid of a service page (components/ContentBlocks.tsx):
 * its fetch state, and what it renders from that state.
 */
module ContentBlocks {
  import opened Wrappers
  import opened Assets
  import opened ServiceLinks
  import Text

  /** A record of `items/content_blocks`; `blockType` is the record's `type`. */
  datatype ContentBlock = ContentBlock(
    contentBlockId: int,
    title: string,
    subtitle: Option<string>,
    blockType: string,
    imageFile: AssetRef,
    details: Option<string>,
    detailSlug: Option<string>)

  /** What one card shows: its React key, the link wrapping it (if any), the
      image at its top, the quote at its top, its title and its details. */
  datatype Card = Card(
    key: int,
    href: Option<string>,
    image: Option<string>,
    quote: Option<string>,
    title: string,
    details: Option<string>)

  /** What the component renders: the loading placeholder, nothing, or the
      grid of cards. */
  datatype View = Placeholder | Nothing | Cards(cards: seq<Card>)

  const LoadFailure := "Could not load content blocks."

  /** The card for one block. */
  function CardOf(block: ContentBlock, lang: string, base: string): (c: Card)
    ensures c.key == block.contentBlockId && c.title == block.title
    ensures c.href.Some? <==> Truthy(block.detailSlug)
    ensures c.href.Some? ==> c.href.value == DetailHref(lang, block.detailSlug.value)
    ensures c.image.Some? <==> block.blockType == "image" && IdOf(block.imageFile) != ""
    ensures c.image.Some? ==> c.image == AssetUrl(block.imageFile, base)
    ensures c.quote.Some? <==> block.blockType != "image" && Truthy(block.subtitle)
    ensures c.quote.Some? ==> c.quote == block.subtitle
    ensures c.image.None? || c.quote.None?
    ensures c.details.Some? <==> Truthy(block.details)
    ensures c.details.Some? ==> c.details == block.details
  {
    var imageUrl := AssetUrl(block.imageFile, base);
    Card(
      block.contentBlockId,
      if Truthy(block.detailSlug) then Some(DetailHref(lang, block.detailSlug.value)) else None,
      if block.blockType == "image" then imageUrl else None,
      if block.blockType != "image" && Truthy(block.subtitle) then block.subtitle else None,
      block.title,
      if Truthy(block.details) then block.details else None)
  }

  /** The component's props and state. */
  class ContentBlocksView {
    var lang: string
    var slug: string
    /** `DIRECTUS_URL`, fixed when the module loads. */
    const base: string
    var blocks: seq<ContentBlock>
    var loading: bool
    var error: Option<string>

    /** The first render: no blocks, loading, no error. */
    constructor (lang: string, slug: string, publicUrl: string)
      ensures this.lang == lang && this.slug == slug && base == BaseUrl(publicUrl)
      ensures blocks == [] && loading && error == None
    {
      this.lang := lang;
      this.slug := slug;
      base := BaseUrl(publicUrl);
      blocks := [];
      loading := true;
      error := None;
    }

    /** `fetchBlocks` up to its request: loading shown, error cleared, the
        previous blocks kept. */
    method StartFetch()
      modifies this`loading, this`error
      ensures loading && error == None
    {
      loading := true;
      error := None;
    }

    /** `fetchBlocks` after its request: a response stores its `data` (none
        reads as the empty list); a failure stores the message and keeps the
        previous blocks; either way loading ends. */
    method FinishFetch(outcome: FetchOutcome<Option<seq<ContentBlock>>>)
      modifies this`blocks, this`loading, this`error
      ensures !loading
      ensures outcome.Fetched? ==> blocks == outcome.data.GetOr([]) && error == old(error)
      ensures outcome.Failed? ==> blocks == old(blocks) && error == Some(LoadFailure)
    {
      match outcome {
        case Fetched(data) =>
          blocks := data.GetOr([]);
        case Failed =>
          error := Some(LoadFailure);
      }
      loading := false;
    }

    /** One whole run of `fetchBlocks`: afterwards the grid shows exactly the
        fetched blocks, or nothing when the request failed or returned none. */
    method FetchBlocks(outcome: FetchOutcome<Option<seq<ContentBlock>>>)
      modifies this`blocks, this`loading, this`error
      ensures !loading
      ensures Render().Nothing? <==> outcome.Failed? || outcome.data.GetOr([]) == []
      ensures Render().Cards? ==> blocks == outcome.data.GetOr([])
    {
      StartFetch();
      FinishFetch(outcome);
    }

    /** New props: the effect runs again only when `lang` or `slug` changed. */
    method SetProps(lang: string, slug: string)
      modifies this`lang, this`slug, this`loading, this`error
      ensures this.lang == lang && this.slug == slug
      ensures lang != old(this.lang) || slug != old(this.slug) ==> loading && error == None
      ensures lang == old(this.lang) && slug == old(this.slug) ==>
        loading == old(loading) && error == old(error)
    {
      var changed := lang != this.lang || slug != this.slug;
      this.lang := lang;
      this.slug := slug;
      if changed {
        StartFetch();
      }
    }

    /** The render decision: the placeholder while loading, nothing after an
        error or for an empty list, else one card per block in order. */
    function Render(): (v: View)
      reads this
      ensures v.Placeholder? <==> loading
      ensures v.Nothing? <==> !loading && (error.Some? || blocks == [])
      ensures v.Cards? ==> |v.cards| == |blocks|
      ensures v.Cards? ==> forall i :: 0 <= i < |blocks| ==> v.cards[i] == CardOf(blocks[i], lang, base)
    {
      if loading then Placeholder
      else if error.Some? || blocks == [] then Nothing
      else
        var bs, l, b := blocks, lang, base;
        Cards(seq(|bs|, i requires 0 <= i < |bs| => CardOf(bs[i], l, b)))
    }
  }

  /** A linked card leads to the block's service page: splitting its link
      gives the language, `services` and the block's slug. */
  lemma LinkedCardTarget(block: ContentBlock, lang: string, base: string)
    requires Truthy(block.detailSlug) && '/' !in lang && '/' !in block.detailSlug.value
    ensures CardOf(block, lang, base).href.Some?
    ensures Text.Split(CardOf(block, lang, base).href.value, '/')
      == ["", lang, "services", block.detailSlug.value]
  {
    DetailHrefSegments(lang, block.detailSlug.value);
  }
}
