/**
 * The home-page section cards (components/HomeSections.tsx): fetched once
 * when the component mounts, rendered as cards that link to a service page
 * when they name one.
 */
module HomeSections {
  import opened Wrappers
  import opened Assets
  import opened ServiceLinks

  /** A record of `items/home_sections`. */
  datatype HomeSection = HomeSection(
    id: int,
    title: string,
    subtitle: Option<string>,
    detailSlug: Option<string>,
    backgroundImage: AssetRef,
    published: Option<bool>)

  /** The request: published sections sorted by id, for every language. */
  const SectionsRequest := "items/home_sections?filter[published][_eq]=true&sort=id&fields=*.*"

  const LoadFailure := "Could not load home sections."

  /** What one card shows: its key, its `href`, whether a link wraps it, its
      image, title and subtitle. */
  datatype Card = Card(
    key: int,
    href: string,
    linked: bool,
    image: Option<string>,
    title: string,
    subtitle: Option<string>)

  datatype View = Placeholder | Nothing | Cards(cards: seq<Card>)

  /** The card for one section. */
  function CardOf(section: HomeSection, lang: string, base: string): (c: Card)
    ensures c.key == section.id && c.title == section.title
    ensures c.linked <==> Truthy(section.detailSlug)
    ensures c.linked ==> c.href == DetailHref(lang, section.detailSlug.value)
    ensures !c.linked ==> c.href == "#"
    ensures c.image == AssetUrl(section.backgroundImage, base)
    ensures c.subtitle.Some? <==> Truthy(section.subtitle)
    ensures c.subtitle.Some? ==> c.subtitle == section.subtitle
  {
    var href := if Truthy(section.detailSlug) then DetailHref(lang, section.detailSlug.value) else "#";
    Card(
      section.id,
      href,
      Truthy(section.detailSlug),
      AssetUrl(section.backgroundImage, base),
      section.title,
      if Truthy(section.subtitle) then section.subtitle else None)
  }

  /** A card is wrapped in a link exactly when its `href` is a real page, not
      the `"#"` placeholder. */
  lemma LinkedIffRealHref(section: HomeSection, lang: string, base: string)
    ensures CardOf(section, lang, base).linked <==> CardOf(section, lang, base).href != "#"
  {
    var c := CardOf(section, lang, base);
    assert c.linked ==> c.href[0] == '/' && "#"[0] == '#';
  }

  /** The component's props and state. */
  class HomeSectionsView {
    var lang: string
    /** `DIRECTUS_URL`, fixed when the module loads. */
    const base: string
    var sections: seq<HomeSection>
    var loading: bool
    var error: Option<string>

    /** The first render: no sections, loading, no error. */
    constructor (lang: string, publicUrl: string)
      ensures this.lang == lang && base == BaseUrl(publicUrl)
      ensures sections == [] && loading && error == None
    {
      this.lang := lang;
      base := BaseUrl(publicUrl);
      sections := [];
      loading := true;
      error := None;
    }

    /** `fetchSections` up to its request. */
    method StartFetch()
      modifies this`loading, this`error
      ensures loading && error == None
    {
      loading := true;
      error := None;
    }

    /** `fetchSections` after its request: a response stores its `data`
        (none reads as the empty list); a failure stores the message and
        keeps the previous sections; either way loading ends. */
    method FinishFetch(outcome: FetchOutcome<Option<seq<HomeSection>>>)
      modifies this`sections, this`loading, this`error
      ensures !loading
      ensures outcome.Fetched? ==> sections == outcome.data.GetOr([]) && error == old(error)
      ensures outcome.Failed? ==> sections == old(sections) && error == Some(LoadFailure)
    {
      match outcome {
        case Fetched(data) =>
          sections := data.GetOr([]);
        case Failed =>
          error := Some(LoadFailure);
      }
      loading := false;
    }

    /** A new `lang` prop: the effect has no dependencies, so nothing is
        fetched again; only the links of the cards change. */
    method SetLang(lang: string)
      modifies this`lang
      ensures this.lang == lang
      ensures sections == old(sections) && loading == old(loading) && error == old(error)
    {
      this.lang := lang;
    }

    /** The render decision: the placeholder while loading, nothing after an
        error or for an empty list, else one card per section in order. */
    function Render(): (v: View)
      reads this
      ensures v.Placeholder? <==> loading
      ensures v.Nothing? <==> !loading && (error.Some? || sections == [])
      ensures v.Cards? ==> |v.cards| == |sections|
      ensures v.Cards? ==> forall i :: 0 <= i < |sections| ==> v.cards[i] == CardOf(sections[i], lang, base)
    {
      if loading then Placeholder
      else if error.Some? || sections == [] then Nothing
      else
        var ss, l, b := sections, lang, base;
        Cards(seq(|ss|, i requires 0 <= i < |ss| => CardOf(ss[i], l, b)))
    }
  }
}
