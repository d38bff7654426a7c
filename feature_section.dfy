/**
 * The feature banner of a service page (components/FeatureSection.tsx): the
 * first matching record, shown with its image when it has one. There is no
 * loading state: the previous banner stays on screen while a new one is
 * fetched.
 */
module FeatureSection {
  import opened Wrappers
  import opened Assets

  /** A record of `items/feature_section`. */
  datatype FeatureData = FeatureData(
    featureId: int,
    title: string,
    description: Option<string>,
    backgroundImage: AssetRef)

  const LoadFailure := "Could not load feature section."

  /** What the banner shows. */
  datatype Banner = Banner(title: string, description: Option<string>, image: Option<string>)

  datatype View = Nothing | Shown(banner: Banner)

  /** `response.data?.[0] || null`: the first record, if the response holds
      any. */
  function FirstRecord(data: Option<seq<FeatureData>>): (r: Option<FeatureData>)
    ensures r.None? <==> data.None? || data.value == []
    ensures r.Some? ==> r.value in data.value && r.value == data.value[0]
  {
    if data.Some? && |data.value| > 0 then Some(data.value[0]) else None
  }

  /** The banner for a record. */
  function BannerOf(feature: FeatureData, base: string): (b: Banner)
    ensures b.title == feature.title
    ensures b.image.Some? <==> IdOf(feature.backgroundImage) != ""
    ensures b.image == AssetUrl(feature.backgroundImage, base)
    ensures b.description.Some? <==> Truthy(feature.description)
    ensures b.description.Some? ==> b.description == feature.description
  {
    Banner(
      feature.title,
      if Truthy(feature.description) then feature.description else None,
      AssetUrl(feature.backgroundImage, base))
  }

  /** The component's props and state. */
  class FeatureSectionView {
    var lang: string
    var slug: string
    /** `DIRECTUS_URL`, fixed when the module loads. */
    const base: string
    var feature: Option<FeatureData>
    var error: Option<string>

    /** The first render: no feature, no error. */
    constructor (lang: string, slug: string, publicUrl: string)
      ensures this.lang == lang && this.slug == slug && base == BaseUrl(publicUrl)
      ensures feature == None && error == None
    {
      this.lang := lang;
      this.slug := slug;
      base := BaseUrl(publicUrl);
      feature := None;
      error := None;
    }

    /** `fetchFeature` up to its request: only the error is cleared. */
    method StartFetch()
      modifies this`error
      ensures error == None
    {
      error := None;
    }

    /** `fetchFeature` after its request: a response stores its first
        record (or none); a failure stores the message and keeps the
        previous record. */
    method FinishFetch(outcome: FetchOutcome<Option<seq<FeatureData>>>)
      modifies this`feature, this`error
      ensures outcome.Fetched? ==> feature == FirstRecord(outcome.data) && error == old(error)
      ensures outcome.Failed? ==> feature == old(feature) && error == Some(LoadFailure)
    {
      match outcome {
        case Fetched(data) =>
          feature := FirstRecord(data);
        case Failed =>
          error := Some(LoadFailure);
      }
    }

    /** New props: the effect runs again only when `lang` or `slug` changed,
        and the banner on screen stays until the response arrives. */
    method SetProps(lang: string, slug: string)
      modifies this`lang, this`slug, this`error
      ensures this.lang == lang && this.slug == slug
      ensures lang != old(this.lang) || slug != old(this.slug) ==> error == None
      ensures lang == old(this.lang) && slug == old(this.slug) ==> error == old(error)
    {
      var changed := lang != this.lang || slug != this.slug;
      this.lang := lang;
      this.slug := slug;
      if changed {
        StartFetch();
      }
    }

    /** Nothing on an error or without a record; otherwise the banner of the
        record. */
    function Render(): (v: View)
      reads this
      ensures v.Nothing? <==> error.Some? || feature.None?
      ensures v.Shown? ==> v.banner == BannerOf(feature.value, base)
    {
      if error.Some? || feature.None? then Nothing
      else Shown(BannerOf(feature.value, base))
    }
  }
}
