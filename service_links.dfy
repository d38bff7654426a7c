/**
 * The deep link from a content card to its service page, built the same way
 * in components/ContentBlocks.tsx and components/HomeSections.tsx.
 */
module ServiceLinks {
  import opened Text

  /** `/{lang}/services/{detailSlug}`. */
  function DetailHref(lang: string, detailSlug: string): (href: string)
    ensures |href| > |detailSlug| && href[0] == '/'
    ensures href[|href| - |detailSlug|..] == detailSlug
  {
    "/" + lang + "/services/" + detailSlug
  }

  /** When neither the language nor the slug holds a slash, splitting the
      link on `/` gives back exactly the language, `services` and the slug. */
  lemma DetailHrefSegments(lang: string, detailSlug: string)
    requires '/' !in lang && '/' !in detailSlug
    ensures Split(DetailHref(lang, detailSlug), '/') == ["", lang, "services", detailSlug]
  {
    var tail := "services" + "/" + detailSlug;
    var mid := lang + "/" + tail;
    assert DetailHref(lang, detailSlug) == "" + "/" + mid;
    SplitAfterPiece("", '/', mid);
    SplitAfterPiece(lang, '/', tail);
    SplitAfterPiece("services", '/', detailSlug);
    SplitNoSeparator(detailSlug, '/');
  }
}
