/**
 * The href of a navigation entry (`resolveNavHref` in components/Menu.tsx).
 */
module MenuLinks {
  import opened Wrappers
  import opened Text
  import opened MenuLang
  import opened MenuPath

  /** The URL override is used as given: it is set and external. */
  predicate PassesThrough(url: Option<string>) {
    Truthy(url) && IsExternalUrl(url.value)
  }

  /** `item.url.startsWith("/") ? item.url : "/" + item.url`. */
  function Absolute(url: string): (r: string)
    ensures r != [] && r[0] == '/'
    ensures r == url || r == "/" + url
  {
    if "/" <= url then url else "/" + url
  }

  /** `resolveNavHref`: an external URL override as it is; any other URL
      override made absolute and given the language segment; otherwise the
      trimmed slug under the language; otherwise the language's home. */
  function ResolveNavHref(url: Option<string>, slug: Option<string>, lang: string,
                          supportedLangs: seq<string>): (r: string)
    ensures PassesThrough(url) ==> r == url.value
    ensures !PassesThrough(url) ==> r != [] && r[0] == '/'
  {
    var langCanonical := CanonicalLang(lang);
    if Truthy(url) then
      if IsExternalUrl(url.value) then url.value
      else LangPath(Absolute(url.value), langCanonical, supportedLangs)
    else if slug.Some? && Trim(slug.value) != [] then
      "/" + langCanonical + "/" + Trim(slug.value)
    else
      "/" + langCanonical
  }

  /** The first path segment of `"/" + t + w` is `t` when `t` is a single
      segment and `w` is empty or starts a new segment. */
  lemma LeadingSegment(t: string, w: string)
    requires ValidSegment(t)
    requires w == [] || w[0] == '/'
    ensures PathSegments("/" + t + w) != [] && PathSegments("/" + t + w)[0] == t
  {
    var s := "/" + t + w;
    var i := NextMark(s, 1);
    forall k | 1 <= k < |t| + 1 ensures !IsMark(s[k]) {
      assert s[k] == t[k - 1] && s[k] in t;
    }
    assert i >= |t| + 1;
    var w' := w[..i - |t| - 1];
    assert PathOnly(s) == "/" + t + w';
    assert ("/" + t + w')[1..] == t + w';
    assert Split("/" + t + w', '/') == [""] + Split(t + w', '/');
    var rest: seq<string>;
    if w' == [] {
      assert t + w' == t;
      SplitNoSeparator(t, '/');
      rest := [];
    } else {
      assert w'[0] == '/';
      assert t + w' == t + ['/'] + w'[1..];
      SplitAfterPiece(t, '/', w'[1..]);
      rest := Split(w'[1..], '/');
    }
    assert Split(t + w', '/') == [t] + rest;
    assert ([""] + ([t] + rest))[1..] == [t] + rest;
    assert ([t] + rest)[1..] == rest;
    assert NonEmpty([""] + ([t] + rest)) == NonEmpty([t] + rest);
    assert NonEmpty([t] + rest) == [t] + NonEmpty(rest);
  }

  /** Every link that is not passed through starts with the active language
      as its first path segment, whichever branch built it. The premises say
      that the language is one well-formed segment that canonicalising does
      not change again (true of every canonical code but `"gb"` and `"uk"`). */
  lemma InternalHrefStartsWithLanguage(url: Option<string>, slug: Option<string>, lang: string,
                                       supportedLangs: seq<string>)
    requires !PassesThrough(url)
    requires ValidSegment(CanonicalLang(lang))
    requires CanonicalLang(CanonicalLang(lang)) == CanonicalLang(lang)
    ensures var r := ResolveNavHref(url, slug, lang, supportedLangs);
      PathSegments(r) != [] && PathSegments(r)[0] == CanonicalLang(lang)
  {
    var lc := CanonicalLang(lang);
    if Truthy(url) {
      LangPathShape(Absolute(url.value), lc, supportedLangs);
    } else if slug.Some? && Trim(slug.value) != [] {
      assert "/" + lc + "/" + Trim(slug.value) == "/" + lc + ("/" + Trim(slug.value));
      LeadingSegment(lc, "/" + Trim(slug.value));
    } else {
      assert "/" + lc == "/" + lc + "";
      LeadingSegment(lc, "");
    }
  }

  /** An internal URL override keeps its segments after the language, drops
      a leading segment that is a supported language, and keeps its first
      query or hash piece. */
  lemma InternalUrlRewritten(url: string, lang: string, supportedLangs: seq<string>)
    requires url != [] && !IsExternalUrl(url)
    requires ValidSegment(CanonicalLang(CanonicalLang(lang)))
    ensures var r := ResolveNavHref(Some(url), None, lang, supportedLangs);
      && PathSegments(r) == [CanonicalLang(CanonicalLang(lang))]
           + Kept(PathSegments(Absolute(url)), supportedLangs)
      && Suffix(r) == Suffix(Absolute(url))
  {
    LangPathShape(Absolute(url), CanonicalLang(lang), supportedLangs);
  }

  /** Special-protocol links pass through whatever the language. */
  lemma MailtoPassesThrough(lang: string, supportedLangs: seq<string>)
    ensures ResolveNavHref(Some("mailto:a@b.com"), None, lang, supportedLangs) == "mailto:a@b.com"
  {
    assert "mailto:" <= "mailto:a@b.com";
  }

  /** Without a URL override the slug decides: a slug with text gives the
      canonical language and the slug trimmed of surrounding white space; a
      missing or blank slug gives the language's home. */
  lemma SlugLink(url: Option<string>, slug: Option<string>, lang: string, supportedLangs: seq<string>)
    requires !Truthy(url)
    ensures slug.Some? && Trim(slug.value) != [] ==>
      ResolveNavHref(url, slug, lang, supportedLangs) == "/" + CanonicalLang(lang) + "/" + Trim(slug.value)
    ensures slug.None? || Trim(slug.value) == [] ==>
      ResolveNavHref(url, slug, lang, supportedLangs) == "/" + CanonicalLang(lang)
  {
  }

  /** So a slug padded with white space links like the bare slug: for a
      lower-case language outside the alias table, `" pricing "` and
      `"pricing"` both give `/{lang}/pricing`. */
  lemma PaddedSlugLink(before: string, slug: string, after: string, lang: string,
                       supportedLangs: seq<string>)
    requires forall i :: 0 <= i < |before| ==> IsSpace(before[i])
    requires forall i :: 0 <= i < |after| ==> IsSpace(after[i])
    requires slug != [] && !IsSpace(slug[0]) && !IsSpace(slug[|slug| - 1])
    requires IsLower(lang) && lang !in LangAliases
    ensures ResolveNavHref(None, Some(before + slug + after), lang, supportedLangs)
      == "/" + lang + "/" + slug
  {
    LowerOfLower(lang);
    assert CanonicalLang(lang) == lang;
    TrimPadded(before, slug, after);
    SlugLink(None, Some(before + slug + after), lang, supportedLangs);
  }

  /** Before the languages have loaded the supported list is empty, so an
      internal URL that already carries a language gets a second one. */
  lemma UrlBeforeLanguagesLoad()
    ensures ResolveNavHref(Some("/de/x"), None, "en", []) == "/en/de/x"
  {
    InternalUrlIsAbsolute();
    assert "/de/x" == "/" + Join(["de", "x"], '/') + "" + "";
    LangPathOfParts(["de", "x"], "", "", "en", []);
    NoSupportedAssembled();
  }

  lemma InternalUrlIsAbsolute()
    ensures !IsExternalUrl("/de/x") && Absolute("/de/x") == "/de/x"
  {
    ExternalUrlPrefixes("/de/x");
    var low := Lower("/de/x");
    assert low[0] == '/';
    assert !("http://" <= low) && !("https://" <= low);
    assert "/de/x"[1] == 'd';
    assert !("//" <= "/de/x") && !("mailto:" <= "/de/x") && !("tel:" <= "/de/x");
  }

  lemma NoSupportedAssembled()
    ensures CanonicalLang("en") == "en"
    ensures "/" + Join([CanonicalLang("en")] + Kept(["de", "x"], []), '/') + "" == "/en/de/x"
  {
    LowerOfLower("en");
    assert Kept(["de", "x"], []) == ["de", "x"];
    assert Join(["en", "de", "x"], '/') == "en/de/x";
  }
}
