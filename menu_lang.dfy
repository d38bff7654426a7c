/**
 * Language codes and link classification of the site menu
 * (`canonicalLang` and `isExternalUrl` in components/Menu.tsx).
 */
module MenuLang {
  import opened Text

  /** `DEFAULT_LANG`. */
  const DefaultLang: string := "en"

  /** `LANG_ALIASES`: historical or regional codes and the code they stand for. */
  const LangAliases: map<string, string> := map["gb" := "en", "uk" := "ua"]

  /** `canonicalLang`: the alias table is consulted with the code exactly as
      given, and only then is the result lower-cased. */
  function CanonicalLang(code: string): (r: string)
    ensures IsLower(r)
    ensures code in LangAliases ==> r == LangAliases[code]
    ensures code !in LangAliases ==> r == Lower(code)
  {
    Lower(if code in LangAliases then LangAliases[code] else code)
  }

  /** The two aliases resolve to their canonical codes. */
  lemma AliasesResolve()
    ensures CanonicalLang("gb") == "en" && CanonicalLang("uk") == "ua"
  {
  }

  /** The lookup is case-sensitive: an upper-case alias is only lower-cased. */
  lemma UpperCaseAliasIsNotResolved()
    ensures CanonicalLang("GB") == "gb" && CanonicalLang("UK") == "uk"
  {
    assert "GB" !in LangAliases && "UK" !in LangAliases;
  }

  /** On a code that is already lower case, canonicalising twice is
      canonicalising once. */
  lemma CanonicalLangIdempotentOnLower(code: string)
    requires IsLower(code)
    ensures CanonicalLang(CanonicalLang(code)) == CanonicalLang(code)
  {
    if code !in LangAliases {
      LowerOfLower(code);
    }
  }

  /** Without the lower-case premise idempotence fails: `"GB"` canonicalises
      to `"gb"`, which canonicalises to `"en"`. */
  lemma CanonicalLangNotIdempotent()
    ensures CanonicalLang(CanonicalLang("GB")) != CanonicalLang("GB")
  {
    UpperCaseAliasIsNotResolved();
  }

  /** `s` starts with `p`, comparing ASCII letters case-insensitively. */
  predicate StartsWithNoCase(s: string, p: string) {
    |p| <= |s| && Lower(s[..|p|]) == Lower(p)
  }

  /** The regular expression `/^(https?:)?\/\//i`: an optional `http:` or
      `https:` scheme in any letter case, followed by two slashes. */
  predicate IsSchemeRelativeOrHttp(url: string) {
    var rest :=
      if StartsWithNoCase(url, "https:") then url[6..]
      else if StartsWithNoCase(url, "http:") then url[5..]
      else url;
    "//" <= rest
  }

  /** `isExternalUrl`. */
  predicate IsExternalUrl(url: string) {
    IsSchemeRelativeOrHttp(url) || "mailto:" <= url || "tel:" <= url
  }

  lemma LowerPrefix(url: string, n: nat)
    requires n <= |url|
    ensures Lower(url[..n]) == Lower(url)[..n]
  {
  }

  /** Lower-casing turns no character into a slash and no slash into
      anything else. */
  lemma SlashesKept(url: string)
    ensures forall i :: 0 <= i < |url| ==> (Lower(url)[i] == '/' <==> url[i] == '/')
  {
  }

  /** The scheme part of the expression: an `https:` scheme (any case)
      followed by two slashes is exactly an `https://` prefix of the
      lower-cased URL. */
  lemma HttpsScheme(url: string)
    requires StartsWithNoCase(url, "https:")
    ensures IsSchemeRelativeOrHttp(url) <==> "https://" <= Lower(url)
    ensures !("//" <= url) && !("http://" <= Lower(url))
  {
    var low := Lower(url);
    LowerPrefix(url, 6);
    SlashesKept(url);
    assert low[..6] == "https:";
    assert low[4] == 's' && low[0] == 'h';
  }

  lemma HttpScheme(url: string)
    requires !StartsWithNoCase(url, "https:") && StartsWithNoCase(url, "http:")
    ensures IsSchemeRelativeOrHttp(url) <==> "http://" <= Lower(url)
    ensures !("//" <= url) && !("https://" <= Lower(url))
  {
    var low := Lower(url);
    LowerPrefix(url, 5);
    SlashesKept(url);
    assert low[..5] == "http:";
    assert low[0] == 'h' && low[4] == ':';
  }

  lemma NoScheme(url: string)
    requires !StartsWithNoCase(url, "https:") && !StartsWithNoCase(url, "http:")
    ensures !("https://" <= Lower(url)) && !("http://" <= Lower(url))
  {
    var low := Lower(url);
    if |url| >= 5 {
      LowerPrefix(url, 5);
    }
    if |url| >= 6 {
      LowerPrefix(url, 6);
    }
    assert Lower("http:") == "http:" && Lower("https:") == "https:";
  }

  /** A URL is external exactly when it starts with `//`, with `http://` or
      `https://` in any letter case, or with `mailto:` or `tel:` as written. */
  lemma ExternalUrlPrefixes(url: string)
    ensures IsExternalUrl(url) <==>
      "//" <= url || "http://" <= Lower(url) || "https://" <= Lower(url)
      || "mailto:" <= url || "tel:" <= url
  {
    if StartsWithNoCase(url, "https:") {
      HttpsScheme(url);
    } else if StartsWithNoCase(url, "http:") {
      HttpScheme(url);
    } else {
      NoScheme(url);
    }
  }
}
