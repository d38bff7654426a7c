/**
 * The page language chosen by the application shell (pages/_app.js): the
 * `lang` route parameter if it names a supported code, otherwise the first
 * path segment if it does, otherwise English.
 */
module App {
  import opened Wrappers
  import opened Text
  import MenuLang

  /** `SUPPORTED_LANGS`. Note `"uk"`, where the menu's canonical code is
      `"ua"`. */
  const SupportedLangs: seq<string> := ["en", "de", "uk"]

  /** `router.query.lang`: absent, one string, or a repeated parameter. */
  datatype QueryValue = Absent | Single(value: string) | Multiple(values: seq<string>)

  /** The first path segment as `_app.js` reads it: the text before the first
      `?`, split on `/`, element 1 (absent when there is no slash). */
  function FirstSegment(asPath: string): (seg: Option<string>)
    ensures seg.Some? ==> '/' !in seg.value
  {
    var path := Split(asPath, '?')[0];
    var pieces := Split(path, '/');
    if |pieces| > 1 then
      assert pieces[1] in pieces;
      Some(pieces[1])
    else None
  }

  /** The route parameter names a supported code: as a string, or as the
      first element of an array. */
  predicate ParamUsable(rawLang: QueryValue) {
    (rawLang.Single? && rawLang.value in SupportedLangs)
    || (rawLang.Multiple? && rawLang.values != [] && rawLang.values[0] in SupportedLangs)
  }

  /** The language computed at the top of `App`. */
  function InferLang(rawLang: QueryValue, asPath: string): (lang: string)
    ensures lang in SupportedLangs
    ensures rawLang.Single? && rawLang.value in SupportedLangs ==> lang == rawLang.value
    ensures rawLang.Multiple? && rawLang.values != [] && rawLang.values[0] in SupportedLangs
      ==> lang == rawLang.values[0]
    ensures (!ParamUsable(rawLang) && FirstSegment(asPath).Some?
             && FirstSegment(asPath).value in SupportedLangs)
      ==> lang == FirstSegment(asPath).value
    ensures lang != "en" ==>
      (rawLang.Single? && lang == rawLang.value)
      || (rawLang.Multiple? && rawLang.values != [] && lang == rawLang.values[0])
      || FirstSegment(asPath) == Some(lang)
  {
    if rawLang.Single? && rawLang.value in SupportedLangs then rawLang.value
    else if rawLang.Multiple? && |rawLang.values| > 0 && rawLang.values[0] in SupportedLangs then
      rawLang.values[0]
    else
      var seg := FirstSegment(asPath);
      if seg.Some? && seg.value in SupportedLangs then seg.value else "en"
  }

  /** Cutting `"/" + seg + rest` at its first `?` leaves `"/" + seg + w`,
      where `w` is empty or starts with a slash. */
  lemma QueryCut(seg: string, rest: string) returns (w: string)
    requires '?' !in seg
    requires rest == [] || rest[0] == '/' || rest[0] == '?'
    ensures Split("/" + seg + rest, '?')[0] == "/" + seg + w
    ensures w == [] || w[0] == '/'
  {
    var asPath := "/" + seg + rest;
    if rest != [] && rest[0] == '/' {
      SplitFirstPiece(rest, '?');
      w := Split(rest, '?')[0];
      var y := rest[|w|..];
      assert rest == w + y;
      assert asPath == ("/" + seg + w) + y;
      SplitFirstPieceOf("/" + seg + w, y, '?');
    } else {
      w := [];
      SplitFirstPieceOf("/" + seg, rest, '?');
      assert "/" + seg + w == "/" + seg;
    }
  }

  /** The first segment of `"/" + seg + rest` is `seg` when `seg` holds
      neither a slash nor a `?` and `rest` is empty or starts a new segment
      or the query. */
  lemma FirstSegmentOf(seg: string, rest: string)
    requires '/' !in seg && '?' !in seg
    requires rest == [] || rest[0] == '/' || rest[0] == '?'
    ensures FirstSegment("/" + seg + rest) == Some(seg)
  {
    var w := QueryCut(seg, rest);
    var path := "/" + seg + w;
    assert path == "" + "/" + (seg + w);
    SplitAfterPiece("", '/', seg + w);
    SplitFirstPieceOf(seg, w, '/');
  }

  /** Without a usable route parameter a path `/{code}...` selects `code`
      when it is supported, provided the segment ends at a slash, at a
      query, or at the end of the path. */
  lemma PathSelectsLanguage(rawLang: QueryValue, code: string, rest: string)
    requires !ParamUsable(rawLang)
    requires code in SupportedLangs
    requires rest == [] || rest[0] == '/' || rest[0] == '?'
    ensures InferLang(rawLang, "/" + code + rest) == code
  {
    assert '?' !in code && '/' !in code;
    FirstSegmentOf(code, rest);
  }

  /** A hash directly after the segment is not cut off, so `/de#top` and
      the like are not recognised. */
  lemma HashIsNotStripped(rawLang: QueryValue, code: string, hash: string)
    requires !ParamUsable(rawLang)
    requires code in SupportedLangs
    requires hash != [] && hash[0] == '#' && '?' !in hash && '/' !in hash
    ensures InferLang(rawLang, "/" + code + hash) == "en"
  {
    assert '?' !in code && '/' !in code && |code| == 2;
    var asPath := "/" + code + hash;
    assert '?' !in asPath;
    SplitNoSeparator(asPath, '?');
    var seg := code + hash;
    assert asPath == "" + "/" + seg;
    SplitAfterPiece("", '/', seg);
    assert '/' !in seg;
    SplitNoSeparator(seg, '/');
    assert |seg| > 2;
  }

  /** The menu's canonical code for Ukrainian is not recognised here. */
  lemma UaIsNotRecognised(rawLang: QueryValue, rest: string)
    requires !ParamUsable(rawLang)
    requires rest == [] || rest[0] == '/'
    ensures InferLang(rawLang, "/ua" + rest) == "en"
  {
    assert "/ua" + rest == "/" + "ua" + rest;
    FirstSegmentOf("ua", rest);
  }

  /** Whatever the route, the menu receives a code that it canonicalises to
      one of `en`, `de` and `ua`. */
  lemma MenuLanguageIsCanonical(rawLang: QueryValue, asPath: string)
    ensures MenuLang.CanonicalLang(InferLang(rawLang, asPath)) in ["en", "de", "ua"]
  {
    LowerOfLower("en");
    LowerOfLower("de");
    MenuLang.AliasesResolve();
  }
}
