/**
 * Rewriting the language segment of a path (`replaceLangInPath` in
 * components/Menu.tsx).
 */
module MenuPath {
  import opened Text
  import opened MenuLang

  /** A character at which `split(/(?=[?#])/)` cuts: `?` or `#`. */
  predicate IsMark(c: char) {
    c == '?' || c == '#'
  }

  /** The first index at or after `from` holding a mark, or `|s|`. */
  function NextMark(s: string, from: nat): (i: nat)
    requires from <= |s|
    ensures from <= i <= |s|
    ensures i < |s| ==> IsMark(s[i])
    ensures forall k :: from <= k < i ==> !IsMark(s[k])
    decreases |s| - from
  {
    if from == |s| || IsMark(s[from]) then from else NextMark(s, from + 1)
  }

  /** What `split(/(?=[?#])/)` can leave in the second piece: nothing, or a
      mark followed by text without marks. */
  predicate IsSuffixPiece(suffix: string) {
    suffix == [] || (IsMark(suffix[0]) && forall k :: 1 <= k < |suffix| ==> !IsMark(suffix[k]))
  }

  /** `const [pathOnly, suffix = ""] = asPath.split(/(?=[?#])/)`. The split
      cuts before every `?` or `#` except one at index 0 (a zero-width match
      where the previous piece ends does not cut), and only the first two
      pieces are kept: everything from a second mark on is dropped. */
  function SplitSuffix(s: string): (r: (string, string))
    ensures r.0 + r.1 <= s
    ensures s != [] ==> |r.0| >= 1
    ensures forall k :: 1 <= k < |r.0| ==> !IsMark(r.0[k])
    ensures IsSuffixPiece(r.1)
    ensures r.1 == [] ==> r.0 == s
    ensures |r.0| + |r.1| == |s| || IsMark(s[|r.0| + |r.1|])
  {
    if |s| == 0 then ("", "")
    else
      var i := NextMark(s, 1);
      var j := if i < |s| then NextMark(s, i + 1) else |s|;
      (s[..i], s[i..j])
  }

  /** The path part of a string, before its first mark after index 0. */
  function PathOnly(s: string): string {
    SplitSuffix(s).0
  }

  /** The query or hash piece `replaceLangInPath` carries over. */
  function Suffix(s: string): string {
    SplitSuffix(s).1
  }

  /** `pathOnly.split("/").filter(Boolean)`. */
  function Segments(pathOnly: string): (r: seq<string>)
    ensures forall p :: p in r ==> p != [] && '/' !in p
    ensures forall p :: p in r ==> forall ch :: ch in p ==> ch in pathOnly
  {
    NonEmpty(Split(pathOnly, '/'))
  }

  /** The non-empty segments of the path part of `s`. */
  function PathSegments(s: string): seq<string> {
    Segments(PathOnly(s))
  }

  /** `supportedLangs.map(canonicalLang)`. */
  function CanonicalAll(langs: seq<string>): (r: seq<string>)
    ensures |r| == |langs|
    ensures forall i :: 0 <= i < |langs| ==> r[i] == CanonicalLang(langs[i])
  {
    seq(|langs|, i requires 0 <= i < |langs| => CanonicalLang(langs[i]))
  }

  /** The first segment is a language code: its canonical form is among the
      canonical forms of the supported codes. */
  predicate ReplacesFirst(parts: seq<string>, supportedLangs: seq<string>) {
    |parts| > 0 && CanonicalLang(parts[0]) in CanonicalAll(supportedLangs)
  }

  /** The segments that follow the language segment in the result: all but
      a replaced first segment. */
  function Kept(parts: seq<string>, supportedLangs: seq<string>): seq<string> {
    if ReplacesFirst(parts, supportedLangs) then parts[1..] else parts
  }

  /** A string that reads back as exactly one path segment. */
  predicate ValidSegment(t: string) {
    t != [] && Excludes(t, {'/', '?', '#'})
  }

  /** The path `replaceLangInPath` produces: a slash, the canonical target,
      the kept segments, and the carried suffix. */
  function LangPath(asPath: string, targetLang: string, supportedLangs: seq<string>): string {
    "/" + Join([CanonicalLang(targetLang)] + Kept(PathSegments(asPath), supportedLangs), '/')
      + Suffix(asPath)
  }

  /** `replaceLangInPath`: the segment list is updated in place, either by
      overwriting its first entry or by inserting the target in front. */
  method ReplaceLangInPath(asPath: string, targetLang: string, supportedLangs: seq<string>)
    returns (r: string)
    ensures r == LangPath(asPath, targetLang, supportedLangs)
  {
    var canonicalTarget := CanonicalLang(targetLang);
    var (pathOnly, suffix) := SplitSuffix(asPath);
    var parts := Segments(pathOnly);
    ghost var segments := parts;
    assert segments == PathSegments(asPath) && suffix == Suffix(asPath);
    var supported := CanonicalAll(supportedLangs);
    if |parts| > 0 && CanonicalLang(parts[0]) in supported {
      assert ReplacesFirst(segments, supportedLangs);
      parts := parts[0 := canonicalTarget];
      ReplaceFirst(segments, canonicalTarget);
    } else {
      assert !ReplacesFirst(segments, supportedLangs);
      parts := [canonicalTarget] + parts;
    }
    assert parts == [canonicalTarget] + Kept(segments, supportedLangs);
    r := "/" + Join(parts, '/') + suffix;
  }

  lemma ReplaceFirst(s: seq<string>, x: string)
    requires |s| > 0
    ensures s[0 := x] == [x] + s[1..]
  {
  }

  /** A path without marks after index 0, then a suffix piece, then text
      that is empty or starts at a mark, splits into the path and the suffix
      piece; the trailing text is dropped. */
  lemma SplitSuffixOf(p: string, suffix: string, rest: string)
    requires |p| >= 1
    requires forall k :: 1 <= k < |p| ==> !IsMark(p[k])
    requires IsSuffixPiece(suffix)
    requires rest == [] || (suffix != [] && IsMark(rest[0]))
    ensures SplitSuffix(p + suffix + rest) == (p, suffix)
  {
    var s := p + suffix + rest;
    var i := NextMark(s, 1);
    assert forall k :: 0 <= k < |p| ==> s[k] == p[k];
    assert suffix != [] ==> s[|p|] == suffix[0];
    assert i == |p|;
    assert s[..i] == p;
    if i < |s| {
      var j := NextMark(s, i + 1);
      assert forall k :: |p| <= k < |p| + |suffix| ==> s[k] == suffix[k - |p|];
      assert rest != [] ==> s[|p| + |suffix|] == rest[0];
      assert j == |p| + |suffix|;
      assert s[i..j] == suffix;
    }
  }

  /** The shape of the result: it starts with a slash, its segments are the
      canonical target followed by the kept segments of the input, and the
      input's suffix piece is carried over unchanged. */
  lemma LangPathShape(asPath: string, targetLang: string, supportedLangs: seq<string>)
    requires ValidSegment(CanonicalLang(targetLang))
    requires asPath == [] || !IsMark(asPath[0])
    ensures var out := LangPath(asPath, targetLang, supportedLangs);
      && out[0] == '/'
      && PathSegments(out) == [CanonicalLang(targetLang)] + Kept(PathSegments(asPath), supportedLangs)
      && Suffix(out) == Suffix(asPath)
  {
    var parts := [CanonicalLang(targetLang)] + Kept(PathSegments(asPath), supportedLangs);
    KeptSegmentsValid(asPath, targetLang, supportedLangs);
    JoinExcludes(parts, '/', {'?', '#'});
    SegmentsOfJoin(parts);
    var head := "/" + Join(parts, '/');
    HeadMarkFree(parts);
    SplitSuffixOf(head, Suffix(asPath), "");
    assert head + Suffix(asPath) + "" == LangPath(asPath, targetLang, supportedLangs);
  }

  /** The path part holds no mark when the input does not start with one. */
  lemma PathOnlyMarkFree(asPath: string)
    requires asPath == [] || !IsMark(asPath[0])
    ensures Excludes(PathOnly(asPath), {'?', '#'})
  {
    var pathOnly := PathOnly(asPath);
    forall ch | ch in pathOnly ensures ch !in {'?', '#'} {
      var k :| 0 <= k < |pathOnly| && pathOnly[k] == ch;
      assert k == 0 ==> asPath[0] == pathOnly[0];
    }
  }

  /** The target and the kept segments are each one segment without marks. */
  lemma KeptSegmentsValid(asPath: string, targetLang: string, supportedLangs: seq<string>)
    requires ValidSegment(CanonicalLang(targetLang))
    requires asPath == [] || !IsMark(asPath[0])
    ensures forall q :: (q in [CanonicalLang(targetLang)] + Kept(PathSegments(asPath), supportedLangs)
      ==> q != [] && Excludes(q, {'/', '?', '#'}))
  {
    PathOnlyMarkFree(asPath);
    var t := CanonicalLang(targetLang);
    var segs := PathSegments(asPath);
    forall q | q in [t] + Kept(segs, supportedLangs) ensures q != [] && Excludes(q, {'/', '?', '#'}) {
      assert q != t ==> q in segs;
    }
  }

  /** A slash followed by text without marks has no mark after index 0. */
  lemma HeadMarkFree(parts: seq<string>)
    requires Excludes(Join(parts, '/'), {'?', '#'})
    ensures var head := "/" + Join(parts, '/');
      forall k :: 1 <= k < |head| ==> !IsMark(head[k])
  {
    var joined := Join(parts, '/');
    var head := "/" + joined;
    forall k | 1 <= k < |head| ensures !IsMark(head[k]) {
      assert head[k] == joined[k - 1] && head[k] in joined;
    }
  }

  /** Rewriting a result again with the same target changes nothing, when
      the canonical target is a well-formed segment that is itself recognised
      as a supported language and the input does not start with a mark. */
  lemma LangPathIdempotent(asPath: string, targetLang: string, supportedLangs: seq<string>)
    requires ValidSegment(CanonicalLang(targetLang))
    requires CanonicalLang(CanonicalLang(targetLang)) in CanonicalAll(supportedLangs)
    requires asPath == [] || !IsMark(asPath[0])
    ensures var out := LangPath(asPath, targetLang, supportedLangs);
      LangPath(out, targetLang, supportedLangs) == out
  {
    var out := LangPath(asPath, targetLang, supportedLangs);
    LangPathShape(asPath, targetLang, supportedLangs);
    var t := CanonicalLang(targetLang);
    var kept := Kept(PathSegments(asPath), supportedLangs);
    assert ReplacesFirst([t] + kept, supportedLangs);
    assert Kept(PathSegments(out), supportedLangs) == kept;
  }

  /** `LangPath` on a path given as its segments, a suffix piece and dropped
      trailing text. */
  lemma LangPathOfParts(parts: seq<string>, suffix: string, rest: string,
                        targetLang: string, supportedLangs: seq<string>)
    requires forall p :: p in parts ==> p != [] && Excludes(p, {'/', '?', '#'})
    requires IsSuffixPiece(suffix)
    requires rest == [] || (suffix != [] && IsMark(rest[0]))
    ensures LangPath("/" + Join(parts, '/') + suffix + rest, targetLang, supportedLangs)
      == "/" + Join([CanonicalLang(targetLang)] + Kept(parts, supportedLangs), '/') + suffix
  {
    var head := "/" + Join(parts, '/');
    JoinExcludes(parts, '/', {'?', '#'});
    HeadMarkFree(parts);
    SplitSuffixOf(head, suffix, rest);
    SegmentsOfJoin(parts);
  }

  /** The case-sensitive alias lookup defeats idempotence. Take an alias
      written in upper case, such as `"GB"`, as the target and as the only
      supported code: its canonical form is only lower-cased (`"gb"`), so a
      path without a language gets `gb` inserted; but on the next rewrite the
      `gb` segment canonicalises through the table (to `"en"`), is not
      recognised, and a second `gb` is inserted. */
  lemma LangPathUpperAliasNotIdempotent(g: string, x: string)
    requires g !in LangAliases && Lower(g) in LangAliases
    requires ValidSegment(x) && IsLower(x) && x !in LangAliases && x != Lower(g)
    ensures LangPath("/" + x, g, [g]) == "/" + Lower(g) + "/" + x
    ensures LangPath("/" + Lower(g) + "/" + x, g, [g]) == "/" + Lower(g) + "/" + Lower(g) + "/" + x
  {
    var t := Lower(g);
    UpperAliasFacts(g);
    LowerOfLower(x);
    assert Kept([x], [g]) == [x];
    assert Kept([t, x], [g]) == [t, x];
    UpperAliasFirstPass(g, t, x);
    UpperAliasSecondPass(g, t, x);
  }

  /** What canonicalising an upper-case alias and its lower-case form gives. */
  lemma UpperAliasFacts(g: string)
    requires g !in LangAliases && Lower(g) in LangAliases
    ensures CanonicalLang(g) == Lower(g)
    ensures CanonicalAll([g]) == [Lower(g)]
    ensures CanonicalLang(Lower(g)) != Lower(g)
    ensures ValidSegment(Lower(g))
  {
    var t := Lower(g);
    assert t == "gb" || t == "uk";
    assert CanonicalAll([g])[0] == t;
  }

  lemma UpperAliasFirstPass(g: string, t: string, x: string)
    requires CanonicalLang(g) == t && Kept([x], [g]) == [x] && ValidSegment(x)
    ensures LangPath("/" + x, g, [g]) == "/" + t + "/" + x
  {
    assert "/" + x == "/" + Join([x], '/') + "" + "";
    LangPathOfParts([x], "", "", g, [g]);
    JoinPair(t, x, '/');
  }

  lemma UpperAliasSecondPass(g: string, t: string, x: string)
    requires CanonicalLang(g) == t && Kept([t, x], [g]) == [t, x] && ValidSegment(x) && ValidSegment(t)
    ensures LangPath("/" + t + "/" + x, g, [g]) == "/" + t + "/" + t + "/" + x
  {
    var j2 := Join([t, x], '/');
    var j3 := Join([t, t, x], '/');
    LangPathOfParts([t, x], "", "", g, [g]);
    assert [t] + [t, x] == [t, t, x];
    assert LangPath("/" + j2, g, [g]) == "/" + j3 by {
      assert "/" + j2 + "" + "" == "/" + j2;
      assert "/" + j3 + "" == "/" + j3;
    }
    JoinPair(t, x, '/');
    JoinTriple(t, t, x, '/');
    Assoc3("/", t + "/", x);
    Assoc3("/", t, "/");
    assert "/" + t + "/" + x == "/" + j2;
    Assoc3("/", t + "/" + t + "/", x);
    Assoc3("/", t + "/" + t, "/");
    Assoc3("/", t + "/", t);
    Assoc3("/", t, "/");
    assert "/" + t + "/" + t + "/" + x == "/" + j3;
  }

  /** An empty path or a bare slash becomes the target alone. */
  lemma LangPathOfRoot(targetLang: string, supportedLangs: seq<string>)
    ensures LangPath("", targetLang, supportedLangs) == "/" + CanonicalLang(targetLang)
    ensures LangPath("/", targetLang, supportedLangs) == "/" + CanonicalLang(targetLang)
  {
    assert SplitSuffix("/") == ("/", "");
    assert Split("/", '/') == ["", ""];
  }

  /** With no supported languages nothing counts as a language segment, so
      the target is always inserted in front of every existing segment. */
  lemma LangPathWithoutSupported(asPath: string, targetLang: string)
    requires ValidSegment(CanonicalLang(targetLang))
    requires asPath == [] || !IsMark(asPath[0])
    ensures PathSegments(LangPath(asPath, targetLang, []))
      == [CanonicalLang(targetLang)] + PathSegments(asPath)
  {
    LangPathShape(asPath, targetLang, []);
  }

  /** Only the piece up to the second mark is carried: a hash after a query
      is dropped, so the result is the same as without the hash. */
  lemma LangPathDropsHashAfterQuery(path: string, query: string, hash: string,
                                    targetLang: string, supportedLangs: seq<string>)
    requires |path| >= 1 && forall k :: 1 <= k < |path| ==> !IsMark(path[k])
    requires query != [] && query[0] == '?' && IsSuffixPiece(query)
    requires hash != [] && hash[0] == '#'
    ensures LangPath(path + query + hash, targetLang, supportedLangs)
      == LangPath(path + query, targetLang, supportedLangs)
    ensures Suffix(path + query + hash) == query
  {
    SplitSuffixOf(path, query, hash);
    SplitSuffixOf(path, query, "");
    assert path + query + "" == path + query;
  }
}
