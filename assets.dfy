/**
 * Image URLs of content records. `getAssetUrl` and the base-URL constant are
 * written out identically in components/ContentBlocks.tsx,
 * components/HomeSections.tsx and components/FeatureSection.tsx; this
 * module is the one definition the three views share.
 */
module Assets {
  import opened Wrappers
  import opened Text

  /** An image reference as a record holds it: absent (`null`, `undefined`
      or `""`), a bare file id, or a file object whose `id` is read (a
      missing `id` is the empty id). */
  datatype AssetRef = NoFile | FileId(id: string) | FileObj(objectId: string)

  const AssetsPath := "/assets/"

  /** `DIRECTUS_URL`: the public CMS URL with one trailing slash removed. */
  function BaseUrl(publicUrl: string): (base: string)
    ensures publicUrl == base + "/" || publicUrl == base
    ensures publicUrl != [] && publicUrl[|publicUrl| - 1] == '/' ==> publicUrl == base + "/"
  {
    StripTrailingSlash(publicUrl)
  }

  /** The id a reference contributes; empty when there is none. */
  function IdOf(file: AssetRef): string
  {
    match file
    case NoFile => ""
    case FileId(id) => id
    case FileObj(id) => id
  }

  /** `getAssetUrl`. */
  function AssetUrl(file: AssetRef, base: string): (r: Option<string>)
    ensures r.None? <==> IdOf(file) == ""
    ensures r.Some? ==> r.value == base + AssetsPath + IdOf(file)
  {
    var id := IdOf(file);
    if id == "" then None
    else if base == "" then Some(AssetsPath + id)
    else Some(base + AssetsPath + id)
  }

  /** The URL ends in the id, after the assets directory under the base, so
      the id can be read back from it. */
  lemma AssetIdRecoverable(file: AssetRef, base: string)
    requires AssetUrl(file, base).Some?
    ensures var u := AssetUrl(file, base).value;
      |u| > |AssetsPath| + |base|
      && u[|u| - |IdOf(file)|..] == IdOf(file)
      && u[..|base|] == base
      && u[|base|..|base| + |AssetsPath|] == AssetsPath
  {
    var u := AssetUrl(file, base).value;
    assert u == base + AssetsPath + IdOf(file);
    assert u[|u| - |IdOf(file)|..] == IdOf(file);
  }

  /** A bare id and a file object with that id give the same URL. */
  lemma StringAndObjectAgree(id: string, base: string)
    ensures AssetUrl(FileId(id), base) == AssetUrl(FileObj(id), base)
  {
  }

  /** One trailing slash in the configured URL makes no difference. */
  lemma TrailingSlashIgnored(file: AssetRef, publicUrl: string)
    requires publicUrl == [] || publicUrl[|publicUrl| - 1] != '/'
    ensures AssetUrl(file, BaseUrl(publicUrl + "/")) == AssetUrl(file, BaseUrl(publicUrl))
  {
    assert (publicUrl + "/")[..|publicUrl|] == publicUrl;
  }

  /** Without a configured URL the asset is served from the site's own
      `/assets/` path. */
  lemma UnconfiguredIsSiteRelative(file: AssetRef)
    requires IdOf(file) != ""
    ensures AssetUrl(file, BaseUrl("")) == Some("/assets/" + IdOf(file))
    ensures AssetUrl(file, BaseUrl("/")) == Some("/assets/" + IdOf(file))
  {
    assert "/"[..0] == "";
  }
}
