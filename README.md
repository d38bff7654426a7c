# Language-aware navigation of the imc-frontend site, in Dafny

This project models the logic of the imc-frontend website (a Next.js front
end whose content comes from a Directus CMS) that decides where links go and
what the pages show. It is written in Dafny and proves properties of that
model.

- **The site menu** (`components/Menu.tsx`):
  - canonical language codes with the `gb`/`uk` aliases;
  - classification of external links;
  - rewriting the language segment of a path while carrying its query or
    hash piece;
  - the href of a navigation record;
  - building the navigation tree from a flat parent-referenced list;
  - the language dropdown's open/closed state, the language switch, and
    the sequential fetch of navigation and languages.
- **The application shell** (`pages/_app.js`): the page language, taken
  from the `lang` route parameter or else from the first path segment.
- **The contact endpoint** (`pages/api/contact.ts`): the early-return chain
  over method, configuration and body; the record sent to the CMS; and the
  mapping of the upstream outcome to a status and a body.
- **The content views** (`components/ContentBlocks.tsx`,
  `components/HomeSections.tsx`, `components/FeatureSection.tsx`):
  - the CMS asset URL and its base with one trailing slash removed;
  - the `/{lang}/services/{slug}` deep links;
  - each view's loading/error/data state and what it renders from it.

Modules, in dependency order:

- `Wrappers`: `Option`, string truthiness and the fetch outcome.
- `Text`: ASCII lower-casing, trimming, `split`/`join` on one character,
  and removal of one trailing slash.
- `MenuLang`, `MenuPath`, `MenuLinks`, `MenuTree` and `MenuState`: the menu.
- `App`: the application shell.
- `ContactApi`: the contact endpoint.
- `Assets` and `ServiceLinks`: the asset URL and the deep link, which the
  three views share.
- `ContentBlocks`, `HomeSections` and `FeatureSection`: the content views.

Pure code is modelled as functions and lemmas. Code that works step by step
is imperative:

- `replaceLangInPath` overwrites or inserts the first segment of a local
  segment sequence, which stands for the array the code mutates.
- `buildTree` makes two passes that fill a map.

The components' React state becomes classes. Their fields are the state
variables. Their methods are the setters a handler or an effect calls
between two renders.

Object identity in `buildTree` is modelled by ids: a node is the record
under its id. The `children` arrays the first pass attaches become one list
of ids per parent.

Where the code and its descriptions disagree, the model follows the code:

- `replaceLangInPath` is documented as preserving query and hash. It keeps
  only the piece from the first `?` or `#` up to the next one. A hash after
  a query is therefore dropped: `/de/about?x=1#y` becomes `/en/about?x=1`
  (`MenuPath.LangPathDropsHashAfterQuery`).
- The alias table is read with the code as given, before lower-casing:
  - `GB` canonicalises to `gb`, and `gb` to `en`;
  - so canonicalisation is idempotent only on lower-case codes.
  - Rewriting a path is idempotent only when the target, canonicalised
    twice (once by the caller, once by the rewrite), is supported
    (`MenuPath.LangPathIdempotent`).
  - Take an alias written in upper case as the target and the only
    supported code, for example `GB` with supported list `["GB"]`. Then
    `/x` becomes `/gb/x`, and rewriting again gives `/gb/gb/x`
    (`MenuPath.LangPathUpperAliasNotIdempotent`).
- The menu fetches navigation and languages one after the other. It stores
  the tree before the languages request starts, and it has no guard against
  a stale response (`MenuState.Menu.ReceiveNavigation`,
  `MenuState.Menu.ReceiveLanguages`, `MenuState.Menu.FetchData`).
- The menu stays mounted when the page language changes. Its tree, error and
  dropdown stay as they are until the new fetch answers, while hrefs and the
  language switch already use the new code (`MenuState.Menu.SetLang`).
- `_app.js` accepts `uk` but not `ua`, although the menu writes `/ua/...`
  paths for Ukrainian (`App.UaIsNotRecognised`).

## Model

| member | source | states |
|---|---|---|
| MenuLang.CanonicalLang | components/Menu.tsx:37-44 | the result is lower case; a code in the alias table gives its entry, any other code its lower case |
| MenuLang.AliasesResolve | components/Menu.tsx:37-44 | `gb` gives `en` and `uk` gives `ua` |
| MenuLang.UpperCaseAliasIsNotResolved | components/Menu.tsx:43 | the alias lookup is case-sensitive: `GB` gives `gb`, `UK` gives `uk` |
| MenuLang.CanonicalLangIdempotentOnLower | components/Menu.tsx:42-44 | on a lower-case code, canonicalising twice equals canonicalising once |
| MenuLang.CanonicalLangNotIdempotent | components/Menu.tsx:37-44 | without that premise idempotence fails (`GB` → `gb` → `en`) |
| MenuLang.ExternalUrlPrefixes | components/Menu.tsx:46-52 | a URL is external iff it starts with `//`, `http://` or `https://` (scheme in any case), `mailto:` or `tel:` (as written) |
| MenuPath.NextMark | components/Menu.tsx:66 | the index of the next `?` or `#` from a position, with no mark in between |
| MenuPath.SplitSuffix | components/Menu.tsx:66 | `split(/(?=[?#])/)` keeps the path up to the first mark after index 0, then the piece up to the next mark; both are a prefix of the input, and the path is the whole input when there is no piece |
| MenuPath.Segments | components/Menu.tsx:68 | the non-empty `/`-separated pieces, none containing `/` |
| MenuPath.CanonicalAll | components/Menu.tsx:69 | the supported list canonicalised element by element |
| MenuPath.ReplaceLangInPath | components/Menu.tsx:58-78 | overwriting or inserting the first segment of the segment sequence yields the path `LangPath` describes |
| MenuPath.SplitSuffixOf | components/Menu.tsx:66 | a mark-free path, a suffix piece and trailing text starting at a mark split into the path and the piece; the trailing text is dropped |
| MenuPath.LangPathShape | components/Menu.tsx:63-77 | the result starts with `/`; its segments are the canonical target followed by the input's segments (without the first one when that is a supported language); its suffix piece is the input's |
| MenuPath.LangPathIdempotent | components/Menu.tsx:63-77 | rewriting the result again with the same target returns it unchanged, when the target is a single segment, its canonical code canonicalised again is supported, and the input does not start with `?` or `#` |
| MenuPath.LangPathOfParts | components/Menu.tsx:66-77 | the result for a path given as segments, a suffix piece and dropped trailing text |
| MenuPath.LangPathUpperAliasNotIdempotent | components/Menu.tsx:63-77 | for an alias `g` written in upper case as target and only supported code, and a plain segment `x`: `/x` becomes `/{lower g}/x`, and rewriting that gives `/{lower g}/{lower g}/x` |
| MenuPath.LangPathOfRoot | components/Menu.tsx:68-77 | `""` and `"/"` become `/{target}` |
| MenuPath.LangPathWithoutSupported | components/Menu.tsx:69-75 | with no supported languages the target is always inserted before all segments |
| MenuPath.LangPathDropsHashAfterQuery | components/Menu.tsx:55-77 | a hash after a query does not change the result, and the kept suffix is the query alone, although the doc comment promises query and hash |
| MenuLinks.Absolute | components/Menu.tsx:99 | the URL itself if it starts with `/`, else with `/` prepended |
| MenuLinks.ResolveNavHref | components/Menu.tsx:88-110 | a set external URL is returned as given; every other href starts with `/` |
| MenuLinks.InternalHrefStartsWithLanguage | components/Menu.tsx:88-110 | every href that is not passed through has the active language as its first segment, in all three branches |
| MenuLinks.InternalUrlRewritten | components/Menu.tsx:95-103 | an internal URL keeps its segments after the language (a leading supported language replaced) and its suffix piece |
| MenuLinks.MailtoPassesThrough | components/Menu.tsx:95-96 | a `mailto:` URL is returned unchanged |
| MenuLinks.SlugLink | components/Menu.tsx:105-109 | without a URL override, a slug with text gives `/{canonical lang}/{trimmed slug}`; a missing or blank slug gives `/{canonical lang}` |
| MenuLinks.PaddedSlugLink | components/Menu.tsx:105-106 | a slug padded with white space on either side links exactly like the bare slug |
| Text.TrimPadded | components/Menu.tsx:105-106 | `trim()` removes white-space padding on both sides and nothing more |
| MenuLinks.UrlBeforeLanguagesLoad | components/Menu.tsx:95-102 | with the initial empty language list, `/de/x` becomes `/en/de/x` |
| MenuTree.NodeMap | components/Menu.tsx:184-186 | the first pass has a node for exactly the ids of the list |
| MenuTree.IndexNodes | components/Menu.tsx:181-186 | the first loop builds the node map and an empty children list per id |
| MenuTree.PlaceItems | components/Menu.tsx:188-194 | the second loop appends each item to its parent's children or to the roots, as `ChildIds`/`RootIds` describe |
| MenuTree.BuildTree | components/Menu.tsx:180-197 | the two passes build `TreeOf(items)` |
| MenuTree.RootIdsMembers | components/Menu.tsx:188-194 | an id is a root iff some item with it has no non-zero parent id naming an item |
| MenuTree.ChildIdsMembers | components/Menu.tsx:188-194 | an id is a child of `p` iff some item with it has the resolvable parent `p` |
| MenuTree.TreeOfWellFormed | components/Menu.tsx:180-197 | roots and children refer only to ids with a node |
| MenuTree.NodeMapDistinct | components/Menu.tsx:184-186 | with distinct ids each item's node is that item |
| MenuTree.RootIdsNoDuplicates | components/Menu.tsx:188-194 | with distinct ids no root appears twice |
| MenuTree.ChildIdsNoDuplicates | components/Menu.tsx:188-194 | with distinct ids no children list repeats an id |
| MenuTree.PlacedExactlyOnce | components/Menu.tsx:188-194 | with distinct ids every item is a root iff it has no resolvable parent, and otherwise lies in its parent's children and in no other list |
| MenuTree.RootsKeepInputOrder | components/Menu.tsx:188-194 | of two root items the earlier one comes first among the roots |
| MenuTree.ChildrenKeepInputOrder | components/Menu.tsx:188-194 | of two children of a parent the earlier one comes first in its list |
| MenuTree.DanglingParentBecomesRoot | components/Menu.tsx:189 | a parent id naming no item makes the item a root |
| MenuTree.ParentCycleIsUnreachable | components/Menu.tsx:180-197 | two items naming each other are children of each other and neither is a root |
| MenuState.SupportedLangs | components/Menu.tsx:200 | the canonical code of each language, in order |
| MenuState.LanguageSwitch | components/Menu.tsx:260-278 | no navigation iff the canonical target equals the current language |
| MenuState.SwitchKeepsPage | components/Menu.tsx:269-274 | a switch pushes a path whose first segment is the target, followed by the current page's segments without a leading supported language, and its suffix piece |
| MenuState.SameLanguageIsNoOp | components/Menu.tsx:264-267 | choosing the current language navigates nowhere |
| MenuState.LinkOf | components/Menu.tsx:202-204 | an external link's href is its URL; every other href starts with `/` |
| MenuState.EntryOf | components/Menu.tsx:202-257 | an entry's link is `LinkOf` of its node, and its child links are those of the node's children list, or none |
| MenuState.ChildLinks | components/Menu.tsx:228-253 | one link per child id, in order: link `j` is `LinkOf` of child `j`'s node |
| MenuState.LinkStartsWithLanguage | components/Menu.tsx:202-204 | a rendered link that is not external has the active language as its first path segment |
| MenuState.EntryLinksStartWithLanguage | components/Menu.tsx:202-257 | every internal link of an entry, its own and its children's, has the active language as its first path segment |
| MenuState.Menu.constructor | components/Menu.tsx:115-121 | canonical language from the prop, empty tree and languages, no error, dropdown closed |
| MenuState.Menu.ToggleLangMenu | components/Menu.tsx:310 | the button flips the dropdown |
| MenuState.Menu.OnRouteChangeStart | components/Menu.tsx:125 | a route change closes the dropdown |
| MenuState.Menu.OnMouseDown | components/Menu.tsx:128-131 | a mouse-down closes the dropdown iff the switcher's container is mounted and the target is outside it |
| MenuState.Menu.OnKeyDown | components/Menu.tsx:133-135 | Escape closes the dropdown; other keys leave it |
| MenuState.Menu.OnNavMouseEnter | components/Menu.tsx:297 | entering the navigation list closes the dropdown |
| MenuState.Menu.HandleLanguageChange | components/Menu.tsx:260-278 | returns the path `LanguageSwitch` decides (none for the current language) and closes the dropdown |
| MenuState.Menu.SetLang | components/Menu.tsx:115-178 | a new `lang` prop updates the canonical language and nothing else; the fetch runs again iff the canonical code changed |
| MenuState.Menu.ReceiveNavigation | components/Menu.tsx:149-174 | a navigation response stores its tree at once and the run goes on; a failure stores the error, keeps the tree and ends the run |
| MenuState.Menu.ReceiveLanguages | components/Menu.tsx:162-174 | a languages response stores the list and clears the error; a failure stores the error and keeps the old list |
| MenuState.Menu.FetchData | components/Menu.tsx:147-178 | one run without interleaving: a failed navigation request stores only the error; otherwise the tree is stored before the languages request, and that request's failure stores the error and keeps the old languages |
| MenuState.Menu.Entries | components/Menu.tsx:295-303 | no entries while an error is shown, else entry `i` is `EntryOf` root `i` under the current language and supported list |
| App.FirstSegment | pages/_app.js:22-23 | element 1 of the pre-`?` path split on `/`, when there is one; it contains no `/` |
| App.InferLang | pages/_app.js:7-28 | the result is `en`, `de` or `uk`; a supported string parameter wins, then the first element of a supported array parameter; without either, a supported first segment is the result; anything but `en` comes from one of these sources |
| App.FirstSegmentOf | pages/_app.js:22-23 | the first segment of `/{seg}` followed by `/`, `?` or nothing is `seg`, when `seg` has no `/` or `?` |
| App.PathSelectsLanguage | pages/_app.js:20-27 | without a usable parameter (absent, or naming an unsupported code), `/{code}` followed by `/`, `?` or nothing selects a supported `code` |
| App.HashIsNotStripped | pages/_app.js:22-25 | without a usable parameter, `/{code}#...` gives `en` for every supported code, since only the query is cut off |
| App.UaIsNotRecognised | pages/_app.js:7-27 | without a usable parameter, a path `/ua` or `/ua/...` gives `en` |
| App.MenuLanguageIsCanonical | pages/_app.js:7-28 | the menu canonicalises the shell's language to `en`, `de` or `ua` |
| ContactApi.Field | pages/api/contact.ts:27 | a property of the body, which is read as `{}` when missing: the object's value when present, else undefined |
| ContactApi.DirectusUrl | pages/api/contact.ts:8-9 | the server-side URL when set, else the public one |
| ContactApi.UpstreamUrl | pages/api/contact.ts:47 | the base URL with one trailing slash removed, then `/items/contact_requests` |
| ContactApi.PayloadOf | pages/api/contact.ts:37-44 | `language_code` is `lang` when truthy, else `en`; `company` is `company` when truthy, else null; consent is true; name, email and message pass through |
| ContactApi.Validate | pages/api/contact.ts:16-34 | a non-POST gets 405; a forwarded request carries the payload, the upstream URL and the bearer token |
| ContactApi.Finish | pages/api/contact.ts:58-72 | an ok answer gives 200 success; an error answer gives 500 `Failed to save contact request`; a throw gives 500 `Unexpected server error` |
| ContactApi.UpstreamFailuresReported | pages/api/contact.ts:36-72 | for a forwarded request the handler answers 200 success, 500 `Failed to save contact request` or 500 `Unexpected server error` by the upstream outcome, never the misconfiguration response |
| ContactApi.Handle | pages/api/contact.ts:12-73 | the status is 200, 400, 405 or 500; success iff 200; every failure carries a non-empty message |
| ContactApi.MethodCheckedFirst | pages/api/contact.ts:16-18 | a non-POST gets 405 whatever the configuration, body and upstream |
| ContactApi.ConfigCheckedBeforeBody | pages/api/contact.ts:20-25 | a POST without URL or token gets 500 `Server misconfiguration` whatever the body |
| ContactApi.ForwardedIffValid | pages/api/contact.ts:16-34 | the upstream call is made iff POST, configured, and name, email and message set with consent exactly true |
| ContactApi.BadRequestIff | pages/api/contact.ts:27-34 | 400 iff a configured POST has an incomplete body |
| ContactApi.MissingBodyRejected | pages/api/contact.ts:27-34 | a missing body counts as `{}` and gets 400 |
| ContactApi.ConsentMustBeTrue | pages/api/contact.ts:30 | consent `"true"` as a string gets 400 |
| ContactApi.SavedIff | pages/api/contact.ts:36-66 | 200 success iff validation forwards and the upstream answers ok |
| ContactApi.PreferredUrl | pages/api/contact.ts:8-9 | the server-side URL wins, one trailing slash removed |
| ContactApi.PublicUrlFallback | pages/api/contact.ts:8-9 | without it the public URL is used; of two trailing slashes one stays |
| Assets.BaseUrl | components/ContentBlocks.tsx:21-24 | the configured URL with exactly one trailing slash removed; the same constant is defined in components/HomeSections.tsx:6-9 and components/FeatureSection.tsx:17-20 |
| Assets.AssetUrl | components/ContentBlocks.tsx:26-36 | none iff the id is missing or empty; otherwise the base, `/assets/` and the id (`/assets/{id}` for an empty base); the same function is in components/HomeSections.tsx:24-31 and components/FeatureSection.tsx:22-29 |
| Assets.AssetIdRecoverable | components/ContentBlocks.tsx:31-35 | the URL starts with the base and `/assets/` and ends with the id |
| Assets.StringAndObjectAgree | components/ContentBlocks.tsx:28 | a bare id and a file object with that id give the same URL |
| Assets.TrailingSlashIgnored | components/ContentBlocks.tsx:21-35 | one trailing slash in the configured URL makes no difference |
| Assets.UnconfiguredIsSiteRelative | components/ContentBlocks.tsx:31-33 | without a configured URL (or just `/`) the asset is `/assets/{id}` |
| ServiceLinks.DetailHref | components/ContentBlocks.tsx:136 | the link starts with `/` and ends with the slug; components/HomeSections.tsx:83-85 builds the same link |
| ServiceLinks.DetailHrefSegments | components/ContentBlocks.tsx:136 | splitting the link on `/` gives back the language, `services` and the slug |
| ContentBlocks.CardOf | components/ContentBlocks.tsx:88-149 | a card is linked iff the slug is set; it shows an image iff the type is `image` and there is an id, and a quote iff the type is not `image` and there is a subtitle; never both |
| ContentBlocks.LinkedCardTarget | components/ContentBlocks.tsx:132-142 | a linked card leads to `/{lang}/services/{slug}` |
| ContentBlocks.ContentBlocksView.constructor | components/ContentBlocks.tsx:39-41 | no blocks, loading, no error |
| ContentBlocks.ContentBlocksView.StartFetch | components/ContentBlocks.tsx:46-47 | loading on, error cleared, blocks kept |
| ContentBlocks.ContentBlocksView.FinishFetch | components/ContentBlocks.tsx:49-64 | a response stores its data (missing data as empty); a failure stores the message and keeps the blocks; loading ends either way |
| ContentBlocks.ContentBlocksView.FetchBlocks | components/ContentBlocks.tsx:44-65 | after a whole run the view shows nothing iff the request failed or returned no blocks, and otherwise the fetched blocks |
| ContentBlocks.ContentBlocksView.SetProps | components/ContentBlocks.tsx:43-68 | a fetch restarts iff `lang` or `slug` changed |
| ContentBlocks.ContentBlocksView.Render | components/ContentBlocks.tsx:70-153 | the placeholder iff loading; nothing iff not loading and an error or no blocks; else one card per block, in order |
| HomeSections.CardOf | components/HomeSections.tsx:80-120 | linked iff the slug is set; the href is the service link then and `#` otherwise; the image is the asset URL |
| HomeSections.LinkedIffRealHref | components/HomeSections.tsx:83-120 | a card is wrapped in a link iff its href is not `#` |
| HomeSections.HomeSectionsView.constructor | components/HomeSections.tsx:34-36 | no sections, loading, no error |
| HomeSections.HomeSectionsView.StartFetch | components/HomeSections.tsx:41-42 | loading on, error cleared |
| HomeSections.HomeSectionsView.FinishFetch | components/HomeSections.tsx:46-57 | a response stores its data; a failure stores the message; loading ends |
| HomeSections.HomeSectionsView.SetLang | components/HomeSections.tsx:38-61 | a language change fetches nothing: sections, loading and error stay |
| HomeSections.HomeSectionsView.Render | components/HomeSections.tsx:63-124 | the placeholder iff loading; nothing on error or no sections; else one card per section |
| FeatureSection.FirstRecord | components/FeatureSection.tsx:48 | none iff the response has no records, else its first record |
| FeatureSection.BannerOf | components/FeatureSection.tsx:63-88 | the image shows iff there is an asset id, and is its URL |
| FeatureSection.FeatureSectionView.constructor | components/FeatureSection.tsx:32-33 | no feature, no error |
| FeatureSection.FeatureSectionView.StartFetch | components/FeatureSection.tsx:38 | only the error is cleared; the previous feature stays on screen |
| FeatureSection.FeatureSectionView.FinishFetch | components/FeatureSection.tsx:40-53 | a response stores its first record; a failure stores the message and keeps the feature |
| FeatureSection.FeatureSectionView.SetProps | components/FeatureSection.tsx:35-57 | a fetch restarts iff `lang` or `slug` changed |
| FeatureSection.FeatureSectionView.Render | components/FeatureSection.tsx:59-90 | nothing iff an error or no feature, else the feature's banner |

## Left out

- `lib/directus.ts` and every `fetch` are not part of this model. The
  outcome of a request is a parameter: its `data`, or a throw.
- Request strings are not modelled: URL parameters, filters,
  `encodeURIComponent`, `JSON.stringify` and the `Content-Type` header.
  `HomeSections.SectionsRequest` records the one constant request.
- The interleaving of concurrent effects is not modelled as a scheduler.
  Each fetch is split into the steps between its awaits: a start step and a
  finish step in the three content views, and the navigation and languages
  steps of the menu (`MenuState.Menu.FetchData` is one run of them without
  interleaving). Nothing guards against a stale response because the code
  has no such guard. Two overlapping runs are any order of these steps.
- Listener registration and cleanup (`components/Menu.tsx:124-145`) and
  `router.push` are not modelled. The handlers are methods; the pushed path
  is a result.
- JSX, CSS classes, `FLAG_MAP` and the `currentLang` fallback
  (`components/Menu.tsx:280-368`) are display only. From rendering, only
  the decisions are kept: the links, the cards and what is shown.
- Regular expressions and object-prototype lookups are modelled as explicit
  prefix tests and a two-entry map.
- `toLowerCase` and `trim` are ASCII only. Unicode case mapping and
  Unicode white space are not modelled.
- The JavaScript values `NaN` and `-0` are not modelled. A `parent_id` is
  an optional integer.
- `console.error` and the response side effects of the contact endpoint are
  not modelled. The endpoint returns a status and a body.
- The environment is read once, when the modules load. An unset variable
  reads as the empty string, which JavaScript's `||` treats like
  `undefined`.
- `MenuTree.BuildTree`: nodes are records keyed by id, not shared objects.
  Duplicate ids therefore behave as the code's map does: the last record
  wins and every duplicate is pushed. Aliasing of child arrays is not
  modelled beyond that.
- `MenuState.Menu.Entries`: only roots and their direct children are
  rendered, as in the code. Deeper descendants exist only in the tree.
