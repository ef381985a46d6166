# Portfolio site core, modelled in Dafny

This project models the logic at the heart of a photographer/developer portfolio site built
on Next.js with a Sanity content store and Google Drive as the photo host:

- **Drive photo resolver** (`Drive`, `drive.dfy`). It lists one Drive folder by following the
  listing API's page cursor. The first request carries the folder filter and every later one
  only the cursor. It then turns each listed file into a `DriveImage`:
  - files without a thumbnail are dropped;
  - the first `=s<digits>` size parameter becomes `=s3000`;
  - 800×600 replaces a missing, zero or non-numeric width or height;
  - the alt text is the name without its last extension.

  A fetch that throws or a body that is not JSON yields the empty list. An error page whose
  body is JSON carries neither files nor a cursor, so it ends the listing and the pages
  already gathered are kept. The resolver is an imperative loop proved against a
  specification of the whole conversation with the API.
- **Album aggregator** (`Albums`, `albums.dfy`). Each album record becomes an album with
  `id = _id` and the photos of its Drive folder. The resolver is consulted only for records
  that name a folder.
- **Fisher–Yates shuffle** (`Shuffle`, `shuffle.dfy`). The array is copied, then the copy is
  shuffled in place by descending swaps. The result is proved to be a permutation, and the
  input is left untouched.
- **Folder-id input of the content editor** (`DriveUrlInput`, `drive_url_input.dfy`). It
  applies the leftmost-match semantics of `/(?:folders\/|id=)([\w-]+)/`. The change handler
  sets or unsets the field. A confirmation badge appears for any stored value longer than
  20 characters that contains no `/`, whether or not it is an id.
- **Language provider** (`LanguageContext`, `language_context.dfy`). This is a class with the
  language, the mounted flag and local storage. It starts in English and hidden. On mount it
  adopts a stored `vi` or `ja`, and it persists every change. The hook fails outside a
  provider.
- **Navigation bar** (`Navbar`, `navbar.dfy`). It holds the link list and the highlight rule,
  the home-page test, the mobile menu, the theme flip and the three-way language cycle.
- **Project card and modal** (`ProjectText`, `ProjectCard`, `ProjectModal`). These cover:
  - the localized description with its English fallback;
  - the date locale;
  - JavaScript's `trim` behind the card's link buttons;
  - the modal's untrimmed link checks.

`Types` (`types.dfy`) holds the shared records (`Project`, `LocalizedText`) and the
three-language datatype.

External services are parameters:
- The Drive listing API is a function `api: Request -> Response`. A `Failure` response
  stands for a fetch that throws or a body that is not JSON.
- The resolver used by the album aggregator is a function `string -> seq<DriveImage>`.
- `Math.random` is an oracle sequence `choices`, where `choices[i]` is the index drawn at step `i`.
- Local storage is a `map<string, string>` field.
- Whether the code runs in a browser is a constant `inBrowser`.
- Whether the browser offers view transitions is a parameter.

## Model

| member | source | states |
|---|---|---|
| Types.Language.Code | src/context/language-context.tsx:7 | every language code is two characters long |
| Types.CodeInjective | src/context/language-context.tsx:7 | different languages have different codes, so a stored code names one language |
| Types.TextFor | src/components/projects/project-card.tsx:34 | defines `description?.[language]`: the entry for the language, with an absent object or entry read as the empty string |
| Drive.FolderQuery | src/lib/drive.ts:45 | the first request's filter embeds the folder id right after the opening quote |
| Drive.GetImagesFromDrive | src/lib/drive.ts:27-92 | the requests sent form the one listing conversation the API's answers determine (first request with the filter, each next one with the previous cursor, stop at an empty cursor or a failure); a failure gives `[]`, otherwise the result is the normalized concatenation of all pages' files |
| Drive.Advance | src/lib/drive.ts:33-61 | one pass of the loop: the request for the current cursor extends the conversation by one linked request, adds its page's files at the end, and either completes the conversation or hands over the next non-empty cursor |
| Drive.LinkedStep | src/lib/drive.ts:41-46 | the first request carries the filter, and a later one that follows the last cursor keeps the conversation linked |
| Drive.GatheredStep | src/lib/drive.ts:55-57 | one more page appends its files after those already collected |
| Drive.BuildRequest | src/lib/drive.ts:34-46 | every request has the fixed fields, page size and order; it has the folder filter exactly when the cursor is empty, and otherwise exactly that cursor |
| Drive.PageFiles | src/lib/drive.ts:55-57 | defines `data.files` as gathered: a page's files, nothing for a page without files or a failure |
| Drive.NextToken | src/lib/drive.ts:59 | defines the next cursor, `data.nextPageToken` or else the empty string: empty when the page has none or the request failed |
| Drive.OnlyFirstRequestFilters | src/lib/drive.ts:34-46 | in any conversation only the first request has `q` (the folder filter) and no cursor; every later one has a non-empty cursor and no `q`; all carry the same fields, page size and order |
| Drive.LinkedAgree | src/lib/drive.ts:41-59 | two conversations with the same API agree request by request |
| Drive.ShorterLinkedContinues | src/lib/drive.ts:59-61 | a conversation that another one extends has not reached a stopping response |
| Drive.ListingTraceUnique | src/lib/drive.ts:33-61 | there is exactly one complete conversation, so the loop's request sequence is a function of the API |
| Drive.ErrorPageKeepsEarlierPages | src/lib/drive.ts:52-64 | after a first page of files with a cursor, an error page (JSON without files or cursor) ends the listing, and the result is the images of the first page, not the empty list |
| Drive.GatheredAppend | src/lib/drive.ts:55-57 | the collected files are the pages' files concatenated in page order (a page without files adds nothing) |
| Drive.ToNumber | src/lib/drive.ts:70-71 | `Number()` on a metadata value: NaN when absent, the number itself for a JSON number, and for a string a number exactly when it is all digits (the empty string included), never negative, and 0 exactly when every digit is `0` |
| Drive.DecimalValue | src/lib/drive.ts:70-71 | a digit string is numerically zero exactly when all its digits are `0` |
| Drive.Dimensions | src/lib/drive.ts:70-77 | both dimensions are kept when both are numbers other than 0, otherwise both become 800×600; neither result is ever 0 |
| Drive.DigitRun | src/lib/drive.ts:68 | `\d+` captures the maximal run of digits |
| Drive.FindSizeParam | src/lib/drive.ts:68 | the position found is the leftmost `=s` followed by a digit |
| Drive.RewriteSize | src/lib/drive.ts:68 | a link without a size parameter is unchanged |
| Drive.HighResParamFirst | src/lib/drive.ts:68 | after a prefix without a size parameter, the inserted `=s3000` is the leftmost one |
| Drive.DigitRunIs | src/lib/drive.ts:68 | a digit run is determined by its digits and the non-digit after it |
| Drive.PrefixHasNoParam | src/lib/drive.ts:68 | the text before the leftmost size parameter holds none |
| Drive.HighResRun | src/lib/drive.ts:68 | an inserted `=s3000` followed by the end or a non-digit has a digit run of exactly four |
| Drive.RewriteAt | src/lib/drive.ts:68 | when the leftmost size parameter sits at a position with a given digit run, the rewrite splices `=s3000` over exactly that span |
| Drive.RewriteSizeSetsHighRes | src/lib/drive.ts:68 | the rewrite replaces exactly the leftmost `=s` and its digit run by `=s3000`, keeping the text before and after |
| Drive.RewriteSizeIdempotent | src/lib/drive.ts:68 | rewriting a rewritten link changes nothing |
| Drive.FindExtension | src/lib/drive.ts:84 | finds the start of `\.[^/.]+$` when there is one, and reports none otherwise |
| Drive.StripExtension | src/lib/drive.ts:84 | with an extension, the result is the name before it; without one, the name itself |
| Drive.AltText | src/lib/drive.ts:84 | `Untitled` for an absent or empty name; otherwise a prefix of the name (the name without its extension) |
| Drive.ExtensionUnique | src/lib/drive.ts:84 | a name has at most one final extension |
| Drive.ExtensionUniqueAt | src/lib/drive.ts:84 | stripping removes exactly the suffix from the extension's dot |
| Drive.AltTextExamples | src/lib/drive.ts:84 | `photo.jpg`→`photo`, `archive.tar.gz`→`archive.tar`, `file.` and `v1.0/raw` unchanged, `.hidden`→empty, empty or absent name→`Untitled` |
| Drive.HasThumbnail | src/lib/drive.ts:65 | defines the filter's truthiness test: a present, non-empty `thumbnailLink` |
| Drive.ToImage | src/lib/drive.ts:66-85 | an image keeps the file's id, takes the rewritten link as `src`, the alt text, and non-zero dimensions from the fallback rule |
| Drive.Normalize | src/lib/drive.ts:64-86 | the filter never yields more images than there are files |
| Drive.NormalizeFromThumbnailed | src/lib/drive.ts:64-66 | every image is made from a listed file that has a thumbnail |
| Drive.NormalizeAppend | src/lib/drive.ts:64-65 | filtering and mapping work file by file, so input order is kept |
| Drive.NormalizeKeepsAll | src/lib/drive.ts:64-80 | when every file has a thumbnail, the i-th image is made from the i-th file |
| Drive.NormalizeDropsAll | src/lib/drive.ts:65 | files without a thumbnail produce no image |
| Albums.WithPhotos | src/lib/api.ts:50-61 | the album copies every record field, sets `id` to `_id`, and holds the resolver's result for a non-empty folder id, else no photos |
| Albums.GetAlbums | src/lib/api.ts:49-65 | one album per record, in record order |
| Albums.HasFolder | src/lib/api.ts:53 | defines `album.googleDriveId` as truthy: present and non-empty |
| Albums.FolderLookups | src/lib/api.ts:53-54 | the resolver is called with exactly the non-empty folder ids: every looked-up id is some record's non-empty folder id, and every record's non-empty folder id is looked up |
| Albums.OnlyLookupsMatter | src/lib/api.ts:51-55 | resolvers that agree on the looked-up ids give the same albums, so records without a folder never consult the resolver |
| Albums.GetAlbumsAppend | src/lib/api.ts:49-63 | the aggregation works record by record: more records append their albums |
| Shuffle.Swap | src/lib/utils.ts:21 | exchanges the two positions and leaves every other position alone |
| Shuffle.SwapPermutes | src/lib/utils.ts:21 | one exchange keeps the multiset of elements |
| Shuffle.ShuffleSteps | src/lib/utils.ts:19-22 | the steps keep the length |
| Shuffle.ShuffleStepsPermutes | src/lib/utils.ts:19-22 | any run of steps with draws in `[0, i]` is a permutation |
| Shuffle.ShuffleStepsKeepsAbove | src/lib/utils.ts:19-22 | the steps down from `i` never touch a position above `i` |
| Shuffle.Shuffled | src/lib/utils.ts:17-24 | defines the whole shuffle as the descending steps from the last index down to 1 under the draws |
| Shuffle.ShuffledPermutes | src/lib/utils.ts:17-24 | the shuffle of any input is a permutation of it |
| Shuffle.ShuffleArray | src/lib/utils.ts:17-24 | returns a fresh array holding the shuffle of the input's contents (a permutation of them); inputs of length 0 or 1 come back unchanged |
| DriveUrlInput.MarkerLength | sanity/components/DriveUrlInput.tsx:16 | recognises `folders/` or `id=` at a position, ending in `/` or `=` |
| DriveUrlInput.IdRun | sanity/components/DriveUrlInput.tsx:16 | `[\w-]+` captures the maximal run of id characters |
| DriveUrlInput.IdRunIs | sanity/components/DriveUrlInput.tsx:16 | an id run is determined by its characters and the character after it |
| DriveUrlInput.FindMatch | sanity/components/DriveUrlInput.tsx:16-17 | the match found is the leftmost position where a marker is followed by an id character |
| DriveUrlInput.FindMatchIs | sanity/components/DriveUrlInput.tsx:17 | a match with none before it is the one `match` returns |
| DriveUrlInput.Captured | sanity/components/DriveUrlInput.tsx:16-19 | the captured group is non-empty and made of id characters only |
| DriveUrlInput.ExtractDriveId | sanity/components/DriveUrlInput.tsx:9-20 | the capture of the leftmost match, or the input unchanged when nothing matches |
| DriveUrlInput.HandleChange | sanity/components/DriveUrlInput.tsx:22-31 | `unset` exactly for empty input, otherwise `set` of the non-empty extracted id |
| DriveUrlInput.ShowsBadge | sanity/components/DriveUrlInput.tsx:50 | defines the badge condition: a non-empty value longer than 20 characters with no `/` |
| DriveUrlInput.IdCharsNeverMatch | sanity/components/DriveUrlInput.tsx:16 | text made only of id characters holds no match |
| DriveUrlInput.NoMarkerAmongIdChars | sanity/components/DriveUrlInput.tsx:16 | no marker starts at a position whose marker would end on an id character (`/` and `=` are not id characters) |
| DriveUrlInput.ExtractIdempotent | sanity/components/DriveUrlInput.tsx:16-19 | extracting from an extracted id gives it back |
| DriveUrlInput.BadgeAfterExtract | sanity/components/DriveUrlInput.tsx:50 | an id longer than 20 characters from a link shows the badge; a slash-bearing input the pattern missed does not |
| DriveUrlInput.NoMarkerBefore | sanity/components/DriveUrlInput.tsx:16-17 | no marker starts inside a marker-free prefix, even one running into the next marker |
| DriveUrlInput.MarkerLengthAt | sanity/components/DriveUrlInput.tsx:16 | a marker written at a position is the one recognised there |
| DriveUrlInput.FirstMatchAfter | sanity/components/DriveUrlInput.tsx:16-17 | after a marker-free prefix, the leftmost match is at the marker that follows it |
| DriveUrlInput.ExtractAfterMarker | sanity/components/DriveUrlInput.tsx:16-19 | prefix + marker + id + (end or non-id character) yields exactly that id |
| DriveUrlInput.CaptureIs | sanity/components/DriveUrlInput.tsx:16-19 | an id followed by the end or a non-id character is captured whole |
| DriveUrlInput.NoMarkerWithoutLetters | sanity/components/DriveUrlInput.tsx:16 | text without `f` and `=` holds no marker |
| DriveUrlInput.ExtractFolderLink | sanity/components/DriveUrlInput.tsx:11-19 | `https://drive.google.com/drive/folders/1A2B3C` gives `1A2B3C` |
| DriveUrlInput.ExtractSharingLink | sanity/components/DriveUrlInput.tsx:12-19 | `…/drive/u/0/folders/1A2B3C?usp=sharing` gives `1A2B3C` |
| DriveUrlInput.ExtractOpenLink | sanity/components/DriveUrlInput.tsx:13-19 | `…/open?id=1A2B3C` gives `1A2B3C` |
| DriveUrlInput.ExtractBareId | sanity/components/DriveUrlInput.tsx:19 | a bare id is kept as typed |
| LanguageContext.GetItem | src/context/language-context.tsx:31 | reads the storage entry for a key, absent when there is none |
| LanguageContext.Adopted | src/context/language-context.tsx:31-34 | a stored `vi` or `ja` is adopted; any other value or none keeps the current language |
| LanguageContext.LanguageProvider.constructor | src/context/language-context.tsx:23-24 | the provider starts in English and not mounted |
| LanguageContext.LanguageProvider.ContentVisible | src/context/language-context.tsx:54 | defines the children's visibility as the mounted flag |
| LanguageContext.LanguageProvider.Mount | src/context/language-context.tsx:27-38 | mounting sets the mounted flag and applies the adoption rule to the stored `app-lang`, leaving storage alone |
| LanguageContext.LanguageProvider.SetLanguage | src/context/language-context.tsx:40-45 | the language becomes the argument, and in a browser `app-lang` is set to its code |
| LanguageContext.UseLanguage | src/context/language-context.tsx:64-68 | the provider is returned inside one; outside, the error with its message |
| LanguageContext.PersistedChoiceReloads | src/context/language-context.tsx:31-45 | after `setLanguage(l)`, a fresh provider that mounts over that storage is in `l`, for each of the three languages |
| LanguageContext.AdoptedIsCurrentOrStored | src/context/language-context.tsx:32-34 | mounting keeps the language or switches to the stored non-English one |
| LanguageContext.AdoptedIdempotent | src/context/language-context.tsx:32-34 | mounting again over the same storage changes nothing |
| LanguageContext.Reload | src/context/language-context.tsx:23-54 | a fresh mounted provider is in English unless storage holds `vi` or `ja`, and its content is visible |
| Navbar.CycleIndex | src/components/navbar.tsx:80-84 | the cycle has three positions |
| Navbar.NextLanguage | src/components/navbar.tsx:80-84 | the cycle moves one step along en, vi, ja (wrapping around) and always changes the language |
| Navbar.CycleReturnsAfterThree | src/components/navbar.tsx:80-84 | three presses return to the start, and two never do |
| Navbar.CycleReachesAll | src/components/navbar.tsx:80-84 | every language is reachable from every language |
| Navbar.FlipTheme | src/components/navbar.tsx:44 | `light` exactly after `dark`, `dark` after any other or no theme |
| Navbar.FlipTwiceRestores | src/components/navbar.tsx:44 | two toggles restore `dark` or `light`, and toggling settles into the two values |
| Navbar.IsHomePage | src/components/navbar.tsx:21 | defines the home-page test `pathname === "/"` |
| Navbar.IsActive | src/components/navbar.tsx:114 | defines an entry's highlight test `pathname === item.href` |
| Navbar.Highlights | src/components/navbar.tsx:113-117 | an entry is highlighted exactly when the path equals its target |
| Navbar.AtMostOneActive | src/components/navbar.tsx:23-29 | the five targets differ, so at most one entry is highlighted |
| Navbar.HomeHighlightsFirst | src/components/navbar.tsx:21-29 | the home entry is highlighted exactly on the home page, and then no other entry is |
| Navbar.UnknownPathHighlightsNothing | src/components/navbar.tsx:184-187 | a path that is none of the targets highlights nothing |
| Navbar.NavbarState.constructor | src/components/navbar.tsx:13 | the mobile menu starts closed |
| Navbar.NavbarState.ToggleMenu | src/components/navbar.tsx:156 | the menu button negates `isOpen` |
| Navbar.NavbarState.FollowMobileLink | src/components/navbar.tsx:183 | choosing a mobile link closes the menu |
| Navbar.NavbarState.ToggleTheme | src/components/navbar.tsx:41-60 | with or without view transitions the theme becomes its flip |
| Navbar.NavbarState.CycleLanguage | src/components/navbar.tsx:80-84 | the provider moves to the next language and persists it like `setLanguage` |
| ProjectText.Description | src/components/projects/project-card.tsx:34 | the current language's text when non-empty, else the English text; empty only when both are |
| ProjectText.DescriptionFromOwnOrEnglish | src/components/projects/project-modal.tsx:25 | the description is the own or the English text, and English readers get the English text |
| ProjectText.DateLocale | src/components/projects/project-card.tsx:43 | `vi-VN`, `ja-JP` or `en-US`, whose language part is the language's code |
| ProjectText.DateLocaleInjective | src/components/projects/project-modal.tsx:30 | different languages get different locales |
| ProjectText.FormattedDate | src/components/projects/project-card.tsx:41-46 | no date exactly when `publishedAt` is absent or empty; otherwise that timestamp in the language's locale |
| ProjectCard.LeadingBlank | src/components/projects/project-card.tsx:36 | counts the white space `trim` removes at the front |
| ProjectCard.TrailingBlank | src/components/projects/project-card.tsx:36 | counts the white space `trim` removes at the back |
| ProjectCard.LeadingBlankIs | src/components/projects/project-card.tsx:36 | a leading blank run is determined by its characters and the one after it |
| ProjectCard.TrailingBlankIs | src/components/projects/project-card.tsx:36 | a trailing blank run is determined by its characters and the one before it |
| ProjectCard.Trim | src/components/projects/project-card.tsx:36 | the middle of the string between a blank front and a blank back, starting and ending with kept characters; empty exactly for all-blank strings |
| ProjectCard.TrimKeepsClean | src/components/projects/project-card.tsx:36 | a string starting and ending with kept characters is its own trim |
| ProjectCard.TrimIdempotent | src/components/projects/project-card.tsx:36 | trimming twice is trimming once |
| ProjectCard.HasText | src/components/projects/project-card.tsx:36-37 | defines a link button's condition: a present link whose trim is not empty |
| ProjectCard.Card | src/components/projects/project-card.tsx:34-70 | description fallback, date, placeholder exactly without a main image, category badge for a non-empty category, code and demo buttons for non-blank links, footer exactly when either shows |
| ProjectCard.FooterNeedsVisibleLink | src/components/projects/project-card.tsx:36-38 | the footer shows exactly when some link has a character other than white space |
| ProjectCard.BlankRepoHasNoButton | src/components/projects/project-card.tsx:36 | a repository link of one space gives no code button and no footer |
| ProjectModal.NonEmpty | src/components/projects/project-modal.tsx:133 | defines the modal's link test `value && …`: a present, non-empty string |
| ProjectModal.Modal | src/components/projects/project-modal.tsx:23-37 | nothing without a project or while closed; otherwise the project's description, date, image, category, and source/demo buttons for non-empty links |
| ProjectModal.ModalMatchesCard | src/components/projects/project-modal.tsx:25-33 | the open modal and the card agree on description and date |
| ProjectModal.CardLinkShowsInModal | src/components/projects/project-modal.tsx:133-142 | a link button on the card is a link button in the modal |
| ProjectModal.BlankRepoShowsOnlyInModal | src/components/projects/project-modal.tsx:133 | a repository link of one space shows in the modal but not on the card |

## Left out

- The resolver's `console.error` on a caught failure is not modelled; only its `[]` result is.
- The HTTP layer of the resolver is not modelled: `fetch`, `URLSearchParams`, the URL, the API key, JSON decoding and the `revalidate` option. The listing API is an abstract function from request to decoded page.
- Drive.GetImagesFromDrive: the source loop has no bound on the number of pages. The model requires a ghost bound `pages` within which the API's cursor chain ends. It proves that the loop sends at most that many requests.
- Drive.GetImagesFromDrive: a failure is modelled as a `Failure` response that ends the loop. An exception thrown while mapping files cannot happen in the model, because the mapping is total.
- Drive.ToNumber: `Number()` is modelled for JSON integers and for strings of ASCII digits. The empty string gives 0; every other string gives NaN. Surrounding white space, signs, decimals, exponents and hexadecimal strings are not parsed.
- Drive.Dimensions: dimensions are integers. Non-integer metadata values are not modelled.
- Albums.GetAlbums: the GROQ query and its `order(date desc)` run in the content store. The records arrive as a parameter in the order the store returns them.
- Albums.GetAlbums: `Promise.all` runs the lookups concurrently, but each result lands in its own record's slot. It is modelled as a sequential map.
- The other functions of `src/lib/api.ts` are not modelled. They are thin queries to the content store. This covers `getProjects`, `getContactData`, `getAboutPage` and `getHomePageData`.
- `cn` in `src/lib/utils.ts` and `urlFor` in `src/lib/sanity.ts` wrap libraries that are not part of this model.
- Shuffle.ShuffleArray: `Math.random` is replaced by an oracle whose draws lie in `[0, i]`. Uniformity of the resulting permutation is a probabilistic claim and is not stated.
- Lengths are counted in Unicode characters, while JavaScript counts UTF-16 code units. This affects the badge's "longer than 20" test for ids outside the Basic Multilingual Plane; ids made of `[\w-]` are unaffected.
- The mount effect's `setTimeout` and its cleanup are not modelled. Mounting is one atomic step.
- The translation dictionaries are static data. `t` is the lookup of the current language in them, so the model keeps only `language`. Nav labels are kept as dictionary keys, and the language button's label map is not modelled.
- `src/app/not-found.tsx` reads `dictionaries[language].notFound` at line 19, but the `Translation` type at `src/constants/translations.ts:7-78` has no `notFound` section. The not-found page is not modelled.
- Navbar.NavbarState.ToggleTheme: the view-transition animation is not modelled. This covers the click coordinates, the `Math.hypot` radius and the clip-path animation. The theme is a field of the navbar state, while the page itself gets it from the theme library, which also persists it.
- ProjectText.FormattedDate: `toLocaleDateString` output is not modelled. The date is kept as the timestamp with the chosen locale, and the card's short month and the modal's long month are not distinguished.
- The gallery page and its view controller are not part of this model. This includes the explore, albums and single views, the infinite-scroll counter, the lightbox and the aspect-ratio re-measure.
- Animations, class names and layout are not modelled.
