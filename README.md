# Gulf Connect landing site: locale detection and the gallery pipeline

This project is a Dafny model of the two pieces of logic in the Gulf Connect / RAX
marketing site that can be stated without I/O.

- **Locale configuration** (`i18n/config.ts`). There are two supported locales, `en`
  and `ar`, and `en` is the default. A metadata table gives each locale its text
  direction and display code. A table maps 18 ISO 3166-1 alpha-2 country codes to
  `ar`. `getLocaleFromCountry` upper-cases a country code, looks it up, and falls
  back to the default. The root layout's direction fallback,
  `languages[locale]?.dir || 'ltr'` (`app/layout.tsx`), is included as `DirOf`.
- **Gallery content pipeline** (`lib/data/gallery.ts`), composed by the gallery page
  (`app/gallery/page.tsx`):
  - build the public URL of a stored image;
  - ask the storage signer for a one-hour signed URL, and fall back to the public
    URL on failure;
  - fetch a company's active events in sort order and attach each event's images;
  - shape the result for display.

The backend is an input to the model. A query is a function that returns the
`{ data, error }` pair the client library hands back (`QueryResponse`). The signer is
a function from its request (bucket, path, lifetime) to its response. The module
`GalleryStore` adds a backend made of two tables. It answers the two queries the
pipeline issues: equality filters (`Where`) followed by an ascending sort on
`sort_order` (`OrderBy`). Using it, the lemmas show what the fetched events are.

Modules: `Wrappers` (Option), `LocaleConfig`, `Gallery`, `GalleryStore` and
`GalleryPage`. Everything is pure: the source has no mutable state and no loops
(its `.map` calls become recursive functions over `seq`).

Two details of the code shape the model:
- The backend origin is read with a non-null assertion
  (`process.env.NEXT_PUBLIC_SUPABASE_URL!`, lib/data/gallery.ts:3) and never checked,
  so `base` is an unconstrained string parameter.
- `images || []` (lib/data/gallery.ts:95) ignores the image query's error. So
  `ImagesOrEmpty` keeps any returned rows and gives `[]` only for null data.

## Model

| member | source | states |
|---|---|---|
| `LocaleConfig.ParseLocale` | i18n/config.ts:3-4 | a tag names a locale exactly when it is that locale's tag ("en" or "ar"); every other string names none |
| `LocaleConfig.ParseTagRoundTrip` | i18n/config.ts:3-4 | parsing a locale's tag gives back that locale |
| `LocaleConfig.DefaultLocaleIsSupported` | i18n/config.ts:3-6 | the default locale is a member of the supported list, and its tag is "en" |
| `LocaleConfig.LanguagesTotal` | i18n/config.ts:9-27 | every locale has a metadata record: `en` is left-to-right with code "EN", `ar` is right-to-left with code "AR", and the code is the upper-cased tag |
| `LocaleConfig.ToUpperCase` | i18n/config.ts:55 | upper-casing keeps the length; each lower-case letter a-z becomes its upper-case letter A-Z at the same position ("sa" gives "SA"), dotless i becomes I and long s becomes S, and every character that is already upper case (digits, punctuation, A-Z) is kept in place; the result is upper case, and an upper-case string is returned as is |
| `LocaleConfig.ToUpperCaseIdempotent` | i18n/config.ts:55 | upper-casing twice is the same as once |
| `LocaleConfig.CountryTableShape` | i18n/config.ts:30-51 | every key of the country table maps to `ar`, and every key is already upper case |
| `LocaleConfig.GetLocaleFromCountry` | i18n/config.ts:54-56 | the result is `ar` exactly when a code is given and its upper case is a table key; otherwise it is the default `en` (including for a null code) |
| `LocaleConfig.DetectedLocaleIsSupported` | i18n/config.ts:54-56 | detection always returns a member of the supported list |
| `LocaleConfig.ArabicCountriesDetected` | i18n/config.ts:30-51 | each of OM, SA, AE, KW, BH, QA, EG, JO, LB, IQ, YE, SY, PS, LY, SD, MA, DZ, TN is detected as `ar` |
| `LocaleConfig.DetectionIgnoresCase` | i18n/config.ts:55 | a code and its upper-cased form detect the same locale |
| `LocaleConfig.LowerCaseCodeDetected` | i18n/config.ts:55 | the lower-case codes "sa" and "om" are detected as `ar` |
| `LocaleConfig.UnknownCodesFallBack` | i18n/config.ts:54-56 | a null code, the empty code and an unlisted code ("us") all give the default locale |
| `LocaleConfig.DirOf` | app/layout.tsx:54 | the direction of a locale tag is right-to-left exactly when the tag is "ar"; any other tag, including one that is not a locale, gets left-to-right |
| `LocaleConfig.DirOfAgreesWithLanguages` | app/layout.tsx:54 | on every supported locale, the layout's direction is the one in the metadata table |
| `Gallery.GalleryImagePublicUrl` | lib/data/gallery.ts:37-39 | the public URL starts with the origin, ends with the storage path, and has the bucket's public-object path between them |
| `Gallery.PublicUrlSpelledOut` | lib/data/gallery.ts:37-39 | the public URL is the origin + "/storage/v1/object/public/rax_landing_gallery/" + the storage path |
| `Gallery.PublicUrlInjective` | lib/data/gallery.ts:37-39 | under one origin, two storage paths with the same public URL are equal |
| `Gallery.GalleryImageSignedUrl` | lib/data/gallery.ts:44-57 | the signer is asked for bucket "rax_landing_gallery", the given path and 3600 seconds; with no error and a non-empty signed URL the result is that URL; otherwise (an error, no data or an empty URL) it is the public URL; the result is never empty |
| `Gallery.SignedUrlDependsOnlyOnItsRequest` | lib/data/gallery.ts:46-48 | two signers that answer that one request alike give the same resolved URL, so no other request influences the result |
| `Gallery.ImagesOrEmpty` | lib/data/gallery.ts:95 | an image query's rows are used as returned, or `[]` when its data is null |
| `Gallery.AttachImages` | lib/data/gallery.ts:85-98 | one output per event, in order; each keeps its event and carries the result of that event's own image query, or `[]` |
| `Gallery.GetGalleryEvents` | lib/data/gallery.ts:62-101 | an events-query error, null data or no rows give `[]`; otherwise the output has the rows' length and order, and each row carries its own images |
| `Gallery.ResolveImageUrls` | lib/data/gallery.ts:122-124 | one non-empty URL per image, in order; the k-th is the resolved URL of the k-th image's storage path |
| `Gallery.ToDisplayEvent` | lib/data/gallery.ts:117-125 | id and title are copied; description and date are the event's own values, or "" when absent; there is one resolved URL per image, in order |
| `Gallery.TransformGalleryEventsForDisplay` | lib/data/gallery.ts:107-127 | one display record per event, in input order, each the display form of its event |
| `Gallery.ResolveImageUrlsSplit` | lib/data/gallery.ts:122-124 | resolving two runs of images separately and concatenating the results equals resolving them together, so order does not depend on how the concurrent work is split |
| `Gallery.TransformSplit` | lib/data/gallery.ts:116-126 | transforming two runs of events separately and concatenating the results equals transforming them together |
| `GalleryStore.Where` | lib/data/gallery.ts:71-72 | the filter keeps exactly the rows that satisfy the condition and never grows the table |
| `GalleryStore.WhereCounts` | lib/data/gallery.ts:71-72 | a kept row occurs in the filtered rows exactly as often as in the table, and a rejected row never occurs |
| `GalleryStore.InsertPermutes` | lib/data/gallery.ts:73 | inserting a row adds exactly that row to the multiset of rows |
| `GalleryStore.InsertKeepsSorted` | lib/data/gallery.ts:73 | inserting into rows ascending by the key keeps them ascending |
| `GalleryStore.OrderBy` | lib/data/gallery.ts:73 | the ordered rows ascend by the key and are a permutation of the input |
| `GalleryStore.SelectEvents` | lib/data/gallery.ts:68-73 | the events query returns exactly the table's events of the company that are active, each as often as the table holds it, ascending by sort order |
| `GalleryStore.SelectImages` | lib/data/gallery.ts:87-91 | the images query returns exactly the table's images of the event, each as often as the table holds it, ascending by sort order |
| `GalleryStore.FetchedEventsAreActiveAndSorted` | lib/data/gallery.ts:68-100 | every fetched event is a table event of the requested company with the active flag set, and the fetched events ascend by sort order |
| `GalleryStore.FetchedEventsAreComplete` | lib/data/gallery.ts:68-100 | when the events query succeeds, every active event of the company is among the fetched events, and each event row is fetched exactly as often as the table holds it if it is an active event of the company, and never otherwise |
| `GalleryStore.FetchedImagesBelongToTheirEvent` | lib/data/gallery.ts:85-96 | each fetched event carries `[]` if its image query failed; otherwise it carries exactly its own image rows, each as often as the table holds it, ascending by sort order |
| `GalleryStore.NoEventsGiveEmptyGallery` | lib/data/gallery.ts:75-82 | a failing events query, or a company with no active events, yields `[]` |
| `GalleryPage.GalleryPageEvents` | app/gallery/page.tsx:14-17 | the page renders nothing when the "gulf-connect" events query fails; otherwise it renders one record per returned event, in order, with that event's id and title, its description and date (or "" when absent), and the resolved URLs of its own images, in order |
| `GalleryPage.LaunchScenario` | app/gallery/page.tsx:14-17 | one active event "Launch" has images "e1/a.jpg" (sort 1) and "e1/b.jpg" (sort 2), stored out of order, and signing fails only for the second; the page shows `[signed(a), public(b)]` with empty description and date |
| `GalleryPage.EventsQueryFailureScenario` | lib/data/gallery.ts:75-78 | a failing events query renders an empty gallery, whatever the tables hold |

## Left out

- Supabase client construction, the query builder chains and the network are not modelled. Queries and the signer are function parameters; `GalleryStore` gives one table-backed instance.
- `GalleryStore.OrderBy`: this is a stable insertion sort. A database may order rows with equal `sort_order` differently. The proved properties (ascending order, permutation of the filtered rows) do not depend on how ties fall.
- `Promise.all` concurrency is modelled as sequential maps over `seq`. `ResolveImageUrlsSplit` and `TransformSplit` state that splitting the work does not change the joined result.
- `console.error` logging is not modelled.
- Reading `process.env.NEXT_PUBLIC_SUPABASE_URL` is not modelled. The origin is the parameter `base`. An unset variable corresponds to `base == "undefined"`.
- Signed-URL expiry time is not modelled, because nothing in the code checks time.
- `Gallery.GalleryImageSignedUrl`: the signer is a deterministic function. Real signed URLs may carry a different token on each call, so the claim that repeated runs agree only up to those tokens is not modelled.
- `LocaleConfig.ToUpperCase`: the model upper-cases a-z plus the two non-ASCII letters whose upper case is one ASCII letter (U+0131 dotless i to I, U+017F long s to S). Every other character is left unchanged. JavaScript's full Unicode case mapping differs elsewhere (for example "é" to "É", and "ß" to "SS", which changes the length).
- `sort_order` is a JavaScript number (a double) but is modelled as an unbounded integer. Fractional and NaN sort keys are not modelled.
- The `name` and `nativeName` metadata fields are kept as data only; nothing in the model reads them.
- The React/UI components are not part of this model. That includes the navigation bar, the section components, the language switcher with its cookie write and reload, the decorative backgrounds (ripple grid and aurora), certifications, testimonials and the rest of the root layout. They are presentational composition, browser I/O or floating-point animation.
