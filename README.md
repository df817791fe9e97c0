# QR generator PWA: offline cache manager and URL/download gate

This project is a Dafny model of the two sequential cores of a small QR-code
generator web app.

**The service worker (`sw.js`).** It owns one cache generation,
`qr-generator-v1`, in the browser's CacheStorage.
- Install opens that cache and adds a fixed seven-asset manifest with
  `cache.addAll`. That call is all-or-nothing (W3C Service Workers, section
  5.4.4). On success the worker asks to skip waiting; a failure is caught.
- Activate deletes every other cache.
- Fetch is cache-first:
  - a request found in any cache is answered from it
    (CacheStorage `match`, section 5.5.1 of the same specification);
  - on a miss, the network is asked;
  - a status-200 response of type `basic` (WHATWG Fetch Standard, section
    2.2.6) is written back to the current cache;
  - when the network fails, a `document` request falls back to the stored
    `./index.html` and every other request fails.

**The page script (`qr-generator.js`).**
- `validateURL` trims the input with `String.prototype.trim`. It accepts the
  empty value, and otherwise tests it against
  `^(https?|ftp):\/\/[^\s/$.?#].[^\s]*$` with the `i` flag.
- `generateQRCode` stops early on a blank or rejected value. It stores the
  rendered image's data URL only after a successful rendering.
- `downloadQRCode` refuses to run without a stored image. Otherwise it names
  the file `qr-code-<first 19 characters of the ISO timestamp, colons turned
  into hyphens>.png`.

The modules are:

- `options.dfy` (`Options`): the `Option` type.
- `cache_store.dfy` (`CacheStore`): the store as a value (`Store`: cache names
  in creation order, plus their entries), the Cache API operations as
  functions on it, and the `CacheStorage` class that updates it in place.
- `service_worker.dfy` (`ServiceWorker`):
  - the manifest;
  - the handlers specified as functions on store values (`Installed`,
    `Activated`, `Resolve`);
  - the `Worker` class, whose methods run the handlers on a `CacheStorage` and
    are proved to agree with those functions;
  - the lemmas stating what the handlers promise.
- `url_validation.dfy` (`UrlValidation`):
  - `\s` and `trim` over the exact ECMAScript WhiteSpace and LineTerminator
    sets;
  - the pattern test as a matcher (`MatchesUrlPattern`);
  - an independent character-by-character statement of its language
    (`InUrlLanguage`), proved equivalent to the matcher.
- `download_name.dfy` (`DownloadName`): `slice(0, 19)`, `replace(/:/g, '-')`,
  the filename, and a round trip back to the timestamp.
- `qr_app.dfy` (`QrApp`): the page state touched by these operations (stored
  data URL, message shown, input marked as erroneous) as a value `Page` with
  the operations as functions on it, and the `App` class whose methods update
  that state in place.

Install opens the cache before it adds anything: `caches.open` (sw.js:18) runs
first and creates `qr-generator-v1` whatever `addAll` (sw.js:21) then does.
So a failed install still leaves that cache in place, empty if it was new
(`InstallFailureAddsNothing`).

## Model

| member | source | states |
|---|---|---|
| CacheStore.FirstHit | sw.js:60 | `caches.match` finds something iff some cache holds the key, and then returns the entry of the first such cache in creation order |
| CacheStore.Match | sw.js:60-66 | a lookup hits iff some existing cache holds the key, and a hit is an entry stored under that key |
| CacheStore.Opened | sw.js:18 | `caches.open` leaves a store that has the cache; an existing cache is untouched, and a missing one is appended empty |
| CacheStore.PutEntry | sw.js:82 | `cache.put` inserts or replaces the one entry; every other cache is unchanged |
| CacheStore.Deleted | sw.js:44 | `caches.delete` removes exactly that cache; the others keep their entries and their creation order, deleting an absent name changes nothing, and the store stays well-formed |
| CacheStore.WithoutDistinct | sw.js:44 | in a list of distinct names, dropping one removes exactly its occurrence and keeps the rest in order; an absent name leaves the list as it is |
| CacheStore.FetchAll | sw.js:21 | the batch exists iff every URL's response is accepted; its keys are exactly the URLs, each mapped to its own response |
| CacheStore.AddAllBatch | sw.js:21 | `addAll` commits iff the URLs are distinct and every response is accepted (ok status, not 206, not an error) |
| CacheStore.PutBatch | sw.js:21 | the batch is added to the one cache, new entries override, and all else is kept |
| CacheStore.CacheStorage.Open | sw.js:18 | the storage becomes `Opened` of its previous state |
| CacheStore.CacheStorage.Put | sw.js:82 | the storage becomes `PutEntry` of its previous state |
| CacheStore.CacheStorage.AddAll | sw.js:21 | reports success iff the batch commits; on success the storage gains the batch, otherwise it is unchanged |
| CacheStore.CacheStorage.Delete | sw.js:44 | the storage becomes `Deleted` of its previous state; the result says whether the cache existed |
| ServiceWorker.ManifestDistinct | sw.js:3-11 | the seven manifest URLs are pairwise distinct, so `addAll` never rejects the manifest as a duplicate batch |
| ServiceWorker.InstallSucceeds | sw.js:18-22 | defined as: the `addAll` of the manifest commits; `InstallSucceedsIff` states when |
| ServiceWorker.Installed | sw.js:17-29 | install leaves a well-formed store: names distinct and listed exactly once |
| ServiceWorker.InstallSucceedsIff | sw.js:21 | install succeeds iff every manifest URL's response is accepted by `addAll` |
| ServiceWorker.InstallStoresManifest | sw.js:17-22 | after a successful install every manifest URL is in `qr-generator-v1` with its fetched response; its other entries and every other cache are kept, and no cache but `qr-generator-v1` is added |
| ServiceWorker.InstallFailureAddsNothing | sw.js:18-29 | a failed install adds no entry; the only change is that `qr-generator-v1` exists, empty if it was new |
| ServiceWorker.Activated | sw.js:38-47 | the activated store is well-formed |
| ServiceWorker.ActivateKeepsOnlyCurrent | sw.js:38-47 | after activate a cache exists iff it is `qr-generator-v1` and existed before, and its entries are untouched |
| ServiceWorker.ActivateIdempotent | sw.js:38-47 | activating an activated store changes nothing |
| ServiceWorker.InstallThenActivateLeavesOneGeneration | sw.js:14-53 | install then activate leaves exactly the one cache name `qr-generator-v1`; after a successful install every manifest URL then matches |
| ServiceWorker.DeleteStale | sw.js:40-46 | deleting the visited stale names one by one keeps the store well-formed |
| ServiceWorker.DeleteStaleKeeps | sw.js:40-46 | after visiting some names, exactly the caches that are current or not yet visited remain, with their entries |
| ServiceWorker.DeleteStaleAll | sw.js:38-47 | visiting every cache name, as the handler does, yields exactly the activated store |
| ServiceWorker.OfflineResult | sw.js:89-94 | after a network failure a request is served iff its destination is `document`; otherwise it is rejected with the same reason (what is served, the lookup of `./index.html`, is stated by `NetworkFailureFallback`) |
| ServiceWorker.Cacheable | sw.js:72-74 | defined as: a response is present, has status 200 and is of type `basic`; `CacheableMissWritesBack` and `UncacheableMissPassesThrough` state what follows |
| ServiceWorker.Resolve | sw.js:59-97 | resolving a request keeps the store well-formed |
| ServiceWorker.CacheHitSkipsNetwork | sw.js:60-66 | a request stored in any cache is served a stored response for that key; the network is not asked and the store is unchanged |
| ServiceWorker.CacheableMissWritesBack | sw.js:70-85 | on a miss, a status-200 `basic` response is returned and stored under the key in `qr-generator-v1`, replacing any earlier entry; no other cache changes |
| ServiceWorker.UncacheableMissPassesThrough | sw.js:72-74 | on a miss, an absent, non-200 or non-`basic` response is returned unchanged and nothing is stored |
| ServiceWorker.NetworkFailureFallback | sw.js:86-95 | on a miss with a failed fetch, a `document` request gets the lookup of `./index.html` and any other request fails with the same reason; the store is unchanged |
| ServiceWorker.WrittenBackIsServedFromCache | sw.js:60-85 | after a write-back, the same request is served the same response from the cache without the network, whatever the network would do |
| ServiceWorker.Worker.Install | sw.js:14-31 | the install handler turns the storage into `Installed` of its previous state and requests skip-waiting iff the install succeeded |
| ServiceWorker.Worker.Activate | sw.js:34-53 | the activate handler's deletion loop turns the storage into `Activated` of its previous state |
| ServiceWorker.Worker.HandleFetch | sw.js:56-98 | the fetch handler's result, network use and new storage are those of `Resolve` on the previous storage |
| ServiceWorker.Worker.HandleMessage | sw.js:168-174 | skip-waiting is requested iff the message type is `SKIP_WAITING`, or it was already requested |
| UrlValidation.TrimStart | qr-generator.js:68 | the result is a suffix of the input, everything dropped is `\s`, and it does not start with `\s` |
| UrlValidation.TrimEnd | qr-generator.js:68 | the result is a prefix of the input, everything dropped is `\s`, and it does not end with `\s` |
| UrlValidation.Trim | qr-generator.js:68 | the trimmed value is no longer than the input and neither starts nor ends with `\s` |
| UrlValidation.TrimDropsOnlySpace | qr-generator.js:68 | trim keeps one contiguous run of the input and drops only `\s` before and after it |
| UrlValidation.TrimEmptyIff | qr-generator.js:68 | the trimmed value is empty iff every character of the input is `\s` |
| UrlValidation.TrimOfTrimmed | qr-generator.js:68 | a value with no `\s` at either end is its own trim |
| UrlValidation.TrimIdempotent | qr-generator.js:68 | trimming twice equals trimming once |
| UrlValidation.IsSpace | qr-generator.js:68-69 | defined as: the ECMAScript WhiteSpace or LineTerminator code points, the set both `\s` and `trim` use |
| UrlValidation.NoSpace | qr-generator.js:69 | `[^\s]*$` accepts iff no character is `\s` |
| UrlValidation.SchemeLength | qr-generator.js:69 | `(https?\|ftp):\/\/` consumes 8, 7 or 6 characters, or does not match (0), never more than the input |
| UrlValidation.MatchesUrlPattern | qr-generator.js:69 | defined as: the scheme group matches and the part after `://` is accepted; `MatchesUrlPatternIff` gives its language |
| UrlValidation.MatchesUrlPatternIff | qr-generator.js:69 | the matcher accepts exactly the character-by-character language: scheme in any case, `://`, a first character neither `\s` nor `/ $ . ? #`, a second that is not a line terminator, no `\s` after |
| UrlValidation.MatchedInLanguage | qr-generator.js:69 | every string the matcher accepts is in the language |
| UrlValidation.LanguageMatched | qr-generator.js:69 | every string of the language is accepted by the matcher |
| UrlValidation.SchemesExclusive | qr-generator.js:69 | whichever scheme a string starts with fixes how much the scheme group consumes, so backtracking cannot pick another |
| UrlValidation.AcceptedHasTwoAfterSeparator | qr-generator.js:69 | every accepted string has at least two characters after `://` |
| UrlValidation.ValidateUrl | qr-generator.js:67-86 | defined as: the trimmed value is empty or matches the pattern; `ValidateUrlIff` states what it accepts |
| UrlValidation.ValidateUrlIff | qr-generator.js:67-86 | `validateURL` accepts exactly the all-`\s` values and those whose trimmed value is in the pattern's language |
| UrlValidation.ValidateUrlIgnoresPadding | qr-generator.js:68 | surrounding `\s` does not change the verdict |
| UrlValidation.ValidateUntrimmed | qr-generator.js:68-79 | for a non-empty value with no `\s` at its ends, `validateURL` is the pattern test alone |
| UrlValidation.OneCharacterHostRejected | qr-generator.js:69 | `http://a` is rejected |
| UrlValidation.InnerSpaceAccepted | qr-generator.js:69 | `http://a b` matches: the `.` lets a space through as the second character after `://` |
| UrlValidation.SchemeInAnyCase | qr-generator.js:69 | any case-spelling of `http`, `https` or `ftp` followed by `://` leaves the verdict to the part after the separator |
| DownloadName.Slice | qr-generator.js:206 | `slice(0, n)` gives the first `n` characters, or the whole string when it is shorter |
| DownloadName.ReplaceColons | qr-generator.js:206 | `replace(/:/g, '-')` keeps the length and changes exactly the colons, into hyphens |
| DownloadName.ReplaceColonsLeavesNone | qr-generator.js:206 | no colon survives the replacement |
| DownloadName.DownloadFilename | qr-generator.js:206-207 | the filename starts with `qr-code-`, ends with `.png`, has no colon, and holds the first 19 timestamp characters with colons as hyphens |
| DownloadName.StampRoundTrip | qr-generator.js:206-207 | for a `toISOString` timestamp, the first 19 characters can be read back from the filename |
| QrApp.Validated | qr-generator.js:67-86 | after `validateURL` the message is hidden iff the value is accepted; otherwise it is the invalid-URL message and the input is marked; the stored image is untouched |
| QrApp.ValidatedIdempotent | qr-generator.js:67-86 | checking the same value twice leaves the page as checking it once |
| QrApp.Generated | qr-generator.js:97-152 | defined as: the page after `generateQRCode`; `GenerateStoresOnlyOnSuccess`, `GenerateMessages` and `GenerateIgnoresPadding` state its behaviour |
| QrApp.GenerationProceedsIff | qr-generator.js:98-109 | generation passes its early returns iff the trimmed value is non-empty and in the pattern's language |
| QrApp.GenerateStoresOnlyOnSuccess | qr-generator.js:97-139 | the stored data URL changes only when generation passes the gate and rendering completes, and then holds what was read back |
| QrApp.GenerateMessages | qr-generator.js:101-145 | shows "Please enter a URL" for a blank value, the invalid-URL message for a rejected one, the failure message when rendering throws, and nothing on success |
| QrApp.GenerateIgnoresPadding | qr-generator.js:98 | generation on a padded value behaves as on its trimmed value |
| QrApp.HasImage | qr-generator.js:198 | defined as: `currentQRDataURL` is truthy, that is, present and not the empty string |
| QrApp.Downloaded | qr-generator.js:197-210 | defined as: the page and the link after `downloadQRCode`; `DownloadGuard` states its behaviour |
| QrApp.DownloadGuard | qr-generator.js:197-210 | a link is created iff a non-empty data URL is stored; it points at that image under the timestamped name; without one only "No QR code to download" is shown |
| QrApp.NoDownloadWithoutGeneration | qr-generator.js:198-201 | on a fresh page, a generation stopped at the gate or failed in rendering leaves nothing to download |
| QrApp.DownloadAfterGeneration | qr-generator.js:197-210 | after a generation that rendered a non-empty data URL, the download links to exactly that image |
| QrApp.App.constructor | qr-generator.js:3-7 | a new page has no stored image, no message and an unmarked input |
| QrApp.App.ValidateUrl | qr-generator.js:67-86 | returns the verdict of `validateURL` and leaves the page as `Validated` describes |
| QrApp.App.GenerateQrCode | qr-generator.js:97-152 | leaves the page as `Generated` describes for the same value and rendering outcome |
| QrApp.App.DownloadQrCode | qr-generator.js:197-210 | returns the link and leaves the page as `Downloaded` describes |

## Left out

- Logging (`console.log`), `clients.claim` (sw.js:50), the background-sync,
  push and notification-click handlers (sw.js:101-165), and the global error
  handlers (sw.js:177-184): they log, claim clients or drive UI and do not
  touch the cache store.
- Promise scheduling and concurrency: the handlers run to completion one at a
  time. The fetch write-back (sw.js:80-83), which the source starts without
  awaiting, is modelled as finished before the response is returned.
- CacheStore.AddAllBatch: the Cache API itself never fails here. In the
  source `addAll` (sw.js:21) can still reject when every response is accepted,
  for example on a storage quota error; install then fails and skip-waiting
  is not requested. The model commits such a batch.
- ServiceWorker.Resolve: the write-back `caches.open` and `cache.put`
  (sw.js:80-83) are not awaited and their rejection is not handled; when one
  rejects, nothing is stored. The model always stores a cacheable response.
- The network and the browser's Cache API are values. The network is a
  parameter, one outcome per URL for install and one outcome for a fetch. The
  store is held in memory.
- Request matching is equality of the request URL as written. URL
  normalisation, `Vary`, query options and the request method are not
  modelled.
- A `Vary: *` response is one more reason `addAll` rejects a batch. It is not
  modelled, because responses carry no headers here.
- Errors thrown inside the fetch handler other than a failed `fetch` (for
  example by `response.clone()`) are not modelled.
- `skipWaiting` is a flag. The lifecycle transitions it triggers are browser
  behaviour.
- Characters are Unicode scalar values, not UTF-16 code units. Lone
  surrogates cannot be represented.
- UrlValidation.MatchesUrlPattern: the source's pattern has no `u` flag, so it
  matches UTF-16 code units; the model matches scalar values. The verdicts
  differ when a character outside the Basic Multilingual Plane comes first
  after `://`: `http://\u{1F600}` is accepted by the source and rejected here,
  `http://\u{1F600} x` rejected by the source and accepted here. Modelling
  UTF-16 strings is not part of this model.
- UrlValidation.ValidateUrl: inherits that difference from
  `MatchesUrlPattern`.
- UrlValidation.AcceptedHasTwoAfterSeparator: the two characters after `://`
  are scalar values; in the source they are two code units, which may be one
  astral character.
- DOM work:
  - event binding and tab navigation (qr-generator.js:15-51);
  - focus, the button's loading state and its restoration
    (qr-generator.js:111-114, 146-151);
  - the "Downloaded!" feedback and its timer (qr-generator.js:217-225);
  - appending, clicking and removing the link. The model returns the link
    that would be clicked.
- QR encoding by the external `QRCode` library and reading the image back
  (qr-generator.js:118-132, 154-195) are foreign calls. They are reduced to an
  outcome parameter: rendered, with the data URL read back or none, or thrown.
- QrApp.Page: the error message is modelled as the message on show or none.
  When the message is hidden, the text left in the element is not kept.
- QrApp.Downloaded: the `catch` around link creation (qr-generator.js:227-230)
  is not modelled, because creating and clicking a link is not modelled.
- The clock: the ISO timestamp is a parameter of the download.
- Service-worker registration, the install prompt and the `controllerchange`
  reload prompt (qr-generator.js:53-65, 240-265) are browser plumbing.
