# Oxford 3000 vocabulary app — a Dafny model of its core

The app is a single-page vocabulary trainer for the Oxford 3000 word list.
The model covers four parts of it:

- **The `App` component**: the favourite and mastered word lists and their
  toggles; the filtered, sorted word view (search term, CEFR level, and the
  all / favourites / mastered / unlearned modes); the API-key status check;
  and the progress percentage.
- **The audio service**: the check that rejects placeholder API keys; the
  cache key built from a normalised word; the base64-to-bytes `decode`
  loop; `decodeAudioData`, which reads the bytes as 16-bit PCM and
  de-interleaves them into channels; and `fetchWordAudioBuffer`, which
  answers from the audio cache, or asks the speech service and stores its
  reply.
- **The service worker**: install pre-caches the application shell,
  activate deletes every other cache, and fetch serves GET requests
  stale-while-revalidate.
- **The origin's `CacheStorage`**: one class shared by the page and the
  worker. It keeps the caches as an ordered list of names with a map per
  name. `caches.open` creates a cache that is missing, and `caches.match`
  searches the caches in creation order.

The browser primitives the core depends on are written out, with the limits listed under "## Left out":

- `String.prototype.trim` over the ECMAScript white-space set, and
  `toLowerCase`;
- `String.prototype.includes`;
- `encodeURIComponent`: UTF-8, then `%XX` with upper-case hex digits, with
  its inverse `decodeURIComponent`;
- `atob`: the forgiving-base64 decoder of the WHATWG HTML standard, with
  its inverse `btoa`.
- URL parsing by `new Request(url)`, for the URLs the core builds: root
  paths resolved against the worker's origin, the "/" of an empty path,
  and the folding of "." and ".." segments.

Files, one module each:

| file | module | models |
|---|---|---|
| common.dfy | Common | `Option`, bytes, 16-bit integers, `Array.prototype.filter(w => w !== x)` |
| text.dfy | Text | `trim`, `toLowerCase`, `includes` |
| uri.dfy | Uri | `encodeURIComponent` and its inverse |
| base64.dfy | Base64 | `atob` and its inverse `btoa` |
| caches.dfy | Caches | the origin's `CacheStorage` |
| serviceworker.dfy | ServiceWorker | `sw.js` |
| app.dfy | App | `App.tsx`, `types.ts` |
| audio.dfy | AudioService | `services/geminiService.ts` |
| interplay.dfy | Interplay | properties that span the page, the audio service and the worker |

Inputs from outside the program become parameters:

- reading `process.env.API_KEY` becomes `EnvRead`. The bundler leaves the read as a lookup done at run time, so it either throws (no `process` global) or gives the variable, when it is set;
- `navigator.onLine` becomes `online: bool`;
- the origin the service worker is served from becomes `origin`;
- what `window.aistudio` offers becomes the `AiStudio` datatype;
- the speech service's reply becomes `SpeechReply`;
- each network fetch becomes a `NetResult`;
- `localeCompare` becomes an abstract total preorder `le`.

## Model

| member | source | states |
|---|---|---|
| Common.Remove | App.tsx:91 | `filter(w => w !== word)` leaves out every copy of the word and keeps every other element, and leaves a list without the word as it is |
| Common.RemoveAppend | App.tsx:91 | filtering distributes over concatenation, so the survivors keep their order |
| Common.RemoveMultiset | App.tsx:91 | filtering drops all copies of the word and changes no other multiplicity |
| Common.RemoveNoDuplicates | App.tsx:91 | filtering a list without repeats gives a list without repeats |
| App.Toggle | App.tsx:90-96 | toggling flips the word's membership and keeps every other word's; an absent word is appended at the end; a present word loses every copy and nothing else; no repeats are created |
| App.ToggleOffKeepsOrder | App.tsx:91 | toggling a listed word off keeps the other words in order: at any split point, the survivors of the front precede those of the back |
| App.ToggleTwiceAbsent | App.tsx:90-96 | toggling an unlisted word on and then off gives back the original list |
| App.ToggleTwicePresent | App.tsx:90-96 | toggling a listed word off and then on moves it, once, to the end |
| App.AppState.constructor | App.tsx:12-23 | the lists start as read back from storage, and the key counts as present |
| App.AppState.ToggleFavorite | App.tsx:90-92 | the favourites become their toggle; the mastered list and the key flag do not change |
| App.AppState.ToggleMastered | App.tsx:94-96 | the mastered list becomes its toggle; the favourites and the key flag do not change |
| App.SearchTerm | App.tsx:99 | the search term is the same lowered, trimmed text the audio service builds its cache keys from |
| App.MatchesLevel | App.tsx:101 | a null or empty level selects every word; any other level selects exactly the words of that level |
| App.MatchesMode | App.tsx:102-105 | mode 'all' keeps every word, 'favorites' keeps exactly the favourites, and 'mastered' and 'unlearned' split the words by membership in the mastered list |
| App.MatchesSearch | App.tsx:107-108 | the empty term matches every word; a word whose lower-cased spelling contains the term matches; a word without a translation matches by its spelling alone |
| App.Matches | App.tsx:110 | a kept word passes all three tests; with no level, mode 'all' and the empty term every word is kept |
| App.Matching | App.tsx:100-110 | a word is kept exactly when it is in the catalog and passes the level, mode and search tests; the result is no longer than the catalog |
| App.Insert | App.tsx:111 | inserting into a list sorted by `localeCompare` keeps it sorted and adds exactly that one entry |
| App.ConsSorted | App.tsx:111 | putting an entry in front of a sorted list whose head it does not exceed keeps the list sorted |
| App.SortByWord | App.tsx:111 | the result is sorted by word under `localeCompare` and is a permutation of the input |
| App.FilteredWords | App.tsx:98-112 | the view is sorted by word, is a permutation of the matching catalog entries, and holds a word exactly when that word matches |
| App.BlankSearchListsAll | App.tsx:98-112 | with a blank or all-white-space search, no level and mode 'all', the view is a permutation of the whole catalog |
| App.MatchingEverything | App.tsx:100-110 | the empty term, no level and mode 'all' keep the catalog as it is |
| App.SortedTail | App.tsx:111 | the tail of a sorted list is sorted |
| App.MatchingCons | App.tsx:100-110 | the filter keeps or drops the head, then filters the tail |
| App.MatchingDisjoint | App.tsx:104-105 | no entry passes both the 'mastered' and the 'unlearned' filters |
| App.ViewsPartition | App.tsx:103-105 | the 'mastered' and 'unlearned' views together hold each entry of the 'all' view exactly as often as it does, and share no entry |
| App.MatchingSplits | App.tsx:104-105 | before sorting, the 'mastered' and 'unlearned' filters together keep each entry of the 'all' filter exactly as often |
| App.EnvKeyValid | App.tsx:39-40 | the page accepts an environment key exactly when the audio service's `getValidApiKey` does |
| App.ApiKeyStatus | App.tsx:36-58 | the key counts as present when reading the environment throws, when the environment key is valid, or when the AI Studio query throws; it is absent exactly when the read succeeds without a valid key and AI Studio is missing, cannot be asked, or answers false |
| App.AppState.CheckApiKey | App.tsx:36-58 | the key flag becomes the status; the lists do not change |
| App.ProgressPercentage | App.tsx:114 | the percentage is within one half of `100 * mastered / 3000`, with halves rounded up |
| Text.StartIndex | App.tsx:99 | the scan from the front skips only white space and stops at the first character that is not, or at the end |
| Text.EndIndex | App.tsx:99 | the scan from the back skips only white space and stops just past the last character that is not, never passing its lower bound |
| Text.Trim | App.tsx:99 | the trimmed text is no longer than the input and neither starts nor ends with white space |
| Text.StartIndexAt | App.tsx:99 | the front scan stops exactly at a non-space character preceded by white space only |
| Text.EndIndexAt | App.tsx:99 | the back scan stops exactly past a non-space character followed by white space only |
| Text.TrimIsCore | App.tsx:99 | trimming yields exactly the core between a white-space prefix and a white-space suffix |
| Text.TrimIdempotent | App.tsx:99 | trimming twice is trimming once |
| Text.TrimAllSpace | App.tsx:99 | a text of white space only trims to the empty term |
| Text.LowerChar | services/geminiService.ts:18 | lowering gives no upper-case letter, leaves other characters alone, and keeps white space as white space |
| Text.ToLower | services/geminiService.ts:18 | lowering keeps the length and lowers each character in place |
| Text.LowerIdempotent | services/geminiService.ts:18 | lowering twice is lowering once |
| Text.TrimLowerCommute | services/geminiService.ts:18 | lowering and trimming commute, so the page's order and the service's order give the same term |
| Text.StartIndexLower | services/geminiService.ts:18 | lowering does not move where trimming starts |
| Text.EndIndexLower | services/geminiService.ts:18 | lowering does not move where trimming ends |
| Text.ToLowerSlice | services/geminiService.ts:18 | lowering a slice is slicing the lowered text |
| Text.Contains | App.tsx:107-108 | a text contains only terms no longer than itself, and contains each of its prefixes and suffixes |
| Text.ContainsEmpty | App.tsx:107-108 | every text contains the empty term, so an empty search matches every word |
| Uri.Utf8 | services/geminiService.ts:19 | a code point takes one to four UTF-8 bytes, and one byte exactly when it is ASCII |
| Uri.EscapeChars | services/geminiService.ts:19 | an escape is '%' followed by two upper-case hex digits whose values are the byte's high and low four bits; so each of its characters is unreserved or '%' |
| Uri.EscapeAll | services/geminiService.ts:19 | each byte becomes three characters, all of them unreserved or '%' |
| Uri.EncodeChar | services/geminiService.ts:19 | an encoded character is made of unreserved characters and '%' |
| Uri.EncodeURIComponent | services/geminiService.ts:19 | the encoded key holds only unreserved characters and '%' |
| Uri.EscapedByte | services/geminiService.ts:19 | reading an escaped byte needs a '%' and three characters |
| Uri.Continuation | services/geminiService.ts:19 | a UTF-8 continuation byte carries six bits |
| Uri.DecodeChar | services/geminiService.ts:19 | decoding one character consumes at least one and at most all of the input |
| Uri.EscapedByteOfEscape | services/geminiService.ts:19 | an escape reads back as its byte |
| Uri.ContinuationOfEscape | services/geminiService.ts:19 | an escaped continuation byte reads back as its six payload bits |
| Uri.DecodeEncodeChar | services/geminiService.ts:19 | an encoded character decodes back to itself, consuming exactly its encoding |
| Uri.EscapeAllTwo | services/geminiService.ts:19 | the escapes of two bytes are the escape of the first followed by that of the second |
| Uri.EscapeAllThree | services/geminiService.ts:19 | the same, for three bytes |
| Uri.EscapeAllFour | services/geminiService.ts:19 | the same, for four bytes |
| Uri.Utf8Digits2 | services/geminiService.ts:19 | a two-byte code point has a lead byte in 0xC0-0xDF and a continuation byte, and its bits spell it |
| Uri.Utf8Digits3 | services/geminiService.ts:19 | the same, for a three-byte code point and a lead byte in 0xE0-0xEF |
| Uri.Utf8Digits4 | services/geminiService.ts:19 | the same, for a four-byte code point and a lead byte in 0xF0-0xF4 |
| Uri.DecodeCharTwo | services/geminiService.ts:19 | a two-byte lead escape with one continuation decodes to the value of its payload bits, when that is not overlong |
| Uri.DecodeCharThree | services/geminiService.ts:19 | the same, for a three-byte lead, when the value is not overlong and not a surrogate |
| Uri.DecodeCharFour | services/geminiService.ts:19 | the same, for a four-byte lead, when the value is a supplementary-plane scalar |
| Uri.DecodeTwoBytes | services/geminiService.ts:19 | the escapes of a two-byte sequence decode to the value of its payload bits |
| Uri.DecodeThreeBytes | services/geminiService.ts:19 | the same, for a three-byte sequence |
| Uri.DecodeFourBytes | services/geminiService.ts:19 | the same, for a four-byte sequence |
| Uri.DecodeEscaped1 | services/geminiService.ts:19 | the same, for a one-byte code point |
| Uri.DecodeEscaped2 | services/geminiService.ts:19 | the same, for a two-byte code point |
| Uri.DecodeEscaped3 | services/geminiService.ts:19 | the same, for a three-byte code point |
| Uri.DecodeEscaped4 | services/geminiService.ts:19 | the same, for a four-byte code point |
| Uri.DecodeEncode | services/geminiService.ts:19 | `decodeURIComponent(encodeURIComponent(s)) == s` |
| Uri.EncodeInjective | services/geminiService.ts:19 | two texts encode alike exactly when they are equal |
| Base64.StripSpace | services/geminiService.ts:68 | removing ASCII white space leaves none |
| Base64.Alphabet | services/geminiService.ts:68 | no base64 digit is '=' or white space |
| Base64.SextetOf | services/geminiService.ts:68 | a digit's value is below 64 and spells that digit |
| Base64.Sextets | services/geminiService.ts:68 | the values are below 64; the input is rejected exactly when some character is not a base64 digit |
| Base64.Bytes3 | services/geminiService.ts:68 | four digits give three bytes |
| Base64.Sextets4 | services/geminiService.ts:68 | three bytes give four digit values, each below 64 |
| Base64.Pack | services/geminiService.ts:68 | `n` digits give `3n/4` bytes |
| Base64.Bytes2 | services/geminiService.ts:68 | a final group of three digits gives two bytes |
| Base64.Bytes1 | services/geminiService.ts:68 | a final group of two digits gives one byte |
| Base64.BinaryString | services/geminiService.ts:68 | the binary string's character codes are the bytes |
| Base64.Atob | services/geminiService.ts:68 | every character `atob` produces has a code below 256 |
| Base64.Split | services/geminiService.ts:68 | the digit values of some bytes are below 64, with the digit count base64 prescribes |
| Base64.Spell | services/geminiService.ts:68 | each value is spelled as its base64 digit |
| Base64.Btoa | services/geminiService.ts:68 | encoded base64 is padded to a multiple of four |
| Base64.SextetOfAlphabet | services/geminiService.ts:68 | reading a digit back gives its value |
| Base64.PackGroup | services/geminiService.ts:68 | three bytes survive their four digits |
| Base64.PackPair | services/geminiService.ts:68 | two trailing bytes survive their three digits |
| Base64.ByteDigits | services/geminiService.ts:68 | a 24-bit group splits back into its three bytes |
| Base64.PackCons | services/geminiService.ts:68 | packing a leading group of four digits and then the rest is packing them together |
| Base64.SplitCons | services/geminiService.ts:68 | the digits of three leading bytes come first, then those of the rest |
| Base64.SplitPair | services/geminiService.ts:68 | two trailing bytes are cut into three digits, the last carrying two zero bits |
| Base64.PackSplitPair | services/geminiService.ts:68 | two trailing bytes survive their digits |
| Base64.SingleDigits | services/geminiService.ts:68 | one trailing byte survives its two digits |
| Base64.PackSplitSingle | services/geminiService.ts:68 | one trailing byte survives its digits |
| Base64.PackSplit | services/geminiService.ts:68 | packing the digits of some bytes gives the bytes back |
| Base64.SextetsSpell | services/geminiService.ts:68 | reading spelled digits gives the values back |
| Base64.StripSpaceNoSpace | services/geminiService.ts:68 | a text without white space is unchanged by the white-space step |
| Base64.BtoaHasNoSpace | services/geminiService.ts:68 | encoded base64 passes the white-space step unchanged |
| Base64.StripPadding | services/geminiService.ts:68 | only trailing `=` are removed, at most two, and only from a text whose length is a multiple of four |
| Base64.StripTwo | services/geminiService.ts:68 | two trailing `=` are dropped from a text whose length is a multiple of four |
| Base64.StripOne | services/geminiService.ts:68 | one trailing `=` is dropped when the character before it is not `=` |
| Base64.StripNone | services/geminiService.ts:68 | a text not ending in `=` keeps its length |
| Base64.StripPaddingBtoa | services/geminiService.ts:68 | removing the padding of encoded base64 leaves exactly its digits |
| Base64.AtobBtoa | services/geminiService.ts:68 | `atob(btoa(bytes))` is the binary string of the bytes |
| AudioService.GetValidApiKey | services/geminiService.ts:6-12 | no key exactly when the variable is unset, empty, 'undefined' or 'null'; otherwise the key is the variable |
| AudioService.CacheKey | services/geminiService.ts:18-20 | the key starts with `https://api.local/word-audio/` and continues with unreserved characters and '%' only |
| AudioService.NormalizedText | services/geminiService.ts:18 | the normalised text is no longer than the input, is lower case, and has no white space at either end |
| AudioService.NormalizedTextIdempotent | services/geminiService.ts:18 | normalising twice is normalising once |
| AudioService.CacheKeyOfNormalized | services/geminiService.ts:18-20 | a text and its lowered, trimmed form build the same key string |
| AudioService.CacheKeyCollision | services/geminiService.ts:18-20 | two texts build the same key string exactly when they normalise to the same text |
| AudioService.CacheUrl | services/geminiService.ts:19-20 | the URL the cache compares is the key string, except that a lone "." segment names the key directory and a ".." segment names the origin's root |
| AudioService.EncodeDots | services/geminiService.ts:19 | only "." and ".." encode to the dot segments, and only the empty text to the empty segment |
| AudioService.CacheUrlCollision | services/geminiService.ts:18-24 | two texts share a cache entry exactly when their normalised texts agree once a lone "." is read as the empty text |
| AudioService.DotSharesBlankEntry | services/geminiService.ts:18-24 | "." and a blank text build different key strings but share one cache entry |
| AudioService.Codes | services/geminiService.ts:70-72 | one byte per character, equal to the character's code when that is below 256 |
| AudioService.CodesOfBinaryString | services/geminiService.ts:70-72 | the codes of a binary string are its bytes |
| AudioService.Decode | services/geminiService.ts:67-74 | fails exactly when `atob` throws; otherwise a new array holds one byte per decoded character, its code modulo 256 |
| AudioService.DecodeBtoa | services/geminiService.ts:67-74 | base64 of some bytes decodes to exactly those bytes |
| AudioService.Samples | services/geminiService.ts:82 | an even number of bytes gives half as many 16-bit samples |
| AudioService.PcmBytes | services/geminiService.ts:82 | each 16-bit sample is two little-endian bytes |
| AudioService.SamplesOfPcmBytes | services/geminiService.ts:82 | reading little-endian PCM bytes as an `Int16Array` gives the samples back |
| AudioService.FrameIndexInRange | services/geminiService.ts:89 | the index `i * numChannels + channel` of every buffer frame lies within the samples |
| AudioService.Channel | services/geminiService.ts:86-91 | a channel has one sample per whole frame |
| AudioService.DecodedAudio | services/geminiService.ts:76-93 | decoding fails exactly when the byte count is odd, there is no channel, or there is no whole frame; otherwise the buffer has the sample rate, whole frames, and channel `c` takes every `numChannels`-th sample from `c` |
| AudioService.MonoHoldsAllSamples | services/geminiService.ts:28 | at 24 kHz with one channel, the buffer holds every sample in order |
| AudioService.FrameLoopBound | services/geminiService.ts:88 | each round of the frame loop has its index below the sample count |
| AudioService.FrameLoopCovers | services/geminiService.ts:88 | when the frame loop stops it has visited every frame of the buffer |
| AudioService.FillChannel | services/geminiService.ts:87-90 | the loop fills the whole channel with its samples, including when the frame count is fractional |
| AudioService.DecodeAudioData | services/geminiService.ts:76-93 | the method produces exactly the decoded audio, with None where the source throws |
| AudioService.AudioLookup | services/geminiService.ts:17-65 | a hit is decoded and the network, key and reply are ignored; a miss gives nothing while offline, when reading the key throws, without a valid key, or when the request throws; something is stored exactly when the reply carries non-empty base64 that `atob` accepts; what is stored is the decoded bytes, and the audio is their decoding |
| AudioService.DecodeStored | services/geminiService.ts:27-28 | a cached body is copied into a buffer and decoded as 24 kHz mono audio |
| AudioService.FetchByKey | services/geminiService.ts:22-65 | the audio cache exists afterwards, appended to the cache names when it was missing; the result and the new cache contents are those of the lookup decision on what the cache held under the URL; no other cache changes |
| AudioService.FetchMiss | services/geminiService.ts:31-64 | on a miss, the result and the store follow the lookup decision, and the cache names do not change |
| AudioService.FetchWordAudioBuffer | services/geminiService.ts:17-65 | the audio cache exists afterwards; the result and the new cache contents are those of the lookup decision on what the cache held under the URL of the word's key; no other cache changes |
| Caches.FirstMatch | sw.js:40 | no match exactly when no listed cache holds the URL; otherwise the answer comes from the first cache, in creation order, that holds it |
| Caches.CacheStorage.Keys | sw.js:25 | `caches.keys()` lists every cache once |
| Caches.CacheStorage.Match | sw.js:40 | no match exactly when no cache holds the URL; a match is the entry of some cache that holds it |
| Caches.CacheStorage.Lookup | services/geminiService.ts:24 | `cache.match` finds the URL exactly when the opened cache holds it, and then `caches.match` finds it too |
| Caches.CacheStorage.constructor | sw.js:17 | a fresh origin has no caches |
| Caches.CacheStorage.Open | sw.js:17 | opening an existing cache changes nothing; opening a missing one appends its name and an empty cache |
| Caches.CacheStorage.Put | sw.js:46 | only the named cache changes, gaining or replacing the one entry |
| Caches.CacheStorage.Delete | sw.js:28 | answers whether the cache existed, and removes its name and contents only |
| ServiceWorker.Resolve | sw.js:3-13 | the URL a `Request` built from an asset names: a root path gets the worker's origin in front; an absolute https URL keeps its text, gaining the "/" of an empty path and nothing else |
| ServiceWorker.Assets | sw.js:3-13 | the assets `addAll` stores are the asset list resolved one by one, in order |
| ServiceWorker.AssetsResolved | sw.js:3-13 | "/" and "/index.html" become URLs on the worker's origin, and the stylesheet host gains its "/" |
| ServiceWorker.Cacheable | sw.js:18 | `addAll` accepts only a received response with an ok status other than 206 |
| ServiceWorker.ChooseResponse | sw.js:40-55 | a cached entry wins; otherwise the network's reply; with no entry and a failed network there is no answer, and only then |
| ServiceWorker.WriteBack | sw.js:43-48 | a reply is written back exactly when its status is 200, and unchanged |
| ServiceWorker.AddAll | sw.js:18 | after `addAll` the cache holds every asset with its fetched response and keeps its other entries |
| ServiceWorker.AllCacheable | sw.js:18 | `addAll` proceeds exactly when every asset's fetch gave a cacheable response |
| ServiceWorker.PutAll | sw.js:18 | storing the assets replaces only the worker's own cache, by its `addAll`; every other cache and the cache names stay as they were |
| ServiceWorker.Install | sw.js:15-21 | installation succeeds exactly when every resolved asset URL is cacheable; then the worker's cache holds every resolved asset URL, and otherwise it is as before; no other cache changes; the worker's cache name is appended when it was missing, and the names keep their order |
| ServiceWorker.Activate | sw.js:23-32 | only the worker's own cache survives, with its contents |
| ServiceWorker.OnlyOwnCacheLeft | sw.js:23-32 | deleting every cache name but the worker's leaves the worker's cache alone, or nothing when it never existed |
| ServiceWorker.HandleFetch | sw.js:34-58 | non-GET requests pass through untouched; a GET is answered by the chosen response and writes a 200 reply into the worker's cache, whose name is appended when it was missing; nothing else changes |
| ServiceWorker.InstalledShellServedOffline | sw.js:15-55 | after a successful install, a GET for any asset at its resolved URL is answered from the caches when the network fails |
| ServiceWorker.RevisitOffline | sw.js:39-55 | once a URL has been answered with a 200, it is answered again when the network fails |
| Interplay.KeyChecksAgree | App.tsx:39-58 | when the environment can be read, a key the audio service accepts makes the page report a key, and without AI Studio the page reports one exactly when the service has one |
| Interplay.KeyChecksDisagreeOnThrow | App.tsx:55-57 | when reading the environment throws, the page reports a key and hides its banner, while every word that is not cached gets no audio |
| Interplay.AudioCacheIsStale | sw.js:27 | the audio cache's name differs from the worker's; `OfflineAfterActivation` uses this to show that activation deletes the audio cache |
| Interplay.CachedWordPlaysOffline | services/geminiService.ts:24-31 | a word whose audio is cached plays offline, whatever the key and the speech service, and no cache changes |
| Interplay.OfflineAfterActivation | sw.js:23-32 | after the worker activates, no word plays offline, and the audio cache is reopened empty |

## Left out

- Rendering, `WordCard` and the word-detail request are not part of this model; only the state and logic of the `App` component are.
- `localStorage` persistence and JSON parsing of the saved lists are left out; the constructor takes the lists as read back.
- The online/offline listeners, the 10-second key re-check timer and the key-selector dialog are browser event plumbing and are left out.
- Asynchrony is left out: promise chains are taken as sequential steps, so an interleaving of a write-back with a page request is not modelled.
- Failures of `caches.open` and `cache.put` (quota, storage errors) are left out.
- HTTP headers, and the request object as opposed to its URL, are left out. A fetch event's URL is taken as already parsed.
- The URL parser is written out only for the strings the core hands it. The worker's asset list is resolved as `ServiceWorker.Resolve` states: root paths, and absolute https URLs with or without a path. The audio service's keys are folded as `AudioService.CacheUrl` states. Other relative forms, and any parsing of hosts or queries, are not modelled.
- ServiceWorker.AllCacheable: the InvalidStateError that `addAll` raises when one batch holds two matching requests is not modelled. `AddAll` stores the URLs in order, so a later duplicate would replace an earlier one.
- The speech request itself is an input (`SpeechReply`), not modelled; so are the network fetches of the worker.
- Text.ToLower: lowers ASCII letters only; full Unicode case mapping is not modelled.
- Text.LowerChar: lowers ASCII letters only; full Unicode case mapping is not modelled.
- Uri.EncodeURIComponent: takes Unicode scalar values, so the URIError `encodeURIComponent` throws on a lone UTF-16 surrogate is not modelled.
- App.SortByWord: `localeCompare` is an abstract total preorder, so collation rules are not modelled and neither is the stability of `Array.prototype.sort`; the contract states sortedness and permutation only.
- App.ProgressPercentage: computed in exact arithmetic; at an exact half, floating-point rounding of `(n / 3000) * 100` in the source may round the other way.
- AudioService.DecodeAudioData: the division of each sample by 32768 into a float is left out, so channels hold the 16-bit samples; the platform is taken to be little-endian; the limits `createBuffer` puts on the channel count and the sample rate are not modelled (the callers pass 1 and 24000).
- AudioService.FetchWordAudioBuffer: an error anywhere is modelled as a null result; the logging of the error is left out.
