# Certific: from one acme.json to every gateway

Certific moves the certificates that one Traefik instance (the issuer) obtains into the directories
that many other Traefik instances (the gateways) watch, through one object in an S3 bucket. Three parts
cooperate, and each is modelled in the form its source has:

- **The uploader** (`Uploader.dfy`, laws in `UploaderLaws.dfy`, `UploaderPacing.dfy`, `UploaderRuns.dfy`
  and `UploaderShutdown.dfy`) watches `acme.json` and puts it into the
  store: bootstrap, watch, initial upload, then an event loop with a debounce timer, a dedup hash, a JSON
  gate, retries with backoff and a flush on shutdown. A class runs a script of everything that can happen
  (writes, events, timers, unreadable files, failed Puts that may have taken effect, cancellation) and is
  proved to follow
  a small-step function `Next`.
- **The downloader** (`Downloader.dfy`, laws in `DownloaderLaws.dfy`, `CacheExactness.dfy` and
  `GatewayRuns.dfy`) polls the
  store with Head, fetches when the etag is new, and renders. The store is a history of versions; an
  attempt reads one version with Head and a possibly later one with Get, any call can fail, and the
  process can die between any two edits and start again with an empty cache.
- **The reconciler** (`Acme.dfy`, `Slug.dfy`, `IndexFile.dfy`, `Live.dfy`, `Render.dfy`, laws in
  `AcmeLaws.dfy`, `IndexIdentity.dfy`, `RenderLaws.dfy`, `RenderSafety.dfy`, `RenderTearing.dfy`,
  `RenderEconomy.dfy`) turns an `acme.json` into
  files and brings `live/` to hold exactly those, one atomic rename or removal at a time, where every
  system call may fail. A ghost log records each edit of `live/`, so that the laws can speak of every
  state a watcher can see.

`EndToEnd.dfy` composes them. `Backoff.dfy`, `Text.dfy`, `Sorting.dfy` and `Wrappers.dfy` hold retry
pacing, strings, sorting and `Option`/`Result`.

Each method of the program is proved equal to a specification function over prefixes of its input; the
laws are then proved about those functions, over all inputs, all faults and all runs.

## Main results

- *Nothing is missed* (`UploaderLaws.Quiescence`): over every interleaving, when the event loop is idle
  with no event queued that announces new content and the debounce disarmed, Path is missing, is not JSON, or is what the
  store holds, unless the last upload could not read it. `UploaderRuns.CanSettle`: such rest can always
  be reached, but for an unreadable Path with nothing pending.
- *Skipping is sound, exactly when etags tell the truth* (`DownloaderLaws.AttemptsMatchFetching`,
  `CacheExactness.SkipsSoundIff`, `CacheExactness.ContentEtagsSoundIff`): for every history of the store,
  of absent, blank, unparsable and parsing versions.
- *What shutdown loses, exactly* (`UploaderShutdown.StopKeepsPathIff`,
  `UploaderShutdown.ShutdownKeepsPathIff`).
- *The index never names a missing file*, from a closed one on (`RenderSafety.IndexClosedThroughout`,
  `GatewayRuns.IndexAlwaysClosed`), *files are old or new, exactly when no names clash*
  (`RenderTearing.OldOrNewIff`), *at most one pair is torn, and exactly which are*, for distinct stems
  (`RenderSafety.AtMostOneTorn`, `RenderTearing.TornIff`).
- *A Render is exact, and minimal if no names clash and existing files can be read*
  (`RenderLaws.RenderExact`, `RenderEconomy.NoEditWasted`, `RenderEconomy.MinimalEdits`).
- *File names are distinct exactly when no slug looks like a used tag* (`Slug.StemsDistinctIff`).
- *A gateway empties its directory exactly when the version it reads parses to no certificates*
  (`EndToEnd.EmptiesIff`, `EndToEnd.EmptiedOnlyByNothing`), once the issuer has put anything and with
  truthful etags. The
  uploader's gate keeps out what is not JSON, not this: `{}` goes through
  (`EndToEnd.EmptyFileReachesEveryGateway`).
- *End to end* (`EndToEnd.Convergence`, `EndToEnd.IssuedCanReachEveryGateway`).

## Where the code and its documentation disagree

The model follows the code.

- A gateway's damaged `live/` is not repaired "on the next interval" (README.md:257-262) while the etag
  is unchanged: internal/certific/downloader.go:175-177 skips first. `GatewayRuns.DamageRepairedIff`
  gives the exact condition. Everywhere else only certific writes `live/`.
- `renderEmpty` does not leave `lastEtag` empty (internal/certific/downloader.go:241-244): it leaves it
  as it was. An object that is deleted, blanked or replaced and then put back under the same etag is
  skipped over the wrong directory (`CacheExactness.DeletedOrBlankedUnsound`,
  `CacheExactness.RestoredContentUnsound`). `CacheExactness.SkipsSoundIff` says exactly when no run does
  this; an unparsable version in between, for one, is harmless
  (`CacheExactness.GarbageBetweenSoundIff`).
- Shutdown does not flush every pending change (internal/certific/uploader.go:163-172), and the next boot
  does not upload what it left behind: bootstrap overwrites Path whenever an object exists
  (`UploaderShutdown.RebootKeepsPathIff`). A change is lost whose event is still queued
  (`UploaderShutdown.QueuedChangeIsLost`), and one whose upload is under way or waiting for a retry
  (`UploaderShutdown.AbandonedRetryIsLost`). `UploaderShutdown.ShutdownKeepsPathIff` is the exact
  condition at cancellation when `select` receives from ctx.Done at once, and
  `UploaderShutdown.StopKeepsPathIff` the one at that moment, whatever came before it.
- Tagged file names can still collide (internal/certific/render.go:224-227), because `usedSlugs` records
  bare slugs only: `a?b`, `a_b` and `a_b-2` get the stems `a_b`, `a_b-2` and `a_b-2`
  (`Slug.TagsCanCollide`). `Slug.StemsDistinctIff` is exact.
- During step 1 of a Render the old index already names the files being replaced, so a reload there is
  not always "a harmless no-op" (internal/certific/render.go:172-178): in every successful Render of a
  renewed certificate there is a moment at which the index names the new chain with the old key
  (`RenderTearing.RenewalTears`). A pair is torn at some moment exactly if both its files change
  (`RenderTearing.TornIff`), and only one at a time (`RenderSafety.AtMostOneTorn`).

## Model

| member | source | states |
|---|---|---|
| Text.TrimTidies | internal/certific/render.go:119-119 | Trimming leaves no white space at either end, leaves tidy strings alone, and is idempotent. |
| Text.SpacesAre | internal/certific/render.go:119-119 | White space is the 25 characters of Unicode's, listed one by one. |
| Text.TrimSplits | internal/certific/render.go:119-119 | Trimming takes white space from both ends, as much as there is, and nothing else. |
| Text.DecimalInjective | internal/certific/render.go:230-230 | Different numbers print differently in decimal. |
| Text.DecimalDigits | internal/certific/render.go:230-230 | Decimal printing of a natural number yields digits only, so never a dash. |
| Text.DecimalValue | internal/certific/render.go:230-230 | Reading the digits back in base ten gives the number; there is no leading zero. |
| Text.LtTotal | internal/certific/render.go:144-144 | Any two different strings are ordered one way or the other. |
| Text.LtIs | internal/certific/render.go:144-144 | The first difference decides the order of two strings; a proper prefix comes first. |
| Sorting.SortedSetUnique | internal/certific/render.go:140-164 | A set of strings has exactly one strictly increasing listing, whatever order its elements were met in. |
| Sorting.SortKeepsElements | internal/certific/render.go:140-145 | Sorting a duplicate-free list by a key yields a sorted, duplicate-free list of the same elements. |
| Sorting.SortStringsCanonical | internal/certific/render.go:111-115 | Sorting what a map iteration collected gives the one increasing listing of the keys. |
| Acme.DedupSorted | internal/certific/render.go:148-164 | The result is the strictly increasing listing of the trimmed non-empty names. |
| Acme.MapKeys | internal/certific/render.go:111-114 | Ranging over a map, in whatever order, collects each key once. |
| Acme.SortedKeys | internal/certific/render.go:111-115 | The resolver names are walked in increasing order, whatever order the map gave. |
| Acme.SortedCerts | internal/certific/render.go:140-145 | The values of byMain come out in increasing order of main domain, whatever order the map gave. |
| Acme.AddResolver | internal/certific/render.go:118-137 | The inner loop equals the fold over the resolver's entries, error cases included. |
| Acme.ParseAcme | internal/certific/render.go:97-146 | The whole method equals the specification `Parse`, about which AcmeLaws speaks. |
| AcmeLaws.WalkFileIs | internal/certific/render.go:107-138 | The walk fails iff some usable entry does not decode; else byMain maps each main domain to its last usable entry and nothing else (what is usable and what is rendered of it: ParseKeepsLast). |
| AcmeLaws.ParseFailsIff | internal/certific/render.go:117-138 | Decoded JSON fails to parse iff some entry with a main domain that is not white space, and non-empty certificate and key, has undecodable base64 in either, even if a later entry overrides it. |
| AcmeLaws.ParseKeepsLast | internal/certific/render.go:87-146 | The output is strictly sorted by main domain; each certificate has the decoded chain, the decoded key and the sorted trimmed names of the last complete entry of its main domain in (resolver, position) order; every complete entry's main domain is there. |
| AcmeLaws.ParsesToNothingIff | internal/certific/render.go:92-122 | Decoded JSON parses to no certificates iff every entry lacks a main domain, a certificate or a key. |
| AcmeLaws.PlaceholderIgnored | internal/certific/render.go:92-122 | Such an entry can be deleted without changing whether the file parses or what it parses to. |
| AcmeLaws.ParseErrorIs | internal/certific/render.go:117-130 | The error names the main domain and resolver of the first complete entry that does not decode, and its chain, if that is bad, else its key. |
| AcmeLaws.BadJsonIff | internal/certific/render.go:98-101 | The JSON error is reported iff the bytes do not decode as an AcmeFile. |
| AcmeLaws.ParseIgnoresLayout | internal/certific/render.go:87-91 | Files with the same complete entries per resolver and main domain, in the same order, parse alike. |
| AcmeLaws.SwapChangesNothing | internal/certific/render.go:118-137 | Swapping neighbouring entries of different main domains gives such a file. |
| Slug.SlugifyHost | internal/certific/render.go:346-369 | The builder loop produces Slugify of its host. |
| Slug.SlugifyIs | internal/certific/render.go:346-369 | The slug is the trimmed host with a leading `*.` spelled `_wildcard.` and every character but letters, digits, dot, dash and underscore replaced by an underscore. |
| Slug.SlugIsSafe | internal/certific/render.go:351-367 | A slug has only letters, digits, dots, dashes and underscores. |
| Slug.SlugifyIdempotent | internal/certific/render.go:346-369 | Slugifying a slug changes nothing. |
| Slug.PlainHostSlug | internal/certific/render.go:346-369 | On hosts of safe characters with an optional leading `*.`, slugify only spells the star as `_wildcard`. |
| Slug.SlugifyInjective | internal/certific/render.go:346-369 | On such hosts, not starting with `_wildcard.`, slugify is injective. |
| Slug.TaggedInjective | internal/certific/render.go:230-230 | `s-k` determines both s and k. |
| Slug.StemIs | internal/certific/render.go:228-233 | The first certificate with slug s is named s, the kth `s-k`. |
| Slug.StemsDistinctIff | internal/certific/render.go:221-233 | The assigned stems are pairwise distinct iff no slug is spelled `s-k` for a slug s occurring at least k times, k at least 2. |
| Slug.TagsCanCollide | internal/certific/render.go:224-233 | The hosts `a?b`, `a_b` and `a_b-2` do not get distinct stems. |
| Slug.DistinctSlugsAreStems | internal/certific/render.go:228-233 | Slugs that never repeat are used untagged. |
| IndexFile.BuildIndex | internal/certific/render.go:257-271 | The string builder produces the index text of its entries. |
| IndexFile.EmptyIndexIs | internal/certific/render.go:259-264 | The index of no certificates, line by line. |
| IndexFile.IndexRoundTrip | internal/certific/render.go:257-271 | A line-based reader with its own spelling of the format gets back exactly the printed pairs in order, the empty list included. |
| IndexIdentity.SameIndexSameStems | internal/certific/render.go:257-276 | Indexes with equal bytes list equal stems in equal order, whatever the path of live/. |
| IndexFile.IndexTextInjective | internal/certific/render.go:257-276 | Indexes with equal bytes list equal pairs. |
| Live.DifferingTouched | internal/certific/render.go:297-340 | Edits change nothing but the files they name. |
| Live.EditsAtLeast | internal/certific/render.go:297-340 | No sequence of one-file edits is shorter than the number of names at which its two ends differ. |
| Render.OutDir.WriteFileIfChanged | internal/certific/render.go:297-315 | Equal content is skipped; else one atomic rename of a private file, or an error and no edit; the staging file is gone unless writing it failed; no other staging file is touched. |
| Render.OutDir.RemoveIfStale | internal/certific/render.go:327-338 | A regular file outside `keep` is removed, or the error reported; anything else stays. |
| Render.OutDir.PruneDir | internal/certific/render.go:321-340 | Prunes in directory order up to the first error; `removed` iff an edit was made. |
| Render.OutDir.TagSlug | internal/certific/render.go:228-233 | The usedSlugs test yields the stem of the certificate: its slug, tagged with its occurrence number from the second on. |
| Render.OutDir.LayOut | internal/certific/render.go:201-246 | Files, index entries and names to keep are those the certificate list calls for. |
| Render.OutDir.WriteCertFiles | internal/certific/render.go:248-255 | Writes in order up to the first error; `changed` iff an edit was made. |
| Render.OutDir.Reconcile | internal/certific/render.go:201-286 | The three steps in order, each only after the one before has succeeded. |
| Render.OutDir.Render | internal/certific/render.go:188-286 | live/, the edit log, `changed` and the error are those of the specification, for all fault patterns; a successful Render leaves no new staging file. |
| RenderLaws.ReconcileShape | internal/certific/render.go:248-286 | After any number of edits, live/ is the old files overlaid with a prefix of the wanted ones, minus unwanted files only once all wanted ones are there. |
| RenderLaws.StateShape | internal/certific/render.go:169-187 | The same for every intermediate state of a whole Render. |
| RenderLaws.RenderExact | internal/certific/render.go:166-168 | A Render without error leaves exactly the wanted files, whatever was there before. |
| RenderSafety.DistinctStemsDistinctNames | internal/certific/render.go:235-241 | With distinct stems, all files, the index included, have distinct names. |
| RenderSafety.PlainMainsNeedNoTags | internal/certific/render.go:221-238 | Certificates for different plain hosts get distinct, untagged stems. |
| RenderSafety.RenderServesPairs | internal/certific/render.go:235-271 | With distinct stems and a live/ path without newlines, after a successful Render `tls.yml` lists, for each certificate in order, a path ending in `.crt` at which live/ holds its chain and one ending in `.key` at which it holds its key. |
| RenderSafety.IndexClosedThroughout | internal/certific/render.go:172-183 | From a closed index, after any number of edits of any Render, `tls.yml` is absent or names only files that are there. |
| RenderSafety.OldOrNew | internal/certific/render.go:288-293 | If no two files share a name but not their contents: in every intermediate state each file is as before the Render or as wanted after it. |
| RenderTearing.OldOrNewIff | internal/certific/render.go:288-293 | Each file is old or new in every state of every Render iff no two files share a name but not their contents (or there is no out-dir). |
| RenderSafety.AtMostOneTorn | internal/certific/render.go:248-276 | With distinct stems: at every moment at most one certificate has neither its old nor its new pair; none has from the end of step 1 on, nor when the index is new. |
| RenderTearing.TornOnlyIfBothChange | internal/certific/render.go:172-183 | With distinct stems: in no state of any Render is a pair torn of which only one file changes; whenever one is torn, the index is the old one. |
| RenderTearing.TornIff | internal/certific/render.go:248-276 | With distinct stems: a successful Render has a pair torn after some number of edits iff both its files change. |
| RenderTearing.RenewalTears | internal/certific/render.go:176-178 | With distinct stems before and after: every successful Render of a certificate with a new chain and key passes through a state whose index names the pair of files that hold the new chain and the old key. |
| RenderSafety.PrivateThroughout | internal/certific/render.go:295-313 | If all files have mode 0600, they do after any edits. |
| RenderEconomy.NoEditWasted | internal/certific/render.go:185-187 | If no names clash and existing files can be read: edits made plus differences left equal the differences there were, however the Render ends. |
| RenderEconomy.MinimalEdits | internal/certific/render.go:185-188 | Under the same conditions a successful Render makes exactly one edit per differing name, no other way there is shorter, and `changed` says whether there was any. |
| RenderEconomy.SecondRenderSilentIff | internal/certific/render.go:185-187 | If existing files can be read, a second successful Render of the same list makes no edit iff no two files share a name but not their contents. |
| RenderEconomy.RenderSucceedsIff | internal/certific/render.go:188-286 | When no system call fails of itself, Render succeeds iff it has an out-dir and no directory stands at a wanted name. |
| RenderEconomy.RenderErrorCause | internal/certific/render.go:188-340 | Each error has its cause: the system call and the file that it names. |
| RenderEconomy.DirectoryFaultStops | internal/certific/render.go:189-199 | An empty out-dir or a directory that cannot be made ends the Render before any edit, with that error; one that cannot be listed is an error. |
| RenderEconomy.FileFaultStops | internal/certific/render.go:297-315 | A file that is missing, wrong or unreadable and cannot be staged, made private or renamed ends the Render with that error before any further edit. |
| RenderEconomy.RemoveFaultStops | internal/certific/render.go:327-338 | So does a stale file that cannot be removed, after the removals before it. |
| RenderEconomy.ChangedOnError | internal/certific/render.go:249-283 | A Render that fails reports a change iff it has written a file. |
| Backoff.DoublingDelay | internal/certific/uploader.go:309-315 | With multiplier 2 and Initial at most Max, the nth delay is min(Max, Initial * 2^n). |
| Backoff.NextDelayIs | internal/certific/uploader.go:309-315 | For any multiplier the next delay is the product, rounded down, capped at Max. |
| Backoff.UnsetIsProduction | internal/certific/uploader.go:94-116 | A zero configuration is paced by 1 s, 60 s, factor 2, jitter 0.2, and any other as it stands. |
| Backoff.UnsetDelays | internal/certific/uploader.go:94-116 | For a zero configuration the nth delay is 2^n s, but no more than 60 s. |
| Backoff.JitterBounds | internal/certific/uploader.go:317-328 | Whatever the draw, a sleep lies between (1-f)d, rounded down, and (1+f)d. |
| Backoff.JitterIs | internal/certific/uploader.go:317-328 | A sleep moves evenly with the draw from (1-f)d to (1+f)d, rounded down and never negative; without jitter it is d. |
| Backoff.DefaultPacing | internal/certific/uploader.go:94-99 | By default the third retry is at least 5.6 s after the first attempt. |
| Backoff.MinElapsedMonotone | internal/certific/uploader.go:309-328 | The least time n retries take grows with n. |
| Downloader.Downloader.constructor | internal/certific/downloader.go:42-69 | A new process remembers no etag and no sync. |
| Downloader.Downloader.RenderEmpty | internal/certific/downloader.go:245-258 | Renders no certificates; on success moves lastSync only, lastEtag stays. |
| Downloader.Downloader.RenderBody | internal/certific/downloader.go:188-234 | From the Get body to the end: read error, blank body, parse error, Render error, or a new etag (Head's, else Get's) and sync. |
| Downloader.Downloader.TryCycle | internal/certific/downloader.go:161-234 | One Head-then-maybe-Get pass, all branches, with Head and Get reading different versions. |
| Downloader.Downloader.Cycle | internal/certific/downloader.go:130-154 | The state, attempts used and result are those of `CycleSpec`; after the ith failure it sleeps for the jittered ith delay of the backoff. |
| Downloader.Downloader.Run | internal/certific/downloader.go:94-124 | Refuses a non-positive interval; else runs cycle after cycle, the first at once, until one is cancelled, sleeping after each failure as the configuration says, or a zero one as production does. |
| Downloader.ProductionSleeps | internal/certific/downloader.go:101-152 | In production the kth sleep of a cycle aims, with its draw, at 2^k s but no more than 60, give or take a fifth. |
| Downloader.CycleIs | internal/certific/downloader.go:126-154 | A cycle returns only on cancellation or after an attempt that does not fail; every attempt before failed. |
| Downloader.RunIsExec | internal/certific/downloader.go:94-124 | The polling loop is the run of exactly the attempts it makes, so the laws about runs apply to it. |
| DownloaderLaws.FreshIsTruthful | internal/certific/downloader.go:175-177 | Etags never reused are truthful. |
| DownloaderLaws.AttemptEnds | internal/certific/downloader.go:161-234 | Each way to end is characterised: skipped, Head, Get, body or parse failure, empty, fetched; a body counts as empty iff it is all white space. |
| DownloaderLaws.WhiteSpaceRendersEmpty | internal/certific/downloader.go:195-202 | Without faults, a fetched body empties the directory through renderEmpty, succeeding and leaving lastEtag, iff all its characters are white space. |
| DownloaderLaws.AttemptShape | internal/certific/downloader.go:161-234 | An attempt leaves the directory alone or renders what its version calls for, past a Head that does not report lastEtag; lastEtag changes only on a complete fetch, to Head's etag, else Get's. |
| DownloaderLaws.TryKeepsInv | internal/certific/downloader.go:130-234 | With truthful etags an attempt keeps the cache invariant: if lastEtag is the Head etag of the version read or a later one, live/ is what that version calls for. |
| DownloaderLaws.CacheStep | internal/certific/downloader.go:130-258 | With truthful etags, so does any event, including death after any number of edits. |
| DownloaderLaws.CacheInvariant | internal/certific/downloader.go:130-258 | With truthful etags the invariant holds in every reachable gateway state. |
| DownloaderLaws.AttemptsMatchFetching | internal/certific/downloader.go:161-234 | With truthful etags, in every reachable state an attempt that does not fail leaves what always fetching that version would, whether it fetched or skipped. |
| CacheExactness.UnsoundRun | internal/certific/downloader.go:175-177 | Where etags are not truthful, a gateway starting on an empty directory is led, by at most two attempts, to skip over wrong contents. |
| CacheExactness.SkipsSoundIff | internal/certific/downloader.go:161-234 | For every history: all skips of all runs are sound iff every etag that comes back stands for the same files, as does everything that could have been rendered since it was remembered (or there is no out-dir). |
| CacheExactness.ContentEtagsSoundIff | internal/certific/downloader.go:175-177 | With content-hash etags: iff whatever could be rendered between remembering a content and its return calls for the same files, silently if other content was there. |
| CacheExactness.RestoredContentUnsound | internal/certific/downloader.go:175-177 | An object replaced by something that calls for other files, and then put back, breaks it. |
| CacheExactness.DeletedOrBlankedUnsound | internal/certific/downloader.go:195-258 | So does one with certificates that is deleted or blanked, and then put back. |
| CacheExactness.GarbageBetweenSoundIff | internal/certific/downloader.go:204-210 | An unparsable version in between does not, unless two files of the object share a name but not their contents. |
| GatewayRuns.IndexAlwaysClosed | internal/certific/render.go:172-183 | From a closed index, over every run, between any two edits, through failed attempts, deaths and restarts, the index names only files that are there. |
| GatewayRuns.VersionsNeverGoBack | internal/certific/downloader.go:130-234 | Over every run, each event edits live/ by a first part of a Render of one version, and a later event's version is no older, across failures, deaths and restarts. |
| GatewayRuns.EmptiedOnlyBy | internal/certific/render.go:169-187 | At every instant of every event, only a version that is absent, blank or parses to no certificates empties a live/ that was not empty. |
| GatewayRuns.FetchesIncrease | internal/certific/downloader.go:175-224 | Where Head reports etags, complete fetches follow strictly increasing Head versions, so there are at most as many as versions. |
| GatewayRuns.SettledAttempt | internal/certific/downloader.go:161-234 | A gateway that remembers a version's etag, or holds its files without clashes, makes no edit on an attempt at it (if existing files can be read) and stays settled; its etag changes only to that of a fetch that was not skipped. |
| GatewayRuns.StableObjectQuiet | internal/certific/downloader.go:130-154 | Over any number of attempts at a stable object, whether or not Head reports its etag, the same holds. |
| GatewayRuns.CompletedAttemptSettles | internal/certific/downloader.go:217-225 | An attempt that does not fail settles a gateway, unless Head reports no etag and names clash. |
| GatewayRuns.DamageRepairedIff | internal/certific/downloader.go:175-225 | A damaged directory is repaired by the next undisturbed attempt iff Head does not report the remembered etag. |
| GatewayRuns.AttemptFrame | internal/certific/downloader.go:140-152 | lastSync advances exactly on attempts that do not fail; a failed one leaves lastEtag, and live/ too unless it failed inside Render. |
| GatewayRuns.FailuresFrame | internal/certific/downloader.go:130-154 | However many attempts fail, lastEtag and lastSync stay. |
| Uploader.Uploader.constructor | internal/certific/uploader.go:37-56 | A new process has no dedup hash and no debounce. |
| Uploader.Uploader.WriteFileAtomic | internal/certific/uploader.go:349-376 | Path gets the data and mode 0600, or stays as it was; a temporary file stays behind only if its removal fails. |
| Uploader.Uploader.Bootstrap | internal/certific/uploader.go:212-243 | A missing object only syncs; an object overwrites Path and seeds the hash; a failed Get, body or write stops the process. |
| Uploader.Uploader.ScheduleUpload | internal/certific/uploader.go:144-158 | The debounce is due one full window from now. |
| Uploader.Uploader.Put | internal/certific/uploader.go:289-305 | Success records the hash and syncs; failure ends the upload if ctx is done, else sleeps for the jittered delay. |
| Uploader.Uploader.RetryLoop | internal/certific/uploader.go:287-307 | The loop repeats the same bytes until success or cancellation, following Next. |
| Uploader.Uploader.UploadWithRetry | internal/certific/uploader.go:248-307 | Missing or unreadable file, non-JSON, unchanged hash, or the retry loop. |
| Uploader.Uploader.HandleEvent | internal/certific/uploader.go:173-181 | A received event re-arms the debounce iff it matches Path. |
| Uploader.Uploader.Select | internal/certific/uploader.go:160-191 | One select of the event loop, for each case that can be ready. |
| Uploader.Uploader.Run | internal/certific/uploader.go:104-192 | On every script the final state is that of the step function. |
| UploaderLaws.HashStep | internal/certific/uploader.go:276-305 | Each step keeps: while ctx lives outside an upload, the dedup hash is the hash of the store's content. |
| UploaderLaws.AlwaysHashTrue | internal/certific/uploader.go:45-49 | So it is in every reachable state, whatever the hash function. |
| UploaderLaws.QuietStep | internal/certific/uploader.go:117-192 | Each step keeps: what is not pending is published, is what is being uploaded, or could not be read. |
| UploaderLaws.Reachable | internal/certific/uploader.go:104-307 | It holds in every reachable state. |
| UploaderLaws.Quiescence | internal/certific/uploader.go:21-36 | Idle, ctx live, no event queued that announces new content of Path, and debounce disarmed: Path is missing, not JSON, or what the store holds, or the last upload could not read it. |
| UploaderLaws.DedupHash | internal/certific/uploader.go:45-49 | At every loop head with ctx live, the dedup hash is the hash of the store's content, whatever became of failed Puts. |
| UploaderLaws.SyncIsHonest | internal/certific/uploader.go:51-72 | lastSync moves only to the present, and only when the store is empty or its content has the dedup hash. |
| UploaderLaws.SyncsWhenKnown | internal/certific/uploader.go:224-303 | It moves when bootstrap ends well, when a Put succeeds, and when an upload finds Path unchanged. |
| UploaderLaws.PutsAreGood | internal/certific/uploader.go:259-286 | Every body ever put is valid JSON, and no successful Put repeats the one before it. |
| UploaderPacing.AlwaysPaced | internal/certific/uploader.go:287-299 | The nth retry of an upload starts no sooner than the n shortest sleeps allow, whatever the draws. |
| UploaderPacing.AttemptsSpaced | internal/certific/uploader.go:287-299 | Two attempts of one upload are at least as far apart as the shortest sleeps between them. |
| UploaderPacing.FlushAtMostThreePuts | internal/certific/uploader.go:83-99 | With the backoff left unset, at most three Puts are made once the shutdown flush has begun. |
| UploaderPacing.FlushLastsFiveSeconds | internal/certific/uploader.go:85-91 | A flush begins when ctx.Done is received and retries until five seconds have passed, no shorter and no longer. |
| UploaderPacing.UnsetPacing | internal/certific/uploader.go:112-115 | With the backoff left unset, the delay in force at the nth retry of any upload is 2^n s, but no more than 60 s. |
| UploaderPacing.DeliveryArmsIff | internal/certific/uploader.go:173-206 | A delivered event leaves the queue and puts the debounce off to a full window (500 ms unless set) iff it names Path and is a write, create or rename; nothing else changes. |
| UploaderPacing.AlwaysDebounced | internal/certific/uploader.go:140-158 | An armed debounce is due one window after the last matching event, and uploads begun or owed never outnumber matching events. |
| UploaderPacing.UploadWaitsFullWindow | internal/certific/uploader.go:187-189 | A debounce-driven upload begins only after a full window (500 ms unless set) without a matching event. |
| UploaderPacing.UploadsPerEvents | internal/certific/uploader.go:140-191 | Between any two moments, uploads begun or owed grow by no more than the matching events handled. |
| UploaderPacing.BurstCoalesces | internal/certific/uploader.go:144-189 | A burst with gaps shorter than the window begins no upload and owes exactly one at its end. |
| UploaderLaws.StoreGainsValid | internal/certific/uploader.go:259-289 | The store keeps what it had and only gains valid JSON. |
| UploaderRuns.CanSettle | internal/certific/uploader.go:160-191 | From any reachable state with ctx live, uploads and the start included, the process can come to rest, undisturbed, with Path published, unless Path could not be read and nothing is pending. |
| UploaderRuns.RestLasts | internal/certific/uploader.go:160-191 | With nothing pending, an undisturbed process puts nothing, so a Path it could not read stays unpublished. |
| UploaderRuns.BootIsSilent | internal/certific/uploader.go:135-138 | With an object in the store, an undisturbed process copies it to Path and never puts anything, and its initial upload ends in sync. |
| UploaderRuns.FirstDeployUploads | internal/certific/uploader.go:214-225 | With none, an undisturbed process keeps Path, puts nothing else, and is not idle before a readable JSON Path is in the store. |
| UploaderRuns.StopsIff | internal/certific/uploader.go:117-186 | While ctx lives the process stops iff bootstrap's Get, body or write fails, the watch cannot be added, or the watcher closes. |
| UploaderShutdown.RebootKeepsPathIff | internal/certific/uploader.go:213-241 | The next boot keeps Path iff the store is empty or holds the same content. |
| UploaderShutdown.StopKeepsPathIff | internal/certific/uploader.go:162-172 | From any state in which ctx.Done is received, however the flush goes: Path survives iff the store was empty or held it, or the debounce was armed, Path was readable, new JSON, and a flush Put took effect. |
| UploaderShutdown.AlwaysDisarmed | internal/certific/uploader.go:187-189 | In every reachable state with ctx live, the debounce is disarmed before the event loop and during uploads. |
| UploaderShutdown.ShutdownKeepsPathIff | internal/certific/uploader.go:160-172 | For every reachable state at cancellation once bootstrap is over (before the watch or the initial upload, loop, Put in flight, retry sleep), a readable Path and a working flush: Path survives iff the store is empty or holds it once the Put in flight or of the initial upload has ended, or the loop had the debounce armed and Path is JSON. |
| UploaderShutdown.LostOnlyIf | internal/certific/uploader.go:162-172 | A readable JSON Path is lost only if an event about it was still queued, or its upload was under way, or the initial one still ahead, without a Put that took effect. |
| UploaderShutdown.QueuedChangeIsLost | internal/certific/uploader.go:162-172 | A run that loses a change whose event is queued. |
| UploaderShutdown.AbandonedRetryIsLost | internal/certific/uploader.go:290-297 | A run that loses a change, with nothing queued or armed, by abandoning its retry. |
| EndToEnd.OnlyStoredIsRendered | internal/certific/downloader.go:195-215 | Once the issuer has put anything, an attempt finds no version absent or blank, and each edit renders a parsed body that was in the store. |
| EndToEnd.EmptiedOnlyByNothing | internal/certific/downloader.go:204-212 | From then on, at no instant is a gateway's directory emptied but by a version that parses to no certificates. |
| EndToEnd.EmptiesIff | internal/certific/downloader.go:161-234 | With truthful etags, over every run, an attempt that does not fail leaves an empty directory iff the version it answers for parses to no certificates. |
| EndToEnd.EmptyFileReachesEveryGateway | internal/certific/uploader.go:259-289 | An acme.json without usable entries, such as `{}`, written over a good one, passes the gate and can empty every gateway. |
| EndToEnd.EmptyFileEmptiesGateway | internal/certific/downloader.go:204-217 | A gateway that holds certificates and then meets such a version is left with an empty index. |
| EndToEnd.NewestDelivered | internal/certific/downloader.go:161-234 | If the newest content parses, one undisturbed attempt gives it to any gateway, from any reachable state, with truthful etags. |
| EndToEnd.Convergence | internal/certific/uploader.go:104-192 | Once the uploader is quiet, and has read a Path that parses, that attempt leaves every gateway with exactly the files of Path. |
| EndToEnd.IssuedCanReachEveryGateway | internal/certific/uploader.go:160-191 | From any reachable state after bootstrap with ctx live and a Path that parses (and is not an unreadable one with nothing pending), such quiet can be reached without anyone else acting, and delivers that Path. |

## Assumptions

- Strings and file contents are sequences of code points. Go's byte-wise string order is the order of
  code points on UTF-8 text; `[]byte(s)` is taken to be `s`.
- JSON decoding, `json.Valid`, base64 and sha256 are parameters. Results that need the hash to be
  collision-free, or decodable text to be valid JSON, say so in their `requires`.
- Reads of the store are linearizable, one uploader writes it, and a Put that failed has had its effect,
  if any, by the time it returns.
- Every content change of Path queues a write, create or rename event on it once the watch exists, and Stop, drain and Reset
  leave no stale tick. A sleep under an expired ctx ends at once.
- Delays are computed over the reals, as `float64` would without rounding.

## Left out

- Downloader.Downloader.Cycle: the time of an attempt is not computed from the sleeps before it.
- UploaderShutdown.ShutdownKeepsPathIff: takes ctx.Done to be received at once after cancellation; when `select` receives queued events first, StopKeepsPathIff applies to the state it then reaches.
- Render.OutDir.WriteFileIfChanged: `.staging/` holds files only, and a write there fails for no other reason than a fault.
- RenderSafety.PrivateThroughout: needs the old files private too, since a file whose content is unchanged keeps its mode.
- RenderSafety.IndexClosedThroughout: needs an out-dir path without newlines, and reads the index with a line-based reader, not a YAML parser.
- GatewayRuns.FetchesIncrease: is about the versions seen at Head; two complete fetches can Get the same version when the object changed between Head and Get (VersionsNeverGoBack is about those).
- DownloaderLaws.CacheInvariant: assumes that nobody else writes live/.
- The AWS client, error mapping and `NewS3Store`: foreign plumbing behind the three store operations.
- Configuration loading and validation, the command line, logging, health server and signal handling.
- `filepath.Join` and `Clean`: the cleaned path of live/ is a parameter, and event names are compared beforehand.
- Directory modes, umask beyond the staging file's first mode, symbolic links, modification times.
- Sweeping of old staging files, which the code does not do either.
- Widths of Go integers: counts and durations are unbounded.
- Inotify, Traefik's reload and Go's timers themselves.
