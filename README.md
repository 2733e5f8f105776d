# Attack live map: geo enrichment, sync daemon and flag emoji, in Dafny

This project models two pieces of the attack live map's web back end.

The first is the background sync daemon (`web/sync_daemon.py`). It fetches the
remote event list. It then picks the records that still lack geographic data:
a truthy `src_ip`, and either `lat` is `None` or `country` is `'N/A'`/`None`.
It resolves each distinct source IP once through a memoised geo-database
lookup. It fills those records in place, publishes the whole list once and
returns how many records it filled. Around that pass sit:

- the lazily opened geo reader;
- the mapping from a database answer to a location dict;
- the merge of that dict into a record;
- the start/stop lifecycle.

The second is `get_flag_emoji` (`web/utils.py`). It turns an ISO 3166-1
alpha-2 country code into its two regional-indicator code points
(U+1F1E6..U+1F1FF). Anything else becomes the white flag "🏳️"
(U+1F3F3 U+FE0F).

Files and modules:

- `wrappers.dfy` (`Wrappers`): `Option`.
- `flags.dfy` (`Flags`): the flag encoder, its inverse `DecodeFlag`, and the
  round-trip, injectivity and case-insensitivity lemmas.
- `records.dfy` (`Records`): JSON values and records. Also the needs-enrichment
  predicate, payload normalisation, the set of IPs to resolve and the fill count.
- `geo.dfy` (`GeoLookup`): the geo database as a total lookup (a map; a missing
  key is a miss). Also the location dict of `_get_location_for_ip`, the merge of
  `_fill_location_info`, and the fill pass as a function of the warm cache.
  A database path that exists but cannot be opened is its own case: its
  error is not caught, so it escapes the lookup and the sync pass.
- `sync.dfy` (`SyncDaemon`): class `SyncService`, which holds the module globals:
  - the reader;
  - the memo cache;
  - a ghost log of every database query;
  - the `_started`, thread and stop-flag state;
  - the published snapshots.

  Its methods are the imperative parts of the daemon, each proved against the
  functions above.

Modelling choices:

- A Python string is a sequence of code points (`int`s below 0x110000).
- JSON numbers, coordinates among them, are opaque tokens. No floating point is
  involved.
- The state of the database file is a parameter of every call that may open
  it. So is the fetched document, as an `Option<Payload>`: `None` for a failed
  fetch or a JSON `null` body.

Four behaviours of the code shape the model:

- `_get_geoip_reader` stores nothing when the database is missing or invalid.
  It tries to open it again on every lookup that misses the memo cache.
- The memo cache keeps a `None` result (no reader, or an empty IP) for its
  IP, so that IP is never looked up again.
- A database miss or a lookup exception gives `{'country': 'Unknown'}`. A hit
  without a location gives `lat`/`lon` keys holding `None`, so a record can end
  up with a country and no coordinates.
- The memo cache is the `lru_cache` decorator. It lives as long as the process
  and `stop_sync_daemon` does not clear it.

## Model

| member | source | states |
|---|---|---|
| `Flags.FlagEmoji` | attack-map-main/web/utils.py:3-17 | the output is always exactly two code points: either the white flag or two regional indicators in U+1F1E6..U+1F1FF |
| `Flags.UpperOne` | attack-map-main/web/utils.py:11-12 | `str.upper` on one character: several characters exactly for the 102 expanding code points; a capital gives itself, a..z gives the matching capital, U+0131 gives 'I' and U+017F gives 'S', and no other character gives an ASCII capital |
| `Flags.FlagEmojiAsWritten` | attack-map-main/web/utils.py:5-17 | the code as written either raises `TypeError`, which needs a two-character string, or returns two code points that are the white flag or two regional indicators |
| `Flags.Indicator` | attack-map-main/web/utils.py:10-17 | `base + letter - ord('A')` for a capital lies in U+1F1E6..U+1F1FF |
| `Flags.DecodeFlag` | attack-map-main/web/utils.py:17 | the inverse reading: defined exactly on pairs of regional indicators, and it yields two capitals |
| `Flags.FallbackIsWhiteFlag` | attack-map-main/web/utils.py:5-15 | the white flag comes out if and only if the argument is not a two-character string whose upper-cased characters are both in 'A'..'Z' (non-string, wrong length, non-letter) |
| `Flags.FlagRoundTrip` | attack-map-main/web/utils.py:11-17 | decoding the flag of a valid code gives back its upper-cased code; the fallback decodes to nothing |
| `Flags.FlagOfDecoded` | attack-map-main/web/utils.py:17 | every pair of regional indicators is the flag of the code it decodes to, so the encoder is onto those pairs |
| `Flags.FlagInjective` | attack-map-main/web/utils.py:17 | two valid codes with the same flag agree after upper-casing |
| `Flags.FlagIgnoresCase` | attack-map-main/web/utils.py:11-12 | upper-casing the two characters first does not change the output, so "us" and "US" share a flag |
| `Flags.LowerCaseSharesFlag` | attack-map-main/web/utils.py:11-12 | any two lower-case ASCII letters form a valid code whose flag equals the flag of the same letters in upper case |
| `Flags.UnitedStatesFlag` | attack-map-main/web/utils.py:9 | "US" and "us" both give U+1F1FA U+1F1F8 |
| `Flags.AsWrittenRaisesOnSharpS` | attack-map-main/web/utils.py:11-12 | as written, "ßA" raises `TypeError`; the corrected encoder gives the white flag |
| `Flags.AsWrittenAgreesOtherwise` | attack-map-main/web/utils.py:5-17 | the code as written raises exactly when a character of a two-character string expands on upper-casing, and otherwise returns what the corrected encoder returns |
| `Records.Normalise` | attack-map-main/web/sync_daemon.py:123 | a list is kept as it is, an object becomes a one-element list, and anything else becomes the empty list |
| `Records.NormalisedEmpty` | attack-map-main/web/sync_daemon.py:123-124 | the normalised list is empty exactly for an empty array or a scalar, and an object always gives one record |
| `Records.NeedsEnrichment` | attack-map-main/web/sync_daemon.py:129 | a record needing enrichment has a truthy `src_ip` and lacks `lat`, has a null `lat`, lacks `country`, or has a null or 'N/A' `country`; a truthy `src_ip` with `lat` or `country` absent always needs it |
| `Records.AllRecords` | attack-map-main/web/sync_daemon.py:127-130 | the result exists exactly when every list element is an object, and it then holds those objects in the same order. |
| `Records.UniqueIps` | attack-map-main/web/sync_daemon.py:127-130 | an IP is collected if and only if some record with that `src_ip` needs enrichment; every collected IP is truthy |
| `Records.CountNeeding` | attack-map-main/web/sync_daemon.py:139-143 | the number of records that need enrichment is at most the list length, and is zero exactly when no record needs it |
| `Records.UniqueIpsAtMostCount` | attack-map-main/web/sync_daemon.py:127-143 | there are never more distinct IPs to resolve than records filled |
| `Records.SharedIpResolvedOnce` | attack-map-main/web/sync_daemon.py:127-130 | N records sharing one IP that all need enrichment give that IP once, and N fills |
| `Records.CountAllNeeding` | attack-map-main/web/sync_daemon.py:139-143 | when every record needs enrichment the fill count is the list length |
| `GeoLookup.Opened` | attack-map-main/web/sync_daemon.py:30-44 | an open reader is kept as it is; otherwise a reader exists afterwards exactly when the file is a valid database, and it is that database |
| `GeoLookup.OpenedIsIdempotent` | attack-map-main/web/sync_daemon.py:32-44 | asking for the reader again after it is open changes nothing |
| `GeoLookup.LocationOf` | attack-map-main/web/sync_daemon.py:53-64 | a hit gives exactly `lat`, `lon` and `country`, with the country defaulting to "Unknown"; a miss or an exception gives exactly `{'country': 'Unknown'}` |
| `GeoLookup.Resolve` | attack-map-main/web/sync_daemon.py:49-64 | the result is `None` if and only if there is no reader or the IP is falsy; otherwise it is a location dict with a string country and no key beyond the three geo keys |
| `GeoLookup.Filled` | attack-map-main/web/sync_daemon.py:67-76 | a non-empty location overwrites exactly its own keys and keeps every other key; `None` or an empty dict (false for `if location_data:`) sets `country` to "Unknown" and keeps every other key |
| `GeoLookup.FilledIsIdempotent` | attack-map-main/web/sync_daemon.py:74 | merging the same location twice is merging it once |
| `GeoLookup.HitSettlesRecord` | attack-map-main/web/sync_daemon.py:55-61 | a hit with a latitude and a country name other than "N/A" leaves the record no longer needing enrichment |
| `GeoLookup.MissKeepsCoordinatesPending` | attack-map-main/web/sync_daemon.py:61-64 | a miss or a failed lookup sets the country to "Unknown", and the record still needs enrichment exactly when it has no latitude |
| `GeoLookup.FillOne` | attack-map-main/web/sync_daemon.py:141-142 | a record that does not need enrichment is returned unchanged; one that does keeps all its keys and its `src_ip` and ends with a string `country` |
| `GeoLookup.FillPass` | attack-map-main/web/sync_daemon.py:139-143 | the fill keeps the list's length and order, leaves every record that does not need enrichment untouched, and merges each other record's cached location |
| `GeoLookup.FillOneIsIdempotent` | attack-map-main/web/sync_daemon.py:67-76 | a filled record keeps its `src_ip`, so filling it again from the same cache gives the same record |
| `GeoLookup.FillPassIsIdempotent` | attack-map-main/web/sync_daemon.py:139-143 | running the fill pass again from the same cache changes nothing |
| `SyncDaemon.UniqueIpsCoverNeeding` | attack-map-main/web/sync_daemon.py:127-142 | a cache holding every collected IP holds the IP of every record the fill loop fills |
| `SyncDaemon.SyncService.constructor` | attack-map-main/web/sync_daemon.py:21-27 | at import there is no reader, no cache entry, no query, nothing published; not started, no thread, stop flag clear |
| `SyncDaemon.SyncService.GetReader` | attack-map-main/web/sync_daemon.py:30-44 | the stored reader becomes `Opened(old reader, file)`: an open reader is reused, a missing or invalid file stores nothing, and the call raises exactly when no reader is open and the file cannot be opened |
| `SyncDaemon.SyncService.GetLocation` | attack-map-main/web/sync_daemon.py:46-64 | a cached IP is answered from the cache with no query and no other change; for a new IP an uncaught open error escapes with nothing cached; otherwise the IP opens the reader if it can, is resolved, is cached, and queries the reader exactly once if a reader is open and the IP is truthy |
| `SyncDaemon.SyncService.FillLocationInfo` | attack-map-main/web/sync_daemon.py:67-76 | a record with a falsy `src_ip` is left alone and nothing is looked up; if the lookup raises, no record changes; otherwise that one record becomes its merge with the looked-up location, and no other record changes |
| `SyncDaemon.SyncService.WarmCache` | attack-map-main/web/sync_daemon.py:132-136 | it raises, changing nothing, exactly when no reader is open, the file cannot be opened and some IP is not cached; otherwise the cache keys are the old keys plus the IPs, old entries are kept, each new IP is resolved with the reader as opened, the reader is opened only if some IP was new, and the new queries have no repeats and are exactly the new IPs a reader could resolve |
| `SyncDaemon.SyncService.FillAll` | attack-map-main/web/sync_daemon.py:139-143 | the array becomes `FillPass` of its old contents, the count equals `CountNeeding`, and the cache, reader and query log are unchanged, so the warm cache makes the fill query nothing |
| `SyncDaemon.SyncService.EnrichAndPublish` | attack-map-main/web/sync_daemon.py:126-148 | an open error during the warm-up raises with nothing changed or published; otherwise the cache is warmed with `UniqueIps`, the filled list is published exactly once, and the fill count is returned |
| `SyncDaemon.SyncService.SyncOnce` | attack-map-main/web/sync_daemon.py:119-148 | a failed fetch or an empty normalised list returns 0 with nothing published and no lookup; a list with a non-object element raises with no state changed; an open error during the warm-up raises with no state changed and nothing published; otherwise the cache is warmed, the filled list is published once and the fill count is returned |
| `SyncDaemon.SyncService.Start` | attack-map-main/web/sync_daemon.py:162-170 | starting while started changes nothing; afterwards the daemon is started, has a thread and the stop flag is clear |
| `SyncDaemon.SyncService.Stop` | attack-map-main/web/sync_daemon.py:172-182 | stopping while not started changes nothing, the reader included; otherwise the stop flag is set, the thread handle cleared, `started` false, and the reader closed and cleared; the cache is kept |

## Left out

- S3 access (`_s3_client`, `_read_s3_json`, sync_daemon.py:79-102) is not part of this model: network, credentials and JSON parsing. Its result is the `fetched: Option<Payload>` parameter of `SyncOnce`.
- `_atomic_write_json` and `_ensure_local_dir` (sync_daemon.py:86-116): the temporary file and rename are not modelled. Publishing appends the whole list to `published`, once per pass. Filesystem errors are not modelled.
- `_loop`, the interruptible wait, `threading.Thread`, `join(timeout=2)` and both locks: operations run one at a time. The thread is a flag. A loop still running after the two-second join is not modelled.
- SyncDaemon.SyncService.GetLocation: the cache is unbounded, so the eviction of `lru_cache(maxsize=4096)` is not modelled. With more than 4096 distinct IPs the source may query the database again for an evicted IP.
- maxminddb internals: the database is a map from IP value to answer. Any exception inside the `try` (a bad address, a malformed record) is the single answer `LookupError`. The file's state is passed to every call that may open it.
- JSON booleans, arrays and objects as record values are not modelled; a record value is null, a string or an opaque number. In the source, an array or object as the `src_ip` of a record that needs enrichment makes the set comprehension (sync_daemon.py:127-130) raise `TypeError` before any lookup. That case cannot occur in the model.
- Coordinates and other numbers are opaque tokens, because no arithmetic is done on them. `interp` (utils.py:19-21) is floating-point interpolation and is left out.
- Flags.UpperOne: for a character whose upper-case form is a single non-ASCII character, the model keeps the character itself. Only its lying outside 'A'..'Z' matters, and that is the same for both.
- Log messages (`print`) are not modelled.
- `web/data_handler.py`, `web/ui_components.py`, `web/config.py` and the Streamlit pages are not part of this model: DataFrame shaping, UI and configuration.
- Session classification is not part of this model.

## Findings

| source | as written | input that shows it | evidently intended | confidence | as-written member | corrected member |
|---|---|---|---|---|---|---|
| attack-map-main/web/utils.py:11-12 | `ord(country_code[0].upper())` raises `TypeError` when a character upper-cases to several characters | "ßA" ('ß'.upper() is "SS") | the white flag, as for every other code that is not two letters | high (Unicode case tables); not executed | `Flags.FlagEmojiAsWritten` | `Flags.FlagEmoji` |
