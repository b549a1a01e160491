# namemc-api lookup caches, modelled in Dafny

The library caches records it fetches from the NameMC web API: which players
liked a server, and who a profile's friends are. Three classes do the caching,
and each works the same way. The cache holds a map from a key to a record. A
record is valid while less than the time-to-live has passed since it was
captured. A lookup either answers from the map or sends a fetch task to a
thread pool. The task stores the fetched record and passes it to the caller's
callback, or passes the exception instead. This project models:

- `ServerApi.ServerService` (`co.jaqobb.namemc.api.server.ServerService`): the key is the lower-cased ip. The time-to-live is a `TimeUnit` duration, ten minutes by default.
- `ProfileApi.ProfileService` (`co.jaqobb.namemc.api.profile.ProfileService`): the key is the profile's UUID. The default time-to-live is five minutes.
- `Repository.ServerRepository` (`dev.jaqobb.namemc_api.repository.ServerRepository`): the key is the lower-cased address. The time-to-live is a `java.time.Duration`, ten minutes by default. This class adds `addServer` (put-if-absent) and `removeServer`.
- `Data.Server` (`dev.jaqobb.namemc_api.data.Server`) and `NapiData.Server` (`co.jaqobb.napi.data.Server`): the immutable server records.

How the model is built:

- The clock is a parameter `now`, in epoch milliseconds.
- A Java reference that may be null is a `Lang.Option`.
- A call that may throw returns a `Lang.Result`.
- Each cache is a class whose map is a field that its methods reassign.
- The asynchronous `get`/`cacheServer` is split into two steps:
  - `Request` says what the call does before it returns: whether it calls back with a cached record (`answer`) and whether it dispatches a fetch (`fetch`).
  - `Complete` applies the outcome of one dispatched fetch to the map and returns what the callback receives.
- Each cache keeps an invariant `Valid()` that the source's code keeps implicitly. In `ServerService`, every server is stored under its lower-cased ip. In `ProfileService`, every profile is stored under its own id. In `ServerRepository`, every server is stored under its own address, which `Data.Server` always holds in lower case.
- Because the two steps are separate, interleaved lookups can be written as plain sequences of calls. `ProfileApi.LastCompletionWins` is one such sequence.

Where the code and the library's design description disagree, the model follows the code:

- `ServerService.getServer` has no `return` after the cache-hit callback (ServerService.java:225-233). A hit therefore calls back with the cached server and still dispatches a fetch, so the callback fires twice (`ServerApi.HitAnswersTwice`). `ProfileService` and `ServerRepository` do return.
- The two older services catch only `IOException` in the fetch task. Any other exception, such as a malformed JSON body, leaves the task without calling the callback. The model keeps that case (`Caching.Fetch.RuntimeFailure`). `ServerRepository` catches every `Exception`.
- `TimeUnit.toMillis` truncates. `ofCustom(1, NANOSECONDS)` is accepted but gives a time-to-live of 0 ms, so nothing is ever valid (`ServerApi.SubMillisecondDurationNeverValid`). The time-to-live in milliseconds is therefore not always positive.
- The `ServerRepository` source cannot be compiled against the `data.Server` source as it stands. `isServerValid` passes the `long` capture time to `Duration.between`, and the repository calls a `protected` constructor from another package. The model reads the capture time as epoch milliseconds and gives the constructor the semantics that `data.Server` defines.

Records of the older package:

- `co/jaqobb/namemc/api/server/Server.java` is not part of this model. Neither is `co/jaqobb/namemc/api/profile/Profile.java`.
- The older services store `ServerApi.Server` and `ProfileApi.Profile`. Each holds the key as the caller gave it, the decoded ids and the capture instant.
- The fetch outcome hands over the ids already decoded.

## Model

| member | source | states |
|---|---|---|
| Text.ToLower | src/main/java/co/jaqobb/namemc/api/server/ServerService.java:227 | `toLowerCase` yields a lower-case string equal to its input ignoring case |
| Text.ToLowerFixesLowerCase | src/main/java/dev/jaqobb/namemc_api/data/Server.java:52-53 | lower-casing an already lower-case string returns it unchanged |
| Text.ToLowerIdempotent | src/main/java/dev/jaqobb/namemc_api/repository/ServerRepository.java:118 | lower-casing twice equals lower-casing once (the repository lower-cases before the constructor lower-cases again) |
| Text.SameKeyIffEqualIgnoringCase | src/main/java/co/jaqobb/namemc/api/server/ServerService.java:227 | two strings give the same lower-cased key iff they are equal ignoring case |
| Uuids.DecodeAll | src/main/java/dev/jaqobb/namemc_api/repository/ServerRepository.java:114-117 | on success the likes have the array's length and `likes[i]` is the parse of element `i`; on failure the index is the first element that does not parse |
| Uuids.DecodeAllSucceedsIffAllParse | src/main/java/co/jaqobb/napi/data/Server.java:48 | decoding succeeds iff every element parses |
| TimeUnits.ToMillis | src/main/java/co/jaqobb/namemc/api/server/ServerService.java:157-160 | the result is the duration in whole milliseconds, rounded down |
| Chrono.DurationOf | src/main/java/dev/jaqobb/namemc_api/repository/ServerRepository.java:67 | `Duration.of` throws only `UnsupportedTemporalTypeException`, and only for an estimated unit; a positive amount gives at least that many nanoseconds, so the repository's time-to-live is positive |
| Caching.StaleStaysStale | src/main/java/co/jaqobb/namemc/api/server/ServerService.java:262-265 | once a record is stale it stays stale at every later instant |
| ServerApi.ServerService.constructor | src/main/java/co/jaqobb/namemc/api/server/ServerService.java:122-126 | stores duration and unit; the cache starts empty |
| ServerApi.ServerService.OfDefault | src/main/java/co/jaqobb/namemc/api/server/ServerService.java:110-113 | the default service lasts 10 minutes = 600000 ms and starts empty |
| ServerApi.ServerService.OfCustom | src/main/java/co/jaqobb/namemc/api/server/ServerService.java:69-76 | a duration < 1 throws IllegalArgumentException; otherwise a null unit throws NullPointerException; success exactly when neither holds, with an empty cache |
| ServerApi.ServerService.IsServerValid | src/main/java/co/jaqobb/namemc/api/server/ServerService.java:262-265 | valid iff the server is non-null and `now` is before capture time + duration in ms |
| ServerApi.ServerService.ExpiryIsPermanent | src/main/java/co/jaqobb/namemc/api/server/ServerService.java:262-265 | a server invalid at `t1` is invalid at every later `t2` |
| ServerApi.ServerService.GetServers | src/main/java/co/jaqobb/namemc/api/server/ServerService.java:168-174 | lists every cached entry; each server is listed under its lower-cased ip |
| ServerApi.ServerService.GetValidServers | src/main/java/co/jaqobb/namemc/api/server/ServerService.java:182-188 | lists only cached entries, each valid at `now` |
| ServerApi.ServerService.GetInvalidServers | src/main/java/co/jaqobb/namemc/api/server/ServerService.java:196-202 | lists only cached entries, each invalid at `now` |
| ServerApi.ServerService.ListingsPartition | src/main/java/co/jaqobb/namemc/api/server/ServerService.java:168-202 | the valid and invalid listings are disjoint and together are the whole cache |
| ServerApi.ServerService.Request | src/main/java/co/jaqobb/namemc/api/server/ServerService.java:221-233 | a null ip throws; a fetch is dispatched on every call; the cached server under the lower-cased ip is answered iff it is valid and `recache` is false |
| ServerApi.ServerService.RequestIgnoresCase | src/main/java/co/jaqobb/namemc/api/server/ServerService.java:227 | ips equal ignoring case get the same answer from the same entry |
| ServerApi.ServerService.Complete | src/main/java/co/jaqobb/namemc/api/server/ServerService.java:233-248 | success stores the new server under the lower-cased ip, leaving other keys alone, and calls back with it; an IOException calls back with the error and leaves the map unchanged; any other exception leaves the map unchanged and never calls back |
| ServerApi.ServerService.ClearServers | src/main/java/co/jaqobb/namemc/api/server/ServerService.java:270-276 | the cache, and so `getServers`, is empty afterwards |
| ServerApi.HitAnswersTwice | src/main/java/co/jaqobb/namemc/api/server/ServerService.java:225-248 | one lookup of a valid cached server calls back with it and then again with the fetched server |
| ServerApi.SubMillisecondDurationNeverValid | src/main/java/co/jaqobb/namemc/api/server/ServerService.java:157-160 | a nanosecond duration below one millisecond makes every server captured at or before `now` invalid |
| ProfileApi.ProfileService.constructor | src/main/java/co/jaqobb/namemc/api/profile/ProfileService.java:117-121 | stores duration and unit; the cache starts empty |
| ProfileApi.ProfileService.OfDefault | src/main/java/co/jaqobb/namemc/api/profile/ProfileService.java:106-109 | the default service lasts 5 minutes = 300000 ms and starts empty |
| ProfileApi.ProfileService.OfCustom | src/main/java/co/jaqobb/namemc/api/profile/ProfileService.java:67-74 | a duration < 1 throws IllegalArgumentException; otherwise a null unit throws NullPointerException("unit"); otherwise an empty service |
| ProfileApi.ProfileService.IsProfileValid | src/main/java/co/jaqobb/namemc/api/profile/ProfileService.java:239-242 | valid iff the profile is non-null and `now` is before capture time + duration in ms |
| ProfileApi.ProfileService.ExpiryIsPermanent | src/main/java/co/jaqobb/namemc/api/profile/ProfileService.java:239-242 | a profile invalid at `t1` is invalid at every later `t2` |
| ProfileApi.ProfileService.GetProfiles | src/main/java/co/jaqobb/namemc/api/profile/ProfileService.java:158-164 | lists every cached entry; each profile is listed under its own id |
| ProfileApi.ProfileService.GetValidProfiles | src/main/java/co/jaqobb/namemc/api/profile/ProfileService.java:171-177 | lists only cached entries, each valid at `now` |
| ProfileApi.ProfileService.GetInvalidProfiles | src/main/java/co/jaqobb/namemc/api/profile/ProfileService.java:184-190 | lists only cached entries, each invalid at `now` |
| ProfileApi.ProfileService.ListingsPartition | src/main/java/co/jaqobb/namemc/api/profile/ProfileService.java:158-190 | the valid and invalid listings are disjoint and together are the whole cache |
| ProfileApi.ProfileService.Request | src/main/java/co/jaqobb/namemc/api/profile/ProfileService.java:201-214 | a null id throws; the cached profile is answered iff it is valid and `recache` is false, and a fetch is dispatched iff it is not answered |
| ProfileApi.ProfileService.Complete | src/main/java/co/jaqobb/namemc/api/profile/ProfileService.java:214-229 | success stores the new profile under its id, leaving other keys alone, and calls back with it; an IOException calls back with the error and leaves the map unchanged; any other exception leaves the map unchanged and never calls back |
| ProfileApi.ProfileService.ClearProfiles | src/main/java/co/jaqobb/namemc/api/profile/ProfileService.java:247-253 | the cache, and so `getProfiles`, is empty afterwards |
| ProfileApi.ExpiryScenario | src/main/java/co/jaqobb/namemc/api/profile/ProfileService.java:205-224 | after a fetch at `t`, a lookup before `t + ttl` is answered from the cache without fetching; one at or after `t + ttl` fetches |
| ProfileApi.FailedFetchIsRetried | src/main/java/co/jaqobb/namemc/api/profile/ProfileService.java:225-228 | a failed fetch reports the IOException and stores nothing, so the next lookup fetches again |
| ProfileApi.LastCompletionWins | src/main/java/co/jaqobb/namemc/api/profile/ProfileService.java:214-224 | two lookups of an uncached id both fetch; the fetch completed last is what stays cached |
| Data.Server.GetLikes | src/main/java/dev/jaqobb/namemc_api/data/Server.java:62-64 | exposes exactly the ids for which `hasLiked` is true |
| Data.Server.HasLiked | src/main/java/dev/jaqobb/namemc_api/data/Server.java:66-71 | a null id throws NullPointerException; otherwise true iff some like is that id |
| Data.Server.Equals | src/main/java/dev/jaqobb/namemc_api/data/Server.java:77-89 | false for null; true iff address, likes and capture time are all equal (so reflexive) |
| Data.New | src/main/java/dev/jaqobb/namemc_api/data/Server.java:52-56 | the stored address is lower case (by its type) and equal to the input ignoring case; likes as given; capture time is `now` |
| Data.NewKeepsLowerCaseAddress | src/main/java/dev/jaqobb/namemc_api/data/Server.java:52-53 | an already lower-case address is stored verbatim |
| Data.Of | src/main/java/dev/jaqobb/namemc_api/data/Server.java:33-46 | a null address, null likes or a null element throws NullPointerException, in that order; success iff none is null, giving the constructor's server |
| NapiData.Server.GetLikes | src/main/java/co/jaqobb/napi/data/Server.java:56-58 | exposes exactly the ids for which `hasLiked` is true |
| NapiData.Server.HasLiked | src/main/java/co/jaqobb/napi/data/Server.java:60-65 | a null id throws NullPointerException; otherwise true iff some like is that id |
| NapiData.Server.Equals | src/main/java/co/jaqobb/napi/data/Server.java:71-83 | false for null; true iff address, likes and capture time are all equal (so reflexive) |
| NapiData.New | src/main/java/co/jaqobb/napi/data/Server.java:40-50 | a null address, then a null array, throws; success iff every element parses; the first bad element's index is reported; the address is kept verbatim; the likes keep the array's length and order; capture time is `now` |
| Repository.ServerRepository.Init | src/main/java/dev/jaqobb/namemc_api/repository/ServerRepository.java:67 | stores the duration; the repository starts empty and satisfies its invariant |
| Repository.ServerRepository.Default | src/main/java/dev/jaqobb/namemc_api/repository/ServerRepository.java:59-61 | the default repository lasts 10 minutes and starts empty |
| Repository.ServerRepository.Create | src/main/java/dev/jaqobb/namemc_api/repository/ServerRepository.java:63-68 | a duration < 1 throws IllegalArgumentException; otherwise an estimated unit throws; success exactly when neither holds, with an empty repository |
| Repository.ServerRepository.IsServerValid | src/main/java/dev/jaqobb/namemc_api/repository/ServerRepository.java:127-129 | valid iff less than the cache duration has elapsed since the capture time |
| Repository.ServerRepository.ExpiryIsPermanent | src/main/java/dev/jaqobb/namemc_api/repository/ServerRepository.java:127-129 | a server invalid at `t1` is invalid at every later `t2` |
| Repository.ServerRepository.GetServers | src/main/java/dev/jaqobb/namemc_api/repository/ServerRepository.java:75-78 | lists every cached entry; each server is listed under its own (lower-case) address |
| Repository.ServerRepository.GetValidServers | src/main/java/dev/jaqobb/namemc_api/repository/ServerRepository.java:80-85 | lists only cached entries, each valid at `now` |
| Repository.ServerRepository.GetInvalidServers | src/main/java/dev/jaqobb/namemc_api/repository/ServerRepository.java:87-92 | lists only cached entries, each invalid at `now` |
| Repository.ServerRepository.ListingsPartition | src/main/java/dev/jaqobb/namemc_api/repository/ServerRepository.java:75-92 | the valid and invalid listings are disjoint and together are the whole cache |
| Repository.ServerRepository.AddServer | src/main/java/dev/jaqobb/namemc_api/repository/ServerRepository.java:94-96 | inserts under the lower-cased address only if that key is absent; an existing entry is kept; every server stays stored under its own address |
| Repository.ServerRepository.RemoveServer | src/main/java/dev/jaqobb/namemc_api/repository/ServerRepository.java:98-100 | removes exactly the lower-cased address key; afterwards no stored server's address equals the removed one ignoring case |
| Repository.ServerRepository.Request | src/main/java/dev/jaqobb/namemc_api/repository/ServerRepository.java:102-109 | the cached server under the lower-cased address is answered iff present, valid and `recache` is false; a fetch is dispatched iff it is not answered |
| Repository.ServerRepository.RequestIgnoresCase | src/main/java/dev/jaqobb/namemc_api/repository/ServerRepository.java:103-104 | addresses equal ignoring case get the same answer from the same entry |
| Repository.ServerRepository.Complete | src/main/java/dev/jaqobb/namemc_api/repository/ServerRepository.java:110-124 | a download whose ids all parse stores a server for the lower-cased address, leaving other keys alone, and calls back with it; every other outcome calls back with the exception and leaves the map unchanged |
| Repository.ServerRepository.ClearServers | src/main/java/dev/jaqobb/namemc_api/repository/ServerRepository.java:131-133 | the repository is empty afterwards |
| Repository.ExpiryScenario | src/main/java/dev/jaqobb/namemc_api/repository/ServerRepository.java:102-129 | with a 100 ms time-to-live and a fetch at 0, the server is valid at 50 and invalid at 150; a lookup at 50 is answered from the cache and one at 150 fetches; the likes keep the array's order |

## Left out

- Concurrency is not modelled: the executors and thread-naming counters, `synchronized` blocks and synchronized maps. A lookup is two sequential steps, `Request` and `Complete`.
- The HTTP download, URL formatting and JSON parsing are not modelled. A fetch is an input outcome: a payload, an `IOException`, or another exception.
- `UUID.fromString` is a parameter `parse` of the decoding.
- `WeakHashMap` eviction by the garbage collector is not modelled: no entry disappears on its own.
- `System.currentTimeMillis` and `Instant.now` are the parameter `now`. Sub-millisecond precision of `Instant.now` is not modelled.
- Overflow is not modelled: `TimeUnit.toMillis` saturation, `Duration.of` arithmetic overflow and `long` wrap-around of `now - cacheTime`. Integers are unbounded.
- `Text.ToLower`: only ASCII letters are mapped. Java's locale-dependent Unicode lower-casing is not modelled, including mappings that change the string's length.
- Callbacks are not values. The `requireNonNull(callback)` checks and the null checks of `@NotNull` parameters are not modelled.
- Listings return the filtered entries as a map from key to record; the collection the source returns is that map's values, in an unspecified order. The unmodifiable-view wrappers are not modelled.
- `getDuration`, `getUnit`, `getAddress`, `getCacheTime` and `getCacheDuration` are plain field reads. `hashCode` and `toString` have no behaviour worth modelling.
- `Data.Of`, `Data.New`: the Java constructor keeps a reference to the caller's likes collection instead of copying it. If the caller later changes that collection, `getLikes`, `hasLiked` and `equals` of the built server change with it. The datatype holds a snapshot taken at construction, so this aliasing is not modelled.
- `ServerApi.ServerService.GetServers`, `ProfileApi.ProfileService.GetProfiles`, `Repository.ServerRepository.GetServers`: the source returns a live, unmodifiable view of the map's values, which later puts, removes and clears show through. The model returns the map's value at the time of the call, so the view's liveness is not modelled.
- `Data.Server.Equals`, `NapiData.Server.Equals`: likes are compared as sequences. This matches the list the caches build, but not an arbitrary `Collection` handed to `Server.of`.
- `NameMCAPI.java`, the facade holding two repositories, is not part of this model.
