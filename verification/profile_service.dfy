/** `co.jaqobb.namemc.api.profile.ProfileService`: profiles cached by unique
    id, with a time-to-live given as a duration and a `TimeUnit`. */
module ProfileApi {
  import opened Lang
  import opened Uuids
  import opened TimeUnits
  import opened Caching

  /** A cached profile as the service sees it: its unique id, the decoded
      friends and the instant (epoch milliseconds) it was built. */
  datatype Profile = Profile(uniqueId: Uuid, friends: seq<Uuid>, cacheTime: int)

  class ProfileService {
    const duration: nat
    const unit: TimeUnit
    var profiles: map<Uuid, Profile>

    /** Every reachable service: each profile is stored under its own id. */
    ghost predicate Valid()
      reads this
    {
      forall id :: id in profiles ==> profiles[id].uniqueId == id
    }

    /** The private constructor; both factories pass it a duration of at least 1. */
    constructor (duration: nat, unit: TimeUnit)
      requires duration >= 1
      ensures Valid() && this.duration == duration && this.unit == unit && profiles == map[]
    {
      this.duration := duration;
      this.unit := unit;
      profiles := map[];
    }

    /** `ofDefault()`: five minutes. */
    static method OfDefault() returns (service: ProfileService)
      ensures fresh(service) && service.Valid() && service.profiles == map[]
      ensures service.duration == 5 && service.unit == Minutes
      ensures service.DurationMillis() == 300_000
    {
      service := new ProfileService(5, Minutes);
    }

    /** `ofCustom(duration, unit)`: a duration below 1 is refused before the
        unit is checked for null. */
    static method OfCustom(duration: int, unit: Option<TimeUnit>) returns (r: Result<ProfileService, Exception>)
      ensures duration < 1 ==> r == Failure(IllegalArgument("duration < 1"))
      ensures duration >= 1 && unit.None? ==> r == Failure(NullPointer("unit"))
      ensures r.Success? <==> duration >= 1 && unit.Some?
      ensures r.Success? ==>
        fresh(r.value) && r.value.Valid() && r.value.duration == duration && Some(r.value.unit) == unit && r.value.profiles == map[]
    {
      if duration < 1 {
        return Failure(IllegalArgument("duration < 1"));
      }
      if unit.None? {
        return Failure(NullPointer("unit"));
      }
      var service := new ProfileService(duration, unit.value);
      return Success(service);
    }

    /** `getDurationMillis()`. */
    function DurationMillis(): nat
    {
      ToMillis(duration, unit)
    }

    /** `isProfileValid(profile)`: a missing profile is never valid; a present
        one is valid until `DurationMillis()` after its capture. */
    predicate IsProfileValid(profile: Option<Profile>, now: int)
      ensures IsProfileValid(profile, now) <==>
        profile.Some? && now < profile.value.cacheTime + DurationMillis()
    {
      profile.Some? && Fresh(profile.value.cacheTime, now, DurationMillis())
    }

    /** A profile that is no longer valid never becomes valid again. */
    lemma ExpiryIsPermanent(profile: Profile, t1: int, t2: int)
      requires t1 <= t2 && !IsProfileValid(Some(profile), t1)
      ensures !IsProfileValid(Some(profile), t2)
    {
      StaleStaysStale(profile.cacheTime, t1, t2, DurationMillis());
    }

    /** `profiles.get(uniqueId)`: `None` for an absent key. */
    function Get(uniqueId: Uuid): Option<Profile>
      reads this
    {
      if uniqueId in profiles then Some(profiles[uniqueId]) else None
    }

    /** `getProfiles()`, keyed: the values of this map are the collection, and
        every profile is listed under its own id. */
    function GetProfiles(): (all: map<Uuid, Profile>)
      requires Valid()
      reads this
      ensures forall id :: id in all ==> all[id].uniqueId == id
    {
      profiles
    }

    /** `getValidProfiles(now)`: entries of the cache that are valid at `now`. */
    function GetValidProfiles(now: int): (valid: map<Uuid, Profile>)
      reads this
      ensures IsSubMap(valid, profiles)
      ensures forall k :: k in valid ==> IsProfileValid(Some(valid[k]), now)
    {
      map k | k in profiles && IsProfileValid(Some(profiles[k]), now) :: profiles[k]
    }

    /** `getInvalidProfiles(now)`: entries of the cache that are not valid at `now`. */
    function GetInvalidProfiles(now: int): (invalid: map<Uuid, Profile>)
      reads this
      ensures IsSubMap(invalid, profiles)
      ensures forall k :: k in invalid ==> !IsProfileValid(Some(invalid[k]), now)
    {
      map k | k in profiles && !IsProfileValid(Some(profiles[k]), now) :: profiles[k]
    }

    /** Every cached profile is listed as valid or as invalid, never both. */
    lemma ListingsPartition(now: int)
      requires Valid()
      ensures GetValidProfiles(now).Keys !! GetInvalidProfiles(now).Keys
      ensures GetValidProfiles(now) + GetInvalidProfiles(now) == GetProfiles()
    {
    }

    /** The synchronous part of `getProfile(uniqueId, recache, callback)`: a
        null id throws; a cached profile valid at `now` is passed to the
        callback when `recache` is not set, and then nothing is fetched;
        otherwise a fetch is dispatched. Exactly one of the two happens. */
    function Request(uniqueId: Option<Uuid>, recache: bool, now: int): (r: Result<Action<Profile>, Exception>)
      reads this
      ensures uniqueId.None? <==> r.Failure?
      ensures r.Success? ==> (r.value.fetch <==> r.value.answer.None?)
      ensures r.Success? && r.value.answer.Some? ==>
        !recache && Get(uniqueId.value) == r.value.answer && IsProfileValid(r.value.answer, now)
      ensures r.Success? && r.value.fetch ==>
        recache || !IsProfileValid(Get(uniqueId.value), now)
    {
      if uniqueId.None? then Failure(NullPointer("uniqueId"))
      else
        var profile := Get(uniqueId.value);
        if IsProfileValid(profile, now) && !recache then Success(Action(profile, false))
        else Success(Action(None, true))
    }

    /** The dispatched task of `getProfile`, finishing at `now`: a fetched
        profile replaces the entry for its id and is passed to the callback;
        an `IOException` is passed to the callback and the cache is left alone;
        any other exception escapes the task, so the callback is never called
        and the cache is left alone. */
    method Complete(uniqueId: Uuid, outcome: Fetch<seq<Uuid>>, now: int) returns (delivery: Option<Delivery<Profile>>)
      requires Valid()
      modifies this
      ensures Valid()
      ensures outcome.Fetched? ==>
        profiles == old(profiles)[uniqueId := Profile(uniqueId, outcome.payload, now)] &&
        delivery == Some(Delivered(Profile(uniqueId, outcome.payload, now)))
      ensures outcome.IoFailure? ==> profiles == old(profiles) && delivery == Some(Failed(Io(outcome.message)))
      ensures outcome.RuntimeFailure? ==> profiles == old(profiles) && delivery == None
    {
      match outcome
      case Fetched(friends) =>
        var profile := Profile(uniqueId, friends, now);
        profiles := profiles[uniqueId := profile];
        delivery := Some(Delivered(profile));
      case IoFailure(message) =>
        delivery := Some(Failed(Io(message)));
      case RuntimeFailure(_) =>
        delivery := None;
    }

    /** `clearProfiles()`. */
    method ClearProfiles()
      requires Valid()
      modifies this
      ensures Valid() && profiles == map[] && GetProfiles() == map[]
    {
      profiles := map[];
    }
  }

  /** A profile fetched at `t` into a cache with a time-to-live of `ttl`
      milliseconds: a lookup while it is fresh is answered from the cache
      without a fetch; a lookup once it has expired dispatches a new fetch. */
  method ExpiryScenario(ttl: nat, uniqueId: Uuid, friends: seq<Uuid>, t: int, during: int, after: int)
    returns (first: Action<Profile>, second: Action<Profile>)
    requires ttl >= 1 && t <= during < t + ttl <= after
    ensures first == Action(Some(Profile(uniqueId, friends, t)), false)
    ensures second == Action(None, true)
  {
    var service := new ProfileService(ttl, Milliseconds);
    var _ := service.Complete(uniqueId, Fetched(friends), t);
    var r1 := service.Request(Some(uniqueId), false, during);
    var r2 := service.Request(Some(uniqueId), false, after);
    first, second := r1.value, r2.value;
  }

  /** A fetch that fails with an `IOException` reports it and stores nothing,
      so the next lookup of the same id fetches again. */
  method FailedFetchIsRetried(uniqueId: Uuid, message: string, t: int, later: int)
    returns (reported: Option<Delivery<Profile>>, next: Action<Profile>)
    ensures reported == Some(Failed(Io(message)))
    ensures next == Action(None, true)
  {
    var service := ProfileService.OfDefault();
    reported := service.Complete(uniqueId, IoFailure(message), t);
    var r := service.Request(Some(uniqueId), false, later);
    next := r.value;
  }

  /** Two lookups of an id never fetched both dispatch a fetch; both fetches
      reach the callback, and the one that completes last is what stays
      cached. */
  method LastCompletionWins(uniqueId: Uuid, a: seq<Uuid>, b: seq<Uuid>, t1: int, t2: int)
    returns (first: Action<Profile>, second: Action<Profile>, cached: map<Uuid, Profile>)
    ensures first == second == Action(None, true)
    ensures cached == map[uniqueId := Profile(uniqueId, b, t2)]
  {
    var service := ProfileService.OfDefault();
    var r1 := service.Request(Some(uniqueId), false, t1);
    var r2 := service.Request(Some(uniqueId), false, t1);
    first, second := r1.value, r2.value;
    var _ := service.Complete(uniqueId, Fetched(a), t1);
    var _ := service.Complete(uniqueId, Fetched(b), t2);
    cached := service.profiles;
  }
}
